/**
 The cached server client under its reader/writer lock, with any number of callers of
 getClient and any number of writers of the config entry (configWrite, configDelete and the
 switch of a rotation), each stepped from one lock operation or storage access to the next.

 Stored values are numbered. A writer stores first and invalidates afterwards, so in between
 the cache may be behind; everything here says how far behind it can be.
 */
module ClientCache {
  import opened Wrappers
  import opened Configuration

  /** A client, by the stored value it was built from. */
  datatype Client = Client(version: nat, config: Config)

  /**
   Where a thread stands. The floor of a getClient call is the newest version whose writer had
   finished when the call began.
   */
  datatype Thread =
    | GetCalled(floor: nat)
    | GetMissed(floor: nat)                          // saw an empty cache under the read lock
    | GetLocked(floor: nat)                          // holds the write lock, checked again
    | GetRead(floor: nat, version: nat)              // holds the write lock, read the config
    | GetReturned(floor: nat, client: Client)
    | GetFailed
    | PutCalled(config: Option<Config>)
    | PutStored(version: nat)                        // between its store and its invalidate
    | PutReturned(version: nat)

  datatype World = World(
    history: seq<Option<Config>>,     // every value the config entry ever had, the last is stored
    cache: Option<Client>,
    holder: Option<nat>,              // who holds the write lock
    settled: nat,                     // the newest version whose writer has invalidated
    threads: map<nat, Thread>)

  datatype Move =
    | CallGet(thread: nat)
    | CallPut(thread: nat, config: Option<Config>)
    | Run(thread: nat, fails: bool)   // one step; fails: its storage access or build fails
    | Restart

  function Version(w: World): nat
    requires w.history != []
  {
    |w.history| - 1
  }

  function Stored(w: World): Option<Config>
    requires w.history != []
  {
    w.history[|w.history| - 1]
  }

  function With(w: World, t: nat, thread: Thread): World {
    w.(threads := w.threads[t := thread])
  }

  /** The lock holder leaves with the given outcome. */
  function Release(w: World, t: nat, thread: Thread): World {
    With(w.(holder := None), t, thread)
  }

  /** A step of thread t; a thread that has to wait for the lock does nothing. */
  function RunThread(w: World, t: nat, fails: bool): World
    requires w.history != [] && t in w.threads
  {
    match w.threads[t]
    case GetCalled(floor) =>
      if w.holder.Some? then w
      else if w.cache.Some? then With(w, t, GetReturned(floor, w.cache.value))
      else With(w, t, GetMissed(floor))
    case GetMissed(floor) =>
      if w.holder.Some? then w
      else if w.cache.Some? then With(w, t, GetReturned(floor, w.cache.value))
      else With(w.(holder := Some(t)), t, GetLocked(floor))
    case GetLocked(floor) =>
      if fails then Release(w, t, GetFailed) else With(w, t, GetRead(floor, Version(w)))
    case GetRead(floor, version) =>
      if fails || version >= |w.history| || w.history[version].None? then Release(w, t, GetFailed)
      else
        var client := Client(version, w.history[version].value);
        Release(w.(cache := Some(client)), t, GetReturned(floor, client))
    case PutCalled(config) =>
      if fails then With(w, t, PutReturned(0))
      else With(w.(history := w.history + [config]), t, PutStored(|w.history|))
    case PutStored(version) =>
      if w.holder.Some? then w
      else With(w.(cache := None, settled := if version > w.settled then version else w.settled), t, PutReturned(version))
    case GetReturned(_, _) => w
    case GetFailed => w
    case PutReturned(_) => w
  }

  function Apply(w: World, m: Move): World
    requires w.history != []
    ensures Apply(w, m).history != []
  {
    match m
    case CallGet(t) => if t in w.threads then w else With(w, t, GetCalled(w.settled))
    case CallPut(t, config) => if t in w.threads then w else With(w, t, PutCalled(config))
    case Run(t, fails) => if t in w.threads then RunThread(w, t, fails) else w
    case Restart => w.(cache := None, holder := None, settled := Version(w), threads := map[])
  }

  function After(w: World, ms: seq<Move>): (v: World)
    requires w.history != []
    ensures v.history != []
  {
    if ms == [] then w else Apply(After(w, ms[..|ms| - 1]), ms[|ms| - 1])
  }

  predicate Initial(w: World) {
    |w.history| == 1 && w.cache.None? && w.holder.None? && w.settled == 0 && w.threads == map[]
  }

  /** A client built from a stored value that no finished writer has replaced. */
  predicate Recent(w: World, c: Client) {
    w.settled <= c.version < |w.history| && w.history[c.version] == Some(c.config)
  }

  predicate Holding(thread: Thread) {
    thread.GetLocked? || thread.GetRead?
  }

  /** What holds of thread t wherever it stands. */
  predicate InPlace(w: World, t: nat, thread: Thread) {
    && (Holding(thread) <==> w.holder == Some(t))
    && match thread
       case GetCalled(floor) => floor <= w.settled
       case GetMissed(floor) => floor <= w.settled
       case GetLocked(floor) => floor <= w.settled
       case GetRead(floor, version) => floor <= w.settled <= version < |w.history|
       case GetReturned(floor, c) => floor <= c.version < |w.history| && w.history[c.version] == Some(c.config)
       case PutStored(version) => version < |w.history|
       case PutReturned(version) => version <= w.settled
       case GetFailed => true
       case PutCalled(_) => true
  }

  /** The newest writer has finished, or is between its store and its invalidate. */
  predicate NewestKnown(w: World)
    requires w.history != []
  {
    w.settled < Version(w) ==> exists t :: t in w.threads && w.threads[t] == PutStored(Version(w))
  }

  predicate Globals(w: World) {
    && w.history != [] && w.settled <= Version(w)
    && (w.cache.Some? ==> Recent(w, w.cache.value))
    && (w.holder.Some? ==> w.cache.None? && w.holder.value in w.threads)
  }

  predicate Inv(w: World) {
    Globals(w) && NewestKnown(w) && forall t :: t in w.threads ==> InPlace(w, t, w.threads[t])
  }

  lemma GlobalsStep(w: World, m: Move)
    requires Inv(w)
    ensures Globals(Apply(w, m))
  {
    hide NewestKnown;
    if m.Run? && m.thread in w.threads {
      assert InPlace(w, m.thread, w.threads[m.thread]);
    }
  }

  /** A step of another thread leaves t in place. */
  lemma OtherInPlace(w: World, m: Move, t: nat)
    requires Inv(w) && t in w.threads && !m.Restart? && (m.Run? ==> m.thread != t)
    ensures t in Apply(w, m).threads && Apply(w, m).threads[t] == w.threads[t]
    ensures InPlace(Apply(w, m), t, w.threads[t])
  {
    hide NewestKnown;
    assert InPlace(w, t, w.threads[t]);
    if m.Run? && m.thread in w.threads {
      assert InPlace(w, m.thread, w.threads[m.thread]);
    }
  }

  lemma MoverInPlace(w: World, t: nat, fails: bool)
    requires Inv(w) && t in w.threads
    ensures InPlace(RunThread(w, t, fails), t, RunThread(w, t, fails).threads[t])
  {
    hide NewestKnown;
    assert InPlace(w, t, w.threads[t]);
  }

  lemma NewestStep(w: World, m: Move)
    requires Inv(w)
    ensures NewestKnown(Apply(w, m))
  {
    var v := Apply(w, m);
    if v.settled < Version(v) {
      if v.history == w.history {
        var t :| t in w.threads && w.threads[t] == PutStored(Version(w));
        assert t in v.threads && v.threads[t] == PutStored(Version(v));
      } else {
        assert m.thread in v.threads && v.threads[m.thread] == PutStored(Version(v));
      }
    }
  }

  lemma InvStep(w: World, m: Move)
    requires Inv(w)
    ensures Inv(Apply(w, m))
  {
    GlobalsStep(w, m);
    NewestStep(w, m);
    var v := Apply(w, m);
    forall t | t in v.threads
      ensures InPlace(v, t, v.threads[t])
    {
      hide NewestKnown;
      if t in w.threads {
        if m.Run? && m.thread == t {
          MoverInPlace(w, t, m.fails);
        } else {
          OtherInPlace(w, m, t);
        }
      }
    }
  }

  lemma {:induction false} InvAlways(w: World, ms: seq<Move>)
    requires Initial(w)
    ensures Inv(After(w, ms))
  {
    if ms != [] {
      InvAlways(w, ms[..|ms| - 1]);
      InvStep(After(w, ms[..|ms| - 1]), ms[|ms| - 1]);
    }
  }

  /** Some writer has stored and not yet invalidated. */
  predicate WriterPending(w: World) {
    exists t :: t in w.threads && w.threads[t].PutStored?
  }

  /** What the holder of the write lock read from storage. */
  predicate HolderRead(w: World, t: nat, config: Option<Config>) {
    && t in w.threads && w.threads[t].GetRead? && w.threads[t].version < |w.history|
    && w.history[w.threads[t].version] == config
  }

  /**
   In every interleaving, a cached client or a value read under the lock that differs from the
   stored config means that a writer is still on its way to invalidate.
   */
  lemma StaleOnlyWhileWriterPending(w: World, ms: seq<Move>, t: nat, config: Option<Config>)
    requires Initial(w)
    ensures var v := After(w, ms);
            && (v.cache.Some? && Some(v.cache.value.config) != Stored(v) ==> WriterPending(v))
            && (HolderRead(v, t, config) && config != Stored(v) ==> WriterPending(v))
  {
    hide After;
    InvAlways(w, ms);
  }

  /** With no writer on its way the cache is empty or built from the stored config. */
  lemma CoherentAtRest(w: World, ms: seq<Move>)
    requires Initial(w) && !WriterPending(After(w, ms))
    ensures var v := After(w, ms); v.cache.Some? ==> v.cache.value == Client(Version(v), v.cache.value.config) && Some(v.cache.value.config) == Stored(v)
  {
    InvAlways(w, ms);
  }

  /**
   A getClient call that begins after a config write has returned never gets a client older
   than that write.
   */
  lemma {:induction false} NoStaleClientAfterReturn(w: World, ms: seq<Move>, put: nat, get: nat, more: seq<Move>)
    requires Initial(w)
    requires put in After(w, ms).threads && After(w, ms).threads[put].PutReturned?
    requires get !in After(w, ms).threads
    requires var v := After(w, ms + [CallGet(get)] + more); get in v.threads && v.threads[get].GetReturned?
    requires forall k :: 0 <= k < |more| ==> !more[k].Restart?
    ensures var v := After(w, ms + [CallGet(get)] + more);
            After(w, ms).threads[put].version <= v.threads[get].client.version
  {
    var begun := ms + [CallGet(get)];
    InvAlways(w, ms);
    assert InPlace(After(w, ms), put, After(w, ms).threads[put]);
    assert begun[..|begun| - 1] == ms;
    FloorKept(w, begun, get, more, After(w, ms).settled);
    InvAlways(w, begun + more);
    var v := After(w, begun + more);
    assert InPlace(v, get, v.threads[get]);
  }

  function Floor(thread: Thread): nat
    requires thread.GetCalled? || thread.GetMissed? || thread.GetLocked? || thread.GetRead? || thread.GetReturned?
  {
    thread.floor
  }

  predicate Getting(thread: Thread) {
    thread.GetCalled? || thread.GetMissed? || thread.GetLocked? || thread.GetRead? || thread.GetReturned? || thread.GetFailed?
  }

  predicate KeepsFloor(w: World, get: nat, floor: nat) {
    && get in w.threads && Getting(w.threads[get])
    && (!w.threads[get].GetFailed? ==> Floor(w.threads[get]) == floor)
  }

  lemma FloorStep(w: World, m: Move, get: nat, floor: nat)
    requires w.history != [] && KeepsFloor(w, get, floor) && !m.Restart?
    ensures KeepsFloor(Apply(w, m), get, floor)
  {
  }

  /** A call keeps its floor to its end. */
  lemma {:induction false} FloorKept(w: World, begun: seq<Move>, get: nat, more: seq<Move>, floor: nat)
    requires w.history != []
    requires KeepsFloor(After(w, begun), get, floor)
    requires forall k :: 0 <= k < |more| ==> !more[k].Restart?
    ensures KeepsFloor(After(w, begun + more), get, floor)
  {
    hide KeepsFloor, Apply;
    if more == [] {
      assert begun + more == begun;
    } else {
      var front := more[..|more| - 1];
      FloorKept(w, begun, get, front, floor);
      assert (begun + more)[..|begun + more| - 1] == begun + front;
      FloorStep(After(w, begun + front), more[|more| - 1], get, floor);
    }
  }

  // ---- Calls come to an end ----

  /** Thread t runs n steps by itself, and nothing fails. */
  function Alone(t: nat, n: nat): (ms: seq<Move>)
    ensures |ms| == n && forall k :: 0 <= k < n ==> ms[k] == Run(t, false)
  {
    seq(n, k => Run(t, false))
  }

  lemma {:induction false} RunOn(w: World, ms: seq<Move>, t: nat, n: nat)
    requires w.history != [] && n > 0
    ensures After(w, ms + Alone(t, n)) == Apply(After(w, ms + Alone(t, n - 1)), Run(t, false))
  {
    assert (ms + Alone(t, n))[..|ms + Alone(t, n)| - 1] == ms + Alone(t, n - 1);
  }

  /** With a cached client and the lock free, one step of a new call returns that client. */
  lemma CachedClientIsReturned(w: World, ms: seq<Move>, t: nat, fails: bool)
    requires Initial(w)
    requires var v := After(w, ms); v.holder.None? && v.cache.Some? && t in v.threads && v.threads[t].GetCalled?
    ensures var v := After(w, ms);
            && Apply(v, Run(t, fails)).threads[t].GetReturned?
            && Apply(v, Run(t, fails)).threads[t].client == v.cache.value && Apply(v, Run(t, fails)).cache == v.cache
  {
    hide After;
  }

  /**
   With an empty cache, the lock free and a config stored, a new call that runs alone and meets
   no failure returns a client of that config and leaves it in the cache.
   */
  lemma ClientIsBuilt(w: World, ms: seq<Move>, t: nat)
    requires Initial(w)
    requires var v := After(w, ms);
             v.holder.None? && v.cache.None? && Stored(v).Some? && t in v.threads && v.threads[t].GetCalled?
    ensures var u := After(w, ms + Alone(t, 4));
            && t in u.threads && u.threads[t].GetReturned? && u.cache == Some(u.threads[t].client) && u.holder.None?
            && Some(u.threads[t].client.config) == Stored(After(w, ms)) && Stored(u) == Stored(After(w, ms))
  {
    assert ms + Alone(t, 0) == ms;
    RunOn(w, ms, t, 1);
    RunOn(w, ms, t, 2);
    RunOn(w, ms, t, 3);
    RunOn(w, ms, t, 4);
    hide After, Apply;
    BuildSteps(After(w, ms), t);
  }

  lemma BuildSteps(v: World, t: nat)
    requires v.history != [] && v.holder.None? && v.cache.None? && Stored(v).Some? && t in v.threads && v.threads[t].GetCalled?
    ensures var m := Run(t, false);
            var u := Apply(Apply(Apply(Apply(v, m), m), m), m);
            && t in u.threads && u.threads[t].GetReturned? && u.cache == Some(u.threads[t].client) && u.holder.None?
            && Some(u.threads[t].client.config) == Stored(v) && Stored(u) == Stored(v)
  {
    var m := Run(t, false);
    var two := Apply(Apply(v, m), m);
    assert two == With(v.(holder := Some(t)), t, GetLocked(v.threads[t].floor));
    var three := Apply(two, m);
    assert three == With(v.(holder := Some(t)), t, GetRead(v.threads[t].floor, Version(v)));
  }

  /** A call fails only in a step that fails, or for want of a config. */
  lemma FailureHasACause(w: World, ms: seq<Move>, m: Move, t: nat)
    requires Initial(w)
    requires t in After(w, ms).threads && !After(w, ms).threads[t].GetFailed?
    requires t in Apply(After(w, ms), m).threads && Apply(After(w, ms), m).threads[t].GetFailed?
    ensures m == Run(t, true) || (m == Run(t, false) && HolderRead(After(w, ms), t, None))
  {
    InvAlways(w, ms);
    hide After, NewestKnown;
    assert InPlace(After(w, ms), t, After(w, ms).threads[t]);
  }

  /** A write that runs alone and meets no failure is stored and leaves no client behind. */
  lemma WriteTakesEffect(w: World, ms: seq<Move>, t: nat)
    requires Initial(w)
    requires var v := After(w, ms); v.holder.None? && t in v.threads && v.threads[t].PutCalled?
    ensures var v, u := After(w, ms), After(w, ms + Alone(t, 2));
            && t in u.threads && Stored(u) == v.threads[t].config && u.cache.None? && u.threads[t] == PutReturned(Version(u))
            && Version(u) == Version(v) + 1
  {
    assert ms + Alone(t, 0) == ms;
    RunOn(w, ms, t, 1);
    RunOn(w, ms, t, 2);
    hide After;
  }

  /** A write whose store fails changes nothing. */
  lemma FailedWriteChangesNothing(w: World, t: nat)
    requires w.history != [] && t in w.threads && w.threads[t].PutCalled?
    ensures var v := Apply(w, Run(t, true)); v.history == w.history && v.cache == w.cache && v.threads[t].PutReturned?
  {
  }
}
