/**
 Issuing a credential, rolling one back and revoking one, in the order of their effects. None
 of them holds a lock: before every call other requests, sweeps and operators may do whatever
 IssuanceProtocol allows them, for as long as the call may last. The ghost trace holds the
 effects of all of them and is kept a legal run. Every answer of the server is an arbitrary
 response that has gone through the classification of PveClient.
 */
module IssuanceEngine {
  import opened Wrappers
  import opened Answers
  import opened IssuanceProtocol
  import opened Lifetime
  import Suffix
  import TokenId
  import UserId

  const MAX_ATTEMPTS: nat := 5
  const CALL_SECONDS: nat := 30   // httpTimeout

  datatype Naming = Named(id: nat, userid: string) | Exhausted | Aborted

  datatype Token = Token(id: string, secret: string)

  datatype Reply = Issued(id: nat, userid: string, token: Option<Token>, grant: Grant) | NotIssued

  /** The log of one request: its WAL writes and deletes, its CreateUser calls, and a draw that was in use. */
  datatype Call = Put(id: nat) | Asked(id: nat, answer: Creation) | Dropped(id: nat) | Stale(nonce: string)

  /** The mark an issued user carries: recognisable, and random. */
  predicate Marker(nonce: string) {
    |nonce| == 18 && nonce[..10] == "vault-wal:" && Suffix.IsSuffix(nonce[10..])
  }

  function Book(before: set<nat>, c: Call): set<nat> {
    match c
    case Put(id) => before + {id}
    case Asked(_, _) => before
    case Stale(_) => before
    case Dropped(id) => before - {id}
  }

  /** WAL entries written and not deleted. */
  function Outstanding(log: seq<Call>): set<nat> {
    if log == [] then {} else Book(Outstanding(log[..|log| - 1]), log[|log| - 1])
  }

  function Requests(log: seq<Call>): nat {
    if log == [] then 0
    else Requests(log[..|log| - 1]) + if log[|log| - 1].Asked? then 1 else 0
  }

  /** At most five CreateUser calls, and never two entries of one request at a time. */
  ghost predicate Disciplined(log: seq<Call>) {
    Requests(log) <= MAX_ATTEMPTS && AtMostOne(log)
  }

  ghost predicate AtMostOne(log: seq<Call>) {
    (log == [] || AtMostOne(log[..|log| - 1])) && forall i, j :: i in Outstanding(log) && j in Outstanding(log) ==> i == j
  }

  /** The entries of the request that are still stored are the outstanding ones. */
  ghost predicate Accounted(w: World, log: seq<Call>) {
    forall id :: Put(id) in log ==> id in w.attempts && (id in w.wals ==> id in Outstanding(log))
  }

  /** Every attempt of the request asks for this expiry, and all but the one in hand are over. */
  ghost predicate Over(w: World, log: seq<Call>, expire: int, inHand: set<nat>) {
    forall id :: Put(id) in log ==>
      id in w.attempts && w.attempts[id].expire == expire && (id !in inHand ==> !Running(w, id) && id !in w.handed)
  }

  /** Some creation of the log succeeded. */
  ghost predicate Succeeded(log: seq<Call>) {
    exists id :: Asked(id, CreatedUser) in log
  }

  /** Five creations, and each of them collided. */
  ghost predicate FiveConflicts(log: seq<Call>) {
    Requests(log) == 5 && AllConflicts(log)
  }

  predicate AllConflicts(log: seq<Call>) {
    forall c :: c in log && c.Asked? ==> c.answer.Conflict?
  }

  /** A drawn nonce was in use: what the assumption about randomness excludes. */
  ghost predicate Unlucky(w: World, log: seq<Call>) {
    exists nonce :: Stale(nonce) in log && Marker(nonce) && !FreshNonce(w, nonce)
  }

  lemma Append(log: seq<Call>, c: Call)
    ensures Outstanding(log + [c]) == Book(Outstanding(log), c)
    ensures Requests(log + [c]) == Requests(log) + if c.Asked? then 1 else 0
    ensures AtMostOne(log) && (c.Put? ==> Outstanding(log) <= {c.id}) ==> AtMostOne(log + [c])
  {
    assert (log + [c])[..|log|] == log;
  }

  /** The calls of one pass: an entry, a CreateUser, and after a collision the entry's delete. */
  ghost predicate Pass(calls: seq<Call>, id: nat, answer: Creation) {
    || calls == [Put(id), Asked(id, answer)]
    || (answer.Conflict? && calls == [Put(id), Asked(id, answer), Dropped(id)])
  }

  lemma AppendStale(log: seq<Call>, nonce: string)
    requires AtMostOne(log)
    ensures AtMostOne(log + [Stale(nonce)]) && Requests(log + [Stale(nonce)]) == Requests(log)
    ensures Outstanding(log + [Stale(nonce)]) == Outstanding(log)
  {
    Append(log, Stale(nonce));
  }

  lemma EmptyLog()
    ensures Outstanding([]) == {} && Requests([]) == 0 && AtMostOne([])
    ensures forall w :: Accounted(w, [])
    ensures forall w, expire, inHand :: Over(w, [], expire, inHand)
  {
  }

  lemma AppendPass(log: seq<Call>, calls: seq<Call>, id: nat, answer: Creation)
    requires Outstanding(log) == {} && AtMostOne(log) && Pass(calls, id, answer)
    ensures AtMostOne(log + calls) && Requests(log + calls) == Requests(log) + 1
    ensures Outstanding(log + calls) == if |calls| == 3 then {} else {id}
  {
    var one := log + [Put(id)];
    var two := one + [Asked(id, answer)];
    Append(log, Put(id));
    Append(one, Asked(id, answer));
    if |calls| == 3 {
      Append(two, Dropped(id));
      assert log + calls == two + [Dropped(id)];
    } else {
      assert log + calls == two;
    }
  }

  /** What one pass logs: nothing, a draw in use, or the calls of a new attempt. */
  ghost predicate TrialLog(v: World, w: World, calls: seq<Call>) {
    || calls == []
    || (|calls| == 1 && calls[0].Stale?)
    || exists id, answer :: id in w.attempts && id !in v.attempts && Pass(calls, id, answer)
  }

  /** The log before a pass and the pass make the log after it. */
  lemma AppendTrial(v: World, w: World, log: seq<Call>, calls: seq<Call>, expire: int, inHand: set<nat>)
    requires Outstanding(log) == {} && AtMostOne(log) && Accounted(v, log) && Over(v, log, expire, {}) && Later(v, w)
    requires TrialLog(v, w, calls) && Over(w, calls, expire, inHand)
    requires |calls| == 3 ==> calls[0].Put? && calls[0].id !in w.wals
    ensures AtMostOne(log + calls) && Accounted(w, log + calls) && Over(w, log + calls, expire, inHand)
    ensures Requests(log + calls) == Requests(log) + if |calls| >= 2 then 1 else 0
    ensures Outstanding(log + calls) == if |calls| == 2 && calls[0].Put? then {calls[0].id} else {}
    ensures forall c :: c in log + calls <==> c in log || c in calls
  {
    hide Outstanding, Requests, AtMostOne, Running;
    if calls == [] {
      assert log + calls == log;
    } else if calls[0].Stale? {
      AppendStale(log, calls[0].nonce);
      assert calls == [calls[0]];
    } else {
      var id, answer :| id in w.attempts && id !in v.attempts && Pass(calls, id, answer);
      AppendPass(log, calls, id, answer);
    }
  }

  /** What the end of a request adds to the log of its retry loop. */
  lemma LogOfDelivery(named: seq<Call>, delivered: seq<Call>, id: nat)
    requires Outstanding(named) == {id} && Disciplined(named)
    requires delivered == [] || delivered == [Dropped(id)]
    ensures Disciplined(named + delivered)
    ensures Outstanding(named + delivered) == if delivered == [] then {id} else {}
    ensures forall c :: c in named + delivered <==> c in named || c in delivered
    ensures Requests(named + delivered) == Requests(named)
  {
    if delivered == [] {
      assert named + delivered == named;
    } else {
      Append(named, Dropped(id));
    }
  }

  lemma NoneHanded(w: World, log: seq<Call>, expire: int)
    requires Over(w, log, expire, {})
    ensures forall id :: Put(id) in log ==> id !in w.handed
  {
  }

  /** And what that means for the attempts in it. */
  lemma OverAfterDelivery(v: World, w: World, named: seq<Call>, delivered: seq<Call>, id: nat, expire: int)
    requires Outstanding(named) == {id} && Disciplined(named) && Put(id) in named
    requires delivered == [] || (delivered == [Dropped(id)] && id !in w.wals)
    requires Accounted(v, named) && Over(v, named, expire, {id}) && Later(v, w) && id in w.attempts && !Running(w, id)
    ensures Accounted(w, named + delivered) && Over(w, named + delivered, expire, if id in w.handed then {id} else {})
    ensures w.attempts[id].expire == expire
    ensures id in w.handed <==> exists k :: Put(k) in named + delivered && k in w.handed
  {
    hide Outstanding, Disciplined, Running;
    LogOfDelivery(named, delivered, id);
    assert forall k :: Put(k) in named + delivered <==> Put(k) in named;
    if id in w.handed {
      assert Put(id) in named + delivered;
    }
  }

  class Engine {
    var w: World
    const storageBound: nat          // no storage call takes longer
    const calm: bool                 // no call of this process fails
    var tokens: map<nat, string>     // secrets of the lease tokens that were minted, by attempt
    ghost const start: World
    ghost var trace: seq<Effect>

    /** The run so far is legal, and a request's calls together are quicker than MIN_AGE. */
    ghost predicate Valid()
      reads this
    {
      && Inv(start) && Legal(start, trace) && w == After(start, trace) && Inv(w)
      && 4 * CALL_SECONDS + 3 * storageBound < MIN_AGE
    }

    constructor (users: map<string, User>, storageBound: nat, calm: bool)
      requires 4 * CALL_SECONDS + 3 * storageBound < MIN_AGE
      ensures Valid() && trace == [] && this.calm == calm && w == Empty(users)
    {
      this.w, this.start, this.trace, this.storageBound, this.calm, tokens := Empty(users), Empty(users), [], storageBound, calm, map[];
    }

    // ---- The environment ----

    method Act(e: Effect)
      requires Valid() && Allowed(w, e)
      modifies `w, `trace
      ensures Valid() && w == Apply(old(w), e) && trace == old(trace) + [e] && Later(old(w), w)
    {
      InvStep(w, e);
      LaterStep(w, e);
      w := Apply(w, e);
      trace := trace + [e];
      assert trace[..|trace| - 1] == old(trace);
    }

    /** From there on no operator has deleted the user. */
    ghost predicate Untouched(from: nat, userid: string)
      reads `trace
    {
      forall k :: from <= k < |trace| ==> trace[k] != OutsideDelete(userid)
    }

    /** What was the attempt's own when the run was t is its own now, unless operators deleted it. */
    ghost predicate KeepsOwn(v: World, t: seq<Effect>, id: nat)
      reads `w, `trace
    {
      id in v.attempts && Owned(v, id) && id !in v.handed && id in w.attempts && Young(w, id) && Untouched(|t|, Name(v, id)) ==>
        Owned(w, id)
    }

    /** Everybody else runs for up to bound seconds. */
    method Others(role: Role, bound: nat)
      requires Valid()
      modifies `w, `trace
      ensures Valid() && Later(old(w), w) && w.now <= old(w).now + bound && old(trace) <= trace
      ensures Steady(old(w), w, role)
      ensures role.Issuer? ==> KeepsOwn(old(w), old(trace), role.id)
    {
      hide Allowed, Apply, Inv, Steady, Owned, Legal, After, ByOthers, Young, Later;
      var es: seq<Effect> := *;
      if !(Legal(w, es) && ByOthers(es, role) && After(w, es).now <= w.now + bound) {
        es := [];
        EmptyRun(w, role);
      }
      Run(es, role);
    }

    method Run(es: seq<Effect>, role: Role)
      requires Valid() && Legal(w, es) && ByOthers(es, role)
      modifies `w, `trace
      ensures Valid() && Later(old(w), w) && w == After(old(w), es) && old(trace) <= trace
      ensures Steady(old(w), w, role)
      ensures role.Issuer? ==> KeepsOwn(old(w), old(trace), role.id)
    {
      hide Allowed, Apply, Inv, Steady, Owned, Legal, After, ByOthers, Young, Later, Carries;
      SteadyUnderOthers(w, es, role);
      InvAlways(w, es);
      Continue(start, trace, es);
      if role.Issuer? {
        OwnedIfUntouched(w, es, role.id);
      }
      ghost var before := trace;
      w := After(w, es);
      trace := trace + es;
      assert forall k :: 0 <= k < |es| ==> trace[|before| + k] == es[k];
    }

    lemma EmptyRun(v: World, role: Role)
      ensures Legal(v, []) && After(v, []) == v && ByOthers([], role)
    {
    }

    method Fault() returns (failed: bool)
      ensures calm ==> !failed
    {
      failed := *;
      failed := failed && !calm;
    }

    method RandomSuffix() returns (s: Option<string>)
      ensures s.Some? ==> Suffix.IsSuffix(s.value)
      ensures calm ==> s.Some?
    {
      var failed := Fault();
      if failed {
        return None;
      }
      var drawn: seq<Suffix.Byte> := *;
      if |drawn| != 5 {
        drawn := [0, 0, 0, 0, 0];
      }
      var text := Suffix.Pack(drawn);
      return Some(text);
    }

    /**
     framework.PutWAL; the entry bears the time at which the call began. That a drawn nonce is
     not in use is the assumption made of randomness.
     */
    method PutWalEntry(userid: string, nonce: string, expire: int) returns (id: Option<nat>)
      requires Valid()
      modifies `w, `trace
      ensures Valid() && Later(old(w), w) && w.now <= old(w).now + storageBound && old(trace) <= trace
      ensures id.Some? ==>
                && id.value !in old(w).attempts && id.value in w.attempts
                && w.attempts[id.value] == Attempt(userid, nonce, expire, old(w).now)
                && id.value in w.wals && id.value in w.issuing && id.value !in w.created && id.value !in w.handed
                && nonce != "" && !Carries(w, id.value)
      ensures calm && id.None? ==> !FreshNonce(w, nonce)
    {
      hide Legal, After, Covered, NoncesDistinct, KeepsOwn, Owned, Foreign;
      var born := w.now;
      Others(Nobody, storageBound);
      var failed := Fault();
      if failed || !FreshNonce(w, nonce) {
        return None;
      }
      id := Some(w.nextWal);
      Act(PutWal(Attempt(userid, nonce, expire, born)));
    }

    /** The last effect of the run created the user of the attempt. */
    ghost predicate JustCreated(id: nat, groups: seq<string>)
      reads this
    {
      && id in w.attempts && trace != []
      && trace[|trace| - 1] == Create(id, User(w.attempts[id].nonce, groups, true, w.attempts[id].expire))
      && (Free(After(start, trace[..|trace| - 1]), Name(w, id)) ==> Owned(w, id))
    }

    /** POST /access/users: a conflict means that this call created nothing; a fault says nothing. */
    method CreateUser(id: nat, groups: seq<string>) returns (r: Creation)
      requires Valid() && id in w.attempts && id in w.wals && id in w.issuing && id !in w.created && id !in w.handed
      requires w.attempts[id].nonce != "" && w.now + CALL_SECONDS < w.attempts[id].born + MIN_AGE && !Carries(w, id)
      modifies `w, `trace
      ensures Valid() && Later(old(w), w) && w.now <= old(w).now + CALL_SECONDS && old(trace) <= trace
      ensures id in w.wals && id in w.issuing && id !in w.handed
      ensures r.CreatedUser? ==> id in w.created && JustCreated(id, groups) && |old(trace)| < |trace|
      ensures r.Conflict? ==> !Carries(w, id) && id !in w.created
      ensures calm && r.Conflict? ==> Name(w, id) in w.users
      ensures calm ==> !r.CreateFault?
    {
      hide Legal, After, Covered, NoncesDistinct, Free, Owned, KeepsOwn, Foreign;
      Others(Issuer(id), CALL_SECONDS);
      var refused := Fault();
      if Name(w, id) in w.users || refused {
        r := Created(false, calm);
        return r;
      }
      ghost var before := w;
      var user := User(w.attempts[id].nonce, groups, true, w.attempts[id].expire);
      Act(Create(id, user));
      assert trace[..|trace| - 1] + [Create(id, user)] == trace;
      assert before == After(start, trace[..|trace| - 1]) by {
        assert trace[..|trace| - 1] == trace[..|trace| - 1];
      }
      if Free(before, Name(before, id)) {
        OwnedAfterCreate(before, id, user);
      }
      r := Created(true, calm);
    }

    /** GET /access/users/{userid}. */
    method GetUser(role: Role, userid: string) returns (r: Lookup<User>)
      requires Valid()
      modifies `w, `trace
      ensures Valid() && Later(old(w), w) && w.now <= old(w).now + CALL_SECONDS && old(trace) <= trace
      ensures Steady(old(w), w, role)
      ensures role.Issuer? ==> KeepsOwn(old(w), old(trace), role.id)
      ensures r.Found? ==> userid in w.users && r.user == w.users[userid]
      ensures r.Absent? ==> userid !in w.users
      ensures calm ==> !r.LookupFault?
    {
      Others(role, CALL_SECONDS);
      r := Read(if userid in w.users then Some(w.users[userid]) else None, calm);
    }

    /** Whom a delete acts for. */
    function Sender(e: Effect): Role
      requires e.IssuerDelete? || e.SweepDelete? || e.Revoke?
    {
      if e.IssuerDelete? then Issuer(e.id) else if e.SweepDelete? then Sweeper(e.id) else Holder(e.id)
    }

    /** DELETE /access/users/{userid} as the effect e; an error leaves open whether it happened. */
    method DeleteUser(e: Effect) returns (gone: bool)
      requires Valid() && (e.IssuerDelete? || e.SweepDelete? || e.Revoke?) && e.id in w.attempts && Allowed(w, e)
      requires e.IssuerDelete? ==> w.now + CALL_SECONDS < w.attempts[e.id].born + MIN_AGE
      requires e.SweepDelete? ==> !Young(w, e.id)
      modifies `w, `trace
      ensures Valid() && Later(old(w), w) && w.now <= old(w).now + CALL_SECONDS && old(trace) <= trace
      ensures gone ==> Name(w, e.id) !in w.users
      ensures e.IssuerDelete? ==> e.id in w.wals && Running(w, e.id) && e.id !in w.handed
      ensures e.SweepDelete? ==> e.id in w.wals
      ensures e.Revoke? ==> e.id in w.leased
      ensures calm ==> gone
    {
      hide Legal, After, Covered, NoncesDistinct, KeepsOwn, Owned, Foreign;
      Others(Sender(e), CALL_SECONDS);
      var lost := Fault();
      if !lost {
        Act(e);
      }
      gone := Deleted(Name(w, e.id) !in w.users, calm);
    }

    /** framework.DeleteWAL for the issuer's own entry, as the effect e. */
    method DeleteWal(e: Effect) returns (ok: bool)
      requires Valid() && (e.HandOver? || e.IssuerDrop?) && Allowed(w, e)
      requires w.now + storageBound < w.attempts[e.id].born + MIN_AGE && w.attempts[e.id].nonce != ""
      modifies `w, `trace
      ensures Valid() && Later(old(w), w) && w.now <= old(w).now + storageBound && old(trace) <= trace
      ensures ok ==> e.id !in w.wals && !Running(w, e.id)
      ensures ok && e.HandOver? ==> e.id in w.handed
      ensures e.IssuerDrop? ==> (e.id in w.handed ==> e.id in old(w).handed)
      ensures ok && e.HandOver? && Owned(old(w), e.id) && Untouched(|old(trace)|, Name(w, e.id)) ==> Owned(w, e.id)
      ensures ok && e.IssuerDrop? ==> !Carries(w, e.id)
      ensures !ok ==> Steady(old(w), w, Issuer(e.id)) && Young(w, e.id)
      ensures calm ==> ok
    {
      hide Legal, After, Covered, NoncesDistinct, Owned;
      Others(Issuer(e.id), storageBound);
      var failed := Fault();
      if failed {
        return false;
      }
      ghost var before, t := w, trace;
      Act(e);
      if e.HandOver? && Owned(before, e.id) {
        OwnedStep(before, e, e.id);
      }
      assert forall k :: 0 <= k < |t| ==> trace[k] == t[k];
      return true;
    }

    /** The request leaves the attempt as it is. */
    method EndRequest(id: nat)
      requires Valid() && id in w.attempts
      modifies `w, `trace
      ensures Valid() && Later(old(w), w) && old(trace) <= trace && !Running(w, id)
      ensures w == old(w).(issuing := old(w).issuing - {id}, closing := old(w).closing - {id})
    {
      if Running(w, id) {
        Act(End(id));
      }
    }

    // ---- Issuance ----

    /** The attempt is created, recorded and not yet handed over. */
    ghost predicate Holds(id: nat, userid: string)
      reads `w
    {
      && id in w.attempts && id in w.wals && id in w.created && id in w.issuing && id !in w.handed
      && Name(w, id) == userid && w.attempts[id].nonce != ""
    }

    /** How far the attempt's budget of time is used up. */
    ghost predicate By(id: nat, seconds: nat)
      reads `w
    {
      id in w.attempts && w.now <= w.attempts[id].born + seconds
    }

    /** The random parts of an attempt: a userid of the role, and a nonce. */
    method DrawName(prefix: string, role: string, realm: string) returns (d: Option<(string, string)>)
      ensures calm ==> d.Some?
      ensures d.Some? ==>
                && Marker(d.value.1)
                && exists suffix :: Suffix.IsSuffix(suffix) && d.value.0 == UserId.Build(prefix, role, suffix, realm)
    {
      hide UserId.Build, Suffix.IsSuffix;
      var suffix := RandomSuffix();
      if suffix.None? {
        return None;
      }
      var raw := RandomSuffix();
      if raw.None? {
        return None;
      }
      var nonce := "vault-wal:" + raw.value;
      assert nonce[..10] == "vault-wal:" && nonce[10..] == raw.value && |nonce| == 18;
      return Some((UserId.Build(prefix, role, suffix.value, realm), nonce));
    }

    /** One pass of the retry loop. */
    method TryName(prefix: string, role: string, realm: string, group: string, expire: int)
      returns (r: Naming, ghost calls: seq<Call>)
      requires Valid()
      modifies `w, `trace
      ensures Valid() && Later(old(w), w) && old(trace) <= trace
      ensures TrialLog(old(w), w, calls)
      ensures Over(w, calls, expire, if r.Named? then {r.id} else {})
      ensures r.Named? ==>
                && Holds(r.id, r.userid) && r.id !in old(w).attempts && calls == [Put(r.id), Asked(r.id, CreatedUser)]
                && By(r.id, storageBound + CALL_SECONDS) && Marker(w.attempts[r.id].nonce)
                && JustCreated(r.id, [group]) && |old(trace)| < |trace|
                && (exists suffix :: Suffix.IsSuffix(suffix) && r.userid == UserId.Build(prefix, role, suffix, realm))
      ensures |calls| == 3 <==> r.Exhausted?
      ensures |calls| == 3 ==> calls[0].Put? && calls[0].id !in w.wals
      ensures r.Aborted? || r.Exhausted? ==> !Succeeded(calls)
      ensures r.Exhausted? ==> AllConflicts(calls)
      ensures calm && r.Aborted? ==> |calls| == 1 && Unlucky(w, calls)
    {
      hide Inv, Allowed, Legal, After, Apply, Free, Owned, JustCreated, UserId.Build, Carries, Young, Marker, Suffix.IsSuffix, FreshNonce;
      calls := [];
      var drawn := DrawName(prefix, role, realm);
      if drawn.None? {
        return Aborted, calls;
      }
      var userid, nonce := drawn.value.0, drawn.value.1;
      var walId := PutWalEntry(userid, nonce, expire);
      if walId.None? {
        if calm {
          calls := [Stale(nonce)];
          assert Stale(nonce) in calls;
        }
        return Aborted, calls;
      }
      var id := walId.value;
      var answer, dropped := Ask(id, group);
      calls := [Put(id), Asked(id, answer)] + if dropped then [Dropped(id)] else [];
      assert Pass(calls, id, answer);
      r := if answer.CreatedUser? then Named(id, userid) else if dropped then Exhausted else Aborted;
    }

    /** The creation for a stored entry; a collision gives the entry up before the next pass. */
    method Ask(id: nat, group: string) returns (answer: Creation, dropped: bool)
      requires Valid() && id in w.attempts && id in w.wals && id in w.issuing && id !in w.created && id !in w.handed
      requires w.attempts[id].nonce != "" && By(id, storageBound) && !Carries(w, id)
      modifies `w, `trace
      ensures Valid() && Later(old(w), w) && old(trace) <= trace
      ensures answer.CreatedUser? ==>
                && Holds(id, Name(w, id)) && By(id, storageBound + CALL_SECONDS) && JustCreated(id, [group])
                && |old(trace)| < |trace|
      ensures dropped ==> answer.Conflict? && id !in w.wals
      ensures !answer.CreatedUser? ==> !Running(w, id) && id !in w.handed
      ensures calm ==> !answer.CreateFault? && (answer.Conflict? ==> dropped)
    {
      hide Inv, Allowed, Legal, After, Apply, Free, Owned, JustCreated, Carries, Young;
      dropped := false;
      answer := CreateUser(id, [group]);
      match answer {
        case CreatedUser =>
        case CreateFault => EndRequest(id);
        case Conflict => dropped := DropCollided(id);
      }
    }

    /** The entry of a collided attempt goes before the next attempt. */
    method DropCollided(id: nat) returns (ok: bool)
      requires Valid() && id in w.attempts && id in w.wals && id in w.issuing && !Carries(w, id) && w.attempts[id].nonce != ""
      requires By(id, 2 * storageBound + 2 * CALL_SECONDS)
      modifies `w, `trace
      ensures Valid() && Later(old(w), w) && old(trace) <= trace && !Running(w, id)
      ensures ok ==> id !in w.wals
      ensures id in w.handed ==> id in old(w).handed
      ensures calm ==> ok
    {
      ok := DeleteWal(IssuerDrop(id));
      if !ok {
        EndRequest(id);
      }
    }

    /**
     The retry loop: up to five names, each under its own WAL entry. Afterwards an entry is
     held exactly when a CreateUser succeeded, and every other attempt is over.
     */
    method TryNames(prefix: string, role: string, realm: string, group: string, expire: int)
      returns (r: Naming, ghost log: seq<Call>)
      requires Valid()
      modifies `w, `trace
      ensures Valid() && Later(old(w), w) && old(trace) <= trace
      ensures Disciplined(log) && Accounted(w, log) && Over(w, log, expire, if r.Named? then {r.id} else {})
      ensures forall id :: Put(id) in log ==> id !in old(w).attempts
      ensures r.Named? ==>
                && Holds(r.id, r.userid) && Outstanding(log) == {r.id} && By(r.id, storageBound + CALL_SECONDS)
                && Put(r.id) in log && Asked(r.id, CreatedUser) in log && r.id !in old(w).attempts
                && Marker(w.attempts[r.id].nonce) && JustCreated(r.id, [group]) && |old(trace)| < |trace|
                && (exists suffix :: Suffix.IsSuffix(suffix) && r.userid == UserId.Build(prefix, role, suffix, realm))
      ensures r.Exhausted? ==> Outstanding(log) == {} && Requests(log) == MAX_ATTEMPTS
      ensures calm && !r.Named? ==> Outstanding(log) == {}
      ensures r.Named? <==> Succeeded(log)
      ensures forall id :: Asked(id, CreatedUser) in log ==> r.Named? && id == r.id
      ensures calm && !r.Named? ==> FiveConflicts(log) || Unlucky(w, log)
    {
      hide Inv, Allowed, Legal, After, Apply, Carries, Outstanding, Requests, AtMostOne, UserId.Build, JustCreated, Running, Accounted, Over, FreshNonce, Marker, Suffix.IsSuffix;
      log := [];
      EmptyLog();
      var attempt := 0;
      while attempt < MAX_ATTEMPTS
        invariant 0 <= attempt <= MAX_ATTEMPTS
        invariant Valid() && Later(old(w), w) && old(trace) <= trace
        invariant AtMostOne(log) && Outstanding(log) == {} && Requests(log) == attempt && Accounted(w, log)
        invariant Over(w, log, expire, {})
        invariant forall id :: Put(id) in log ==> id !in old(w).attempts
        invariant !Succeeded(log) && AllConflicts(log)
      {
        ghost var before := log;
        ghost var was := w;
        var trial, calls := TryName(prefix, role, realm, group, expire);
        log := before + calls;
        AppendTrial(was, w, before, calls, expire, if trial.Named? then {trial.id} else {});
        if !trial.Exhausted? {
          return trial, log;
        }
        attempt := attempt + 1;
      }
      return Exhausted, log;
    }

    /** cleanupUser: the entry goes only when the user is known to be gone. */
    method Cleanup(id: nat, userid: string) returns (gone: bool, ghost log: seq<Call>)
      requires Valid() && Holds(id, userid) && By(id, storageBound + 3 * CALL_SECONDS)
      modifies `w, `trace
      ensures Valid() && Later(old(w), w) && old(trace) <= trace && !Running(w, id)
      ensures gone ==> !Carries(w, id)
      ensures id !in w.handed
      ensures log == [] || (gone && log == [Dropped(id)] && id !in w.wals)
      ensures calm ==> gone && log == [Dropped(id)]
    {
      hide Inv, Legal, After;
      log := [];
      Others(Issuer(id), storageBound);
      var noClient := Fault();
      if noClient {
        EndRequest(id);
        return false, log;
      }
      gone := DeleteUser(IssuerDelete(id));
      if !gone {
        EndRequest(id);
        return false, log;
      }
      var dropped := DeleteWal(IssuerDrop(id));
      if dropped {
        log := [Dropped(id)];
      } else {
        EndRequest(id);
      }
    }

    /** When the run had got as far as seen, the server showed what the read-back asks for. */
    ghost predicate Shown(seen: seq<Effect>, userid: string, nonce: string, group: string, passwordMode: bool) {
      var users := After(start, seen).users;
      userid in users && group in users[userid].groups && (passwordMode ==> users[userid].comment == nonce)
    }

    /** The read-back: group membership, and in password mode the nonce. */
    method ReadBack(id: nat, userid: string, group: string, passwordMode: bool) returns (fits: bool, ghost seen: seq<Effect>)
      requires Valid() && Holds(id, userid) && By(id, storageBound + CALL_SECONDS)
      modifies `w, `trace
      ensures Valid() && Later(old(w), w) && old(trace) <= trace == seen
      ensures Holds(id, userid) && By(id, storageBound + 2 * CALL_SECONDS) && KeepsOwn(old(w), old(trace), id)
      ensures fits ==> Shown(seen, userid, w.attempts[id].nonce, group, passwordMode)
      ensures calm ==> (fits <==> Shown(seen, userid, w.attempts[id].nonce, group, passwordMode))
    {
      hide Inv, Allowed, Legal, After, Apply, Carries, Owned;
      var info := GetUser(Issuer(id), userid);
      seen := trace;
      assert w == After(start, seen) && Young(w, id);
      if !info.Found? || group !in info.user.groups {
        return false, seen;
      }
      if passwordMode && info.user.comment != w.attempts[id].nonce {
        return false, seen;
      }
      return true, seen;
    }

    /** POST .../token/lease: the token is gone with its user. */
    method MintToken(id: nat, userid: string) returns (secret: Option<string>)
      requires Valid() && Holds(id, userid) && By(id, storageBound + 2 * CALL_SECONDS)
      modifies `w, `trace, `tokens
      ensures Valid() && Later(old(w), w) && old(trace) <= trace
      ensures Holds(id, userid) && By(id, storageBound + 3 * CALL_SECONDS) && KeepsOwn(old(w), old(trace), id)
      ensures secret.Some? ==> tokens == old(tokens)[id := secret.value]
      ensures calm ==> secret.Some?
    {
      hide Inv, Legal, After, Owned, Carries;
      Others(Issuer(id), CALL_SECONDS);
      var refused := Fault();
      if refused {
        return None;
      }
      var value: string := *;
      tokens := tokens[id := value];
      var lost := Fault();
      return if lost then None else Some(value);
    }

    /**
     From the created user to the Secret: read-back, token, final DeleteWAL. Every failure on
     the way compensates, and no Secret leaves while the entry exists. Without faults only the
     read-back decides.
     */
    method Deliver(id: nat, userid: string, group: string, passwordMode: bool)
      returns (ok: bool, secret: Option<string>, ghost log: seq<Call>, ghost seen: seq<Effect>)
      requires Valid() && Holds(id, userid) && By(id, storageBound + CALL_SECONDS)
      modifies `w, `trace, `tokens
      ensures Valid() && Later(old(w), w) && old(trace) <= trace && !Running(w, id)
      ensures log == [] || (log == [Dropped(id)] && id !in w.wals)
      ensures ok ==> log == [Dropped(id)]
      ensures ok <==> id in w.handed
      ensures ok ==> (if passwordMode then secret.None? else secret.Some? && id in tokens && tokens[id] == secret.value)
      ensures ok && Owned(old(w), id) && Untouched(|old(trace)|, userid) ==> Owned(w, id)
      ensures old(trace) <= seen <= trace && (ok ==> Shown(seen, userid, w.attempts[id].nonce, group, passwordMode))
      ensures calm ==> log == [Dropped(id)] && (ok <==> Shown(seen, userid, w.attempts[id].nonce, group, passwordMode))
    {
      hide Inv, Allowed, Legal, After, Apply, Carries, Owned, Running, Shown;
      log, secret := [], None;
      var fits, shown := ReadBack(id, userid, group, passwordMode);
      seen := shown;
      if !fits {
        var gone, cleaned := Cleanup(id, userid);
        return false, None, cleaned, seen;
      }
      if !passwordMode {
        secret := MintToken(id, userid);
        if secret.None? {
          var gone, cleaned := Cleanup(id, userid);
          return false, None, cleaned, seen;
        }
      }
      ok := Commit(id);
      if ok {
        return true, secret, [Dropped(id)], seen;
      }
      var gone := BestEffortDelete(id, userid);
      return false, None, log, seen;
    }

    /** The final DeleteWAL: from here on the user belongs to a lease. */
    method Commit(id: nat) returns (ok: bool)
      requires Valid() && id in w.attempts && Holds(id, Name(w, id)) && By(id, storageBound + 3 * CALL_SECONDS)
      modifies `w, `trace
      ensures Valid() && Later(old(w), w) && old(trace) <= trace && w.now <= old(w).now + storageBound
      ensures ok ==> id in w.handed && id !in w.wals && !Running(w, id)
      ensures ok && Owned(old(w), id) && Untouched(|old(trace)|, Name(w, id)) ==> Owned(w, id)
      ensures !ok ==> Holds(id, Name(old(w), id))
      ensures calm ==> ok
    {
      hide Inv, Legal, After, Owned;
      ok := DeleteWal(HandOver(id));
    }

    /** The user of a request whose final DeleteWAL failed; the entry stays for the sweep. */
    method BestEffortDelete(id: nat, userid: string) returns (gone: bool)
      requires Valid() && Holds(id, userid) && By(id, 2 * storageBound + 3 * CALL_SECONDS)
      modifies `w, `trace
      ensures Valid() && Later(old(w), w) && old(trace) <= trace && !Running(w, id)
      ensures gone ==> !Carries(w, id)
      ensures id !in w.handed
    {
      hide Inv, Legal, After;
      gone := DeleteUser(IssuerDelete(id));
      EndRequest(id);
    }

    /** A creation of the request succeeded, and the read-back showed its user as it should be. */
    ghost predicate ShownToRequest(log: seq<Call>, seen: seq<Effect>, group: string, passwordMode: bool)
      reads `w
    {
      exists id :: Asked(id, CreatedUser) in log && id in w.attempts
                   && Shown(seen, Name(w, id), w.attempts[id].nonce, group, passwordMode)
    }

    /** The part of issuance that has effects, for a user with the given expiry. */
    method IssueUser(prefix: string, role: string, realm: string, group: string, passwordMode: bool, expire: int)
      returns (r: Naming, secret: Option<string>, ghost log: seq<Call>, ghost seen: seq<Effect>, ghost from: nat)
      requires Valid()
      modifies `w, `trace, `tokens
      ensures Valid() && Later(old(w), w) && old(trace) <= trace
      ensures Disciplined(log) && Accounted(w, log) && Over(w, log, expire, if r.Named? then {r.id} else {})
      ensures r.Named? <==> exists id :: Put(id) in log && id in w.handed
      ensures forall id :: Put(id) in log ==> id !in old(w).attempts
      ensures r.Named? ==>
                && Outstanding(log) == {} && Put(r.id) in log && Asked(r.id, CreatedUser) in log && !Running(w, r.id)
                && (if passwordMode then secret.None? else secret.Some? && r.id in tokens && tokens[r.id] == secret.value)
                && r.id in w.attempts && r.id in w.handed && Name(w, r.id) == r.userid && Marker(w.attempts[r.id].nonce)
                && (exists suffix :: Suffix.IsSuffix(suffix) && r.userid == UserId.Build(prefix, role, suffix, realm))
      ensures r.Named? ==>
                && |old(trace)| <= from < |seen| && seen <= trace
                && Shown(seen, r.userid, w.attempts[r.id].nonce, group, passwordMode)
                && trace[from] == Create(r.id, User(w.attempts[r.id].nonce, [group], true, expire))
                && (Free(After(start, trace[..from]), r.userid) && Untouched(from, r.userid) ==> Owned(w, r.id))
      ensures calm ==> Outstanding(log) == {}
      ensures calm ==> (r.Named? <==> ShownToRequest(log, seen, group, passwordMode))
      ensures calm && !Succeeded(log) ==> FiveConflicts(log) || Unlucky(w, log)
    {
      hide Inv, Allowed, Legal, After, Apply, Carries, Outstanding, Requests, AtMostOne, UserId.Build, Shown, Owned, Free, Running, Unlucky, FreshNonce, Over, Accounted, Marker;
      log, seen, from, secret := [], trace, 0, None;
      EmptyLog();
      var unable := Fault();
      if unable {
        return Aborted, None, log, seen, from;
      }
      var naming, named := TryNames(prefix, role, realm, group, expire);
      log := named;
      if !naming.Named? {
        NoneHanded(w, log, expire);
        return naming, secret, log, seen, from;
      }
      from := |trace| - 1;
      ghost var asFar, before := trace, w;
      var ok, value, delivered, checked := Deliver(naming.id, naming.userid, group, passwordMode);
      seen, secret := checked, value;
      log := named + delivered;
      LogOfDelivery(named, delivered, naming.id);
      OverAfterDelivery(before, w, named, delivered, naming.id, expire);
      if !ok {
        return Aborted, None, log, seen, from;
      }
      assert trace[from] == asFar[from] && trace[..from] == asFar[..from];
      return naming, secret, log, seen, from;
    }

    /**
     handleCredsRead. Whatever fails and whatever the others do, the request makes at most five
     CreateUser calls with at most one WAL entry at a time, all of them for users with the same
     bounded expiry; it keeps no entry after success or exhaustion, leaves every attempt over,
     and returns a Secret only for a user whose WAL entry is gone and which was seen in the
     role's group, in password mode with the nonce. The user is the lease's own if its name was
     free when it was created and no operator has deleted it since. Without faults no entry is
     left at all, the Secret is returned exactly when a created user was shown so, and only five
     collisions keep a user from being created.
     */
    method Issue(prefix: string, role: string, realm: string, group: string, passwordMode: bool,
                 ttls: Ttls, defaults: Ttls, sysDefault: int, sysMax: int, clock: int)
      returns (r: Reply, ghost log: seq<Call>, ghost seen: seq<Effect>, ghost from: nat)
      requires Valid()
      modifies `w, `trace, `tokens
      ensures Valid() && Later(old(w), w) && old(trace) <= trace
      ensures Requests(log) <= 5 && AtMostOne(log) && Accounted(w, log)
      ensures forall id :: Put(id) in log ==> id !in old(w).attempts
      ensures log != [] ==>
                var grant := ForIssue(ttls, defaults, sysDefault, sysMax, clock);
                && grant.Some? && Over(w, log, grant.value.expire, if r.Issued? then {r.id} else {})
                && (Sensible(ttls, defaults, sysDefault, sysMax, clock) ==>
                      Backstop(grant.value.expire, clock, grant.value.maxTtl))
      ensures r.Issued? ==>
                && Outstanding(log) == {} && Put(r.id) in log && r.id in w.attempts && r.id in w.handed
                && Name(w, r.id) == r.userid && Marker(w.attempts[r.id].nonce)
                && Some(r.grant) == ForIssue(ttls, defaults, sysDefault, sysMax, clock)
                && (exists suffix :: Suffix.IsSuffix(suffix) && r.userid == UserId.Build(prefix, role, suffix, realm))
                && !Running(w, r.id)
                && (if passwordMode then r.token.None?
                    else r.id in tokens && r.token == Some(Token(TokenId.Join(r.userid, "lease"), tokens[r.id])))
      ensures r.Issued? ==>
                && |old(trace)| <= from < |seen| && seen <= trace && Shown(seen, r.userid, w.attempts[r.id].nonce, group, passwordMode)
                && trace[from] == Create(r.id, User(w.attempts[r.id].nonce, [group], true, r.grant.expire))
                && (Free(After(start, trace[..from]), r.userid) && Untouched(from, r.userid) ==> Owned(w, r.id))
      ensures r.Issued? <==> exists id :: Put(id) in log && id in w.handed
      ensures ForIssue(ttls, defaults, sysDefault, sysMax, clock).None? ==> !r.Issued? && w == old(w)
      ensures calm ==> Outstanding(log) == {}
      ensures calm ==> (r.Issued? <==> ShownToRequest(log, seen, group, passwordMode))
      ensures calm && ForIssue(ttls, defaults, sysDefault, sysMax, clock).Some? && !Succeeded(log) ==>
                FiveConflicts(log) || Unlucky(w, log)
    {
      hide Inv, Allowed, Legal, After, Apply, Carries, Outstanding, Requests, AtMostOne, UserId.Build, Shown, Owned, Free, FiveConflicts, Unlucky, ForIssue, Running, Over, Backstop, StrictestBound;
      log, seen, from := [], trace, 0;
      EmptyLog();
      var grant := ForIssue(ttls, defaults, sysDefault, sysMax, clock);
      if grant.None? {
        return NotIssued, log, seen, from;
      }
      if Sensible(ttls, defaults, sysDefault, sysMax, clock) {
        IssueBounded(ttls, defaults, sysDefault, sysMax, clock, clock);
      }
      var user, secret, calls, shown, since := IssueUser(prefix, role, realm, group, passwordMode, grant.value.expire);
      log, seen, from := calls, shown, since;
      if !user.Named? {
        return NotIssued, log, seen, from;
      }
      var token := if secret.None? then None else Some(Token(TokenId.Join(user.userid, "lease"), secret.value));
      r := Issued(user.id, user.userid, token, grant.value);
    }

    // ---- Rollback ----

    /**
     walRollbackUser. It answers yes when nothing of the entry is left to delete; it sends its
     delete only after it saw the entry's own non-empty nonce.
     */
    method WalRollbackUser(id: nat) returns (ok: bool)
      requires Valid() && id in w.attempts && id in w.wals && !Young(w, id) && id !in w.sweeping
      modifies `w, `trace
      ensures Valid() && Later(old(w), w) && old(trace) <= trace && id in w.wals && id !in w.sweeping
      ensures ok ==> w.attempts[id].nonce == "" || !Carries(w, id)
      ensures old(w.attempts[id].userid) == "" ==> !ok
      ensures calm && old(w.attempts[id].userid) != "" ==> ok
    {
      hide Legal, After, Inv, Allowed, Apply, KeepsOwn, Owned;
      var entry := w.attempts[id];
      if entry.userid == "" {
        return false;
      }
      Others(Sweeper(id), storageBound);
      var noClient := Fault();
      if noClient {
        return false;
      }
      var info := GetUser(Sweeper(id), entry.userid);
      if info.LookupFault? {
        return false;
      }
      if info.Absent? {
        return true;
      }
      if entry.nonce == "" || info.user.comment != entry.nonce {
        return true;
      }
      ok := DeleteMatched(id);
    }

    /** The delete of a rollback that has just seen its nonce. */
    method DeleteMatched(id: nat) returns (gone: bool)
      requires Valid() && id in w.attempts && id in w.wals && !Young(w, id) && w.attempts[id].nonce != "" && Carries(w, id)
      modifies `w, `trace
      ensures Valid() && Later(old(w), w) && old(trace) <= trace && id in w.wals && id !in w.sweeping
      ensures gone ==> !Carries(w, id)
      ensures calm ==> gone
    {
      hide Legal, After, Covered, NoncesDistinct, KeepsOwn, Owned, Foreign;
      Act(SweepMatch(id));
      gone := DeleteUser(SweepDelete(id));
      if id in w.sweeping {
        Act(SweepStop(id));
      }
    }

    /** One entry of a sweep: the framework deletes it exactly when the rollback said yes. */
    method SweepEntry(id: nat) returns (dropped: bool)
      requires Valid() && id in w.attempts && id in w.wals && !Young(w, id) && id !in w.sweeping
      modifies `w, `trace
      ensures Valid() && Later(old(w), w) && old(trace) <= trace
      ensures dropped <==> id !in w.wals
      ensures dropped ==> w.attempts[id].nonce == "" || !Carries(w, id)
      ensures calm && old(w.attempts[id].userid) != "" ==> dropped
    {
      hide Legal, After, Covered, NoncesDistinct, KeepsOwn, Owned, Foreign;
      var ok := WalRollbackUser(id);
      if !ok {
        return false;
      }
      Others(Sweeper(id), storageBound);
      var failed := Fault();
      if failed {
        return false;
      }
      Act(SweepDrop(id));
      return true;
    }

    // ---- Revocation ----

    /** secretTokenRevoke among everything else that runs: yes means that the user is gone. */
    method RevokeLease(id: nat) returns (ok: bool)
      requires Valid() && id in w.leased
      modifies `w, `trace
      ensures Valid() && Later(old(w), w) && old(trace) <= trace
      ensures id in w.leased && id in w.attempts && (ok ==> Name(w, id) !in w.users)
      ensures calm ==> ok
    {
      hide Legal, After, Covered, NoncesDistinct, KeepsOwn, Owned, Foreign;
      var noClient := Fault();
      if noClient {
        return false;
      }
      ok := DeleteUser(Revoke(id));
    }

    /** Vault's side of a revocation: the lease is forgotten exactly when the handler said yes. */
    method EndLease(id: nat) returns (ended: bool)
      requires Valid() && id in w.leased
      modifies `w, `trace
      ensures Valid() && Later(old(w), w) && old(trace) <= trace
      ensures ended ==> id in w.revoked && id in w.attempts && !Carries(w, id)
      ensures ended <==> id !in w.leased
      ensures calm ==> ended
    {
      hide Legal, After, Covered, NoncesDistinct, KeepsOwn, Owned, Foreign;
      ended := RevokeLease(id);
      if ended {
        Act(Revoked(id));
      }
    }
  }
}
