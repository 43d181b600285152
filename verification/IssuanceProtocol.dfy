/**
 The rules of issuing, rolling back and revoking synthetic users. Any number of requests and
 sweeps interleave, so a run here mixes the effects of all of them in any order, with the
 clock, crashes and whatever operators do to the server.

 An attempt is one WAL entry: a userid and a nonce that no other attempt has. Names are not
 unique: attempts may share one, and operators may create users under any. A request may act
 on its attempt while the entry is younger than MIN_AGE, the rollback sweep only from then on;
 IssuanceEngine proves that the request is indeed done by then.
 */
module IssuanceProtocol {

  const MIN_AGE: nat := 300   // WALRollbackMinAge, in seconds

  datatype User = User(comment: string, groups: seq<string>, enable: bool, expire: int)

  /** The WAL entry with its age, and the expiry that its request asks for. */
  datatype Attempt = Attempt(userid: string, nonce: string, expire: int, born: nat)

  datatype World = World(
    now: nat,
    users: map<string, User>,      // the server
    attempts: map<nat, Attempt>,   // every WAL entry of kind "user" ever written
    nextWal: nat,
    wals: set<nat>,                // the entries still stored
    created: set<nat>,             // attempts whose CreateUser took effect
    issuing: set<nat>,             // attempts of running requests that have sent no delete
    closing: set<nat>,             // attempts of running requests that have
    handed: set<nat>,              // attempts past their final DeleteWAL
    granting: set<nat>,            // of these, those whose lease Vault is about to store
    leased: set<nat>,              // those whose lease is stored
    revoked: set<nat>,             // leases Vault is done with
    sweeping: set<nat>)            // rollbacks that saw their nonce and are about to delete

  datatype Effect =
    | Tick(seconds: nat)
    | PutWal(attempt: Attempt)
    | Create(id: nat, user: User)
    | IssuerDelete(id: nat)
    | IssuerDrop(id: nat)
    | HandOver(id: nat)
    | End(id: nat)
    | Register(id: nat)
    | SweepMatch(id: nat)
    | SweepDelete(id: nat)
    | SweepDrop(id: nat)
    | SweepStop(id: nat)
    | Revoke(id: nat)
    | Revoked(id: nat)
    | Edit(userid: string, user: User)
    | OutsideCreate(userid: string, user: User)
    | OutsideDelete(userid: string)
    | Crash

  function Empty(users: map<string, User>): World {
    World(0, users, map[], 1, {}, {}, {}, {}, {}, {}, {}, {}, {})
  }

  function Name(w: World, id: nat): string
    requires id in w.attempts
  {
    w.attempts[id].userid
  }

  /** The users after the delete of the attempt's name: whoever holds it goes. */
  function Without(w: World, id: nat): map<string, User> {
    if id in w.attempts then w.users - {Name(w, id)} else w.users
  }

  function Apply(w: World, e: Effect): World {
    match e
    case Tick(seconds) => w.(now := w.now + seconds)
    case PutWal(attempt) =>
      w.(attempts := w.attempts[w.nextWal := attempt], wals := w.wals + {w.nextWal},
         issuing := w.issuing + {w.nextWal}, nextWal := w.nextWal + 1)
    case Create(id, user) =>
      if id in w.attempts then w.(users := w.users[Name(w, id) := user], created := w.created + {id}) else w
    case IssuerDelete(id) => w.(users := Without(w, id), issuing := w.issuing - {id}, closing := w.closing + {id})
    case IssuerDrop(id) => w.(wals := w.wals - {id}, issuing := w.issuing - {id}, closing := w.closing - {id})
    case HandOver(id) =>
      w.(wals := w.wals - {id}, issuing := w.issuing - {id}, closing := w.closing - {id},
         handed := w.handed + {id}, granting := w.granting + {id})
    case End(id) => w.(issuing := w.issuing - {id}, closing := w.closing - {id})
    case Register(id) => w.(granting := w.granting - {id}, leased := w.leased + {id})
    case SweepMatch(id) => w.(sweeping := w.sweeping + {id})
    case SweepDelete(id) => w.(users := Without(w, id), sweeping := w.sweeping - {id})
    case SweepDrop(id) => w.(wals := w.wals - {id}, sweeping := w.sweeping - {id})
    case SweepStop(id) => w.(sweeping := w.sweeping - {id})
    case Revoke(id) => w.(users := Without(w, id))
    case Revoked(id) => w.(leased := w.leased - {id}, revoked := w.revoked + {id})
    case Edit(userid, user) => w.(users := w.users[userid := user])
    case OutsideCreate(userid, user) => w.(users := w.users[userid := user])
    case OutsideDelete(userid) => w.(users := w.users - {userid})
    case Crash => w.(issuing := {}, closing := {}, granting := {}, sweeping := {})
  }

  predicate Young(w: World, id: nat)
    requires id in w.attempts
  {
    w.now < w.attempts[id].born + MIN_AGE
  }

  /** The user of that name carries the attempt's nonce: it is the attempt's own. */
  predicate Carries(w: World, id: nat)
    requires id in w.attempts
  {
    Name(w, id) in w.users && w.users[Name(w, id)].comment == w.attempts[id].nonce
  }

  /** The request still runs and may yet delete, or hand over, what it created. */
  predicate AtWork(w: World, id: nat)
    requires id in w.attempts
  {
    id in w.issuing && id in w.created && id in w.wals && Young(w, id)
  }

  /** A delete of the attempt's userid may still be sent on the attempt's behalf. */
  predicate OwesDelete(w: World, id: nat)
    requires id in w.attempts
  {
    id in w.sweeping || AtWork(w, id) || id in w.granting || id in w.leased
  }

  /** No delete of the name is owed. */
  predicate Free(w: World, userid: string) {
    forall id :: id in w.attempts && Name(w, id) == userid ==> !OwesDelete(w, id)
  }

  /** No attempt has this comment for its nonce. */
  predicate Foreign(w: World, comment: string) {
    forall id :: id in w.attempts && w.attempts[id].nonce != "" ==> w.attempts[id].nonce != comment
  }

  predicate FreshNonce(w: World, nonce: string) {
    && nonce != ""
    && (forall id :: id in w.attempts ==> w.attempts[id].nonce != nonce)
    && (forall u :: u in w.users ==> w.users[u].comment != nonce)
  }

  /** Everything CreateUser needs: the request runs, its entry is stored, the name is not taken. */
  predicate Creatable(w: World, id: nat, user: User) {
    && id in w.attempts && id in w.wals && id in w.issuing && Young(w, id) && id !in w.created
    && user.comment == w.attempts[id].nonce != "" && user.expire == w.attempts[id].expire
    && Name(w, id) !in w.users
  }

  predicate Allowed(w: World, e: Effect) {
    match e
    case Tick(_) => true
    case PutWal(attempt) => FreshNonce(w, attempt.nonce) && attempt.born <= w.now
    case Create(id, user) => Creatable(w, id, user)
    case IssuerDelete(id) => id in w.attempts && AtWork(w, id)
    case IssuerDrop(id) =>
      id in w.attempts && id in w.wals && (id in w.issuing || id in w.closing) && Young(w, id) && !Carries(w, id)
    case HandOver(id) => id in w.attempts && AtWork(w, id)
    case End(id) => id in w.issuing || id in w.closing
    case Register(id) => id in w.granting
    case SweepMatch(id) =>
      id in w.attempts && id in w.wals && !Young(w, id) && w.attempts[id].nonce != "" && Carries(w, id)
    case SweepDelete(id) => id in w.sweeping
    case SweepDrop(id) =>
      id in w.attempts && id in w.wals && !Young(w, id) && (w.attempts[id].nonce == "" || !Carries(w, id))
    case SweepStop(id) => id in w.sweeping
    case Revoke(id) => id in w.leased
    case Revoked(id) => id in w.attempts && id in w.leased && !Carries(w, id)
    case Edit(userid, user) => userid in w.users && user.comment == w.users[userid].comment
    case OutsideCreate(userid, user) => userid !in w.users && Foreign(w, user.comment)
    case OutsideDelete(userid) => userid in w.users
    case Crash => true
  }

  function After(w: World, es: seq<Effect>): World {
    if es == [] then w else Apply(After(w, es[..|es| - 1]), es[|es| - 1])
  }

  predicate Legal(w: World, es: seq<Effect>) {
    es == [] || (Legal(w, es[..|es| - 1]) && Allowed(After(w, es[..|es| - 1]), es[|es| - 1]))
  }

  // ---- The invariant ----

  predicate Books(w: World) {
    && w.nextWal > 0
    && (forall id :: id in w.attempts ==> 0 < id < w.nextWal && w.attempts[id].born <= w.now)
    && w.wals <= w.attempts.Keys && w.created <= w.attempts.Keys
    && w.issuing <= w.attempts.Keys && w.closing <= w.attempts.Keys
    && w.handed <= w.created && w.handed !! w.wals
    && w.granting <= w.handed && w.leased <= w.handed && w.revoked <= w.handed
    && w.granting !! w.leased && w.granting !! w.revoked && w.leased !! w.revoked
    && w.sweeping <= w.wals * w.created
    && (forall id :: id in w.sweeping ==> !Young(w, id))
    && (forall id :: id in w.created ==> w.attempts[id].nonce != "")
  }

  predicate NoncesDistinct(w: World) {
    forall i, j :: i in w.attempts && j in w.attempts && i != j && w.attempts[i].nonce != "" ==>
      w.attempts[i].nonce != w.attempts[j].nonce
  }

  /** Coverage: a live user with an attempt's nonce has the attempt's WAL entry, or was handed over and not revoked. */
  predicate Covered(w: World) {
    forall u, id :: u in w.users && id in w.attempts && w.attempts[id].nonce != ""
                    && w.users[u].comment == w.attempts[id].nonce ==>
      && Name(w, id) == u && id in w.created && id !in w.revoked
      && (id in w.wals || id in w.handed)
  }

  predicate Inv(w: World) {
    Books(w) && NoncesDistinct(w) && Covered(w)
  }

  lemma IssuerBooks(w: World, e: Effect)
    requires Books(w) && Allowed(w, e)
    requires e.PutWal? || e.Create? || e.IssuerDelete? || e.IssuerDrop? || e.HandOver? || e.End?
    ensures Books(Apply(w, e))
  {
    hide FreshNonce, Foreign, Carries;
  }

  lemma SweepBooks(w: World, e: Effect)
    requires Books(w) && Covered(w) && Allowed(w, e)
    requires e.SweepMatch? || e.SweepDelete? || e.SweepDrop? || e.SweepStop?
    ensures Books(Apply(w, e))
  {
    hide FreshNonce, Foreign, AtWork;
  }

  lemma OtherBooks(w: World, e: Effect)
    requires Books(w) && Allowed(w, e)
    requires e.Tick? || e.Register? || e.Revoke? || e.Revoked? || e.Edit? || e.OutsideCreate? || e.OutsideDelete? || e.Crash?
    ensures Books(Apply(w, e))
  {
    hide FreshNonce, Foreign, AtWork, Carries;
  }

  lemma BooksStep(w: World, e: Effect)
    requires Inv(w) && Allowed(w, e)
    ensures Books(Apply(w, e))
  {
    hide Books, NoncesDistinct, Covered, Allowed, Apply;
    if e.SweepMatch? || e.SweepDelete? || e.SweepDrop? || e.SweepStop? {
      SweepBooks(w, e);
    } else if e.PutWal? || e.Create? || e.IssuerDelete? || e.IssuerDrop? || e.HandOver? || e.End? {
      IssuerBooks(w, e);
    } else {
      OtherBooks(w, e);
    }
  }

  lemma NoncesStep(w: World, e: Effect)
    requires Inv(w) && Allowed(w, e)
    ensures NoncesDistinct(Apply(w, e))
  {
    hide Covered;
  }

  lemma CoveredAt(w: World, e: Effect, u: string, id: nat)
    requires Inv(w) && Allowed(w, e)
    requires var v := Apply(w, e); u in v.users && id in v.attempts && v.attempts[id].nonce == v.users[u].comment != ""
    ensures var v := Apply(w, e); Name(v, id) == u && id in v.created && id !in v.revoked && (id in v.wals || id in v.handed)
  {
    assert !e.PutWal? || id != w.nextWal;
    if !e.Create? {
      assert u in w.users && w.users[u].comment == w.attempts[id].nonce;
    }
  }

  lemma CoveredStep(w: World, e: Effect)
    requires Inv(w) && Allowed(w, e)
    ensures Covered(Apply(w, e))
  {
    hide Allowed, Apply, Inv;
    var v := Apply(w, e);
    forall u, id | u in v.users && id in v.attempts && v.attempts[id].nonce != ""
                   && v.users[u].comment == v.attempts[id].nonce
      ensures Name(v, id) == u && id in v.created && id !in v.revoked && (id in v.wals || id in v.handed)
    {
      CoveredAt(w, e, u, id);
    }
  }

  lemma InvStep(w: World, e: Effect)
    requires Inv(w) && Allowed(w, e)
    ensures Inv(Apply(w, e))
  {
    hide Books, NoncesDistinct, Covered, Allowed, Apply;
    BooksStep(w, e);
    NoncesStep(w, e);
    CoveredStep(w, e);
  }

  // ---- Over whole runs ----

  lemma {:induction false} InvAlways(w: World, es: seq<Effect>)
    requires Inv(w) && Legal(w, es)
    ensures Inv(After(w, es))
  {
    if es != [] {
      InvAlways(w, es[..|es| - 1]);
      InvStep(After(w, es[..|es| - 1]), es[|es| - 1]);
    }
  }

  lemma {:induction false} Prefix(w: World, es: seq<Effect>, k: nat)
    requires Legal(w, es) && k < |es|
    ensures Legal(w, es[..k]) && Allowed(After(w, es[..k]), es[k])
    ensures After(w, es[..k + 1]) == Apply(After(w, es[..k]), es[k])
  {
    if k == |es| - 1 {
      assert es[..k + 1] == es;
    } else {
      var front := es[..|es| - 1];
      Prefix(w, front, k);
      assert front[..k] == es[..k] && front[..k + 1] == es[..k + 1];
    }
  }

  /** A run continued by another run is a run. */
  lemma {:induction false} Continue(w: World, es: seq<Effect>, fs: seq<Effect>)
    requires Legal(w, es) && Legal(After(w, es), fs)
    ensures Legal(w, es + fs) && After(w, es + fs) == After(After(w, es), fs)
  {
    if fs == [] {
      assert es + fs == es;
    } else {
      Continue(w, es, fs[..|fs| - 1]);
      assert (es + fs)[..|es + fs| - 1] == es + fs[..|fs| - 1];
    }
  }

  lemma Extend(w: World, es: seq<Effect>, e: Effect)
    requires Legal(w, es) && Allowed(After(w, es), e)
    ensures Legal(w, es + [e]) && After(w, es + [e]) == Apply(After(w, es), e)
  {
    assert (es + [e])[..|es|] == es;
  }

  // ---- Coverage ----

  /** Past the final DeleteWAL, and Vault died before it stored the lease. */
  predicate Lost(w: World, id: nat) {
    id in w.handed && id !in w.granting && id !in w.leased && id !in w.revoked
  }

  /**
   Coverage at every moment of every interleaving: a live user that still has its nonce is
   found again through its WAL entry, is being leased, is leased, or is lost.
   */
  lemma NoUserForgotten(w: World, es: seq<Effect>, id: nat)
    requires Inv(w) && Legal(w, es)
    requires id in After(w, es).attempts && After(w, es).attempts[id].nonce != "" && Carries(After(w, es), id)
    ensures var v := After(w, es); id in v.wals || id in v.granting || id in v.leased || Lost(v, id)
  {
    InvAlways(w, es);
    assert Name(After(w, es), id) in After(w, es).users;
  }

  /** And only a crash between the final DeleteWAL and the storing of the lease loses one. */
  lemma OnlyCrashLoses(w: World, e: Effect, id: nat)
    requires Inv(w) && Allowed(w, e)
    ensures Lost(Apply(w, e), id) <==> Lost(w, id) || (e == Crash && id in w.granting)
  {
    hide NoncesDistinct, Covered, Foreign, FreshNonce;
  }

  /** The user of an ended lease is gone at every later moment. */
  lemma RevokedStaysGone(w: World, es: seq<Effect>, id: nat)
    requires Inv(w) && Legal(w, es) && id in After(w, es).revoked
    ensures id in After(w, es).attempts && !Carries(After(w, es), id)
  {
    InvAlways(w, es);
  }

  /** What the sweep may touch is five minutes old, and what a request still acts for is not. */
  lemma FiveMinutes(w: World, e: Effect)
    requires Inv(w) && Allowed(w, e)
    ensures e.SweepMatch? || e.SweepDelete? || e.SweepDrop? ==> e.id in w.attempts && w.now >= w.attempts[e.id].born + 300
    ensures e.Create? || e.IssuerDelete? || e.IssuerDrop? || e.HandOver? ==> e.id in w.attempts && w.now < w.attempts[e.id].born + 300
  {
    hide Covered, NoncesDistinct, FreshNonce, Foreign, Carries;
  }

  /** An entry old enough for the sweep never becomes a lease any more. */
  lemma {:induction false} TooOldToHandOver(w: World, es: seq<Effect>, id: nat)
    requires Inv(w) && Legal(w, es) && id in w.attempts && !Young(w, id) && id !in w.handed
    ensures var v := After(w, es); id in v.attempts && !Young(v, id) && id !in v.handed
  {
    hide Covered, NoncesDistinct, Apply, Allowed, Young;
    if es != [] {
      var front := es[..|es| - 1];
      TooOldToHandOver(w, front, id);
      InvAlways(w, front);
      TooOldStep(After(w, front), es[|es| - 1], id);
    }
  }

  lemma TooOldStep(w: World, e: Effect, id: nat)
    requires Inv(w) && Allowed(w, e) && id in w.attempts && !Young(w, id) && id !in w.handed
    ensures var v := Apply(w, e); id in v.attempts && !Young(v, id) && id !in v.handed
  {
    hide Covered, NoncesDistinct, FreshNonce, Foreign, Carries;
  }

  // ---- Whom a delete hits ----

  /** The attempt that a deleting effect of the engine acts for. */
  predicate DeletesFor(e: Effect, id: nat) {
    e == IssuerDelete(id) || e == SweepDelete(id) || e == Revoke(id)
  }

  /** Whoever loses a user loses it to an operator or to an attempt that owed a delete of the name. */
  lemma DeletesAreOwed(w: World, e: Effect, u: string)
    requires Inv(w) && Allowed(w, e) && u in w.users && u !in Apply(w, e).users
    ensures e == OutsideDelete(u) || exists id :: DeletesFor(e, id) && id in w.attempts && Name(w, id) == u && OwesDelete(w, id)
  {
    hide Covered, NoncesDistinct, FreshNonce, Foreign;
    if !e.OutsideDelete? {
      assert DeletesFor(e, e.id);
    }
  }

  /** A user that is the attempt's own and whose name nobody else owes a delete. */
  predicate Owned(w: World, id: nat) {
    && id in w.attempts && id in w.created && Carries(w, id)
    && forall k :: k in w.attempts && k != id && Name(w, k) == Name(w, id) ==> !OwesDelete(w, k)
  }

  /** Neither the attempt itself nor an operator deletes the user. */
  predicate Spares(e: Effect, id: nat, name: string) {
    !DeletesFor(e, id) && e != OutsideDelete(name)
  }

  predicate SparedBy(es: seq<Effect>, id: nat, name: string) {
    forall k :: 0 <= k < |es| ==> Spares(es[k], id, name)
  }

  /** An attempt whose name is taken by another's user does not come to owe a delete of it. */
  lemma NoNewDebt(w: World, e: Effect, k: nat, name: string)
    requires Inv(w) && Allowed(w, e) && name in w.users
    requires k in w.attempts ==> Name(w, k) == name && !OwesDelete(w, k) && !(w.attempts[k].nonce != "" && Carries(w, k))
    requires k in Apply(w, e).attempts
    ensures !OwesDelete(Apply(w, e), k)
  {
    hide Covered, NoncesDistinct, FreshNonce, Foreign;
  }

  lemma OwnedStep(w: World, e: Effect, id: nat)
    requires Inv(w) && Allowed(w, e) && Owned(w, id) && Spares(e, id, Name(w, id))
    ensures Owned(Apply(w, e), id) && Name(Apply(w, e), id) == Name(w, id)
  {
    var v, u := Apply(w, e), Name(w, id);
    assert w.attempts[id].nonce != "";
    OwnUserStays(w, e, id);
    forall k | k in v.attempts && k != id && Name(v, k) == u
      ensures !OwesDelete(v, k)
    {
      hide Apply, Allowed, Covered, OwesDelete, Carries, Books, Name;
      OwnOfOne(w, id, k);
      if k in w.attempts {
        NameStays(w, e, k);
      }
      NoNewDebt(w, e, k, u);
    }
  }

  lemma NameStays(w: World, e: Effect, k: nat)
    requires Inv(w) && Allowed(w, e) && k in w.attempts
    ensures k in Apply(w, e).attempts && Name(Apply(w, e), k) == Name(w, k)
  {
    hide Covered, NoncesDistinct;
  }

  /** Two attempts of one name do not both own its user. */
  lemma OwnOfOne(w: World, id: nat, k: nat)
    requires Inv(w) && id in w.attempts && w.attempts[id].nonce != "" && Carries(w, id)
    ensures k in w.attempts && k != id && Name(w, k) == Name(w, id) ==> !Carries(w, k)
    ensures Name(w, id) in w.users
  {
    hide Covered, Books;
  }

  lemma OwnUserStays(w: World, e: Effect, id: nat)
    requires Inv(w) && Allowed(w, e) && Owned(w, id) && Spares(e, id, Name(w, id))
    ensures var v := Apply(w, e); id in v.attempts && id in v.created && Carries(v, id) && Name(v, id) == Name(w, id)
  {
    hide Covered, NoncesDistinct, FreshNonce, Foreign;
    if Name(w, id) !in Apply(w, e).users {
      DeletesAreOwed(w, e, Name(w, id));
    }
  }

  lemma {:induction false} OwnedAlways(w: World, es: seq<Effect>, id: nat)
    requires Inv(w) && Legal(w, es) && Owned(w, id) && SparedBy(es, id, Name(w, id))
    ensures Owned(After(w, es), id) && Name(After(w, es), id) == Name(w, id)
  {
    hide Allowed, Apply, Books, Covered, NoncesDistinct, Spares, Owned;
    if es != [] {
      var front := es[..|es| - 1];
      OwnedAlways(w, front, id);
      InvAlways(w, front);
      OwnedStep(After(w, front), es[|es| - 1], id);
    }
  }

  /** The lease of attempt id is neither revoked nor its user removed by an operator during es. */
  predicate LeftAlone(es: seq<Effect>, id: nat, name: string) {
    forall k :: 0 <= k < |es| ==> es[k] != Revoke(id) && es[k] != OutsideDelete(name)
  }

  lemma HandedStep(w: World, e: Effect, id: nat)
    requires Inv(w) && Allowed(w, e) && id in w.handed
    ensures id in Apply(w, e).handed && e != IssuerDelete(id) && e != SweepDelete(id)
  {
    hide Covered, NoncesDistinct;
  }

  /**
   A leased user survives every interleaving of other requests, sweeps, stale WAL entries of
   the same name, revocations of other leases, operators and crashes.
   */
  lemma {:induction false} LeaseSurvives(w: World, es: seq<Effect>, id: nat)
    requires Inv(w) && Legal(w, es) && id in w.handed && Owned(w, id)
    requires LeftAlone(es, id, Name(w, id))
    ensures var v := After(w, es); id in v.handed && Owned(v, id) && Name(v, id) == Name(w, id)
  {
    hide Allowed, Apply, Books, Covered, NoncesDistinct, Owned;
    if es != [] {
      var front, e := es[..|es| - 1], es[|es| - 1];
      LeaseSurvives(w, front, id);
      InvAlways(w, front);
      HandedStep(After(w, front), e, id);
      OwnedStep(After(w, front), e, id);
    }
  }

  /** A user that carries no attempt's nonce. */
  predicate Outsider(w: World, u: string) {
    u in w.users && Foreign(w, w.users[u].comment)
  }

  lemma OutsiderStep(w: World, e: Effect, u: string)
    requires Inv(w) && Allowed(w, e) && Outsider(w, u) && Free(w, u) && e != OutsideDelete(u)
    ensures Outsider(Apply(w, e), u) && Free(Apply(w, e), u)
  {
    var v := Apply(w, e);
    OutsiderStays(w, e, u);
    forall k | k in v.attempts && Name(v, k) == u
      ensures !OwesDelete(v, k)
    {
      if k in w.attempts {
        NameStays(w, e, k);
      }
      NoNewDebt(w, e, k, u);
    }
  }

  lemma OutsiderStays(w: World, e: Effect, u: string)
    requires Inv(w) && Allowed(w, e) && Outsider(w, u) && Free(w, u) && e != OutsideDelete(u)
    ensures Outsider(Apply(w, e), u)
  {
    hide Covered;
    assert forall id :: id in w.created ==> w.attempts[id].nonce != w.users[u].comment;
    if u !in Apply(w, e).users {
      DeletesAreOwed(w, e, u);
    }
  }

  predicate NotByOperators(es: seq<Effect>, u: string) {
    forall k :: 0 <= k < |es| ==> es[k] != OutsideDelete(u)
  }

  /** A foreign user whose name nobody owes a delete is never deleted by the engine, whatever WAL entries name it. */
  lemma {:induction false} OutsiderSurvives(w: World, es: seq<Effect>, u: string)
    requires Inv(w) && Legal(w, es) && Outsider(w, u) && Free(w, u) && NotByOperators(es, u)
    ensures Outsider(After(w, es), u) && Free(After(w, es), u)
  {
    hide Allowed, Apply, Books, Covered, NoncesDistinct, Outsider, Free;
    if es != [] {
      var front := es[..|es| - 1];
      OutsiderSurvives(w, front, u);
      InvAlways(w, front);
      OutsiderStep(After(w, front), es[|es| - 1], u);
    }
  }

  // ---- The exact condition on a name ----

  /** An attempt that owes a delete can send it, in these steps. */
  function Strike(w: World, id: nat): seq<Effect>
    requires id in w.attempts
  {
    if id in w.sweeping then [SweepDelete(id)]
    else if id in w.leased then [Revoke(id)]
    else if id in w.granting then [Register(id), Revoke(id)]
    else [IssuerDelete(id)]
  }

  lemma OneStep(w: World, e: Effect)
    requires Allowed(w, e)
    ensures Legal(w, [e]) && After(w, [e]) == Apply(w, e)
  {
    hide Allowed, Apply;
    assert Legal(w, []) && After(w, []) == w;
    Extend(w, [], e);
    assert [] + [e] == [e];
  }

  lemma DeleteHits(w: World, id: nat, e: Effect)
    requires id in w.attempts && DeletesFor(e, id) && Allowed(w, e)
    ensures Name(w, id) !in Apply(w, e).users && Apply(w, e).handed == w.handed
  {
  }

  lemma GrantedHits(w: World, id: nat)
    requires Inv(w) && id in w.attempts && id in w.granting
    ensures Legal(w, [Register(id), Revoke(id)])
    ensures Name(w, id) !in After(w, [Register(id), Revoke(id)]).users && After(w, [Register(id), Revoke(id)]).handed == w.handed
  {
    hide Inv, Legal, After;
    var v := Apply(w, Register(id));
    DeleteHits(v, id, Revoke(id));
    TwoSteps(w, Register(id), Revoke(id));
  }

  lemma StrikeHits(w: World, id: nat)
    requires Inv(w) && id in w.attempts && OwesDelete(w, id)
    ensures Legal(w, Strike(w, id)) && Name(w, id) !in After(w, Strike(w, id)).users
    ensures After(w, Strike(w, id)).handed == w.handed
  {
    hide Inv, Legal, After, Apply, AtWork;
    if id in w.granting && id !in w.sweeping && id !in w.leased {
      GrantedHits(w, id);
    } else {
      var e := Strike(w, id)[0];
      DeleteHits(w, id, e);
      OneStep(w, e);
    }
  }

  /** The strike is no other attempt's doing and no operator's. */
  lemma StrikeSpares(w: World, id: nat, other: nat, name: string)
    requires id in w.attempts && id != other
    ensures SparedBy(Strike(w, id), other, name) && NotByOperators(Strike(w, id), name)
  {
  }

  lemma TwoSteps(w: World, d: Effect, e: Effect)
    requires Allowed(w, d) && Allowed(Apply(w, d), e)
    ensures Legal(w, [d, e]) && After(w, [d, e]) == Apply(Apply(w, d), e)
  {
    hide Allowed, Apply;
    assert Legal(w, []) && After(w, []) == w;
    Extend(w, [], d);
    Extend(w, [] + [d], e);
    assert [] + [d] + [e] == [d, e];
  }

  /** From w on nobody but operators ever removes u. */
  ghost predicate SafeOutsider(w: World, u: string) {
    forall es :: Legal(w, es) && NotByOperators(es, u) ==> u in After(w, es).users
  }

  /**
   A user that an operator creates is safe from the engine in every continuation exactly when
   no delete of its name is owed at that moment.
   */
  lemma OutsiderSafeExactlyWhenFree(w: World, u: string, user: User)
    requires Inv(w) && u !in w.users && Foreign(w, user.comment)
    ensures Free(w, u) <==> SafeOutsider(Apply(w, OutsideCreate(u, user)), u)
  {
    var v := Apply(w, OutsideCreate(u, user));
    InvStep(w, OutsideCreate(u, user));
    if Free(w, u) {
      FreeAfterOutside(w, u, user);
      forall es | Legal(v, es) && NotByOperators(es, u)
        ensures u in After(v, es).users
      {
        OutsiderSurvives(v, es, u);
      }
    } else {
      var id :| id in w.attempts && Name(w, id) == u && OwesDelete(w, id);
      assert OwesDelete(v, id);
      StrikeHits(v, id);
      StrikeSpares(v, id, id + 1, u);
    }
  }

  lemma FreeAfterOutside(w: World, u: string, user: User)
    requires Free(w, u) && u !in w.users && Foreign(w, user.comment)
    ensures Outsider(Apply(w, OutsideCreate(u, user)), u) && Free(Apply(w, OutsideCreate(u, user)), u)
  {
    var v := Apply(w, OutsideCreate(u, user));
    assert forall id :: id in w.attempts ==> (OwesDelete(v, id) <==> OwesDelete(w, id)) && Name(v, id) == Name(w, id);
  }

  /** From w on, once id is handed over its user stays for as long as id itself and operators let it. */
  ghost predicate SafeLease(w: World, id: nat, name: string) {
    forall es :: Legal(w, es) && SparedBy(es, id, name) && id in After(w, es).handed ==> name in After(w, es).users
  }

  lemma OwnedAfterCreate(w: World, id: nat, user: User)
    requires Inv(w) && Creatable(w, id, user) && Free(w, Name(w, id))
    ensures Owned(Apply(w, Create(id, user)), id)
  {
    var v := Apply(w, Create(id, user));
    assert forall k :: k in w.attempts && k != id ==> (OwesDelete(v, k) <==> OwesDelete(w, k)) && Name(v, k) == Name(w, k);
  }

  /** The run that loses the new lease when another attempt owes a delete of the name. */
  lemma OwedDeleteStrikes(w: World, id: nat, user: User, other: nat) returns (es: seq<Effect>)
    requires Inv(w) && Creatable(w, id, user)
    requires other in w.attempts && Name(w, other) == Name(w, id) && OwesDelete(w, other)
    ensures var v := Apply(w, Create(id, user));
            && Legal(v, es) && SparedBy(es, id, Name(w, id)) && id in After(v, es).handed
            && Name(w, id) !in After(v, es).users
  {
    var v := Apply(w, Create(id, user));
    var one := Apply(v, HandOver(id));
    DebtStays(w, id, user, other);
    hide *;
    StrikeHits(one, other);
    StrikeSpares(one, other, id, Name(w, id));
    es := [HandOver(id)] + Strike(one, other);
    HandThenStrike(v, id, Strike(one, other));
    SparedTogether(HandOver(id), Strike(one, other), id, Name(w, id));
  }

  lemma HandThenStrike(v: World, id: nat, strike: seq<Effect>)
    requires Allowed(v, HandOver(id)) && Legal(Apply(v, HandOver(id)), strike)
    ensures Legal(v, [HandOver(id)] + strike)
    ensures After(v, [HandOver(id)] + strike) == After(Apply(v, HandOver(id)), strike)
  {
    hide Allowed, Apply;
    OneStep(v, HandOver(id));
    hide Legal, After;
    Continue(v, [HandOver(id)], strike);
  }

  lemma SparedTogether(e: Effect, es: seq<Effect>, id: nat, name: string)
    requires e.HandOver? && SparedBy(es, id, name)
    ensures SparedBy([e] + es, id, name)
  {
    hide Spares;
    assert Spares(e, id, name) by {
      HandOverSpares(e, id, name);
    }
    assert forall k :: 1 <= k <= |es| ==> ([e] + es)[k] == es[k - 1];
  }

  lemma HandOverSpares(e: Effect, id: nat, name: string)
    requires e.HandOver?
    ensures Spares(e, id, name)
  {
  }

  lemma DebtStays(w: World, id: nat, user: User, other: nat)
    requires Inv(w) && Creatable(w, id, user)
    requires other in w.attempts && Name(w, other) == Name(w, id) && OwesDelete(w, other)
    ensures var v := Apply(w, Create(id, user));
            var one := Apply(v, HandOver(id));
            && id != other && Allowed(v, HandOver(id)) && Inv(one) && id in one.handed
            && other in one.attempts && OwesDelete(one, other) && Name(one, other) == Name(w, id)
  {
    hide Covered, NoncesDistinct;
    InvStep(w, Create(id, user));
    InvStep(Apply(w, Create(id, user)), HandOver(id));
  }

  /**
   A userid may be used again exactly when no delete of it is owed: then the new lease is
   safe in every continuation, and otherwise some continuation deletes it.
   */
  lemma ReuseSafeExactlyWhenFree(w: World, id: nat, user: User)
    requires Inv(w) && Creatable(w, id, user)
    ensures Free(w, Name(w, id)) <==> SafeLease(Apply(w, Create(id, user)), id, Name(w, id))
  {
    var v := Apply(w, Create(id, user));
    InvStep(w, Create(id, user));
    if Free(w, Name(w, id)) {
      OwnedAfterCreate(w, id, user);
      forall es | Legal(v, es) && SparedBy(es, id, Name(w, id)) && id in After(v, es).handed
        ensures Name(w, id) in After(v, es).users
      {
        OwnedAlways(v, es, id);
      }
    } else {
      var other :| other in w.attempts && Name(w, other) == Name(w, id) && OwesDelete(w, other);
      var es := OwedDeleteStrikes(w, id, user, other);
    }
  }

  // ---- Deletes hit their own users, unless a name is taken while a delete of it is owed ----

  /** Whoever takes a name takes a free one. */
  predicate TakesFreely(w: World, e: Effect) {
    match e
    case Create(id, _) => id in w.attempts ==> Free(w, Name(w, id))
    case OutsideCreate(userid, _) => Free(w, userid)
    case _ => true
  }

  predicate TakenFreely(w: World, es: seq<Effect>) {
    forall k :: 0 <= k < |es| ==> TakesFreely(After(w, es[..k]), es[k])
  }

  /** A delete that is owed can only hit its own user. */
  predicate Aimed(w: World) {
    forall id :: id in w.attempts && OwesDelete(w, id) && Name(w, id) in w.users ==> Carries(w, id)
  }

  lemma AimedStep(w: World, e: Effect)
    requires Inv(w) && Aimed(w) && Allowed(w, e) && TakesFreely(w, e)
    ensures Aimed(Apply(w, e))
  {
    hide NoncesDistinct, Covered;
    var v := Apply(w, e);
    forall id | id in v.attempts && OwesDelete(v, id) && Name(v, id) in v.users
      ensures Carries(v, id)
    {
      assert !e.PutWal? || id != w.nextWal;
      if !e.Create? || e.id != id {
        assert OwesDelete(w, id) || e == SweepMatch(id);
      }
    }
  }

  lemma {:induction false} AimedAlways(w: World, es: seq<Effect>)
    requires Inv(w) && Aimed(w) && Legal(w, es) && TakenFreely(w, es)
    ensures Aimed(After(w, es))
  {
    hide Aimed, TakesFreely, Allowed, Apply, Books, Covered, NoncesDistinct;
    if es != [] {
      var n := |es| - 1;
      forall k | 0 <= k < n
        ensures TakesFreely(After(w, es[..n][..k]), es[..n][k])
      {
        assert es[..n][..k] == es[..k] && es[..n][k] == es[k];
      }
      AimedAlways(w, es[..n]);
      InvAlways(w, es[..n]);
      AimedStep(After(w, es[..n]), es[n]);
    }
  }

  /**
   In a run in which names are taken only when no delete of them is owed, every delete of the
   engine removes the user of the attempt it acts for, and nobody else's.
   */
  lemma DeletesOwnUser(w: World, es: seq<Effect>, k: nat, u: string)
    requires Inv(w) && Aimed(w) && Legal(w, es) && TakenFreely(w, es) && k < |es|
    requires u in After(w, es[..k]).users && u !in After(w, es[..k + 1]).users
    ensures var v := After(w, es[..k]);
            es[k] == OutsideDelete(u) || exists id :: DeletesFor(es[k], id) && id in v.attempts && Name(v, id) == u && Carries(v, id)
  {
    Prefix(w, es, k);
    InvAlways(w, es[..k]);
    forall j | 0 <= j < k
      ensures TakesFreely(After(w, es[..k][..j]), es[..k][j])
    {
      assert es[..k][..j] == es[..j] && es[..k][j] == es[j];
    }
    AimedAlways(w, es[..k]);
    DeletesAreOwed(After(w, es[..k]), es[k], u);
  }

  // ---- Both failures, from an empty installation ----

  /** A lease whose revocation deleted the user and whose answer was lost: the delete is still owed. */
  function HalfRevoked(u: string, nonce: string, groups: seq<string>, expire: int): seq<Effect> {
    [PutWal(Attempt(u, nonce, expire, 0)), Create(1, User(nonce, groups, true, expire)), HandOver(1), Register(1), Revoke(1)]
  }

  lemma HalfRevokedRuns(u: string, nonce: string, groups: seq<string>, expire: int) returns (v: World)
    requires nonce != ""
    ensures Legal(Empty(map[]), HalfRevoked(u, nonce, groups, expire))
    ensures v == After(Empty(map[]), HalfRevoked(u, nonce, groups, expire)) && Inv(v)
    ensures v.users == map[] && v.attempts == map[1 := Attempt(u, nonce, expire, 0)] && v.leased == {1} && v.nextWal == 2
    ensures v.now == 0 && v.created == {1} && v.sweeping == {} && v.granting == {} && v.handed == {1}
  {
    var w0, es := Empty(map[]), HalfRevoked(u, nonce, groups, expire);
    var w1 := Apply(w0, es[0]);
    var w2 := Apply(w1, es[1]);
    var w3 := Apply(w2, es[2]);
    var w4 := Apply(w3, es[3]);
    v := Apply(w4, es[4]);
    assert Allowed(w0, es[0]) && Allowed(w1, es[1]) && Allowed(w2, es[2]) && Allowed(w3, es[3]) && Allowed(w4, es[4]);
    FiveSteps(w0, es);
    InvAlways(w0, es);
  }

  lemma FiveSteps(w: World, es: seq<Effect>)
    requires |es| == 5
    requires var w1 := Apply(w, es[0]);
             var w2 := Apply(w1, es[1]);
             var w3 := Apply(w2, es[2]);
             var w4 := Apply(w3, es[3]);
             Allowed(w, es[0]) && Allowed(w1, es[1]) && Allowed(w2, es[2]) && Allowed(w3, es[3]) && Allowed(w4, es[4])
    ensures Legal(w, es)
    ensures After(w, es) == Apply(Apply(Apply(Apply(Apply(w, es[0]), es[1]), es[2]), es[3]), es[4])
  {
    hide Allowed, Apply;
    TwoSteps(w, es[0], es[1]);
    var w2 := Apply(Apply(w, es[0]), es[1]);
    TwoSteps(w2, es[2], es[3]);
    Continue(w, [es[0], es[1]], [es[2], es[3]]);
    Extend(w, [es[0], es[1]] + [es[2], es[3]], es[4]);
    assert [es[0], es[1]] + [es[2], es[3]] + [es[4]] == es;
  }

  /** The retried revocation deletes a user that an operator put under the name. */
  lemma OutsiderLost(u: string, nonce: string, foreign: User) returns (es: seq<Effect>, fs: seq<Effect>)
    requires nonce != "" && foreign.comment != nonce
    ensures Legal(Empty(map[]), es + [OutsideCreate(u, foreign)] + fs) && NotByOperators(fs, u)
    ensures Outsider(After(Empty(map[]), es + [OutsideCreate(u, foreign)]), u)
    ensures u !in After(Empty(map[]), es + [OutsideCreate(u, foreign)] + fs).users
  {
    es := HalfRevoked(u, nonce, [], 1);
    var v := HalfRevokedRuns(u, nonce, [], 1);
    var o := OutsideCreate(u, foreign);
    fs := [Revoke(1)];
    Extend(Empty(map[]), es, o);
    Extend(Empty(map[]), es + [o], Revoke(1));
  }

  /** And it deletes the user of a new lease that drew the name again. */
  lemma LeaseLost(u: string, nonce: string, again: string) returns (es: seq<Effect>, fs: seq<Effect>)
    requires nonce != "" && again != "" && nonce != again
    ensures Legal(Empty(map[]), es + fs) && SparedBy(fs, 2, u)
    ensures After(Empty(map[]), es).leased == {1, 2} && 2 in After(Empty(map[]), es).attempts && Carries(After(Empty(map[]), es), 2)
    ensures 2 in After(Empty(map[]), es + fs).leased && u !in After(Empty(map[]), es + fs).users
  {
    var first := HalfRevoked(u, nonce, [], 1);
    var v := HalfRevokedRuns(u, nonce, [], 1);
    var second := SecondLease(u, again);
    SecondLeaseRuns(v, u, again);
    hide Allowed, Apply, Carries, Legal, After, HalfRevoked;
    Continue(Empty(map[]), first, second[..4]);
    Extend(Empty(map[]), first + second[..4], Revoke(1));
    es, fs := first + second[..4], [Revoke(1)];
  }

  function SecondLease(u: string, nonce: string): (es: seq<Effect>)
    ensures |es| == 5
  {
    [PutWal(Attempt(u, nonce, 1, 0)), Create(2, User(nonce, [], true, 1)), HandOver(2), Register(2), Revoke(1)]
  }

  lemma SecondLeaseRuns(v: World, u: string, nonce: string)
    requires v.users == map[] && 1 in v.attempts && v.leased == {1} && v.nextWal == 2 && v.now == 0 && 2 !in v.created
    requires nonce != "" && v.attempts.Keys == {1} && v.attempts[1].nonce != nonce && v.attempts[1].userid == u
    ensures var es := SecondLease(u, nonce);
            var w := After(v, es[..4]);
            && Legal(v, es[..4]) && Allowed(w, Revoke(1)) && u !in Apply(w, Revoke(1)).users
            && w.leased == {1, 2} && Apply(w, Revoke(1)).leased == {1, 2} && 2 in w.attempts && Carries(w, 2)
  {
    var es := SecondLease(u, nonce);
    var w1 := Apply(v, es[0]);
    var w2 := Apply(w1, es[1]);
    var w3 := Apply(w2, es[2]);
    var w4 := Apply(w3, es[3]);
    assert Allowed(v, es[0]) && Allowed(w1, es[1]) && Allowed(w2, es[2]) && Allowed(w3, es[3]);
    assert Allowed(w4, es[4]) && u !in Apply(w4, es[4]).users && w4.leased == {1, 2} && 2 in w4.attempts && Carries(w4, 2);
    hide Allowed, Apply, Carries;
    FiveSteps(v, es);
    FourSteps(v, es);
  }

  lemma FourSteps(w: World, es: seq<Effect>)
    requires Legal(w, es) && |es| == 5
    ensures Legal(w, es[..4]) && After(w, es[..4]) == Apply(Apply(Apply(Apply(w, es[0]), es[1]), es[2]), es[3])
  {
    Prefix(w, es, 4);
    Prefix(w, es, 3);
    Prefix(w, es, 2);
    Prefix(w, es, 1);
    Prefix(w, es, 0);
    assert es[..0] == [];
  }

  // ---- What one request, sweep or revocation may rely on while the others run ----

  predicate IssuerOf(e: Effect, id: nat) {
    || (e.Create? && e.id == id)
    || e == IssuerDelete(id) || e == IssuerDrop(id) || e == HandOver(id) || e == End(id)
  }

  predicate SweeperOf(e: Effect, id: nat) {
    e == SweepMatch(id) || e == SweepDelete(id) || e == SweepDrop(id) || e == SweepStop(id)
  }

  predicate HolderOf(e: Effect, id: nat) {
    e == Revoke(id) || e == Revoked(id)
  }

  /** Whom a handler acts for: nobody else issues, sweeps or revokes that attempt meanwhile. */
  datatype Role = Issuer(id: nat) | Sweeper(id: nat) | Holder(id: nat) | Nobody

  predicate ActsFor(e: Effect, role: Role) {
    match role
    case Issuer(id) => IssuerOf(e, id)
    case Sweeper(id) => SweeperOf(e, id)
    case Holder(id) => HolderOf(e, id)
    case Nobody => false
  }

  /** The others act, and the process lives. */
  predicate ByOthers(es: seq<Effect>, role: Role) {
    forall k :: 0 <= k < |es| ==> !es[k].Crash? && !ActsFor(es[k], role)
  }

  predicate Running(w: World, id: nat) {
    id in w.issuing || id in w.closing
  }

  /** Books only grow; a dropped entry stays dropped, an ended request ended. */
  predicate Later(w: World, v: World) {
    && w.now <= v.now && w.handed <= v.handed
    && forall id :: id in w.attempts ==>
         && id in v.attempts && v.attempts[id] == w.attempts[id]
         && (id !in w.wals ==> id !in v.wals)
         && (!Running(w, id) ==> !Running(v, id) && (id in v.handed ==> id in w.handed))
  }

  /** What a handler knows of its attempt while the others run. */
  predicate Steady(w: World, v: World, role: Role)
    requires Later(w, v)
  {
    match role
    case Issuer(id) =>
      id in w.attempts ==>
        && (id in w.wals && Young(v, id) ==> id in v.wals)
        && (id in v.created <==> id in w.created) && (id in v.handed <==> id in w.handed)
        && (id in v.issuing <==> id in w.issuing) && (id in v.closing <==> id in w.closing)
        && (w.attempts[id].nonce != "" && !Carries(w, id) ==> !Carries(v, id))
    case Sweeper(id) =>
      id in w.attempts && !Young(w, id) ==>
        && (id in w.wals ==> id in v.wals) && (id in v.sweeping <==> id in w.sweeping)
        && (w.attempts[id].nonce != "" && !Carries(w, id) ==> !Carries(v, id))
    case Holder(id) => id in w.leased ==> id in v.leased
    case Nobody => true
  }

  lemma LaterStep(w: World, e: Effect)
    requires Inv(w) && Allowed(w, e)
    ensures Later(w, Apply(w, e))
  {
    hide Covered, NoncesDistinct, FreshNonce, Foreign, Carries;
  }

  lemma SteadyStep(w: World, e: Effect, role: Role)
    requires Inv(w) && Allowed(w, e) && !ActsFor(e, role) && !e.Crash?
    ensures Later(w, Apply(w, e)) && Steady(w, Apply(w, e), role)
  {
    LaterStep(w, e);
    match role {
      case Issuer(id) => SteadyIssuerStep(w, e, id);
      case Sweeper(id) => SteadySweeperStep(w, e, id);
      case Holder(_) => hide Covered, NoncesDistinct;
      case Nobody =>
    }
  }

  lemma SteadyIssuerStep(w: World, e: Effect, id: nat)
    requires Inv(w) && Allowed(w, e) && !IssuerOf(e, id) && !e.Crash? && Later(w, Apply(w, e))
    ensures Steady(w, Apply(w, e), Issuer(id))
  {
    hide Covered, FreshNonce, Later;
  }

  lemma SteadySweeperStep(w: World, e: Effect, id: nat)
    requires Inv(w) && Allowed(w, e) && !SweeperOf(e, id) && !e.Crash? && Later(w, Apply(w, e))
    ensures Steady(w, Apply(w, e), Sweeper(id))
  {
    hide Covered, FreshNonce;
  }

  lemma AllButLast(es: seq<Effect>, role: Role)
    requires es != [] && ByOthers(es, role)
    ensures ByOthers(es[..|es| - 1], role) && !es[|es| - 1].Crash? && !ActsFor(es[|es| - 1], role)
  {
    hide ActsFor;
    assert forall k :: 0 <= k < |es| - 1 ==> es[..|es| - 1][k] == es[k];
  }

  lemma {:induction false} SteadyUnderOthers(w: World, es: seq<Effect>, role: Role)
    requires Inv(w) && Legal(w, es) && ByOthers(es, role)
    ensures Later(w, After(w, es)) && Steady(w, After(w, es), role)
  {
    hide Allowed, Apply, Covered, NoncesDistinct, Books, ActsFor, ByOthers;
    if es != [] {
      var front := es[..|es| - 1];
      AllButLast(es, role);
      SteadyUnderOthers(w, front, role);
      InvAlways(w, front);
      SteadyStep(After(w, front), es[|es| - 1], role);
    }
  }

  /** A request's own user stays its own while the request is young and operators leave the name alone. */
  lemma {:induction false} OwnedUnderOthers(w: World, es: seq<Effect>, id: nat)
    requires Inv(w) && Legal(w, es) && ByOthers(es, Issuer(id)) && Owned(w, id) && id !in w.handed
    requires NotByOperators(es, Name(w, id)) && id in After(w, es).attempts && Young(After(w, es), id)
    ensures Owned(After(w, es), id)
  {
    if es != [] {
      var front, e := es[..|es| - 1], es[|es| - 1];
      InvAlways(w, front);
      AllButLast(es, Issuer(id));
      SteadyUnderOthers(w, front, Issuer(id));
      hide Allowed, Apply, Covered, NoncesDistinct, Owned, Steady, ActsFor;
      var v := After(w, front);
      assert Young(v, id) && !ActsFor(e, Issuer(id)) by {
        LaterStep(v, e);
      }
      OwnedUnderOthers(w, front, id);
      NotStruckYoung(w, v, e, id);
      OwnedStep(v, e, id);
    }
  }

  /** The same as a whole, for whoever does not know whether operators leave the name alone. */
  lemma OwnedIfUntouched(w: World, es: seq<Effect>, id: nat)
    requires Inv(w) && Legal(w, es) && ByOthers(es, Issuer(id))
    ensures Untroubled(w, es, id) ==> Owned(After(w, es), id)
  {
    hide Inv, Owned, ByOthers;
    if Untroubled(w, es, id) {
      OwnedUnderOthers(w, es, id);
    }
  }

  /** The attempt starts out with its own user, is not handed over, stays young, and operators leave the name alone. */
  predicate Untroubled(w: World, es: seq<Effect>, id: nat) {
    && id in w.attempts && Owned(w, id) && id !in w.handed && NotByOperators(es, Name(w, id))
    && id in After(w, es).attempts && Young(After(w, es), id)
  }

  lemma NotStruckYoung(w: World, v: World, e: Effect, id: nat)
    requires Inv(v) && Allowed(v, e) && id in w.attempts && id !in w.handed && !ActsFor(e, Issuer(id))
    requires Later(w, v) && Steady(w, v, Issuer(id)) && Young(v, id)
    ensures !DeletesFor(e, id)
  {
    hide Covered, NoncesDistinct;
  }
}
