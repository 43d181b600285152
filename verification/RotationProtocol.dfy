/**
 The rules of provisioner-token rotation. A World is everything that survives a crash:
 the config entry, the rotation entry and the WAL entries in Vault storage, and the API
 tokens that exist on the server. An Effect is one atomic change of it. Allowed says when
 the engine may make a change, in terms of the world alone, so a run that stops anywhere is
 again a run and the next handler may take over from any of its states: that is a crash.

 The handlers in RotationEngine are proved to make allowed changes only.
 */
module RotationProtocol {
  import opened Wrappers
  import opened Configuration
  import Permissions
  import TokenId

  datatype Phase = Provisioning | ValidationFailed | DeletingOld

  /** walId 0 stands for the empty WAL id; the copy inside a WAL entry has it. */
  datatype Rotation = Rotation(oldId: string, newId: string, phase: Phase, walId: nat, startedAt: int)

  datatype World = World(
    config: Option<Config>,
    pending: Option<Rotation>,   // storage key "rotation"
    wals: map<nat, Rotation>,    // WAL entries of kind "root-rotation"
    nextWal: nat,                // WAL ids are never reused
    live: map<string, string>,   // API tokens of the server: id to secret
    known: set<string>,          // every token id a rotation ever named
    realms: set<string>)         // realms of the stored roles

  datatype Effect =
    | PutWal(entry: Rotation)
    | PutState(state: Rotation)
    | Mint(id: string, secret: string, applied: bool)
    | Switch(config: Config, seen: Permissions.Tree)
    | Delete(id: string, applied: bool)
    | DropWal(wal: nat)
    | ClearState
    | OperatorWrite(written: Option<Config>)

  /** A request to the server with applied == false was sent and had no effect. */
  function Apply(w: World, e: Effect): World {
    match e
    case PutWal(entry) =>
      w.(wals := w.wals[w.nextWal := entry], nextWal := w.nextWal + 1,
         known := w.known + {entry.oldId, entry.newId})
    case PutState(state) => w.(pending := Some(state))
    case Mint(id, secret, applied) => if applied then w.(live := w.live[id := secret]) else w
    case Switch(config, _) => w.(config := Some(config))
    case Delete(id, applied) => if applied then w.(live := w.live - {id}) else w
    case DropWal(wal) => w.(wals := w.wals - {wal})
    case ClearState => w.(pending := None)
    case OperatorWrite(written) => w.(config := written)
  }

  /** Both ids split, and into the same user. */
  predicate Paired(oldId: string, newId: string) {
    var o, n := TokenId.Split(oldId), TokenId.Split(newId);
    o.Some? && n.Some? && o.value.user == n.value.user
  }

  predicate SamePair(a: Rotation, b: Rotation) {
    a.oldId == b.oldId && a.newId == b.newId
  }

  predicate Dead(w: World, id: string) {
    id !in w.live
  }

  predicate OwnWal(w: World, p: Rotation) {
    p.walId in w.wals && SamePair(w.wals[p.walId], p)
  }

  predicate Configured(w: World, id: string) {
    w.config.Some? && w.config.value.tokenId == id
  }

  /** Of the two tokens of p the one that is not in use is gone. */
  predicate Cleared(w: World, p: Rotation) {
    && w.config.Some?
    && if Configured(w, p.oldId) then Dead(w, p.newId)
       else if Configured(w, p.newId) then Dead(w, p.oldId)
       else Dead(w, p.oldId) || Dead(w, p.newId)
  }

  ghost predicate Allocatable(t: Permissions.Tree, realms: set<string>) {
    forall realm :: realm in realms ==>
      Permissions.Effective(t, "/access/realm/" + realm, "Realm.AllocateUser")
  }

  /** What a replacement token must be able to do. */
  ghost predicate Privileged(t: Permissions.Tree, realms: set<string>) {
    && Permissions.Effective(t, "/access/groups", "User.Modify")
    && Permissions.Effective(t, "/access/groups", "Sys.Audit")
    && Allocatable(t, realms)
  }

  /** The three grants, and no other. */
  lemma PrivilegedSuffices(t: Permissions.Tree, realms: set<string>)
    requires Permissions.Effective(t, "/access/groups", "User.Modify")
    requires Permissions.Effective(t, "/access/groups", "Sys.Audit")
    requires forall realm :: realm in realms ==> Permissions.Effective(t, "/access/realm/" + realm, "Realm.AllocateUser")
    ensures Privileged(t, realms)
  {
    hide Permissions.Effective;
  }

  ghost predicate Allowed(w: World, e: Effect) {
    match e
    case PutWal(entry) =>
      // nothing is pending, and the new id is new
      && w.pending.None? && Configured(w, entry.oldId) && Paired(entry.oldId, entry.newId)
      && entry.newId !in w.known && Dead(w, entry.newId) && entry.newId != entry.oldId
      && entry.phase == Provisioning && entry.walId == 0
    case PutState(state) =>
      && OwnWal(w, state)
      && (match w.pending
          case None => Configured(w, state.oldId) && Dead(w, state.newId) && state.phase == Provisioning
          case Some(p) =>
            && state == p.(phase := state.phase)
            && (|| (state.phase == ValidationFailed && Configured(w, p.oldId))
                || (state.phase == DeletingOld && Configured(w, p.newId))))
    case Mint(id, secret, applied) =>
      // recorded twice before it exists, and the token to be replaced is really there
      && w.pending.Some? && OwnWal(w, w.pending.value)
      && id == w.pending.value.newId && Configured(w, w.pending.value.oldId)
      && !Dead(w, w.pending.value.oldId) && (applied ==> Dead(w, id) && secret != "")
    case Switch(config, seen) =>
      && w.pending.Some? && OwnWal(w, w.pending.value)
      && var p := w.pending.value;
      && Configured(w, p.oldId) && !Dead(w, p.oldId) && p.newId in w.live
      && config == w.config.value.(tokenId := p.newId, secret := w.live[p.newId])
      && Privileged(seen, w.realms)
    case Delete(id, _) =>
      && w.config.Some? && !Configured(w, id)
      && w.pending.Some? && (id == w.pending.value.oldId || id == w.pending.value.newId)
    case DropWal(wal) =>
      && wal in w.wals
      && (w.pending.Some? ==> w.pending.value.walId == wal && Cleared(w, w.pending.value))
    case ClearState =>
      && w.pending.Some?
      && (Cleared(w, w.pending.value) || !Paired(w.pending.value.oldId, w.pending.value.newId))
    case OperatorWrite(_) => true
  }

  /** The state after a run. */
  function After(w: World, es: seq<Effect>): World {
    if es == [] then w else Apply(After(w, es[..|es| - 1]), es[|es| - 1])
  }

  /** Every effect of the run was allowed where it happened. */
  ghost predicate Legal(w: World, es: seq<Effect>) {
    es == [] || (Legal(w, es[..|es| - 1]) && Allowed(After(w, es[..|es| - 1]), es[|es| - 1]))
  }

  predicate ByEngine(es: seq<Effect>) {
    forall k :: 0 <= k < |es| ==> !es[k].OperatorWrite?
  }

  // ---- What every reachable world satisfies ----

  predicate Sane(w: World, r: Rotation) {
    Paired(r.oldId, r.newId) && r.oldId != r.newId && r.oldId in w.known && r.newId in w.known
  }

  /** WAL ids are fresh, and no two entries name the same new token. */
  predicate WalsInv(w: World) {
    && w.nextWal > 0
    && (forall i :: i in w.wals ==> 0 < i < w.nextWal && Sane(w, w.wals[i]))
    && (forall i, j :: i in w.wals && j in w.wals && i != j ==> w.wals[i].newId != w.wals[j].newId)
  }

  /** Only its own WAL entry names the new token of the pending rotation. */
  predicate PendingInv(w: World) {
    w.pending.Some? ==>
      var p := w.pending.value;
      && Sane(w, p) && 0 < p.walId < w.nextWal
      && (p.walId in w.wals ==> SamePair(w.wals[p.walId], p))
      && (forall i :: i in w.wals && i != p.walId ==> w.wals[i].newId != p.newId)
  }

  predicate Inv(w: World) {
    WalsInv(w) && PendingInv(w)
  }

  /** The configured token exists and the stored secret is its secret. */
  predicate Works(w: World) {
    && w.config.Some? && w.config.value.tokenId in w.live
    && w.live[w.config.value.tokenId] == w.config.value.secret
  }

  /**
   No token is forgotten: a live token a rotation ever named is the configured one or one of
   the two on record, and the record has its own WAL entry until its unused token is gone.
   */
  predicate Covered(w: World) {
    && w.config.Some?
    && (w.pending.Some? ==>
          var p := w.pending.value;
          && (Configured(w, p.oldId) || Configured(w, p.newId))
          && (OwnWal(w, p) || Cleared(w, p)))
    && (forall t :: t in w.known && t in w.live ==>
          || Configured(w, t)
          || (w.pending.Some? && (t == w.pending.value.oldId || t == w.pending.value.newId)))
  }

  lemma WalsStep(w: World, e: Effect)
    requires Inv(w) && Allowed(w, e)
    ensures WalsInv(Apply(w, e))
  {
    hide Paired, Cleared, Privileged;
  }

  lemma PendingStep(w: World, e: Effect)
    requires Inv(w) && Allowed(w, e)
    ensures PendingInv(Apply(w, e))
  {
    hide Paired, Cleared, Privileged;
  }

  lemma InvStep(w: World, e: Effect)
    requires Inv(w) && Allowed(w, e)
    ensures Inv(Apply(w, e))
  {
    hide WalsInv, PendingInv, Allowed, Apply;
    WalsStep(w, e);
    PendingStep(w, e);
  }

  lemma NextWalUnused(w: World)
    requires Inv(w)
    ensures w.nextWal !in w.wals
  {
  }

  lemma WorksStep(w: World, e: Effect)
    requires Works(w) && Allowed(w, e) && !e.OperatorWrite?
    ensures Works(Apply(w, e))
  {
  }

  lemma CoveredStep(w: World, e: Effect)
    requires Inv(w) && Covered(w) && Allowed(w, e) && !e.OperatorWrite?
    ensures Covered(Apply(w, e))
  {
    hide Paired, Privileged, WalsInv;
  }

  lemma PendingSane(w: World)
    requires Inv(w) && w.pending.Some?
    ensures Sane(w, w.pending.value) && w.pending.value.walId > 0
    ensures w.pending.value.walId in w.wals ==> OwnWal(w, w.pending.value)
  {
  }

  /** An entry is the pending rotation's own, or names some other pair. */
  lemma OwnOrOther(w: World, id: nat)
    requires Inv(w) && id in w.wals && w.pending.Some?
    ensures id == w.pending.value.walId <==> SamePair(w.wals[id], w.pending.value)
  {
  }

  // ---- Over whole runs ----

  /** A crash anywhere leaves the end of a shorter run. */
  lemma {:induction false} CrashAnywhere(w: World, es: seq<Effect>, k: nat)
    requires Legal(w, es) && k <= |es|
    ensures Legal(w, es[..k])
    ensures k < |es| ==> Allowed(After(w, es[..k]), es[k])
  {
    if k == |es| {
      assert es[..k] == es;
    } else if k < |es| - 1 {
      CrashAnywhere(w, es[..|es| - 1], k);
      assert es[..|es| - 1][..k] == es[..k];
    }
  }

  /** A run continued from where another one ended. */
  lemma {:induction false} Resume(w: World, es: seq<Effect>, fs: seq<Effect>)
    requires Legal(w, es + fs)
    ensures Legal(After(w, es), fs) && After(w, es + fs) == After(After(w, es), fs)
  {
    if fs == [] {
      assert es + fs == es;
    } else {
      assert (es + fs)[..|es + fs| - 1] == es + fs[..|fs| - 1];
      Resume(w, es, fs[..|fs| - 1]);
    }
  }

  lemma {:induction false} InvAlways(w: World, es: seq<Effect>)
    requires Inv(w) && Legal(w, es)
    ensures Inv(After(w, es))
  {
    if es != [] {
      InvAlways(w, es[..|es| - 1]);
      InvStep(After(w, es[..|es| - 1]), es[|es| - 1]);
    }
  }

  /**
   Safety. No request ever names the token that is configured when it is sent, whatever
   operators write in between; and without operator writes a configured token that works
   works for ever.
   */
  lemma {:induction false} ConfiguredTokenSafe(w: World, es: seq<Effect>)
    requires Legal(w, es)
    ensures forall k :: 0 <= k < |es| && es[k].Delete? ==> !Configured(After(w, es[..k]), es[k].id)
    ensures forall k :: 0 <= k < |es| && !es[k].OperatorWrite? && Works(After(w, es[..k])) ==>
              Works(After(w, es[..k + 1]))
    ensures Works(w) && ByEngine(es) ==> Works(After(w, es))
  {
    forall k | 0 <= k < |es|
      ensures es[k].Delete? ==> !Configured(After(w, es[..k]), es[k].id)
      ensures !es[k].OperatorWrite? && Works(After(w, es[..k])) ==> Works(After(w, es[..k + 1]))
    {
      CrashAnywhere(w, es, k);
      assert es[..k + 1][..k] == es[..k];
      if !es[k].OperatorWrite? && Works(After(w, es[..k])) {
        WorksStep(After(w, es[..k]), es[k]);
      }
    }
    if es != [] && Works(w) && ByEngine(es) {
      var n := |es| - 1;
      ConfiguredTokenSafe(w, es[..n]);
      assert es[..n + 1] == es;
    }
  }

  /** Coverage. Without operator writes no token is ever forgotten. */
  lemma {:induction false} NoTokenForgotten(w: World, es: seq<Effect>)
    requires Inv(w) && Covered(w) && Legal(w, es) && ByEngine(es)
    ensures Covered(After(w, es))
  {
    if es != [] {
      var n := |es| - 1;
      NoTokenForgotten(w, es[..n]);
      InvAlways(w, es[..n]);
      CoveredStep(After(w, es[..n]), es[n]);
    }
  }

  /** Once nothing is pending the configured token is the only survivor of all rotations. */
  lemma OnlyConfiguredSurvives(w: World, es: seq<Effect>, t: string)
    requires Inv(w) && Covered(w) && Legal(w, es) && ByEngine(es)
    requires After(w, es).pending.None?
    requires t in After(w, es).known && t in After(w, es).live
    ensures Configured(After(w, es), t)
  {
    NoTokenForgotten(w, es);
  }

  lemma ThreeSteps(w: World, a: Effect, b: Effect, c: Effect)
    requires Allowed(w, a) && Allowed(Apply(w, a), b) && Allowed(Apply(Apply(w, a), b), c)
    ensures Legal(w, [a, b, c]) && After(w, [a, b, c]) == Apply(Apply(Apply(w, a), b), c)
  {
    hide Allowed, Apply;
    var es := [a, b, c];
    assert es[..2] == [a, b] && [a, b][..1] == [a] && [a][..0] == [];
    assert Legal(w, []) && After(w, []) == w;
    assert Legal(w, [a]) && After(w, [a]) == Apply(w, a);
    assert Legal(w, [a, b]) && After(w, [a, b]) == Apply(Apply(w, a), b);
  }

  /** The other one of the two recorded tokens. */
  function Other(p: Rotation, id: string): string {
    if id == p.oldId then p.newId else p.oldId
  }

  /** A recovery may choose between two recorded tokens of which neither is in use. */
  predicate Ambiguous(w: World, chosen: string, other: string) {
    && w.config.Some? && w.pending.Some? && OwnWal(w, w.pending.value)
    && (chosen == w.pending.value.oldId || chosen == w.pending.value.newId)
    && other == Other(w.pending.value, chosen)
    && !Configured(w, chosen) && !Configured(w, other) && other in w.live && other != chosen
  }

  lemma RecoverySteps(w: World, chosen: string, other: string)
    requires Inv(w) && Ambiguous(w, chosen, other)
    ensures var w1 := Apply(w, Delete(chosen, true));
            var w2 := Apply(w1, DropWal(w.pending.value.walId));
            && Allowed(w, Delete(chosen, true)) && Allowed(w1, DropWal(w.pending.value.walId)) && Allowed(w2, ClearState)
            && Apply(w2, ClearState).pending.None?
            && other in Apply(w2, ClearState).known && other in Apply(w2, ClearState).live
            && !Configured(Apply(w2, ClearState), other)
  {
    hide Paired, Privileged, WalsInv;
  }

  /**
   With an operator's write in between that is lost: the config works and names neither token,
   so guarded recovery deletes the chosen one and closes the books, and the other one is live,
   in no use and on no record.
   */
  lemma RecoveryForgetsOther(w: World, chosen: string, other: string) returns (es: seq<Effect>)
    requires Inv(w) && Works(w) && Ambiguous(w, chosen, other)
    ensures Legal(w, es) && ByEngine(es)
    ensures var v := After(w, es); v.pending.None? && other in v.known && other in v.live && !Configured(v, other)
  {
    hide Allowed, Apply, Legal, After, Inv, Configured, OwnWal;
    RecoverySteps(w, chosen, other);
    es := [Delete(chosen, true), DropWal(w.pending.value.walId), ClearState];
    ThreeSteps(w, Delete(chosen, true), DropWal(w.pending.value.walId), ClearState);
  }

  /**
   A WAL entry left behind by one rotation never matches a later one, and every entry ever
   written passes the well-formedness test of the rollback.
   */
  lemma StaleWalIsolated(w: World, es: seq<Effect>, wal: nat)
    requires Inv(w) && Legal(w, es) && wal in After(w, es).wals
    ensures var v := After(w, es);
            && Paired(v.wals[wal].oldId, v.wals[wal].newId)
            && (v.pending.Some? && v.pending.value.walId != wal ==> !SamePair(v.wals[wal], v.pending.value))
  {
    InvAlways(w, es);
  }
}
