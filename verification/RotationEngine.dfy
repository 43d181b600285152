/**
 The handlers that change the provisioner token, in the order of their effects, against a
 server and a storage that may fail at any call. All of them run under one lock, so nothing
 else moves the World meanwhile. The ghost trace records every effect; the handlers are
 proved to keep it a legal run of RotationProtocol, so all of its theorems hold of them.
 */
module RotationEngine {
  import opened Wrappers
  import opened Configuration
  import opened RotationProtocol
  import opened Answers
  import Permissions
  import Suffix
  import Text
  import TokenId
  import UserId

  datatype Reply = Rejected | Failed | Rotated(tokenId: string) | Recovered(tokenId: string)

  datatype Deletion = Deleted | TokenNotFound | DeletionFault

  datatype Write = Stored | Refused | WriteFailed

  function RotationToken(draw: seq<Suffix.Byte>): string
    requires |draw| == 5
  {
    "vault-rotation-" + Suffix.Encode(draw)
  }

  lemma RotationTokenIsPlain(draw: seq<Suffix.Byte>)
    requires |draw| == 5
    ensures |RotationToken(draw)| == 23 && '!' !in RotationToken(draw)
  {
    var suffix := Suffix.Encode(draw);
    UserId.SuffixIsPlain(suffix);
    assert '!' !in suffix && |suffix| == 8;
    hide *;
    assert '!' !in "vault-rotation-" && |"vault-rotation-"| == 15;
    assert '!' !in "vault-rotation-" + suffix;
    TokenIs(draw);
  }

  lemma TokenIs(draw: seq<Suffix.Byte>)
    requires |draw| == 5
    ensures RotationToken(draw) == "vault-rotation-" + Suffix.Encode(draw)
  {
  }

  /** The environment assumption about randomness: no id in sight already ends in the draw. */
  ghost predicate FreshDraw(w: World, draw: seq<Suffix.Byte>)
    requires |draw| == 5
  {
    forall id :: id in w.known || id in w.live || Configured(w, id) ==> !Text.EndsWith(id, "!" + RotationToken(draw))
  }

  function GrantedTo(trees: map<string, Permissions.Tree>, id: string): Permissions.Tree {
    var parts := TokenId.Split(id);
    if parts.Some? && parts.value.user in trees then trees[parts.value.user] else map[]
  }

  /** The token of p that the configuration does not name. */
  function Unused(w: World, p: Rotation): string {
    if Configured(w, p.oldId) then p.newId else p.oldId
  }

  /** The place of an effect in a rotation; a validation failure ends one. */
  function Rank(e: Effect): nat {
    match e
    case PutWal(_) => 0
    case PutState(state) =>
      if state.phase == Provisioning then 1 else if state.phase == DeletingOld then 4 else 8
    case Mint(_, _, _) => 2
    case Switch(_, _) => 3
    case Delete(_, _) => 5
    case DropWal(_) => 6
    case ClearState => 7
    case OperatorWrite(_) => 9
  }

  /** Engine effects in the order of a rotation, none of them twice, from rank lo to rank hi. */
  predicate InOrder(es: seq<Effect>, lo: nat, hi: nat) {
    && ByEngine(es)
    && (forall k :: 0 <= k < |es| ==> lo <= Rank(es[k]) <= hi)
    && (forall i, j :: 0 <= i < j < |es| ==> Rank(es[i]) < Rank(es[j]))
  }

  lemma InOrderChain(a: seq<Effect>, b: seq<Effect>, lo: nat, mid: nat, hi: nat)
    requires InOrder(a, lo, mid) && InOrder(b, mid + 1, hi) && lo <= mid <= hi
    ensures InOrder(a + b, lo, hi)
  {
  }

  lemma InOrderWiden(es: seq<Effect>, lo: nat, hi: nat, wider: nat)
    requires InOrder(es, lo, hi) && hi <= wider
    ensures InOrder(es, lo, wider)
  {
  }

  class Engine {
    var w: World
    var cache: Option<Config>                     // the cached client, by what it was built from
    var calm: bool                                // no call fails while this holds
    var plain: bool                               // no list of tokens is answered with "no such token"
    var versioned: bool                           // the server answers GET /version
    var trees: map<string, Permissions.Tree>      // what the server grants each user
    var roles: map<string, string>                // stored roles and their realms
    var roleNames: seq<string>                    // what listing the roles returns
    ghost const start: World
    ghost var trace: seq<Effect>

    ghost predicate Logged()
      reads this
    {
      Inv(start) && Legal(start, trace) && w == After(start, trace) && Inv(w)
    }

    ghost predicate Valid()
      reads this
    {
      && Logged()
      && (cache.Some? ==> w.config == cache) && (calm ==> versioned)
      && w.realms == roles.Values
      && forall name :: name in roles ==> name in roleNames
    }

    /** Credentials the server accepts. */
    predicate Authentic(c: Config)
      reads `w
    {
      c.tokenId in w.live && w.live[c.tokenId] == c.secret
    }

    /** A token inherits what its user is granted. */
    function TreeOf(id: string): Permissions.Tree
      reads `trees
    {
      GrantedTo(trees, id)
    }

    constructor (config: Option<Config>, live: map<string, string>, trees: map<string, Permissions.Tree>,
                 roles: map<string, string>, roleNames: seq<string>)
      requires forall name :: name in roles ==> name in roleNames
      ensures Valid() && !calm && cache == None && trace == []
      ensures w.config == config && w.live == live && w.pending.None? && w.wals == map[]
      ensures config.Some? ==> Covered(w)
    {
      var first := World(config, None, map[], 1, live, {}, roles.Values);
      this.w, this.cache, this.calm, this.start, this.trace := first, None, false, first, [];
      plain, versioned := false, *;
      this.trees, this.roles, this.roleNames := trees, roles, roleNames;
    }

    /** The process that starts after a crash: k effects of the run es had happened. */
    constructor AfterCrash(first: World, es: seq<Effect>, k: nat, calm: bool, trees: map<string, Permissions.Tree>,
                           roles: map<string, string>, roleNames: seq<string>)
      requires Inv(first) && Legal(first, es) && k <= |es|
      requires After(first, es[..k]).realms == roles.Values
      requires forall name :: name in roles ==> name in roleNames
      ensures Valid() && this.calm == calm && plain && versioned && cache == None && w == After(first, es[..k])
      ensures this.trees == trees && start == first && trace == es[..k]
      ensures ByEngine(es) && Works(first) && Covered(first) ==> Works(w) && Covered(w)
    {
      CrashAnywhere(first, es, k);
      InvAlways(first, es[..k]);
      if ByEngine(es) && Works(first) && Covered(first) {
        ConfiguredTokenSafe(first, es[..k]);
        NoTokenForgotten(first, es[..k]);
      }
      this.w, this.cache, this.calm, this.start, this.trace := After(first, es[..k]), None, calm, first, es[..k];
      plain, versioned := true, true;
      this.trees, this.roles, this.roleNames := trees, roles, roleNames;
    }

    // ---- Storage and server calls ----

    method Perform(e: Effect)
      requires Logged() && Allowed(w, e)
      modifies `w, `trace
      ensures Logged() && w == Apply(old(w), e) && trace == old(trace) + [e]
    {
      InvStep(w, e);
      w := Apply(w, e);
      trace := trace + [e];
      assert trace[..|trace| - 1] == old(trace);
    }

    /** Whether the next call fails. */
    method Fault() returns (failed: bool)
      ensures calm ==> !failed
    {
      failed := *;
      failed := failed && !calm;
    }

    method PutWalEntry(entry: Rotation) returns (id: Option<nat>)
      requires Logged() && Allowed(w, PutWal(entry))
      modifies `w, `trace
      ensures Logged()
      ensures id.None? ==> w == old(w) && trace == old(trace)
      ensures id.Some? ==> id.value == old(w.nextWal) && w == Apply(old(w), PutWal(entry)) && trace == old(trace) + [PutWal(entry)]
      ensures calm ==> id.Some?
    {
      var failed := Fault();
      if failed {
        return None;
      }
      id := Some(w.nextWal);
      Perform(PutWal(entry));
    }

    /** A storage write or delete: it fails without effect or does exactly e. */
    method Store(e: Effect) returns (ok: bool)
      requires Logged() && Allowed(w, e)
      requires e.PutState? || e.Switch? || e.DropWal? || e.ClearState? || e.OperatorWrite?
      modifies `w, `trace
      ensures Logged()
      ensures !ok ==> w == old(w) && trace == old(trace)
      ensures ok ==> w == Apply(old(w), e) && trace == old(trace) + [e]
      ensures calm ==> ok
    {
      var failed := Fault();
      if failed {
        return false;
      }
      Perform(e);
      return true;
    }

    /** framework.DeleteWAL: deleting an absent entry succeeds. */
    method DeleteWal(id: nat) returns (ok: bool)
      requires Logged() && (id in w.wals ==> Allowed(w, DropWal(id)))
      modifies `w, `trace
      ensures Logged()
      ensures !ok ==> w == old(w) && trace == old(trace)
      ensures ok && id in old(w.wals) ==> w == Apply(old(w), DropWal(id)) && trace == old(trace) + [DropWal(id)]
      ensures ok && id !in old(w.wals) ==> w == old(w) && trace == old(trace)
      ensures calm ==> ok
    {
      if id in w.wals {
        ok := Store(DropWal(id));
      } else {
        var failed := Fault();
        ok := !failed;
      }
    }

    /** A list of the user's tokens: false credentials never get an answer, an answer is true. */
    method TokenExists(c: Config, user: string, token: string) returns (r: Exists)
      ensures r.Yes? ==> TokenId.Join(user, token) in w.live
      ensures r.No? || r.UserGone? || r.NoSuchToken? ==> TokenId.Join(user, token) !in w.live
      ensures !Authentic(c) ==> r.ExistsFault?
      ensures calm && Authentic(c) ==> !r.ExistsFault?
      ensures plain && calm && Authentic(c) ==> !r.NoSuchToken?
    {
      if !Authentic(c) {
        return ExistsFault;
      }
      r := Listed(token, TokenId.Join(user, token) in w.live, calm, plain);
    }

    /** The token may exist although the call reports an error. */
    method CreateToken(c: Config, user: string, token: string) returns (secret: Option<string>)
      requires Logged() && Allowed(w, Mint(TokenId.Join(user, token), "", false))
      modifies `w, `trace
      ensures Logged()
      ensures exists s, applied {:trigger Mint(TokenId.Join(user, token), s, applied)} ::
                && Allowed(old(w), Mint(TokenId.Join(user, token), s, applied))
                && w == Apply(old(w), Mint(TokenId.Join(user, token), s, applied))
                && trace == old(trace) + [Mint(TokenId.Join(user, token), s, applied)]
      ensures secret.Some? ==> TokenId.Join(user, token) in w.live && w.live[TokenId.Join(user, token)] == secret.value
      ensures calm && old(Authentic(c)) && TokenId.Join(user, token) !in old(w.live) ==> secret.Some?
    {
      hide Legal, After, Inv, TokenId.Split, Cleared, Privileged;
      var id := TokenId.Join(user, token);
      var value: string := *;
      var refused: bool := *;
      var lost := Fault();
      if value == "" {
        value := "secret";
      }
      if id in w.live || !Authentic(c) || (refused && !calm) {
        Perform(Mint(id, value, false));
        return None;
      }
      Perform(Mint(id, value, true));
      return if lost then None else Some(value);
    }

    /** Only a later TokenExists tells whether the token is gone, whatever this reports. */
    method DeleteToken(c: Config, user: string, token: string) returns (r: Deletion)
      requires Logged() && Allowed(w, Delete(TokenId.Join(user, token), true))
      modifies `w, `trace
      ensures Logged()
      ensures exists applied {:trigger Delete(TokenId.Join(user, token), applied)} ::
                && w == Apply(old(w), Delete(TokenId.Join(user, token), applied))
                && trace == old(trace) + [Delete(TokenId.Join(user, token), applied)]
      ensures calm && old(Authentic(c)) ==> !r.DeletionFault? && TokenId.Join(user, token) !in w.live
    {
      var ignored: bool := *;
      var report: Deletion := *;
      if !Authentic(c) || (ignored && !calm) {
        Perform(Delete(TokenId.Join(user, token), false));
      } else {
        Perform(Delete(TokenId.Join(user, token), true));
      }
      return if calm && report.DeletionFault? then Deleted else report;
    }

    method GetVersion(c: Config) returns (ok: bool)
      ensures ok ==> Authentic(c) && versioned
      ensures calm && Authentic(c) && versioned ==> ok
    {
      var failed := Fault();
      return !failed && Authentic(c) && versioned;
    }

    method GetPermissions(c: Config) returns (tree: Option<Permissions.Tree>)
      ensures tree.Some? ==> Authentic(c) && tree.value == TreeOf(c.tokenId)
      ensures calm && Authentic(c) ==> tree.Some?
    {
      var failed := Fault();
      return if failed || !Authentic(c) then None else Some(TreeOf(c.tokenId));
    }

    /** getClient: the cached client, or one built from the stored config. */
    method GetClient() returns (client: Option<Config>)
      requires Valid()
      modifies `cache
      ensures Valid()
      ensures client.Some? ==> w.config == client && cache == client
      ensures calm ==> client == w.config
    {
      if cache.Some? {
        return cache;
      }
      var failed := Fault();
      if failed || w.config.None? {
        return None;
      }
      cache := w.config;
      return cache;
    }

    /** invalidate. */
    method Invalidate()
      modifies `cache
      ensures cache == None
    {
      cache := None;
    }

    /** A process restart: memory is lost, the World is not. */
    method Restart()
      requires Valid()
      modifies `cache
      ensures Valid() && cache == None
    {
      cache := None;
    }

    // ---- rotate-root ----

    /** The role part of validateReplacement: every stored role's realm is allocatable. */
    method RolesAllocatable(tree: Permissions.Tree) returns (ok: bool)
      requires w.realms == roles.Values
      requires forall name :: name in roles ==> name in roleNames
      ensures ok ==> Allocatable(tree, w.realms)
      ensures calm && Allocatable(tree, w.realms) ==> ok
    {
      hide Permissions.Effective;
      var failed := Fault();
      if failed {
        return false;
      }
      for i := 0 to |roleNames|
        invariant forall k :: 0 <= k < i && roleNames[k] in roles ==>
                    Permissions.Effective(tree, "/access/realm/" + roles[roleNames[k]], "Realm.AllocateUser")
      {
        failed := Fault();
        if failed {
          return false;
        }
        if roleNames[i] in roles {
          var realm := roles[roleNames[i]];
          assert realm in w.realms;
          var allocate := Permissions.HasPrivilege(tree, "/access/realm/" + realm, "Realm.AllocateUser");
          if !allocate {
            return false;
          }
        }
      }
      forall realm | realm in w.realms
        ensures Permissions.Effective(tree, "/access/realm/" + realm, "Realm.AllocateUser")
      {
        var name :| name in roles && roles[name] == realm;
        var k :| 0 <= k < |roleNames| && roleNames[k] == name;
      }
      return true;
    }

    /** validateReplacement: everything the replacement needs, asked with its own credentials. */
    method ValidateReplacement(c: Config, oldId: string) returns (ok: bool)
      requires w.realms == roles.Values
      requires forall name :: name in roles ==> name in roleNames
      ensures ok ==> TokenId.Split(oldId).Some? && oldId in w.live && Authentic(c) && versioned && Privileged(TreeOf(c.tokenId), w.realms)
      ensures calm && versioned && TokenId.Split(oldId).Some? && oldId in w.live && Authentic(c) && Privileged(TreeOf(c.tokenId), w.realms) ==> ok
    {
      hide Permissions.Effective, Legal, After, Inv, TokenId.Split;
      var reachable := GetVersion(c);
      var parts := TokenId.Split(oldId);
      if !reachable || parts.None? {
        return false;
      }
      var listed := TokenExists(c, parts.value.user, parts.value.token);
      if !listed.Yes? {
        return false;
      }
      var tree := GetPermissions(c);
      if tree.None? {
        return false;
      }
      var canModify := Permissions.HasPrivilege(tree.value, "/access/groups", "User.Modify");
      var canAudit := Permissions.HasPrivilege(tree.value, "/access/groups", "Sys.Audit");
      if !canModify || !canAudit {
        return false;
      }
      ok := RolesAllocatable(tree.value);
    }

    /** What a rotation needs of the world to be accepted and to succeed. */
    ghost predicate Ready(expected: string)
      reads this
    {
      && w.config.Some? && w.config.value.tokenId == expected && w.pending.None?
      && TokenId.Split(expected).Some? && Works(w) && Privileged(TreeOf(expected), w.realms)
    }

    lemma SameUserSameTree(oldId: string, user: string, token: string)
      requires TokenId.Split(oldId).Some? && TokenId.Split(oldId).value.user == user
      requires TokenId.WellFormed(TokenId.Parts(user, token))
      ensures TreeOf(TokenId.Join(user, token)) == TreeOf(oldId)
      ensures Paired(oldId, TokenId.Join(user, token))
    {
      TokenId.SplitInvertsJoin(user, token);
    }

    lemma DrawIsFresh(user: string, draw: seq<Suffix.Byte>)
      requires |draw| == 5 && FreshDraw(w, draw)
      ensures var id := TokenId.Join(user, RotationToken(draw));
              id !in w.known && id !in w.live && !Configured(w, id)
      ensures '!' !in RotationToken(draw)
    {
      var id := TokenId.Join(user, RotationToken(draw));
      assert id[|id| - |"!" + RotationToken(draw)|..] == "!" + RotationToken(draw);
      RotationTokenIsPlain(draw);
    }

    /** The recovery records: the WAL entry first, then the rotation entry that names it. */
    method Record(newId: string, now: int) returns (state: Option<Rotation>, ghost steps: seq<Effect>)
      requires Valid() && w.config.Some? && w.pending.None?
      requires Allowed(w, PutWal(Rotation(w.config.value.tokenId, newId, Provisioning, 0, now)))
      modifies `w, `trace
      ensures Valid() && trace == old(trace) + steps && InOrder(steps, 0, 1)
      ensures w.config == old(w.config) && w.live == old(w.live)
      ensures state.Some? ==> |steps| == 2 && w.pending == state && OwnWal(w, state.value)
      ensures state.Some? ==> state.value == Rotation(w.config.value.tokenId, newId, Provisioning, old(w.nextWal), now)
      ensures state.Some? ==> w.wals - {state.value.walId} == old(w.wals)
      ensures calm ==> state.Some?
    {
      hide Permissions.Effective, Legal, After, Inv, TokenId.Split;
      steps := [];
      NextWalUnused(w);
      var entry := Rotation(w.config.value.tokenId, newId, Provisioning, 0, now);
      var walId := PutWalEntry(entry);
      if walId.None? {
        return None, steps;
      }
      steps := [PutWal(entry)];
      var record := entry.(walId := walId.value);
      var ok := Store(PutState(record));
      if !ok {
        return None, steps;
      }
      steps := steps + [PutState(record)];
      assert w.wals == old(w.wals)[record.walId := entry];
      return Some(record), steps;
    }

    /** Records that the rotation needs recovery; the caller fails whether or not this works. */
    method MarkFailed(state: Rotation) returns (ghost steps: seq<Effect>)
      requires Valid() && w.pending == Some(state) && OwnWal(w, state) && Configured(w, state.oldId)
      modifies `w, `trace
      ensures Valid() && trace == old(trace) + steps
      ensures w.config == old(w.config) && w.wals == old(w.wals)
      ensures steps == [] || steps == [PutState(state.(phase := ValidationFailed))]
      ensures calm ==> w.pending == Some(state.(phase := ValidationFailed))
    {
      hide Permissions.Effective, Legal, After, Inv, TokenId.Split;
      var failure := state.(phase := ValidationFailed);
      var ok := Store(PutState(failure));
      steps := if ok then [PutState(failure)] else [];
    }

    /** From the recorded intent to a replacement that exists and was validated. */
    method Replace(cfg: Config, state: Rotation, user: string, oldToken: string, newToken: string)
      returns (replacement: Option<Config>, ghost steps: seq<Effect>)
      requires Valid() && w.config == Some(cfg) && w.pending == Some(state) && OwnWal(w, state)
      requires state.oldId == cfg.tokenId == TokenId.Join(user, oldToken) && TokenId.Split(cfg.tokenId).Some?
      requires state.newId == TokenId.Join(user, newToken) && Dead(w, state.newId)
      modifies `w, `cache, `trace
      ensures Valid() && trace == old(trace) + steps && InOrder(steps, 2, 8)
      ensures w.config == old(w.config) && w.wals == old(w.wals)
      ensures replacement.Some? ==> |steps| == 1 && InOrder(steps, 2, 2)
      ensures replacement.Some? ==> w.pending == old(w.pending) && !Dead(w, state.oldId) && state.newId in w.live
      ensures replacement.Some? ==> replacement.value == cfg.(tokenId := state.newId, secret := w.live[state.newId])
      ensures replacement.Some? ==> Privileged(TreeOf(state.newId), w.realms) && versioned
      ensures calm && old(Works(w)) && Privileged(TreeOf(state.newId), w.realms) ==> replacement.Some?
      ensures calm && replacement.None? ==> w.pending == Some(state.(phase := ValidationFailed))
    {
      hide Permissions.Effective, Legal, After, Inv, TokenId.Split;
      steps := [];
      var oldClient := GetClient();
      if oldClient.None? {
        return None, steps;
      }
      var present := TokenExists(oldClient.value, user, oldToken);
      if !present.Yes? {
        steps := MarkFailed(state);
        return None, steps;
      }
      var secret := CreateToken(oldClient.value, user, newToken);
      steps := [trace[|trace| - 1]];
      if secret.None? {
        return None, steps;
      }
      var newCfg := cfg.(tokenId := state.newId, secret := secret.value);
      var failed := Fault();
      if failed {
        return None, steps;
      }
      var fit := ValidateReplacement(newCfg, cfg.tokenId);
      if !fit {
        ghost var mark := MarkFailed(state);
        steps := steps + mark;
        return None, steps;
      }
      return Some(newCfg), steps;
    }

    /** The configuration switch, then the phase that says the old token is to go. */
    method Install(newCfg: Config, state: Rotation) returns (ok: bool, ghost steps: seq<Effect>)
      requires Valid() && w.pending == Some(state) && OwnWal(w, state) && state.newId in w.live
      requires w.config.Some? && Configured(w, state.oldId) && !Dead(w, state.oldId)
      requires newCfg == w.config.value.(tokenId := state.newId, secret := w.live[state.newId])
      requires Privileged(TreeOf(state.newId), w.realms)
      modifies `w, `cache, `trace
      ensures Valid() && trace == old(trace) + steps && InOrder(steps, 3, 4)
      ensures w.live == old(w.live) && w.wals == old(w.wals)
      ensures ok ==> |steps| == 2 && w.config == Some(newCfg) && w.pending == Some(state.(phase := DeletingOld))
      ensures calm ==> ok
    {
      hide Permissions.Effective, Legal, After, Inv, TokenId.Split;
      steps := [];
      ok := Store(Switch(newCfg, TreeOf(state.newId)));
      if !ok {
        return false, steps;
      }
      steps := steps + [Switch(newCfg, TreeOf(state.newId))];
      Invalidate();
      var deleting := state.(phase := DeletingOld);
      ok := Store(PutState(deleting));
      if !ok {
        return false, steps;
      }
      steps := steps + [PutState(deleting)];
      return true, steps;
    }

    /** Deletes the old token with the new credentials, makes sure of it, and closes the books. */
    method Retire(newCfg: Config, state: Rotation, user: string, oldToken: string)
      returns (done: bool, ghost steps: seq<Effect>, ghost answer: Exists)
      requires Valid() && w.pending == Some(state) && w.config == Some(newCfg) && Works(w)
      requires newCfg.tokenId == state.newId != state.oldId && OwnWal(w, state)
      requires state.oldId == TokenId.Join(user, oldToken)
      modifies `w, `trace
      ensures Valid() && trace == old(trace) + steps && InOrder(steps, 5, 7)
      ensures w.config == old(w.config) && Works(w)
      ensures done ==> |steps| == 3 && w.pending.None? && Dead(w, state.oldId) && w.wals == old(w.wals) - {state.walId}
      ensures done ==> answer.No? || answer.UserGone?
      ensures calm && plain ==> done
    {
      hide Permissions.Effective, Legal, After, Inv, TokenId.Split;
      steps := [];
      var deletion := DeleteToken(newCfg, user, oldToken);
      steps := [trace[|trace| - 1]];
      if deletion.DeletionFault? {
        return false, steps, ExistsFault;
      }
      var present := TokenExists(newCfg, user, oldToken);
      answer := present;
      if !present.UserGone? && !present.No? {
        return false, steps, answer;
      }
      var ok, closed := CloseBooks(state);
      steps := steps + closed;
      return ok, steps, answer;
    }

    /** The WAL entry goes first and the record last, so the record always shows what is open. */
    method CloseBooks(state: Rotation) returns (ok: bool, ghost steps: seq<Effect>)
      requires Valid() && w.pending == Some(state) && Cleared(w, state)
      modifies `w, `trace
      ensures Valid() && trace == old(trace) + steps && InOrder(steps, 6, 7)
      ensures w.config == old(w.config) && w.live == old(w.live) && w.known == old(w.known)
      ensures ok ==> w.pending.None? && w.wals == old(w.wals) - {state.walId}
      ensures ok && old(OwnWal(w, state)) ==> |steps| == 2
      ensures calm ==> ok
    {
      hide Permissions.Effective, Legal, After, Inv, TokenId.Split;
      steps := [];
      ok := DeleteWal(state.walId);
      if !ok {
        return false, steps;
      }
      steps := if state.walId in old(w.wals) then [DropWal(state.walId)] else [];
      ok := Store(ClearState);
      if !ok {
        return false, steps;
      }
      steps := steps + [ClearState];
      return true, steps;
    }

    /** The effects of a rotation that was accepted. */
    method Proceed(cfg: Config, newId: string, user: string, oldToken: string, newToken: string, now: int)
      returns (done: bool, ghost steps: seq<Effect>)
      requires Valid() && w.config == Some(cfg) && w.pending.None?
      requires Allowed(w, PutWal(Rotation(cfg.tokenId, newId, Provisioning, 0, now)))
      requires cfg.tokenId == TokenId.Join(user, oldToken) && newId == TokenId.Join(user, newToken)
      modifies `w, `cache, `trace
      ensures Valid() && trace == old(trace) + steps && InOrder(steps, 0, 8)
      ensures done ==> |steps| == 8 && Works(w) && w.pending.None? && Dead(w, cfg.tokenId) && w.wals == old(w.wals)
      ensures done ==> w.config.value == cfg.(tokenId := newId, secret := w.config.value.secret)
      ensures done ==> Privileged(TreeOf(newId), w.realms) && versioned
      ensures calm && plain && old(Works(w)) && Privileged(TreeOf(newId), w.realms) ==> done
    {
      hide Permissions.Effective, Legal, After, Inv, TokenId.Split;
      hide InOrder, Privileged;
      var state, recorded := Record(newId, now);
      steps := recorded;
      if state.None? {
        InOrderWiden(steps, 0, 1, 8);
        return false, steps;
      }
      var newCfg, replaced := Replace(cfg, state.value, user, oldToken, newToken);
      steps := recorded + replaced;
      InOrderChain(recorded, replaced, 0, 1, 8);
      if newCfg.None? {
        return false, steps;
      }
      InOrderChain(recorded, replaced, 0, 1, 2);
      var installed, switched := Install(newCfg.value, state.value);
      InOrderChain(steps, switched, 0, 2, 4);
      steps := steps + switched;
      if !installed {
        InOrderWiden(steps, 0, 4, 8);
        return false, steps;
      }
      var retired, closed, answer := Retire(newCfg.value, state.value.(phase := DeletingOld), user, oldToken);
      InOrderChain(steps, closed, 0, 4, 7);
      steps := steps + closed;
      InOrderWiden(steps, 0, 7, 8);
      return retired, steps;
    }

    /**
     rotateRoot without a recovery token. On success the new token is the configured one, its
     secret is the stored one, the old token is gone and the books are closed.
     */
    method Rotate(expected: string, draw: Option<seq<Suffix.Byte>>, now: int)
      returns (r: Reply, ghost steps: seq<Effect>)
      requires Valid()
      requires draw.Some? ==> |draw.value| == 5 && FreshDraw(w, draw.value)
      modifies `w, `cache, `trace
      ensures Valid() && trace == old(trace) + steps && InOrder(steps, 0, 8)
      ensures r.Rejected? ==> w == old(w)
      ensures r.Rejected? || r.Failed? || r.Rotated?
      ensures old(w.pending).Some? || !old(Configured(w, expected)) ==> !r.Rotated? && w == old(w) && (calm ==> r.Rejected?)
      ensures r.Rotated? ==>
                && old(w.config).Some? && expected == old(w.config).value.tokenId && old(w.pending).None?
                && TokenId.Split(expected).Some? && draw.Some?
                && r.tokenId == TokenId.Join(TokenId.Split(expected).value.user, RotationToken(draw.value))
                && Works(w) && w.config.value == old(w.config).value.(tokenId := r.tokenId, secret := w.config.value.secret)
                && Dead(w, expected) && w.pending.None? && w.wals == old(w.wals)
                && Privileged(TreeOf(r.tokenId), w.realms) && |steps| == 8 && versioned
      ensures r.Rotated? ==>
                && Permissions.Effective(TreeOf(r.tokenId), "/access/groups", "User.Modify")
                && Permissions.Effective(TreeOf(r.tokenId), "/access/groups", "Sys.Audit")
                && forall name :: name in roles ==>
                     Permissions.Effective(TreeOf(r.tokenId), "/access/realm/" + roles[name], "Realm.AllocateUser")
      ensures calm && plain && draw.Some? && old(Ready(expected)) ==> r.Rotated?
    {
      hide Permissions.Effective, Legal, After, Inv, TokenId.Split;
      steps := [];
      var failed := Fault();
      if failed {
        return Failed, steps;
      }
      if w.config.None? || expected != w.config.value.tokenId {
        return Rejected, steps;
      }
      var cfg := w.config.value;
      failed := Fault();
      if failed {
        return Failed, steps;
      }
      if w.pending.Some? {
        return Rejected, steps;
      }
      var parts := TokenId.Split(cfg.tokenId);
      if parts.None? {
        return Rejected, steps;
      }
      if draw.None? {
        return Failed, steps;
      }
      var suffix := Suffix.Pack(draw.value);
      var rotationToken := "vault-rotation-" + suffix;
      var newId := TokenId.Join(parts.value.user, rotationToken);
      DrawIsFresh(parts.value.user, draw.value);
      SameUserSameTree(cfg.tokenId, parts.value.user, rotationToken);
      var done, taken := Proceed(cfg, newId, parts.value.user, parts.value.token, rotationToken, now);
      steps := taken;
      return if done then Rotated(newId) else Failed, steps;
    }

    /** What a run of the engine keeps, for the handlers that report it. */
    lemma Kept(before: World, t: seq<Effect>, steps: seq<Effect>)
      requires Valid() && trace == t + steps && Legal(start, t) && before == After(start, t) && ByEngine(steps)
      ensures Works(before) ==> Works(w)
      ensures Covered(before) ==> Covered(w)
    {
      Resume(start, t, steps);
      InvAlways(start, t);
      ConfiguredTokenSafe(before, steps);
      if Covered(before) {
        NoTokenForgotten(before, steps);
      }
    }

    // ---- Recovery ----

    /** Deletes a token and looks whether it is gone; an absent token needs no delete. The last look is the answer. */
    method RemoveToken(c: Config, user: string, token: string) returns (r: Exists, ghost steps: seq<Effect>)
      requires Valid() && w.config == Some(c) && Allowed(w, Delete(TokenId.Join(user, token), true))
      modifies `w, `trace
      ensures Valid() && trace == old(trace) + steps && ByEngine(steps)
      ensures w == old(w) || w == Apply(old(w), Delete(TokenId.Join(user, token), true))
      ensures r.No? || r.UserGone? || r.NoSuchToken? ==> Dead(w, TokenId.Join(user, token))
      ensures !old(Authentic(c)) ==> r.ExistsFault? && w == old(w)
      ensures calm && old(Works(w)) ==> r.No? || r.UserGone? || (r.NoSuchToken? && !plain)
    {
      hide Permissions.Effective, Legal, After, Inv, TokenId.Split;
      steps := [];
      r := TokenExists(c, user, token);
      if !r.Yes? {
        return r, steps;
      }
      var deletion := DeleteToken(c, user, token);
      steps := [trace[|trace| - 1]];
      if deletion.DeletionFault? {
        return ExistsFault, steps;
      }
      r := TokenExists(c, user, token);
    }

    /** dropMalformedRotationWAL: clears the state only when it is the malformed entry's own. */
    method DropMalformed(entry: Rotation) returns (ok: bool, ghost steps: seq<Effect>)
      requires Valid() && !Paired(entry.oldId, entry.newId)
      modifies `w, `trace
      ensures Valid() && trace == old(trace) + steps && ByEngine(steps)
      ensures w == old(w) || (old(w.pending).Some? && SamePair(old(w.pending).value, entry))
      ensures old(w.pending).Some? && !SamePair(old(w.pending).value, entry) ==> !ok
      ensures ok ==> w.pending.None?
      ensures calm && old(w.pending).None? ==> ok
    {
      hide Permissions.Effective, Legal, After, Inv, TokenId.Split;
      steps := [];
      var failed := Fault();
      if failed {
        return false, steps;
      }
      if w.pending.None? {
        return true, steps;
      }
      if !SamePair(w.pending.value, entry) {
        return false, steps;
      }
      ok := Store(ClearState);
      steps := if ok then [ClearState] else [];
    }

    /** The pending rotation is entry's, and the token in use is one of its two and works. */
    predicate Recoverable(entry: Rotation)
      reads `w
    {
      && w.pending.Some? && SamePair(w.pending.value, entry) && Works(w)
      && (Configured(w, entry.oldId) || Configured(w, entry.newId))
    }

    /** The unused token of the pending rotation goes, and then its record. */
    method SettlePending(entry: Rotation, client: Config, o: TokenId.Parts, n: TokenId.Parts)
      returns (ok: bool, ghost steps: seq<Effect>)
      requires Valid() && w.config == Some(client) && w.pending.Some? && SamePair(w.pending.value, entry)
      requires entry.oldId == TokenId.Join(o.user, o.token) && entry.newId == TokenId.Join(n.user, n.token)
      requires o.user == n.user && entry.oldId != entry.newId
      modifies `w, `trace
      ensures Valid() && trace == old(trace) + steps && ByEngine(steps)
      ensures w.config == old(w.config) && w.wals == old(w.wals) && w.known == old(w.known)
      ensures w.live == old(w.live) || w.live == old(w.live) - {Unused(old(w), entry)}
      ensures ok ==> w.pending.None? && Dead(w, Unused(w, entry))
      ensures !Configured(w, entry.oldId) && !Configured(w, entry.newId) ==> !ok && w == old(w)
      ensures calm && old(Recoverable(entry)) ==> ok
    {
      hide Permissions.Effective, Legal, After, Inv, TokenId.Split;
      steps := [];
      var removal;
      if client.tokenId == entry.oldId {
        removal, steps := RemoveToken(client, o.user, n.token);
      } else if client.tokenId == entry.newId {
        removal, steps := RemoveToken(client, o.user, o.token);
      } else {
        return false, steps;
      }
      if removal.Yes? || removal.ExistsFault? {
        return false, steps;
      }
      ok := Store(ClearState);
      steps := if ok then steps + [ClearState] else steps;
    }

    /**
     walRollbackRotation, on any payload whatever. It touches the world only for the pending
     rotation itself, deletes at most that rotation's unused token, and reports success only
     with that token gone and nothing pending. "No such token" is as good as a list without it,
     so plain answers are not needed for success.
     */
    method WalRollback(entry: Rotation) returns (ok: bool, ghost steps: seq<Effect>)
      requires Valid()
      modifies `w, `cache, `trace
      ensures Valid() && trace == old(trace) + steps && ByEngine(steps)
      ensures w.config == old(w.config) && w.wals == old(w.wals) && w.known == old(w.known)
      ensures old(w.pending).None? || !SamePair(old(w.pending).value, entry) ==> w == old(w)
      ensures old(w.pending).Some? && !SamePair(old(w.pending).value, entry) ==> !ok
      ensures ok ==> w.pending.None?
      ensures ok && old(w.pending).Some? ==> Dead(w, Unused(w, old(w.pending).value))
      ensures old(w.pending).Some? && !Configured(w, old(w.pending).value.oldId) && !Configured(w, old(w.pending).value.newId) ==>
                !ok && w == old(w)
      ensures w.live == old(w.live) ||
              (old(w.pending).Some? && w.live == old(w.live) - {Unused(old(w), old(w.pending).value)})
      ensures calm && old(w.pending).None? ==> ok
      ensures calm && old(Recoverable(entry)) ==> ok
    {
      hide Permissions.Effective, Legal, After, Inv;
      steps := [];
      var o, n := TokenId.Split(entry.oldId), TokenId.Split(entry.newId);
      if o.None? || n.None? || o.value.user != n.value.user {
        if w.pending.Some? {
          PendingSane(w);
        }
        ok, steps := DropMalformed(entry);
        return ok, steps;
      }
      var failed := Fault();
      if failed {
        return false, steps;
      }
      if w.pending.None? {
        return true, steps;
      }
      if !SamePair(w.pending.value, entry) {
        return false, steps;
      }
      failed := Fault();
      if failed || w.config.None? {
        return false, steps;
      }
      var client := GetClient();
      if client.None? {
        return false, steps;
      }
      PendingSane(w);
      ok, steps := SettlePending(entry, client.value, o.value, n.value);
      return ok, steps;
    }

    lemma CoveredIsRecoverable(id: nat)
      requires Works(w) && Covered(w) && w.pending.Some? && id in w.wals && SamePair(w.wals[id], w.pending.value)
      ensures Recoverable(w.wals[id])
    {
    }

    /** The framework's sweep of one entry: the entry goes exactly when the rollback succeeds. */
    method Sweep(id: nat) returns (dropped: bool, ghost steps: seq<Effect>)
      requires Valid() && id in w.wals
      modifies `w, `cache, `trace
      ensures Valid() && trace == old(trace) + steps && ByEngine(steps)
      ensures dropped ==> w.pending.None? && w.wals == old(w.wals) - {id}
      ensures !dropped ==> w.wals == old(w.wals)
      ensures old(w.pending).Some? && old(w.pending).value.walId != id ==> !dropped && w == old(w)
      ensures dropped && old(w.pending).Some? ==> Dead(w, Unused(w, old(w.pending).value))
      ensures w.config == old(w.config) && w.known == old(w.known) && w.live.Keys <= old(w.live).Keys
      ensures calm && old(w.pending).None? ==> dropped
      ensures calm && old(w.pending).Some? && old(w.pending).value.walId == id && old(Works(w)) && old(Covered(w)) ==> dropped
    {
      hide Permissions.Effective, Legal, After, Inv, TokenId.Split, Works, Covered, Sane, Cleared;
      if w.pending.Some? {
        OwnOrOther(w, id);
        if Works(w) && Covered(w) && id == w.pending.value.walId {
          CoveredIsRecoverable(id);
        }
      }
      var ok, taken := WalRollback(w.wals[id]);
      steps := taken;
      if !ok {
        return false, steps;
      }
      dropped := Store(DropWal(id));
      steps := if dropped then steps + [DropWal(id)] else steps;
    }

    /** The token is in use or gone. */
    predicate Settled(id: string)
      reads `w
    {
      Configured(w, id) || Dead(w, id)
    }

    /** Of the two recorded tokens none is live without being in use. */
    predicate NothingLeft(p: Rotation)
      reads `w
    {
      Settled(p.oldId) && Settled(p.newId)
    }

    /** What a guarded recovery needs to be accepted. */
    predicate Guarded(expected: string, recoveryToken: string)
      reads `w
    {
      && w.pending.Some? && Configured(w, expected) && recoveryToken != expected
      && (recoveryToken == w.pending.value.oldId || recoveryToken == w.pending.value.newId)
    }

    /**
     recoverRotation: deletes exactly the chosen recorded token, never the active one, and
     closes the books. That leaves nothing behind exactly when the other recorded token was in
     use or already gone.
     */
    method Recover(expected: string, recoveryToken: string)
      returns (r: Reply, ghost steps: seq<Effect>, ghost answer: Option<Exists>)
      requires Valid()
      modifies `w, `cache, `trace
      ensures Valid() && trace == old(trace) + steps && ByEngine(steps)
      ensures r.Rejected? || r.Failed? || r.Recovered?
      ensures r.Rejected? ==> w == old(w)
      ensures !old(Guarded(expected, recoveryToken)) ==> !r.Recovered? && w == old(w) && (calm ==> r.Rejected?)
      ensures w.config == old(w.config) && w.known == old(w.known)
      ensures old(w.config).Some? && !old(Authentic(w.config.value)) ==> !r.Recovered? && w == old(w)
      ensures w.live == old(w.live) || w.live == old(w.live) - {recoveryToken}
      ensures r.Recovered? ==>
                && r.tokenId == recoveryToken && Dead(w, recoveryToken) && w.pending.None?
                && w.wals == old(w.wals) - {old(w.pending).value.walId}
      ensures r.Recovered? ==> (NothingLeft(old(w.pending).value) <==> old(Settled(Other(w.pending.value, recoveryToken))))
      ensures r.Recovered? ==> answer == Some(No) || answer == Some(UserGone)
      ensures answer == Some(NoSuchToken) ==> r.Failed? && w.pending == old(w.pending) && w.wals == old(w.wals)
      ensures calm && old(Works(w)) && old(Guarded(expected, recoveryToken)) ==>
                answer.Some? && (r.Recovered? <==> answer != Some(NoSuchToken)) && (plain ==> r.Recovered?)
    {
      hide Permissions.Effective, Legal, After, Inv, TokenId.Split;
      steps, answer := [], None;
      var failed := Fault();
      if failed {
        return Failed, steps, answer;
      }
      if w.pending.None? {
        return Rejected, steps, answer;
      }
      var state := w.pending.value;
      failed := Fault();
      if failed {
        return Failed, steps, answer;
      }
      if w.config.None? || expected != w.config.value.tokenId {
        return Rejected, steps, answer;
      }
      if recoveryToken != state.oldId && recoveryToken != state.newId {
        return Rejected, steps, answer;
      }
      if recoveryToken == w.config.value.tokenId {
        return Rejected, steps, answer;
      }
      PendingSane(w);
      if state.walId == 0 {
        return Failed, steps, answer;
      }
      var parts := TokenId.Split(recoveryToken);
      if parts.None? {
        return Rejected, steps, answer;
      }
      var client := GetClient();
      if client.None? {
        return Failed, steps, answer;
      }
      var removal, removed := RemoveToken(client.value, parts.value.user, parts.value.token);
      steps, answer := removed, Some(removal);
      if !removal.No? && !removal.UserGone? {
        return Failed, steps, answer;
      }
      var ok, closed := CloseBooks(state);
      steps := steps + closed;
      return if ok then Recovered(recoveryToken) else Failed, steps, answer;
    }

    /** rotateRoot: a recovery token selects guarded recovery. */
    method RotateRoot(confirmed: bool, expected: string, recoveryToken: string, draw: Option<seq<Suffix.Byte>>, now: int)
      returns (r: Reply, ghost steps: seq<Effect>)
      requires Valid()
      requires draw.Some? ==> |draw.value| == 5 && FreshDraw(w, draw.value)
      modifies `w, `cache, `trace
      ensures Valid() && trace == old(trace) + steps && ByEngine(steps)
      ensures old(Works(w)) ==> Works(w)
      ensures old(Covered(w)) ==> Covered(w)
      ensures !confirmed ==> r.Rejected?
      ensures r.Rejected? ==> w == old(w)
      ensures r.Rotated? ==> recoveryToken == "" && Works(w) && Dead(w, expected) && w.pending.None? && Configured(w, r.tokenId)
      ensures r.Recovered? ==> recoveryToken == r.tokenId != "" && w.config == old(w.config) && w.pending.None? && Dead(w, recoveryToken)
      ensures calm && plain && confirmed && recoveryToken == "" && draw.Some? && old(Ready(expected)) ==> r.Rotated?
      ensures calm && plain && confirmed && recoveryToken != "" && old(Works(w)) && old(Guarded(expected, recoveryToken)) ==> r.Recovered?
    {
      hide Permissions.Effective, Legal, After, Inv, TokenId.Split;
      if !confirmed {
        return Rejected, [];
      }
      if recoveryToken != "" {
        ghost var answer;
        r, steps, answer := Recover(expected, recoveryToken);
      } else {
        r, steps := Rotate(expected, draw, now);
      }
      Kept(old(w), old(trace), steps);
    }

    // ---- The operator's writes ----

    /** configWrite: stores only credentials that were seen to work with the needed grants. */
    method ConfigWrite(c: Config) returns (r: Write)
      requires Valid()
      modifies `w, `cache, `trace
      ensures Valid()
      ensures !r.Stored? ==> w == old(w) && trace == old(trace)
      ensures r.Stored? ==>
                && w == old(w).(config := Some(c)) && trace == old(trace) + [OperatorWrite(Some(c))] && cache == None
                && Complete(c) && Works(w) && versioned
                && c.tokenId != "" && c.secret != "" && c.defaultTtl >= 0 && c.defaultMaxTtl >= 0
                && (c.defaultTtl == 0 || c.defaultMaxTtl == 0 || c.defaultTtl <= c.defaultMaxTtl)
                && Permissions.Effective(TreeOf(c.tokenId), "/access/groups", "User.Modify")
                && Permissions.Effective(TreeOf(c.tokenId), "/access/groups", "Sys.Audit")
      ensures calm && Complete(c) && old(Authentic(c))
              && Permissions.Effective(TreeOf(c.tokenId), "/access/groups", "User.Modify")
              && Permissions.Effective(TreeOf(c.tokenId), "/access/groups", "Sys.Audit")
              ==> r.Stored?
    {
      hide Permissions.Effective, Legal, After, Inv, TokenId.Split;
      if c.address == "" || c.tokenId == "" || c.secret == "" {
        return Refused;
      }
      if c.defaultTtl < 0 || c.defaultMaxTtl < 0 {
        return Refused;
      }
      if c.defaultTtl > 0 && c.defaultMaxTtl > 0 && c.defaultTtl > c.defaultMaxTtl {
        return Refused;
      }
      var failed := Fault();
      if failed || !Https(c.address) {
        return Refused;   // no client can be built
      }
      var reachable := GetVersion(c);
      if !reachable {
        return Refused;
      }
      var tree := GetPermissions(c);
      if tree.None? {
        return Refused;
      }
      var canModify := Permissions.HasPrivilege(tree.value, "/access/groups", "User.Modify");
      if !canModify {
        return Refused;
      }
      var canAudit := Permissions.HasPrivilege(tree.value, "/access/groups", "Sys.Audit");
      if !canAudit {
        return Refused;
      }
      failed := Fault();
      if failed {
        return WriteFailed;
      }
      var ok := Store(OperatorWrite(Some(c)));
      if !ok {
        return WriteFailed;
      }
      Invalidate();
      return Stored;
    }

    /** configDelete. */
    method ConfigDelete(force: bool) returns (r: Write)
      requires Valid()
      modifies `w, `cache, `trace
      ensures Valid()
      ensures !r.Stored? ==> w == old(w) && trace == old(trace)
      ensures r.Stored? ==> force && w == old(w).(config := None) && trace == old(trace) + [OperatorWrite(None)] && cache == None
      ensures calm ==> (r.Stored? <==> force)
    {
      hide Permissions.Effective, Legal, After, Inv, TokenId.Split;
      if !force {
        return Refused;
      }
      var ok := Store(OperatorWrite(None));
      if !ok {
        return WriteFailed;
      }
      Invalidate();
      return Stored;
    }

    // ---- Convergence ----

    /**
     From every crashed state, with no faults and no operator writes: one sweep of the pending
     rotation's own entry, or guarded recovery when that entry is already gone, leaves nothing
     pending and only the configured token of the two.
     */
    method Converge() returns (ghost steps: seq<Effect>)
      requires Valid() && calm && plain && Works(w) && Covered(w)
      modifies `w, `cache, `trace
      ensures Valid() && trace == old(trace) + steps && ByEngine(steps)
      ensures Works(w) && Covered(w) && w.config == old(w.config) && w.pending.None?
      ensures w.known == old(w.known) && w.live.Keys <= old(w.live).Keys && w.realms == old(w.realms)
      ensures old(w.pending).Some? ==> Dead(w, Unused(w, old(w.pending).value)) && old(w.pending).value.walId !in w.wals
    {
      hide Permissions.Effective, Legal, After, Inv, TokenId.Split;
      Restart();
      steps := [];
      if w.pending.Some? {
        var p := w.pending.value;
        PendingSane(w);
        if p.walId in w.wals {
          var dropped, swept := Sweep(p.walId);
          steps := swept;
        } else {
          var active := w.config.value.tokenId;
          var r, recovered, answer := Recover(active, Other(p, active));
          steps := recovered;
        }
      }
      Kept(old(w), old(trace), steps);
    }

    /** And then the next rotation is accepted. */
    method RecoverAndRotate(draw: seq<Suffix.Byte>, now: int) returns (r: Reply)
      requires Valid() && calm && plain && Works(w) && Covered(w) && |draw| == 5 && FreshDraw(w, draw)
      requires TokenId.Split(w.config.value.tokenId).Some? && Privileged(TreeOf(w.config.value.tokenId), w.realms)
      modifies `w, `cache, `trace
      ensures Valid() && r.Rotated? && Works(w) && Covered(w) && Configured(w, r.tokenId) && w.pending.None?
      ensures Dead(w, old(w.config.value.tokenId))
    {
      hide Permissions.Effective, Legal, After, Inv, TokenId.Split, Covered;
      var steps := Converge();
      var reply, taken := RotateRoot(true, w.config.value.tokenId, "", Some(draw), now);
      return reply;
    }
  }

  /**
   Convergence over all crashes: however far any engine run got, the restarted process
   settles the rotation and completes the next one.
   */
  method SettleAfterCrash(first: World, es: seq<Effect>, k: nat, trees: map<string, Permissions.Tree>,
                          roles: map<string, string>, roleNames: seq<string>, draw: seq<Suffix.Byte>, now: int)
    returns (e: Engine)
    requires Inv(first) && Works(first) && Covered(first) && Legal(first, es) && ByEngine(es) && k <= |es|
    requires After(first, es[..k]).realms == roles.Values
    requires forall name :: name in roles ==> name in roleNames
    requires |draw| == 5 && FreshDraw(After(first, es[..k]), draw)
    requires var c := After(first, es[..k]).config;
             c.Some? ==> TokenId.Split(c.value.tokenId).Some?
                         && Privileged(GrantedTo(trees, c.value.tokenId), roles.Values)
    ensures fresh(e) && e.Valid() && e.w.pending.None? && Works(e.w) && Covered(e.w)
    ensures var c := After(first, es[..k]).config; c.Some? && Dead(e.w, c.value.tokenId)
  {
    hide Legal, After, Inv, TokenId.Split, Permissions.Effective, Covered;
    e := new Engine.AfterCrash(first, es, k, true, trees, roles, roleNames);
    var r := e.RecoverAndRotate(draw, now);
  }

  // ---- What a config write between a crash and the recovery can cost ----

  /** An installation whose server also has a spare token. */
  function Installed(c: Config, spare: string, spareSecret: string): World {
    World(Some(c), None, map[], 1, map[c.tokenId := c.secret, spare := spareSecret], {}, {})
  }

  /** The effects of a rotation that crashed after it had minted the replacement. */
  function UpToMint(c: Config, newId: string, secret: string, now: int): seq<Effect> {
    var entry := Rotation(c.tokenId, newId, Provisioning, 0, now);
    [PutWal(entry), PutState(entry.(walId := 1)), Mint(newId, secret, true)]
  }

  lemma UpToMintRuns(c: Config, newId: string, secret: string, now: int, spare: string, spareSecret: string)
    requires Paired(c.tokenId, newId) && c.tokenId != newId && spare != newId && spare != c.tokenId && secret != ""
    ensures var w := Installed(c, spare, spareSecret);
            var v := After(w, UpToMint(c, newId, secret, now));
            && Inv(w) && Works(w) && Covered(w) && Legal(w, UpToMint(c, newId, secret, now))
            && v.config == w.config && v.realms == {} && v.known == {c.tokenId, newId}
            && v.live == w.live[newId := secret]
            && v.pending == Some(Rotation(c.tokenId, newId, Provisioning, 1, now)) && v.wals.Keys == {1}
  {
    hide TokenId.Split;
    var w, es := Installed(c, spare, spareSecret), UpToMint(c, newId, secret, now);
    var w1 := Apply(w, es[0]);
    var w2 := Apply(w1, es[1]);
    assert Allowed(w, es[0]) && Allowed(w1, es[1]) && Allowed(w2, es[2]);
    hide Allowed, Legal, After;
    ThreeSteps(w, es[0], es[1], es[2]);
  }

  lemma GrantedAtRoot(t: Permissions.Tree, priv: string)
    requires Permissions.Propagates(t, "/", priv)
    ensures Permissions.Effective(t, "/access/groups", priv)
  {
    assert Permissions.Normalise("/access/groups") == "/access/groups";
    assert Permissions.Ancestor("/", "/access/groups");
  }

  lemma ThreeTokens(draw: seq<Suffix.Byte>)
    requires |draw| == 5
    ensures var first, second, spare := TokenId.Join("admin@pve", "one"), TokenId.Join("admin@pve", RotationToken(draw)), TokenId.Join("admin@pve", "two");
            && Paired(first, second) && first != second && spare != second && spare != first
            && TokenId.Split(spare) == Some(TokenId.Parts("admin@pve", "two"))
  {
    RotationTokenIsPlain(draw);
    assert |"one"| == |"two"| == 3 && "one"[0] != "two"[0];
    TokenId.SplitInvertsJoin("admin@pve", "one");
    TokenId.SplitInvertsJoin("admin@pve", "two");
    TokenId.SplitInvertsJoin("admin@pve", RotationToken(draw));
    var first, spare := TokenId.Join("admin@pve", "one"), TokenId.Join("admin@pve", "two");
    assert first[10] == 'o' && spare[10] == 't';
  }

  /** A config that configWrite takes and that names neither token of the pending rotation. */
  ghost predicate Elsewhere(w: World, next: Config, trees: map<string, Permissions.Tree>) {
    && Complete(next) && next.tokenId in w.live && w.live[next.tokenId] == next.secret
    && Permissions.Effective(GrantedTo(trees, next.tokenId), "/access/groups", "User.Modify")
    && Permissions.Effective(GrantedTo(trees, next.tokenId), "/access/groups", "Sys.Audit")
    && w.pending.Some? && next.tokenId != w.pending.value.oldId && next.tokenId != w.pending.value.newId
  }

  /**
   The loss, through the handlers and without any fault: wherever an engine run stops with a
   rotation pending, an operator has the engine use another token, and guarded recovery of
   either recorded token succeeds. If the other one was live it is live still, in no use and on
   no record.
   */
  method ForgetsOther(first: World, es: seq<Effect>, k: nat, trees: map<string, Permissions.Tree>,
                      roles: map<string, string>, roleNames: seq<string>, next: Config, chosen: string)
    returns (e: Engine)
    requires Inv(first) && Legal(first, es) && k <= |es|
    requires After(first, es[..k]).realms == roles.Values
    requires forall name :: name in roles ==> name in roleNames
    requires Elsewhere(After(first, es[..k]), next, trees)
    requires var p := After(first, es[..k]).pending.value;
             (chosen == p.oldId || chosen == p.newId) && Other(p, chosen) in After(first, es[..k]).live
    ensures fresh(e) && e.Valid() && e.calm && e.start == first
    ensures |e.trace| > k && e.trace[..k] == es[..k] && e.trace[k] == OperatorWrite(Some(next)) && ByEngine(e.trace[k + 1..])
    ensures Works(e.w) && e.w.config == Some(next) && e.w.pending.None?
    ensures var v := After(first, es[..k]);
            var left := Other(v.pending.value, chosen);
            && left in e.w.live && left in e.w.known && !Configured(e.w, left)
            && e.w.wals == v.wals - {v.pending.value.walId}
  {
    hide TokenId.Split, Legal, After, Inv, Covered, Cleared, Paired, Permissions.Effective, Complete;
    e := new Engine.AfterCrash(first, es, k, true, trees, roles, roleNames);
    PendingSane(e.w);
    var write := e.ConfigWrite(next);
    assert write.Stored?;
    var reply, steps, answer := e.Recover(next.tokenId, chosen);
    assert reply.Recovered?;
    assert e.trace == es[..k] + [OperatorWrite(Some(next))] + steps;
    assert e.trace[..k] == es[..k] && e.trace[k + 1..] == steps;
  }

  function ExampleConfig(): (c: Config)
    ensures c.tokenId == TokenId.Join("admin@pve", "one")
  {
    Config("https://pve.example:8006", TokenId.Join("admin@pve", "one"), "s1", 0, 0)
  }

  function SpareConfig(): (c: Config)
    ensures c.tokenId == TokenId.Join("admin@pve", "two")
  {
    Config("https://pve.example:8006", TokenId.Join("admin@pve", "two"), "s2", 0, 0)
  }

  function ExampleTrees(): map<string, Permissions.Tree> {
    map["admin@pve" := map["/" := map["User.Modify" := 1, "Sys.Audit" := 1]]]
  }

  function ExampleId(draw: seq<Suffix.Byte>): (id: string)
    requires |draw| == 5
    ensures id == TokenId.Join("admin@pve", RotationToken(draw))
  {
    TokenId.Join("admin@pve", RotationToken(draw))
  }

  /** What a crash after the mint leaves to an operator who has another token. */
  lemma MintedElsewhere(c: Config, id: string, secret: string, now: int, next: Config, trees: map<string, Permissions.Tree>)
    requires Paired(c.tokenId, id) && c.tokenId != id && next.tokenId != id && next.tokenId != c.tokenId && secret != ""
    requires Complete(next)
    requires Permissions.Effective(GrantedTo(trees, next.tokenId), "/access/groups", "User.Modify")
    requires Permissions.Effective(GrantedTo(trees, next.tokenId), "/access/groups", "Sys.Audit")
    ensures var w, es := Installed(c, next.tokenId, next.secret), UpToMint(c, id, secret, now);
            var v := After(w, es);
            && Inv(w) && Works(w) && Covered(w) && Legal(w, es) && ByEngine(es) && |es| == 3
            && Elsewhere(v, next, trees) && v.realms == {} && id in v.live
            && v.pending == Some(Rotation(c.tokenId, id, Provisioning, 1, now)) && v.wals.Keys == {1}
  {
    hide Paired, Inv, Works, Covered, Legal, After, Complete, Permissions.Effective, GrantedTo;
    UpToMintRuns(c, id, secret, now, next.tokenId, next.secret);
  }

  /** The same loss after a rotation that crashed when it had minted the replacement. */
  method ForgetsReplacement(c: Config, next: Config, id: string, secret: string, now: int, trees: map<string, Permissions.Tree>)
    returns (e: Engine)
    requires Paired(c.tokenId, id) && c.tokenId != id && next.tokenId != id && next.tokenId != c.tokenId && secret != ""
    requires Complete(next)
    requires Permissions.Effective(GrantedTo(trees, next.tokenId), "/access/groups", "User.Modify")
    requires Permissions.Effective(GrantedTo(trees, next.tokenId), "/access/groups", "Sys.Audit")
    ensures fresh(e) && e.Valid() && e.calm && Inv(e.start) && Works(e.start) && Covered(e.start)
    ensures |e.trace| > 3 && ByEngine(e.trace[..3]) && e.trace[3] == OperatorWrite(Some(next)) && ByEngine(e.trace[4..])
    ensures Works(e.w) && e.w.pending.None? && e.w.wals == map[]
    ensures id in e.w.live && id in e.w.known && !Configured(e.w, id)
  {
    hide Paired, Inv, Covered, Legal, After, Complete, Permissions.Effective, GrantedTo, Elsewhere, Installed, UpToMint, Works;
    MintedElsewhere(c, id, secret, now, next, trees);
    var es := UpToMint(c, id, secret, now);
    assert es[..3] == es;
    e := ForgetsOther(Installed(c, next.tokenId, next.secret), es, 3, trees, map[], [], next, c.tokenId);
  }

  lemma ExampleGranted(next: string)
    requires TokenId.Split(next) == Some(TokenId.Parts("admin@pve", "two"))
    ensures Permissions.Effective(GrantedTo(ExampleTrees(), next), "/access/groups", "User.Modify")
    ensures Permissions.Effective(GrantedTo(ExampleTrees(), next), "/access/groups", "Sys.Audit")
  {
    hide TokenId.Split, Permissions.Effective;
    GrantedAtRoot(ExampleTrees()["admin@pve"], "User.Modify");
    GrantedAtRoot(ExampleTrees()["admin@pve"], "Sys.Audit");
  }

  lemma SpareIsComplete()
    ensures Complete(SpareConfig())
  {
    hide TokenId.Join;
    assert TokenId.Join("admin@pve", "two") != "" by {
      JoinIsText("admin@pve", "two");
    }
  }

  lemma JoinIsText(user: string, token: string)
    ensures TokenId.Join(user, token) != ""
  {
  }

  /** An installation in which that happens. */
  method OperatorWriteMayForget(draw: seq<Suffix.Byte>, now: int) returns (e: Engine, left: string)
    requires |draw| == 5
    ensures fresh(e) && e.Valid() && e.calm && Inv(e.start) && Works(e.start) && Covered(e.start)
    ensures |e.trace| > 3 && ByEngine(e.trace[..3]) && e.trace[3] == OperatorWrite(Some(SpareConfig())) && ByEngine(e.trace[4..])
    ensures Works(e.w) && e.w.pending.None? && e.w.wals == map[]
    ensures left == ExampleId(draw) && left in e.w.live && left in e.w.known && !Configured(e.w, left)
  {
    hide *;
    left := ExampleId(draw);
    ThreeTokens(draw);
    SpareIsComplete();
    ExampleGranted(SpareConfig().tokenId);
    e := ForgetsReplacement(ExampleConfig(), SpareConfig(), left, "s3", now, ExampleTrees());
  }
}
