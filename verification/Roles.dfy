/**
 The role store: creates, partial updates and deletes of roles, each checked against the
 server before it is stored. Replay is the store after a history of requests and of what the
 server answered to them; the invariant of the store is proved of every history.
 */
module Roles {
  import opened Wrappers
  import Permissions
  import Suffix
  import UserId

  datatype Role = Role(group: string, userPrefix: string, realm: string, ttl: int, maxTtl: int, mode: string)

  /** The fields a request supplies. */
  datatype Request = Request(group: Option<string>, userPrefix: Option<string>, realm: Option<string>,
                             ttl: Option<int>, maxTtl: Option<int>, mode: Option<string>)

  datatype Build = Build(version: string, repoId: string)

  /** What the server said when it was asked about a request. */
  datatype Evidence = Evidence(groupExists: bool, tree: Permissions.Tree, build: Option<Build>)

  datatype Event =
    | Write(name: string, request: Request, evidence: Evidence)
    | Remove(name: string)

  const TOKEN := "token"
  const PASSWORD := "password"
  const PASSWORD_REALM := "pve"
  const VERIFIED := Build("9.2.14", "a1480fa6b8d899cb")

  type Store = map<string, Role>

  /** getRole: a role stored before modes existed is a token role. */
  function Load(store: Store, name: string): Option<Role> {
    if name !in store then None
    else if store[name].mode == "" then Some(store[name].(mode := TOKEN)) else Some(store[name])
  }

  /** A supplied field wins, then the stored one, then the default of the schema. */
  function Pick<T>(supplied: Option<T>, stored: Option<T>, default: T): T {
    if supplied.Some? then supplied.value else if stored.Some? then stored.value else default
  }

  function OrDefault(s: string, default: string): string {
    if s == "" then default else s
  }

  function Merge(base: Option<Role>, r: Request): Role {
    Role(Pick(r.group, if base.Some? then Some(base.value.group) else None, ""),
         OrDefault(Pick(r.userPrefix, if base.Some? then Some(base.value.userPrefix) else None, "vault"), "vault"),
         OrDefault(Pick(r.realm, if base.Some? then Some(base.value.realm) else None, "pve"), "pve"),
         Pick(r.ttl, if base.Some? then Some(base.value.ttl) else None, 0),
         Pick(r.maxTtl, if base.Some? then Some(base.value.maxTtl) else None, 0),
         OrDefault(Pick(r.mode, if base.Some? then Some(base.value.mode) else None, TOKEN), TOKEN))
  }

  /** What a stored role promises its users. */
  predicate Sound(name: string, role: Role) {
    && role.group != ""
    && role.ttl >= 0 && role.maxTtl >= 0 && (role.ttl > 0 && role.maxTtl > 0 ==> role.ttl <= role.maxTtl)
    && (role.mode == TOKEN || role.mode == PASSWORD) && (role.mode == PASSWORD ==> role.realm == PASSWORD_REALM)
    && UserId.ValidRealm(role.realm) && UserId.ValidComponent(role.userPrefix) && UserId.ValidComponent(name)
    && UserId.WithinBudget(role.userPrefix, name, role.realm)
  }

  /** The write turns a role into a password role. */
  predicate OptsIn(base: Option<Role>, role: Role) {
    role.mode == PASSWORD && (base.None? || base.value.mode != PASSWORD)
  }

  ghost predicate Backed(base: Option<Role>, role: Role, ev: Evidence) {
    && ev.groupExists
    && Permissions.Effective(ev.tree, "/access/realm/" + role.realm, "Realm.AllocateUser")
    && Permissions.Effective(ev.tree, "/access/groups/" + role.group, "User.Modify")
    && (OptsIn(base, role) ==> ev.build == Some(VERIFIED))
  }

  ghost predicate Accepts(store: Store, name: string, r: Request, ev: Evidence) {
    var base := Load(store, name);
    Sound(name, Merge(base, r)) && Backed(base, Merge(base, r), ev)
  }

  ghost function Next(store: Store, e: Event): Store {
    match e
    case Write(name, request, evidence) =>
      if Accepts(store, name, request, evidence) then store[name := Merge(Load(store, name), request)] else store
    case Remove(name) => store - {name}
  }

  ghost function Replay(es: seq<Event>): Store {
    if es == [] then map[] else Next(Replay(es[..|es| - 1]), es[|es| - 1])
  }

  lemma {:induction false} ReplayedIsSound(es: seq<Event>, name: string)
    requires name in Replay(es)
    ensures Sound(name, Replay(es)[name])
  {
    hide Sound, Backed;
    if es != [] {
      var before := Replay(es[..|es| - 1]);
      if name in before && Replay(es)[name] == before[name] {
        ReplayedIsSound(es[..|es| - 1], name);
      }
    }
  }

  /** Every role any history leaves behind is sound. */
  lemma ReplaySound(es: seq<Event>, name: string)
    requires name in Replay(es)
    ensures var role := Replay(es)[name];
            && role.group != "" && role.ttl >= 0 && role.maxTtl >= 0
            && (role.ttl == 0 || role.maxTtl == 0 || role.ttl <= role.maxTtl)
            && (role.mode == "token" || (role.mode == "password" && role.realm == "pve"))
            && UserId.ValidRealm(role.realm) && UserId.ValidComponent(role.userPrefix) && UserId.ValidComponent(name)
            && UserId.Utf8Len(role.userPrefix) + UserId.Utf8Len(name) + UserId.Utf8Len(role.realm) <= 53
            && Sound(name, role)
  {
    hide Replay, UserId.ValidRealm, UserId.ValidComponent;
    ReplayedIsSound(es, name);
  }

  /** Nothing but what the documentation names keeps a role from being stored. */
  lemma SoundSuffices(name: string, role: Role)
    requires role.group != "" && role.ttl >= 0 && role.maxTtl >= 0 && (role.ttl == 0 || role.maxTtl == 0 || role.ttl <= role.maxTtl)
    requires role.mode == "token" || (role.mode == "password" && role.realm == "pve")
    requires UserId.ValidRealm(role.realm) && UserId.ValidComponent(role.userPrefix) && UserId.ValidComponent(name)
    requires UserId.Utf8Len(role.userPrefix) + UserId.Utf8Len(name) + UserId.Utf8Len(role.realm) <= 53
    ensures Sound(name, role)
  {
  }

  /** The server's side likewise: the build matters only to a role that turns to passwords. */
  lemma BackedSuffices(base: Option<Role>, role: Role, ev: Evidence)
    requires ev.groupExists
    requires Permissions.Effective(ev.tree, "/access/realm/" + role.realm, "Realm.AllocateUser")
    requires Permissions.Effective(ev.tree, "/access/groups/" + role.group, "User.Modify")
    requires role.mode == "token" || (base.Some? && base.value.mode == "password") || ev.build == Some(Build("9.2.14", "a1480fa6b8d899cb"))
    ensures Backed(base, role, ev)
  {
    hide Permissions.Effective;
  }

  /** In es the role was last written at k, and the server granted then what the role needs. */
  ghost predicate BackedAt(es: seq<Event>, name: string, k: nat) {
    && k < |es| && es[k].Write? && es[k].name == name && es[k].evidence.groupExists
    && name in Replay(es) && name in Replay(es[..k + 1]) && Replay(es[..k + 1])[name] == Replay(es)[name]
    && Permissions.Effective(es[k].evidence.tree, "/access/realm/" + Replay(es)[name].realm, "Realm.AllocateUser")
    && Permissions.Effective(es[k].evidence.tree, "/access/groups/" + Replay(es)[name].group, "User.Modify")
  }

  /** Behind every role stands a write that saw its group and the grants for its realm and its group. */
  lemma {:induction false} RoleWasBacked(es: seq<Event>, name: string) returns (k: nat)
    requires name in Replay(es)
    ensures BackedAt(es, name, k)
  {
    hide Sound, Permissions.Effective;
    var n := |es| - 1;
    var front := es[..n];
    assert es[..n + 1] == es;
    if es[n].Write? && es[n].name == name && Accepts(Replay(front), name, es[n].request, es[n].evidence) {
      k := n;
    } else {
      k := RoleWasBacked(front, name);
      assert front[..k + 1] == es[..k + 1];
    }
  }

  /** In es the password role name opted in at k, and has been a password role since. */
  ghost predicate OptedInAt(es: seq<Event>, name: string, k: nat) {
    && k < |es| && es[k].Write? && es[k].name == name && es[k].evidence.build == Some(Build("9.2.14", "a1480fa6b8d899cb"))
    && (forall j :: k < j <= |es| ==> name in Replay(es[..j]) && Replay(es[..j])[name].mode == "password")
  }

  /** Behind every password role stands an opt-in that saw the verified build. */
  lemma {:induction false} PasswordWasVerified(es: seq<Event>, name: string) returns (k: nat)
    requires name in Replay(es) && Replay(es)[name].mode == "password"
    ensures OptedInAt(es, name, k)
  {
    hide Sound, Permissions.Effective;
    var front := es[..|es| - 1];
    assert es[..|es|] == es;
    if name in Replay(front) && Replay(front)[name].mode == PASSWORD {
      k := PasswordWasVerified(front, name);
      forall j | k < j <= |es|
        ensures name in Replay(es[..j]) && Replay(es[..j])[name].mode == "password"
      {
        if j < |es| {
          assert front[..j] == es[..j];
        }
      }
    } else {
      k := |es| - 1;
    }
  }

  /** A partial update changes exactly the fields it supplies; an empty name means the default. */
  lemma UpdateIsFieldwise(es: seq<Event>, name: string, r: Request, ev: Evidence)
    requires name in Replay(es) && Accepts(Replay(es), name, r, ev)
    ensures var was, now := Replay(es)[name], Next(Replay(es), Write(name, r, ev))[name];
            && now.group == (if r.group.Some? then r.group.value else was.group)
            && now.ttl == (if r.ttl.Some? then r.ttl.value else was.ttl)
            && now.maxTtl == (if r.maxTtl.Some? then r.maxTtl.value else was.maxTtl)
            && now.userPrefix == (if r.userPrefix.None? then was.userPrefix else if r.userPrefix.value == "" then "vault" else r.userPrefix.value)
            && now.realm == (if r.realm.None? then was.realm else if r.realm.value == "" then "pve" else r.realm.value)
            && now.mode == (if r.mode.None? then was.mode else if r.mode.value == "" then "token" else r.mode.value)
  {
    hide UserId.WithinBudget, Backed;
    ReplaySound(es, name);
  }

  /** A create stores the supplied fields, and the defaults of the others. */
  lemma CreateIsFieldwise(es: seq<Event>, name: string, r: Request, ev: Evidence)
    requires name !in Replay(es) && Accepts(Replay(es), name, r, ev)
    ensures name in Next(Replay(es), Write(name, r, ev))
    ensures var now := Next(Replay(es), Write(name, r, ev))[name];
            && now.group == (if r.group.Some? then r.group.value else "")
            && now.ttl == (if r.ttl.Some? then r.ttl.value else 0)
            && now.maxTtl == (if r.maxTtl.Some? then r.maxTtl.value else 0)
            && now.userPrefix == (if r.userPrefix.Some? && r.userPrefix.value != "" then r.userPrefix.value else "vault")
            && now.realm == (if r.realm.Some? && r.realm.value != "" then r.realm.value else "pve")
            && now.mode == (if r.mode.Some? && r.mode.value != "" then r.mode.value else "token")
  {
    hide Sound, Backed;
  }

  /** And a write touches no other role. */
  lemma WriteTouchesOne(es: seq<Event>, e: Event, other: string)
    requires e.name != other
    ensures other in Next(Replay(es), e) <==> other in Replay(es)
    ensures other in Replay(es) ==> Next(Replay(es), e)[other] == Replay(es)[other]
  {
    hide Sound, Backed;
  }

  /**
   Hence every userid ever issued fits the server's limit, holds one '@' and no other
   character that breaks a path or a header, and gives its suffix and realm back.
   */
  lemma IssuedUserIdsAreSafe(es: seq<Event>, name: string, suffix: string)
    requires name in Replay(es) && Suffix.IsSuffix(suffix)
    ensures var role := Replay(es)[name];
            var u := UserId.Build(role.userPrefix, name, suffix, role.realm);
            && UserId.Utf8Len(u) <= 64 && UserId.Parse(u) == Some((suffix, role.realm))
            && (forall i :: 0 <= i < |u| ==> (UserId.Forbidden(u[i]) <==> i == |u| - |role.realm| - 1))
            && u[|u| - |role.realm| - 1] == '@'
            && u == role.userPrefix + "-" + name + "-" + suffix + "@" + role.realm
            && (forall i :: 0 <= i < |u| ==> u[i] !in {':', '/', '!', '=', ' ', '\t', '\n', '\r'})
  {
    var role := Replay(es)[name];
    ReplaySound(es, name);
    UserId.BuildFits(role.userPrefix, name, suffix, role.realm);
    UserId.BuildParses(role.userPrefix, name, suffix, role.realm);
  }

  datatype Outcome = Stored | Rejected | Failed

  /** The handlers, under the role lock, against a server and a storage that may fail. */
  class RoleStore {
    var roles: Store
    var configured: bool
    var calm: bool
    var server: Evidence            // what the server answers
    var groups: set<string>
    ghost var history: seq<Event>

    ghost predicate Valid()
      reads this
    {
      roles == Replay(history)
    }

    constructor (server: Evidence, groups: set<string>, configured: bool)
      ensures Valid() && roles == map[]
    {
      roles, history := map[], [];
      this.server, this.groups, this.configured, calm := server, groups, configured, false;
    }

    method Fault() returns (failed: bool)
      ensures calm ==> !failed
    {
      failed := *;
      failed := failed && !calm;
    }

    /** The server's side of a role of this group and realm. */
    function Answer(group: string): Evidence
      reads `server, `groups
    {
      server.(groupExists := group in groups)
    }

    /** The checks that need no server, in the order of roleWrite. */
    method CheckFields(name: string, role: Role) returns (ok: bool)
      ensures ok <==> Sound(name, role)
    {
      if role.group == "" {
        return false;
      }
      if role.ttl < 0 || role.maxTtl < 0 {
        return false;
      }
      if role.ttl > 0 && role.maxTtl > 0 && role.ttl > role.maxTtl {
        return false;
      }
      if role.mode != TOKEN && role.mode != PASSWORD {
        return false;
      }
      var realmOk := UserId.CheckRealm(role.realm);
      if !realmOk {
        return false;
      }
      if role.mode == PASSWORD && role.realm != PASSWORD_REALM {
        return false;
      }
      var prefixOk := UserId.CheckComponent(role.userPrefix);
      if !prefixOk {
        return false;
      }
      var nameOk := UserId.CheckComponent(name);
      if !nameOk {
        return false;
      }
      return UserId.WithinBudget(role.userPrefix, name, role.realm);
    }

    /** The checks against the server; the build is asked for only when a role opts in. */
    method CheckServer(base: Option<Role>, role: Role) returns (ok: bool)
      ensures ok ==> Backed(base, role, Answer(role.group))
      ensures calm && Backed(base, role, Answer(role.group)) ==> ok
    {
      hide Permissions.Effective;
      var failed := Fault();
      if failed || role.group !in groups {
        return false;
      }
      failed := Fault();
      if failed {
        return false;
      }
      var tree := server.tree;
      var allocate := Permissions.HasPrivilege(tree, "/access/realm/" + role.realm, "Realm.AllocateUser");
      if !allocate {
        return false;
      }
      var modifiable := Permissions.HasPrivilege(tree, "/access/groups/" + role.group, "User.Modify");
      if !modifiable {
        return false;
      }
      if role.mode == PASSWORD && (base.None? || base.value.mode != PASSWORD) {
        failed := Fault();
        if failed || server.build.None? {
          return false;
        }
        if server.build.value.version != VERIFIED.version || server.build.value.repoId != VERIFIED.repoId {
          return false;
        }
      }
      return true;
    }

    /** roleWrite: load, merge, validate, store. */
    method WriteRole(name: string, r: Request) returns (outcome: Outcome)
      requires Valid()
      modifies `roles, `history
      ensures Valid()
      ensures !outcome.Stored? ==> roles == old(roles) && history == old(history)
      ensures outcome.Stored? ==>
                && old(configured) && Accepts(old(roles), name, r, Answer(Merge(Load(old(roles), name), r).group))
                && history == old(history) + [Write(name, r, Answer(Merge(Load(old(roles), name), r).group))]
                && roles == old(roles)[name := Merge(Load(old(roles), name), r)]
      ensures calm && configured && old(Accepts(roles, name, r, Answer(Merge(Load(roles, name), r).group))) ==> outcome.Stored?
    {
      hide Sound, Backed, Permissions.Effective, Merge;
      var failed := Fault();
      if failed {
        return Failed;
      }
      var existing := Load(roles, name);
      var role := Merge(existing, r);
      var fieldsOk := CheckFields(name, role);
      if !fieldsOk {
        return Rejected;
      }
      failed := Fault();
      if failed {
        return Failed;
      }
      if !configured {
        return Rejected;
      }
      var backed := CheckServer(existing, role);
      if !backed {
        return Rejected;
      }
      failed := Fault();
      if failed {
        return Failed;
      }
      roles := roles[name := role];
      history := history + [Write(name, r, Answer(role.group))];
      assert history[..|history| - 1] == old(history);
      return Stored;
    }

    /** roleDelete. */
    method DeleteRole(name: string) returns (ok: bool)
      requires Valid()
      modifies `roles, `history
      ensures Valid()
      ensures roles == if ok then old(roles) - {name} else old(roles)
      ensures calm ==> ok
    {
      var failed := Fault();
      if failed {
        return false;
      }
      roles := roles - {name};
      history := history + [Remove(name)];
      assert history[..|history| - 1] == old(history);
      return true;
    }
  }
}
