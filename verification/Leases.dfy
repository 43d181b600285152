/**
 A lease from issuance to revocation: what the renewal and revocation handlers do to the
 lease's user on the server and to the Secret that Vault keeps. Vault runs one operation of
 a lease at a time; between operations operators may change or delete the user and roles and
 config may change or vanish.
 */
module Leases {
  import opened Wrappers
  import opened Lifetime
  import opened IssuanceProtocol
  import Answers
  import UserId

  /** A value of InternalData after its trip through JSON; numbers are exact here. */
  datatype Value = Str(text: string) | Num(number: int) | Other

  datatype Recorded = Recorded(userid: string, group: string, maxTtl: int, roleName: string)

  /** extractLeaseInternalData. */
  function Extract(data: map<string, Value>): Option<Recorded> {
    if "pve_userid" !in data || !data["pve_userid"].Str? || data["pve_userid"].text == "" then None
    else if "group" !in data || !data["group"].Str? || data["group"].text == "" then None
    else if "effective_max_ttl" !in data || !data["effective_max_ttl"].Num? then None
    else
      var role := if "role_name" in data && data["role_name"].Str? then data["role_name"].text else "";
      Some(Recorded(data["pve_userid"].text, data["group"].text, data["effective_max_ttl"].number, role))
  }

  function InternalData(r: Recorded, expire: int): map<string, Value> {
    map["pve_userid" := Str(r.userid), "group" := Str(r.group), "effective_max_ttl" := Num(r.maxTtl),
        "role_name" := Str(r.roleName), "expire" := Num(expire)]
  }

  /** What issuance records is what renewal and revocation read back. */
  lemma ExtractInvertsRecord(r: Recorded, expire: int)
    requires r.userid != "" && r.group != ""
    ensures Extract(InternalData(r, expire)) == Some(r)
    ensures InternalData(r, expire) == map["pve_userid" := Str(r.userid), "group" := Str(r.group),
              "effective_max_ttl" := Num(r.maxTtl), "role_name" := Str(r.roleName), "expire" := Num(expire)]
  {
    KeysDiffer();
  }

  predicate HoldsText(data: map<string, Value>, key: string) {
    key in data && data[key].Str? && data[key].text != ""
  }

  /** The records are refused exactly when the user, the group or the maximum is missing; a missing role is none. */
  lemma ExtractExactly(data: map<string, Value>)
    ensures Extract(data).Some? <==>
            && HoldsText(data, "pve_userid") && HoldsText(data, "group")
            && "effective_max_ttl" in data && data["effective_max_ttl"].Num?
    ensures Extract(data).Some? ==>
              && Str(Extract(data).value.userid) == data["pve_userid"] && Str(Extract(data).value.group) == data["group"]
              && Num(Extract(data).value.maxTtl) == data["effective_max_ttl"]
              && (HoldsText(data, "role_name") ==> Str(Extract(data).value.roleName) == data["role_name"])
              && (!HoldsText(data, "role_name") ==> Extract(data).value.roleName == "")
  {
    KeysDiffer();
  }

  /** Rewriting the expiry, as every renewal does, loses nothing else. */
  lemma ExtractIgnoresExpire(data: map<string, Value>, expire: int)
    ensures Extract(data["expire" := Num(expire)]) == Extract(data)
  {
    KeysDiffer();
  }

  lemma KeysDiffer()
    ensures "expire" != "pve_userid" && "expire" != "group" && "expire" != "effective_max_ttl" && "expire" != "role_name"
    ensures "group" != "pve_userid" && "group" != "effective_max_ttl" && "group" != "role_name"
    ensures "role_name" != "pve_userid" && "role_name" != "effective_max_ttl" && "pve_userid" != "effective_max_ttl"
  {
    assert |"expire"| == 6 && |"pve_userid"| == 10 && |"group"| == 5 && |"effective_max_ttl"| == 17 && |"role_name"| == 9;
  }

  datatype Update = Update(expire: int, groups: string, enable: bool, append: bool)

  predicate Blank(s: string) {
    forall i :: 0 <= i < |s| ==> UserId.IsSpace(s[i])
  }

  datatype Op =
    | Renewal(increment: int, now: int)
    | Revocation
    | Operator(edit: Option<User>)                                    // an edit, a creation or a deletion
    | Roles(roles: map<string, Ttls>, config: Option<Ttls>)

  function Shorter(a: int, b: int): (c: int)
    ensures c <= a && c <= b && (c == a || c == b)
  {
    if a <= b then a else b
  }

  class Lease {
    var user: Option<User>             // on the server
    var data: map<string, Value>       // Secret.InternalData
    var ttl: int                       // Secret.TTL
    var maxTtl: int                    // Secret.MaxTTL
    var roles: map<string, Ttls>       // stored roles, in seconds
    var config: Option<Ttls>
    var calm: bool                     // no call fails while this holds
    const issueTime: int
    const sysDefault: int
    const sysMax: int
    ghost const recorded: Recorded

    /** The lease's records are intact. */
    ghost predicate Valid()
      reads this
    {
      Extract(data) == Some(recorded) && recorded.maxTtl > 0 && sysMax > 0
    }

    /** The server will end the user in time. */
    ghost predicate Bounded()
      reads `user
    {
      user.Some? ==> Backstop(user.value.expire, issueTime, recorded.maxTtl)
    }

    /** What the operation does to the user is no edit that lifts the bound. */
    ghost predicate Within(op: Op) {
      op.Operator? && op.edit.Some? ==> Backstop(op.edit.value.expire, issueTime, recorded.maxTtl)
    }

    /**
     The end of issuance: the lease of a user that was created with the granted expiry. Vault
     stamps the issue time once the handler has returned.
     */
    constructor (userid: string, group: string, roleName: string, role: Ttls, config: Ttls,
                 sysDefault: int, sysMax: int, now: int, issueTime: int, nonce: string)
      requires userid != "" && group != "" && Sensible(role, config, sysDefault, sysMax, now) && now <= issueTime
      requires ForIssue(role, config, sysDefault, sysMax, now).Some?
      ensures Valid() && Bounded() && !calm
      ensures var grant := ForIssue(role, config, sysDefault, sysMax, now).value;
              && user == Some(User(nonce, [group], true, grant.expire)) && ttl == grant.ttl && maxTtl == grant.maxTtl
              && recorded == Recorded(userid, group, grant.maxTtl, roleName) && data == InternalData(recorded, grant.expire)
    {
      var grant := ForIssue(role, config, sysDefault, sysMax, now).value;
      var r := Recorded(userid, group, grant.maxTtl, roleName);
      IssueBounded(role, config, sysDefault, sysMax, now, issueTime);
      ExtractInvertsRecord(r, grant.expire);
      user := Some(User(nonce, [group], true, grant.expire));
      data := InternalData(r, grant.expire);
      this.ttl, maxTtl, roles, calm := grant.ttl, grant.maxTtl, map[roleName := role], false;
      this.config := Some(config);
      this.issueTime, this.sysDefault, this.sysMax, recorded := issueTime, sysDefault, sysMax, r;
    }

    method Fault() returns (failed: bool)
      ensures calm ==> !failed
    {
      failed := *;
      failed := failed && !calm;
    }

    /** GET /access/users/{userid}. */
    method GetUser() returns (info: Option<User>)
      ensures info.Some? ==> user == info
      ensures calm ==> info == user
    {
      var answer := Answers.Read(user, calm);
      return if answer.Found? then Some(answer.user) else None;
    }

    /**
     PUT /access/users/{userid}. A request that would drop the backstop, the group or the user is
     not sent; a sent one may take effect
     although it reports an error; the server may silently drop the group. What it does is an
     Edit in the sense of IssuanceProtocol: the comment stays.
     */
    method UpdateUser(u: Update) returns (ok: bool)
      modifies `user
      ensures u.expire <= 0 || Blank(u.groups) || !u.enable || !u.append || old(user).None? ==> !ok && user == old(user)
      ensures ok ==> user.Some? && user.value.expire == u.expire && user.value.enable == u.enable
      ensures user == old(user) || (user.Some? && old(user).Some? && user.value.expire == u.expire)
      ensures user.Some? ==> old(user).Some? && user.value.comment == old(user).value.comment
      ensures calm && u.expire > 0 && !Blank(u.groups) && u.enable && u.append && old(user).Some? ==> ok && u.groups in user.value.groups
    {
      if u.expire <= 0 || Blank(u.groups) || !u.enable || !u.append {
        return false;
      }
      var ignored := Fault();
      var applied := user.Some? && !ignored;
      if applied {
        var groups: seq<string> := *;
        if calm {
          groups := user.value.groups + [u.groups];
        }
        user := Some(User(user.value.comment, groups, u.enable, u.expire));
      }
      ok := Answers.Updated(applied, calm);
    }

    /** DELETE /access/users/{userid}: yes, and "no such user", mean that the user is gone. */
    method DeleteUser() returns (gone: bool)
      modifies `user
      ensures user == old(user) || user.None?
      ensures gone ==> user.None?
      ensures calm ==> gone
    {
      var ignored := Fault();
      if !ignored {
        user := None;
      }
      gone := Answers.Deleted(user.None?, calm);
    }

    /** The lifetime that a renewal falls back to when the caller asks for none. */
    function RenewalTtl(r: Recorded): int
      reads `ttl, `roles, `config
    {
      if r.roleName != "" && config.Some? && r.roleName in roles then Fallback(roles[r.roleName], config.value).ttl else ttl
    }

    /** What a renewal with these arguments would grant. */
    ghost function Granted(increment: int, now: int): Option<int>
      reads this
    {
      CalculateTtl(increment, RenewalTtl(recorded), recorded.maxTtl, sysDefault, sysMax, issueTime, now)
    }

    /** The lease's role and the config are still there. */
    ghost predicate RoleStored()
      reads `roles, `config
    {
      recorded.roleName != "" && config.Some? && recorded.roleName in roles
    }

    /** The end of the longest lifetime that a renewal may give. */
    ghost function Limit(): int {
      issueTime + if recorded.maxTtl < sysMax then recorded.maxTtl else sysMax
    }

    /** Role and config, or the lease itself once one of them is gone, name a lifetime. */
    ghost predicate HasLifetime()
      reads `ttl, `roles, `config
    {
      if RoleStored() then
        var role, defaults := roles[recorded.roleName], config.value;
        role.ttl > 0 || (role.ttl == 0 && defaults.ttl > 0)
      else ttl > 0
    }

    /** Nothing but a fault stands in the way of a renewal. */
    ghost predicate Renewable(increment: int, now: int)
      reads this
    {
      && user.Some? && user.value.enable && !Blank(recorded.group)
      && Granted(increment, now).Some? && Granted(increment, now).value > 0
    }

    /** What a renewal grants, case by case, and when it grants nothing. */
    lemma GrantedExactly(increment: int, now: int)
      requires Valid()
      ensures Granted(increment, now).Some? && Granted(increment, now).value > 0 <==>
                now < Limit() && (increment > 0 || sysDefault > 0 || HasLifetime())
      ensures var g := Granted(increment, now);
              g.Some? ==>
                && (increment > 0 ==> g.value == Shorter(increment, Limit() - now))
                && (increment <= 0 && RoleStored() ==>
                      var role, defaults := roles[recorded.roleName], config.value;
                      && (role.ttl > 0 ==> g.value == Shorter(1_000_000_000 * role.ttl, Limit() - now))
                      && (role.ttl == 0 && defaults.ttl > 0 ==> g.value == Shorter(1_000_000_000 * defaults.ttl, Limit() - now))
                      && (role.ttl < 0 || (role.ttl == 0 && defaults.ttl <= 0) ==> g.value == Shorter(sysDefault, Limit() - now)))
                && (increment <= 0 && !RoleStored() ==>
                      g.value == Shorter(if ttl > 0 then ttl else sysDefault, Limit() - now))
    {
      hide Extract;
    }

    /**
     secretTokenRenew. Success means: enabled, in the lease's own group whatever became of the
     role, and the same bounded expiry on the server and on record. A disabled user stays
     disabled, an absent one absent, and a failed renewal changes no record.
     */
    method Renew(increment: int, now: int) returns (ok: bool)
      requires Valid() && now >= 0
      modifies `user, `data, `ttl, `maxTtl
      ensures Valid() && (old(Bounded()) || ok ==> Bounded())
      ensures user.Some? ==> old(user).Some? && user.value.comment == old(user).value.comment
      ensures ok ==>
                && user.Some? && user.value.enable && recorded.group in user.value.groups
                && old(Granted(increment, now)) == Some(ttl) && ttl > 0 && maxTtl == recorded.maxTtl
                && user.value.expire == ExpireAt(now, ttl) && data == old(data)["expire" := Num(user.value.expire)]
      ensures ok ==> user.value.expire == (now + ttl) / 1_000_000_000 + 60
      ensures ok && increment > 0 ==> ttl == Shorter(increment, Limit() - now)
      ensures ok && increment <= 0 && old(RoleStored()) ==>
                var role, defaults := old(roles)[recorded.roleName], old(config).value;
                && (role.ttl > 0 ==> ttl == Shorter(1_000_000_000 * role.ttl, Limit() - now))
                && (role.ttl == 0 && defaults.ttl > 0 ==> ttl == Shorter(1_000_000_000 * defaults.ttl, Limit() - now))
                && (role.ttl < 0 || (role.ttl == 0 && defaults.ttl <= 0) ==> ttl == Shorter(sysDefault, Limit() - now))
      ensures ok && increment <= 0 && !old(RoleStored()) ==>
                ttl == Shorter(if old(ttl) > 0 then old(ttl) else sysDefault, Limit() - now)
      ensures calm && old(user).Some? && old(user).value.enable && !Blank(recorded.group) ==>
                (ok <==> now < Limit() && (increment > 0 || sysDefault > 0 || old(HasLifetime())))
      ensures !ok ==> data == old(data) && ttl == old(ttl) && maxTtl == old(maxTtl)
      ensures old(user).Some? && !old(user).value.enable ==> !ok && user == old(user)
      ensures old(user).None? ==> !ok && user.None?
      ensures calm && old(Renewable(increment, now)) ==> ok
    {
      var extracted := Extract(data);
      if extracted.None? {
        return false;
      }
      GrantedExactly(increment, now);
      hide Fallback, HasLifetime, RoleStored, Limit, Shorter;
      var r := extracted.value;
      var backendTtl := FallbackTtl(r);
      if backendTtl.None? {
        return false;
      }
      var granted := CalculateTtl(increment, backendTtl.value, r.maxTtl, sysDefault, sysMax, issueTime, now);
      if granted.None? || granted.value <= 0 {
        return false;
      }
      var newExpire := ExpireAt(now, granted.value);
      RenewBounded(increment, backendTtl.value, r.maxTtl, sysDefault, sysMax, issueTime, now);
      var noClient := Fault();
      if noClient {
        return false;
      }
      hide CalculateTtl, ExpireAt, Extract, Backstop, Fallback;
      ok := Extend(newExpire, r.group);
      if !ok {
        return false;
      }
      ExtractIgnoresExpire(data, newExpire);
      data := data["expire" := Num(newExpire)];
      ttl, maxTtl := granted.value, r.maxTtl;
      return true;
    }

    /** The role's lifetime if config and role can be loaded, else the lease's own. */
    method FallbackTtl(r: Recorded) returns (t: Option<int>)
      ensures t.Some? ==> t.value == RenewalTtl(r)
      ensures calm ==> t.Some?
    {
      if r.roleName == "" {
        return Some(ttl);
      }
      var failed := Fault();
      if failed {
        return None;
      }
      if config.None? {
        return Some(ttl);
      }
      failed := Fault();
      if failed {
        return None;
      }
      return Some(if r.roleName in roles then Fallback(roles[r.roleName], config.value).ttl else ttl);
    }

    /** The server's side of a renewal: refuse a disabled user, update, and read the group back. */
    method Extend(newExpire: int, group: string) returns (ok: bool)
      requires newExpire > 0
      modifies `user
      ensures user == old(user) || (user.Some? && old(user).Some? && user.value.expire == newExpire)
      ensures user.Some? ==> old(user).Some? && user.value.comment == old(user).value.comment
      ensures ok ==> user.Some? && user.value.enable && group in user.value.groups && user.value.expire == newExpire
      ensures old(user).None? || !old(user).value.enable ==> !ok && user == old(user)
      ensures calm && old(user).Some? && old(user).value.enable && !Blank(group) ==> ok
    {
      var before := GetUser();
      if before.None? || !before.value.enable {
        return false;
      }
      var updated := UpdateUser(Update(newExpire, group, true, true));
      if !updated {
        return false;
      }
      var info := GetUser();
      return info.Some? && group in info.value.groups;
    }

    /** secretTokenRevoke: yes means that the user is gone, and asking again changes nothing. */
    method Revoke() returns (ok: bool)
      requires Valid()
      modifies `user
      ensures Valid() && (old(Bounded()) ==> Bounded())
      ensures ok ==> user.None?
      ensures user == old(user) || user.None?
      ensures calm ==> ok
    {
      var extracted := Extract(data);
      if extracted.None? {
        return false;
      }
      var noClient := Fault();
      if noClient {
        return false;
      }
      ok := DeleteUser();
    }

    /** What happens between operations: operators do to the user, and to roles and config, what they like. */
    method Environment(op: Op)
      requires Valid() && (op.Operator? || op.Roles?)
      modifies `user, `roles, `config
      ensures Valid()
      ensures if op.Operator? then user == op.edit else user == old(user)
    {
      match op {
        case Roles(newRoles, newConfig) => roles, config := newRoles, newConfig;
        case Operator(edit) => user := edit;
        case _ =>
      }
    }

    /** From the k-th operation on no operator creates or edits the user. */
    predicate NoEditFrom(ops: seq<Op>, k: nat) {
      forall j :: k <= j < |ops| ==> !(ops[j].Operator? && ops[j].edit.Some?)
    }

    ghost predicate WithinFrom(ops: seq<Op>, k: nat) {
      forall j :: k <= j < |ops| ==> Within(ops[j])
    }

    /**
     Any history of a lease, whatever operators do in between. The expiry is bounded as long as
     no operator lifts it, and again from any successful renewal on; after the first revocation
     that said yes no renewal brings the user back.
     */
    method Live(ops: seq<Op>) returns (renewedAt: Option<nat>, revokedAt: Option<nat>)
      requires Valid() && forall k :: 0 <= k < |ops| && ops[k].Renewal? ==> ops[k].now >= 0
      modifies this
      ensures Valid()
      ensures old(Bounded()) && WithinFrom(ops, 0) ==> Bounded()
      ensures renewedAt.Some? ==>
                && renewedAt.value < |ops| && ops[renewedAt.value].Renewal? && 0 < ttl && maxTtl == recorded.maxTtl
                && (WithinFrom(ops, renewedAt.value) ==> Bounded())
      ensures revokedAt.Some? ==>
                && revokedAt.value < |ops| && ops[revokedAt.value] == Revocation
                && (NoEditFrom(ops, revokedAt.value) ==> user.None?)
      ensures renewedAt.None? ==> data == old(data) && ttl == old(ttl)
    {
      renewedAt, revokedAt := None, None;
      for k := 0 to |ops|
        invariant Valid()
        invariant old(Bounded()) && WithinFrom(ops[..k], 0) ==> Bounded()
        invariant renewedAt.Some? ==>
                    && renewedAt.value < k && ops[renewedAt.value].Renewal? && 0 < ttl && maxTtl == recorded.maxTtl
                    && (WithinFrom(ops[..k], renewedAt.value) ==> Bounded())
        invariant revokedAt.Some? ==>
                    && revokedAt.value < k && ops[revokedAt.value] == Revocation
                    && (NoEditFrom(ops[..k], revokedAt.value) ==> user.None?)
        invariant renewedAt.None? ==> data == old(data) && ttl == old(ttl)
      {
        assert ops[..k + 1] == ops[..k] + [ops[k]];
        OneOpMore(ops[..k], ops[k]);
        match ops[k] {
          case Renewal(increment, now) =>
            var ok := Renew(increment, now);
            renewedAt := if ok then Some(k) else renewedAt;
          case Revocation =>
            var ok := Revoke();
            if ok && revokedAt.None? {
              revokedAt := Some(k);
            }
          case _ =>
            Environment(ops[k]);
        }
      }
      assert ops[..|ops|] == ops;
    }

    lemma OneOpMore(ops: seq<Op>, op: Op)
      ensures forall k: nat :: k < |ops| && NoEditFrom(ops + [op], k) ==> NoEditFrom(ops, k) && !(op.Operator? && op.edit.Some?)
      ensures forall k: nat :: (k < |ops| || k == 0) && WithinFrom(ops + [op], k) ==> WithinFrom(ops, k) && Within(op)
    {
      forall k: nat | k < |ops| && NoEditFrom(ops + [op], k)
        ensures NoEditFrom(ops, k) && !(op.Operator? && op.edit.Some?)
      {
        assert (ops + [op])[|ops|] == op;
        assert forall j :: k <= j < |ops| ==> (ops + [op])[j] == ops[j];
      }
      forall k: nat | (k < |ops| || k == 0) && WithinFrom(ops + [op], k)
        ensures WithinFrom(ops, k) && Within(op)
      {
        assert (ops + [op])[|ops|] == op;
        assert forall j :: k <= j < |ops| ==> (ops + [op])[j] == ops[j];
      }
    }
  }
}
