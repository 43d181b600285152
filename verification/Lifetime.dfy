/**
 Lease lifetimes as arithmetic. Durations and instants are nanoseconds, role and config
 values seconds, the expiry on the server a Unix time in seconds. 0 means "no bound set".
 */
module Lifetime {
  import opened Wrappers

  const SECOND := 1_000_000_000
  const GRACE := 60   // expireGraceSecs

  datatype Ttls = Ttls(ttl: int, maxTtl: int)

  /** (*proxmoxRole).ttls: the config value is a fallback, not a cap. */
  function Fallback(role: Ttls, config: Ttls): Ttls {
    Ttls(SECOND * (if role.ttl == 0 then config.ttl else role.ttl),
         SECOND * (if role.maxTtl == 0 then config.maxTtl else role.maxTtl))
  }

  /** cappedMaxTTL. */
  function CappedMax(roleMax: int, sysMax: int): int {
    if roleMax == 0 then sysMax
    else if sysMax == 0 then roleMax
    else if roleMax < sysMax then roleMax else sysMax
  }

  /** m is the strictest of the bounds that are set, or 0 when none is. */
  predicate StrictestBound(m: int, bounds: seq<int>) {
    && (forall i :: 0 <= i < |bounds| && bounds[i] != 0 ==> m != 0 && m <= bounds[i])
    && (m != 0 ==> m in bounds)
  }

  lemma CappedMaxIsStrictest(roleMax: int, sysMax: int)
    requires roleMax >= 0 && sysMax >= 0
    ensures StrictestBound(CappedMax(roleMax, sysMax), [roleMax, sysMax])
  {
    var m := CappedMax(roleMax, sysMax);
    assert m == [roleMax, sysMax][0] || m == [roleMax, sysMax][1];
  }

  /**
   framework.CalculateTTL as its callers rely on it: the requested lifetime, cut at the
   maximum counted from the start; nothing once the maximum is past.
   */
  function CalculateTtl(increment: int, backendTtl: int, backendMax: int, sysDefault: int, sysMax: int,
                        start: int, now: int): Option<int>
  {
    var cap := if 0 < backendMax < sysMax then backendMax else sysMax;
    var requested := if increment > 0 then increment else if backendTtl > 0 then backendTtl else sysDefault;
    var remaining := start + cap - now;
    if cap <= 0 || remaining <= 0 then None
    else if requested > remaining then Some(remaining) else Some(requested)
  }

  /** Time.Unix: whole seconds, rounded down. */
  function Unix(instant: int): int {
    instant / SECOND
  }

  function ExpireAt(now: int, ttl: int): int {
    Unix(now + ttl) + GRACE
  }

  /** A server-side expiry that exists and stays within the maximum lifetime plus the grace. */
  predicate Backstop(expire: int, start: int, max: int) {
    0 < expire && expire * SECOND <= start + max + GRACE * SECOND
  }

  datatype Grant = Grant(ttl: int, maxTtl: int, expire: int)

  /** The lifetime part of handleCredsRead; a lifetime of zero is refused. */
  function ForIssue(role: Ttls, config: Ttls, sysDefault: int, sysMax: int, now: int): Option<Grant> {
    var backend := Fallback(role, config);
    var ttl := CalculateTtl(0, backend.ttl, backend.maxTtl, sysDefault, sysMax, now, now);
    if ttl.None? || ttl.value <= 0 then None
    else Some(Grant(ttl.value, CappedMax(backend.maxTtl, sysMax), ExpireAt(now, ttl.value)))
  }

  /** What checked roles and configs and Vault's own settings always satisfy. */
  predicate Sensible(role: Ttls, config: Ttls, sysDefault: int, sysMax: int, now: int) {
    && sysMax > 0 && sysDefault >= 0 && now >= 0
    && role.ttl >= 0 && role.maxTtl >= 0 && config.ttl >= 0 && config.maxTtl >= 0
  }

  /** The first of the values that is set, or 0. */
  function FirstSet(a: int, b: int, c: int): int {
    if a != 0 then a else if b != 0 then b else c
  }

  /**
   Issuance grants the first lifetime that is set, cut at the strictest maximum that is set,
   and is refused exactly when none is set; the expiry exists and is bounded.
   */
  lemma IssueBounded(role: Ttls, config: Ttls, sysDefault: int, sysMax: int, now: int, issueTime: int)
    requires Sensible(role, config, sysDefault, sysMax, now) && now <= issueTime
    ensures var grant := ForIssue(role, config, sysDefault, sysMax, now);
            var wanted := FirstSet(1_000_000_000 * role.ttl, 1_000_000_000 * config.ttl, sysDefault);
            && (grant.None? <==> wanted == 0)
            && (grant.Some? ==>
                  && 0 < grant.value.ttl <= grant.value.maxTtl
                  && grant.value.ttl == (if wanted <= grant.value.maxTtl then wanted else grant.value.maxTtl)
                  && StrictestBound(grant.value.maxTtl, [FirstSet(SECOND * role.maxTtl, SECOND * config.maxTtl, 0), sysMax])
                  && Backstop(grant.value.expire, issueTime, grant.value.maxTtl)
                  && grant.value.expire == (now + grant.value.ttl) / 1_000_000_000 + 60
                  && now + grant.value.ttl < grant.value.expire * SECOND)
  {
    CappedMaxIsStrictest(FirstSet(SECOND * role.maxTtl, SECOND * config.maxTtl, 0), sysMax);
  }

  /** No increment, no role and no clock can carry the expiry past the maximum; the server's expiry outlasts the lease. */
  lemma RenewBounded(increment: int, backendTtl: int, max: int, sysDefault: int, sysMax: int, issueTime: int, now: int)
    requires sysMax > 0 && max > 0 && now >= 0
    ensures var ttl := CalculateTtl(increment, backendTtl, max, sysDefault, sysMax, issueTime, now);
            ttl.Some? && ttl.value > 0 ==>
              && now + ttl.value <= issueTime + max && Backstop(ExpireAt(now, ttl.value), issueTime, max)
              && ExpireAt(now, ttl.value) == (now + ttl.value) / 1_000_000_000 + 60
              && now + ttl.value < ExpireAt(now, ttl.value) * SECOND
  {
  }
}
