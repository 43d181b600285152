/**
 API token names. Proxmox VE addresses a token by the pair (user, token) and prints the
 pair as user!token; the engine stores the printed form and splits it again before every
 delete, so a wrong split would delete some other token.
 */
module TokenId {
  import opened Text
  import opened Wrappers

  datatype Parts = Parts(user: string, token: string)

  /** Both halves are present and the token half holds no separator. */
  predicate WellFormed(p: Parts) {
    p.user != "" && p.token != "" && '!' !in p.token
  }

  function Join(user: string, token: string): string {
    user + "!" + token
  }

  /** splitTokenID: everything before the last '!' and everything after it. */
  function Split(id: string): (r: Option<Parts>)
    ensures r.Some? ==> WellFormed(r.value) && Join(r.value.user, r.value.token) == id
  {
    var idx := LastIndex(id, '!');
    if idx <= 0 || idx == |id| - 1 then None else Some(Parts(id[..idx], id[idx + 1..]))
  }

  /** Splitting undoes joining, for every well-formed pair. */
  lemma SplitInvertsJoin(user: string, token: string)
    requires WellFormed(Parts(user, token))
    ensures Split(Join(user, token)) == Some(Parts(user, token))
  {
    var id := Join(user, token);
    assert id[|user|] == '!';
    assert forall j :: |user| < j < |id| ==> id[j] == token[j - |user| - 1];
    assert LastIndex(id, '!') == |user|;
    assert id[..|user|] == user && id[|user| + 1..] == token;
  }

  /** A name is accepted exactly when it is some well-formed pair, printed. */
  lemma SplitAcceptsExactly(id: string)
    ensures Split(id).Some? <==>
            exists k :: 0 < k < |id| - 1 && id[k] == '!' && '!' !in id[k + 1..]
  {
    var idx := LastIndex(id, '!');
    forall k | 0 <= k < idx && id[k] == '!'
      ensures '!' in id[k + 1..]
    {
      assert id[k + 1..][idx - k - 1] == '!';
    }
    if Split(id).Some? {
      assert 0 < idx < |id| - 1 && id[idx] == '!' && '!' !in id[idx + 1..];
    }
  }

  /** Two names that split to the same pair are the same name. */
  lemma SplitInjective(a: string, b: string)
    requires Split(a).Some? && Split(a) == Split(b)
    ensures a == b
  {
    assert Join(Split(a).value.user, Split(a).value.token) == b;
  }
}
