/**
 The permission tree of GET /access/permissions and the ancestor walk over it. The inner
 number is the propagate flag of a grant: an exact grant counts whatever its flag is, a
 grant on an ancestor only when the flag is non-zero.
 */
module Permissions {
  import opened Text

  type Tree = map<string, map<string, int>>

  /** strings.TrimRight(s, "/"). */
  function TrimSlashes(s: string): (t: string)
    ensures t <= s
    ensures t == "" || t[|t| - 1] != '/'
    ensures forall i :: |t| <= i < |s| ==> s[i] == '/'
  {
    if s == "" || s[|s| - 1] != '/' then s else TrimSlashes(s[..|s| - 1])
  }

  function Normalise(path: string): string {
    if TrimSlashes(path) == "" then "/" else TrimSlashes(path)
  }

  predicate Grants(t: Tree, path: string, priv: string) {
    path in t && priv in t[path]
  }

  predicate Propagates(t: Tree, path: string, priv: string) {
    Grants(t, path, priv) && t[path][priv] != 0
  }

  /** a is a proper ancestor of the normalised path p: a slash follows it, or it is the root. */
  predicate Ancestor(a: string, p: string) {
    && p != "/"
    && (a == "/" || (0 < |a| < |p| && a <= p && p[|a|] == '/'))
  }

  /** What a privilege check promises, with no walk in it. */
  ghost predicate Effective(t: Tree, path: string, priv: string) {
    var p := Normalise(path);
    Grants(t, p, priv) || exists a :: Ancestor(a, p) && Propagates(t, a, priv)
  }

  function Parent(s: string): string {
    var idx := LastIndex(s, '/');
    if idx <= 0 then "/" else s[..idx]
  }

  /** The ancestors of p seen from s: those no longer than s. */
  ghost predicate Below(a: string, s: string, p: string) {
    Ancestor(a, p) && (s == "/" ==> a == "/") && (s != "/" ==> a == "/" || |a| <= |s|)
  }

  /** Leaving s for its parent skips no ancestor. */
  lemma ParentSkipsNothing(a: string, s: string, p: string)
    requires s == p || Ancestor(s, p)
    requires s != "/" && s != "" && Ancestor(a, p) && a != s
    requires a == "/" || |a| <= |s|
    ensures Below(a, Parent(s), p)
  {
    var idx := LastIndex(s, '/');
    assert s <= p;
    if a != "/" {
      assert a == p[..|a|] && s == p[..|s|];
      assert |a| < |s| && s[|a|] == '/';
      assert a == s[..|a|];
    }
  }

  lemma ParentIsAncestor(s: string, p: string)
    requires s == p || Ancestor(s, p)
    requires s != "/" && s != ""
    ensures Ancestor(Parent(s), p)
    ensures Parent(s) == "/" || 0 < |Parent(s)| < |s|
  {
    var idx := LastIndex(s, '/');
    assert s <= p;
    if idx > 0 {
      assert p[idx] == s[idx];
      assert s[..idx] <= p;
    }
  }

  /** HasPrivilege: the walk from the path to the root. */
  method HasPrivilege(t: Tree, path: string, priv: string) returns (r: bool)
    ensures r <==> Effective(t, path, priv)
  {
    var p := TrimSlashes(path);
    if p == "" {
      p := "/";
    }
    var current := p;
    while true
      invariant p == Normalise(path) && current != ""
      invariant current == p || Ancestor(current, p)
      invariant current != p ==> !Grants(t, p, priv)
      invariant forall a :: Ancestor(a, p) && Propagates(t, a, priv) ==> Below(a, current, p)
      decreases if current == "/" then 0 else |current|
    {
      if current in t && priv in t[current] {
        if current == p {
          return true;
        }
        if t[current][priv] != 0 {
          assert Ancestor(current, p) && Propagates(t, current, priv);
          return true;
        }
      }
      if current == "/" {
        break;
      }
      ParentIsAncestor(current, p);
      forall a | Ancestor(a, p) && Propagates(t, a, priv)
        ensures Below(a, Parent(current), p)
      {
        ParentSkipsNothing(a, current, p);
      }
      var idx := LastIndex(current, '/');
      if idx <= 0 {
        current := "/";
      } else {
        current := current[..idx];
      }
    }
    return false;
  }

  /** What a single grant is worth: on the path itself always, above it only when it propagates. */
  lemma OneGrant(a: string, priv: string, flag: int, path: string)
    requires path != "" && path[|path| - 1] != '/'
    ensures Effective(map[a := map[priv := flag]], path, priv) <==>
            a == path || (flag != 0 && (a == "/" || (a != "" && a + "/" <= path)))
  {
    var t: Tree := map[a := map[priv := flag]];
    assert Normalise(path) == path;
    assert a + "/" <= path <==> |a| < |path| && a <= path && path[|a|] == '/';
    if Propagates(t, a, priv) && Ancestor(a, path) {
      assert Effective(t, path, priv);
    }
  }

  /** t2 has every grant of t1, with no flag lowered to zero. */
  ghost predicate Extends(t1: Tree, t2: Tree) {
    forall path, priv :: Grants(t1, path, priv) ==>
      Grants(t2, path, priv) && (Propagates(t1, path, priv) ==> Propagates(t2, path, priv))
  }

  /** Adding grants and raising flags never takes a privilege away. */
  lemma EffectiveMonotone(t1: Tree, t2: Tree, path: string, priv: string)
    requires Extends(t1, t2) && Effective(t1, path, priv)
    ensures Effective(t2, path, priv)
  {
    var p := Normalise(path);
    if !Grants(t1, p, priv) {
      var a :| Ancestor(a, p) && Propagates(t1, a, priv);
      assert Grants(t1, a, priv);
      assert Propagates(t2, a, priv);
    }
  }
}
