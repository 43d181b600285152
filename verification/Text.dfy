/** Looking for text in text. */
module Text {

  /** The last position of c in s, or -1. */
  function LastIndex(s: string, c: char): (i: int)
    ensures -1 <= i < |s|
    ensures i >= 0 ==> s[i] == c
    ensures forall j :: i < j < |s| ==> s[j] != c
  {
    if s == [] then -1
    else if s[|s| - 1] == c then |s| - 1
    else LastIndex(s[..|s| - 1], c)
  }

  predicate StartsWith(s: string, t: string) {
    |t| <= |s| && s[..|t|] == t
  }

  predicate EndsWith(s: string, t: string) {
    |t| <= |s| && s[|s| - |t|..] == t
  }

  predicate At(text: string, phrase: string, i: int) {
    0 <= i <= |text| - |phrase| && text[i..i + |phrase|] == phrase
  }

  predicate Contains(text: string, phrase: string) {
    exists i :: 0 <= i <= |text| && At(text, phrase, i)
  }

  /** strings.Join(parts, " "). */
  function Joined(parts: seq<string>): string {
    if parts == [] then "" else if |parts| == 1 then parts[0]
    else Joined(parts[..|parts| - 1]) + " " + parts[|parts| - 1]
  }

  // ---- What two texts say together ----

  /** The phrase breaks at its k-th character, a space: a ends with one half, b starts with the other. */
  predicate BreaksAt(a: string, b: string, phrase: string, k: int) {
    0 <= k < |phrase| && phrase[k] == ' ' && EndsWith(a, phrase[..k]) && StartsWith(b, phrase[k + 1..])
  }

  lemma ContainsAcross(a: string, b: string, phrase: string)
    requires phrase != ""
    ensures Contains(a + " " + b, phrase) <==>
            Contains(a, phrase) || Contains(b, phrase) || exists k :: BreaksAt(a, b, phrase, k)
  {
    var s, n := a + " " + b, |phrase|;
    if Contains(s, phrase) {
      var i :| 0 <= i <= |s| && At(s, phrase, i);
      if i + n <= |a| {
        assert s[i..i + n] == a[i..i + n];
        assert At(a, phrase, i);
      } else if i > |a| {
        assert s[|a| + 1..] == b;
        assert s[i..i + n] == s[|a| + 1..][i - |a| - 1..i - |a| - 1 + n];
        assert At(b, phrase, i - |a| - 1);
      } else {
        AtBreak(a, b, phrase, i);
      }
    }
    if Contains(a, phrase) {
      var i :| 0 <= i <= |a| && At(a, phrase, i);
      assert s[i..i + n] == a[i..i + n];
      assert At(s, phrase, i);
    }
    if Contains(b, phrase) {
      var i :| 0 <= i <= |b| && At(b, phrase, i);
      assert s[|a| + 1 + i..|a| + 1 + i + n] == b[i..i + n];
      assert At(s, phrase, |a| + 1 + i);
    }
    if k :| BreaksAt(a, b, phrase, k) {
      BreakIsAt(a, b, phrase, k);
    }
  }

  lemma AtBreak(a: string, b: string, phrase: string, i: int)
    requires At(a + " " + b, phrase, i) && i <= |a| < i + |phrase|
    ensures BreaksAt(a, b, phrase, |a| - i)
  {
    var s, k := a + " " + b, |a| - i;
    assert phrase[k] == s[i..i + |phrase|][k] == s[|a|];
    assert a[|a| - k..] == s[i..|a|] == s[i..i + |phrase|][..k];
    var m := |phrase| - k - 1;
    assert b[..m] == s[|a| + 1..|a| + 1 + m] == s[i..i + |phrase|][k + 1..];
  }

  lemma BreakIsAt(a: string, b: string, phrase: string, k: int)
    requires BreaksAt(a, b, phrase, k)
    ensures Contains(a + " " + b, phrase)
  {
    var s, i := a + " " + b, |a| - k;
    assert phrase == phrase[..k] + " " + phrase[k + 1..];
    assert s[i..i + |phrase|] == a[i..] + " " + b[..|phrase| - k - 1];
    assert At(s, phrase, i);
  }

  /** A single word. */
  predicate Word(w: string) {
    w != "" && ' ' !in w
  }

  lemma EndsWithWord(a: string, b: string, w: string)
    requires Word(w)
    ensures EndsWith(a + " " + b, w) <==> EndsWith(b, w)
  {
    var s := a + " " + b;
    if |b| < |w| <= |s| {
      assert s[|s| - |w|..][|w| - |b| - 1] == s[|a|] == ' ';
    } else if |w| <= |b| {
      assert s[|s| - |w|..] == b[|b| - |w|..];
    }
  }

  lemma EndsWithTwoWords(a: string, b: string, v: string, w: string)
    requires Word(v) && Word(w)
    ensures EndsWith(a + " " + b, v + " " + w) <==> EndsWith(b, v + " " + w) || (b == w && EndsWith(a, v))
  {
    var s, p := a + " " + b, v + " " + w;
    if |p| <= |b| {
      assert s[|s| - |p|..] == b[|b| - |p|..];
    } else if EndsWith(s, p) {
      assert s[|s| - |p|..][|p| - |b| - 1] == s[|a|] == ' ';
      assert p[|p| - |b| - 1] == ' ';
      OnlySpace(v, w, |p| - |b| - 1);
      assert b == s[|s| - |b|..] == p[|p| - |b|..] == w;
      assert a[|a| - |v|..] == s[|s| - |p|..][..|v|] == v;
    }
    if b == w && EndsWith(a, v) {
      assert s[|s| - |p|..] == a[|a| - |v|..] + " " + b;
    }
  }

  lemma OnlySpace(v: string, w: string, k: nat)
    requires Word(v) && Word(w) && k < |v + " " + w|
    ensures (v + " " + w)[k] == ' ' <==> k == |v|
  {
    var p := v + " " + w;
    assert k < |v| ==> p[k] == v[k];
    assert k > |v| ==> p[k] == w[k - |v| - 1];
  }

  // ---- What the parts of a joined text say ----

  predicate PairAt(parts: seq<string>, i: nat, left: string, right: string) {
    i + 1 < |parts| && EndsWith(parts[i], left) && StartsWith(parts[i + 1], right)
  }

  predicate TripleAt(parts: seq<string>, i: nat, left: string, middle: string, right: string) {
    i + 2 < |parts| && EndsWith(parts[i], left) && parts[i + 1] == middle && StartsWith(parts[i + 2], right)
  }

  /** Some part says it. */
  predicate InOnePart(parts: seq<string>, phrase: string) {
    exists i :: 0 <= i < |parts| && Contains(parts[i], phrase)
  }

  /** Two neighbours say it together. */
  predicate InPair(parts: seq<string>, left: string, right: string) {
    exists i :: 0 <= i < |parts| && PairAt(parts, i, left, right)
  }

  /** Three neighbours say it together. */
  predicate InTriple(parts: seq<string>, left: string, middle: string, right: string) {
    exists i :: 0 <= i < |parts| && TripleAt(parts, i, left, middle, right)
  }

  /** What the last part adds. */
  lemma OneMore(parts: seq<string>, phrase: string, left: string, right: string, x: string, y: string, z: string)
    requires |parts| >= 2
    ensures var front, n := parts[..|parts| - 1], |parts|;
            && (InOnePart(parts, phrase) <==> InOnePart(front, phrase) || Contains(parts[n - 1], phrase))
            && (InPair(parts, left, right) <==> InPair(front, left, right) || PairAt(parts, n - 2, left, right))
            && (InTriple(parts, x, y, z) <==> InTriple(front, x, y, z) || (n >= 3 && TripleAt(parts, n - 3, x, y, z)))
  {
    hide Contains, StartsWith, EndsWith;
    var front, n := parts[..|parts| - 1], |parts|;
    assert forall i :: 0 <= i < n - 1 ==> front[i] == parts[i];
    assert forall i: nat :: i < n - 2 ==> (PairAt(front, i, left, right) <==> PairAt(parts, i, left, right));
    assert forall i: nat :: i < n - 3 ==> (TripleAt(front, i, x, y, z) <==> TripleAt(parts, i, x, y, z));
  }

  lemma JoinedEnds(parts: seq<string>, v: string, w: string)
    requires parts != [] && Word(v) && Word(w)
    ensures EndsWith(Joined(parts), v) <==> EndsWith(parts[|parts| - 1], v)
    ensures EndsWith(Joined(parts), v + " " + w) <==>
            EndsWith(parts[|parts| - 1], v + " " + w)
            || (|parts| >= 2 && parts[|parts| - 1] == w && EndsWith(parts[|parts| - 2], v))
  {
    hide EndsWith;
    if |parts| >= 2 {
      var front, last := parts[..|parts| - 1], parts[|parts| - 1];
      EndsWithWord(Joined(front), last, v);
      EndsWithTwoWords(Joined(front), last, v, w);
      JoinedEndsWord(front, v);
    }
  }

  lemma JoinedEndsWord(parts: seq<string>, v: string)
    requires parts != [] && Word(v)
    ensures EndsWith(Joined(parts), v) <==> EndsWith(parts[|parts| - 1], v)
  {
    if |parts| >= 2 {
      EndsWithWord(Joined(parts[..|parts| - 1]), parts[|parts| - 1], v);
    }
  }

  lemma BreakOfTwo(a: string, b: string, v: string, w: string)
    requires Word(v) && Word(w)
    ensures (exists k :: BreaksAt(a, b, v + " " + w, k)) <==> EndsWith(a, v) && StartsWith(b, w)
  {
    var p := v + " " + w;
    assert p[..|v|] == v && p[|v| + 1..] == w;
    if k :| BreaksAt(a, b, p, k) {
      OnlySpace(v, w, k);
    }
    if EndsWith(a, v) && StartsWith(b, w) {
      assert BreaksAt(a, b, p, |v|);
    }
  }

  lemma BreakOfThree(a: string, b: string, v: string, w: string, x: string)
    requires Word(v) && Word(w) && Word(x)
    ensures (exists k :: BreaksAt(a, b, v + " " + w + " " + x, k)) <==>
            (EndsWith(a, v) && StartsWith(b, w + " " + x)) || (EndsWith(a, v + " " + w) && StartsWith(b, x))
  {
    var p := v + " " + w + " " + x;
    var m := |v| + 1 + |w|;
    assert p[..|v|] == v && p[|v| + 1..] == w + " " + x;
    assert p[..m] == v + " " + w && p[m + 1..] == x;
    assert forall k :: m < k < |p| ==> p[k] == x[k - m - 1];
    if k :| BreaksAt(a, b, p, k) {
      if k < m {
        assert (v + " " + w)[k] == p[k];
        OnlySpace(v, w, k);
      }
    }
    if EndsWith(a, v) && StartsWith(b, w + " " + x) {
      assert BreaksAt(a, b, p, |v|);
    }
    if EndsWith(a, v + " " + w) && StartsWith(b, x) {
      assert BreaksAt(a, b, p, m);
    }
  }

  /** A joined text says two words exactly when a part does, or two neighbours share them. */
  lemma {:induction false} TwoWordsJoined(parts: seq<string>, v: string, w: string)
    requires Word(v) && Word(w)
    ensures Contains(Joined(parts), v + " " + w) <==> InOnePart(parts, v + " " + w) || InPair(parts, v, w)
  {
    if |parts| == 1 {
      assert InOnePart(parts, v + " " + w) <==> Contains(parts[0], v + " " + w);
    } else if |parts| >= 2 {
      hide Contains, EndsWith, StartsWith, InOnePart, InPair, BreaksAt;
      var front, last := parts[..|parts| - 1], parts[|parts| - 1];
      TwoWordsJoined(front, v, w);
      ContainsAcross(Joined(front), last, v + " " + w);
      BreakOfTwo(Joined(front), last, v, w);
      JoinedEndsWord(front, v);
      OneMore(parts, v + " " + w, v, w, v, v, w);
    }
  }

  /** Three words: in a part, broken over two neighbours in one of two ways, or over three. */
  lemma {:induction false} ThreeWordsJoined(parts: seq<string>, v: string, w: string, x: string)
    requires Word(v) && Word(w) && Word(x)
    ensures Contains(Joined(parts), v + " " + w + " " + x) <==>
            || InOnePart(parts, v + " " + w + " " + x)
            || InPair(parts, v + " " + w, x) || InPair(parts, v, w + " " + x)
            || InTriple(parts, v, w, x)
  {
    var p := v + " " + w + " " + x;
    if |parts| == 1 {
      assert InOnePart(parts, p) <==> Contains(parts[0], p);
    } else if |parts| >= 2 {
      hide Contains, EndsWith, StartsWith, InOnePart, InPair, InTriple, BreaksAt;
      var front, last := parts[..|parts| - 1], parts[|parts| - 1];
      ThreeWordsJoined(front, v, w, x);
      ContainsAcross(Joined(front), last, p);
      BreakOfThree(Joined(front), last, v, w, x);
      JoinedEnds(front, v, w);
      OneMore(parts, p, v + " " + w, x, v, w, x);
      OneMore(parts, p, v, w + " " + x, v, w, x);
    }
  }
}
