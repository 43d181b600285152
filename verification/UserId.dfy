/**
 Names of the synthetic users: {prefix}-{role}-{suffix}@{realm}. A string is a sequence of
 Unicode scalar values; the limit of 64 counts the bytes of its UTF-8 form.
 */
module UserId {
  import opened Wrappers
  import Suffix
  import Text

  function Utf8Width(c: char): nat {
    var n := c as int;
    if n < 0x80 then 1 else if n < 0x800 then 2 else if n < 0x1_0000 then 3 else 4
  }

  function Utf8Len(s: string): (n: nat)
    ensures |s| <= n <= 4 * |s|
  {
    if s == "" then 0 else Utf8Len(s[..|s| - 1]) + Utf8Width(s[|s| - 1])
  }

  lemma {:induction false} Utf8LenConcat(a: string, b: string)
    ensures Utf8Len(a + b) == Utf8Len(a) + Utf8Len(b)
  {
    if b == "" {
      assert a + b == a;
    } else {
      Utf8LenConcat(a, b[..|b| - 1]);
      assert (a + b)[..|a + b| - 1] == a + b[..|b| - 1];
    }
  }

  lemma {:induction false} Utf8LenAscii(s: string)
    requires forall i :: 0 <= i < |s| ==> s[i] as int < 0x80
    ensures Utf8Len(s) == |s|
  {
    if s != "" {
      Utf8LenAscii(s[..|s| - 1]);
    }
  }

  /** The white space of the Unicode standard. */
  predicate IsSpace(c: char) {
    var n := c as int;
    || 0x09 <= n <= 0x0D || n == 0x20 || n == 0x85 || n == 0xA0 || n == 0x1680
    || 0x2000 <= n <= 0x200A || n == 0x2028 || n == 0x2029 || n == 0x202F || n == 0x205F || n == 0x3000
  }

  /** Characters that break the userid or the PVEAPIToken header. */
  predicate Forbidden(c: char) {
    c == ':' || c == '/' || c == '@' || c == '!' || c == '=' || IsSpace(c)
  }

  predicate ValidComponent(s: string) {
    s != "" && forall i :: 0 <= i < |s| ==> !Forbidden(s[i])
  }

  predicate IsLetter(c: char) {
    'A' <= c <= 'Z' || 'a' <= c <= 'z'
  }

  predicate IsDigit(c: char) {
    '0' <= c <= '9'
  }

  predicate RealmChar(c: char) {
    IsLetter(c) || IsDigit(c) || c == '.' || c == '-' || c == '_'
  }

  /** The realm grammar: a letter, then at least one letter, digit, dot, dash or underscore. */
  predicate ValidRealm(s: string) {
    |s| >= 2 && IsLetter(s[0]) && forall i :: 1 <= i < |s| ==> RealmChar(s[i])
  }

  /** Letters, digits, dots, dashes and underscores are always accepted. */
  lemma OrdinaryIsValid(s: string)
    requires s != ""
    requires forall i :: 0 <= i < |s| ==>
               'a' <= s[i] <= 'z' || 'A' <= s[i] <= 'Z' || '0' <= s[i] <= '9' || s[i] == '.' || s[i] == '-' || s[i] == '_'
    ensures ValidComponent(s)
    ensures ValidRealm(s) <==> |s| >= 2 && ('a' <= s[0] <= 'z' || 'A' <= s[0] <= 'Z')
  {
  }

  /** What is never accepted. */
  lemma SeparatorsAreInvalid(s: string, i: nat)
    requires i < |s|
    requires s[i] in {':', '/', '@', '!', '=', ' ', '\t', '\n', '\r'} || s[i] as int in {0x85, 0xA0, 0x2003, 0x3000}
    ensures !ValidComponent(s) && !ValidRealm(s)
  {
  }

  /** validateUserComponent. */
  method CheckComponent(s: string) returns (ok: bool)
    ensures ok <==> ValidComponent(s)
  {
    if s == "" {
      return false;
    }
    for i := 0 to |s|
      invariant forall j :: 0 <= j < i ==> !Forbidden(s[j])
    {
      var r := s[i];
      if r == ':' || r == '/' || r == '@' || r == '!' || r == '=' || IsSpace(r) {
        return false;
      }
    }
    return true;
  }

  /** validateRealmComponent. Its length test counts bytes, and still accepts exactly the grammar. */
  method CheckRealm(s: string) returns (ok: bool)
    ensures ok <==> ValidRealm(s)
  {
    if s == "" || Utf8Len(s) < 2 {
      if |s| == 1 {
        assert !ValidRealm(s);
      }
      return false;
    }
    if !IsLetter(s[0]) {
      return false;
    }
    if |s| == 1 {
      Utf8LenAscii(s);
    }
    for i := 1 to |s|
      invariant forall j :: 1 <= j < i ==> RealmChar(s[j])
    {
      if !IsLetter(s[i]) && !IsDigit(s[i]) && s[i] != '.' && s[i] != '-' && s[i] != '_' {
        return false;
      }
    }
    return true;
  }

  const MAX_LENGTH := 64

  /** validateLengthBudget. */
  predicate WithinBudget(prefix: string, role: string, realm: string) {
    Utf8Len(prefix) + 1 + Utf8Len(role) + 1 + 8 + 1 + Utf8Len(realm) <= MAX_LENGTH
  }

  function Build(prefix: string, role: string, suffix: string, realm: string): string {
    prefix + "-" + role + "-" + suffix + "@" + realm
  }

  /** The suffix and the realm read back from a userid. */
  function Parse(userid: string): Option<(string, string)> {
    var at := Text.LastIndex(userid, '@');
    if at < 8 then None else Some((userid[at - 8..at], userid[at + 1..]))
  }

  ghost predicate ValidParts(prefix: string, role: string, suffix: string, realm: string) {
    && ValidComponent(prefix) && ValidComponent(role) && ValidRealm(realm)
    && Suffix.IsSuffix(suffix) && WithinBudget(prefix, role, realm)
  }

  lemma SymbolIsAlphanumeric(c: char)
    requires c in Suffix.ALPHABET
    ensures '0' <= c <= '9' || 'a' <= c <= 'z'
  {
    Suffix.SymbolExactly(c);
  }

  lemma SymbolIsPlain(c: char)
    requires c in Suffix.ALPHABET
    ensures !Forbidden(c) && c as int < 0x80
  {
    SymbolIsAlphanumeric(c);
  }

  lemma SuffixIsPlain(suffix: string)
    requires Suffix.IsSuffix(suffix)
    ensures ValidComponent(suffix)
    ensures forall i :: 0 <= i < |suffix| ==> suffix[i] as int < 0x80
  {
    forall i | 0 <= i < |suffix|
      ensures !Forbidden(suffix[i]) && suffix[i] as int < 0x80
    {
      SymbolIsPlain(suffix[i]);
    }
  }

  /** A userid fits the limit of the server, 64 bytes, exactly when its parts are within the budget. */
  lemma BuildFits(prefix: string, role: string, suffix: string, realm: string)
    requires Suffix.IsSuffix(suffix)
    ensures Utf8Len(Build(prefix, role, suffix, realm)) <= 64 <==> WithinBudget(prefix, role, realm)
  {
    Utf8LenConcat(prefix, "-");
    Utf8LenConcat(prefix + "-", role);
    Utf8LenConcat(prefix + "-" + role, "-");
    Utf8LenConcat(prefix + "-" + role + "-", suffix);
    Utf8LenConcat(prefix + "-" + role + "-" + suffix, "@");
    Utf8LenConcat(prefix + "-" + role + "-" + suffix + "@", realm);
    SuffixIsPlain(suffix);
    Utf8LenAscii(suffix);
    Utf8LenAscii("-");
    Utf8LenAscii("@");
  }

  predicate Plain(s: string) {
    forall i :: 0 <= i < |s| ==> !Forbidden(s[i])
  }

  lemma RealmIsPlain(realm: string)
    requires ValidRealm(realm)
    ensures Plain(realm)
  {
  }

  lemma PlainJoined(a: string, b: string)
    requires Plain(a) && Plain(b)
    ensures Plain(a + "-" + b)
  {
    assert !Forbidden('-');
    hide Forbidden;
  }

  /** The one '@' of two plain parts is where they meet. */
  lemma OneAt(name: string, realm: string)
    requires Plain(name) && Plain(realm)
    ensures var u := name + "@" + realm;
            && Text.LastIndex(u, '@') == |name|
            && forall i :: 0 <= i < |u| ==> (Forbidden(u[i]) <==> i == |name|)
  {
    assert Forbidden('@');
    hide Forbidden;
    var u := name + "@" + realm;
    assert u[|name|] == '@';
    assert forall i :: |name| < i < |u| ==> u[i] == realm[i - |name| - 1];
  }

  /** One '@', nothing else that breaks a path or a header, and the parts read back. */
  lemma BuildParses(prefix: string, role: string, suffix: string, realm: string)
    requires ValidParts(prefix, role, suffix, realm)
    ensures var u := Build(prefix, role, suffix, realm);
            && Parse(u) == Some((suffix, realm))
            && (forall i :: 0 <= i < |u| ==>
                  (Forbidden(u[i]) <==> i == |u| - |realm| - 1))
            && u[|u| - |realm| - 1] == '@'
            && u[..|prefix| + |role| + 2] == prefix + "-" + role + "-"
  {
    SuffixIsPlain(suffix);
    RealmIsPlain(realm);
    assert Plain(prefix) && Plain(role) && Plain(suffix) && |suffix| == 8;
    hide Forbidden, ValidRealm, ValidComponent, ValidParts, WithinBudget, Utf8Len, Plain, Suffix.IsSuffix, Text.LastIndex;
    PlainJoined(prefix, role);
    PlainJoined(prefix + "-" + role, suffix);
    var name := prefix + "-" + role + "-" + suffix;
    OneAt(name, realm);
    PartsOf(prefix + "-" + role + "-", suffix, realm);
  }

  lemma PartsOf(head: string, suffix: string, realm: string)
    requires |suffix| == 8
    ensures var name := head + suffix;
            var u := name + "@" + realm;
            && u[|name| - 8..|name|] == suffix && u[|name| + 1..] == realm && u[|name|] == '@'
            && u[..|head|] == head
  {
  }

  /** Two leases of one role differ whenever their random bytes do. */
  lemma BuildInjective(prefix: string, role: string, realm: string, a: seq<Suffix.Byte>, b: seq<Suffix.Byte>)
    requires |a| == 5 && |b| == 5
    requires Build(prefix, role, Suffix.Encode(a), realm) == Build(prefix, role, Suffix.Encode(b), realm)
    ensures a == b
  {
    var n := |prefix| + 1 + |role| + 1;
    var u := Build(prefix, role, Suffix.Encode(a), realm);
    assert u[n..n + 8] == Suffix.Encode(a);
    assert Build(prefix, role, Suffix.Encode(b), realm)[n..n + 8] == Suffix.Encode(b);
    Suffix.EncodeInjective(a, b);
  }
}
