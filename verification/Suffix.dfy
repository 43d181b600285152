/**
 The random suffix: five random bytes read as one 40-bit number and written with eight
 symbols of a 32-symbol alphabet. The 64-bit accumulator of the source never holds more
 than 40 bits, so its shift-and-or is multiplication and addition here.
 */
module Suffix {
  import Text

  const ALPHABET := "0123456789abcdefghjkmnpqrstvwxyz"

  type Byte = b: nat | b < 256

  /** The two radixes in play: a byte and a symbol. */
  type Radix = r: nat | r == 32 || r == 256 witness 32

  function Times(base: Radix, x: nat): (p: nat)
    ensures p >= x && (x > 0 ==> p >= base)
  {
    if base == 32 then 32 * x else 256 * x
  }

  function Over(v: nat, base: Radix): (q: nat)
    ensures q <= v
  {
    if base == 32 then v / 32 else v / 256
  }

  function Rest(v: nat, base: Radix): (d: nat)
    ensures d < base && v == Times(base, Over(v, base)) + d
  {
    if base == 32 then v % 32 else v % 256
  }

  function Pow(base: Radix, n: nat): nat {
    if n == 0 then 1 else Times(base, Pow(base, n - 1))
  }

  /** Every digit is below the base. */
  predicate Digital(ds: seq<nat>, base: Radix) {
    forall i :: 0 <= i < |ds| ==> ds[i] < base
  }

  /** The number that the digits spell, most significant first. */
  function Horner(ds: seq<nat>, base: Radix): nat {
    if ds == [] then 0 else Times(base, Horner(ds[..|ds| - 1], base)) + ds[|ds| - 1]
  }

  /** The last n digits of v. */
  function Digits(v: nat, base: Radix, n: nat): (ds: seq<nat>)
    ensures |ds| == n && Digital(ds, base)
  {
    if n == 0 then [] else Digits(Over(v, base), base, n - 1) + [Rest(v, base)]
  }

  lemma {:induction false} DigitsOfHorner(ds: seq<nat>, base: Radix)
    requires Digital(ds, base)
    ensures Digits(Horner(ds, base), base, |ds|) == ds
  {
    hide Over, Rest, Times;
    if ds != [] {
      var front, last := ds[..|ds| - 1], ds[|ds| - 1];
      DigitsOfHorner(front, base);
      LastDigit(Horner(front, base), last, base);
      assert ds == front + [last];
    }
  }

  lemma LastDigit(v: nat, d: nat, base: Radix)
    requires d < base
    ensures Over(Times(base, v) + d, base) == v && Rest(Times(base, v) + d, base) == d
  {
  }

  lemma {:induction false} HornerBounded(ds: seq<nat>, base: Radix)
    requires Digital(ds, base)
    ensures Horner(ds, base) < Pow(base, |ds|)
  {
    if ds != [] {
      HornerBounded(ds[..|ds| - 1], base);
    }
  }

  lemma {:induction false} HornerOfDigits(v: nat, base: Radix, n: nat)
    requires v < Pow(base, n)
    ensures Horner(Digits(v, base, n), base) == v
  {
    if n > 0 {
      HornerOfDigits(Over(v, base), base, n - 1);
      var ds := Digits(v, base, n);
      assert ds[..|ds| - 1] == Digits(Over(v, base), base, n - 1);
    }
  }

  /** Five bytes and eight symbols carry the same number of bits. */
  lemma SameCapacity()
    ensures Pow(256, 5) == Pow(32, 8)
  {
    assert Pow(256, 3) == 16777216;
    assert Pow(32, 4) == 1048576;
  }

  predicate IsSuffix(s: string) {
    |s| == 8 && forall i :: 0 <= i < |s| ==> s[i] in ALPHABET
  }

  function Symbols(ds: seq<nat>): (s: string)
    requires Digital(ds, 32)
    ensures |s| == |ds| && forall i :: 0 <= i < |s| ==> s[i] == ALPHABET[ds[i]]
  {
    seq(|ds|, i requires 0 <= i < |ds| => ALPHABET[ds[i]])
  }

  /** What randomSuffix writes for the bytes it drew. */
  function Encode(bytes: seq<Byte>): (s: string)
    requires |bytes| == 5
    ensures IsSuffix(s)
  {
    Symbols(Digits(Horner(bytes, 256), 32, 8))
  }

  function Values(s: string): (ds: seq<nat>)
    requires forall i :: 0 <= i < |s| ==> s[i] in ALPHABET
    ensures |ds| == |s| && Digital(ds, 32)
    ensures forall i :: 0 <= i < |s| ==> ALPHABET[ds[i]] == s[i]
  {
    seq(|s|, i requires 0 <= i < |s| => Text.LastIndex(ALPHABET, s[i]))
  }

  /** The decoder that the source never needs: it recovers the drawn bytes. */
  function Decode(s: string): (bytes: seq<Byte>)
    requires IsSuffix(s)
    ensures |bytes| == 5
  {
    Digits(Horner(Values(s), 32), 256, 5)
  }

  lemma {:induction false} AlphabetRises(d: nat, e: nat)
    requires d < e < 32
    ensures ALPHABET[d] < ALPHABET[e]
  {
    assert ALPHABET[e - 1] < ALPHABET[e];
    if d < e - 1 {
      AlphabetRises(d, e - 1);
    }
  }

  lemma AlphabetDistinct(d: nat, e: nat)
    requires d < 32 && e < 32 && ALPHABET[d] == ALPHABET[e]
    ensures d == e
  {
    if d < e {
      AlphabetRises(d, e);
    } else if e < d {
      AlphabetRises(e, d);
    }
  }

  /** The k-th symbol: the digits, then the small letters without i, l, o and u. */
  function Symbol(k: nat): char
    requires k < 32
  {
    if k < 10 then '0' + k as char
    else if k < 18 then 'a' + (k - 10) as char
    else if k < 20 then 'j' + (k - 18) as char
    else if k < 22 then 'm' + (k - 20) as char
    else if k < 27 then 'p' + (k - 22) as char
    else 'v' + (k - 27) as char
  }

  lemma SymbolAt(k: nat)
    requires k < 32
    ensures ALPHABET[k] == Symbol(k)
  {
  }

  /** The alphabet: the digits and the small letters but i, l, o and u. */
  lemma SymbolExactly(c: char)
    ensures c in ALPHABET <==> '0' <= c <= '9' || ('a' <= c <= 'z' && c != 'i' && c != 'l' && c != 'o' && c != 'u')
  {
    if c in ALPHABET {
      var k :| 0 <= k < 32 && ALPHABET[k] == c;
      SymbolAt(k);
    }
    var k := c as int -
      if c <= '9' then '0' as int
      else if c <= 'h' then 'a' as int - 10
      else if c <= 'k' then 'j' as int - 18
      else if c <= 'n' then 'm' as int - 20
      else if c <= 't' then 'p' as int - 22
      else 'v' as int - 27;
    if 0 <= k < 32 {
      SymbolAt(k);
    }
  }

  /** The packing is a bijection between five bytes and eight symbols. */
  lemma DecodeInvertsEncode(bytes: seq<Byte>)
    requires |bytes| == 5
    ensures Decode(Encode(bytes)) == bytes
  {
    var v := Horner(bytes, 256);
    var ds := Digits(v, 32, 8);
    DigitsOfHorner(bytes, 256);
    HornerBounded(bytes, 256);
    SameCapacity();
    HornerOfDigits(v, 32, 8);
    var back := Values(Encode(bytes));
    forall i | 0 <= i < 8
      ensures back[i] == ds[i]
    {
      AlphabetDistinct(back[i], ds[i]);
    }
    assert back == ds;
  }

  lemma EncodeInvertsDecode(s: string)
    requires IsSuffix(s)
    ensures Encode(Decode(s)) == s
  {
    var v := Horner(Values(s), 32);
    DigitsOfHorner(Values(s), 32);
    HornerBounded(Values(s), 32);
    SameCapacity();
    HornerOfDigits(v, 256, 5);
    assert Digits(v, 32, 8) == Values(s);
  }

  /** The last byte weighs least, and so does the last symbol. */
  lemma EncodeOfOne()
    ensures Encode([0, 0, 0, 0, 1]) == "00000001"
  {
    hide Horner, Encode, Digits, Symbols;
    HornerOfFive(0, 0, 0, 0, 1);
    HornerOfEight(0, 0, 0, 0, 0, 0, 0, 1);
    EncodeIs([0, 0, 0, 0, 1], [0, 0, 0, 0, 0, 0, 0, 1], "00000001");
  }

  /** The first byte weighs most, and so does the first symbol. */
  lemma EncodeOfHigh()
    ensures Encode([1, 0, 0, 0, 0]) == "04000000"
  {
    hide Horner, Encode, Digits, Symbols;
    HornerOfFive(1, 0, 0, 0, 0);
    HornerOfEight(0, 4, 0, 0, 0, 0, 0, 0);
    EncodeIs([1, 0, 0, 0, 0], [0, 4, 0, 0, 0, 0, 0, 0], "04000000");
  }

  /** The suffix is the one whose symbols spell the same number. */
  lemma EncodeIs(bytes: seq<Byte>, ds: seq<nat>, s: string)
    requires |bytes| == 5 && |ds| == |s| == 8 && Digital(ds, 32) && Horner(ds, 32) == Horner(bytes, 256)
    requires forall i :: 0 <= i < 8 ==> s[i] == ALPHABET[ds[i]]
    ensures Encode(bytes) == s
  {
    DigitsOfHorner(ds, 32);
  }

  lemma HornerSnoc(ds: seq<nat>, d: nat, base: Radix)
    ensures Horner(ds + [d], base) == base * Horner(ds, base) + d
  {
    assert (ds + [d])[..|ds|] == ds;
  }

  lemma HornerOfFive(a: nat, b: nat, c: nat, d: nat, e: nat)
    ensures Horner([a, b, c, d, e], 256) == 256 * (256 * (256 * (256 * a + b) + c) + d) + e
  {
    assert Horner([a], 256) == a;
    HornerSnoc([a], b, 256);
    HornerSnoc([a, b], c, 256);
    HornerSnoc([a, b, c], d, 256);
    HornerSnoc([a, b, c, d], e, 256);
    assert [a] + [b] == [a, b] && [a, b] + [c] == [a, b, c] && [a, b, c] + [d] == [a, b, c, d];
    assert [a, b, c, d] + [e] == [a, b, c, d, e];
  }

  lemma HornerOfEight(a: nat, b: nat, c: nat, d: nat, e: nat, f: nat, g: nat, h: nat)
    ensures Horner([a, b, c, d, e, f, g, h], 32) ==
            32 * (32 * (32 * (32 * (32 * (32 * (32 * a + b) + c) + d) + e) + f) + g) + h
  {
    assert Horner([a], 32) == a;
    HornerSnoc([a], b, 32);
    HornerSnoc([a, b], c, 32);
    HornerSnoc([a, b, c], d, 32);
    HornerSnoc([a, b, c, d], e, 32);
    HornerSnoc([a, b, c, d, e], f, 32);
    HornerSnoc([a, b, c, d, e, f], g, 32);
    HornerSnoc([a, b, c, d, e, f, g], h, 32);
    assert [a] + [b] == [a, b] && [a, b] + [c] == [a, b, c] && [a, b, c] + [d] == [a, b, c, d];
    assert [a, b, c, d] + [e] == [a, b, c, d, e] && [a, b, c, d, e] + [f] == [a, b, c, d, e, f];
    assert [a, b, c, d, e, f] + [g] == [a, b, c, d, e, f, g] && [a, b, c, d, e, f, g] + [h] == [a, b, c, d, e, f, g, h];
  }

  /** Distinct draws give distinct suffixes. */
  lemma EncodeInjective(a: seq<Byte>, b: seq<Byte>)
    requires |a| == 5 && |b| == 5 && Encode(a) == Encode(b)
    ensures a == b
  {
    DecodeInvertsEncode(a);
    DecodeInvertsEncode(b);
  }

  /** randomSuffix after the draw: pack, then peel symbols off from the right. */
  method Pack(bytes: seq<Byte>) returns (s: string)
    requires |bytes| == 5
    ensures s == Encode(bytes)
  {
    var val: nat := 0;
    for k := 0 to 5
      invariant val == Horner(bytes[..k], 256)
    {
      assert bytes[..k + 1][..k] == bytes[..k];
      val := val * 256 + bytes[k];
    }
    assert bytes[..5] == bytes;
    ghost var all := Digits(val, 32, 8);
    var buf := new char[8](_ => '0');
    var i := 8;
    while i > 0
      invariant 0 <= i <= 8
      invariant all[..i] == Digits(val, 32, i)
      invariant forall k :: i <= k < 8 ==> buf[k] == ALPHABET[all[k]]
    {
      i := i - 1;
      assert all[i] == all[..i + 1][i] == Rest(val, 32);
      assert all[..i] == all[..i + 1][..i];
      buf[i] := ALPHABET[val % 32];
      val := val / 32;
    }
    s := buf[..];
  }
}
