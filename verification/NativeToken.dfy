/** The base-36 identity tokens in claim names: the canonical ones are exactly the printed 64-bit values. */
module NativeToken {

  const MIN_IDENTITY: int := -0x8000_0000_0000_0000
  const MAX_IDENTITY: int := 0xFFFF_FFFF_FFFF_FFFF
  const TWO_64: int := 0x1_0000_0000_0000_0000

  predicate IsDigit(c: char) {
    '0' <= c <= '9' || 'a' <= c <= 'z'
  }

  function DigitValue(c: char): (v: nat)
    requires IsDigit(c)
    ensures v < 36
  {
    if c <= '9' then (c - '0') as nat else (c - 'a') as nat + 10
  }

  function DigitChar(v: nat): (c: char)
    requires v < 36
    ensures IsDigit(c) && DigitValue(c) == v
  {
    if v < 10 then '0' + v as char else 'a' + (v - 10) as char
  }

  predicate AllDigits(s: string) {
    forall i :: 0 <= i < |s| ==> IsDigit(s[i])
  }

  /** `toString(36)` of a non-negative integer. */
  function Print(v: nat): (s: string)
    ensures AllDigits(s) && s != []
  {
    if v < 36 then [DigitChar(v)] else Print(v / 36) + [DigitChar(v % 36)]
  }

  function Parse(s: string): (v: nat)
    requires AllDigits(s)
  {
    if s == [] then 0 else Parse(s[..|s|-1]) * 36 + DigitValue(s[|s|-1])
  }

  function Pow36(n: nat): (p: nat)
    ensures p > 0
  {
    if n == 0 then 1 else 36 * Pow36(n - 1)
  }

  /** `BigInt.asUintN(64, value)`. */
  function AsUint64(value: int): (u: nat)
    ensures u <= MAX_IDENTITY
    ensures 0 <= value <= 18446744073709551615 ==> u == value
    ensures -9223372036854775808 <= value < 0 ==> u == value + 18446744073709551616
  {
    value % TWO_64
  }

  datatype Token = Rejected | Printed(text: string)

  /** The token of a stat field: out-of-range values are refused, negatives are read as unsigned. */
  function IdentityToken(value: int): (t: Token)
    ensures t.Rejected? <==> !(-9223372036854775808 <= value <= 18446744073709551615)
  {
    if value < MIN_IDENTITY || value > MAX_IDENTITY then Rejected
    else Printed(Print(AsUint64(value)))
  }

  /** String order by code unit, as `<=` compares two strings. */
  predicate LexLe(a: string, b: string) {
    if a == [] then true
    else if b == [] then false
    else a[0] < b[0] || (a[0] == b[0] && LexLe(a[1..], b[1..]))
  }

  /** No leading zero, at most thirteen digits, and no greater than the largest printed value. */
  predicate Canonical(s: string) {
    var max := Print(MAX_IDENTITY);
    && AllDigits(s) && 1 <= |s| <= 13 && (s == "0" || s[0] != '0')
    && (|s| < |max| || LexLe(s, max))
  }

  lemma {:induction false} PrintThenParse(v: nat)
    ensures Parse(Print(v)) == v
    ensures Print(v) == "0" || Print(v)[0] != '0'
    ensures v > 0 ==> Print(v)[0] != '0'
  {
    if v >= 36 {
      PrintThenParse(v / 36);
      var s := Print(v);
      assert s[..|s|-1] == Print(v / 36);
    } else {
      assert Print(v) == [DigitChar(v)];
      assert Print(v)[..0] == [];
    }
  }

  lemma {:induction false} ParseBounds(s: string)
    requires AllDigits(s)
    ensures Parse(s) < Pow36(|s|)
    ensures s != [] && s[0] != '0' ==> Parse(s) >= Pow36(|s| - 1)
  {
    if s != [] {
      var n := |s| - 1;
      ParseBounds(s[..n]);
      if n > 0 {
        assert s[..n][0] == s[0];
      } else if s[0] != '0' {
        assert Parse(s[..0]) == 0 && DigitValue(s[0]) >= 1;
      }
    }
  }

  /** A digit string without leading zero is the print of its value. */
  lemma {:induction false} ParseThenPrint(s: string)
    requires AllDigits(s) && s != [] && (s == "0" || s[0] != '0')
    ensures Print(Parse(s)) == s
  {
    var n := |s| - 1;
    if n == 0 {
      assert Parse(s[..0]) == 0;
      assert Parse(s) == DigitValue(s[0]);
      assert s == [DigitChar(DigitValue(s[0]))];
    } else {
      var q, d := s[..n], DigitValue(s[n]);
      assert q[0] == s[0];
      ParseThenPrint(q);
      ParseBounds(q);
      assert Parse(s) / 36 == Parse(q) && Parse(s) % 36 == d;
      assert Parse(q) >= 1;
      assert [DigitChar(d)] == [s[n]];
      assert s == q + [s[n]];
    }
  }

  lemma {:induction false} ParseFromFront(s: string)
    requires AllDigits(s) && s != []
    ensures Parse(s) == DigitValue(s[0]) * Pow36(|s| - 1) + Parse(s[1..])
  {
    var n := |s| - 1;
    if n == 0 {
      assert s[..0] == [] && s[1..] == [];
    } else {
      ParseFromFront(s[..n]);
      assert s[..n][1..] == s[1..][..n-1];
      assert s[1..][n-1] == s[n];
      assert s[..n][0] == s[0];
      ShiftLeft(DigitValue(s[0]), Pow36(n - 1), Parse(s[1..][..n-1]));
    }
  }

  lemma ShiftLeft(d: nat, p: nat, r: nat)
    ensures (d * p + r) * 36 == d * (36 * p) + r * 36
  {
  }

  lemma LeadingDigitDecides(x: nat, y: nat, p: nat, r: nat, t: nat)
    requires r < p && t < p && x < y
    ensures x * p + r < y * p + t
  {
    assert (x + 1) * p <= y * p;
  }

  lemma DigitOrder(a: char, b: char)
    requires IsDigit(a) && IsDigit(b)
    ensures a < b <==> DigitValue(a) < DigitValue(b)
    ensures a == b <==> DigitValue(a) == DigitValue(b)
  {
  }

  /** For digit strings of one length, string order is numeric order. */
  lemma {:induction false} LexIsNumeric(a: string, b: string)
    requires AllDigits(a) && AllDigits(b) && |a| == |b|
    ensures LexLe(a, b) <==> Parse(a) <= Parse(b)
  {
    if a != [] {
      ParseFromFront(a);
      ParseFromFront(b);
      LexIsNumeric(a[1..], b[1..]);
      ParseBounds(a[1..]);
      ParseBounds(b[1..]);
      DigitOrder(a[0], b[0]);
      var x, y, p := DigitValue(a[0]), DigitValue(b[0]), Pow36(|a| - 1);
      if x < y {
        LeadingDigitDecides(x, y, p, Parse(a[1..]), Parse(b[1..]));
      } else if y < x {
        LeadingDigitDecides(y, x, p, Parse(b[1..]), Parse(a[1..]));
      }
    }
  }

  lemma Pow36Values()
    ensures Pow36(12) <= MAX_IDENTITY < Pow36(13)
  {
    assert Pow36(4) == 1679616 by { assert Pow36(2) == 1296; }
    assert Pow36(8) == 2821109907456 by { assert Pow36(6) == 2176782336; }
    assert Pow36(12) == 4738381338321616896 by { assert Pow36(10) == 3656158440062976; }
  }

  lemma {:induction false} Pow36Grows(m: nat, n: nat)
    requires m <= n
    ensures Pow36(m) <= Pow36(n)
  {
    if m < n { Pow36Grows(m, n - 1); }
  }

  lemma MaxTokenLength()
    ensures |Print(MAX_IDENTITY)| == 13
  {
    var s := Print(MAX_IDENTITY);
    PrintThenParse(MAX_IDENTITY);
    ParseBounds(s);
    Pow36Values();
    if |s| < 13 { Pow36Grows(|s|, 12); }
    if |s| > 13 { Pow36Grows(13, |s| - 1); }
  }

  /** The tokens recovery accepts are exactly the prints of the 64-bit values. */
  lemma CanonicalIffPrinted(s: string)
    ensures Canonical(s) <==> exists v: nat :: v <= 18446744073709551615 && s == Print(v)
  {
    var max := Print(MAX_IDENTITY);
    MaxTokenLength();
    PrintThenParse(MAX_IDENTITY);
    if Canonical(s) {
      ParseThenPrint(s);
      ParseBounds(s);
      if |s| < 13 {
        Pow36Grows(|s|, 12);
        Pow36Values();
      } else {
        LexIsNumeric(s, max);
      }
      assert Parse(s) <= MAX_IDENTITY && s == Print(Parse(s));
    }
    if v: nat :| v <= MAX_IDENTITY && s == Print(v) {
      PrintThenParse(v);
      ParseBounds(s);
      Pow36Values();
      if |s| > 13 { Pow36Grows(13, |s| - 1); }
      if |s| == 13 { LexIsNumeric(s, max); }
    }
  }

  /** A stat field's token is always one recovery accepts, and it identifies the unsigned 64-bit value. */
  lemma IdentityTokenIsCanonical(a: int, b: int)
    requires IdentityToken(a).Printed? && IdentityToken(b).Printed?
    ensures Canonical(IdentityToken(a).text)
    ensures IdentityToken(a) == IdentityToken(b) <==> AsUint64(a) == AsUint64(b)
  {
    CanonicalIffPrinted(Print(AsUint64(a)));
    PrintThenParse(AsUint64(a));
    PrintThenParse(AsUint64(b));
  }
}
