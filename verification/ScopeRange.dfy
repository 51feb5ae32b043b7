/** Effect scopes as byte strings: the percent-encoded builder and the half-open range that selects a prefix. */
module ScopeRange {

  type byte = x: int | 0 <= x < 256
  type Bytes = seq<byte>

  const COLON: byte := 0x3A
  const SEMICOLON: byte := 0x3B
  const PERCENT: byte := 0x25

  /** SQLite's BINARY collation: byte order, a proper prefix first. */
  predicate Less(a: Bytes, b: Bytes) {
    if b == [] then false
    else if a == [] then true
    else a[0] < b[0] || (a[0] == b[0] && Less(a[1..], b[1..]))
  }

  predicate IsPrefix(p: Bytes, s: Bytes) {
    |p| <= |s| && s[..|p|] == p
  }

  /** The exclusive upper bound: the prefix with its final `:` bumped to `;`. */
  function Bumped(prefix: Bytes): Bytes
    requires prefix != []
  {
    prefix[..|prefix|-1] + [SEMICOLON]
  }

  predicate InRange(s: Bytes, prefix: Bytes)
    requires prefix != []
  {
    !Less(s, prefix) && Less(s, Bumped(prefix))
  }

  lemma PrefixStep(p: Bytes, s: Bytes)
    requires p != []
    ensures IsPrefix(p, s) <==> s != [] && s[0] == p[0] && IsPrefix(p[1..], s[1..])
  {
  }

  /** The range over a scope prefix matches exactly the strings that start with it. */
  lemma {:induction false} RangeIsPrefix(s: Bytes, prefix: Bytes)
    requires prefix != [] && prefix[|prefix|-1] == COLON
    ensures InRange(s, prefix) <==> IsPrefix(prefix, s)
  {
    PrefixStep(prefix, s);
    if |prefix| == 1 {
      assert prefix[1..] == [] && Bumped(prefix)[1..] == [];
      assert Bumped(prefix)[0] == SEMICOLON && prefix[0] == COLON;
      if s != [] {
        assert s[1..][..0] == [];
        assert !Less(s[1..], prefix[1..]) && !Less(s[1..], Bumped(prefix)[1..]);
      }
    } else {
      assert Bumped(prefix)[0] == prefix[0];
      assert Bumped(prefix)[1..] == Bumped(prefix[1..]);
      if s != [] { RangeIsPrefix(s[1..], prefix[1..]); }
    }
  }

  /** The characters `encodeURIComponent` leaves alone: letters, digits and - _ . ! ~ * ' ( ). */
  predicate Unreserved(b: byte) {
    || 0x41 <= b <= 0x5A || 0x61 <= b <= 0x7A || 0x30 <= b <= 0x39
    || b in [0x2D, 0x5F, 0x2E, 0x21, 0x7E, 0x2A, 0x27, 0x28, 0x29]
  }

  function HexDigit(n: nat): byte
    requires n < 16
  {
    if n < 10 then 0x30 + n else 0x41 + n - 10
  }

  function EncodeByte(b: byte): (r: Bytes)
    ensures COLON !in r && r != []
    ensures r[0] == PERCENT <==> !Unreserved(b)
  {
    if Unreserved(b) then [b] else [PERCENT, HexDigit(b / 16), HexDigit(b % 16)]
  }

  function Encode(s: Bytes): (r: Bytes)
    ensures COLON !in r
  {
    if s == [] then [] else EncodeByte(s[0]) + Encode(s[1..])
  }

  lemma EncodeHead(a: byte, x: Bytes, b: byte, y: Bytes)
    requires EncodeByte(a) + x == EncodeByte(b) + y
    ensures a == b && x == y
  {
    var p, q := EncodeByte(a), EncodeByte(b);
    assert (p + x)[0] == p[0] && (q + y)[0] == q[0];
    if !Unreserved(a) {
      assert (p + x)[1] == p[1] && (p + x)[2] == p[2];
      assert (q + y)[1] == q[1] && (q + y)[2] == q[2];
      assert a == (a / 16) * 16 + a % 16 && b == (b / 16) * 16 + b % 16;
    }
    assert (p + x)[|p|..] == x && (q + y)[|q|..] == y;
  }

  lemma {:induction false} EncodeIsInjective(a: Bytes, b: Bytes)
    requires Encode(a) == Encode(b)
    ensures a == b
  {
    if a != [] && b != [] {
      EncodeHead(a[0], Encode(a[1..]), b[0], Encode(b[1..]));
      EncodeIsInjective(a[1..], b[1..]);
      assert a == [a[0]] + a[1..] && b == [b[0]] + b[1..];
    }
  }

  /** What decides which bytes pass unchanged: ASCII letters and digits, and the nine marks. */
  lemma UnreservedText(b: byte)
    ensures Unreserved(b) <==>
              var c := b as char;
              'A' <= c <= 'Z' || 'a' <= c <= 'z' || '0' <= c <= '9' || c in "-_.!~*'()"
  {
    var marks := "-_.!~*'()";
    assert forall i :: 0 <= i < 9 ==> marks[i] as int == [0x2D, 0x5F, 0x2E, 0x21, 0x7E, 0x2A, 0x27, 0x28, 0x29][i];
  }

  /** Every other byte becomes `%` and its two upper-case hexadecimal digits. */
  lemma EscapedText(b: byte)
    requires !Unreserved(b)
    ensures var r := EncodeByte(b);
            |r| == 3 && r[0] as char == '%' && r[1] as char == "0123456789ABCDEF"[b / 16] && r[2] as char == "0123456789ABCDEF"[b % 16]
  {
  }

  /** The text `run:` and `session:`. */
  const RUN: Bytes := [0x72, 0x75, 0x6E, COLON]
  const SESSION: Bytes := [0x73, 0x65, 0x73, 0x73, 0x69, 0x6F, 0x6E, COLON]

  function Prefix(kind: Bytes, id: Bytes): (p: Bytes)
    ensures p != [] && p[|p|-1] == COLON
  {
    kind + Encode(id) + [COLON]
  }

  /** `kind:id:rest`, where `rest` is an encoded node id or a printed turn. */
  function Scope(kind: Bytes, id: Bytes, rest: Bytes): Bytes {
    Prefix(kind, id) + rest
  }

  lemma {:induction false} ColonSplits(x: Bytes, y: Bytes, rest: Bytes)
    requires COLON !in x && COLON !in y && IsPrefix(x + [COLON], y + [COLON] + rest)
    ensures x == y
  {
    var l, r := x + [COLON], y + [COLON] + rest;
    assert r[|x|] == r[..|l|][|x|] == COLON;
    if |y| <= |x| {
      assert r[|y|] == r[..|l|][|y|] == COLON;
    }
    if |x| == |y| {
      forall i | 0 <= i < |x| ensures x[i] == y[i] { assert r[..|l|][i] == l[i] && r[i] == y[i]; }
    }
  }

  /** What follows the kind in a string that starts with an id's prefix. */
  lemma AfterKind(kind: Bytes, id: Bytes, s: Bytes)
    requires IsPrefix(Prefix(kind, id), s)
    ensures |kind| <= |s| && IsPrefix(Encode(id) + [COLON], s[|kind|..])
  {
    var p, x := Prefix(kind, id), Encode(id) + [COLON];
    assert p == kind + x;
    assert s[|kind|..][..|x|] == s[..|p|][|kind|..];
  }

  /** No string falls in the ranges of two ids of one kind. */
  lemma RangesAreDisjoint(kind: Bytes, a: Bytes, b: Bytes, s: Bytes)
    requires InRange(s, Prefix(kind, a)) && InRange(s, Prefix(kind, b))
    ensures a == b
  {
    RangeIsPrefix(s, Prefix(kind, a));
    RangeIsPrefix(s, Prefix(kind, b));
    AfterKind(kind, a, s);
    AfterKind(kind, b, s);
    var t, y := s[|kind|..], Encode(b) + [COLON];
    assert t == t[..|y|] + t[|y|..];
    ColonSplits(Encode(a), Encode(b), t[|y|..]);
    EncodeIsInjective(a, b);
  }

  lemma OwnRange(kind: Bytes, id: Bytes, rest: Bytes)
    ensures InRange(Scope(kind, id, rest), Prefix(kind, id))
  {
    assert Scope(kind, id, rest)[..|Prefix(kind, id)|] == Prefix(kind, id);
    RangeIsPrefix(Scope(kind, id, rest), Prefix(kind, id));
  }

  /** A range over one id's prefix selects that id's scopes and nobody else's. */
  lemma RangeSelectsOwner(kind: Bytes, id: Bytes, other: Bytes, rest: Bytes)
    ensures InRange(Scope(kind, other, rest), Prefix(kind, id)) <==> id == other
  {
    OwnRange(kind, other, rest);
    if InRange(Scope(kind, other, rest), Prefix(kind, id)) {
      RangesAreDisjoint(kind, id, other, Scope(kind, other, rest));
    }
  }

  /** A string in a run's range starts with `r`, one in a session's range with `s`. */
  lemma KindShows(id: Bytes, s: Bytes)
    ensures InRange(s, Prefix(RUN, id)) ==> s != [] && s[0] == RUN[0]
    ensures InRange(s, Prefix(SESSION, id)) ==> s != [] && s[0] == SESSION[0]
  {
    RangeIsPrefix(s, Prefix(RUN, id));
    RangeIsPrefix(s, Prefix(SESSION, id));
    PrefixStep(Prefix(RUN, id), s);
    PrefixStep(Prefix(SESSION, id), s);
    assert Prefix(RUN, id)[0] == RUN[0] && Prefix(SESSION, id)[0] == SESSION[0];
  }

  /** No string falls in a run's range and in a session's range. */
  lemma KindsAreDisjoint(run: Bytes, session: Bytes, s: Bytes)
    ensures !(InRange(s, Prefix(RUN, run)) && InRange(s, Prefix(SESSION, session)))
  {
    KindShows(run, s);
    KindShows(session, s);
  }
}
