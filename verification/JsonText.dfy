/**
JSON text of the scalar values: quoted strings as section 7 of RFC 8259 lays out and
`JSON.stringify` writes them, and integers. Both are read back uniquely from any
text that continues with something else.
*/
module JsonText {
  import opened Texts

  const QUOTE: Unit := 0x22
  const BACKSLASH: Unit := 0x5C
  const MINUS: Unit := 0x2D

  /** `p` is a common prefix, so what follows it must agree too. */
  lemma Cancel(p: Text, a: Text, b: Text)
    requires p + a == p + b
    ensures a == b
  {
    assert a == (p + a)[|p|..] && b == (p + b)[|p|..];
  }

  lemma Assoc(a: Text, b: Text, c: Text)
    ensures (a + b) + c == a + (b + c)
  {
  }

  // ------------------------------------------------------------------ strings

  predicate IsHigh(u: Unit) { 0xD800 <= u < 0xDC00 }

  predicate IsLow(u: Unit) { 0xDC00 <= u < 0xE000 }

  function Hex(d: int): (u: Unit)
    requires 0 <= d < 16
    ensures u == if d < 10 then 0x30 + d else 0x57 + d
  {
    if d < 10 then 0x30 + d else 0x61 + d - 10
  }

  /** `\uXXXX`, in lower-case hexadecimal. */
  function UnicodeEscape(u: Unit): Text {
    [BACKSLASH, 0x75, Hex(u / 16 / 16 / 16), Hex(u / 16 / 16 % 16), Hex(u / 16 % 16), Hex(u % 16)]
  }

  /** The letter of a two-character escape, or 0 when there is none. */
  function ShortEscape(u: Unit): Unit {
    if u == QUOTE || u == BACKSLASH then u
    else if u == 8 then 0x62 else if u == 9 then 0x74 else if u == 10 then 0x6E
    else if u == 12 then 0x66 else if u == 13 then 0x72 else 0
  }

  /** How many units of `s` are written together: two for a surrogate pair. */
  function Taken(s: Text): nat
    requires s != []
  {
    if IsHigh(s[0]) && |s| > 1 && IsLow(s[1]) then 2 else 1
  }

  /** The text written for the first `Taken(s)` units of `s`. */
  function Chunk(s: Text): Text
    requires s != []
  {
    if Taken(s) == 2 then s[..2]
    else if ShortEscape(s[0]) != 0 then [BACKSLASH, ShortEscape(s[0])]
    else if s[0] < 32 || IsHigh(s[0]) || IsLow(s[0]) then UnicodeEscape(s[0])
    else [s[0]]
  }

  function Escaped(s: Text): Text {
    if s == [] then [] else Chunk(s) + Escaped(s[Taken(s)..])
  }

  function Quoted(s: Text): Text {
    [QUOTE] + Escaped(s) + [QUOTE]
  }

  lemma HexDigits(u: Unit, v: Unit)
    requires UnicodeEscape(u) == UnicodeEscape(v)
    ensures u == v
  {
    var a, b := UnicodeEscape(u), UnicodeEscape(v);
    assert a[2] == b[2] && a[3] == b[3] && a[4] == b[4] && a[5] == b[5];
    assert u / 16 / 16 == v / 16 / 16;
    assert u / 16 == v / 16;
  }

  lemma ChunkStart(s: Text)
    requires s != []
    ensures Chunk(s) != [] && Chunk(s)[0] != QUOTE
    ensures Chunk(s)[0] == BACKSLASH ==> |Chunk(s)| == if Chunk(s)[1] == 0x75 then 6 else 2
    ensures Chunk(s)[0] != BACKSLASH ==> |Chunk(s)| == if IsHigh(Chunk(s)[0]) then 2 else 1
  {
  }

  lemma ChunkIsPrefixCode(s: Text, t: Text, x: Text, y: Text)
    requires s != [] && t != [] && Chunk(s) + x == Chunk(t) + y
    ensures s[..Taken(s)] == t[..Taken(t)] && x == y
  {
    var c, d := Chunk(s), Chunk(t);
    ChunkStart(s);
    ChunkStart(t);
    assert c[0] == (c + x)[0] && d[0] == (d + y)[0];
    if c[0] == BACKSLASH {
      assert c[1] == (c + x)[1] && d[1] == (d + y)[1];
    }
    assert |c| == |d|;
    assert c == (c + x)[..|c|] && d == (d + y)[..|d|];
    Cancel(c, x, y);
    if |c| == 6 { HexDigits(s[0], t[0]); }
    if c[0] == BACKSLASH || |c| == 1 { assert s[0] == t[0]; }
  }

  lemma {:induction false} EscapedInjective(s: Text, t: Text, x: Text, y: Text)
    requires x != [] && y != [] && x[0] == QUOTE && y[0] == QUOTE
    requires Escaped(s) + x == Escaped(t) + y
    ensures s == t && x == y
    decreases |s|
  {
    if s != [] { EscapedStart(s, x); }
    if t != [] { EscapedStart(t, y); }
    assert Escaped([]) + x == x && Escaped([]) + y == y;
    if s != [] && t != [] {
      var s', t' := s[Taken(s)..], t[Taken(t)..];
      ChunkIsPrefixCode(s, t, Escaped(s') + x, Escaped(t') + y);
      EscapedInjective(s', t', x, y);
      assert s == s[..Taken(s)] + s' && t == t[..Taken(t)] + t';
    }
  }

  lemma EscapedStart(s: Text, x: Text)
    requires s != []
    ensures Escaped(s) + x == Chunk(s) + (Escaped(s[Taken(s)..]) + x)
    ensures (Escaped(s) + x)[0] != QUOTE
  {
    ChunkStart(s);
  }

  /** A quoted string ends where its closing quote is, whatever follows. */
  lemma QuotedInjective(s: Text, t: Text, x: Text, y: Text)
    requires Quoted(s) + x == Quoted(t) + y
    ensures s == t && x == y
  {
    QuotedSplit(s, x);
    QuotedSplit(t, y);
    Cancel([QUOTE], Escaped(s) + ([QUOTE] + x), Escaped(t) + ([QUOTE] + y));
    EscapedInjective(s, t, [QUOTE] + x, [QUOTE] + y);
    Cancel([QUOTE], x, y);
  }

  lemma QuotedSplit(s: Text, x: Text)
    ensures Quoted(s) + x == [QUOTE] + (Escaped(s) + ([QUOTE] + x))
  {
  }

  // ----------------------------------------------------------------- integers

  predicate IsDigit(u: Unit) { 0x30 <= u <= 0x39 }

  function Digits(n: nat): Text {
    if n < 10 then [0x30 + n] else Digits(n / 10) + [0x30 + n % 10]
  }

  function Value(ds: Text): int {
    if ds == [] then 0 else 10 * Value(ds[..|ds| - 1]) + ds[|ds| - 1] - 0x30
  }

  function IntegerText(n: int): Text {
    if n < 0 then [MINUS] + Digits(-n) else Digits(n)
  }

  /** A text that cannot extend a number. */
  predicate Stops(x: Text) {
    x == [] || !IsDigit(x[0])
  }

  lemma {:induction false} DigitsFacts(n: nat)
    ensures Digits(n) != [] && Value(Digits(n)) == n
    ensures forall i | 0 <= i < |Digits(n)| :: IsDigit(Digits(n)[i])
  {
    if n >= 10 {
      DigitsFacts(n / 10);
      var ds := Digits(n);
      assert ds[..|ds| - 1] == Digits(n / 10);
    } else {
      assert Digits(n)[..0] == [];
    }
  }

  lemma DigitsNotLonger(a: Text, b: Text, x: Text, y: Text)
    requires a + x == b + y && Stops(x) && forall i | 0 <= i < |b| :: IsDigit(b[i])
    ensures |b| <= |a|
  {
    var r := a + x;
    assert forall i | 0 <= i < |b| :: (b + y)[i] == b[i];
    assert |a| < |r| ==> r[|a|] == x[0];
  }

  lemma DigitsInjective(m: nat, n: nat, x: Text, y: Text)
    requires Digits(m) + x == Digits(n) + y && Stops(x) && Stops(y)
    ensures m == n && x == y
  {
    DigitsFacts(m);
    DigitsFacts(n);
    var a, b := Digits(m), Digits(n);
    DigitsNotLonger(a, b, x, y);
    DigitsNotLonger(b, a, y, x);
    assert |a| == |b|;
    assert a == (a + x)[..|a|] && b == (b + y)[..|b|];
    Cancel(a, x, y);
  }

  lemma IntegerInjective(m: int, n: int, x: Text, y: Text)
    requires IntegerText(m) + x == IntegerText(n) + y && Stops(x) && Stops(y)
    ensures m == n && x == y
  {
    IntegerSplit(m, x);
    IntegerSplit(n, y);
    if m < 0 && n < 0 {
      Cancel([MINUS], Digits(-m) + x, Digits(-n) + y);
      DigitsInjective(-m, -n, x, y);
    } else if m >= 0 && n >= 0 {
      DigitsInjective(m, n, x, y);
    }
  }

  lemma IntegerSplit(n: int, x: Text)
    ensures n < 0 ==> IntegerText(n) + x == [MINUS] + (Digits(-n) + x)
    ensures (IntegerText(n) + x) != [] && ((IntegerText(n) + x)[0] == MINUS <==> n < 0)
    ensures n >= 0 ==> IsDigit((IntegerText(n) + x)[0])
  {
    DigitsFacts(if n < 0 then -n else n);
    if n < 0 { Assoc([MINUS], Digits(-n), x); }
    assert IntegerText(n) != [] && (IntegerText(n) + x)[0] == IntegerText(n)[0];
  }
}
