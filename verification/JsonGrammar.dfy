/**
The grammar of RFC 8259 and what it means for a text to denote a value, with white space
wherever the grammar allows it. Both canonical texts of a value are JSON texts of that
value with its keys in order.
*/
module JsonGrammar {
  import opened Texts
  import opened JsonText
  import opened CanonicalJson

  /** The code units of a plain text. */
  function Lit(s: string): (t: Text)
    requires forall i | 0 <= i < |s| :: s[i] as int < 128
    ensures |t| == |s| && forall i | 0 <= i < |s| :: t[i] == s[i] as int
  {
    seq(|s|, i requires 0 <= i < |s| => s[i] as int)
  }

  /** Section 2: space, tab, line feed and carriage return. */
  predicate Space(t: Text) {
    forall u | u in t :: u == 0x20 || u == 0x09 || u == 0x0A || u == 0x0D
  }

  function Concat(ts: seq<Text>): Text {
    if ts == [] then [] else ts[0] + Concat(ts[1..])
  }

  function Commas(ts: seq<Text>): Text {
    if ts == [] then [] else if |ts| == 1 then ts[0] else ts[0] + Lit(",") + Commas(ts[1..])
  }

  // ------------------------------------------------------------------ the grammar

  /** Section 7: the letters of the two-character escapes. */
  predicate Named(letter: Unit, u: Unit) {
    || (letter == '"' as int && u == 0x22) || (letter == '\\' as int && u == 0x5C)
    || (letter == '/' as int && u == 0x2F)
    || (letter == 'b' as int && u == 0x08) || (letter == 'f' as int && u == 0x0C) || (letter == 'n' as int && u == 0x0A)
    || (letter == 'r' as int && u == 0x0D) || (letter == 't' as int && u == 0x09)
  }

  /** The value of a hexadecimal digit, or 16. */
  function HexDigit(u: Unit): nat {
    if '0' as int <= u <= '9' as int then u - '0' as int
    else if 'a' as int <= u <= 'f' as int then u - 'a' as int + 10
    else if 'A' as int <= u <= 'F' as int then u - 'A' as int + 10
    else 16
  }

  predicate HexEscape(c: Text, u: Unit) {
    && |c| == 6 && c[0] == '\\' as int && c[1] == 'u' as int
    && HexDigit(c[2]) < 16 && HexDigit(c[3]) < 16 && HexDigit(c[4]) < 16 && HexDigit(c[5]) < 16
    && u == 4096 * HexDigit(c[2]) + 256 * HexDigit(c[3]) + 16 * HexDigit(c[4]) + HexDigit(c[5])
  }

  /** `c` is one way to write the unit `u` between quotes. */
  predicate Spells(c: Text, u: Unit) {
    || (c == [u] && u >= 0x20 && u != '"' as int && u != '\\' as int)
    || (|c| == 2 && c[0] == '\\' as int && Named(c[1], u))
    || HexEscape(c, u)
  }

  ghost predicate SpellsAll(cs: seq<Text>, s: Text) {
    |cs| == |s| && forall i | 0 <= i < |s| :: Spells(cs[i], s[i])
  }

  ghost predicate IsString(t: Text, s: Text) {
    exists cs :: SpellsAll(cs, s) && t == Lit("\"") + Concat(cs) + Lit("\"")
  }

  /** Section 6: a number without fraction and exponent has no leading zero. */
  ghost predicate IsNatural(t: Text, n: nat) {
    && t != [] && (forall i | 0 <= i < |t| :: '0' as int <= t[i] <= '9' as int)
    && (t[0] == '0' as int ==> |t| == 1) && Decimal(t) == n
  }

  function Decimal(t: Text): int {
    if t == [] then 0 else 10 * Decimal(t[..|t| - 1]) + (t[|t| - 1] - '0' as int)
  }

  ghost predicate IsInteger(t: Text, n: int) {
    if n < 0 then t != [] && t[0] == '-' as int && IsNatural(t[1..], -n) else IsNatural(t, n)
  }

  /** `c` between white space. */
  ghost predicate Around(t: Text, a: Text, c: Text, b: Text) {
    t == a + c + b && Space(a) && Space(b)
  }

  ghost predicate IsSpaced(t: Text, v: Json)
    decreases v, 1
  {
    exists a, c, b :: Around(t, a, c, b) && IsValue(c, v)
  }

  /** Section 4: a member is a string, a colon and a value. */
  ghost predicate IsMember(t: Text, key: Text, v: Json)
    decreases v, 2
  {
    exists a, k, b, c ::
      Space(a) && Space(b) && IsString(k, key) && IsSpaced(c, v) && t == a + k + b + Lit(":") + c
  }

  /** Sections 3 to 7: `t` is a JSON text of `v`, without white space around it. */
  ghost predicate IsValue(t: Text, v: Json)
    decreases v, 0
  {
    match v
    case Null => t == Lit("null")
    case Bool(b) => t == if b then Lit("true") else Lit("false")
    case Num(n) => IsInteger(t, n)
    case Str(s) => IsString(t, s)
    case Arr(items) =>
      exists parts: seq<Text> ::
        && |parts| == |items| && t == Lit("[") + Commas(parts) + Lit("]")
        && forall i | 0 <= i < |items| :: IsSpaced(parts[i], items[i])
    case Obj(ms) =>
      exists parts: seq<Text> ::
        && |parts| == |ms| && t == Lit("{") + Commas(parts) + Lit("}")
        && forall i | 0 <= i < |ms| :: IsMember(parts[i], ms[i].key, ms[i].value)
  }

  // -------------------------------------------------------------------- scalars

  lemma ChunkSpells(s: Text)
    requires s != [] && Taken(s) == 1
    ensures Spells(Chunk(s), s[0])
  {
    var u := s[0];
    if ShortEscape(u) == 0 && (u < 32 || IsHigh(u) || IsLow(u)) { HexSpells(u); }
  }

  lemma HexSpells(u: Unit)
    ensures HexEscape(UnicodeEscape(u), u)
  {
    var h := u / 16 / 16;
    assert u == 16 * (u / 16) + u % 16 && u / 16 == 16 * h + u / 16 % 16 && h == 16 * (h / 16) + h % 16;
  }

  lemma SpellsOneMore(c: Text, u: Unit, cs: seq<Text>, s: Text)
    requires Spells(c, u) && SpellsAll(cs, s)
    ensures SpellsAll([c] + cs, [u] + s) && Concat([c] + cs) == c + Concat(cs)
  {
    assert ([c] + cs)[1..] == cs;
  }

  lemma {:induction false} EscapedSpells(s: Text) returns (cs: seq<Text>)
    ensures SpellsAll(cs, s) && Escaped(s) == Concat(cs)
  {
    if s == [] {
      cs := [];
    } else if Taken(s) == 2 {
      var rest := EscapedSpells(s[2..]);
      SpellsOneMore([s[1]], s[1], rest, s[2..]);
      SpellsOneMore([s[0]], s[0], [[s[1]]] + rest, [s[1]] + s[2..]);
      cs := [[s[0]]] + ([[s[1]]] + rest);
      assert s == [s[0]] + ([s[1]] + s[2..]);
      Pair2(s[0], s[1], Concat(rest));
    } else {
      var rest := EscapedSpells(s[1..]);
      ChunkSpells(s);
      SpellsOneMore(Chunk(s), s[0], rest, s[1..]);
      cs := [Chunk(s)] + rest;
      assert s == [s[0]] + s[1..];
    }
  }

  lemma Pair2(u: Unit, v: Unit, rest: Text)
    ensures [u, v] + rest == [u] + ([v] + rest)
  {
  }

  lemma QuotedIsString(s: Text)
    ensures IsString(Quoted(s), s)
  {
    var cs := EscapedSpells(s);
    assert Lit("\"") == [QUOTE];
  }

  lemma {:induction false} DigitsAreNatural(n: nat)
    ensures IsNatural(Digits(n), n) && (n > 0 ==> Digits(n)[0] != '0' as int)
  {
    if n >= 10 {
      DigitsAreNatural(n / 10);
      var t := Digits(n);
      assert t[..|t| - 1] == Digits(n / 10);
    } else {
      assert Digits(n)[..0] == [];
    }
  }

  lemma IntegerIsInteger(n: int)
    ensures IsInteger(IntegerText(n), n)
  {
    if n < 0 {
      DigitsAreNatural(-n);
      assert IntegerText(n)[1..] == Digits(-n);
    } else {
      DigitsAreNatural(n);
    }
  }

  // ------------------------------------------------------------------ containers

  /** The lines of a framed list, each with the white space before it, and the last one with what follows it. */
  function Parted(lines: seq<Text>, before: Text, after: Text): (parts: seq<Text>)
    requires lines != []
    ensures |parts| == |lines|
  {
    if |lines| == 1 then [before + lines[0] + after] else [before + lines[0]] + Parted(lines[1..], before, after)
  }

  lemma {:induction false} PartedAt(lines: seq<Text>, before: Text, after: Text, i: nat)
    requires i < |lines|
    ensures Parted(lines, before, after)[i] == before + lines[i] + if i == |lines| - 1 then after else []
  {
    if i > 0 { PartedAt(lines[1..], before, after, i - 1); }
  }

  lemma {:induction false} PartedJoins(lines: seq<Text>, before: Text, after: Text)
    requires lines != []
    ensures Commas(Parted(lines, before, after)) == before + (Join(lines, [COMMA] + before) + after)
  {
    var parts := Parted(lines, before, after);
    if |lines| == 1 {
      Assoc(before, lines[0], after);
    } else {
      PartedJoins(lines[1..], before, after);
      assert parts[1..] == Parted(lines[1..], before, after) && Lit(",") == [COMMA];
      Regroup(before, lines[0], Join(lines[1..], [COMMA] + before), after);
    }
  }

  lemma Regroup(b: Text, x: Text, j: Text, a: Text)
    ensures (b + x) + [COMMA] + (b + (j + a)) == b + ((x + ([COMMA] + b) + j) + a)
  {
  }

  function Break(style: Style): Text { if style.Compact? then [] else [NEWLINE] }

  function Back(style: Style, d: nat): Text { if style.Compact? then [] else [NEWLINE] + Indent(d) }

  lemma {:induction false} IndentSpace(d: nat)
    ensures Space(Indent(d)) && Indent(d) == seq(2 * d, i => SPACE)
  {
    if d > 0 { IndentSpace(d - 1); }
  }

  /** A framed list is its brackets around its parts, separated by commas. */
  lemma FramedCommas(style: Style, d: nat, open: Unit, close: Unit, lines: seq<Text>)
    requires lines != []
    ensures Framed(style, d, open, close, lines)
         == [open] + Commas(Parted(lines, Break(style), Back(style, d))) + [close]
  {
    var b, a := Break(style), Back(style, d);
    PartedJoins(lines, b, a);
    var j := Join(lines, [COMMA] + b);
    assert Opening(style, open) == [open] + b && Separator(style) == [COMMA] + b;
    assert Closing(style, d, close) == a + [close];
    Bracketed(open, b, j, a, close);
  }

  lemma Bracketed(open: Unit, b: Text, j: Text, a: Text, close: Unit)
    ensures ([open] + b) + (j + (a + [close])) == [open] + (b + (j + a)) + [close]
  {
  }

  lemma {:induction false} RowsAt(style: Style, d: nat, keyed: bool, ps: seq<Pair<Text>>)
    ensures |Rows(style, d, keyed, ps)| == |ps|
    ensures forall i | 0 <= i < |ps| :: Rows(style, d, keyed, ps)[i] == Row(style, d, keyed, ps[i])
  {
    if ps != [] { RowsAt(style, d, keyed, ps[1..]); }
  }

  lemma SpaceAround(style: Style, d: nat)
    ensures Space(Break(style)) && Space(Back(style, d)) && Space(Lead(style, d))
    ensures Space(Break(style) + Lead(style, d))
  {
    IndentSpace(d);
    IndentSpace(d + 1);
  }

  lemma ItemSpaced(style: Style, d: nat, value: Text, after: Text, v: Json)
    requires IsValue(value, v) && Space(after)
    ensures IsSpaced(Break(style) + Row(style, d, false, Pair([], value)) + after, v)
  {
    SpaceAround(style, d);
    var a := Break(style) + Lead(style, d);
    var t := Break(style) + (Lead(style, d) + ([] + value)) + after;
    assert t == a + value + after;
    assert Around(t, a, value, after);
  }

  lemma ValueSpaced(gap: Text, value: Text, after: Text, v: Json)
    requires IsValue(value, v) && Space(gap) && Space(after)
    ensures IsSpaced(gap + value + after, v)
  {
    assert Around(gap + value + after, gap, value, after);
  }

  lemma MemberOf(a: Text, key: Text, c: Text, v: Json)
    requires Space(a) && IsSpaced(c, v)
    ensures IsMember(a + Quoted(key) + [] + Lit(":") + c, key, v)
  {
    QuotedIsString(key);
    assert Space([]);
  }

  lemma MemberSpaced(style: Style, d: nat, key: Text, value: Text, after: Text, v: Json)
    requires IsValue(value, v) && Space(after)
    ensures IsMember(Break(style) + Row(style, d, true, Pair(key, value)) + after, key, v)
  {
    SpaceAround(style, d);
    var gap := if style.Compact? then [] else [SPACE];
    assert Colon(style) == Lit(":") + gap;
    MemberText(Break(style), Lead(style, d), Quoted(key), gap, value, after);
    ValueSpaced(gap, value, after, v);
    MemberOf(Break(style) + Lead(style, d), key, gap + value + after, v);
  }

  lemma MemberText(b: Text, lead: Text, k: Text, gap: Text, value: Text, after: Text)
    ensures b + (lead + ((k + (Lit(":") + gap)) + value)) + after
         == (b + lead) + k + [] + Lit(":") + (gap + value + after)
  {
  }

  lemma ArrayIsJson(style: Style, d: nat, items: seq<Json>)
    requires forall i | 0 <= i < |items| :: IsValue(Print(style, d + 1, items[i]), items[i])
    ensures IsValue(Print(style, d, Arr(items)), Arr(items))
  {
    var ps := PrintedItems(style, d, items);
    var rows := Rows(style, d, false, ps);
    PrintedItemsAt(style, d, items);
    RowsAt(style, d, false, ps);
    assert Lit("[") == [0x5B] && Lit("]") == [0x5D];
    if items == [] {
      var none: seq<Text> := [];
      assert |none| == |items| && Print(style, d, Arr(items)) == Lit("[") + Commas(none) + Lit("]");
    } else {
      var parts := Parted(rows, Break(style), Back(style, d));
      FramedCommas(style, d, 0x5B, 0x5D, rows);
      SpaceAround(style, d);
      forall i | 0 <= i < |items| ensures IsSpaced(parts[i], items[i]) {
        PartedAt(rows, Break(style), Back(style, d), i);
        ItemSpaced(
          style, d, Print(style, d + 1, items[i]), if i == |rows| - 1 then Back(style, d) else [], items[i]);
      }
    }
  }

  lemma ObjectIsJson(style: Style, d: nat, ms: seq<Pair<Json>>)
    requires Sorted(ms)
    requires forall i | 0 <= i < |ms| :: IsValue(Print(style, d + 1, ms[i].value), ms[i].value)
    ensures IsValue(Print(style, d, Obj(ms)), Obj(ms))
  {
    var ps := Printed(style, d, ms);
    PrintedAt(style, d, ms);
    SortOfSorted(ps);
    var rows := Rows(style, d, true, ps);
    RowsAt(style, d, true, ps);
    assert Lit("{") == [0x7B] && Lit("}") == [0x7D];
    if ms == [] {
      var none: seq<Text> := [];
      assert |none| == |ms| && Print(style, d, Obj(ms)) == Lit("{") + Commas(none) + Lit("}");
    } else {
      var parts := Parted(rows, Break(style), Back(style, d));
      FramedCommas(style, d, 0x7B, 0x7D, rows);
      SpaceAround(style, d);
      forall i | 0 <= i < |ms| ensures IsMember(parts[i], ms[i].key, ms[i].value) {
        PartedAt(rows, Break(style), Back(style, d), i);
        MemberSpaced(
          style, d, ms[i].key, Print(style, d + 1, ms[i].value), if i == |rows| - 1 then Back(style, d) else [],
          ms[i].value);
      }
    }
  }

  lemma {:induction false} NormalIsJson(style: Style, d: nat, v: Json)
    requires Normal(v)
    ensures IsValue(Print(style, d, v), v)
    decreases v
  {
    match v
    case Null =>
    case Bool(b) =>
    case Num(n) => IntegerIsInteger(n);
    case Str(s) => QuotedIsString(s);
    case Arr(items) =>
      forall i | 0 <= i < |items| ensures IsValue(Print(style, d + 1, items[i]), items[i]) {
        NormalIsJson(style, d + 1, items[i]);
      }
      ArrayIsJson(style, d, items);
    case Obj(ms) =>
      forall i | 0 <= i < |ms| ensures IsValue(Print(style, d + 1, ms[i].value), ms[i].value) {
        NormalIsJson(style, d + 1, ms[i].value);
      }
      ObjectIsJson(style, d, ms);
  }

  // --------------------------------------------------------------- surrogate pairs

  /** Surrogates stand in pairs only, so the text survives as UTF-8. */
  ghost predicate WellPaired(t: Text) {
    && (forall i | 0 <= i < |t| && IsHigh(t[i]) :: i + 1 < |t| && IsLow(t[i + 1]))
    && (forall i | 0 <= i < |t| && IsLow(t[i]) :: i > 0 && IsHigh(t[i - 1]))
  }

  /** The two halves of a surrogate pair, by their leading bits. */
  lemma SurrogatesAre(u: Unit)
    ensures (IsHigh(u) <==> u / 0x400 == 0x36) && (IsLow(u) <==> u / 0x400 == 0x37)
  {
  }

  /**
  A unit is written as it is, unless it needs an escape: the two-character one if there is one, and otherwise the
  hexadecimal one, for the other control characters and for lone surrogates.
  */
  lemma ShortestForm(u: Unit)
    ensures forall letter | Named(letter, u) && letter != '/' as int :: Escaped([u]) == ['\\' as int, letter]
    ensures (forall letter | letter != '/' as int :: !Named(letter, u)) ==>
      if u < 0x20 || u / 0x400 == 0x36 || u / 0x400 == 0x37 then HexEscape(Escaped([u]), u) else Escaped([u]) == [u]
  {
    SurrogatesAre(u);
    assert Taken([u]) == 1 && [u][1..] == [] && Escaped([u]) == Chunk([u]) + [] == Chunk([u]);
    HexSpells(u);
    if ShortEscape(u) != 0 { assert Named(ShortEscape(u), u); }
  }

  lemma PairedConcat(a: Text, b: Text)
    requires WellPaired(a) && WellPaired(b)
    ensures WellPaired(a + b)
  {
  }

  lemma ChunkPaired(s: Text)
    requires s != []
    ensures WellPaired(Chunk(s))
  {
  }

  lemma {:induction false} EscapedPaired(s: Text)
    ensures WellPaired(Escaped(s))
  {
    if s != [] {
      EscapedPaired(s[Taken(s)..]);
      ChunkPaired(s);
      PairedConcat(Chunk(s), Escaped(s[Taken(s)..]));
    }
  }

  /** A quoted string holds no lone surrogate, whatever the string holds. */
  lemma QuotedPaired(s: Text)
    ensures WellPaired(Quoted(s))
  {
    EscapedPaired(s);
    PairedConcat([QUOTE], Escaped(s));
    PairedConcat([QUOTE] + Escaped(s), [QUOTE]);
  }

  // ------------------------------------------------------------------- theorems

  /** In either style and at any depth, what is printed is a JSON text of the value with its keys in order. */
  lemma PrintIsJson(style: Style, d: nat, v: Json)
    ensures IsValue(Print(style, d, v), Norm(v))
  {
    NormIsNormal(v);
    PrintNorm(style, d, v);
    NormalIsJson(style, d, Norm(v));
  }

  lemma SnapshotIsJson(v: Json)
    ensures IsSpaced(CanonicalJsonStringify(v), Norm(v))
  {
    PrintIsJson(Indented, 0, v);
    var t := Print(Indented, 0, v);
    assert Space([]) && Space([NEWLINE]);
    ValueSpaced([], t, [NEWLINE], Norm(v));
    assert [] + t == t;
  }

  /** The snapshot text and the digested text are JSON texts of the value. */
  lemma CanonicalTextsAreJson(v: Json)
    ensures IsSpaced(CanonicalJsonStringify(v), Norm(v)) && IsValue(Canonical(v), Norm(v))
  {
    SnapshotIsJson(v);
    PrintIsJson(Compact, 0, v);
  }

  function Spaces(n: nat): Text { seq(n, i => ' ' as int) }

  lemma JoinTwo(a: Text, b: Text, separator: Text)
    ensures Join([a, b], separator) == a + separator + b
  {
    assert [a, b][1..] == [b];
  }

  lemma RowsTwo(style: Style, d: nat, keyed: bool, p: Pair<Text>, q: Pair<Text>)
    ensures Rows(style, d, keyed, [p, q]) == [Row(style, d, keyed, p), Row(style, d, keyed, q)]
  {
    RowsAt(style, d, keyed, [p, q]);
  }

  lemma ItemsTwo(style: Style, d: nat, x: Json, y: Json)
    ensures PrintedItems(style, d, [x, y]) == [Pair([], Print(style, d + 1, x)), Pair([], Print(style, d + 1, y))]
  {
    PrintedItemsAt(style, d, [x, y]);
  }

  lemma IndentIs(d: nat)
    ensures Indent(d) == Spaces(2 * d)
  {
    IndentSpace(d);
  }

  /** The indented style: one entry to a line, two spaces deeper than the brackets, and a space after the colon. */
  lemma IndentedPieces(d: nat)
    ensures Opening(Indented, 0x5B) == Lit("[\n") && Opening(Indented, 0x7B) == Lit("{\n")
    ensures Separator(Indented) == Lit(",\n") && Colon(Indented) == Lit(": ")
    ensures Lead(Indented, d) == Spaces(2 * d + 2)
    ensures Closing(Indented, d, 0x5D) == Lit("\n") + Spaces(2 * d) + Lit("]")
    ensures Closing(Indented, d, 0x7D) == Lit("\n") + Spaces(2 * d) + Lit("}")
  {
    IndentIs(d);
    IndentIs(d + 1);
    assert Lit("\n") == [NEWLINE] && Lit("]") == [0x5D] && Lit("}") == [0x7D];
  }

  /** The compact style: no white space at all. */
  lemma CompactPieces(d: nat)
    ensures Opening(Compact, 0x5B) == Lit("[") && Opening(Compact, 0x7B) == Lit("{")
    ensures Separator(Compact) == Lit(",") && Colon(Compact) == Lit(":") && Lead(Compact, d) == Lit("")
    ensures Closing(Compact, d, 0x5D) == Lit("]") && Closing(Compact, d, 0x7D) == Lit("}")
  {
  }

  lemma ItemRow(style: Style, d: nat, t: Text)
    ensures Row(style, d, false, Pair([], t)) == Lead(style, d) + t
  {
    assert [] + t == t;
  }

  /** How the pieces make up an array. */
  lemma TwoItems(style: Style, d: nat, x: Json, y: Json)
    ensures var p, q := Pair([], Print(style, d + 1, x)), Pair([], Print(style, d + 1, y));
      Print(style, d, Arr([x, y]))
      == Opening(style, 0x5B)
         + (Row(style, d, false, p) + Separator(style) + Row(style, d, false, q) + Closing(style, d, 0x5D))
  {
    ItemsTwo(style, d, x, y);
    var p, q := Pair([], Print(style, d + 1, x)), Pair([], Print(style, d + 1, y));
    RowsTwo(style, d, false, p, q);
    JoinTwo(Row(style, d, false, p), Row(style, d, false, q), Separator(style));
  }

  /** How the pieces make up an object. */
  lemma OneMember(style: Style, d: nat, key: Text, v: Json)
    ensures Print(style, d, Obj([Pair(key, v)]))
      == Opening(style, 0x7B) + (Row(style, d, true, Pair(key, Print(style, d + 1, v))) + Closing(style, d, 0x7D))
  {
    var ms, p := [Pair(key, v)], Pair(key, Print(style, d + 1, v));
    PrintedAt(style, d, ms);
    assert Printed(style, d, ms) == [p];
    SortOfSorted([p]);
    RowsAt(style, d, true, [p]);
    assert Rows(style, d, true, [p]) == [Row(style, d, true, p)];
  }
}
