/**
JSON Pointers (sections 3 and 4 of RFC 6901): building one segment by segment, taking
it apart again, and the walk that looks up the nearest ancestor with a source position.
*/
module JsonPointer {
  import opened Prelude
  import opened Texts
  import opened JsonText

  const SLASH: Unit := 0x2F
  const TILDE: Unit := 0x7E
  const ZERO: Unit := 0x30
  const ONE: Unit := 0x31

  // ------------------------------------------------------------ as the code does it

  /** Replaces every unit `u`. */
  function ReplaceUnit(s: Text, u: Unit, into: Text): Text {
    if s == [] then [] else (if s[0] == u then into else [s[0]]) + ReplaceUnit(s[1..], u, into)
  }

  /** Replaces every occurrence of the two units `a b`, left to right. */
  function ReplacePair(s: Text, a: Unit, b: Unit, into: Unit): Text {
    if |s| < 2 then s
    else if s[0] == a && s[1] == b then [into] + ReplacePair(s[2..], a, b, into)
    else [s[0]] + ReplacePair(s[1..], a, b, into)
  }

  function EscapePointerSegment(segment: Text): Text {
    ReplaceUnit(ReplaceUnit(segment, TILDE, [TILDE, ZERO]), SLASH, [TILDE, ONE])
  }

  function UnescapePointerSegment(segment: Text): Text {
    ReplacePair(ReplacePair(segment, TILDE, ONE, SLASH), TILDE, ZERO, TILDE)
  }

  function JoinPointer(base: Text, segment: Text): Text {
    base + [SLASH] + EscapePointerSegment(segment)
  }

  /** `JoinPointer` from the document root, once per segment. */
  function Build(segments: seq<Text>): Text {
    if segments == [] then []
    else JoinPointer(Build(segments[..|segments| - 1]), segments[|segments| - 1])
  }

  /** Where the first slash of `s` is, or `|s|`. */
  function FirstSlash(s: Text): (k: nat)
    ensures k <= |s| && SLASH !in s[..k] && (k < |s| ==> s[k] == SLASH)
  {
    if s == [] || s[0] == SLASH then 0
    else
      var k := FirstSlash(s[1..]);
      assert s[..k + 1] == [s[0]] + s[1..][..k];
      k + 1
  }

  function Split(s: Text): seq<Text> {
    var k := FirstSlash(s);
    if k == |s| then [s] else [s[..k]] + Split(s[k + 1..])
  }

  function UnescapeAll(ss: seq<Text>): seq<Text> {
    if ss == [] then [] else [UnescapePointerSegment(ss[0])] + UnescapeAll(ss[1..])
  }

  function PointerToPath(pointer: Text): seq<Text> {
    if pointer == [] then [] else UnescapeAll(Split(pointer[1..]))
  }

  // ------------------------------------------------------------------- reference

  /** Section 3: a tilde is written `~0` and a slash `~1`. */
  function Encode(s: Text): Text {
    if s == [] then []
    else (if s[0] == TILDE then [TILDE, ZERO] else if s[0] == SLASH then [TILDE, ONE] else [s[0]]) + Encode(s[1..])
  }

  function Decode(e: Text): Text {
    if |e| >= 2 && e[0] == TILDE then [if e[1] == ONE then SLASH else TILDE] + Decode(e[2..])
    else if e == [] then [] else [e[0]] + Decode(e[1..])
  }

  /** What stands at `i` is followed by the rest of an escape. */
  predicate EscapeAt(e: Text, i: nat) {
    i + 1 < |e| && (e[i + 1] == ZERO || e[i + 1] == ONE)
  }

  /** Every tilde starts one of the two escapes. */
  ghost predicate TildesPaired(e: Text) {
    forall i {:trigger EscapeAt(e, i)} | 0 <= i < |e| && e[i] == TILDE :: EscapeAt(e, i)
  }

  /** The grammar of section 3. */
  ghost predicate ValidPointer(p: Text) {
    p == [] || (p[0] == SLASH && TildesPaired(p))
  }

  function Flat(segments: seq<Text>): Text {
    if segments == [] then [] else [SLASH] + (Encode(segments[0]) + Flat(segments[1..]))
  }

  function EncodeAll(segments: seq<Text>): seq<Text> {
    if segments == [] then [] else [Encode(segments[0])] + EncodeAll(segments[1..])
  }

  function DecodeAll(es: seq<Text>): seq<Text> {
    if es == [] then [] else [Decode(es[0])] + DecodeAll(es[1..])
  }

  // ---------------------------------------------------------------- one segment

  lemma {:induction false} ReplaceUnitConcat(a: Text, b: Text, u: Unit, into: Text)
    ensures ReplaceUnit(a + b, u, into) == ReplaceUnit(a, u, into) + ReplaceUnit(b, u, into)
  {
    if a == [] {
      assert a + b == b;
    } else {
      var head, t := if a[0] == u then into else [a[0]], a[1..];
      ReplaceUnitConcat(t, b, u, into);
      assert (a + b)[1..] == t + b && (a + b)[0] == a[0];
      Assoc(head, ReplaceUnit(t, u, into), ReplaceUnit(b, u, into));
    }
  }

  /** The two replacements, tilde first, are the one-pass escape. */
  lemma {:induction false} EscapeIsEncode(s: Text)
    ensures EscapePointerSegment(s) == Encode(s)
  {
    if s != [] {
      EscapeIsEncode(s[1..]);
      var head := if s[0] == TILDE then [TILDE, ZERO] else [s[0]];
      ReplaceUnitConcat(head, ReplaceUnit(s[1..], TILDE, [TILDE, ZERO]), SLASH, [TILDE, ONE]);
      assert head[1..] == if s[0] == TILDE then [ZERO] else [];
      assert [ZERO][1..] == [] && ReplaceUnit([ZERO], SLASH, [TILDE, ONE]) == [ZERO];
    }
  }

  /** What is left of the escape once the slashes are back. */
  function HalfDecoded(s: Text): Text {
    if s == [] then [] else (if s[0] == TILDE then [TILDE, ZERO] else [s[0]]) + HalfDecoded(s[1..])
  }

  /** Replacing a pair goes unit by unit where the pair does not start. */
  lemma PairSkips(s: Text, a: Unit, b: Unit, into: Unit)
    requires s != [] && (s[0] != a || |s| < 2 || s[1] != b)
    ensures ReplacePair(s, a, b, into) == [s[0]] + ReplacePair(s[1..], a, b, into)
  {
    if |s| == 1 { assert s == [s[0]] && s[1..] == []; }
  }

  lemma TildeZeroStays(rest: Text)
    ensures ReplacePair([TILDE, ZERO] + rest, TILDE, ONE, SLASH)
         == [TILDE, ZERO] + ReplacePair(rest, TILDE, ONE, SLASH)
  {
    var e := [TILDE, ZERO] + rest;
    assert e[1..][0] == ZERO && e[1..][1..] == rest;
    PairSkips(e, TILDE, ONE, SLASH);
    PairSkips(e[1..], TILDE, ONE, SLASH);
  }

  lemma {:induction false} SlashesBack(s: Text)
    ensures ReplacePair(Encode(s), TILDE, ONE, SLASH) == HalfDecoded(s)
  {
    if s != [] {
      SlashesBack(s[1..]);
      var e, rest := Encode(s), Encode(s[1..]);
      if s[0] == SLASH {
        assert e[2..] == rest;
      } else if s[0] == TILDE {
        TildeZeroStays(rest);
      } else {
        assert e[1..] == rest;
        PairSkips(e, TILDE, ONE, SLASH);
      }
    }
  }

  lemma {:induction false} TildesBack(s: Text)
    ensures ReplacePair(HalfDecoded(s), TILDE, ZERO, TILDE) == s
  {
    if s != [] {
      TildesBack(s[1..]);
      var h, rest := HalfDecoded(s), HalfDecoded(s[1..]);
      if s[0] == TILDE {
        assert h[2..] == rest;
      } else {
        assert h[1..] == rest;
        PairSkips(h, TILDE, ZERO, TILDE);
      }
    }
  }

  /** Unescaping undoes escaping, whatever the segment. */
  lemma UnescapeEscape(s: Text)
    ensures UnescapePointerSegment(EscapePointerSegment(s)) == s
  {
    EscapeIsEncode(s);
    SlashesBack(s);
    TildesBack(s);
  }

  lemma {:induction false} EncodeFacts(s: Text)
    ensures SLASH !in Encode(s) && TildesPaired(Encode(s))
  {
    if s != [] {
      EncodeFacts(s[1..]);
      var e, rest := Encode(s), Encode(s[1..]);
      var k := |e| - |rest|;
      assert e[k..] == rest;
      forall i | 0 <= i < |e| && e[i] == TILDE
        ensures EscapeAt(e, i)
      {
        if i >= k { assert rest[i - k] == e[i]; assert EscapeAt(rest, i - k); }
      }
    }
  }

  lemma TildesDrop(e: Text, k: nat)
    requires TildesPaired(e) && k <= |e|
    ensures TildesPaired(e[k..])
  {
    var rest := e[k..];
    forall i | 0 <= i < |rest| && rest[i] == TILDE
      ensures EscapeAt(rest, i)
    {
      assert e[i + k] == TILDE && EscapeAt(e, i + k);
    }
  }

  lemma {:induction false} EncodeDecode(e: Text)
    requires SLASH !in e && TildesPaired(e)
    ensures Encode(Decode(e)) == e
  {
    if e != [] {
      assert e[0] == TILDE ==> EscapeAt(e, 0);
      var k := if e[0] == TILDE then 2 else 1;
      var rest := e[k..];
      TildesDrop(e, k);
      EncodeDecode(rest);
      assert Decode(e)[1..] == Decode(rest);
      assert e == e[..k] + rest;
    }
  }

  /** In characters: a tilde is escaped as `~0` and a slash as `~1`, and both are undone. */
  lemma SegmentEscapes()
    ensures EscapePointerSegment(['~' as int]) == ['~' as int, '0' as int]
    ensures EscapePointerSegment(['/' as int]) == ['~' as int, '1' as int]
    ensures UnescapePointerSegment(['~' as int, '0' as int]) == ['~' as int]
    ensures UnescapePointerSegment(['~' as int, '1' as int]) == ['/' as int]
    ensures JoinPointer([], []) == ['/' as int]
  {
    EscapeIsEncode(['~' as int]);
    EscapeIsEncode(['/' as int]);
    UnescapeEscape(['~' as int]);
    UnescapeEscape(['/' as int]);
    assert Encode([]) == [] && EscapePointerSegment([]) == [];
  }

  // ------------------------------------------------------------- whole pointers

  lemma FlatCons(first: Text, rest: seq<Text>)
    ensures Flat([first] + rest) == [SLASH] + (Encode(first) + Flat(rest))
  {
    assert ([first] + rest)[1..] == rest;
  }

  lemma {:induction false} FlatAppend(segments: seq<Text>, s: Text)
    ensures Flat(segments + [s]) == Flat(segments) + ([SLASH] + Encode(s))
  {
    if segments == [] {
      FlatCons(s, []);
      assert [] + [s] == [s] && [s] + [] == [s];
    } else {
      var first, rest := segments[0], segments[1..];
      FlatAppend(rest, s);
      FlatCons(first, rest + [s]);
      assert segments + [s] == [first] + (rest + [s]);
      var last := [SLASH] + Encode(s);
      Assoc(Encode(first), Flat(rest), last);
      Assoc([SLASH], Encode(first) + Flat(rest), last);
    }
  }

  lemma {:induction false} BuildIsFlat(segments: seq<Text>)
    ensures Build(segments) == Flat(segments)
  {
    if segments != [] {
      var n := |segments| - 1;
      BuildIsFlat(segments[..n]);
      EscapeIsEncode(segments[n]);
      FlatAppend(segments[..n], segments[n]);
      Assoc(Flat(segments[..n]), [SLASH], Encode(segments[n]));
      assert segments == segments[..n] + [segments[n]];
    }
  }

  lemma FirstSlashAt(a: Text, rest: Text)
    requires SLASH !in a
    ensures FirstSlash(a + [SLASH] + rest) == |a| && FirstSlash(a) == |a|
  {
    var s := a + [SLASH] + rest;
    var k := FirstSlash(s);
    assert s[|a|] == SLASH;
    assert forall i | 0 <= i < |a| :: s[i] == a[i] && a[i] != SLASH;
    assert forall i | 0 <= i < k :: s[..k][i] == s[i];
    assert s[k] == SLASH;
  }

  lemma SplitStep(a: Text, rest: Text)
    requires SLASH !in a
    ensures Split(a) == [a] && Split(a + [SLASH] + rest) == [a] + Split(rest)
  {
    FirstSlashAt(a, rest);
    var s := a + [SLASH] + rest;
    assert s[..|a|] == a && s[|a| + 1..] == rest;
  }

  lemma {:induction false} SplitFlat(segments: seq<Text>)
    requires segments != []
    ensures Split(Flat(segments)[1..]) == EncodeAll(segments)
  {
    var a, rest := Encode(segments[0]), segments[1..];
    EncodeFacts(segments[0]);
    FlatTail(segments);
    if rest == [] {
      SplitStep(a, []);
    } else {
      SplitStep(a, Flat(rest)[1..]);
      SplitFlat(rest);
    }
  }

  lemma FlatTail(segments: seq<Text>)
    requires segments != []
    ensures var a, rest := Encode(segments[0]), segments[1..];
      Flat(segments)[1..] == if rest == [] then a else a + [SLASH] + Flat(rest)[1..]
  {
    var a, f := Encode(segments[0]), Flat(segments[1..]);
    assert Flat(segments)[1..] == a + f;
    if segments[1..] != [] {
      assert f == [SLASH] + f[1..];
      Assoc(a, [SLASH], f[1..]);
    }
  }

  lemma {:induction false} UnescapeEncodeAll(segments: seq<Text>)
    ensures UnescapeAll(EncodeAll(segments)) == segments
  {
    if segments != [] {
      EscapeIsEncode(segments[0]);
      UnescapeEscape(segments[0]);
      UnescapeEncodeAll(segments[1..]);
      assert EncodeAll(segments)[1..] == EncodeAll(segments[1..]);
    }
  }

  /** Taking apart a pointer built from any list of strings gives that list back. */
  lemma PointerRoundTrip(segments: seq<Text>)
    ensures PointerToPath(Build(segments)) == segments
  {
    BuildIsFlat(segments);
    if segments != [] {
      SplitFlat(segments);
      UnescapeEncodeAll(segments);
    }
  }

  lemma PointersInjective(a: seq<Text>, b: seq<Text>)
    requires Build(a) == Build(b)
    ensures a == b
  {
    PointerRoundTrip(a);
    PointerRoundTrip(b);
  }

  lemma {:induction false} FlatValid(segments: seq<Text>)
    ensures ValidPointer(Flat(segments)) && TildesPaired(Flat(segments))
  {
    if segments != [] {
      FlatValid(segments[1..]);
      EncodeFacts(segments[0]);
      var e, rest := Encode(segments[0]), Flat(segments[1..]);
      var f := Flat(segments);
      forall i | 0 <= i < |f| && f[i] == TILDE
        ensures EscapeAt(f, i)
      {
        if i <= |e| { assert e[i - 1] == TILDE && EscapeAt(e, i - 1); }
        else { assert rest[i - 1 - |e|] == TILDE && EscapeAt(rest, i - 1 - |e|); }
      }
    }
  }

  /** Cutting at a unit that is no digit keeps both sides correct. */
  lemma TildesCut(s: Text, k: nat)
    requires TildesPaired(s) && k <= |s| && (k < |s| ==> s[k] != ZERO && s[k] != ONE)
    ensures TildesPaired(s[..k]) && TildesPaired(s[k..])
  {
    var a, r := s[..k], s[k..];
    forall i | 0 <= i < |a| && a[i] == TILDE ensures EscapeAt(a, i) {
      assert s[i] == TILDE && EscapeAt(s, i);
    }
    forall i | 0 <= i < |r| && r[i] == TILDE ensures EscapeAt(r, i) {
      assert s[i + k] == TILDE && EscapeAt(s, i + k);
    }
  }

  lemma TildesTail(s: Text)
    requires TildesPaired(s) && s != [] && s[0] != TILDE
    ensures TildesPaired(s[1..])
  {
    var r := s[1..];
    forall i | 0 <= i < |r| && r[i] == TILDE ensures EscapeAt(r, i) {
      assert s[i + 1] == TILDE && EscapeAt(s, i + 1);
    }
  }

  lemma DecodeCons(first: Text, rest: seq<Text>)
    ensures DecodeAll([first] + rest) == [Decode(first)] + DecodeAll(rest)
  {
    assert ([first] + rest)[1..] == rest;
  }

  lemma AroundSlash(s: Text, k: nat)
    requires k < |s| && s[k] == SLASH
    ensures s == s[..k] + [SLASH] + s[k + 1..]
  {
  }

  lemma {:induction false} AroundFirstSlash(s: Text)
    requires TildesPaired(s)
    ensures var k := FirstSlash(s);
      SLASH !in s[..k] && TildesPaired(s[..k]) && (k < |s| ==> TildesPaired(s[k + 1..]))
  {
    var k := FirstSlash(s);
    TildesCut(s, k);
    if k < |s| { TildesDrop(s, k + 1); }
  }

  /** A tilde-correct text between slashes splits into correct escapes. */
  lemma {:induction false} FlatOfSplit(s: Text)
    requires TildesPaired(s)
    ensures Flat(DecodeAll(Split(s))) == [SLASH] + s
  {
    var k := FirstSlash(s);
    var a := s[..k];
    AroundFirstSlash(s);
    EncodeDecode(a);
    if k == |s| {
      assert a == s && [s] + [] == [s];
      DecodeCons(s, []);
      FlatCons(Decode(s), []);
    } else {
      var r := s[k + 1..];
      AroundSlash(s, k);
      FlatOfSplit(r);
      SplitStep(a, r);
      DecodeCons(a, Split(r));
      FlatCons(Decode(a), DecodeAll(Split(r)));
      Assoc(a, [SLASH], r);
    }
  }

  /** Rebuilding a pointer from its path gives it back exactly when the pointer is valid. */
  lemma RebuildExactly(p: Text)
    ensures Build(PointerToPath(p)) == p <==> ValidPointer(p)
  {
    var path := PointerToPath(p);
    BuildIsFlat(path);
    FlatValid(path);
    if ValidPointer(p) && p != [] {
      var s := p[1..];
      TildesTail(p);
      FlatOfSplit(s);
      var q := DecodeAll(Split(s));
      assert p == [SLASH] + s;
      BuildIsFlat(q);
      PointerRoundTrip(q);
    }
  }

  // ------------------------------------------------------- nearest known ancestor

  /** `r` is what `locate` knows about the longest prefix of `segments`, of length at least `least`, that it knows. */
  ghost predicate Nearest<T>(locate: seq<Text> -> Option<T>, segments: seq<Text>, least: nat, r: Option<T>) {
    match r
    case None => forall j | least <= j <= |segments| :: locate(segments[..j]).None?
    case Some(_) =>
      exists k | least <= k <= |segments| ::
        locate(segments[..k]) == r && forall j | k < j <= |segments| :: locate(segments[..j]).None?
  }

  /** The root is looked up last, but never for a pointer that starts with something else than a slash. */
  function Least(pointer: Text): nat {
    if pointer == [] || pointer[0] == SLASH then 0 else 1
  }

  method LastSlash(s: Text) returns (k: int)
    ensures -1 <= k < |s| && SLASH !in s[k + 1..] && (k >= 0 ==> s[k] == SLASH)
  {
    k := |s| - 1;
    while k >= 0 && s[k] != SLASH
      invariant -1 <= k < |s| && SLASH !in s[k + 1..]
    {
      k := k - 1;
    }
  }

  lemma Regroup(a: Text, r: Text, e: Text)
    ensures (a + [SLASH] + r) + [SLASH] + e == a + [SLASH] + (r + [SLASH] + e)
  {
  }

  lemma Append(a: Text, parts: seq<Text>, e: Text)
    ensures [a] + (parts + [e]) == ([a] + parts) + [e]
  {
  }

  /** What follows the last slash is the last part. */
  lemma {:induction false} SplitLast(s: Text, e: Text)
    requires SLASH !in e
    ensures Split(s + [SLASH] + e) == Split(s) + [e]
    decreases |s|
  {
    var k := FirstSlash(s);
    SplitStep(e, []);
    if k == |s| {
      assert s[..k] == s;
      SplitStep(s, e);
    } else {
      var a, r := s[..k], s[k + 1..];
      AroundSlash(s, k);
      SplitStep(a, r);
      SplitStep(a, r + [SLASH] + e);
      SplitLast(r, e);
      Regroup(a, r, e);
      Append(a, Split(r), e);
    }
  }

  lemma {:induction false} UnescapeAllAppend(ss: seq<Text>, e: Text)
    ensures UnescapeAll(ss + [e]) == UnescapeAll(ss) + [UnescapePointerSegment(e)]
  {
    if ss == [] {
      assert [] + [e] == [e] && [e][1..] == [];
    } else {
      UnescapeAllAppend(ss[1..], e);
      assert (ss + [e])[1..] == ss[1..] + [e];
    }
  }

  /** Cutting any pointer at its last slash drops the last segment of its path. */
  lemma CutDropsLast(p: Text, k: nat)
    requires k < |p| && p[k] == SLASH && SLASH !in p[k + 1..]
    ensures PointerToPath(p) == PointerToPath(p[..k]) + [UnescapePointerSegment(p[k + 1..])]
  {
    var e := p[k + 1..];
    if k == 0 {
      SplitStep(e, []);
      UnescapeAllAppend([], e);
      assert [] + [e] == [e] && p[..0] == [];
    } else {
      var b := p[..k];
      AroundSlash(p, k);
      assert p[1..] == b[1..] + [SLASH] + e;
      SplitLast(b[1..], e);
      UnescapeAllAppend(Split(b[1..]), e);
    }
  }

  /** Without a slash there is one segment: all but the first unit. */
  lemma OneSegment(p: Text)
    requires p != [] && SLASH !in p
    ensures PointerToPath(p) == [UnescapePointerSegment(p[1..])]
  {
    SplitStep(p[1..], []);
    UnescapeAllAppend([], p[1..]);
    assert [] + [p[1..]] == [p[1..]];
  }

  /** `q` is `p` cut at its last slash. */
  predicate CutOf(p: Text, q: Text) {
    |q| < |p| && q <= p && p[|q|] == SLASH && SLASH !in p[|q| + 1..]
  }

  /** A text that is cut at its last slash again and again. */
  ghost predicate Cutting(cuts: seq<Text>) {
    cuts != [] && forall i | 0 < i < |cuts| :: CutOf(cuts[i - 1], cuts[i])
  }

  /** Cuts the text until `look` knows it, or there is nothing left to cut at. */
  method Shorten<T>(look: Text -> Option<T>, text: Text) returns (r: Option<T>, ghost cuts: seq<Text>)
    ensures Cutting(cuts) && cuts[0] == text && r == look(cuts[|cuts| - 1])
    ensures forall i | 0 <= i < |cuts| - 1 :: look(cuts[i]).None?
    ensures r.None? ==> SLASH !in cuts[|cuts| - 1]
  {
    var current := text;
    cuts := [text];
    while true
      invariant Cutting(cuts) && cuts[0] == text && cuts[|cuts| - 1] == current
      invariant forall i | 0 <= i < |cuts| - 1 :: look(cuts[i]).None?
      decreases |current|
    {
      r := look(current);
      if r.Some? { return; }
      var k := LastSlash(current);
      if k < 0 {
        assert current[0..] == current;
        return;
      }
      current := current[..k];
      cuts := cuts + [current];
    }
  }

  /** The paths of the cut texts are the prefixes of the whole path, one segment shorter each time. */
  lemma {:induction false} CutPaths(cuts: seq<Text>, i: nat)
    requires Cutting(cuts) && i < |cuts|
    ensures var whole := PointerToPath(cuts[0]);
      i <= |whole| && PointerToPath(cuts[i]) == whole[..|whole| - i] && cuts[i] <= cuts[0]
    decreases i
  {
    if i > 0 {
      var whole, p, q := PointerToPath(cuts[0]), cuts[i - 1], cuts[i];
      CutPaths(cuts, i - 1);
      assert CutOf(p, q) && p[..|q|] == q;
      CutDropsLast(p, |q|);
      assert whole[..|whole| - (i - 1)][..|whole| - i] == whole[..|whole| - i];
    } else {
      assert PointerToPath(cuts[0]) == PointerToPath(cuts[0])[..|PointerToPath(cuts[0])|];
    }
  }

  /** At least one segment is left of a text that starts with anything but a slash, and no more without a slash. */
  lemma LeastLeft(cuts: seq<Text>)
    requires Cutting(cuts)
    ensures var n, last := |PointerToPath(cuts[0])|, |cuts| - 1;
      n - last >= Least(cuts[0]) && (SLASH !in cuts[last] ==> n - last == Least(cuts[0]))
  {
    var last := |cuts| - 1;
    CutPaths(cuts, last);
    if cuts[last] == [] {
      if last > 0 { assert CutOf(cuts[last - 1], cuts[last]) && cuts[last - 1][0] == SLASH; }
      if last > 0 { CutPaths(cuts, last - 1); }
    } else {
      PathNotEmpty(cuts[last]);
      if SLASH !in cuts[last] { OneSegment(cuts[last]); }
    }
  }

  lemma PathNotEmpty(p: Text)
    requires p != []
    ensures PointerToPath(p) != []
  {
  }

  /** Shortens the pointer until the document has a position for it, whether or not it follows the grammar. */
  method ResolvePointer<T>(locate: seq<Text> -> Option<T>, pointer: Text) returns (r: Option<T>)
    ensures Nearest(locate, PointerToPath(pointer), Least(pointer), r)
    ensures ValidPointer(pointer) ==> Nearest(locate, PointerToPath(pointer), 0, r)
  {
    ghost var cuts;
    r, cuts := Shorten((current: Text) => locate(PointerToPath(current)), pointer);
    ghost var whole, last := PointerToPath(pointer), |cuts| - 1;
    LeastLeft(cuts);
    CutPaths(cuts, last);
    forall j | |whole| - last < j <= |whole| ensures locate(whole[..j]).None? {
      CutPaths(cuts, |whole| - j);
    }
  }
}
