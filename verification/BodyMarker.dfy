/**
The marker that ties a forge issue or pull request to its idempotency key: an HTML
comment at the end of the body. It is found by the leftmost match of a pattern
anchored at the end of the text.
*/
module BodyMarker {
  import opened Prelude

  datatype Kind = Issue | PullRequest

  const OPEN := "<!-- heniek-forge:"
  const CLOSE := " -->"

  function KindText(k: Kind): string {
    match k case Issue => "issue" case PullRequest => "pull-request"
  }

  predicate HexDigit(c: char) { '0' <= c <= '9' || 'a' <= c <= 'f' }

  predicate Hex64(s: string) {
    |s| == 64 && forall i | 0 <= i < |s| :: HexDigit(s[i])
  }

  type Digest = s: string | Hex64(s) witness seq(64, _ => '0')

  /** White space and line terminators of ECMAScript: what `trimEnd` drops and `\s` matches. */
  predicate Space(c: char) {
    var u := c as int;
    0x09 <= u <= 0x0D || u == 0x20 || u == 0xA0 || u == 0x1680 || 0x2000 <= u <= 0x200A
    || u == 0x2028 || u == 0x2029 || u == 0x202F || u == 0x205F || u == 0x3000 || u == 0xFEFF
  }

  /** The code points one by one: the ASCII ones, the separators of Unicode, and the byte order mark. */
  const SPACES: seq<int> := [
    0x09, 0x0A, 0x0B, 0x0C, 0x0D, 0x20, 0xA0, 0x1680, 0x2000, 0x2001, 0x2002, 0x2003, 0x2004, 0x2005, 0x2006, 0x2007,
    0x2008, 0x2009, 0x200A, 0x2028, 0x2029, 0x202F, 0x205F, 0x3000, 0xFEFF]

  lemma SpacesAre(c: char)
    ensures Space(c) <==> c as int in SPACES
  {
    var u := c as int;
    if 0x09 <= u <= 0x0D { assert SPACES[u - 0x09] == u; }
    if 0x2000 <= u <= 0x200A { assert SPACES[u - 0x2000 + 8] == u; }
    assert SPACES[5] == 0x20 && SPACES[6] == 0xA0 && SPACES[7] == 0x1680 && SPACES[19] == 0x2028;
    assert SPACES[20] == 0x2029 && SPACES[21] == 0x202F && SPACES[22] == 0x205F && SPACES[23] == 0x3000;
    assert SPACES[24] == 0xFEFF;
  }

  predicate AllSpace(s: string) {
    forall i | 0 <= i < |s| :: Space(s[i])
  }

  function TrimEnd(s: string): (t: string)
    ensures t <= s && AllSpace(s[|t|..]) && (t != [] ==> !Space(t[|t| - 1]))
  {
    if s != [] && Space(s[|s| - 1]) then
      var t := TrimEnd(s[..|s| - 1]);
      assert s == s[..|s| - 1] + [s[|s| - 1]];
      t
    else s
  }

  function Head(k: Kind): string { OPEN + KindText(k) + ":" }

  function Marker(k: Kind, d: string): string { Head(k) + d + CLOSE }

  /** The marker in full. */
  lemma MarkerText(d: Digest)
    ensures Marker(Issue, d) == "<!-- heniek-forge:issue:" + d + " -->"
    ensures Marker(PullRequest, d) == "<!-- heniek-forge:pull-request:" + d + " -->"
  {
    assert OPEN + "issue" + ":" == "<!-- heniek-forge:issue:";
    assert OPEN + "pull-request" + ":" == "<!-- heniek-forge:pull-request:";
  }

  /** A digest is 64 lower-case hexadecimal digits. */
  lemma DigestsAre(s: string)
    ensures Hex64(s) <==> |s| == 64 && forall i | 0 <= i < |s| :: s[i] in "0123456789abcdef"
  {
    var digits := "0123456789abcdef";
    forall c: char ensures c in digits <==> HexDigit(c) {
      if '0' <= c <= '9' { assert digits[c as int - '0' as int] == c; }
      if 'a' <= c <= 'f' { assert digits[c as int - 'a' as int + 10] == c; }
    }
  }

  // -------------------------------------------------------------------- matching

  /** The pattern without its optional line feeds, from the start of `s` to its end. */
  function MarkerHere(s: string, k: Kind): Option<Digest> {
    var p := |Head(k)|;
    if |s| >= p + 68 && s[..p] == Head(k) && Hex64(s[p..p + 64]) && s[p + 64..p + 68] == CLOSE && AllSpace(s[p + 68..])
    then Some(s[p..p + 64]) else None
  }

  function EitherHere(s: string): Option<Digest> {
    if MarkerHere(s, Issue).Some? then MarkerHere(s, Issue) else MarkerHere(s, PullRequest)
  }

  function MatchHere(s: string): Option<Digest> {
    if "\n\n" <= s && EitherHere(s[2..]).Some? then EitherHere(s[2..]) else EitherHere(s)
  }

  /** The first position from `i` up to `n` where `match_` finds something. */
  function Leftmost<T>(match_: nat -> Option<T>, i: nat, n: nat): (r: Option<(nat, T)>)
    requires i <= n
    ensures r.Some? ==> i <= r.value.0 <= n && match_(r.value.0) == Some(r.value.1)
    ensures forall j | i <= j <= n && match_(j).Some? :: r.Some? && r.value.0 <= j
    decreases n - i
  {
    if match_(i).Some? then Some((i, match_(i).value))
    else if i == n then None
    else Leftmost(match_, i + 1, n)
  }

  function MatchAt(body: string, i: nat): Option<Digest> {
    if i <= |body| then MatchHere(body[i..]) else None
  }

  /** The leftmost match: where it starts and the digest in it. */
  function Exec(body: string): Option<(nat, Digest)> {
    Leftmost(i => MatchAt(body, i), 0, |body|)
  }

  datatype Parsed = Parsed(body: string, linkage: Option<Digest>)

  function BodyAndLinkage(body: string): Parsed {
    match Exec(body)
    case None => Parsed(TrimEnd(body), None)
    case Some(m) => Parsed(TrimEnd(body[..m.0]), Some(m.1))
  }

  function MarkerBody(k: Kind, body: string, d: Digest): string {
    BodyAndLinkage(body).body + "\n\n" + Marker(k, d)
  }

  /** Nothing but white space follows a marker in `body`. */
  ghost predicate HasTrailingMarker(body: string) {
    exists pre, k, d: Digest, rest :: AllSpace(rest) && body == pre + Marker(k, d) + rest
  }

  // ------------------------------------------------------- where a marker can stand

  lemma MarkerParts(k: Kind, d: Digest)
    ensures var m := Marker(k, d); var p := |Head(k)|;
      |m| == p + 68 && m[..p] == Head(k) && m[p..p + 64] == d && m[p + 64..] == CLOSE
  {
  }

  /** A match is a marker followed by white space only. */
  lemma HereIsMarker(s: string, k: Kind)
    requires MarkerHere(s, k).Some?
    ensures var d := MarkerHere(s, k).value; var n := |Head(k)| + 68;
      Hex64(d) && n <= |s| && s[..n] == Marker(k, d) && AllSpace(s[n..])
  {
    var p := |Head(k)|;
    assert s[..p + 68] == s[..p] + s[p..p + 64] + s[p + 64..p + 68];
  }

  lemma MarkerIsHere(k: Kind, d: Digest, rest: string)
    requires AllSpace(rest)
    ensures MarkerHere(Marker(k, d) + rest, k) == Some(d)
  {
    var m := Marker(k, d);
    var s, p := m + rest, |Head(k)|;
    MarkerParts(k, d);
    assert s[..p] == m[..p] && s[p..p + 64] == m[p..p + 64] && s[p + 64..p + 68] == m[p + 64..] && s[p + 68..] == rest;
  }

  /** The text `body` is `pre`, a marker, and white space. */
  ghost predicate MarkedAt(body: string, at: nat, k: Kind, d: string) {
    Hex64(d) && at + |Head(k)| + 68 <= |body| && body[at..at + |Head(k)| + 68] == Marker(k, d)
    && AllSpace(body[at + |Head(k)| + 68..])
  }

  lemma EitherIsMarked(body: string, i: nat)
    requires i <= |body| && EitherHere(body[i..]).Some?
    ensures exists k :: MarkedAt(body, i, k, EitherHere(body[i..]).value)
  {
    var s := body[i..];
    var k := if MarkerHere(s, Issue).Some? then Issue else PullRequest;
    HereIsMarker(s, k);
    var n := |Head(k)| + 68;
    assert body[i..i + n] == s[..n] && body[i + n..] == s[n..];
    assert MarkedAt(body, i, k, EitherHere(s).value);
  }

  /** A match starts at its marker, or at the two line feeds before it. */
  lemma MatchIsMarked(body: string, i: nat)
    requires i <= |body| && MatchHere(body[i..]).Some?
    ensures exists j: nat, k ::
      (j == i || (j == i + 2 && body[i..j] == "\n\n")) && MarkedAt(body, j, k, MatchHere(body[i..]).value)
  {
    var s := body[i..];
    if "\n\n" <= s && EitherHere(s[2..]).Some? {
      assert s[2..] == body[i + 2..] && body[i..i + 2] == s[..2] == "\n\n";
      EitherIsMarked(body, i + 2);
    } else {
      EitherIsMarked(body, i);
    }
  }

  lemma MarkedMatches(body: string, at: nat, k: Kind, d: string)
    requires MarkedAt(body, at, k, d)
    ensures MarkerHere(body[at..], k) == Some(d) && EitherHere(body[at..]).Some?
  {
    var n := |Head(k)| + 68;
    assert body[at..] == body[at..at + n] + body[at + n..];
    MarkerIsHere(k, d, body[at + n..]);
  }

  /** The closing bracket of a marker is the last unit that is no white space. */
  lemma MarkedEnds(body: string, at: nat, k: Kind, d: string)
    requires MarkedAt(body, at, k, d)
    ensures |TrimEnd(body)| == at + |Head(k)| + 68
  {
    var e := at + |Head(k)| + 68;
    var t := TrimEnd(body);
    MarkerParts(k, d);
    assert body[e - 1] == body[at..e][e - at - 1] == CLOSE[3];
    assert forall x | |t| <= x < |body| :: body[|t|..][x - |t|] == body[x];
    assert forall x | e <= x < |body| :: body[e..][x - e] == body[x];
  }

  /** There is at most one trailing marker. */
  lemma MarkedUnique(body: string, i: nat, k: Kind, d: string, j: nat, l: Kind, e: string)
    requires MarkedAt(body, i, k, d) && MarkedAt(body, j, l, e)
    ensures i == j && k == l && d == e
  {
    MarkedEnds(body, i, k, d);
    MarkedEnds(body, j, l, e);
    var n := |TrimEnd(body)|;
    LastKindChar(body, i, k, d);
    LastKindChar(body, j, l, e);
    MarkerParts(k, d);
    MarkerParts(l, e);
  }

  lemma HeadEnds(k: Kind)
    ensures |Head(k)| == |OPEN| + |KindText(k)| + 1 && Head(k)[|Head(k)| - 2] == (if k.Issue? then 'e' else 't')
  {
    var t, n := KindText(k), |OPEN|;
    var u := OPEN + t;
    assert Head(k) == u + ":" && u[n + |t| - 1] == t[|t| - 1];
    assert Head(k)[|Head(k)| - 2] == u[|u| - 1];
  }

  lemma LastKindChar(body: string, at: nat, k: Kind, d: string)
    requires MarkedAt(body, at, k, d)
    ensures var n := at + |Head(k)| + 68;
      n >= 70 && body[n - 70] == (if k.Issue? then 'e' else 't') && body[n - 68..n - 4] == d
  {
    var p := |Head(k)|;
    var m := body[at..at + p + 68];
    MarkerParts(k, d);
    HeadEnds(k);
    assert m[p - 2] == m[..p][p - 2];
    SliceOfSlice(body, at, at + p + 68, p - 2, p - 2);
    SliceOfSlice(body, at, at + p + 68, p, p + 64);
    var n := at + p + 68;
    assert n - 70 == at + (p - 2) && n - 68 == at + p && n - 4 == at + (p + 64);
    assert body[n - 68..n - 4] == m[p..p + 64] == d;
  }

  lemma SliceOfSlice(s: string, i: nat, j: nat, x: nat, y: nat)
    requires i <= j <= |s| && x <= y < j - i
    ensures s[i..j][x] == s[i + x] && s[i..j][x..y] == s[i + x..i + y]
  {
    assert forall k | 0 <= k < y - x :: s[i..j][x..y][k] == s[i..j][x + k] == s[i + x + k];
  }

  // ------------------------------------------------------------------ theorems

  lemma MarkAt(pre: string, k: Kind, d: Digest, rest: string)
    requires AllSpace(rest)
    ensures MarkedAt(pre + Marker(k, d) + rest, |pre|, k, d)
  {
    var body, m := pre + Marker(k, d) + rest, Marker(k, d);
    MarkerParts(k, d);
    assert body[|pre|..|pre| + |m|] == m && body[|pre| + |m|..] == rest;
  }

  lemma ThreeParts(s: string, i: nat, j: nat)
    requires i <= j <= |s|
    ensures s == s[..i] + s[i..j] + s[j..]
  {
  }

  lemma MarkedIsTrailing(body: string, at: nat, k: Kind, d: string)
    requires MarkedAt(body, at, k, d)
    ensures HasTrailingMarker(body)
  {
    ThreeParts(body, at, at + |Head(k)| + 68);
  }

  lemma TrailingIsMarked(body: string)
    requires HasTrailingMarker(body)
    ensures exists at: nat, k, d :: MarkedAt(body, at, k, d)
  {
    var pre, k, d: Digest, rest :| AllSpace(rest) && body == pre + Marker(k, d) + rest;
    MarkAt(pre, k, d, rest);
  }

  lemma LineFeedsMatch(body: string, n: nat)
    requires n + 2 <= |body| && body[n..n + 2] == "\n\n" && EitherHere(body[n + 2..]).Some?
    ensures MatchAt(body, n).Some?
  {
    var s := body[n..];
    assert s[..2] == "\n\n" && s[2..] == body[n + 2..];
  }

  lemma MarkedMatchesAt(body: string, at: nat, k: Kind, d: string)
    requires MarkedAt(body, at, k, d)
    ensures MatchAt(body, at).Some?
    ensures at >= 2 && body[at - 2..at] == "\n\n" ==> MatchAt(body, at - 2).Some?
  {
    MarkedMatches(body, at, k, d);
    if at >= 2 && body[at - 2..at] == "\n\n" { LineFeedsMatch(body, at - 2); }
  }

  /** What the search finds is the trailing marker, from the line feeds before it if they are there. */
  lemma ExecFinds(body: string, at: nat, k: Kind, d: string)
    requires MarkedAt(body, at, k, d)
    ensures Exec(body) == Some((if at >= 2 && body[at - 2..at] == "\n\n" then (at - 2) as nat else at, d))
  {
    MarkedMatchesAt(body, at, k, d);
    var f := (i: nat) => MatchAt(body, i);
    assert f(at).Some?;
    assert at >= 2 && body[at - 2..at] == "\n\n" ==> f(at - 2).Some?;
    var x := Leftmost(f, 0, |body|);
    assert Exec(body) == x;
    ExecIsMarked(body, x.value.0, at, k, d);
  }

  lemma ExecIsMarked(body: string, i: nat, at: nat, k: Kind, d: string)
    requires i <= |body| && MatchAt(body, i).Some? && MarkedAt(body, at, k, d)
    ensures MatchAt(body, i).value == d && (at == i || (at == i + 2 && body[i..at] == "\n\n"))
  {
    MatchIsMarked(body, i);
    var j: nat, l :| (j == i || (j == i + 2 && body[i..j] == "\n\n"))
      && MarkedAt(body, j, l, MatchHere(body[i..]).value);
    MarkedUnique(body, at, k, d, j, l, MatchHere(body[i..]).value);
  }

  lemma ExecTrailing(body: string)
    ensures Exec(body).Some? <==> HasTrailingMarker(body)
  {
    if Exec(body).Some? {
      MatchIsMarked(body, Exec(body).value.0);
      var j: nat, k :| MarkedAt(body, j, k, MatchHere(body[Exec(body).value.0..]).value);
      MarkedIsTrailing(body, j, k, MatchHere(body[Exec(body).value.0..]).value);
    }
    if HasTrailingMarker(body) {
      TrailingIsMarked(body);
      var at: nat, k, d :| MarkedAt(body, at, k, d);
      ExecFinds(body, at, k, d);
    }
  }

  /**
  The parse finds a linkage exactly when there is a trailing marker, and only then changes more
  than trailing space.
  */
  lemma CleanExactly(body: string)
    ensures var r := BodyAndLinkage(body);
      && (r.linkage.Some? <==> HasTrailingMarker(body))
      && (r.body == TrimEnd(body) <==> !HasTrailingMarker(body))
  {
    ExecTrailing(body);
    if HasTrailingMarker(body) {
      TrailingIsMarked(body);
      var at: nat, k, d :| MarkedAt(body, at, k, d);
      ExecFinds(body, at, k, d);
      MarkedEnds(body, at, k, d);
    }
  }

  /** What is posted reads back as the cleaned body and the same digest. */
  lemma RoundTrip(k: Kind, body: string, d: Digest)
    ensures BodyAndLinkage(MarkerBody(k, body, d)) == Parsed(BodyAndLinkage(body).body, Some(d))
  {
    var c := BodyAndLinkage(body).body;
    TrimTrimmed(body);
    ReadBack(k, c, d);
  }

  lemma ReadBack(k: Kind, c: string, d: Digest)
    requires TrimEnd(c) == c
    ensures BodyAndLinkage(c + "\n\n" + Marker(k, d)) == Parsed(c, Some(d))
  {
    var full, pre := c + "\n\n" + Marker(k, d), c + "\n\n";
    assert full == pre + Marker(k, d) + "";
    MarkAt(pre, k, d, "");
    assert full[|pre| - 2..|pre|] == "\n\n" && full[..|c|] == c;
    ExecFinds(full, |pre|, k, d);
  }

  /** A cleaned body has no trailing space left. */
  lemma TrimTrimmed(body: string)
    ensures TrimEnd(BodyAndLinkage(body).body) == BodyAndLinkage(body).body
  {
    var x := if Exec(body).Some? then body[..Exec(body).value.0] else body;
    TrimTwice(x);
  }

  lemma TrimTwice(s: string)
    ensures TrimEnd(TrimEnd(s)) == TrimEnd(s)
  {
  }

  /** Posting twice does not stack markers: the marker of the first body is replaced. */
  lemma Replaced(k: Kind, l: Kind, body: string, d: Digest, e: Digest)
    ensures MarkerBody(l, MarkerBody(k, body, d), e) == MarkerBody(l, body, e)
  {
    RoundTrip(k, body, d);
  }
}
