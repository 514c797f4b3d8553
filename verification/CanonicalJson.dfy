/**
The two canonical printers: the indented one behind configuration snapshots and the
compact one behind every digest and observed version. Both sort object keys at every
level. One printer with a `Style` stands for both; the styles differ only in white
space.
*/
module CanonicalJson {
  import opened Texts
  import opened JsonText

  /** A JSON value. Object members keep the order they were built in; numbers are integers. */
  datatype Json =
    | Null
    | Bool(b: bool)
    | Num(n: int)
    | Str(s: Text)
    | Arr(items: seq<Json>)
    | Obj(members: seq<Pair<Json>>)

  /** No object has a key twice. */
  ghost predicate WellFormed(v: Json) {
    match v
    case Arr(items) => forall i | 0 <= i < |items| :: WellFormed(items[i])
    case Obj(ms) => DistinctKeys(ms) && forall i | 0 <= i < |ms| :: WellFormed(ms[i].value)
    case _ => true
  }

  /** What a value means: a tree whose objects are unordered. */
  datatype Tree =
    | TNull
    | TBool(b: bool)
    | TNum(n: int)
    | TStr(s: Text)
    | TArr(items: seq<Tree>)
    | TObj(members: map<Text, Tree>)

  ghost function Denote(v: Json): Tree {
    match v
    case Null => TNull
    case Bool(b) => TBool(b)
    case Num(n) => TNum(n)
    case Str(s) => TStr(s)
    case Arr(items) => TArr(seq(|items|, i requires 0 <= i < |items| => Denote(items[i])))
    case Obj(ms) => TObj(DenoteMembers(ms))
  }

  ghost function DenoteMembers(ms: seq<Pair<Json>>): map<Text, Tree> {
    if ms == [] then map[] else DenoteMembers(ms[1..])[ms[0].key := Denote(ms[0].value)]
  }

  // ----------------------------------------------------------------- printing

  datatype Style = Compact | Indented

  const COMMA: Unit := 0x2C
  const COLON: Unit := 0x3A
  const NEWLINE: Unit := 0x0A
  const SPACE: Unit := 0x20

  function Indent(d: nat): Text {
    if d == 0 then [] else [SPACE, SPACE] + Indent(d - 1)
  }

  function Opening(style: Style, bracket: Unit): Text {
    if style.Compact? then [bracket] else [bracket, NEWLINE]
  }

  function Lead(style: Style, d: nat): Text {
    if style.Compact? then [] else Indent(d + 1)
  }

  function Separator(style: Style): Text {
    if style.Compact? then [COMMA] else [COMMA, NEWLINE]
  }

  function Closing(style: Style, d: nat, bracket: Unit): Text {
    if style.Compact? then [bracket] else [NEWLINE] + Indent(d) + [bracket]
  }

  function Colon(style: Style): Text {
    if style.Compact? then [COLON] else [COLON, SPACE]
  }

  function Join(lines: seq<Text>, separator: Text): Text {
    if lines == [] then []
    else if |lines| == 1 then lines[0]
    else lines[0] + separator + Join(lines[1..], separator)
  }

  function Framed(style: Style, d: nat, open: Unit, close: Unit, lines: seq<Text>): Text {
    if lines == [] then [open, close]
    else Opening(style, open) + (Join(lines, Separator(style)) + Closing(style, d, close))
  }

  function Print(style: Style, d: nat, v: Json): Text
    decreases v, 1
  {
    match v
    case Null => [0x6E, 0x75, 0x6C, 0x6C]
    case Bool(b) => if b then [0x74, 0x72, 0x75, 0x65] else [0x66, 0x61, 0x6C, 0x73, 0x65]
    case Num(n) => IntegerText(n)
    case Str(s) => Quoted(s)
    case Arr(items) => Framed(style, d, 0x5B, 0x5D, Rows(style, d, false, PrintedItems(style, d, items)))
    case Obj(ms) => Framed(style, d, 0x7B, 0x7D, Rows(style, d, true, Sort(Printed(style, d, ms))))
  }

  /** Each array item printed; an item has no key. */
  function PrintedItems(style: Style, d: nat, items: seq<Json>): seq<Pair<Text>>
    decreases items, 0
  {
    if items == [] then []
    else [Pair([], Print(style, d + 1, items[0]))] + PrintedItems(style, d, items[1..])
  }

  /** Each member with its value printed, in the order the object was built. */
  function Printed(style: Style, d: nat, ms: seq<Pair<Json>>): seq<Pair<Text>>
    decreases ms, 0
  {
    if ms == [] then []
    else [Pair(ms[0].key, Print(style, d + 1, ms[0].value))] + Printed(style, d, ms[1..])
  }

  function Head(style: Style, keyed: bool, key: Text): Text {
    if keyed then Quoted(key) + Colon(style) else []
  }

  function Row(style: Style, d: nat, keyed: bool, p: Pair<Text>): Text {
    Lead(style, d) + (Head(style, keyed, p.key) + p.value)
  }

  function Rows(style: Style, d: nat, keyed: bool, ps: seq<Pair<Text>>): seq<Text> {
    if ps == [] then [] else [Row(style, d, keyed, ps[0])] + Rows(style, d, keyed, ps[1..])
  }

  /** `canonicalJsonStringify`. */
  function CanonicalJsonStringify(v: Json): Text {
    Print(Indented, 0, v) + [NEWLINE]
  }

  /** `canonical`, the text that is digested. */
  function Canonical(v: Json): Text {
    Print(Compact, 0, v)
  }

  // ------------------------------------------------------------- normal forms

  /** Keys sorted at every level. */
  function Norm(v: Json): Json
    decreases v, 1
  {
    match v
    case Arr(items) => Arr(NormItems(items))
    case Obj(ms) => Obj(Sort(NormMembers(ms)))
    case _ => v
  }

  function NormItems(items: seq<Json>): seq<Json>
    decreases items, 0
  {
    if items == [] then [] else [Norm(items[0])] + NormItems(items[1..])
  }

  function NormMembers(ms: seq<Pair<Json>>): seq<Pair<Json>>
    decreases ms, 0
  {
    if ms == [] then [] else [Pair(ms[0].key, Norm(ms[0].value))] + NormMembers(ms[1..])
  }

  ghost predicate Normal(v: Json) {
    match v
    case Arr(items) => forall i | 0 <= i < |items| :: Normal(items[i])
    case Obj(ms) => Sorted(ms) && forall i | 0 <= i < |ms| :: Normal(ms[i].value)
    case _ => true
  }

  lemma {:induction false} NormItemsAt(items: seq<Json>)
    ensures |NormItems(items)| == |items|
    ensures forall i | 0 <= i < |items| :: NormItems(items)[i] == Norm(items[i])
  {
    if items != [] { NormItemsAt(items[1..]); }
  }

  lemma {:induction false} NormMembersAt(ms: seq<Pair<Json>>)
    ensures |NormMembers(ms)| == |ms|
    ensures forall i | 0 <= i < |ms| :: NormMembers(ms)[i] == Pair(ms[i].key, Norm(ms[i].value))
  {
    if ms != [] { NormMembersAt(ms[1..]); }
  }

  lemma {:induction false} NormIsNormal(v: Json)
    ensures Normal(Norm(v))
  {
    match v
    case Arr(items) =>
      NormItemsAt(items);
      forall i | 0 <= i < |items| ensures Normal(NormItems(items)[i]) { NormIsNormal(items[i]); }
    case Obj(ms) =>
      NormMembersAt(ms);
      SortFacts(NormMembers(ms));
      var ns := Sort(NormMembers(ms));
      forall i | 0 <= i < |ns| ensures Normal(ns[i].value) {
        SortMembership(NormMembers(ms), ns[i]);
        var j :| 0 <= j < |ms| && NormMembers(ms)[j] == ns[i];
        NormIsNormal(ms[j].value);
      }
    case _ =>
  }

  // --------------------------------------------- the text depends on Norm only

  lemma {:induction false} PrintedAt(style: Style, d: nat, ms: seq<Pair<Json>>)
    ensures |Printed(style, d, ms)| == |ms|
    ensures forall i | 0 <= i < |ms| :: Printed(style, d, ms)[i] == Pair(ms[i].key, Print(style, d + 1, ms[i].value))
  {
    if ms != [] { PrintedAt(style, d, ms[1..]); }
  }

  /** Printing members and sorting them commute. */
  lemma {:induction false} PrintedInsert(style: Style, d: nat, p: Pair<Json>, ms: seq<Pair<Json>>)
    ensures Printed(style, d, Insert(p, ms)) == Insert(Pair(p.key, Print(style, d + 1, p.value)), Printed(style, d, ms))
  {
    if ms != [] {
      PrintedInsert(style, d, p, ms[1..]);
      assert Insert(p, ms)[1..] == if AtMost(p.key, ms[0].key) then ms else Insert(p, ms[1..]);
    } else {
      assert Printed(style, d, [p]) == [Pair(p.key, Print(style, d + 1, p.value))];
    }
  }

  lemma {:induction false} PrintedSort(style: Style, d: nat, ms: seq<Pair<Json>>)
    ensures Printed(style, d, Sort(ms)) == Sort(Printed(style, d, ms))
  {
    if ms != [] {
      PrintedSort(style, d, ms[1..]);
      PrintedInsert(style, d, ms[0], Sort(ms[1..]));
      assert Printed(style, d, ms)[1..] == Printed(style, d, ms[1..]);
    }
  }

  lemma {:induction false} PrintNorm(style: Style, d: nat, v: Json)
    ensures Print(style, d, Norm(v)) == Print(style, d, v)
    decreases v, 1
  {
    match v
    case Arr(items) => ItemsNorm(style, d, items);
    case Obj(ms) =>
      PrintedNorm(style, d, ms);
      PrintedSort(style, d, NormMembers(ms));
      SortFacts(Printed(style, d, ms));
      SortOfSorted(Sort(Printed(style, d, ms)));
    case _ =>
  }

  lemma {:induction false} ItemsNorm(style: Style, d: nat, items: seq<Json>)
    ensures PrintedItems(style, d, NormItems(items)) == PrintedItems(style, d, items)
    decreases items, 0
  {
    if items != [] {
      PrintNorm(style, d + 1, items[0]);
      ItemsNorm(style, d, items[1..]);
      assert NormItems(items)[1..] == NormItems(items[1..]);
    }
  }

  lemma {:induction false} PrintedNorm(style: Style, d: nat, ms: seq<Pair<Json>>)
    ensures Printed(style, d, NormMembers(ms)) == Printed(style, d, ms)
    decreases ms, 0
  {
    if ms != [] {
      PrintNorm(style, d + 1, ms[0].value);
      PrintedNorm(style, d, ms[1..]);
      assert NormMembers(ms)[1..] == NormMembers(ms[1..]);
    }
  }

  // ------------------------------------- Norm and the unordered tree agree

  /** With distinct keys, the meaning of an object is read off its members. */
  lemma {:induction false} DenoteMembersAt(ms: seq<Pair<Json>>)
    requires DistinctKeys(ms)
    ensures forall k :: k in DenoteMembers(ms) <==> exists i :: 0 <= i < |ms| && ms[i].key == k
    ensures forall i | 0 <= i < |ms| ::
      ms[i].key in DenoteMembers(ms) && DenoteMembers(ms)[ms[i].key] == Denote(ms[i].value)
  {
    if ms != [] {
      DenoteMembersAt(ms[1..]);
      var rest := DenoteMembers(ms[1..]);
      forall k
        ensures k in DenoteMembers(ms) <==> exists i :: 0 <= i < |ms| && ms[i].key == k
      {
        if k in rest {
          var i :| 0 <= i < |ms[1..]| && ms[1..][i].key == k;
          assert ms[i + 1].key == k;
        }
        if i :| 0 < i < |ms| && ms[i].key == k {
          assert ms[1..][i - 1].key == k;
        }
      }
      forall i | 0 <= i < |ms|
        ensures ms[i].key in DenoteMembers(ms) && DenoteMembers(ms)[ms[i].key] == Denote(ms[i].value)
      {
        if i > 0 { assert ms[1..][i - 1] == ms[i]; }
      }
    }
  }

  lemma {:induction false} DenoteNorm(v: Json)
    requires WellFormed(v)
    ensures WellFormed(Norm(v)) && Denote(Norm(v)) == Denote(v)
  {
    match v
    case Arr(items) =>
      NormItemsAt(items);
      forall i | 0 <= i < |items| { DenoteNorm(items[i]); }
    case Obj(ms) =>
      forall i | 0 <= i < |ms| { DenoteNorm(ms[i].value); }
      DenoteNormObject(ms);
    case _ =>
  }

  /** `q` stands among `ps` with the same meaning. */
  ghost predicate Stands(ps: seq<Pair<Json>>, q: Pair<Json>) {
    exists i :: 0 <= i < |ps| && ps[i].key == q.key && Denote(ps[i].value) == Denote(q.value)
  }

  lemma MeaningWithin(ps: seq<Pair<Json>>, qs: seq<Pair<Json>>)
    requires DistinctKeys(ps) && DistinctKeys(qs)
    requires forall q | q in qs :: Stands(ps, q)
    ensures forall k | k in DenoteMembers(qs) :: k in DenoteMembers(ps) && DenoteMembers(ps)[k] == DenoteMembers(qs)[k]
  {
    DenoteMembersAt(ps);
    DenoteMembersAt(qs);
    forall k | k in DenoteMembers(qs)
      ensures k in DenoteMembers(ps) && DenoteMembers(ps)[k] == DenoteMembers(qs)[k]
    {
      var j :| 0 <= j < |qs| && qs[j].key == k;
      assert Stands(ps, qs[j]);
    }
  }

  /** Sorting and normalising each member keeps that member's meaning. */
  ghost predicate EachKept(ms: seq<Pair<Json>>) {
    forall i | 0 <= i < |ms| ::
      WellFormed(Norm(ms[i].value)) && Denote(Norm(ms[i].value)) == Denote(ms[i].value)
  }

  lemma DenoteNormObject(ms: seq<Pair<Json>>)
    requires DistinctKeys(ms) && EachKept(ms)
    ensures WellFormed(Obj(Sort(NormMembers(ms)))) && DenoteMembers(Sort(NormMembers(ms))) == DenoteMembers(ms)
  {
    NormKeepsDistinct(ms);
    NormObjectFormed(ms);
    NormObjectMeans(ms);
  }

  lemma NormKeepsDistinct(ms: seq<Pair<Json>>)
    requires DistinctKeys(ms)
    ensures DistinctKeys(Sort(NormMembers(ms)))
  {
    NormMembersAt(ms);
    SortKeepsDistinct(NormMembers(ms));
  }

  lemma NormObjectFormed(ms: seq<Pair<Json>>)
    requires EachKept(ms) && DistinctKeys(Sort(NormMembers(ms)))
    ensures WellFormed(Obj(Sort(NormMembers(ms))))
  {
    forall q | q in Sort(NormMembers(ms)) ensures WellFormed(q.value) { NormStands(ms, q); }
  }

  lemma NormObjectMeans(ms: seq<Pair<Json>>)
    requires DistinctKeys(ms) && EachKept(ms) && DistinctKeys(Sort(NormMembers(ms)))
    ensures DenoteMembers(Sort(NormMembers(ms))) == DenoteMembers(ms)
  {
    var ss := Sort(NormMembers(ms));
    forall q | q in ss ensures Stands(ms, q) { NormStands(ms, q); }
    forall i | 0 <= i < |ms| ensures Stands(ss, ms[i]) { StandsInNorm(ms, i); }
    MeaningWithin(ms, ss);
    MeaningWithin(ss, ms);
  }

  lemma NormStands(ms: seq<Pair<Json>>, q: Pair<Json>)
    requires EachKept(ms)
    requires q in Sort(NormMembers(ms))
    ensures Stands(ms, q) && WellFormed(q.value)
  {
    NormMembersAt(ms);
    SortMembership(NormMembers(ms), q);
    var i :| 0 <= i < |NormMembers(ms)| && NormMembers(ms)[i] == q;
    assert ms[i].key == q.key;
  }

  lemma StandsInNorm(ms: seq<Pair<Json>>, i: nat)
    requires i < |ms| && Denote(Norm(ms[i].value)) == Denote(ms[i].value)
    ensures Stands(Sort(NormMembers(ms)), ms[i])
  {
    NormMembersAt(ms);
    var ns := NormMembers(ms);
    SortMembership(ns, ns[i]);
    var j :| 0 <= j < |Sort(ns)| && Sort(ns)[j] == ns[i];
    assert Sort(ns)[j].key == ms[i].key;
  }

  lemma {:induction false} NormOfDenote(a: Json, b: Json)
    requires WellFormed(a) && WellFormed(b) && Denote(a) == Denote(b)
    ensures Norm(a) == Norm(b)
    decreases a
  {
    match a
    case Arr(xs) =>
      var ys := b.items;
      NormItemsAt(xs);
      NormItemsAt(ys);
      assert |xs| == |Denote(a).items| && |ys| == |Denote(b).items|;
      forall i | 0 <= i < |xs|
        ensures Norm(xs[i]) == Norm(ys[i])
      {
        assert Denote(a).items[i] == Denote(xs[i]) && Denote(b).items[i] == Denote(ys[i]);
        NormOfDenote(xs[i], ys[i]);
      }
      assert NormItems(xs) == NormItems(ys);
    case Obj(xs) =>
      var ys := b.members;
      forall i, j | 0 <= i < |xs| && 0 <= j < |ys| && Denote(xs[i].value) == Denote(ys[j].value)
        ensures Norm(xs[i].value) == Norm(ys[j].value)
      {
        NormOfDenote(xs[i].value, ys[j].value);
      }
      NormObjects(xs, ys);
    case _ =>
  }

  lemma NormObjects(xs: seq<Pair<Json>>, ys: seq<Pair<Json>>)
    requires DistinctKeys(xs) && DistinctKeys(ys) && DenoteMembers(xs) == DenoteMembers(ys)
    requires forall i, j | 0 <= i < |xs| && 0 <= j < |ys| && Denote(xs[i].value) == Denote(ys[j].value) ::
               Norm(xs[i].value) == Norm(ys[j].value)
    ensures Sort(NormMembers(xs)) == Sort(NormMembers(ys))
  {
    var ps, qs := NormMembers(xs), NormMembers(ys);
    NormMembersAt(xs);
    NormMembersAt(ys);
    DenoteMembersAt(xs);
    DenoteMembersAt(ys);
    forall i | 0 <= i < |xs| ensures ps[i] in qs {
      var j :| 0 <= j < |ys| && ys[j].key == xs[i].key;
      assert qs[j] == ps[i];
    }
    forall j | 0 <= j < |ys| ensures qs[j] in ps {
      var i :| 0 <= i < |xs| && xs[i].key == ys[j].key;
      assert ps[i] == qs[j];
    }
    forall p | p in Sort(ps) ensures p in Sort(qs) { SortMembership(ps, p); SortMembership(qs, p); }
    forall q | q in Sort(qs) ensures q in Sort(ps) { SortMembership(ps, q); SortMembership(qs, q); }
    SortKeepsDistinct(ps);
    SortKeepsDistinct(qs);
    SortFacts(ps);
    SortFacts(qs);
    SortedUnique(Sort(ps), Sort(qs));
  }

  // ------------------------------------------ the text of a normal value is unique

  /** What follows the first line: each further line after a separator, then the closing. */
  function Tail(lines: seq<Text>, separator: Text, closing: Text): Text {
    if lines == [] then closing else separator + (lines[0] + Tail(lines[1..], separator, closing))
  }

  lemma {:induction false} JoinTail(lines: seq<Text>, separator: Text, closing: Text)
    requires lines != []
    ensures Join(lines, separator) + closing == lines[0] + Tail(lines[1..], separator, closing)
  {
    if |lines| > 1 {
      var rest := lines[1..];
      JoinTail(rest, separator, closing);
      calc {
        Join(lines, separator) + closing;
        (lines[0] + separator + Join(rest, separator)) + closing;
        lines[0] + (separator + (Join(rest, separator) + closing));
        lines[0] + (separator + (rest[0] + Tail(rest[1..], separator, closing)));
        lines[0] + Tail(rest, separator, closing);
      }
    } else {
      assert lines[1..] == [];
    }
  }

  /** The first unit of the text of a value tells which kind of value it is. */
  function Kind(v: Json): Unit {
    match v
    case Null => 0x6E
    case Bool(b) => if b then 0x74 else 0x66
    case Num(n) => if n < 0 then MINUS else 0x30
    case Str(s) => QUOTE
    case Arr(_) => 0x5B
    case Obj(_) => 0x7B
  }

  lemma PrintStart(style: Style, d: nat, v: Json)
    ensures Print(style, d, v) != []
    ensures Kind(v) == if IsDigit(Print(style, d, v)[0]) then 0x30 else Print(style, d, v)[0]
  {
    match v
    case Num(n) => IntegerSplit(n, []); assert IntegerText(n) + [] == IntegerText(n);
    case _ =>
  }

  lemma SameKind(style: Style, d: nat, a: Json, b: Json, x: Text, y: Text)
    requires Print(style, d, a) + x == Print(style, d, b) + y
    ensures Kind(a) == Kind(b)
  {
    PrintStart(style, d, a);
    PrintStart(style, d, b);
    assert (Print(style, d, a) + x)[0] == Print(style, d, a)[0] && (Print(style, d, b) + y)[0] == Print(style, d, b)[0];
  }

  /** A framed list after its opening bracket. */
  function Inner(style: Style, d: nat, close: Unit, lines: seq<Text>, x: Text): Text {
    if lines == [] then [close] + x
    else Opening(style, close)[1..] + (lines[0] + Rest(style, d, close, lines[1..], x))
  }

  function Rest(style: Style, d: nat, close: Unit, lines: seq<Text>, x: Text): Text {
    Tail(lines, Separator(style), Closing(style, d, close)) + x
  }

  lemma FramedSplit(style: Style, d: nat, open: Unit, close: Unit, lines: seq<Text>, x: Text)
    ensures Framed(style, d, open, close, lines) + x == [open] + Inner(style, d, close, lines, x)
  {
    if lines != [] {
      JoinTail(lines, Separator(style), Closing(style, d, close));
      var t := Tail(lines[1..], Separator(style), Closing(style, d, close));
      var o := Opening(style, close)[1..];
      assert Opening(style, open) == [open] + o;
      Assoc([open] + o, lines[0] + t, x);
      Assoc(lines[0], t, x);
      Assoc([open], o, lines[0] + (t + x));
    }
  }

  predicate IsClosing(close: Unit) { close == 0x5D || close == 0x7D }

  lemma RestStart(style: Style, d: nat, close: Unit, lines: seq<Text>, x: Text)
    requires IsClosing(close)
    ensures var t := Rest(style, d, close, lines, x); t != [] && Stops(t) && (t[0] == COMMA <==> lines != [])
    ensures lines != [] ==>
      Rest(style, d, close, lines, x) == Separator(style) + (lines[0] + Rest(style, d, close, lines[1..], x))
  {
    if lines != [] {
      var t := Tail(lines[1..], Separator(style), Closing(style, d, close));
      assert Separator(style) + (lines[0] + t) + x == Separator(style) + (lines[0] + (t + x));
    }
  }

  /** From two texts that agree up to what follows, the values and the rest can be told apart. */
  ghost predicate Readable(p: Text, q: Text) {
    forall u, w :: Stops(u) && Stops(w) && p + u == q + w ==> p == q && u == w
  }

  ghost predicate AllReadable(ps: seq<Pair<Text>>, qs: seq<Pair<Text>>) {
    forall i, j | 0 <= i < |ps| && 0 <= j < |qs| :: Readable(ps[i].value, qs[j].value)
  }

  lemma RowInjective(style: Style, d: nat, keyed: bool, p: Pair<Text>, q: Pair<Text>, u: Text, w: Text)
    requires Readable(p.value, q.value) && Stops(u) && Stops(w) && (!keyed ==> p.key == q.key)
    requires Row(style, d, keyed, p) + u == Row(style, d, keyed, q) + w
    ensures p == q && u == w
  {
    var l, g, h := Lead(style, d), Head(style, keyed, p.key), Head(style, keyed, q.key);
    Assoc(l, g + p.value, u);
    Assoc(g, p.value, u);
    Assoc(l, h + q.value, w);
    Assoc(h, q.value, w);
    Cancel(l, g + (p.value + u), h + (q.value + w));
    HeadInjective(style, keyed, p.key, q.key, p.value + u, q.value + w);
  }

  lemma HeadInjective(style: Style, keyed: bool, k: Text, m: Text, u: Text, w: Text)
    requires Head(style, keyed, k) + u == Head(style, keyed, m) + w && (!keyed ==> k == m)
    ensures k == m && u == w
  {
    if keyed {
      var c := Colon(style);
      Assoc(Quoted(k), c, u);
      Assoc(Quoted(m), c, w);
      QuotedInjective(k, m, c + u, c + w);
      Cancel(c, u, w);
    } else {
      assert [] + u == u && [] + w == w;
    }
  }

  ghost predicate Keyless(ps: seq<Pair<Text>>) {
    forall i | 0 <= i < |ps| :: ps[i].key == []
  }

  /** The lists can be told apart, and what follows them need not be. */
  ghost predicate Comparable(keyed: bool, ps: seq<Pair<Text>>, qs: seq<Pair<Text>>, x: Text, y: Text) {
    AllReadable(ps, qs) && (!keyed ==> Keyless(ps) && Keyless(qs)) && Stops(x) && Stops(y)
  }

  lemma {:induction false} RestInjective(
    style: Style, d: nat, close: Unit, keyed: bool, ps: seq<Pair<Text>>, qs: seq<Pair<Text>>, x: Text, y: Text)
    requires IsClosing(close) && Comparable(keyed, ps, qs, x, y)
    requires Rest(style, d, close, Rows(style, d, keyed, ps), x) == Rest(style, d, close, Rows(style, d, keyed, qs), y)
    ensures ps == qs && x == y
    decreases |ps|, 1
  {
    var ls, ms := Rows(style, d, keyed, ps), Rows(style, d, keyed, qs);
    RestStart(style, d, close, ls, x);
    RestStart(style, d, close, ms, y);
    if ps == [] {
      Cancel(Closing(style, d, close), x, y);
    } else {
      var u, w := Rest(style, d, close, ls[1..], x), Rest(style, d, close, ms[1..], y);
      Cancel(Separator(style), ls[0] + u, ms[0] + w);
      FirstInjective(style, d, close, keyed, ps, qs, x, y);
    }
  }

  /** A first row with what follows it. */
  lemma {:induction false} FirstInjective(
    style: Style, d: nat, close: Unit, keyed: bool, ps: seq<Pair<Text>>, qs: seq<Pair<Text>>, x: Text, y: Text)
    requires IsClosing(close) && Comparable(keyed, ps, qs, x, y) && ps != [] && qs != []
    requires var ls, ms := Rows(style, d, keyed, ps), Rows(style, d, keyed, qs);
      ls[0] + Rest(style, d, close, ls[1..], x) == ms[0] + Rest(style, d, close, ms[1..], y)
    ensures ps == qs && x == y
    decreases |ps|, 0
  {
    var ls, ms := Rows(style, d, keyed, ps), Rows(style, d, keyed, qs);
    var u, w := Rest(style, d, close, ls[1..], x), Rest(style, d, close, ms[1..], y);
    RestStart(style, d, close, ls[1..], x);
    RestStart(style, d, close, ms[1..], y);
    RowInjective(style, d, keyed, ps[0], qs[0], u, w);
    RestInjective(style, d, close, keyed, ps[1..], qs[1..], x, y);
    assert ps == [ps[0]] + ps[1..] && qs == [qs[0]] + qs[1..];
  }

  /** No value text starts with a closing bracket, so an empty list is told from any other. */
  ghost predicate Opens(ps: seq<Pair<Text>>) {
    forall i | 0 <= i < |ps| :: ps[i].value != [] && !IsClosing(ps[i].value[0])
  }

  lemma InnerStart(style: Style, d: nat, close: Unit, keyed: bool, ps: seq<Pair<Text>>, x: Text)
    requires IsClosing(close) && Opens(ps)
    ensures var t := Inner(style, d, close, Rows(style, d, keyed, ps), x); t != [] && (t[0] == close <==> ps == [])
  {
    if ps != [] {
      var r := Row(style, d, keyed, ps[0]);
      assert r != [] && !IsClosing(r[0]) by {
        if style.Compact? { assert r == Head(style, keyed, ps[0].key) + ps[0].value; }
        else { assert Lead(style, d)[0] == SPACE; }
      }
      assert Rows(style, d, keyed, ps)[0] == r;
    }
  }

  lemma InnerInjective(
    style: Style, d: nat, close: Unit, keyed: bool, ps: seq<Pair<Text>>, qs: seq<Pair<Text>>, x: Text, y: Text)
    requires IsClosing(close) && Comparable(keyed, ps, qs, x, y) && Opens(ps) && Opens(qs)
    requires Inner(style, d, close, Rows(style, d, keyed, ps), x)
      == Inner(style, d, close, Rows(style, d, keyed, qs), y)
    ensures ps == qs && x == y
  {
    var ls, ms := Rows(style, d, keyed, ps), Rows(style, d, keyed, qs);
    InnerStart(style, d, close, keyed, ps, x);
    InnerStart(style, d, close, keyed, qs, y);
    if ps == [] {
      Cancel([close], x, y);
    } else {
      var u, w := Rest(style, d, close, ls[1..], x), Rest(style, d, close, ms[1..], y);
      Cancel(Opening(style, close)[1..], ls[0] + u, ms[0] + w);
      FirstInjective(style, d, close, keyed, ps, qs, x, y);
    }
  }

  lemma FramedInjective(
    style: Style, d: nat, open: Unit, close: Unit, keyed: bool,
    ps: seq<Pair<Text>>, qs: seq<Pair<Text>>, x: Text, y: Text)
    requires IsClosing(close) && Comparable(keyed, ps, qs, x, y) && Opens(ps) && Opens(qs)
    requires Framed(style, d, open, close, Rows(style, d, keyed, ps)) + x
          == Framed(style, d, open, close, Rows(style, d, keyed, qs)) + y
    ensures ps == qs && x == y
  {
    var ls, ms := Rows(style, d, keyed, ps), Rows(style, d, keyed, qs);
    FramedSplit(style, d, open, close, ls, x);
    FramedSplit(style, d, open, close, ms, y);
    Cancel([open], Inner(style, d, close, ls, x), Inner(style, d, close, ms, y));
    InnerInjective(style, d, close, keyed, ps, qs, x, y);
  }

  lemma {:induction false} PrintedItemsAt(style: Style, d: nat, items: seq<Json>)
    ensures |PrintedItems(style, d, items)| == |items|
    ensures forall i | 0 <= i < |items| :: PrintedItems(style, d, items)[i] == Pair([], Print(style, d + 1, items[i]))
  {
    if items != [] { PrintedItemsAt(style, d, items[1..]); }
  }

  /** Two normal values with the same text, up to what follows, are the same value. */
  lemma {:induction false} PrintInjective(style: Style, d: nat, a: Json, b: Json, x: Text, y: Text)
    requires Normal(a) && Normal(b) && Stops(x) && Stops(y)
    requires Print(style, d, a) + x == Print(style, d, b) + y
    ensures a == b && x == y
    decreases a, 2
  {
    SameKind(style, d, a, b, x, y);
    match a
    case Null => Cancel(Print(style, d, a), x, y);
    case Bool(_) => Cancel(Print(style, d, a), x, y);
    case Num(m) => IntegerInjective(m, b.n, x, y);
    case Str(s) => QuotedInjective(s, b.s, x, y);
    case Arr(_) => ArraysInjective(style, d, a, b, x, y);
    case Obj(_) => ObjectsInjective(style, d, a, b, x, y);
  }

  /** The two texts of two values are readable against each other. */
  lemma {:induction false} PrintReadable(style: Style, d: nat, a: Json, b: Json)
    requires Normal(a) && Normal(b)
    ensures Readable(Print(style, d, a), Print(style, d, b))
    decreases a, 3
  {
    forall u, w | Stops(u) && Stops(w) && Print(style, d, a) + u == Print(style, d, b) + w
      ensures Print(style, d, a) == Print(style, d, b) && u == w
    {
      PrintInjective(style, d, a, b, u, w);
    }
  }

  lemma {:induction false} ArraysInjective(style: Style, d: nat, a: Json, b: Json, x: Text, y: Text)
    requires Normal(a) && Normal(b) && a.Arr? && b.Arr? && Stops(x) && Stops(y)
    requires Print(style, d, a) + x == Print(style, d, b) + y
    ensures a == b && x == y
    decreases a, 1
  {
    ItemsOpen(style, d, a.items);
    ItemsOpen(style, d, b.items);
    ItemsReadable(style, d, a, b);
    FramedInjective(
      style, d, 0x5B, 0x5D, false, PrintedItems(style, d, a.items), PrintedItems(style, d, b.items), x, y);
    SameItems(style, d, a, b);
  }

  lemma ItemsOpen(style: Style, d: nat, items: seq<Json>)
    ensures Opens(PrintedItems(style, d, items)) && Keyless(PrintedItems(style, d, items))
  {
    PrintedItemsAt(style, d, items);
    forall i | 0 <= i < |items| { PrintStart(style, d + 1, items[i]); }
  }

  lemma {:induction false} ItemsReadable(style: Style, d: nat, a: Json, b: Json)
    requires Normal(a) && Normal(b) && a.Arr? && b.Arr?
    ensures AllReadable(PrintedItems(style, d, a.items), PrintedItems(style, d, b.items))
    decreases a, 0
  {
    PrintedItemsAt(style, d, a.items);
    PrintedItemsAt(style, d, b.items);
    forall i, j | 0 <= i < |a.items| && 0 <= j < |b.items|
      ensures Readable(PrintedItems(style, d, a.items)[i].value, PrintedItems(style, d, b.items)[j].value)
    {
      PrintReadable(style, d + 1, a.items[i], b.items[j]);
    }
  }

  /** Values printed alike one by one are alike. */
  lemma {:induction false} SameItems(style: Style, d: nat, a: Json, b: Json)
    requires Normal(a) && Normal(b) && a.Arr? && b.Arr?
    requires PrintedItems(style, d, a.items) == PrintedItems(style, d, b.items)
    ensures a == b
    decreases a, 0
  {
    PrintedItemsAt(style, d, a.items);
    PrintedItemsAt(style, d, b.items);
    forall i | 0 <= i < |a.items| ensures a.items[i] == b.items[i] {
      assert PrintedItems(style, d, a.items)[i].value == PrintedItems(style, d, b.items)[i].value;
      PrintInjective(style, d + 1, a.items[i], b.items[i], [], []);
    }
  }

  lemma {:induction false} ObjectsInjective(style: Style, d: nat, a: Json, b: Json, x: Text, y: Text)
    requires Normal(a) && Normal(b) && a.Obj? && b.Obj? && Stops(x) && Stops(y)
    requires Print(style, d, a) + x == Print(style, d, b) + y
    ensures a == b && x == y
    decreases a, 1
  {
    MembersOpen(style, d, a.members);
    MembersOpen(style, d, b.members);
    MembersReadable(style, d, a, b);
    FramedInjective(style, d, 0x7B, 0x7D, true, Printed(style, d, a.members), Printed(style, d, b.members), x, y);
    SameMembers(style, d, a, b);
  }

  lemma MembersOpen(style: Style, d: nat, ms: seq<Pair<Json>>)
    requires Sorted(ms)
    ensures Opens(Printed(style, d, ms)) && Sort(Printed(style, d, ms)) == Printed(style, d, ms)
  {
    PrintedAt(style, d, ms);
    SortOfSorted(Printed(style, d, ms));
    forall i | 0 <= i < |ms| { PrintStart(style, d + 1, ms[i].value); }
  }

  lemma {:induction false} MembersReadable(style: Style, d: nat, a: Json, b: Json)
    requires Normal(a) && Normal(b) && a.Obj? && b.Obj?
    ensures AllReadable(Printed(style, d, a.members), Printed(style, d, b.members))
    decreases a, 0
  {
    PrintedAt(style, d, a.members);
    PrintedAt(style, d, b.members);
    forall i, j | 0 <= i < |a.members| && 0 <= j < |b.members|
      ensures Readable(Printed(style, d, a.members)[i].value, Printed(style, d, b.members)[j].value)
    {
      PrintReadable(style, d + 1, a.members[i].value, b.members[j].value);
    }
  }

  lemma {:induction false} SameMembers(style: Style, d: nat, a: Json, b: Json)
    requires Normal(a) && Normal(b) && a.Obj? && b.Obj?
    requires Printed(style, d, a.members) == Printed(style, d, b.members)
    ensures a == b
    decreases a, 0
  {
    PrintedAt(style, d, a.members);
    PrintedAt(style, d, b.members);
    forall i | 0 <= i < |a.members| ensures a.members[i] == b.members[i] {
      assert Printed(style, d, a.members)[i] == Printed(style, d, b.members)[i];
      PrintInjective(style, d + 1, a.members[i].value, b.members[i].value, [], []);
    }
  }

  // ------------------------------------------------------------ main theorems

  /** Either printer gives two values the same text exactly when they are the same unordered tree. */
  lemma PrintDecidesEquality(style: Style, d: nat, a: Json, b: Json)
    requires WellFormed(a) && WellFormed(b)
    ensures Print(style, d, a) == Print(style, d, b) <==> Denote(a) == Denote(b)
  {
    PrintNorm(style, d, a);
    PrintNorm(style, d, b);
    DenoteNorm(a);
    DenoteNorm(b);
    if Denote(a) == Denote(b) { NormOfDenote(a, b); }
    if Print(style, d, a) == Print(style, d, b) {
      NormIsNormal(a);
      NormIsNormal(b);
      PrintInjective(style, d, Norm(a), Norm(b), [], []);
    }
  }

  lemma SnapshotDecidesEquality(a: Json, b: Json)
    requires WellFormed(a) && WellFormed(b)
    ensures CanonicalJsonStringify(a) == CanonicalJsonStringify(b) <==> Denote(a) == Denote(b)
  {
    PrintDecidesEquality(Indented, 0, a, b);
    var p, q := Print(Indented, 0, a), Print(Indented, 0, b);
    assert (p + [NEWLINE])[..|p|] == p && (q + [NEWLINE])[..|q|] == q;
  }

  lemma CanonicalDecidesEquality(a: Json, b: Json)
    requires WellFormed(a) && WellFormed(b)
    ensures Canonical(a) == Canonical(b) <==> Denote(a) == Denote(b)
  {
    PrintDecidesEquality(Compact, 0, a, b);
  }
}
