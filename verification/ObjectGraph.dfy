/**
The walk of the indented printer over objects as they really are in memory: nodes that
may be shared or form a cycle, with `undefined` and non-finite numbers among the values.
The set of nodes on the way from the root to the current one is what tells a cycle from
a node that is merely reached twice.
*/
module ObjectGraph {
  import opened Prelude
  import opened Texts
  import opened CanonicalJson

  /** What an array slot or an object property holds. */
  datatype Ref = Undefined | NonFinite | Scalar(v: Json) | Node(id: nat)

  datatype Cell = ArrayCell(items: seq<Ref>) | ObjectCell(members: seq<Pair<Ref>>)

  type Graph = map<nat, Cell>

  datatype Failure = UndefinedValue | NonFiniteNumber | Cyclic

  function KeylessRefs(items: seq<Ref>): (ps: seq<Pair<Ref>>)
    ensures |ps| == |items| && forall i | 0 <= i < |items| :: ps[i] == Pair([], items[i])
  {
    if items == [] then [] else [Pair([], items[0])] + KeylessRefs(items[1..])
  }

  /** The values below a node in the order they are printed. */
  function Children(c: Cell): seq<Pair<Ref>> {
    match c
    case ArrayCell(items) => KeylessRefs(items)
    case ObjectCell(ms) => Sort(ms)
  }

  /** The array has `r` in one of its slots, or the object in one of its properties. */
  ghost predicate Holds(c: Cell, r: Ref) {
    match c
    case ArrayCell(items) => r in items
    case ObjectCell(ms) => exists i :: 0 <= i < |ms| && ms[i].value == r
  }

  /** What is printed below a node is what the node holds. */
  lemma ChildrenHold(c: Cell, r: Ref)
    ensures (exists q :: q in Children(c) && q.value == r) <==> Holds(c, r)
  {
    match c
    case ArrayCell(items) =>
      if r in items {
        var i :| 0 <= i < |items| && items[i] == r;
        assert KeylessRefs(items)[i] in Children(c);
      }
    case ObjectCell(ms) =>
      if i :| 0 <= i < |ms| && ms[i].value == r {
        SortMembership(ms, ms[i]);
      }
      if q :| q in Children(c) && q.value == r {
        SortMembership(ms, q);
        var i :| 0 <= i < |ms| && ms[i] == q;
      }
  }

  lemma ChildrenWithin(g: Graph, n: nat)
    requires Closed(g) && n in g
    ensures forall p | p in Children(g[n]) :: WithinRef(g, p.value)
  {
    forall p | p in Children(g[n]) ensures WithinRef(g, p.value) { ChildrenHold(g[n], p.value); }
  }

  ghost predicate WithinRef(g: Graph, r: Ref) {
    (r.Node? ==> r.id in g) && (r.Scalar? ==> !r.v.Arr? && !r.v.Obj?)
  }

  /** Every reference leads to a node of the graph. */
  ghost predicate Closed(g: Graph) {
    forall n, r | n in g && Holds(g[n], r) :: WithinRef(g, r)
  }

  // ------------------------------------------------------------- specification

  function Walk(g: Graph, r: Ref, d: nat, visiting: set<nat>): Result<Text, Failure>
    requires Closed(g) && WithinRef(g, r)
    decreases |g.Keys - visiting|, 0
  {
    match r
    case Undefined => Err(UndefinedValue)
    case NonFinite => Err(NonFiniteNumber)
    case Scalar(v) => Ok(Print(Indented, d, v))
    case Node(n) =>
      if n in visiting then Err(Cyclic)
      else
        Smaller(g, visiting, n);
        ChildrenWithin(g, n);
        match WalkAll(g, Children(g[n]), d, visiting + {n})
        case Err(e) => Err(e)
        case Ok(ps) => Ok(Assemble(g[n], d, ps))
  }

  function Assemble(c: Cell, d: nat, ps: seq<Pair<Text>>): Text {
    if c.ArrayCell? then Framed(Indented, d, 0x5B, 0x5D, Rows(Indented, d, false, ps))
    else Framed(Indented, d, 0x7B, 0x7D, Rows(Indented, d, true, ps))
  }

  function WalkAll(g: Graph, rs: seq<Pair<Ref>>, d: nat, visiting: set<nat>): Result<seq<Pair<Text>>, Failure>
    requires Closed(g) && forall p | p in rs :: WithinRef(g, p.value)
    decreases |g.Keys - visiting|, |rs|
  {
    if rs == [] then Ok([])
    else
      match Walk(g, rs[0].value, d + 1, visiting)
      case Err(e) => Err(e)
      case Ok(t) =>
        match WalkAll(g, rs[1..], d, visiting)
        case Err(e) => Err(e)
        case Ok(ts) => Ok([Pair(rs[0].key, t)] + ts)
  }

  lemma Smaller(g: Graph, visiting: set<nat>, n: nat)
    requires n in g && n !in visiting
    ensures |g.Keys - (visiting + {n})| < |g.Keys - visiting|
  {
    assert g.Keys - visiting == (g.Keys - (visiting + {n})) + {n};
  }

  /** How the walk of a list goes on after its first `i` values succeeded. */
  lemma {:induction false} WalkAllNext(g: Graph, rs: seq<Pair<Ref>>, d: nat, visiting: set<nat>, i: nat)
    requires Closed(g) && forall p | p in rs :: WithinRef(g, p.value)
    requires i < |rs| && WalkAll(g, rs[..i], d, visiting).Ok?
    ensures match Walk(g, rs[i].value, d + 1, visiting)
            case Err(e) => WalkAll(g, rs, d, visiting) == Err(e)
            case Ok(t) =>
              WalkAll(g, rs[..i + 1], d, visiting)
              == Ok(WalkAll(g, rs[..i], d, visiting).value + [Pair(rs[i].key, t)])
  {
    var head, more := rs[..i], rs[..i + 1];
    if i > 0 {
      assert head[0] == rs[0] && more[0] == rs[0] && head[1..] == rs[1..][..i - 1] && more[1..] == rs[1..][..i];
      assert rs[1..][i - 1] == rs[i];
      WalkAllNext(g, rs[1..], d, visiting, i - 1);
      var p := Pair(rs[0].key, Walk(g, rs[0].value, d + 1, visiting).value);
      var ts := WalkAll(g, head[1..], d, visiting).value;
      assert forall q :: [p] + (ts + [q]) == ([p] + ts) + [q];
    } else {
      assert head == [] && more == [rs[0]] && more[1..] == [];
      assert forall q: Pair<Text> :: [] + [q] == [q] + [];
    }
  }

  // ------------------------------------------------------------ the mutable walk

  /** The printer with its one mutable set of ancestors, added to and deleted from on the way. */
  class Printer {
    const g: Graph
    var visiting: set<nat>

    constructor (graph: Graph)
      ensures g == graph && visiting == {}
    {
      g := graph;
      visiting := {};
    }

    /** Restores the ancestor set on every exit, also when it fails. */
    method Stringify(r: Ref, d: nat) returns (result: Result<Text, Failure>)
      requires Closed(g) && WithinRef(g, r)
      modifies this
      ensures visiting == old(visiting)
      ensures result == Walk(g, r, d, old(visiting))
      decreases |g.Keys - visiting|, 0
    {
      match r
      case Undefined => return Err(UndefinedValue);
      case NonFinite => return Err(NonFiniteNumber);
      case Scalar(v) => return Ok(Print(Indented, d, v));
      case Node(n) =>
        if n in visiting { return Err(Cyclic); }
        Smaller(g, visiting, n);
        ChildrenWithin(g, n);
        visiting := visiting + {n};
        var parts := StringifyAll(Children(g[n]), d);
        visiting := visiting - {n};
        match parts
        case Err(e) => return Err(e);
        case Ok(ps) => return Ok(Assemble(g[n], d, ps));
    }

    method StringifyAll(rs: seq<Pair<Ref>>, d: nat) returns (result: Result<seq<Pair<Text>>, Failure>)
      requires Closed(g) && forall p | p in rs :: WithinRef(g, p.value)
      modifies this
      ensures visiting == old(visiting)
      ensures result == WalkAll(g, rs, d, old(visiting))
      decreases |g.Keys - visiting|, |rs| + 1
    {
      ghost var before := visiting;
      var done: seq<Pair<Text>> := [];
      var i := 0;
      while i < |rs|
        invariant 0 <= i <= |rs| && visiting == before
        invariant WalkAll(g, rs[..i], d, before) == Ok(done)
      {
        assert rs[i] in rs;
        WalkAllNext(g, rs, d, before, i);
        var text := Stringify(rs[i].value, d + 1);
        match text {
          case Err(e) => return Err(e);
          case Ok(t) => done := done + [Pair(rs[i].key, t)];
        }
        i := i + 1;
      }
      assert rs[..i] == rs;
      return Ok(done);
    }
  }

  // --------------------------------------------------------- paths and cycles

  /** `p` lists the nodes on a way down from `r`. */
  ghost predicate Path(g: Graph, r: Ref, p: seq<nat>) {
    && p != [] && r == Node(p[0])
    && (forall i | 0 <= i < |p| :: p[i] in g)
    && (forall i | 0 < i < |p| :: Below(g, p[i - 1], Node(p[i])))
  }

  ghost predicate Below(g: Graph, n: nat, r: Ref) {
    n in g && Holds(g[n], r)
  }

  ghost predicate CycleBelow(g: Graph, r: Ref) {
    exists p :: Path(g, r, p) && Loops(p)
  }

  ghost predicate Loops(p: seq<nat>) {
    p != [] && p[|p| - 1] in p[..|p| - 1]
  }

  /** The value `bad` is `r` itself or stands somewhere below it. */
  ghost predicate Found(g: Graph, r: Ref, bad: Ref) {
    r == bad || exists p :: Path(g, r, p) && Below(g, p[|p| - 1], bad)
  }

  lemma {:induction false} WalkAllAt(g: Graph, rs: seq<Pair<Ref>>, d: nat, visiting: set<nat>, q: Pair<Ref>)
    requires Closed(g) && forall p | p in rs :: WithinRef(g, p.value)
    requires WalkAll(g, rs, d, visiting).Ok? && q in rs
    ensures Walk(g, q.value, d + 1, visiting).Ok?
    decreases |rs|
  {
    if q != rs[0] {
      assert rs == [rs[0]] + rs[1..];
      WalkAllAt(g, rs[1..], d, visiting, q);
    }
  }

  lemma OkBelow(g: Graph, n: nat, d: nat, visiting: set<nat>, r: Ref)
    requires Closed(g) && n in g && Walk(g, Node(n), d, visiting).Ok? && Below(g, n, r)
    ensures WithinRef(g, r) && Walk(g, r, d + 1, visiting + {n}).Ok?
  {
    ChildrenHold(g[n], r);
    ChildrenWithin(g, n);
    var q :| q in Children(g[n]) && q.value == r;
    WalkAllAt(g, Children(g[n]), d, visiting + {n}, q);
  }

  /** A successful walk has met no ancestor and no bad value on any way down. */
  lemma {:induction false} OkPath(g: Graph, r: Ref, d: nat, visiting: set<nat>, p: seq<nat>)
    requires Closed(g) && WithinRef(g, r) && Walk(g, r, d, visiting).Ok? && Path(g, r, p)
    ensures forall i | 0 <= i < |p| :: p[i] !in visiting
    ensures !Loops(p)
    ensures !Below(g, p[|p| - 1], Undefined) && !Below(g, p[|p| - 1], NonFinite)
    decreases |p|
  {
    var n := p[0];
    forall r | Below(g, n, r) ensures Walk(g, r, d + 1, visiting + {n}).Ok? { OkBelow(g, n, d, visiting, r); }
    if |p| > 1 {
      assert Below(g, p[0], Node(p[1]));
      assert Path(g, Node(p[1]), p[1..]) by {
        forall i | 0 < i < |p[1..]| ensures Below(g, p[1..][i - 1], Node(p[1..][i])) {
          assert Below(g, p[i], Node(p[i + 1]));
        }
      }
      OkPath(g, Node(p[1]), d + 1, visiting + {n}, p[1..]);
      assert p[1..][|p| - 2] == p[|p| - 1];
      forall i | 0 <= i < |p| - 1 ensures p[i] != p[|p| - 1] {
        if i > 0 { assert p[1..][..|p| - 2][i - 1] == p[i]; }
      }
    }
  }

  /** `r` is reached from the root through exactly the nodes of `way`. */
  ghost predicate Reached(g: Graph, root: Ref, way: seq<nat>, r: Ref) {
    if way == [] then r == root else Path(g, root, way) && Below(g, way[|way| - 1], r)
  }

  ghost predicate Justified(g: Graph, root: Ref, e: Failure) {
    match e
    case UndefinedValue => Found(g, root, Undefined)
    case NonFiniteNumber => Found(g, root, NonFinite)
    case Cyclic => CycleBelow(g, root)
  }

  lemma StepDown(g: Graph, root: Ref, way: seq<nat>, n: nat)
    requires Reached(g, root, way, Node(n)) && n in g
    ensures Path(g, root, way + [n])
  {
    var p := way + [n];
    forall i | 0 < i < |p| ensures Below(g, p[i - 1], Node(p[i])) {
      if i < |way| { assert Below(g, way[i - 1], Node(way[i])); }
    }
  }

  /** Every failure names something that is really there. */
  lemma {:induction false} ErrReal(g: Graph, root: Ref, way: seq<nat>, r: Ref, d: nat, visiting: set<nat>)
    requires Closed(g) && WithinRef(g, r) && Reached(g, root, way, r)
    requires forall n :: n in visiting <==> n in way
    requires Walk(g, r, d, visiting).Err?
    ensures Justified(g, root, Walk(g, r, d, visiting).error)
    decreases |g.Keys - visiting|, 0
  {
    match r
    case Undefined => if way != [] { assert Path(g, root, way); }
    case NonFinite => if way != [] { assert Path(g, root, way); }
    case Node(n) =>
      StepDown(g, root, way, n);
      var p := way + [n];
      if n in visiting {
        assert Loops(p) by { assert p[..|p| - 1] == way; }
      } else {
        Smaller(g, visiting, n);
        ChildrenWithin(g, n);
        forall q | q in Children(g[n]) ensures Reached(g, root, p, q.value) { ChildrenHold(g[n], q.value); }
        ErrRealAll(g, root, p, Children(g[n]), d, visiting + {n});
      }
  }

  lemma {:induction false} ErrRealAll(
    g: Graph, root: Ref, way: seq<nat>, rs: seq<Pair<Ref>>, d: nat, visiting: set<nat>)
    requires Closed(g) && forall q | q in rs :: WithinRef(g, q.value) && Reached(g, root, way, q.value)
    requires forall n :: n in visiting <==> n in way
    requires WalkAll(g, rs, d, visiting).Err?
    ensures Justified(g, root, WalkAll(g, rs, d, visiting).error)
    decreases |g.Keys - visiting|, |rs|
  {
    if Walk(g, rs[0].value, d + 1, visiting).Err? {
      ErrReal(g, root, way, rs[0].value, d + 1, visiting);
    } else {
      ErrRealAll(g, root, way, rs[1..], d, visiting);
    }
  }

  /** The walk succeeds exactly when no cycle and no unprintable value is below the root. */
  lemma WalkSucceedsExactly(g: Graph, r: Ref, d: nat)
    requires Closed(g) && WithinRef(g, r)
    ensures Walk(g, r, d, {}).Ok? <==> !CycleBelow(g, r) && !Found(g, r, Undefined) && !Found(g, r, NonFinite)
    ensures Walk(g, r, d, {}).Err? ==> Justified(g, r, Walk(g, r, d, {}).error)
  {
    if Walk(g, r, d, {}).Ok? {
      forall p | Path(g, r, p)
        ensures !Loops(p) && !Below(g, p[|p| - 1], Undefined) && !Below(g, p[|p| - 1], NonFinite)
      {
        OkPath(g, r, d, {}, p);
      }
    } else {
      ErrReal(g, r, [], r, d, {});
    }
  }

  /** On printable values a cycle is reported exactly when there is one, never for a shared node. */
  lemma CycleReportedExactly(g: Graph, r: Ref, d: nat)
    requires Closed(g) && WithinRef(g, r) && !Found(g, r, Undefined) && !Found(g, r, NonFinite)
    ensures Walk(g, r, d, {}) == Err(Cyclic) <==> CycleBelow(g, r)
  {
    WalkSucceedsExactly(g, r, d);
    var w := Walk(g, r, d, {});
    if w.Err? {
      assert w.error.Cyclic? by { assert Justified(g, r, w.error); }
    }
  }

  // ------------------------------------------------------------- what is printed

  /** `v` is the tree that unfolds from `r`: every slot and every property, in the order they are in. */
  ghost predicate IsTree(g: Graph, r: Ref, v: Json)
    decreases v
  {
    match r
    case Scalar(x) => v == x
    case Node(n) =>
      n in g &&
      (match g[n]
       case ArrayCell(items) =>
         && v.Arr? && |v.items| == |items|
         && forall i | 0 <= i < |items| :: IsTree(g, items[i], v.items[i])
       case ObjectCell(ms) =>
         && v.Obj? && |v.members| == |ms|
         && forall i | 0 <= i < |ms| :: v.members[i].key == ms[i].key && IsTree(g, ms[i].value, v.members[i].value))
    case _ => false
  }

  lemma {:induction false} TreeUnique(g: Graph, r: Ref, v: Json, w: Json)
    requires IsTree(g, r, v) && IsTree(g, r, w)
    ensures v == w
    decreases v
  {
    if r.Node? {
      match g[r.id]
      case ArrayCell(items) =>
        forall i | 0 <= i < |items| ensures v.items[i] == w.items[i] {
          TreeUnique(g, items[i], v.items[i], w.items[i]);
        }
        assert v.items == w.items;
      case ObjectCell(ms) =>
        forall i | 0 <= i < |ms| ensures v.members[i] == w.members[i] {
          TreeUnique(g, ms[i].value, v.members[i].value, w.members[i].value);
        }
        assert v.members == w.members;
    }
  }

  ghost function Size(v: Json): nat
    decreases v, 1
  {
    match v
    case Arr(items) => 1 + SizeOfItems(items)
    case Obj(ms) => 1 + SizeOfMembers(ms)
    case _ => 0
  }

  ghost function SizeOfItems(items: seq<Json>): nat
    decreases items, 0
  {
    if items == [] then 0 else Size(items[0]) + SizeOfItems(items[1..])
  }

  ghost function SizeOfMembers(ms: seq<Pair<Json>>): nat
    decreases ms, 0
  {
    if ms == [] then 0 else Size(ms[0].value) + SizeOfMembers(ms[1..])
  }

  lemma {:induction false} ItemSmaller(items: seq<Json>, i: nat)
    requires i < |items|
    ensures Size(items[i]) <= SizeOfItems(items)
  {
    if i > 0 { ItemSmaller(items[1..], i - 1); }
  }

  lemma {:induction false} MemberSmaller(ms: seq<Pair<Json>>, i: nat)
    requires i < |ms|
    ensures Size(ms[i].value) <= SizeOfMembers(ms)
  {
    if i > 0 { MemberSmaller(ms[1..], i - 1); }
  }

  /** The references with the trees they unfold to. */
  ghost predicate Aligned(g: Graph, rs: seq<Pair<Ref>>, vs: seq<Pair<Json>>) {
    && |rs| == |vs|
    && forall i | 0 <= i < |rs| :: rs[i].key == vs[i].key && IsTree(g, rs[i].value, vs[i].value)
  }

  lemma {:induction false} InsertAligned(g: Graph, r: Pair<Ref>, rs: seq<Pair<Ref>>, v: Pair<Json>, vs: seq<Pair<Json>>)
    requires Aligned(g, rs, vs) && r.key == v.key && IsTree(g, r.value, v.value)
    ensures Aligned(g, Insert(r, rs), Insert(v, vs))
    decreases |rs|
  {
    if rs != [] && !AtMost(r.key, rs[0].key) {
      InsertAligned(g, r, rs[1..], v, vs[1..]);
    }
  }

  /** Sorting by key keeps each value with its tree. */
  lemma {:induction false} SortAligned(g: Graph, rs: seq<Pair<Ref>>, vs: seq<Pair<Json>>)
    requires Aligned(g, rs, vs)
    ensures Aligned(g, Sort(rs), Sort(vs))
    decreases |rs|
  {
    if rs != [] {
      SortAligned(g, rs[1..], vs[1..]);
      InsertAligned(g, rs[0], Sort(rs[1..]), vs[0], Sort(vs[1..]));
    }
  }

  ghost function KeylessJson(items: seq<Json>): (ps: seq<Pair<Json>>)
    ensures |ps| == |items| && forall i | 0 <= i < |items| :: ps[i] == Pair([], items[i])
  {
    if items == [] then [] else [Pair([], items[0])] + KeylessJson(items[1..])
  }

  lemma {:induction false} PrintedKeyless(d: nat, items: seq<Json>)
    ensures Printed(Indented, d, KeylessJson(items)) == PrintedItems(Indented, d, items)
  {
    if items != [] {
      PrintedKeyless(d, items[1..]);
      assert KeylessJson(items)[1..] == KeylessJson(items[1..]);
    }
  }

  /** The values below a node in the order they are printed, each with its key. */
  ghost function Parts(v: Json): seq<Pair<Json>>
    requires v.Arr? || v.Obj?
  {
    if v.Arr? then KeylessJson(v.items) else Sort(v.members)
  }

  lemma PartsAligned(g: Graph, n: nat, v: Json)
    requires IsTree(g, Node(n), v)
    ensures Aligned(g, Children(g[n]), Parts(v)) && forall q | q in Parts(v) :: Size(q.value) < Size(v)
  {
    match g[n]
    case ArrayCell(items) =>
      forall i | 0 <= i < |v.items| ensures Size(v.items[i]) < Size(v) { ItemSmaller(v.items, i); }
    case ObjectCell(ms) =>
      SortAligned(g, ms, v.members);
      forall q | q in Parts(v) ensures Size(q.value) < Size(v) {
        SortMembership(v.members, q);
        var i :| 0 <= i < |v.members| && v.members[i] == q;
        MemberSmaller(v.members, i);
      }
  }

  lemma AssemblePrints(c: Cell, d: nat, v: Json)
    requires if c.ArrayCell? then v.Arr? else v.Obj?
    ensures Assemble(c, d, Printed(Indented, d, Parts(v))) == Print(Indented, d, v)
  {
    if v.Arr? { PrintedKeyless(d, v.items); } else { PrintedSort(Indented, d, v.members); }
  }

  /** Every node of `visiting` unfolds to a tree that is larger than `size`. */
  ghost predicate AllLarger(g: Graph, visiting: set<nat>, size: nat) {
    forall n | n in visiting :: exists w :: IsTree(g, Node(n), w) && Size(w) > size
  }

  lemma LargerWith(g: Graph, visiting: set<nat>, n: nat, v: Json, size: nat)
    requires AllLarger(g, visiting, Size(v)) && IsTree(g, Node(n), v) && size < Size(v)
    ensures AllLarger(g, visiting + {n}, size)
  {
    forall m | m in visiting + {n} ensures exists w :: IsTree(g, Node(m), w) && Size(w) > size {
      if m in visiting {
        var w :| IsTree(g, Node(m), w) && Size(w) > Size(v);
      }
    }
  }

  /** Where there is a tree the walk prints it. */
  lemma {:induction false} WalkOfTree(g: Graph, r: Ref, d: nat, visiting: set<nat>, v: Json)
    requires Closed(g) && WithinRef(g, r) && IsTree(g, r, v) && AllLarger(g, visiting, Size(v))
    ensures Walk(g, r, d, visiting) == Ok(Print(Indented, d, v))
    decreases Size(v), 1, 0
  {
    if r.Node? {
      var n := r.id;
      if n in visiting {
        var w :| IsTree(g, Node(n), w) && Size(w) > Size(v);
        TreeUnique(g, r, v, w);
      }
      PartsAligned(g, n, v);
      ChildrenWithin(g, n);
      forall size: nat | size < Size(v) ensures AllLarger(g, visiting + {n}, size) {
        LargerWith(g, visiting, n, v, size);
      }
      WalkAllOfTrees(g, Children(g[n]), d, visiting + {n}, Parts(v), Size(v));
      AssemblePrints(g[n], d, v);
    }
  }

  lemma {:induction false} WalkAllOfTrees(
    g: Graph, rs: seq<Pair<Ref>>, d: nat, visiting: set<nat>, vs: seq<Pair<Json>>, bound: nat)
    requires Closed(g) && (forall p | p in rs :: WithinRef(g, p.value)) && Aligned(g, rs, vs)
    requires forall q | q in vs :: Size(q.value) < bound
    requires forall size: nat | size < bound :: AllLarger(g, visiting, size)
    ensures WalkAll(g, rs, d, visiting) == Ok(Printed(Indented, d, vs))
    decreases bound, 0, |rs|
  {
    if rs != [] {
      assert vs[0] in vs;
      WalkOfTree(g, rs[0].value, d + 1, visiting, vs[0].value);
      WalkAllOfTrees(g, rs[1..], d, visiting, vs[1..], bound);
    }
  }

  /** What the walk prints without failing unfolds to a tree. */
  lemma {:induction false} TreeOfWalk(g: Graph, r: Ref, d: nat, visiting: set<nat>) returns (v: Json)
    requires Closed(g) && WithinRef(g, r) && Walk(g, r, d, visiting).Ok?
    ensures IsTree(g, r, v)
    decreases |g.Keys - visiting|, 0
  {
    match r
    case Scalar(x) => v := x;
    case Node(n) =>
      Smaller(g, visiting, n);
      forall q | Below(g, n, q) ensures WithinRef(g, q) && Walk(g, q, d + 1, visiting + {n}).Ok? {
        OkBelow(g, n, d, visiting, q);
      }
      match g[n] {
        case ArrayCell(items) =>
          assert forall q | q in items :: Below(g, n, q);
          var vs := TreesOfWalks(g, items, d + 1, visiting + {n});
          v := Arr(vs);
        case ObjectCell(ms) =>
          var refs := seq(|ms|, i requires 0 <= i < |ms| => ms[i].value);
          assert forall q | q in refs :: Below(g, n, q);
          var vs := TreesOfWalks(g, refs, d + 1, visiting + {n});
          v := Obj(seq(|ms|, i requires 0 <= i < |ms| => Pair(ms[i].key, vs[i])));
      }
  }

  lemma {:induction false} TreesOfWalks(g: Graph, refs: seq<Ref>, d: nat, visiting: set<nat>) returns (vs: seq<Json>)
    requires Closed(g) && forall r | r in refs :: WithinRef(g, r) && Walk(g, r, d, visiting).Ok?
    ensures |vs| == |refs| && forall i | 0 <= i < |refs| :: IsTree(g, refs[i], vs[i])
    decreases |g.Keys - visiting|, |refs| + 1
  {
    if refs == [] {
      vs := [];
    } else {
      assert refs[0] in refs;
      var v := TreeOfWalk(g, refs[0], d, visiting);
      var rest := TreesOfWalks(g, refs[1..], d, visiting);
      vs := [v] + rest;
    }
  }

  /**
  The walk prints exactly the graphs that unfold to a tree, and prints that tree: every slot of every array in order,
  and every property of every object, by sorted key.
  */
  lemma WalkPrints(g: Graph, r: Ref, d: nat)
    requires Closed(g) && WithinRef(g, r)
    ensures Walk(g, r, d, {}).Ok? <==> exists v :: IsTree(g, r, v)
    ensures forall v | IsTree(g, r, v) :: Walk(g, r, d, {}) == Ok(Print(Indented, d, v))
  {
    forall v | IsTree(g, r, v) ensures Walk(g, r, d, {}) == Ok(Print(Indented, d, v)) {
      WalkOfTree(g, r, d, {}, v);
    }
    if Walk(g, r, d, {}).Ok? {
      var v := TreeOfWalk(g, r, d, {});
      assert IsTree(g, r, v);
    }
  }

  /** `canonicalJsonStringify`: the tree that the graph unfolds to, with a final newline, or the fault there is. */
  method CanonicalStringify(g: Graph, r: Ref) returns (result: Result<Text, Failure>)
    requires Closed(g) && WithinRef(g, r)
    ensures result.Ok? <==> exists v :: IsTree(g, r, v)
    ensures forall v | IsTree(g, r, v) :: result == Ok(CanonicalJsonStringify(v))
    ensures result.Err? ==> Justified(g, r, result.error)
  {
    WalkPrints(g, r, 0);
    WalkSucceedsExactly(g, r, 0);
    var printer := new Printer(g);
    var text := printer.Stringify(r, 0);
    match text
    case Err(e) => return Err(e);
    case Ok(t) => return Ok(t + [NEWLINE]);
  }
}
