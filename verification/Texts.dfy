/**
Strings as the program sees them: sequences of UTF-16 code units, compared unit by
unit, and the sort by key that every canonical order is built on.
*/
module Texts {

  type Unit = u: int | 0 <= u < 0x1_0000

  type Text = seq<Unit>

  /** `a` comes no later than `b` in code-unit order. */
  predicate AtMost(a: Text, b: Text) {
    a == [] || (b != [] && (a[0] < b[0] || (a[0] == b[0] && AtMost(a[1..], b[1..]))))
  }

  /** The order of code units: a prefix comes first, and otherwise the first unit that differs decides. */
  lemma {:induction false} AtMostExactly(a: Text, b: Text)
    ensures AtMost(a, b) <==> a <= b || exists k :: DiffersAt(a, b, k) && a[k] < b[k]
  {
    if a != [] && b != [] {
      if a[0] != b[0] {
        assert DiffersAt(a, b, 0);
      } else {
        AtMostExactly(a[1..], b[1..]);
        assert a == [a[0]] + a[1..] && b == [b[0]] + b[1..];
        if k :| DiffersAt(a[1..], b[1..], k) && a[1..][k] < b[1..][k] {
          assert DiffersAt(a, b, k + 1) by { assert a[..k + 1] == [a[0]] + a[1..][..k] == b[..k + 1]; }
        }
        if k :| DiffersAt(a, b, k) && a[k] < b[k] {
          assert DiffersAt(a[1..], b[1..], k - 1) by {
            assert a[1..][..k - 1] == a[..k][1..] == b[..k][1..] == b[1..][..k - 1];
          }
        }
      }
    }
  }

  /** The texts are the same up to the unit at `k`, and differ there. */
  predicate DiffersAt(a: Text, b: Text, k: int) {
    0 <= k < |a| && k < |b| && a[..k] == b[..k] && a[k] != b[k]
  }

  lemma {:induction false} AtMostTotal(a: Text, b: Text)
    ensures AtMost(a, b) || AtMost(b, a)
  {
    if a != [] && b != [] && a[0] == b[0] { AtMostTotal(a[1..], b[1..]); }
  }

  lemma {:induction false} AtMostAntisymmetric(a: Text, b: Text)
    requires AtMost(a, b) && AtMost(b, a)
    ensures a == b
  {
    if a != [] && b != [] {
      AtMostAntisymmetric(a[1..], b[1..]);
      assert a == [a[0]] + a[1..] && b == [b[0]] + b[1..];
    }
  }

  lemma {:induction false} AtMostTransitive(a: Text, b: Text, c: Text)
    requires AtMost(a, b) && AtMost(b, c)
    ensures AtMost(a, c)
  {
    if a != [] && a[0] == b[0] && b[0] == c[0] { AtMostTransitive(a[1..], b[1..], c[1..]); }
  }

  /** One keyed value: an object member, a printed member, a named file. */
  datatype Pair<T> = Pair(key: Text, value: T)

  function Insert<T>(p: Pair<T>, ps: seq<Pair<T>>): seq<Pair<T>> {
    if ps == [] || AtMost(p.key, ps[0].key) then [p] + ps else [ps[0]] + Insert(p, ps[1..])
  }

  /** Sorts by key, as the default sort of the key strings does. */
  function Sort<T>(ps: seq<Pair<T>>): seq<Pair<T>> {
    if ps == [] then [] else Insert(ps[0], Sort(ps[1..]))
  }

  ghost predicate Sorted<T>(ps: seq<Pair<T>>) {
    forall i, j | 0 <= i < j < |ps| :: AtMost(ps[i].key, ps[j].key)
  }

  ghost predicate DistinctKeys<T>(ps: seq<Pair<T>>) {
    forall i, j | 0 <= i < j < |ps| :: ps[i].key != ps[j].key
  }

  lemma {:induction false} InsertKeepsAll<T>(p: Pair<T>, ps: seq<Pair<T>>)
    ensures multiset(Insert(p, ps)) == multiset([p] + ps)
    ensures |Insert(p, ps)| == |ps| + 1
  {
    if ps != [] && !AtMost(p.key, ps[0].key) {
      InsertKeepsAll(p, ps[1..]);
      assert ps == [ps[0]] + ps[1..];
    }
  }

  lemma {:induction false} InsertFacts<T>(p: Pair<T>, ps: seq<Pair<T>>)
    requires Sorted(ps)
    ensures Sorted(Insert(p, ps))
    ensures multiset(Insert(p, ps)) == multiset([p] + ps)
    ensures |Insert(p, ps)| == |ps| + 1
  {
    InsertKeepsAll(p, ps);
    if ps == [] {
    } else if AtMost(p.key, ps[0].key) {
      forall j | 0 <= j < |ps| ensures AtMost(p.key, ps[j].key) {
        if j > 0 { AtMostTransitive(p.key, ps[0].key, ps[j].key); }
      }
    } else {
      InsertFacts(p, ps[1..]);
      AtMostTotal(p.key, ps[0].key);
      var t := Insert(p, ps[1..]);
      forall j | 0 <= j < |t| ensures AtMost(ps[0].key, t[j].key) {
        assert t[j] in multiset(t);
        assert t[j] in [p] + ps[1..];
      }
    }
  }

  lemma {:induction false} SortFacts<T>(ps: seq<Pair<T>>)
    ensures Sorted(Sort(ps))
    ensures multiset(Sort(ps)) == multiset(ps)
    ensures |Sort(ps)| == |ps|
  {
    if ps != [] {
      SortFacts(ps[1..]);
      InsertFacts(ps[0], Sort(ps[1..]));
      assert ps == [ps[0]] + ps[1..];
    }
  }

  /** Sorting what is sorted changes nothing. */
  lemma {:induction false} SortOfSorted<T>(ps: seq<Pair<T>>)
    requires Sorted(ps)
    ensures Sort(ps) == ps
  {
    if ps != [] {
      SortOfSorted(ps[1..]);
      assert ps == [ps[0]] + ps[1..];
      if |ps| > 1 { assert AtMost(ps[0].key, ps[1].key); }
    }
  }

  lemma SortedHead<T>(ps: seq<Pair<T>>, qs: seq<Pair<T>>)
    requires Sorted(ps) && Sorted(qs) && ps != [] && qs != [] && DistinctKeys(qs)
    requires ps[0] in qs && qs[0] in ps
    ensures ps[0] == qs[0]
  {
    var i :| 0 <= i < |qs| && qs[i] == ps[0];
    var j :| 0 <= j < |ps| && ps[j] == qs[0];
    if i > 0 && j > 0 {
      assert AtMost(qs[0].key, qs[i].key) && AtMost(ps[0].key, ps[j].key);
      AtMostAntisymmetric(ps[0].key, qs[0].key);
    }
  }

  /** A sorted sequence with distinct keys is fixed by the pairs it holds. */
  lemma {:induction false} SortedUnique<T>(ps: seq<Pair<T>>, qs: seq<Pair<T>>)
    requires Sorted(ps) && Sorted(qs) && DistinctKeys(ps) && DistinctKeys(qs)
    requires (forall p | p in ps :: p in qs) && (forall q | q in qs :: q in ps)
    ensures ps == qs
  {
    assert qs == [] || qs[0] in ps;
    if ps != [] {
      assert ps[0] in qs;
      SortedHead(ps, qs);
      RestWithin(ps, qs);
      RestWithin(qs, ps);
      RestSorted(ps);
      RestSorted(qs);
      SortedUnique(ps[1..], qs[1..]);
      assert ps == [ps[0]] + ps[1..] && qs == [qs[0]] + qs[1..];
    }
  }

  lemma RestSorted<T>(ps: seq<Pair<T>>)
    requires ps != [] && Sorted(ps) && DistinctKeys(ps)
    ensures Sorted(ps[1..]) && DistinctKeys(ps[1..])
  {
  }

  lemma RestWithin<T>(ps: seq<Pair<T>>, qs: seq<Pair<T>>)
    requires ps != [] && qs != [] && ps[0] == qs[0] && DistinctKeys(ps) && DistinctKeys(qs)
    requires forall p | p in ps :: p in qs
    ensures forall p | p in ps[1..] :: p in qs[1..]
  {
    forall p | p in ps[1..] ensures p in qs[1..] {
      RestWithout(ps, p);
      RestWithout(qs, p);
    }
  }

  lemma RestWithout<T>(ps: seq<Pair<T>>, p: Pair<T>)
    requires ps != [] && DistinctKeys(ps)
    ensures p in ps[1..] <==> p in ps && p != ps[0]
  {
    if p in ps[1..] {
      var k :| 0 <= k < |ps[1..]| && ps[1..][k] == p;
      assert ps[0].key != ps[k + 1].key;
    }
  }

  lemma {:induction false} InsertMembership<T>(p: Pair<T>, ps: seq<Pair<T>>, q: Pair<T>)
    ensures q in Insert(p, ps) <==> q == p || q in ps
  {
    if ps != [] {
      InsertMembership(p, ps[1..], q);
      assert ps == [ps[0]] + ps[1..];
    }
  }

  lemma {:induction false} SortMembership<T>(ps: seq<Pair<T>>, q: Pair<T>)
    ensures q in Sort(ps) <==> q in ps
  {
    if ps != [] {
      SortMembership(ps[1..], q);
      InsertMembership(ps[0], Sort(ps[1..]), q);
      assert ps == [ps[0]] + ps[1..];
    }
  }

  lemma {:induction false} InsertKeepsDistinct<T>(p: Pair<T>, ps: seq<Pair<T>>)
    requires DistinctKeys(ps) && forall q | q in ps :: q.key != p.key
    ensures DistinctKeys(Insert(p, ps))
  {
    if ps != [] && !AtMost(p.key, ps[0].key) {
      InsertKeepsDistinct(p, ps[1..]);
      var t := Insert(p, ps[1..]);
      forall j | 0 <= j < |t| ensures t[j].key != ps[0].key {
        InsertMembership(p, ps[1..], t[j]);
        assert ps[0] in ps;
      }
    }
  }

  lemma {:induction false} SortKeepsDistinct<T>(ps: seq<Pair<T>>)
    requires DistinctKeys(ps)
    ensures DistinctKeys(Sort(ps))
  {
    if ps != [] {
      SortKeepsDistinct(ps[1..]);
      forall q | q in Sort(ps[1..]) ensures q.key != ps[0].key {
        SortMembership(ps[1..], q);
      }
      InsertKeepsDistinct(ps[0], Sort(ps[1..]));
    }
  }

  // ------------------------------------------------------------- lists of strings

  function Keyed(ts: seq<Text>): (r: seq<Pair<()>>)
    ensures |r| == |ts| && forall i | 0 <= i < |ts| :: r[i] == Pair(ts[i], ())
  {
    seq(|ts|, i requires 0 <= i < |ts| => Pair(ts[i], ()))
  }

  function Keys<T>(ps: seq<Pair<T>>): (r: seq<Text>)
    ensures |r| == |ps| && forall i | 0 <= i < |ps| :: r[i] == ps[i].key
  {
    seq(|ps|, i requires 0 <= i < |ps| => ps[i].key)
  }

  function SortTexts(ts: seq<Text>): seq<Text> { Keys(Sort(Keyed(ts))) }

  ghost predicate NoRepeats(ts: seq<Text>) {
    forall i, j | 0 <= i < j < |ts| :: ts[i] != ts[j]
  }

  lemma KeyedMember(ts: seq<Text>, p: Pair<()>)
    ensures p in Keyed(ts) <==> p.key in ts
  {
    if p.key in ts {
      var i :| 0 <= i < |ts| && ts[i] == p.key;
      assert p.value == ();
      assert Keyed(ts)[i] == p;
    }
  }

  /** The sorted list depends only on which strings there are. */
  lemma SortTextsUnique(a: seq<Text>, b: seq<Text>)
    requires NoRepeats(a) && NoRepeats(b) && forall t :: t in a <==> t in b
    ensures SortTexts(a) == SortTexts(b)
  {
    var x, y := Sort(Keyed(a)), Sort(Keyed(b));
    SortFacts(Keyed(a));
    SortFacts(Keyed(b));
    SortKeepsDistinct(Keyed(a));
    SortKeepsDistinct(Keyed(b));
    forall p ensures p in x <==> p in y {
      SortMembership(Keyed(a), p);
      SortMembership(Keyed(b), p);
      KeyedMember(a, p);
      KeyedMember(b, p);
    }
    SortedUnique(x, y);
  }

  lemma SortTextsLength(ts: seq<Text>)
    ensures |SortTexts(ts)| == |ts|
  {
    SortFacts(Keyed(ts));
  }

  lemma SortTextsHas(ts: seq<Text>, t: Text)
    ensures t in SortTexts(ts) <==> t in ts
  {
    var x := Sort(Keyed(ts));
    SortMembership(Keyed(ts), Pair(t, ()));
    KeyedMember(ts, Pair(t, ()));
    if t in SortTexts(ts) {
      var i :| 0 <= i < |x| && SortTexts(ts)[i] == t;
      assert x[i].value == ();
      assert x[i] == Pair(t, ());
    }
    if Pair(t, ()) in x {
      var i :| 0 <= i < |x| && x[i] == Pair(t, ());
      assert SortTexts(ts)[i] == t;
    }
  }

  lemma SortTextsTwice(ts: seq<Text>)
    ensures SortTexts(SortTexts(ts)) == SortTexts(ts)
  {
    var x := Sort(Keyed(ts));
    SortFacts(Keyed(ts));
    assert forall i | 0 <= i < |x| :: x[i].value == ();
    assert Keyed(Keys(x)) == x;
    SortOfSorted(x);
  }

  /** Sorting a list without repeats keeps its strings and adds no repeats. */
  lemma SortTextsMembers(ts: seq<Text>)
    requires NoRepeats(ts)
    ensures NoRepeats(SortTexts(ts)) && forall t :: t in SortTexts(ts) <==> t in ts
  {
    var x := Sort(Keyed(ts));
    SortKeepsDistinct(Keyed(ts));
    forall t ensures t in SortTexts(ts) <==> t in ts {
      SortMembership(Keyed(ts), Pair(t, ()));
      KeyedMember(ts, Pair(t, ()));
      if t in SortTexts(ts) {
        var i :| 0 <= i < |x| && x[i].key == t;
        assert x[i].value == ();
        assert x[i] == Pair(t, ());
      }
      if Pair(t, ()) in x {
        var i :| 0 <= i < |x| && x[i] == Pair(t, ());
        assert Keys(x)[i] == t;
      }
    }
  }
}
