/**
The repository index: NUL-terminated records arrive in chunks of any size, and the
entries that fit within two limits are kept. The syntax of a record and the encoded
size of an entry are parameters.
*/
module IndexDecoder {
  import opened Prelude

  type Byte = b: int | 0 <= b < 256

  type Bytes = seq<Byte>

  // ----------------------------------------------------- the records of a whole stream

  /** Where the first NUL is, or the length. */
  function FirstNul(s: Bytes): (k: nat)
    ensures k <= |s|
  {
    if s == [] || s[0] == 0 then 0 else 1 + FirstNul(s[1..])
  }

  function Records(s: Bytes): seq<Bytes> {
    var k := FirstNul(s);
    if k == |s| then [] else [s[..k]] + Records(s[k + 1..])
  }

  /** What follows the last NUL. */
  function Rest(s: Bytes): Bytes {
    var k := FirstNul(s);
    if k == |s| then s else Rest(s[k + 1..])
  }

  lemma {:induction false} FirstNulFacts(s: Bytes)
    ensures var k := FirstNul(s);
      (k < |s| ==> s[k] == 0) && forall i | 0 <= i < k :: s[i] != 0
  {
    if s != [] && s[0] != 0 {
      FirstNulFacts(s[1..]);
      assert forall i | 1 <= i < FirstNul(s) :: s[i] == s[1..][i - 1];
    }
  }

  /** Each record followed by a NUL. */
  function Terminated(records: seq<Bytes>): Bytes {
    if records == [] then [] else records[0] + ([0] + Terminated(records[1..]))
  }

  lemma {:induction false} NoNulInside(s: Bytes)
    ensures 0 !in Rest(s) && forall i | 0 <= i < |Records(s)| :: 0 !in Records(s)[i]
  {
    FirstNulFacts(s);
    if FirstNul(s) < |s| { NoNulInside(s[FirstNul(s) + 1..]); }
  }

  /** Put together, the records and the rest are the stream. */
  lemma {:induction false} RecordsRebuild(s: Bytes)
    ensures s == Terminated(Records(s)) + Rest(s)
  {
    var k := FirstNul(s);
    if k < |s| {
      var t := s[k + 1..];
      RecordsRebuild(t);
      FirstNulFacts(s);
      assert Records(s)[1..] == Records(t);
      Reassemble(s[..k], Terminated(Records(t)), Rest(t));
      Cut(s, k);
    }
  }

  lemma Cut(s: Bytes, k: nat)
    requires k < |s| && s[k] == 0
    ensures s == s[..k] + ([0] + s[k + 1..])
  {
  }

  lemma Reassemble(record: Bytes, rest: Bytes, tail: Bytes)
    ensures record + ([0] + (rest + tail)) == (record + ([0] + rest)) + tail
  {
  }

  /** Appending to a stream does not move its first NUL. */
  lemma {:induction false} FirstNulStays(a: Bytes, b: Bytes)
    requires FirstNul(a) < |a|
    ensures FirstNul(a + b) == FirstNul(a)
  {
    if a[0] != 0 {
      FirstNulStays(a[1..], b);
      assert (a + b)[1..] == a[1..] + b;
    }
  }

  lemma Slices(a: Bytes, b: Bytes, k: nat)
    requires k < |a|
    ensures (a + b)[..k] == a[..k] && (a + b)[k + 1..] == a[k + 1..] + b
  {
  }

  lemma OneMore(record: Bytes, a: seq<Bytes>, b: seq<Bytes>)
    ensures [record] + (a + b) == ([record] + a) + b
  {
  }

  lemma {:induction false} CutRecords(a: Bytes, b: Bytes)
    ensures Records(a + b) == Records(a) + Records(Rest(a) + b)
  {
    var k := FirstNul(a);
    if k < |a| {
      FirstNulStays(a, b);
      Slices(a, b, k);
      var t := a[k + 1..];
      CutRecords(t, b);
      assert Records(a + b) == [a[..k]] + Records(t + b);
      assert Records(a) == [a[..k]] + Records(t) && Rest(a) == Rest(t);
      OneMore(a[..k], Records(t), Records(Rest(t) + b));
    } else {
      assert Records(a) == [] && Rest(a) == a;
    }
  }

  lemma {:induction false} CutRest(a: Bytes, b: Bytes)
    ensures Rest(a + b) == Rest(Rest(a) + b)
  {
    var k := FirstNul(a);
    if k < |a| {
      FirstNulStays(a, b);
      Slices(a, b, k);
      CutRest(a[k + 1..], b);
    }
  }

  /** Cutting the stream does not change its records: what is left over is prepended to the next part. */
  lemma CutAnywhere(a: Bytes, b: Bytes)
    ensures Records(a + b) == Records(a) + Records(Rest(a) + b)
    ensures Rest(a + b) == Rest(Rest(a) + b)
  {
    CutRecords(a, b);
    CutRest(a, b);
  }

  function Concat(chunks: seq<Bytes>): Bytes {
    if chunks == [] then [] else Concat(chunks[..|chunks| - 1]) + chunks[|chunks| - 1]
  }

  // ------------------------------------------------------------------- the two limits

  datatype Limits = Limits(maxEntries: nat, maxBytes: nat)

  function Sum(sizes: seq<nat>): nat {
    if sizes == [] then 0 else Sum(sizes[..|sizes| - 1]) + sizes[|sizes| - 1]
  }

  /** The positions kept so far, and their sizes together. */
  datatype Budget = Budget(kept: seq<nat>, bytes: nat)

  /** One more entry stays within both limits. */
  predicate Fits(b: Budget, size: nat, l: Limits) {
    |b.kept| < l.maxEntries && b.bytes + size <= l.maxBytes
  }

  /** The entries are taken in order, each one kept if it fits. */
  function Spend(sizes: seq<nat>, l: Limits): Budget {
    if sizes == [] then Budget([], 0)
    else
      var n := |sizes| - 1;
      var b := Spend(sizes[..n], l);
      if Fits(b, sizes[n], l) then Budget(b.kept + [n], b.bytes + sizes[n]) else b
  }

  ghost predicate Increasing(kept: seq<nat>, n: nat) {
    (forall i | 0 <= i < |kept| :: kept[i] < n) && forall i, j | 0 <= i < j < |kept| :: kept[i] < kept[j]
  }

  lemma {:induction false} SpendOrder(sizes: seq<nat>, l: Limits)
    ensures Increasing(Spend(sizes, l).kept, |sizes|)
  {
    if sizes != [] { SpendOrder(sizes[..|sizes| - 1], l); }
  }

  function At<T>(s: seq<T>, positions: seq<nat>): (r: seq<T>)
    requires forall i | 0 <= i < |positions| :: positions[i] < |s|
    ensures |r| == |positions|
  {
    if positions == [] then [] else At(s, positions[..|positions| - 1]) + [s[positions[|positions| - 1]]]
  }

  lemma {:induction false} AtExtends<T>(s: seq<T>, x: T, positions: seq<nat>)
    requires forall i | 0 <= i < |positions| :: positions[i] < |s|
    ensures At(s + [x], positions) == At(s, positions)
    ensures At(s + [x], positions + [|s|]) == At(s, positions) + [x]
  {
    assert (positions + [|s|])[..|positions|] == positions;
    if positions != [] { AtExtends(s, x, positions[..|positions| - 1]); }
  }

  lemma SumAppend(sizes: seq<nat>, n: nat)
    ensures Sum(sizes + [n]) == Sum(sizes) + n
  {
    assert (sizes + [n])[..|sizes|] == sizes;
  }

  ghost predicate Summed(sizes: seq<nat>, b: Budget) {
    (forall i | 0 <= i < |b.kept| :: b.kept[i] < |sizes|) && b.bytes == Sum(At(sizes, b.kept))
  }

  lemma SummedStep(front: seq<nat>, size: nat, b: Budget)
    requires Summed(front, b)
    ensures Summed(front + [size], b)
    ensures Summed(front + [size], Budget(b.kept + [|front|], b.bytes + size))
  {
    AtExtends(front, size, b.kept);
    SumAppend(At(front, b.kept), size);
  }

  lemma {:induction false} SpendSums(sizes: seq<nat>, l: Limits)
    ensures Summed(sizes, Spend(sizes, l))
  {
    if sizes != [] {
      var n := |sizes| - 1;
      var front := sizes[..n];
      SpendSums(front, l);
      SummedStep(front, sizes[n], Spend(front, l));
      assert sizes == front + [sizes[n]];
    }
  }

  lemma {:induction false} SpendFits(sizes: seq<nat>, l: Limits)
    ensures |Spend(sizes, l).kept| <= l.maxEntries && Spend(sizes, l).bytes <= l.maxBytes
  {
    if sizes != [] { SpendFits(sizes[..|sizes| - 1], l); }
  }

  /** The kept entries are within both limits, and the byte count is the sum of their sizes. */
  lemma SpendWithinLimits(sizes: seq<nat>, l: Limits)
    ensures Increasing(Spend(sizes, l).kept, |sizes|)
    ensures var b := Spend(sizes, l);
      |b.kept| <= l.maxEntries && b.bytes <= l.maxBytes && b.bytes == Sum(At(sizes, b.kept))
  {
    SpendOrder(sizes, l);
    SpendSums(sizes, l);
    SpendFits(sizes, l);
  }

  /** An entry is left out exactly when it would break a limit after those kept before it. */
  lemma {:induction false} KeptExactly(sizes: seq<nat>, l: Limits, m: nat)
    requires m < |sizes|
    ensures m in Spend(sizes, l).kept <==> Fits(Spend(sizes[..m], l), sizes[m], l)
  {
    var n := |sizes| - 1;
    var front := sizes[..n];
    SpendOrder(front, l);
    if m < n {
      KeptExactly(front, l, m);
      assert front[..m] == sizes[..m];
    }
  }

  /** Everything is kept exactly when everything together fits. */
  lemma {:induction false} AllKeptExactly(sizes: seq<nat>, l: Limits)
    ensures var b := Spend(sizes, l);
      && |b.kept| <= |sizes|
      && (|b.kept| == |sizes| <==> |sizes| <= l.maxEntries && Sum(sizes) <= l.maxBytes)
      && (|b.kept| == |sizes| ==> b.bytes == Sum(sizes))
  {
    if sizes != [] { AllKeptExactly(sizes[..|sizes| - 1], l); }
  }

  // ------------------------------------------------------------------ the reference

  datatype Index<E> = Index(
    observedEntries: nat, observedBytes: nat, emittedEntries: nat, emittedBytes: nat, truncated: bool, entries: seq<E>)

  /** How records are read and entries measured. */
  datatype Syntax<!E> = Syntax(parse: Bytes -> Option<E>, size: E -> nat)

  function ParseAll<E>(records: seq<Bytes>, x: Syntax<E>): Option<seq<E>> {
    if records == [] then Some([])
    else
      var n := |records| - 1;
      var before := ParseAll(records[..n], x);
      var last := x.parse(records[n]);
      if before.None? || last.None? then None else Some(before.value + [last.value])
  }

  function Sizes<E>(entries: seq<E>, x: Syntax<E>): (r: seq<nat>)
    ensures |r| == |entries|
  {
    if entries == [] then [] else Sizes(entries[..|entries| - 1], x) + [x.size(entries[|entries| - 1])]
  }

  /** The index of a list of entries: a function of the entries and the limits only. */
  function IndexOf<E>(entries: seq<E>, x: Syntax<E>, l: Limits): Index<E> {
    var sizes := Sizes(entries, x);
    var b := Spend(sizes, l);
    SpendOrder(sizes, l);
    Index(|entries|, Sum(sizes), |b.kept|, b.bytes, |b.kept| != |entries|, At(entries, b.kept))
  }

  /** What a stream means, however it is cut. */
  function Meaning<E>(stream: Bytes, code: int, x: Syntax<E>, l: Limits): Option<Index<E>> {
    var entries := ParseAll(Records(stream), x);
    if code != 0 || Rest(stream) != [] || entries.None? then None else Some(IndexOf(entries.value, x, l))
  }

  lemma {:induction false} ParsedExactly<E>(records: seq<Bytes>, x: Syntax<E>)
    ensures var r := ParseAll(records, x);
      && (r.Some? <==> forall q | q in records :: x.parse(q).Some?)
      && (r.Some? ==> |r.value| == |records|)
      && (r.Some? ==> forall i | 0 <= i < |records| :: x.parse(records[i]) == Some(r.value[i]))
  {
    if records != [] {
      var n := |records| - 1;
      ParsedExactly(records[..n], x);
      assert forall i | 0 <= i < n :: records[..n][i] == records[i];
      assert records == records[..n] + [records[n]];
    }
  }

  lemma {:induction false} NothingLeftExactly(s: Bytes)
    ensures Rest(s) == [] <==> s == [] || s[|s| - 1] == 0
  {
    var k := FirstNul(s);
    FirstNulFacts(s);
    if k < |s| {
      NothingLeftExactly(s[k + 1..]);
    }
  }

  /** A stream is accepted exactly if the exit code is zero, the stream ends with a record and every record parses. */
  lemma {:induction false} AcceptedExactly<E>(stream: Bytes, code: int, x: Syntax<E>, l: Limits)
    ensures Meaning(stream, code, x, l).Some? <==>
      && code == 0 && (stream == [] || stream[|stream| - 1] == 0)
      && forall q | q in Records(stream) :: x.parse(q).Some?
    ensures var m := Meaning(stream, code, x, l); m.Some? ==> m.value.observedEntries == |Records(stream)|
  {
    var records, m := Records(stream), Meaning(stream, code, x, l);
    var entries := ParseAll(records, x);
    ParsedExactly(records, x);
    NothingLeftExactly(stream);
    assert m.Some? <==> code == 0 && Rest(stream) == [] && entries.Some?;
    if m.Some? { assert m.value == IndexOf(entries.value, x, l); }
  }

  /**
  The kept entries of an accepted stream: in order, within the limits, and truncated exactly when
  not all would fit.
  */
  lemma IndexFacts<E>(entries: seq<E>, x: Syntax<E>, l: Limits)
    ensures var i, sizes := IndexOf(entries, x, l), Sizes(entries, x); var kept := Spend(sizes, l).kept;
      && Increasing(kept, |entries|) && i.entries == At(entries, kept) && |i.entries| == i.emittedEntries
      && i.emittedEntries <= l.maxEntries && i.emittedBytes <= l.maxBytes && i.emittedBytes == Sum(At(sizes, kept))
      && (i.truncated <==> exists m :: 0 <= m < |entries| && m !in kept)
      && (i.truncated <==> |entries| > l.maxEntries || i.observedBytes > l.maxBytes)
  {
    var sizes := Sizes(entries, x);
    var kept := Spend(sizes, l).kept;
    SpendOrder(sizes, l);
    SpendWithinLimits(sizes, l);
    AllKeptExactly(sizes, l);
    SomeLeftOut(kept, |entries|);
  }

  lemma {:induction false} SomeLeftOut(kept: seq<nat>, n: nat)
    requires Increasing(kept, n)
    ensures |kept| <= n
    ensures |kept| == n ==> forall m | 0 <= m < n :: m in kept
    ensures |kept| != n ==> exists m :: 0 <= m < n && m !in kept
    decreases n
  {
    var k := |kept| - 1;
    if kept != [] && kept[k] == n - 1 {
      var front := kept[..k];
      SomeLeftOut(front, n - 1);
      assert kept == front + [n - 1];
      if k != n - 1 {
        var m :| 0 <= m < n - 1 && m !in front;
        assert m !in kept;
      }
    } else if n > 0 {
      assert Increasing(kept, n - 1);
      SomeLeftOut(kept, n - 1);
      assert n - 1 !in kept;
    } else {
      assert kept == [];
    }
  }

  /** The index that the decoder's counters and kept entries stand for. */
  function Summary<E>(observedEntries: nat, observedBytes: nat, emittedBytes: nat, entries: seq<E>): Index<E> {
    Index(observedEntries, observedBytes, |entries|, emittedBytes, |entries| != observedEntries, entries)
  }

  /** One entry more. */
  lemma IndexStep<E>(seen: seq<E>, e: E, x: Syntax<E>, l: Limits)
    ensures var i, size := IndexOf(seen, x, l), x.size(e);
      IndexOf(seen + [e], x, l) ==
      if |i.entries| < l.maxEntries && i.emittedBytes + size <= l.maxBytes
      then Summary(i.observedEntries + 1, i.observedBytes + size, i.emittedBytes + size, i.entries + [e])
      else Summary(i.observedEntries + 1, i.observedBytes + size, i.emittedBytes, i.entries)
  {
    var sizes := Sizes(seen, x);
    var more := seen + [e];
    assert more[..|seen|] == seen && Sizes(more, x) == sizes + [x.size(e)];
    assert (sizes + [x.size(e)])[..|sizes|] == sizes;
    SpendOrder(sizes, l);
    SpendOrder(sizes + [x.size(e)], l);
    AtExtends(seen, e, Spend(sizes, l).kept);
    SumAppend(sizes, x.size(e));
  }

  // -------------------------------------------------------------------- the decoder

  class Decoder<E> {
    const syntax: Syntax<E>
    const limits: Limits
    var pending: Bytes
    var observedEntries: nat
    var observedBytes: nat
    var emittedBytes: nat
    var entries: seq<E>
    var rejected: bool
    /** Everything received. */
    ghost var stream: Bytes
    /** The entries of the records consumed. */
    ghost var seen: seq<E>

    constructor (syntax: Syntax<E>, limits: Limits)
      ensures this.syntax == syntax && this.limits == limits && Valid() && stream == []
    {
      this.syntax, this.limits := syntax, limits;
      pending, observedEntries, observedBytes, emittedBytes, entries, rejected := [], 0, 0, 0, [], false;
      stream, seen := [], [];
    }

    /** The counters and the kept entries are those of the entries seen. */
    ghost predicate Counted()
      reads this
    {
      IndexOf(seen, syntax, limits) == Summary(observedEntries, observedBytes, emittedBytes, entries)
    }

    ghost predicate Valid()
      reads this
    {
      if rejected then ParseAll(Records(stream), syntax).None?
      else Counted() && pending == Rest(stream) && ParseAll(Records(stream), syntax) == Some(seen)
    }

    method Consume(record: Bytes) returns (ok: bool)
      requires Counted()
      modifies this`observedEntries, this`observedBytes, this`emittedBytes, this`entries, this`seen
      ensures Counted() && ok == syntax.parse(record).Some?
      ensures seen == if ok then old(seen) + [syntax.parse(record).value] else old(seen)
    {
      var entry := syntax.parse(record);
      if entry.None? { return false; }
      var encoded := syntax.size(entry.value);
      IndexStep(seen, entry.value, syntax, limits);
      observedEntries := observedEntries + 1;
      observedBytes := observedBytes + encoded;
      if |entries| < limits.maxEntries && emittedBytes + encoded <= limits.maxBytes {
        entries := entries + [entry.value];
        emittedBytes := emittedBytes + encoded;
      }
      seen := seen + [entry.value];
      return true;
    }

    /** Of the records `all`, those in `done` are consumed, and the others and `rest` are pending. */
    ghost predicate Midway(done: seq<Bytes>, all: seq<Bytes>, rest: Bytes)
      reads this
    {
      && !rejected && Counted() && ParseAll(done, syntax) == Some(seen)
      && all == done + Records(pending) && rest == Rest(pending)
    }

    method TakeRecord(separator: nat, ghost done: seq<Bytes>, ghost all: seq<Bytes>, ghost rest: Bytes)
      requires Midway(done, all, rest) && separator == FirstNul(pending) < |pending|
      modifies this
      ensures stream == old(stream) && |pending| < |old(pending)|
      ensures if rejected then ParseAll(all, syntax).None? else Midway(done + [old(pending)[..separator]], all, rest)
    {
      var record := pending[..separator];
      TakenParses(done, pending, separator, syntax);
      pending := pending[separator + 1..];
      var ok := Consume(record);
      rejected := !ok;
    }

    /** Takes every complete record out of what has arrived. */
    method Data(chunk: Bytes)
      requires Valid()
      modifies this
      ensures Valid() && stream == old(stream) + chunk
    {
      CutAnywhere(stream, chunk);
      ghost var done := Records(stream);
      stream := stream + chunk;
      ghost var all, rest := Records(stream), Rest(stream);
      if rejected {
        RejectedStays(done, all, syntax);
        return;
      }
      pending := pending + chunk;
      var separator := FirstNul(pending);
      while separator != |pending|
        invariant separator == FirstNul(pending) && Midway(done, all, rest) && stream == old(stream) + chunk
        decreases |pending|
      {
        ghost var record := pending[..separator];
        TakeRecord(separator, done, all, rest);
        if rejected { return; }
        done := done + [record];
        separator := FirstNul(pending);
      }
      assert done + [] == done;
    }

    method Close(code: int) returns (r: Option<Index<E>>)
      requires Valid()
      ensures r == Meaning(stream, code, syntax, limits)
    {
      if rejected || code != 0 || |pending| != 0 { return None; }
      var truncated := |entries| != observedEntries;
      return Some(Index(observedEntries, observedBytes, |entries|, emittedBytes, truncated, entries));
    }
  }

  /** The record before the first NUL moves from what is pending to what is done. */
  lemma {:induction false} TakenFirst(done: seq<Bytes>, pending: Bytes, k: nat)
    requires k == FirstNul(pending) < |pending|
    ensures done + Records(pending) == (done + [pending[..k]]) + Records(pending[k + 1..])
    ensures done + [pending[..k]] <= done + Records(pending)
    ensures Rest(pending) == Rest(pending[k + 1..])
  {
    Shift(done, pending[..k], Records(pending[k + 1..]));
  }

  /** The same for what the records parse to: one that does not parse spoils the whole stream. */
  lemma TakenParses<E>(done: seq<Bytes>, pending: Bytes, k: nat, x: Syntax<E>)
    requires k == FirstNul(pending) < |pending| && ParseAll(done, x).Some?
    ensures var more, last := done + [pending[..k]], x.parse(pending[..k]);
      && done + Records(pending) == more + Records(pending[k + 1..])
      && Rest(pending) == Rest(pending[k + 1..])
      && (last.Some? ==> ParseAll(more, x) == Some(ParseAll(done, x).value + [last.value]))
      && (last.None? ==> ParseAll(done + Records(pending), x).None?)
  {
    TakenFirst(done, pending, k);
    ParseStep(done, pending[..k], x);
    if x.parse(pending[..k]).None? { RejectedStays(done + [pending[..k]], done + Records(pending), x); }
  }

  lemma Shift(done: seq<Bytes>, record: Bytes, rest: seq<Bytes>)
    ensures done + ([record] + rest) == (done + [record]) + rest
  {
  }

  lemma ParseStep<E>(done: seq<Bytes>, record: Bytes, x: Syntax<E>)
    ensures var before, last := ParseAll(done, x), x.parse(record);
      ParseAll(done + [record], x)
      == if before.None? || last.None? then None else Some(before.value + [last.value])
  {
    assert (done + [record])[..|done|] == done;
  }

  /** A record that does not parse spoils every stream it occurs in. */
  lemma {:induction false} RejectedStays<E>(done: seq<Bytes>, all: seq<Bytes>, x: Syntax<E>)
    requires done <= all && ParseAll(done, x).None?
    ensures ParseAll(all, x).None?
    decreases |all|
  {
    if done != all {
      var n := |all| - 1;
      assert done <= all[..n];
      RejectedStays(done, all[..n], x);
    }
  }

  /** The result depends on the bytes only, not on how they were cut into chunks. */
  method IndexChunks<E>(chunks: seq<Bytes>, code: int, x: Syntax<E>, l: Limits) returns (r: Option<Index<E>>)
    ensures r == Meaning(Concat(chunks), code, x, l)
    ensures var stream := Concat(chunks);
      r.Some? <==>
        && code == 0 && (stream == [] || stream[|stream| - 1] == 0)
        && forall q | q in Records(stream) :: x.parse(q).Some?
  {
    AcceptedExactly(Concat(chunks), code, x, l);
    var d := new Decoder(x, l);
    for i := 0 to |chunks|
      invariant d.Valid() && d.syntax == x && d.limits == l && d.stream == Concat(chunks[..i])
    {
      d.Data(chunks[i]);
      assert chunks[..i + 1][..i] == chunks[..i];
    }
    assert chunks[..|chunks|] == chunks;
    r := d.Close(code);
  }
}
