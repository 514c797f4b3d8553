/**
Creating and moving a branch by compare-and-set while others write the same branch
between any two requests and replies get lost.
*/
module BranchRefs {
  import opened Prelude
  import opened ForgeServer

  type Sha = string

  /** The head of the branch, absent when there is no branch. */
  type Head = Option<Sha>

  datatype Disposition = Created | Adopted | Updated | Unchanged

  /** A head this client replaced. */
  datatype Overwrite = Overwrite(replaced: Head, written: Sha)

  /** What others make of the head before each request. */
  type Others = Head -> Head

  datatype Gaps = Gaps(beforeRead: Others, beforeWrite: Others, beforeCheck: Others)

  /** What becomes of each request; `node` is the read of the repository's id before the write. */
  datatype Network = Network(read: ReadFate, node: ReadFate, write: WriteFate, check: ReadFate)

  ghost predicate Alone(gaps: Gaps) {
    forall h :: gaps.beforeRead(h) == h && gaps.beforeWrite(h) == h && gaps.beforeCheck(h) == h
  }

  predicate Answered(net: Network) {
    net.read.Reply? && net.node.Reply? && net.write == Applied(Reply) && net.check.Reply?
  }

  /** The write takes effect and its reply is lost; everything else is answered. */
  predicate ReplyLost(net: Network) {
    net.read.Reply? && net.node.Reply? && net.write == Applied(Fails(Transport)) && net.check.Reply?
  }

  /** The last answer to a read. */
  ghost predicate LastSeen(seen: seq<Head>, h: Head) {
    seen != [] && seen[|seen| - 1] == h
  }

  class Branch {
    var head: Head
    ghost var overwrites: seq<Overwrite>
    ghost var seen: seq<Head>

    constructor (h: Head)
      ensures head == h && overwrites == [] && seen == []
    {
      head := h;
      overwrites, seen := [], [];
    }

    method GetRef(others: Others, fate: ReadFate) returns (r: Result<Head, ErrorKind>)
      modifies this
      ensures head == others(old(head)) && overwrites == old(overwrites)
      ensures r == if fate.Reply? then Ok(head) else Err(fate.kind)
      ensures seen == if r.Ok? then old(seen) + [head] else old(seen)
    {
      head := others(head);
      if fate.Fails? { return Err(fate.kind); }
      seen := seen + [head];
      return Ok(head);
    }

    /** The server applies the write only if the head is still `before`; otherwise it answers that the ref is stale. */
    method MutateRef(before: Head, after: Sha, others: Others, net: Network) returns (r: Result<(), ErrorKind>)
      modifies this
      ensures seen == old(seen)
      ensures var found := others(old(head)); var applied := net.node.Reply? && net.write.Applied? && found == before;
        && head == (if applied then Some(after) else found)
        && overwrites == (if applied then old(overwrites) + [Overwrite(before, after)] else old(overwrites))
        && (r.Ok? <==> applied && net.write.reply.Reply?)
      ensures r.Err? ==>
        r.error == if net.node.Fails? then net.node.kind else if net.write.NotApplied? then net.write.kind
                   else if net.write.reply.Fails? then net.write.reply.kind else StaleRef
    {
      head := others(head);
      if net.node.Fails? { return Err(net.node.kind); }
      if net.write.NotApplied? { return Err(net.write.kind); }
      if head != before { return Err(if net.write.reply.Fails? then net.write.reply.kind else StaleRef); }
      overwrites := overwrites + [Overwrite(head, after)];
      head := Some(after);
      if net.write.reply.Fails? { return Err(net.write.reply.kind); }
      return Ok(());
    }

    /** The write and the read that confirms it, or that recovers from a transport failure. */
    method WriteAndObserve(
      before: Head, after: Sha, gaps: Gaps, net: Network, recovered: Disposition, done: Disposition)
      returns (r: Result<Disposition, ErrorKind>)
      modifies this
      ensures var found := gaps.beforeWrite(old(head)); var wrote := found == before && Sent(net);
        && overwrites == (if wrote then old(overwrites) + [Overwrite(before, after)] else old(overwrites))
        && var left := if wrote then Some(after) else found; (head == left || head == gaps.beforeCheck(left))
      ensures old(seen) <= seen
      ensures r.Ok? ==> head == Some(after) && LastSeen(seen, head) && (r.value == recovered || r.value == done)
      ensures Alone(gaps) && Answered(net) && old(head) == before ==> r == Ok(done) && head == Some(after)
      ensures Alone(gaps) && ReplyLost(net) && old(head) == before ==> r == Ok(recovered) && head == Some(after)
    {
      var w := MutateRef(before, after, gaps.beforeWrite, net);
      if w.Err? {
        if !w.error.Transport? { return Err(w.error); }
        var again := GetRef(gaps.beforeCheck, net.check);
        if again.Err? { return Err(again.error); }
        if again.value == Some(after) { return Ok(recovered); }
        return Err(w.error);
      }
      var check := GetRef(gaps.beforeCheck, net.check);
      if check.Err? { return Err(check.error); }
      if check.value != Some(after) { return Err(StaleRef); }
      return Ok(done);
    }

    method CreateOrAdopt(target: Sha, gaps: Gaps, net: Network) returns (r: Result<Disposition, ErrorKind>)
      modifies this
      ensures var wrote := Creates(old(head), gaps, net);
        && Led(old(head), gaps, wrote, target, head)
        && overwrites == (if wrote then old(overwrites) + [Overwrite(None, target)] else old(overwrites))
      ensures old(seen) <= seen
      ensures r.Ok? ==> head == Some(target) && LastSeen(seen, head) && (r.value.Created? || r.value.Adopted?)
      ensures Alone(gaps) && Answered(net) ==>
        r == if old(head).None? then Ok(Created) else if old(head) == Some(target) then Ok(Adopted) else Err(StaleRef)
      ensures Alone(gaps) && ReplyLost(net) && old(head).None? ==> r == Ok(Adopted) && head == Some(target)
    {
      var current := GetRef(gaps.beforeRead, net.read);
      if current.Err? { return Err(current.error); }
      if current.value.Some? {
        if current.value != Some(target) { return Err(StaleRef); }
        return Ok(Adopted);
      }
      r := WriteAndObserve(None, target, gaps, net, Adopted, Created);
    }

    method Update(expected: Sha, target: Sha, gaps: Gaps, net: Network) returns (r: Result<Disposition, ErrorKind>)
      modifies this
      ensures var wrote := Moves(old(head), expected, target, gaps, net);
        && Led(old(head), gaps, wrote, target, head)
        && overwrites == (if wrote then old(overwrites) + [Overwrite(Some(expected), target)] else old(overwrites))
      ensures old(seen) <= seen
      ensures r.Ok? ==> head == Some(target) && LastSeen(seen, head) && (r.value.Updated? || r.value.Unchanged?)
      ensures Alone(gaps) && Answered(net) ==>
        r == if old(head) == Some(target) then Ok(Unchanged)
             else if old(head) == Some(expected) then Ok(Updated) else Err(StaleRef)
      ensures Alone(gaps) && ReplyLost(net) && old(head) == Some(expected) ==> r.Ok? && head == Some(target)
    {
      var current := GetRef(gaps.beforeRead, net.read);
      if current.Err? { return Err(current.error); }
      if current.value.None? { return Err(StaleRef); }
      if current.value == Some(target) { return Ok(Unchanged); }
      if current.value != Some(expected) { return Err(StaleRef); }
      r := WriteAndObserve(Some(expected), target, gaps, net, Updated, Updated);
    }

    /**
    Any number of updates among other writers: `heads` is the head after each call and
    `wrote` says which calls wrote. Each call leaves the head to the others or replaces the
    expected head by the target, and a success leaves the target.
    */
    method RetryUpdate(expected: Sha, target: Sha, calls: seq<(Gaps, Network)>)
      returns (results: seq<Result<Disposition, ErrorKind>>, ghost heads: seq<Head>, ghost wrote: seq<bool>)
      modifies this
      ensures |results| == |wrote| == |calls| && |heads| == |calls| + 1
      ensures heads[0] == old(head) && heads[|calls|] == head
      ensures forall k | 0 <= k < |calls| ::
        Updates(expected, target, calls[k], heads[k], heads[k + 1], wrote[k], results[k].Ok?)
      ensures AllAlone(calls) ==> Settles(heads, wrote, expected, target)
    {
      results, heads, wrote := [], [head], [];
      for i := 0 to |calls|
        invariant |results| == |wrote| == i && |heads| == i + 1 && heads[0] == old(head) && heads[i] == head
        invariant forall k | 0 <= k < i ::
          Updates(expected, target, calls[k], heads[k], heads[k + 1], wrote[k], results[k].Ok?)
      {
        ghost var was := head;
        var r := Update(expected, target, calls[i].0, calls[i].1);
        ghost var w := Moves(was, expected, target, calls[i].0, calls[i].1);
        assert Updates(expected, target, calls[i], was, head, w, r.Ok?);
        results, heads, wrote := results + [r], heads + [head], wrote + [w];
      }
      if AllAlone(calls) {
        forall k | 0 <= k < |calls|
          ensures wrote[k] == Moves(heads[k], expected, target, calls[k].0, calls[k].1)
          ensures Led(heads[k], calls[k].0, wrote[k], target, heads[k + 1])
        {
          assert Updates(expected, target, calls[k], heads[k], heads[k + 1], wrote[k], results[k].Ok?);
        }
        AloneSettles(heads, wrote, expected, target, calls);
      }
    }

    /** Any number of creations among other writers: each leaves the head to the others or fills an absent one. */
    method RetryCreate(target: Sha, calls: seq<(Gaps, Network)>)
      returns (results: seq<Result<Disposition, ErrorKind>>, ghost heads: seq<Head>, ghost wrote: seq<bool>)
      modifies this
      ensures |results| == |wrote| == |calls| && |heads| == |calls| + 1
      ensures heads[0] == old(head) && heads[|calls|] == head
      ensures forall k | 0 <= k < |calls| ::
        Fills(target, calls[k], heads[k], heads[k + 1], wrote[k], results[k].Ok?)
      ensures AllAlone(calls) ==> head == old(head) || (old(head).None? && head == Some(target))
    {
      results, heads, wrote := [], [head], [];
      for i := 0 to |calls|
        invariant |results| == |wrote| == i && |heads| == i + 1 && heads[0] == old(head) && heads[i] == head
        invariant forall k | 0 <= k < i ::
          Fills(target, calls[k], heads[k], heads[k + 1], wrote[k], results[k].Ok?)
        invariant AllAlone(calls) ==> head == old(head) || (old(head).None? && head == Some(target))
      {
        ghost var was := head;
        var r := CreateOrAdopt(target, calls[i].0, calls[i].1);
        ghost var w := Creates(was, calls[i].0, calls[i].1);
        assert Fills(target, calls[i], was, head, w, r.Ok?);
        results, heads, wrote := results + [r], heads + [head], wrote + [w];
      }
    }
  }

  /** The write request reaches the server. */
  predicate Sent(net: Network) { net.node.Reply? && net.write.Applied? }

  /** The call reads the expected head, and finds it still there when its write arrives. */
  predicate Moves(h: Head, expected: Sha, target: Sha, gaps: Gaps, net: Network) {
    && net.read.Reply? && expected != target && Sent(net)
    && gaps.beforeRead(h) == Some(expected) && gaps.beforeWrite(Some(expected)) == Some(expected)
  }

  /** The call reads that there is no branch, and there still is none when its write arrives. */
  predicate Creates(h: Head, gaps: Gaps, net: Network) {
    net.read.Reply? && Sent(net) && gaps.beforeRead(h).None? && gaps.beforeWrite(None).None?
  }

  /** Where a call leaves the head: at its own write or where others had it, and what others made of that since. */
  predicate Led(was: Head, gaps: Gaps, wrote: bool, target: Sha, now: Head) {
    var read := gaps.beforeRead(was);
    if wrote then now == Some(target) || now == gaps.beforeCheck(Some(target))
    else now == read || now == gaps.beforeWrite(read) || now == gaps.beforeCheck(gaps.beforeWrite(read))
  }

  /** One update call: what it wrote, where it left the head, and when it succeeds. */
  ghost predicate Updates(
    expected: Sha, target: Sha, call: (Gaps, Network), was: Head, now: Head, wrote: bool, succeeded: bool)
  {
    && wrote == Moves(was, expected, target, call.0, call.1)
    && Led(was, call.0, wrote, target, now)
    && (succeeded ==> now == Some(target))
    && (Alone(call.0) && Answered(call.1) ==> (succeeded <==> was == Some(expected) || was == Some(target)))
  }

  /** The same for one creation. */
  ghost predicate Fills(target: Sha, call: (Gaps, Network), was: Head, now: Head, wrote: bool, succeeded: bool) {
    && wrote == Creates(was, call.0, call.1)
    && Led(was, call.0, wrote, target, now)
    && (succeeded ==> now == Some(target))
    && (Alone(call.0) && Answered(call.1) ==> (succeeded <==> was.None? || was == Some(target)))
  }

  ghost predicate AllAlone(calls: seq<(Gaps, Network)>) {
    forall k | 0 <= k < |calls| :: Alone(calls[k].0)
  }

  /** The head stays where it was, or moves once, from the expected head to the target, and stays there. */
  ghost predicate Settles(heads: seq<Head>, wrote: seq<bool>, expected: Sha, target: Sha) {
    && |heads| == |wrote| + 1
    && (forall k | 0 <= k < |wrote| ::
          heads[k + 1] == (if wrote[k] then Some(target) else heads[k]) && (wrote[k] ==> heads[k] == Some(expected)))
    && (forall j, k | 0 <= j < k < |wrote| && wrote[j] :: !wrote[k] && heads[k] == Some(target))
  }

  lemma AloneSettles(heads: seq<Head>, wrote: seq<bool>, expected: Sha, target: Sha, calls: seq<(Gaps, Network)>)
    requires |wrote| == |calls| && |heads| == |calls| + 1 && AllAlone(calls)
    requires forall k | 0 <= k < |calls| ::
      && wrote[k] == Moves(heads[k], expected, target, calls[k].0, calls[k].1)
      && Led(heads[k], calls[k].0, wrote[k], target, heads[k + 1])
    ensures Settles(heads, wrote, expected, target)
  {
    assert forall k | 0 <= k < |calls| :: Alone(calls[k].0);
    forall j, k | 0 <= j < k < |wrote| && wrote[j] ensures !wrote[k] && heads[k] == Some(target) {
      StaysAtTarget(heads, wrote, expected, target, calls, j, k);
    }
  }

  lemma {:induction false} StaysAtTarget(
      heads: seq<Head>, wrote: seq<bool>, expected: Sha, target: Sha, calls: seq<(Gaps, Network)>, j: nat, k: nat)
    requires |wrote| == |calls| && |heads| == |calls| + 1 && j < k < |calls| && wrote[j] && AllAlone(calls)
    requires forall i | 0 <= i < |calls| ::
      && wrote[i] == Moves(heads[i], expected, target, calls[i].0, calls[i].1)
      && Led(heads[i], calls[i].0, wrote[i], target, heads[i + 1])
    ensures heads[k] == Some(target) && !wrote[k]
    decreases k
  {
    assert Alone(calls[k - 1].0) && Alone(calls[k].0);
    assert Led(heads[k - 1], calls[k - 1].0, wrote[k - 1], target, heads[k]);
    if k > j + 1 { StaysAtTarget(heads, wrote, expected, target, calls, j, k - 1); }
  }
}
