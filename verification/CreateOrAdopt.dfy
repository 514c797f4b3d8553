/**
Create-or-adopt against a server whose requests and replies can be lost, for any kind
of entry: look the entry up by its key, create it if it is not there, and look it up
again when the create request failed in transport.
*/
module CreateOrAdopt {
  import opened Prelude
  import opened ForgeServer

  const MAX_PAGES: nat := 100
  const PAGE_SIZE: nat := 100
  const LIMIT: nat := MAX_PAGES * PAGE_SIZE

  datatype Disposition = Created | Adopted

  datatype Mutation = Mutation(disposition: Disposition, number: nat)

  type Pages = nat -> ReadFate

  /** What becomes of each request of one call: both lookups, the create, and the read of the new entry. */
  datatype Network = Network(list: Pages, post: WriteFate, get: ReadFate, again: Pages)

  ghost predicate AllReply(list: Pages) {
    forall page :: list(page).Reply?
  }

  /** No entry satisfies `p`. */
  ghost predicate Without<T>(s: seq<T>, p: T -> bool) {
    forall i | 0 <= i < |s| :: !p(s[i])
  }

  /** Exactly the entry at `n` satisfies `p`. */
  ghost predicate Only<T>(s: seq<T>, p: T -> bool, n: nat) {
    n < |s| && forall i | 0 <= i < |s| :: p(s[i]) <==> i == n
  }

  /** Nothing was added, or one entry where there was none of its key. */
  ghost predicate Added<T>(before: seq<T>, posted: T, carries: T -> bool, after: seq<T>) {
    after == before || (Without(before, carries) && after == before + [posted])
  }

  /** The answer of a lookup that is not cut short. */
  ghost predicate LookedUp<T>(items: seq<T>, carries: T -> bool, fits: T -> bool, r: Result<Option<nat>, ErrorKind>) {
    && (|items| > LIMIT ==> r == Err(MalformedResponse))
    && (|items| <= LIMIT && Without(items, carries) ==> r == Ok(None))
    && (|items| <= LIMIT ==>
          forall n: nat | Only(items, carries, n) :: r == if fits(items[n]) then Ok(Some(n)) else Err(Conflict))
    && (r.Ok? ==>
          match r.value
          case None => Without(items, carries)
          case Some(n) => Only(items, carries, n) && fits(items[n]))
  }

  /** What a lookup that finds `item` under number `n`, and no other, leads to. */
  function Adoption<T>(item: T, fits: T -> bool, n: nat): Result<Mutation, ErrorKind> {
    if fits(item) then Ok(Mutation(Adopted, n)) else Err(Conflict)
  }

  /** The answer of a call that found nothing, when the second lookup, if any, is answered. */
  function Creation<T>(posted: T, fits: T -> bool, n: nat, net: Network): Result<Mutation, ErrorKind> {
    match net.post
    case NotApplied(kind) => Err(kind)
    case Applied(reply) =>
      var failure := if reply.Fails? then reply else net.get;
      if failure.Reply? then Ok(Mutation(Created, n))
      else if failure.kind.Transport? then Adoption(posted, fits, n)
      else Err(failure.kind)
  }

  class Server<T> {
    var items: seq<T>

    constructor ()
      ensures items == []
    {
      items := [];
    }

    /** Follows the pages of the list; the last page has no next link. */
    method List(list: Pages) returns (r: Result<seq<T>, ErrorKind>)
      ensures r.Ok? ==> r.value == items && |items| <= LIMIT
      ensures AllReply(list) ==> r == if |items| > 10_000 then Err(MalformedResponse) else Ok(items)
    {
      var values: seq<T> := [];
      var page, more := 1, true;
      while more
        invariant 1 <= page <= MAX_PAGES + 1 && |values| <= |items| && values == items[..|values|]
        invariant
          if more then |values| == (page - 1) * PAGE_SIZE && (page == 1 || |values| < |items|)
          else values == items
        invariant !more ==> |items| <= LIMIT
        decreases more, MAX_PAGES + 1 - page
      {
        if page > MAX_PAGES { return Err(MalformedResponse); }
        if list(page).Fails? { return Err(list(page).kind); }
        var end := if page * PAGE_SIZE < |items| then page * PAGE_SIZE else |items|;
        values := values + items[|values|..end];
        more := end < |items|;
        page := page + 1;
      }
      return Ok(values);
    }

    method Adopt(carries: T -> bool, fits: T -> bool, list: Pages) returns (r: Result<Option<nat>, ErrorKind>)
      ensures r.Ok? || AllReply(list) ==> LookedUp(items, carries, fits, r)
    {
      var listed := List(list);
      if listed.Err? { return Err(listed.error); }
      var matches := Positions(items, carries);
      if |matches| > 1 {
        var a, b := matches[0], matches[1];
        assert forall n: nat | Only(items, carries, n) :: a == n && b == n;
        return Err(Conflict);
      }
      if |matches| == 0 { return Ok(None); }
      var n := matches[0];
      assert Only(items, carries, n);
      if !fits(items[n]) { return Err(Conflict); }
      return Ok(Some(n));
    }

    /** The create request, the read of what it made, and the lookup after a transport failure. */
    method Create(posted: T, carries: T -> bool, fits: T -> bool, net: Network) returns (r: Result<Mutation, ErrorKind>)
      requires carries(posted) && Without(items, carries)
      modifies this
      ensures items == if net.post.Applied? then old(items) + [posted] else old(items)
      ensures r.Ok? ==> net.post.Applied? && r.value.number == |old(items)|
      ensures r.Ok? && r.value.disposition.Adopted? ==> fits(posted)
      ensures AllReply(net.again) && |old(items)| < LIMIT ==> r == Creation(posted, fits, |old(items)|, net)
    {
      var failure :=
        if net.post.NotApplied? then Fails(net.post.kind)
        else if net.post.reply.Fails? then net.post.reply else net.get;
      if net.post.Applied? {
        items := items + [posted];
        if failure.Reply? { return Ok(Mutation(Created, |items| - 1)); }
      }
      if !failure.kind.Transport? { return Err(failure.kind); }
      assert net.post.Applied? ==> Only(items, carries, |old(items)|);
      var recovered := Adopt(carries, fits, net.again);
      if recovered.Err? { return Err(recovered.error); }
      if recovered.value.Some? { return Ok(Mutation(Adopted, recovered.value.value)); }
      return Err(failure.kind);
    }

    method CreateOrAdopt(posted: T, carries: T -> bool, fits: T -> bool, net: Network)
      returns (r: Result<Mutation, ErrorKind>)
      requires carries(posted)
      modifies this
      ensures Added(old(items), posted, carries, items)
      ensures r.Ok? ==> Only(items, carries, r.value.number)
      ensures r.Ok? && r.value.disposition.Adopted? ==> fits(items[r.value.number])
      ensures r.Ok? && r.value.disposition.Created? ==> items == old(items) + [posted] && r.value.number == |old(items)|
      ensures AllReply(net.list) && |old(items)| <= LIMIT ==>
        forall n: nat | Only(old(items), carries, n) :: items == old(items) && r == Adoption(items[n], fits, n)
      ensures AllReply(net.list) && |old(items)| < LIMIT && Without(old(items), carries) ==>
        && items == (if net.post.Applied? then old(items) + [posted] else old(items))
        && (AllReply(net.again) ==> r == Creation(posted, fits, |old(items)|, net))
    {
      var existing := Adopt(carries, fits, net.list);
      if existing.Err? { return Err(existing.error); }
      if existing.value.Some? { return Ok(Mutation(Adopted, existing.value.value)); }
      r := Create(posted, carries, fits, net);
    }

    /** The same request sent again and again: at most one entry comes of it, and every success names that entry. */
    method Retry(posted: T, carries: T -> bool, fits: T -> bool, nets: seq<Network>)
      returns (results: seq<Result<Mutation, ErrorKind>>)
      requires carries(posted) && Without(items, carries)
      modifies this
      ensures |results| == |nets|
      ensures items == old(items) || (items == old(items) + [posted] && Only(items, carries, |old(items)|))
      ensures forall k | 0 <= k < |results| && results[k].Ok? :: results[k].value.number == |old(items)| < |items|
      ensures |old(items)| < LIMIT ==>
        forall k, l
          | 0 <= k < l < |nets| && AllReply(nets[k].list) && nets[k].post.Applied? && AllReply(nets[l].list) ::
          results[l] == Adoption(posted, fits, |old(items)|)
    {
      results := [];
      for i := 0 to |nets|
        invariant |results| == i
        invariant items == old(items) || (items == old(items) + [posted] && Only(items, carries, |old(items)|))
        invariant forall k | 0 <= k < i && results[k].Ok? :: results[k].value.number == |old(items)| < |items|
        invariant |old(items)| < LIMIT ==>
          forall k | 0 <= k < i && AllReply(nets[k].list) && nets[k].post.Applied? :: |items| > |old(items)|
        invariant |old(items)| < LIMIT ==>
          forall k, l | 0 <= k < l < i && AllReply(nets[k].list) && nets[k].post.Applied? && AllReply(nets[l].list) ::
            results[l] == Adoption(posted, fits, |old(items)|)
      {
        assert |items| > |old(items)| ==> items[|old(items)|] == posted;
        var r := CreateOrAdopt(posted, carries, fits, nets[i]);
        assert |items| > |old(items)| ==> items[|old(items)|] == posted;
        results := results + [r];
      }
    }
  }

  /** Where `keep` holds, in order. */
  method Positions<T>(items: seq<T>, keep: T -> bool) returns (found: seq<nat>)
    ensures forall k | 0 <= k < |found| :: found[k] < |items| && keep(items[found[k]])
    ensures forall k, l | 0 <= k < l < |found| :: found[k] < found[l]
    ensures forall j | 0 <= j < |items| && keep(items[j]) :: j in found
  {
    found := [];
    for i := 0 to |items|
      invariant forall k | 0 <= k < |found| :: found[k] < i && keep(items[found[k]])
      invariant forall k, l | 0 <= k < l < |found| :: found[k] < found[l]
      invariant forall j | 0 <= j < i && keep(items[j]) :: j in found
    {
      if keep(items[i]) { found := found + [i]; }
    }
  }
}
