/**
Create-or-adopt of pull requests: the same protocol as for issues, after a check that
the source branch is where the caller expects it. The server is seen through the list
of pull requests between the two branches, which is all that a lookup reads.
*/
module PullRequestForge {
  import opened Prelude
  import opened ForgeServer
  import opened CreateOrAdopt
  import BodyMarker

  datatype PullRequest = PullRequest(headSha: string, draft: bool, title: string, body: string)

  /** A pull request is a draft unless the caller says otherwise. */
  datatype Input = Input(
    expectedHeadSha: string, title: string, body: string, draft: Option<bool>, linkage: BodyMarker.Digest)

  function Draft(input: Input): bool { if input.draft.Some? then input.draft.value else true }

  function Linkage(p: PullRequest): Option<BodyMarker.Digest> { BodyMarker.BodyAndLinkage(p.body).linkage }

  /** The pull request a create request asks for, while the source branch stays where it was checked. */
  function Posted(input: Input): PullRequest {
    PullRequest(input.expectedHeadSha, Draft(input), input.title,
      BodyMarker.MarkerBody(BodyMarker.PullRequest, input.body, input.linkage))
  }

  predicate Matches(p: PullRequest, input: Input) {
    && Linkage(p) == Some(input.linkage) && p.headSha == input.expectedHeadSha && p.draft == Draft(input)
    && p.title == input.title && BodyMarker.BodyAndLinkage(p.body).body == BodyMarker.TrimEnd(input.body)
  }

  function Carries(d: string): PullRequest -> bool { p => Linkage(p) == Some(d) }

  function Fits(input: Input): PullRequest -> bool { p => Matches(p, input) }

  /** A new pull request passes the comparison of its own request exactly when the body ends in no marker. */
  lemma MatchesExactly(input: Input)
    ensures Linkage(Posted(input)) == Some(input.linkage)
    ensures Matches(Posted(input), input) <==> !BodyMarker.HasTrailingMarker(input.body)
  {
    BodyMarker.RoundTrip(BodyMarker.PullRequest, input.body, input.linkage);
    BodyMarker.CleanExactly(input.body);
  }

  lemma AdoptionExactly(input: Input, n: nat)
    ensures Adoption(Posted(input), Fits(input), n)
         == if BodyMarker.HasTrailingMarker(input.body) then Err(Conflict) else Ok(Mutation(Adopted, n))
  {
    MatchesExactly(input);
  }

  /** `head` is what the read of the source branch answers. */
  method CreateOrAdoptPullRequest(
    server: Server<PullRequest>, input: Input, head: Result<Option<string>, ErrorKind>, net: Network)
    returns (r: Result<Mutation, ErrorKind>)
    modifies server
    ensures Added(old(server.items), Posted(input), Carries(input.linkage), server.items)
    ensures r.Ok? ==> Only(server.items, Carries(input.linkage), r.value.number)
    ensures head != Ok(Some(input.expectedHeadSha)) ==>
      server.items == old(server.items) && r == Err(if head.Err? then head.error else StaleRef)
    ensures head == Ok(Some(input.expectedHeadSha)) && AllReply(net.list) && |old(server.items)| <= LIMIT ==>
      forall n: nat | Only(old(server.items), Carries(input.linkage), n) ::
        server.items == old(server.items) && r == Adoption(server.items[n], Fits(input), n)
    // a pull request that is there is adopted if it is what was asked for, and is a conflict otherwise
    ensures head == Ok(Some(input.expectedHeadSha)) && AllReply(net.list) && |old(server.items)| <= LIMIT ==>
      forall n: nat | Only(old(server.items), Carries(input.linkage), n) ::
        var p := old(server.items)[n];
        r == if && p.headSha == input.expectedHeadSha && p.title == input.title
                && p.draft == (input.draft != Some(false))
                && BodyMarker.BodyAndLinkage(p.body).body == BodyMarker.TrimEnd(input.body)
             then Ok(Mutation(Adopted, n)) else Err(Conflict)
    // a pull request that is added is the one asked for
    ensures |server.items| > |old(server.items)| ==>
      var p := server.items[|old(server.items)|];
      && p.headSha == input.expectedHeadSha && p.title == input.title && p.draft == (input.draft != Some(false))
      && BodyMarker.BodyAndLinkage(p.body)
         == BodyMarker.Parsed(BodyMarker.BodyAndLinkage(input.body).body, Some(input.linkage))
  {
    if head.Err? { return Err(head.error); }
    if head.value != Some(input.expectedHeadSha) { return Err(StaleRef); }
    MatchesExactly(input);
    BodyMarker.RoundTrip(BodyMarker.PullRequest, input.body, input.linkage);
    r := server.CreateOrAdopt(Posted(input), Carries(input.linkage), Fits(input), net);
  }

  /**
  Retries while the source branch stays put: at most one pull request, and later calls adopt it
  exactly when its body ends in no marker.
  */
  method RetryPullRequest(server: Server<PullRequest>, input: Input, nets: seq<Network>)
    returns (results: seq<Result<Mutation, ErrorKind>>)
    requires Without(server.items, Carries(input.linkage))
    modifies server
    ensures |results| == |nets|
    ensures server.items == old(server.items) || server.items == old(server.items) + [Posted(input)]
    ensures forall k | 0 <= k < |results| && results[k].Ok? ::
      results[k].value.number == |old(server.items)| < |server.items|
    ensures |old(server.items)| < LIMIT ==>
      forall k, l | 0 <= k < l < |nets| && AllReply(nets[k].list) && nets[k].post.Applied? && AllReply(nets[l].list) ::
        results[l] ==
          if BodyMarker.HasTrailingMarker(input.body) then Err(Conflict) else Ok(Mutation(Adopted, |old(server.items)|))
  {
    MatchesExactly(input);
    results := server.Retry(Posted(input), Carries(input.linkage), Fits(input), nets);
    AdoptionExactly(input, |old(server.items)|);
  }

  /** A body that ends in a marker is created without it, so its own retry is refused. */
  lemma MarkedBodyConflicts(head: string, title: string, d: BodyMarker.Digest, e: BodyMarker.Digest, n: nat)
    ensures var input := Input(head, title, BodyMarker.Marker(BodyMarker.PullRequest, e), None, d);
      Adoption(Posted(input), Fits(input), n) == Err(Conflict)
  {
    var m := BodyMarker.Marker(BodyMarker.PullRequest, e);
    assert m == "" + m + "" && BodyMarker.AllSpace("");
    AdoptionExactly(Input(head, title, m, None, d), n);
  }
}
