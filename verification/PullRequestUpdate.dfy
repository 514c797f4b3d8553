/**
The two-step update of a pull request: the draft flag first, then auto-merge. A call
may be cut off at any request, others may write before every one of them, and a retry
carries the version observed before the first call. The digest of a version is taken to
be injective, so that versions are compared by the canonical text of the snapshot.
*/
module PullRequestUpdate {
  import opened Prelude
  import opened Texts
  import opened ForgeServer
  import opened ForgeSnapshots

  datatype Input = Input(expectedHeadSha: Text, expectedVersion: Text, draft: Option<bool>, autoMerge: Option<bool>)

  datatype Disposition = Unchanged | Updated

  datatype Mutation = Mutation(disposition: Disposition, pullRequest: PullRequest)

  /** What others make of the pull request before each request of one call. */
  type Others = PullRequest -> PullRequest

  datatype Gaps = Gaps(first: Others, draft: Others, between: Others, autoMerge: Others, last: Others)

  /** What becomes of each request of one call, in the order they are sent. */
  datatype Network = Network(
    first: ReadFate, draft: WriteFate, between: ReadFate, autoMerge: WriteFate, last: ReadFate, gaps: Gaps)

  /** Nobody else writes. */
  ghost predicate Alone(net: Network) {
    forall p ::
      && net.gaps.first(p) == p && net.gaps.draft(p) == p && net.gaps.between(p) == p
      && net.gaps.autoMerge(p) == p && net.gaps.last(p) == p
  }

  function Wanted<T>(request: Option<T>, otherwise: T): T {
    if request.Some? then request.value else otherwise
  }

  /** The pull request as the caller wants it. */
  function Requested(p: PullRequest, input: Input): PullRequest {
    p.(draft := Wanted(input.draft, p.draft), autoMergeEnabled := Wanted(input.autoMerge, p.autoMergeEnabled))
  }

  /** Auto-merge is to be switched on for what stays a draft. */
  predicate AutoMergeOnDraft(p: PullRequest, input: Input) {
    input.autoMerge == Some(true) && !p.autoMergeEnabled && Wanted(input.draft, p.draft)
  }

  predicate Answered(net: Network) {
    && net.first.Reply? && net.draft == Applied(Reply) && net.between.Reply?
    && net.autoMerge == Applied(Reply) && net.last.Reply?
  }

  /** `p` is `original`, or that with the draft flag as wanted, or with both flags as wanted. */
  ghost predicate Moved(original: PullRequest, input: Input, p: PullRequest) {
    p == original || p == original.(draft := Wanted(input.draft, original.draft)) || p == Requested(original, input)
  }

  /** A flag that a request of ours set, and the pull request it was set on. */
  datatype Change = SetDraft(found: PullRequest, value: bool) | SetAutoMerge(found: PullRequest, value: bool)

  /** One change for each flag in which `q` differs from `p`, the draft flag first. */
  function Steps(p: PullRequest, q: PullRequest): seq<Change> {
    (if p.draft != q.draft then [SetDraft(p, q.draft)] else [])
    + (if p.autoMergeEnabled != q.autoMergeEnabled
       then [SetAutoMerge(q.(autoMergeEnabled := p.autoMergeEnabled), q.autoMergeEnabled)] else [])
  }

  /** Our requests led from `p` to `q`, one for each flag that changed. */
  ghost predicate Mutated(p: PullRequest, input: Input, q: PullRequest, before: seq<Change>, after: seq<Change>) {
    Moved(p, input, q) && after == before + Steps(p, q)
  }

  /** The flags that were asked for are as asked. */
  predicate AsWanted(p: PullRequest, input: Input) {
    && (input.draft.Some? ==> p.draft == input.draft.value)
    && (input.autoMerge.Some? ==> p.autoMergeEnabled == input.autoMerge.value)
  }

  /** One of the flags that were asked for is already as asked. */
  predicate OneMatches(p: PullRequest, input: Input) {
    input.draft == Some(p.draft) || input.autoMerge == Some(p.autoMergeEnabled)
  }

  predicate Changing(input: Input) { input.draft.Some? || input.autoMerge.Some? }

  /**
  The call gets past its checks: it asks for something that is there already, or nothing has
  changed, or one flag is as wanted.
  */
  predicate Accepted(p: PullRequest, input: Input) {
    && Changing(input)
    && p.state.Open? && p.headSha == input.expectedHeadSha
    && (Version(p) == input.expectedVersion || OneMatches(p, input))
  }

  // ------------------------------------------------------- one call among other writers

  /** What the first read sees. */
  function Seen(was: PullRequest, net: Network): PullRequest { net.gaps.first(was) }

  /** The checks hold of what the call saw, and something is to be done. */
  predicate Tries(was: PullRequest, input: Input, net: Network) {
    net.first.Reply? && Accepted(Seen(was, net), input) && !AsWanted(Seen(was, net), input)
  }

  predicate DraftNeeded(p: PullRequest, input: Input) { input.draft.Some? && p.draft != input.draft.value }

  predicate MergeNeeded(p: PullRequest, input: Input) {
    input.autoMerge.Some? && p.autoMergeEnabled != input.autoMerge.value
  }

  /** The pull request that a request to set the draft flag finds. */
  function FoundForDraft(was: PullRequest, net: Network): PullRequest { net.gaps.draft(Seen(was, net)) }

  /** The call sets the draft flag: it saw that it has to, and its request arrives. */
  predicate SetsDraft(was: PullRequest, input: Input, net: Network) {
    Tries(was, input, net) && DraftNeeded(Seen(was, net), input) && net.draft.Applied?
  }

  /** What the call last saw when it comes to auto-merge. */
  function SeenLater(was: PullRequest, input: Input, net: Network): PullRequest {
    if DraftNeeded(Seen(was, net), input)
    then net.gaps.between(FoundForDraft(was, net).(draft := input.draft.value)) else Seen(was, net)
  }

  /** The call comes to auto-merge: the draft flag was as wanted, or was set, answered and read again. */
  predicate GoesOn(was: PullRequest, input: Input, net: Network) {
    && Tries(was, input, net)
    && (DraftNeeded(Seen(was, net), input) ==> net.draft == Applied(Reply) && net.between.Reply?)
  }

  function FoundForMerge(was: PullRequest, input: Input, net: Network): PullRequest {
    net.gaps.autoMerge(SeenLater(was, input, net))
  }

  /** The request is sent: never to switch auto-merge on for what was last seen as a draft. */
  predicate AsksForMerge(was: PullRequest, input: Input, net: Network) {
    && GoesOn(was, input, net) && MergeNeeded(SeenLater(was, input, net), input)
    && !(input.autoMerge.value && SeenLater(was, input, net).draft)
  }

  /** The call sets auto-merge: its request arrives and, to switch it on, finds the expected head. */
  predicate SetsAutoMerge(was: PullRequest, input: Input, net: Network) {
    && AsksForMerge(was, input, net) && net.autoMerge.Applied?
    && (input.autoMerge.value ==> FoundForMerge(was, input, net).headSha == input.expectedHeadSha)
  }

  /** What the call changed, and on which pull request. */
  function Changed(was: PullRequest, input: Input, net: Network): seq<Change> {
    (if SetsDraft(was, input, net) then [SetDraft(FoundForDraft(was, net), input.draft.value)] else [])
    + (if SetsAutoMerge(was, input, net)
       then [SetAutoMerge(FoundForMerge(was, input, net), input.autoMerge.value)] else [])
  }

  /** Everything that was needed has been set and answered, so that the last read is sent. */
  predicate Finishes(was: PullRequest, input: Input, net: Network) {
    && GoesOn(was, input, net)
    && (MergeNeeded(SeenLater(was, input, net), input) ==>
          SetsAutoMerge(was, input, net) && net.autoMerge.reply.Reply?)
  }

  /** Where the draft request, and the read after it, leave the pull request. */
  function AfterDraft(was: PullRequest, input: Input, net: Network): PullRequest
    requires DraftNeeded(Seen(was, net), input)
  {
    var done := FoundForDraft(was, net).(draft := input.draft.value);
    if net.draft.NotApplied? then FoundForDraft(was, net)
    else if net.draft.reply.Fails? then done
    else net.gaps.between(done)
  }

  /** Where the call leaves the pull request. */
  function Left(was: PullRequest, input: Input, net: Network): PullRequest {
    var later := SeenLater(was, input, net);
    if !Changing(input) then was
    else if !Tries(was, input, net) then Seen(was, net)
    else if !GoesOn(was, input, net) then AfterDraft(was, input, net)
    else
      var done :=
        if !AsksForMerge(was, input, net) then later
        else if SetsAutoMerge(was, input, net)
        then FoundForMerge(was, input, net).(autoMergeEnabled := input.autoMerge.value)
        else FoundForMerge(was, input, net);
      if Finishes(was, input, net) then net.gaps.last(done) else done
  }

  /** The call succeeds: nothing was to be done, or all was done and the last read shows it. */
  predicate Succeeds(was: PullRequest, input: Input, net: Network) {
    || (net.first.Reply? && Accepted(Seen(was, net), input) && AsWanted(Seen(was, net), input))
    || (Finishes(was, input, net) && net.last.Reply? && AsWanted(Left(was, input, net), input))
  }

  /** The call stops at the check that auto-merge is not switched on for a draft. */
  predicate StopsAtDraft(was: PullRequest, input: Input, net: Network) {
    GoesOn(was, input, net) && MergeNeeded(SeenLater(was, input, net), input) && !AsksForMerge(was, input, net)
  }

  /** Without other writers the call sets the flags that differ and leaves everything else alone. */
  lemma AloneMutates(was: PullRequest, input: Input, net: Network)
    requires Alone(net)
    ensures Moved(was, input, Left(was, input, net)) && Changed(was, input, net) == Steps(was, Left(was, input, net))
    ensures Finishes(was, input, net) ==> Left(was, input, net) == Requested(was, input)
    ensures AutoMergeOnDraft(was, input) ==> !Finishes(was, input, net) && !SetsAutoMerge(was, input, net)
  {
    assert Seen(was, net) == was;
  }

  lemma AloneSucceeds(was: PullRequest, input: Input, net: Network)
    requires Alone(net)
    ensures Succeeds(was, input, net) ==>
      && Left(was, input, net) == Requested(was, input)
      && (AsWanted(Seen(was, net), input) <==> was == Requested(was, input))
    ensures AutoMergeOnDraft(was, input) ==>
      !Succeeds(was, input, net) && Left(was, input, net).autoMergeEnabled == was.autoMergeEnabled
  {
    AloneMutates(was, input, net);
    assert Seen(was, net) == was;
  }

  lemma AloneAnswered(was: PullRequest, input: Input, net: Network)
    requires Alone(net) && Answered(net) && Accepted(was, input)
    ensures !AutoMergeOnDraft(was, input) ==> Succeeds(was, input, net)
    ensures AutoMergeOnDraft(was, input) ==>
      StopsAtDraft(was, input, net) && Left(was, input, net) == was.(draft := Wanted(input.draft, was.draft))
  {
    assert Seen(was, net) == was;
  }

  /** Every change is one that was asked for; auto-merge is switched on only at the expected head. */
  ghost predicate Rightful(c: Change, input: Input) {
    match c
    case SetDraft(_, value) => input.draft == Some(value)
    case SetAutoMerge(found, value) =>
      input.autoMerge == Some(value) && (value ==> found.headSha == input.expectedHeadSha)
  }

  lemma ChangesRightful(was: PullRequest, input: Input, net: Network)
    ensures forall c | c in Changed(was, input, net) :: Rightful(c, input)
    ensures Changed(was, input, net) != [] ==> Accepted(Seen(was, net), input)
    ensures Changed(was, input, net) != [] && !OneMatches(Seen(was, net), input) ==>
      forall seen | Version(seen) == input.expectedVersion :: seen == Seen(was, net)
  {
    OnlySeen(Seen(was, net));
  }

  lemma SuccessIsWanted(was: PullRequest, input: Input, net: Network)
    requires Succeeds(was, input, net)
    ensures AsWanted(Left(was, input, net), input)
  {
  }

  class Server {
    var pr: PullRequest
    ghost var changes: seq<Change>

    constructor (p: PullRequest)
      ensures pr == p && changes == []
    {
      pr := p;
      changes := [];
    }

    method Read(others: Others, fate: ReadFate) returns (r: Result<PullRequest, ErrorKind>)
      modifies this`pr
      ensures pr == others(old(pr))
      ensures r == if fate.Reply? then Ok(pr) else Err(fate.kind)
    {
      pr := others(pr);
      if fate.Fails? { return Err(fate.kind); }
      return Ok(pr);
    }

    /** A mutation of the draft flag, whatever its present value. */
    method MutateDraft(value: bool, others: Others, fate: WriteFate) returns (failure: Option<ErrorKind>)
      modifies this
      ensures failure ==
        if fate.NotApplied? then Some(fate.kind) else if fate.reply.Fails? then Some(fate.reply.kind) else None
      ensures var found := others(old(pr));
        if fate.Applied?
        then pr == found.(draft := value) && changes == old(changes) + [SetDraft(found, value)]
        else pr == found && changes == old(changes)
    {
      pr := others(pr);
      if fate.NotApplied? { return Some(fate.kind); }
      changes := changes + [SetDraft(pr, value)];
      pr := pr.(draft := value);
      if fate.reply.Fails? { return Some(fate.reply.kind); }
      return None;
    }

    /** A mutation of auto-merge; the server refuses to switch it on at another head than the one given. */
    method MutateAutoMerge(value: bool, headSha: Text, others: Others, fate: WriteFate)
      returns (failure: Option<ErrorKind>)
      modifies this
      ensures var found := others(old(pr));
        if fate.Applied? && (value ==> found.headSha == headSha)
        then pr == found.(autoMergeEnabled := value) && changes == old(changes) + [SetAutoMerge(found, value)]
        else pr == found && changes == old(changes)
      ensures failure.None? <==> fate == Applied(Reply) && (value ==> others(old(pr)).headSha == headSha)
    {
      pr := others(pr);
      if fate.NotApplied? { return Some(fate.kind); }
      if value && pr.headSha != headSha { return Some(if fate.reply.Fails? then fate.reply.kind else Conflict); }
      changes := changes + [SetAutoMerge(pr, value)];
      pr := pr.(autoMergeEnabled := value);
      if fate.reply.Fails? { return Some(fate.reply.kind); }
      return None;
    }

    /** The whole call: it leaves the pull request, and is answered, as the requests and the others decide. */
    method Send(input: Input, net: Network) returns (r: Result<Mutation, ErrorKind>)
      modifies this
      ensures pr == Left(old(pr), input, net) && changes == old(changes) + Changed(old(pr), input, net)
      ensures r.Ok? <==> Succeeds(old(pr), input, net)
      ensures r.Ok? ==> r.value == Mutation(if AsWanted(Seen(old(pr), net), input) then Unchanged else Updated, pr)
      ensures net.first.Reply? && Changing(input) && !Seen(old(pr), net).state.Open? ==> r == Err(Conflict)
      ensures
        && net.first.Reply? && Changing(input) && Seen(old(pr), net).state.Open?
        && Seen(old(pr), net).headSha != input.expectedHeadSha ==>
        r == Err(StaleRef)
      ensures StopsAtDraft(old(pr), input, net) ==> r == Err(Conflict)
    {
      r := Check(input, net);
      if r.Err? || r.value.disposition.Unchanged? { return; }
      var failure := Mutate(input, net, old(pr));
      if failure.Some? { return Err(failure.value); }
      var updated := Read(net.gaps.last, net.last);
      if updated.Err? { return Err(updated.error); }
      if (input.draft.Some? && updated.value.draft != input.draft.value)
         || (input.autoMerge.Some? && updated.value.autoMergeEnabled != input.autoMerge.value) {
        return Err(Conflict);
      }
      return Ok(Mutation(Updated, updated.value));
    }

    method Update(input: Input, net: Network) returns (r: Result<Mutation, ErrorKind>)
      modifies this
      // whatever others do
      ensures pr == Left(old(pr), input, net) && changes == old(changes) + Changed(old(pr), input, net)
      ensures r.Ok? <==> Succeeds(old(pr), input, net)
      ensures r.Ok? ==> r.value.pullRequest == pr && AsWanted(pr, input)
      ensures r.Ok? ==> (r.value.disposition.Unchanged? <==> AsWanted(Seen(old(pr), net), input))
      ensures forall c | c in Changed(old(pr), input, net) :: Rightful(c, input)
      ensures changes != old(changes) ==> Accepted(Seen(old(pr), net), input)
      ensures changes != old(changes) && !OneMatches(Seen(old(pr), net), input) ==>
        forall seen | Version(seen) == input.expectedVersion :: seen == Seen(old(pr), net)
      ensures net.first.Reply? && Changing(input) && !Seen(old(pr), net).state.Open? ==> r == Err(Conflict)
      ensures
        && net.first.Reply? && Changing(input) && Seen(old(pr), net).state.Open?
        && Seen(old(pr), net).headSha != input.expectedHeadSha ==>
        r == Err(StaleRef)
      // without other writers
      ensures Alone(net) ==> SentAlone(old(pr), input, net, r, pr, old(changes), changes)
    {
      ChangesRightful(pr, input, net);
      if Succeeds(pr, input, net) { SuccessIsWanted(pr, input, net); }
      if Alone(net) {
        AloneMutates(pr, input, net);
        AloneSucceeds(pr, input, net);
        if Answered(net) && Accepted(pr, input) { AloneAnswered(pr, input, net); }
      }
      r := Send(input, net);
    }

    method UpdateAlone(input: Input, net: Network) returns (r: Result<Mutation, ErrorKind>)
      requires Alone(net)
      modifies this
      ensures SentAlone(old(pr), input, net, r, pr, old(changes), changes)
    {
      r := Update(input, net);
    }

    /** The read and the checks before anything is sent; `Updated` means that something is to be done. */
    method Check(input: Input, net: Network) returns (r: Result<Mutation, ErrorKind>)
      modifies this`pr
      ensures pr == if Changing(input) then Seen(old(pr), net) else old(pr)
      ensures r.Ok? <==> net.first.Reply? && Accepted(pr, input)
      ensures r.Ok? ==> r.value == Mutation(if AsWanted(pr, input) then Unchanged else Updated, pr)
      ensures net.first.Reply? && Changing(input) && !pr.state.Open? ==> r == Err(Conflict)
      ensures net.first.Reply? && Changing(input) && pr.state.Open? && pr.headSha != input.expectedHeadSha ==>
        r == Err(StaleRef)
    {
      if input.draft.None? && input.autoMerge.None? { return Err(Conflict); }
      var first := Read(net.gaps.first, net.first);
      if first.Err? { return Err(first.error); }
      var current := first.value;
      if !current.state.Open? { return Err(Conflict); }
      if current.headSha != input.expectedHeadSha { return Err(StaleRef); }
      var draftMatches := input.draft.None? || current.draft == input.draft.value;
      var autoMatches := input.autoMerge.None? || current.autoMergeEnabled == input.autoMerge.value;
      if draftMatches && autoMatches { return Ok(Mutation(Unchanged, current)); }
      var partialRecovery := (input.draft.Some? && draftMatches) || (input.autoMerge.Some? && autoMatches);
      if Version(current) != input.expectedVersion && !partialRecovery { return Err(Conflict); }
      return Ok(Mutation(Updated, current));
    }

    /** The draft flag, if it is needed, and the read after it; the call began with the pull request `was`. */
    method DraftFirst(input: Input, net: Network, ghost was: PullRequest)
      returns (r: Result<PullRequest, ErrorKind>)
      requires Tries(was, input, net) && pr == Seen(was, net)
      modifies this
      ensures r.Ok? <==> GoesOn(was, input, net)
      ensures r.Ok? ==> r.value == pr == SeenLater(was, input, net)
      ensures r.Err? ==> DraftNeeded(Seen(was, net), input) && pr == AfterDraft(was, input, net)
      ensures changes == old(changes) +
        if SetsDraft(was, input, net) then [SetDraft(FoundForDraft(was, net), input.draft.value)] else []
    {
      var current := pr;
      if input.draft.Some? && current.draft != input.draft.value {
        var failure := MutateDraft(input.draft.value, net.gaps.draft, net.draft);
        if failure.Some? { return Err(failure.value); }
        r := Read(net.gaps.between, net.between);
        return;
      }
      return Ok(current);
    }

    /** Both mutations as far as they are needed, the draft flag first. */
    method Mutate(input: Input, net: Network, ghost was: PullRequest) returns (failure: Option<ErrorKind>)
      requires Tries(was, input, net) && pr == Seen(was, net)
      modifies this
      ensures changes == old(changes) + Changed(was, input, net)
      ensures failure.None? <==> Finishes(was, input, net)
      ensures failure.Some? ==> pr == Left(was, input, net)
      ensures failure.None? ==> net.gaps.last(pr) == Left(was, input, net)
      ensures StopsAtDraft(was, input, net) ==> failure == Some(Conflict)
    {
      var current := DraftFirst(input, net, was);
      if current.Err? { return Some(current.error); }
      failure := None;
      if input.autoMerge.Some? && current.value.autoMergeEnabled != input.autoMerge.value {
        if input.autoMerge.value && current.value.draft { return Some(Conflict); }
        failure := MutateAutoMerge(input.autoMerge.value, input.expectedHeadSha, net.gaps.autoMerge, net.autoMerge);
      }
    }

    /**
    Any number of calls among other writers: `prs` is the pull request after each call. Each call changes what it
    should on what it found, a success leaves what was asked for, and nothing else was ever set by this client.
    */
    method RetryAmongOthers(input: Input, nets: seq<Network>)
      returns (results: seq<Result<Mutation, ErrorKind>>, ghost prs: seq<PullRequest>)
      modifies this
      ensures |results| == |nets| && |prs| == |nets| + 1 && prs[0] == old(pr) && prs[|nets|] == pr
      ensures forall k | 0 <= k < |nets| ::
        Served(prs[k], input, nets[k], results[k], prs[k + 1])
      ensures changes == old(changes) + AllChanged(prs, input, nets)
      ensures forall c | c in AllChanged(prs, input, nets) :: Rightful(c, input)
    {
      results, prs := [], [pr];
      for i := 0 to |nets|
        invariant |results| == i && |prs| == i + 1 && prs[0] == old(pr) && prs[i] == pr
        invariant forall k | 0 <= k < i ::
          Served(prs[k], input, nets[k], results[k], prs[k + 1])
        invariant changes == old(changes) + AllChanged(prs, input, nets[..i])
      {
        ghost var before := prs;
        var r := UpdateServed(input, nets[i]);
        results, prs := results + [r], prs + [pr];
        AllChangedNext(before, pr, input, nets, i);
      }
      assert nets[..|nets|] == nets;
      AllRightful(prs, input, nets);
    }

    method UpdateServed(input: Input, net: Network) returns (r: Result<Mutation, ErrorKind>)
      modifies this
      ensures Served(old(pr), input, net, r, pr)
      ensures changes == old(changes) + Changed(old(pr), input, net)
    {
      r := Update(input, net);
    }

    /**
    Any number of calls with the version seen before the first: each flag changes at most once, the pull request
    is always on the way to what was asked for, every success is that, and once a call was answered throughout the
    pull request stays there, unless auto-merge was asked for on a draft: then no call succeeds.
    */
    method Retry(input: Input, nets: seq<Network>) returns (results: seq<Result<Mutation, ErrorKind>>)
      requires pr.state.Open? && pr.headSha == input.expectedHeadSha && Version(pr) == input.expectedVersion
      requires Changing(input) && forall k | 0 <= k < |nets| :: Alone(nets[k])
      modifies this
      ensures |results| == |nets|
      ensures Mutated(old(pr), input, pr, old(changes), changes)
      ensures forall k | 0 <= k < |nets| && results[k].Ok? ::
        results[k].value.pullRequest == Requested(old(pr), input) == pr
      ensures forall k | 0 <= k < |nets| && Answered(nets[k]) :: results[k].Ok? <==> !AutoMergeOnDraft(old(pr), input)
      ensures AutoMergeOnDraft(old(pr), input) ==> forall k | 0 <= k < |nets| :: results[k].Err?
    {
      results := [];
      for i := 0 to |nets|
        invariant |results| == i && Mutated(old(pr), input, pr, old(changes), changes)
        invariant forall k | 0 <= k < i && results[k].Ok? ::
          results[k].value.pullRequest == Requested(old(pr), input) == pr
        invariant forall k | 0 <= k < i && Answered(nets[k]) :: results[k].Ok? <==> !AutoMergeOnDraft(old(pr), input)
        invariant AutoMergeOnDraft(old(pr), input) ==> !pr.autoMergeEnabled && forall k | 0 <= k < i :: results[k].Err?
      {
        var r := UpdateAgain(input, nets[i], old(pr), old(changes));
        results := results + [r];
      }
    }

    /** One call of a series that began with the pull request `was`. */
    method UpdateAgain(input: Input, net: Network, ghost was: PullRequest, ghost before: seq<Change>)
      returns (r: Result<Mutation, ErrorKind>)
      requires Alone(net) && Changing(input) && Mutated(was, input, pr, before, changes)
      requires was.state.Open? && was.headSha == input.expectedHeadSha && Version(was) == input.expectedVersion
      requires AutoMergeOnDraft(was, input) ==> !pr.autoMergeEnabled
      modifies this
      ensures Mutated(was, input, pr, before, changes)
      ensures r.Ok? ==> r.value.pullRequest == pr == Requested(was, input)
      ensures old(pr) == Requested(was, input) ==> pr == old(pr)
      ensures Answered(net) ==> (r.Ok? <==> !AutoMergeOnDraft(was, input))
      ensures AutoMergeOnDraft(was, input) ==> r.Err? && !pr.autoMergeEnabled
    {
      r := UpdateAlone(input, net);
      ChangesJoin(was, input, old(pr), pr, before, old(changes), changes);
      AnswersAgain(was, input, net, old(pr), r, pr, old(changes), changes);
    }
  }

  /** One call among others: where it left the pull request and whether it succeeded. */
  ghost predicate Served(
    was: PullRequest, input: Input, net: Network, r: Result<Mutation, ErrorKind>, now: PullRequest)
  {
    && now == Left(was, input, net) && (r.Ok? <==> Succeeds(was, input, net))
    && (r.Ok? ==> r.value.pullRequest == now && AsWanted(now, input))
  }

  /** One call without other writers: what it changed, when it succeeds, and what it does about a draft. */
  ghost predicate SentAlone(
    was: PullRequest, input: Input, net: Network, r: Result<Mutation, ErrorKind>, now: PullRequest,
    before: seq<Change>, after: seq<Change>)
  {
    && Mutated(was, input, now, before, after)
    && (r.Ok? ==>
          && r.value.pullRequest == now == Requested(was, input)
          && (r.value.disposition.Unchanged? <==> was == Requested(was, input)))
    && (AutoMergeOnDraft(was, input) ==> r.Err? && now.autoMergeEnabled == was.autoMergeEnabled)
    && (Answered(net) && Accepted(was, input) ==>
          if AutoMergeOnDraft(was, input)
          then r == Err(Conflict) && now == was.(draft := Wanted(input.draft, was.draft))
          else r.Ok?)
  }

  /** What is on the way to what was asked for passes the checks of a retry, which asks for the same. */
  lemma OnTheWay(was: PullRequest, input: Input, p: PullRequest)
    requires Moved(was, input, p) && Changing(input) && (AutoMergeOnDraft(was, input) ==> !p.autoMergeEnabled)
    requires was.state.Open? && was.headSha == input.expectedHeadSha && Version(was) == input.expectedVersion
    ensures Accepted(p, input) && Requested(p, input) == Requested(was, input)
    ensures AutoMergeOnDraft(p, input) <==> AutoMergeOnDraft(was, input)
  {
  }

  /** Two calls in a row change together what one would have changed. */
  lemma StepsJoin(was: PullRequest, input: Input, p: PullRequest, q: PullRequest)
    requires Moved(was, input, p) && Moved(p, input, q) && (AutoMergeOnDraft(was, input) ==> !p.autoMergeEnabled)
    ensures Moved(was, input, q) && Steps(was, p) + Steps(p, q) == Steps(was, q)
  {
  }

  lemma ChangesJoin(
    was: PullRequest, input: Input, p: PullRequest, q: PullRequest,
    before: seq<Change>, between: seq<Change>, after: seq<Change>)
    requires Mutated(was, input, p, before, between) && Mutated(p, input, q, between, after)
    requires AutoMergeOnDraft(was, input) ==> !p.autoMergeEnabled
    ensures Mutated(was, input, q, before, after)
  {
    StepsJoin(was, input, p, q);
    assert after == before + (Steps(was, p) + Steps(p, q));
  }

  lemma AnswersAgain(
    was: PullRequest, input: Input, net: Network, p: PullRequest, r: Result<Mutation, ErrorKind>, q: PullRequest,
    between: seq<Change>, after: seq<Change>)
    requires Moved(was, input, p) && Changing(input) && (AutoMergeOnDraft(was, input) ==> !p.autoMergeEnabled)
    requires was.state.Open? && was.headSha == input.expectedHeadSha && Version(was) == input.expectedVersion
    requires SentAlone(p, input, net, r, q, between, after)
    ensures r.Ok? ==> r.value.pullRequest == q == Requested(was, input)
    ensures p == Requested(was, input) ==> q == p
    ensures Answered(net) ==> (r.Ok? <==> !AutoMergeOnDraft(was, input))
    ensures AutoMergeOnDraft(was, input) ==> r.Err? && !q.autoMergeEnabled
  {
    OnTheWay(was, input, p);
  }

  lemma {:induction false} AllRightful(prs: seq<PullRequest>, input: Input, nets: seq<Network>)
    requires |nets| < |prs|
    ensures forall c | c in AllChanged(prs, input, nets) :: Rightful(c, input)
    decreases |nets|
  {
    if nets != [] {
      var n := |nets| - 1;
      AllRightful(prs, input, nets[..n]);
      ChangesRightful(prs[n], input, nets[n]);
    }
  }

  /** What a series of calls changed. */
  function AllChanged(prs: seq<PullRequest>, input: Input, nets: seq<Network>): seq<Change>
    requires |nets| < |prs|
    decreases |nets|
  {
    if nets == [] then []
    else
      var n := |nets| - 1;
      AllChanged(prs, input, nets[..n]) + Changed(prs[n], input, nets[n])
  }

  lemma {:induction false} AllChangedGrows(prs: seq<PullRequest>, p: PullRequest, input: Input, nets: seq<Network>)
    requires |nets| < |prs|
    ensures AllChanged(prs + [p], input, nets) == AllChanged(prs, input, nets)
    decreases |nets|
  {
    if nets != [] { AllChangedGrows(prs, p, input, nets[..|nets| - 1]); }
  }

  lemma AllChangedNext(prs: seq<PullRequest>, p: PullRequest, input: Input, nets: seq<Network>, i: nat)
    requires i < |nets| && |prs| == i + 1
    ensures AllChanged(prs + [p], input, nets[..i + 1])
      == AllChanged(prs, input, nets[..i]) + Changed(prs[i], input, nets[i])
  {
    assert nets[..i + 1][..i] == nets[..i];
    AllChangedGrows(prs, p, input, nets[..i]);
  }

  /** Only the snapshot itself has its version. */
  lemma OnlySeen(p: PullRequest)
    ensures forall seen | Version(seen) == Version(p) :: seen == p
  {
    forall seen | Version(seen) == Version(p) ensures seen == p { VersionsDecide(seen, p); }
  }

  const READY := PullRequest([1], [2], 1, [3], Open, false, [4], [5], [6], [7], false, None)

  /**
  A pull request ready for review, to be made a draft and to be merged automatically: however often the call is
  answered, it fails, and the pull request has been made a draft.
  */
  method DraftIsNeverMerged(nets: seq<Network>) returns (server: Server, results: seq<Result<Mutation, ErrorKind>>)
    requires nets != [] && forall k | 0 <= k < |nets| :: Alone(nets[k]) && Answered(nets[k])
    ensures |results| == |nets| && forall k | 0 <= k < |nets| :: results[k] == Err(Conflict)
    ensures server.pr == READY.(draft := true)
  {
    var input := Input([7], Version(READY), Some(true), Some(true));
    server := new Server(READY);
    results := [];
    for i := 0 to |nets|
      invariant |results| == i && forall k | 0 <= k < i :: results[k] == Err(Conflict)
      invariant server.pr == if i == 0 then READY else READY.(draft := true)
    {
      var r := server.UpdateAlone(input, nets[i]);
      results := results + [r];
    }
  }
}
