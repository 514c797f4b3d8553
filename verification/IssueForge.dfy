/**
Create-or-adopt of forge issues against a server whose requests and replies can be
lost. The marker in the issue body carries the linkage digest, so that a retry finds
what an earlier, apparently failed, call created.
*/
module IssueForge {
  import opened Prelude
  import opened Texts
  import BodyMarker
  import opened ForgeServer
  import opened CreateOrAdopt

  /** An entry of the issue list; the server lists pull requests there too. */
  datatype Item = Item(title: string, body: string, state: IssueState, labels: seq<Text>, pullRequest: bool)

  datatype IssueState = Open | Closed

  datatype Input = Input(title: string, body: string, labels: seq<Text>, linkage: BodyMarker.Digest)

  /** The linkage digest of an entry that is an issue. */
  function Linkage(item: Item): Option<BodyMarker.Digest> {
    if item.pullRequest then None else BodyMarker.BodyAndLinkage(item.body).linkage
  }

  /** The issue a create request asks for. */
  function Posted(input: Input): Item {
    Item(input.title, BodyMarker.MarkerBody(BodyMarker.Issue, input.body, input.linkage), Open, input.labels, false)
  }

  // -------------------------------------------------------------------- labels

  /** The labels in order of first occurrence. */
  function Dedupe(labels: seq<Text>): (r: seq<Text>)
    ensures |r| <= |labels|
  {
    if labels == [] then []
    else
      var n := |labels| - 1;
      var r := Dedupe(labels[..n]);
      if labels[n] in labels[..n] then r else r + [labels[n]]
  }

  /** The observed labels are deduplicated and sorted; the requested ones are only sorted. */
  predicate EqualLabels(stored: seq<Text>, requested: seq<Text>) {
    SortTexts(SortTexts(Dedupe(stored))) == SortTexts(requested)
  }

  predicate Matches(item: Item, input: Input) {
    && Linkage(item) == Some(input.linkage)
    && item.title == input.title
    && BodyMarker.BodyAndLinkage(item.body).body == BodyMarker.TrimEnd(input.body)
    && EqualLabels(item.labels, input.labels)
  }

  lemma {:induction false} DedupeShrinks(labels: seq<Text>)
    ensures |Dedupe(labels)| == |labels| <==> NoRepeats(labels)
    ensures NoRepeats(labels) ==> Dedupe(labels) == labels
  {
    if labels != [] {
      var n := |labels| - 1;
      var front := labels[..n];
      DedupeShrinks(front);
      assert labels == front + [labels[n]];
      if labels[n] in front {
        var i :| 0 <= i < n && front[i] == labels[n];
        assert labels[i] == labels[n];
      } else {
        assert forall i | 0 <= i < n :: front[i] == labels[i] && front[i] in front;
      }
    }
  }

  lemma {:induction false} DedupeKeeps(labels: seq<Text>)
    ensures NoRepeats(Dedupe(labels)) && forall t :: t in Dedupe(labels) <==> t in labels
  {
    if labels != [] {
      var n := |labels| - 1;
      DedupeKeeps(labels[..n]);
      assert labels == labels[..n] + [labels[n]];
    }
  }

  /** The observed labels pass as the requested ones exactly if they are the same set and none was requested twice. */
  lemma SameLabelsExactly(stored: seq<Text>, requested: seq<Text>)
    ensures EqualLabels(stored, requested) <==>
      NoRepeats(requested) && forall t :: t in stored <==> t in requested
  {
    var once := Dedupe(stored);
    DedupeKeeps(stored);
    SortTextsTwice(once);
    if NoRepeats(requested) && forall t :: t in stored <==> t in requested {
      SortTextsUnique(once, requested);
    }
    if EqualLabels(stored, requested) {
      forall t ensures t in stored <==> t in requested {
        SortTextsHas(once, t);
        SortTextsHas(requested, t);
      }
      DedupeKeeps(requested);
      SortTextsUnique(once, Dedupe(requested));
      SortTextsLength(once);
      SortTextsLength(requested);
      SortTextsLength(Dedupe(requested));
      DedupeShrinks(requested);
    }
  }

  lemma LabelsEqualExactly(labels: seq<Text>)
    ensures EqualLabels(labels, labels) <==> NoRepeats(labels)
  {
    DedupeShrinks(labels);
    SortTextsLength(Dedupe(labels));
    SortTextsLength(SortTexts(Dedupe(labels)));
    SortTextsLength(labels);
    SortTextsTwice(labels);
  }

  /** A freshly created issue passes the comparison of its own request exactly for these inputs. */
  lemma MatchesExactly(input: Input)
    ensures Linkage(Posted(input)) == Some(input.linkage)
    ensures Matches(Posted(input), input) <==> !BodyMarker.HasTrailingMarker(input.body) && NoRepeats(input.labels)
  {
    BodyMarker.RoundTrip(BodyMarker.Issue, input.body, input.linkage);
    BodyMarker.CleanExactly(input.body);
    LabelsEqualExactly(input.labels);
  }

  /** A linked issue passes the comparison exactly if title, cleaned body and set of labels are the requested ones. */
  lemma MatchesMeans(item: Item, input: Input)
    requires Linkage(item) == Some(input.linkage)
    ensures Matches(item, input) <==>
      && item.title == input.title
      && BodyMarker.BodyAndLinkage(item.body).body == BodyMarker.TrimEnd(input.body)
      && NoRepeats(input.labels) && (forall t :: t in item.labels <==> t in input.labels)
  {
    SameLabelsExactly(item.labels, input.labels);
  }

  // ------------------------------------------------------------------ one call

  function Carries(d: string): Item -> bool { item => Linkage(item) == Some(d) }

  function Fits(input: Input): Item -> bool { item => Matches(item, input) }

  /** What one call may do to the server. */
  ghost predicate Attempt(before: seq<Item>, input: Input, after: seq<Item>) {
    Added(before, Posted(input), Carries(input.linkage), after)
  }

  // ------------------------------------------------------------------ the backend

  method CreateOrAdoptIssue(server: Server<Item>, input: Input, net: Network) returns (r: Result<Mutation, ErrorKind>)
    modifies server
    ensures Attempt(old(server.items), input, server.items)
    ensures r.Ok? ==> Only(server.items, Carries(input.linkage), r.value.number)
    ensures AllReply(net.list) && |old(server.items)| <= LIMIT ==>
      forall n: nat | Only(old(server.items), Carries(input.linkage), n) ::
        server.items == old(server.items) && r == Adoption(server.items[n], Fits(input), n)
    // pull requests are listed too, and are never taken for issues
    ensures r.Ok? ==> !server.items[r.value.number].pullRequest
    ensures AllReply(net.list) && |old(server.items)| < 10_000 && net.post.Applied? ==>
      (forall i | 0 <= i < |old(server.items)| ::
         var item := old(server.items)[i];
         item.pullRequest || BodyMarker.BodyAndLinkage(item.body).linkage != Some(input.linkage)) ==>
      |server.items| == |old(server.items)| + 1
    // an issue that is there is adopted if it is what was asked for, and is a conflict otherwise
    ensures AllReply(net.list) && |old(server.items)| <= LIMIT ==>
      forall n: nat | Only(old(server.items), Carries(input.linkage), n) ::
        var item := old(server.items)[n];
        r == if && item.title == input.title
                && BodyMarker.BodyAndLinkage(item.body).body == BodyMarker.TrimEnd(input.body)
                && NoRepeats(input.labels) && (forall t :: t in item.labels <==> t in input.labels)
             then Ok(Mutation(Adopted, n)) else Err(Conflict)
    // an issue that is added is the one asked for
    ensures |server.items| > |old(server.items)| ==>
      var item := server.items[|old(server.items)|];
      && item.title == input.title && item.labels == input.labels && item.state.Open? && !item.pullRequest
      && BodyMarker.BodyAndLinkage(item.body)
         == BodyMarker.Parsed(BodyMarker.BodyAndLinkage(input.body).body, Some(input.linkage))
    ensures
      && AllReply(net.list) && |old(server.items)| < LIMIT
      && Without(old(server.items), Carries(input.linkage)) && AllReply(net.again) ==>
      r == Creation(Posted(input), Fits(input), |old(server.items)|, net)
  {
    MatchesExactly(input);
    BodyMarker.RoundTrip(BodyMarker.Issue, input.body, input.linkage);
    forall item | Linkage(item) == Some(input.linkage)
      ensures Fits(input)(item) <==>
        && item.title == input.title
        && BodyMarker.BodyAndLinkage(item.body).body == BodyMarker.TrimEnd(input.body)
        && NoRepeats(input.labels) && (forall t :: t in item.labels <==> t in input.labels)
    {
      MatchesMeans(item, input);
    }
    r := server.CreateOrAdopt(Posted(input), Carries(input.linkage), Fits(input), net);
  }

  /**
  Any number of retries of one request. After a call whose create was applied, every call whose lookup is
  answered returns that issue, exactly when the body has no trailing marker and no label is repeated; it is a
  conflict otherwise.
  */
  method RetryIssue(server: Server<Item>, input: Input, nets: seq<Network>)
    returns (results: seq<Result<Mutation, ErrorKind>>)
    requires Without(server.items, Carries(input.linkage))
    modifies server
    ensures |results| == |nets|
    ensures server.items == old(server.items) || server.items == old(server.items) + [Posted(input)]
    ensures forall k | 0 <= k < |results| && results[k].Ok? ::
      results[k].value.number == |old(server.items)| < |server.items|
    ensures |old(server.items)| < LIMIT ==>
      forall k, l | 0 <= k < l < |nets| && AllReply(nets[k].list) && nets[k].post.Applied? && AllReply(nets[l].list) ::
        results[l] == if !BodyMarker.HasTrailingMarker(input.body) && NoRepeats(input.labels)
                      then Ok(Mutation(Adopted, |old(server.items)|)) else Err(Conflict)
  {
    MatchesExactly(input);
    results := server.Retry(Posted(input), Carries(input.linkage), Fits(input), nets);
    AdoptionExactly(input, |old(server.items)|);
  }

  lemma AdoptionExactly(input: Input, n: nat)
    ensures Adoption(Posted(input), Fits(input), n)
         == if !BodyMarker.HasTrailingMarker(input.body) && NoRepeats(input.labels)
            then Ok(Mutation(Adopted, n)) else Err(Conflict)
  {
    MatchesExactly(input);
  }

  /** A body that ends in a marker is created without it, so its own retry is refused. */
  lemma MarkedBodyConflicts(title: string, d: BodyMarker.Digest, e: BodyMarker.Digest, n: nat)
    ensures var input := Input(title, BodyMarker.Marker(BodyMarker.Issue, e), [], d);
      Adoption(Posted(input), Fits(input), n) == Err(Conflict)
  {
    var input := Input(title, BodyMarker.Marker(BodyMarker.Issue, e), [], d);
    assert input.body == "" + BodyMarker.Marker(BodyMarker.Issue, e) + "" && BodyMarker.AllSpace("");
    AdoptionExactly(input, n);
  }

  /** A label given twice is stored twice and observed once, so the retry is refused. */
  lemma RepeatedLabelConflicts(title: string, body: string, tag: Text, d: BodyMarker.Digest, n: nat)
    ensures var input := Input(title, body, [tag, tag], d);
      Adoption(Posted(input), Fits(input), n) == Err(Conflict)
  {
    var input := Input(title, body, [tag, tag], d);
    assert input.labels[0] == input.labels[1];
    AdoptionExactly(input, n);
  }
}
