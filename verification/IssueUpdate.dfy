/**
Updating an issue by compare-then-write, and what creating and updating together keep:
at most one issue per linkage digest. The digest behind an observed version is taken to
be injective, so a version is what is observed.
*/
module IssueUpdate {
  import opened Prelude
  import opened Texts
  import opened ForgeServer
  import opened CreateOrAdopt
  import opened IssueForge
  import BodyMarker

  datatype Patch = Patch(
    title: Option<string>, body: Option<string>, state: Option<IssueState>, labels: Option<seq<Text>>)

  /** What a reader of the issue gets, and its version is made of. */
  datatype Observed = Observed(
    title: string, body: string, linkage: Option<BodyMarker.Digest>, state: IssueState, labels: seq<Text>)

  function View(item: Item): Observed {
    var b := BodyMarker.BodyAndLinkage(item.body);
    Observed(item.title, b.body, b.linkage, item.state, SortTexts(Dedupe(item.labels)))
  }

  /** The body that is sent: a linked issue keeps its marker, any other gets the text as it is. */
  function SentBody(linkage: Option<BodyMarker.Digest>, body: string): string {
    if linkage.Some? then BodyMarker.MarkerBody(BodyMarker.Issue, body, linkage.value) else body
  }

  /** The issue after the write request. */
  function Patched(item: Item, patch: Patch): Item {
    Item(
      if patch.title.Some? then patch.title.value else item.title,
      if patch.body.Some? then SentBody(BodyMarker.BodyAndLinkage(item.body).linkage, patch.body.value) else item.body,
      if patch.state.Some? then patch.state.value else item.state,
      if patch.labels.Some? then patch.labels.value else item.labels,
      item.pullRequest)
  }

  /** The issue is as the patch wants it. */
  predicate Desired(o: Observed, patch: Patch) {
    && (patch.title.Some? ==> o.title == patch.title.value)
    && (patch.body.Some? ==> o.body == BodyMarker.TrimEnd(patch.body.value))
    && (patch.state.Some? ==> o.state == patch.state.value)
    && (patch.labels.Some? ==> SortTexts(o.labels) == SortTexts(patch.labels.value))
  }

  /** No text that itself ends in a marker, and no repeated label. */
  ghost predicate Plain(patch: Patch) {
    && (patch.body.Some? ==> !BodyMarker.HasTrailingMarker(patch.body.value))
    && (patch.labels.Some? ==> NoRepeats(patch.labels.value))
  }

  // ------------------------------------------------------------------- one update

  lemma SentBodyReads(linkage: Option<BodyMarker.Digest>, body: string)
    ensures var r := BodyMarker.BodyAndLinkage(SentBody(linkage, body));
      && r.body == BodyMarker.BodyAndLinkage(body).body
      && r.linkage == if linkage.Some? then linkage else BodyMarker.BodyAndLinkage(body).linkage
  {
    if linkage.Some? { BodyMarker.RoundTrip(BodyMarker.Issue, body, linkage.value); }
  }

  /** An update keeps the linkage, except that a text ending in a marker links an issue that was not linked. */
  lemma LinkageKeptExactly(item: Item, patch: Patch)
    ensures View(Patched(item, patch)).linkage == View(item).linkage <==>
      (View(item).linkage.Some? || patch.body.None? || !BodyMarker.HasTrailingMarker(patch.body.value))
  {
    if patch.body.Some? {
      SentBodyReads(View(item).linkage, patch.body.value);
      BodyMarker.CleanExactly(patch.body.value);
    }
  }

  /** An applied update is seen as done exactly for plain patches. */
  lemma DesiredExactly(item: Item, patch: Patch)
    ensures Desired(View(Patched(item, patch)), patch) <==> Plain(patch)
  {
    if patch.body.Some? {
      SentBodyReads(View(item).linkage, patch.body.value);
      BodyMarker.CleanExactly(patch.body.value);
    }
    if patch.labels.Some? { LabelsEqualExactly(patch.labels.value); }
  }

  /** Something that the patch asks for is not so. */
  ghost predicate Differs(item: Item, patch: Patch) {
    || (patch.title.Some? && item.title != patch.title.value)
    || (patch.body.Some? && BodyMarker.BodyAndLinkage(item.body).body != BodyMarker.TrimEnd(patch.body.value))
    || (patch.state.Some? && item.state != patch.state.value)
    || (patch.labels.Some? &&
          !(NoRepeats(patch.labels.value) && forall t :: t in item.labels <==> t in patch.labels.value))
  }

  lemma DesiredMeans(item: Item, patch: Patch)
    ensures Desired(View(item), patch) <==> !Differs(item, patch)
  {
    if patch.labels.Some? { SameLabelsExactly(item.labels, patch.labels.value); }
  }

  /** `item` shows what the patch asks for, and is otherwise as it was; a linked issue stays linked. */
  ghost predicate Shows(item: Item, was: Item, patch: Patch) {
    && item.title == (if patch.title.Some? then patch.title.value else was.title)
    && item.state == (if patch.state.Some? then patch.state.value else was.state)
    && item.labels == (if patch.labels.Some? then patch.labels.value else was.labels)
    && item.pullRequest == was.pullRequest
    && if patch.body.None? then item.body == was.body
       else
         var old_, new_, asked :=
           BodyMarker.BodyAndLinkage(was.body), BodyMarker.BodyAndLinkage(item.body),
           BodyMarker.BodyAndLinkage(patch.body.value);
         new_.body == asked.body && new_.linkage == if old_.linkage.Some? then old_.linkage else asked.linkage
  }

  lemma PatchShows(item: Item, patch: Patch)
    ensures Shows(Patched(item, patch), item, patch)
  {
    if patch.body.Some? { SentBodyReads(BodyMarker.BodyAndLinkage(item.body).linkage, patch.body.value); }
  }

  lemma PatchTwice(item: Item, patch: Patch)
    requires View(Patched(item, patch)).linkage == View(item).linkage
    ensures Patched(Patched(item, patch), patch) == Patched(item, patch)
  {
  }

  datatype UpdateNetwork = UpdateNetwork(first: ReadFate, write: WriteFate, last: ReadFate)

  predicate Answered(net: UpdateNetwork) {
    net.first.Reply? && net.write == Applied(Reply) && net.last.Reply?
  }

  datatype UpdateResult = Unchanged | Updated

  /** What one update may do to the issue. */
  ghost predicate Step(before: Item, patch: Patch, after: Item) {
    after == before || after == Patched(before, patch)
  }

  method UpdateIssue(server: Server<Item>, n: nat, patch: Patch, expected: Observed, net: UpdateNetwork)
    returns (r: Result<UpdateResult, ErrorKind>)
    requires n < |server.items|
    modifies server
    ensures |server.items| == |old(server.items)|
    ensures forall i | 0 <= i < |server.items| && i != n :: server.items[i] == old(server.items)[i]
    ensures Step(old(server.items)[n], patch, server.items[n])
    ensures r.Ok? ==> Desired(View(server.items[n]), patch)
    ensures r == Ok(Unchanged) ==> server.items[n] == old(server.items)[n]
    ensures
      || View(old(server.items)[n]) != expected || Desired(View(old(server.items)[n]), patch)
      || old(server.items)[n].pullRequest ==>
      server.items[n] == old(server.items)[n]
    ensures var was := old(server.items)[n];
      Answered(net) ==>
        r == if was.pullRequest then Err(StaleRef) else if Desired(View(was), patch) then Ok(Unchanged)
             else if View(was) == expected && Plain(patch) then Ok(Updated) else Err(Conflict)
    // the issue is written exactly if it is what the caller saw and something that is asked for differs
    ensures var was := old(server.items)[n];
      && (server.items[n] != was ==> Differs(was, patch) && View(was) == expected && !was.pullRequest)
      && (Differs(was, patch) && View(was) == expected && !was.pullRequest && net.first.Reply? && net.write.Applied? ==>
            Shows(server.items[n], was, patch))
      && (net.first.Reply? && !was.pullRequest ==> (r == Ok(Unchanged) <==> !Differs(was, patch)))
  {
    if net.first.Fails? { return Err(net.first.kind); }
    var current := server.items[n];
    DesiredMeans(current, patch);
    PatchShows(current, patch);
    DesiredExactly(current, patch);
    if current.pullRequest { return Err(StaleRef); }
    if Desired(View(current), patch) { return Ok(Unchanged); }
    if View(current) != expected { return Err(Conflict); }
    if net.write.NotApplied? { return Err(net.write.kind); }
    server.items := server.items[n := Patched(current, patch)];
    if net.write.reply.Fails? { return Err(net.write.reply.kind); }
    if net.last.Fails? { return Err(net.last.kind); }
    if !Desired(View(server.items[n]), patch) { return Err(Conflict); }
    return Ok(Updated);
  }

  /**
  Any number of updates with the version seen before the first: the issue is the original or the patched one, and an
  answered call succeeds exactly if the patch is plain or there was nothing to do.
  */
  method RetryUpdate(server: Server<Item>, n: nat, patch: Patch, nets: seq<UpdateNetwork>)
    returns (results: seq<Result<UpdateResult, ErrorKind>>)
    requires n < |server.items| && !server.items[n].pullRequest
    modifies server
    ensures |results| == |nets| && |server.items| == |old(server.items)|
    ensures forall i | 0 <= i < |server.items| && i != n :: server.items[i] == old(server.items)[i]
    ensures Step(old(server.items)[n], patch, server.items[n])
    ensures forall k | 0 <= k < |nets| && Answered(nets[k]) :: results[k].Ok? <==>
      Plain(patch) || Desired(View(old(server.items)[n]), patch)
    ensures (exists k :: 0 <= k < |nets| && results[k].Ok?) ==> Desired(View(server.items[n]), patch)
  {
    ghost var was := server.items[n];
    ghost var progress := (item: Item) => Progress(was, patch, item);
    ghost var done := (item: Item) => Done(item, patch);
    ghost var possible := Plain(patch) || Done(was, patch);
    results := UpdateEach(server, n, patch, View(server.items[n]), nets, was, progress, done, possible);
    assert progress(server.items[n]) && (done(server.items[n]) <==> Done(server.items[n], patch));
  }

  /** The two predicates and the flag stand for what they are called after. */
  ghost predicate Stand(was: Item, patch: Patch, progress: Item -> bool, done: Item -> bool, possible: bool) {
    && (forall item {:trigger Progress(was, patch, item)} :: progress(item) <==> Progress(was, patch, item))
    && (forall item {:trigger Done(item, patch)} :: done(item) <==> Done(item, patch))
    && (possible <==> Plain(patch) || Done(was, patch))
  }

  method UpdateEach(
    server: Server<Item>, n: nat, patch: Patch, expected: Observed, nets: seq<UpdateNetwork>,
    ghost was: Item, ghost progress: Item -> bool, ghost done: Item -> bool, ghost possible: bool)
    returns (results: seq<Result<UpdateResult, ErrorKind>>)
    requires n < |server.items| && expected == View(was) && progress(server.items[n])
    requires Stand(was, patch, progress, done, possible)
    modifies server
    ensures |results| == |nets| && |server.items| == |old(server.items)| && progress(server.items[n])
    ensures forall i | 0 <= i < |server.items| && i != n :: server.items[i] == old(server.items)[i]
    ensures forall k | 0 <= k < |nets| && Answered(nets[k]) :: results[k].Ok? <==> possible
    ensures (exists k :: 0 <= k < |nets| && results[k].Ok?) ==> done(server.items[n])
  {
    results := [];
    for i := 0 to |nets|
      invariant |results| == i && |server.items| == |old(server.items)| && progress(server.items[n])
      invariant forall j | 0 <= j < |server.items| && j != n :: server.items[j] == old(server.items)[j]
      invariant forall k | 0 <= k < i && Answered(nets[k]) :: results[k].Ok? <==> possible
      invariant (exists k :: 0 <= k < i && results[k].Ok?) ==> done(server.items[n])
    {
      var r := UpdateAgain(server, n, patch, expected, nets[i], was, progress, done, possible);
      results := results + [r];
    }
  }

  ghost predicate Done(item: Item, patch: Patch) { Desired(View(item), patch) }

  /** The original or the patched issue, and the original if there was nothing to do. */
  ghost predicate Progress(was: Item, patch: Patch, item: Item) {
    !item.pullRequest && Step(was, patch, item) && (Done(was, patch) ==> item == was)
  }

  method UpdateAgain(
    server: Server<Item>, n: nat, patch: Patch, expected: Observed, net: UpdateNetwork,
    ghost was: Item, ghost progress: Item -> bool, ghost done: Item -> bool, ghost possible: bool)
    returns (r: Result<UpdateResult, ErrorKind>)
    requires n < |server.items| && expected == View(was) && progress(server.items[n])
    requires Stand(was, patch, progress, done, possible)
    modifies server
    ensures |server.items| == |old(server.items)|
    ensures forall i | 0 <= i < |server.items| && i != n :: server.items[i] == old(server.items)[i]
    ensures progress(server.items[n])
    ensures Answered(net) ==> (r.Ok? <==> possible)
    ensures r.Ok? || done(old(server.items)[n]) ==> done(server.items[n])
  {
    assert Progress(was, patch, server.items[n]) && (Done(server.items[n], patch) <==> done(server.items[n]));
    DesiredExactly(was, patch);
    if View(Patched(was, patch)) == expected { PatchTwice(was, patch); }
    r := UpdateIssue(server, n, patch, expected, net);
    assert Progress(was, patch, server.items[n]) && (Done(server.items[n], patch) <==> done(server.items[n]));
  }

  // ----------------------------------------------------------------- all histories

  /** No two issues carry the same digest. */
  ghost predicate Distinct(items: seq<Item>) {
    forall i, j | 0 <= i < j < |items| && Linkage(items[i]).Some? :: Linkage(items[i]) != Linkage(items[j])
  }

  /** Others may open and edit issues, but not write a marker. */
  ghost predicate Outside(before: seq<Item>, after: seq<Item>) {
    |before| <= |after| && forall i | 0 <= i < |after| ::
      Linkage(after[i]).None? || (i < |before| && Linkage(after[i]) == Linkage(before[i]))
  }

  ghost predicate History(lists: seq<seq<Item>>) {
    lists != [] && Distinct(lists[0])
    && forall i | 0 < i < |lists| :: Change(lists[i - 1], lists[i])
  }

  /** An update that does not link an issue by a marker in the caller's own text. */
  ghost predicate Update(before: seq<Item>, n: nat, patch: Patch, after: seq<Item>) {
    && n < |before| == |after| && Step(before[n], patch, after[n])
    && (forall i | 0 <= i < |before| && i != n :: after[i] == before[i])
    && (|| Linkage(before[n]).Some? || before[n].pullRequest
        || patch.body.None? || !BodyMarker.HasTrailingMarker(patch.body.value))
  }

  ghost predicate Change(before: seq<Item>, after: seq<Item>) {
    || Outside(before, after) || (exists input :: Attempt(before, input, after))
    || exists n: nat, patch :: Update(before, n, patch, after)
  }

  /** Such an update writes no marker that was not there. */
  lemma UpdateIsOutside(before: seq<Item>, n: nat, patch: Patch, after: seq<Item>)
    requires Update(before, n, patch, after)
    ensures Outside(before, after)
  {
    LinkageKeptExactly(before[n], patch);
    forall i | 0 <= i < |after| ensures Linkage(after[i]) == Linkage(before[i]) {
    }
  }

  lemma AttemptDistinct(before: seq<Item>, input: Input, after: seq<Item>)
    requires Distinct(before) && Attempt(before, input, after)
    ensures Distinct(after)
  {
    if after != before {
      MatchesExactly(input);
      assert forall i | 0 <= i < |before| :: !Carries(input.linkage)(before[i]);
    }
  }

  lemma OutsideDistinct(before: seq<Item>, after: seq<Item>)
    requires Distinct(before) && Outside(before, after)
    ensures Distinct(after)
  {
    forall i, j | 0 <= i < j < |after| && Linkage(after[i]).Some? ensures Linkage(after[i]) != Linkage(after[j]) {
      if Linkage(after[j]).Some? {
        assert Linkage(after[i]) == Linkage(before[i]) && Linkage(after[j]) == Linkage(before[j]);
      }
    }
  }

  lemma ChangeDistinct(before: seq<Item>, after: seq<Item>)
    requires Distinct(before) && Change(before, after)
    ensures Distinct(after)
  {
    if Outside(before, after) {
      OutsideDistinct(before, after);
    } else if input :| Attempt(before, input, after) {
      AttemptDistinct(before, input, after);
    } else {
      var n: nat, patch :| Update(before, n, patch, after);
      UpdateIsOutside(before, n, patch, after);
      OutsideDistinct(before, after);
    }
  }

  lemma HistoryStep(lists: seq<seq<Item>>, n: nat)
    requires History(lists) && 0 < n < |lists|
    requires forall k | 0 <= k < n :: Distinct(lists[k])
    ensures forall k | 0 <= k <= n :: Distinct(lists[k])
  {
    ChangeDistinct(lists[n - 1], lists[n]);
  }

  /** At every moment of a history at most one issue carries any one digest. */
  lemma AtMostOneIssue(lists: seq<seq<Item>>)
    requires History(lists)
    ensures forall k | 0 <= k < |lists| :: Distinct(lists[k])
  {
    for n := 1 to |lists|
      invariant forall k | 0 <= k < n :: Distinct(lists[k])
    {
      HistoryStep(lists, n);
    }
  }

  /** No two of the entries that are there are the same. */
  ghost predicate DistinctSome<T>(s: seq<Option<T>>) {
    forall i, j | 0 <= i < j < |s| && s[i].Some? :: s[i] != s[j]
  }

  lemma ReplaceDistinct<T>(s: seq<Option<T>>, n: nat, x: Option<T>)
    requires n < |s| && DistinctSome(s)
    ensures !DistinctSome(s[n := x]) <==> x.Some? && exists i :: 0 <= i < |s| && i != n && s[i] == x
  {
    var t := s[n := x];
    if x.Some? {
      if i :| 0 <= i < |s| && i != n && s[i] == x {
        assert t[i] == t[n];
        assert if i < n then t[i].Some? && t[i] == t[n] else t[n].Some? && t[n] == t[i];
      }
    }
  }

  function Links(items: seq<Item>): seq<Option<BodyMarker.Digest>> {
    seq(|items|, i requires 0 <= i < |items| => Linkage(items[i]))
  }

  lemma DistinctLinks(items: seq<Item>)
    ensures Distinct(items) <==> DistinctSome(Links(items))
  {
    var links := Links(items);
    assert forall i | 0 <= i < |items| :: links[i] == Linkage(items[i]);
    if Distinct(items) {
      forall i, j | 0 <= i < j < |links| && links[i].Some? ensures links[i] != links[j] {
        assert Linkage(items[i]) != Linkage(items[j]);
      }
    }
    if DistinctSome(links) {
      forall i, j | 0 <= i < j < |items| && Linkage(items[i]).Some? ensures Linkage(items[i]) != Linkage(items[j]) {
        assert links[i] != links[j];
      }
    }
  }

  /** The text of the patch links the issue, which was not linked, to `d`. */
  ghost predicate Forges(item: Item, patch: Patch, d: BodyMarker.Digest) {
    && !item.pullRequest && Linkage(item).None? && patch.body.Some?
    && BodyMarker.BodyAndLinkage(patch.body.value).linkage == Some(d)
  }

  lemma PatchedLinkage(item: Item, patch: Patch)
    ensures Linkage(Patched(item, patch)) == Linkage(item) || exists d :: Forges(item, patch, d)
    ensures forall d | Forges(item, patch, d) :: Linkage(Patched(item, patch)) == Some(d)
  {
    if patch.body.Some? {
      SentBodyReads(BodyMarker.BodyAndLinkage(item.body).linkage, patch.body.value);
      var l := BodyMarker.BodyAndLinkage(patch.body.value).linkage;
      if !item.pullRequest && Linkage(item).None? && l.Some? { assert Forges(item, patch, l.value); }
    }
  }

  /** An applied update makes a second carrier of a digest exactly when it forges the digest of another issue. */
  lemma SecondCarrierExactly(items: seq<Item>, n: nat, patch: Patch)
    requires n < |items| && Distinct(items)
    ensures !Distinct(items[n := Patched(items[n], patch)]) <==>
      exists d, i :: Forges(items[n], patch, d) && 0 <= i < |items| && i != n && Linkage(items[i]) == Some(d)
  {
    var after, x := items[n := Patched(items[n], patch)], Linkage(Patched(items[n], patch));
    var links := Links(items);
    DistinctLinks(items);
    DistinctLinks(after);
    PatchedLinkage(items[n], patch);
    assert Links(after) == links[n := x];
    ReplaceDistinct(links, n, x);
    CarriersAre(items, n, patch, links, x);
  }

  lemma NoOtherCarrier(items: seq<Item>, i: nat, n: nat)
    requires Distinct(items) && i < |items| && n < |items| && i != n && Linkage(items[i]).Some?
    ensures Linkage(items[n]) != Linkage(items[i])
  {
  }

  lemma CarriersAre(
      items: seq<Item>, n: nat, patch: Patch, links: seq<Option<BodyMarker.Digest>>, x: Option<BodyMarker.Digest>)
    requires n < |items| && Distinct(items) && links == Links(items) && x == Linkage(Patched(items[n], patch))
    ensures (x.Some? && exists i :: 0 <= i < |links| && i != n && links[i] == x) <==>
      exists d, i :: Forges(items[n], patch, d) && 0 <= i < |items| && i != n && Linkage(items[i]) == Some(d)
  {
    PatchedLinkage(items[n], patch);
    assert forall i | 0 <= i < |items| :: links[i] == Linkage(items[i]);
    if x.Some? {
      if i :| 0 <= i < |links| && i != n && links[i] == x {
        assert Linkage(items[i]) == x;
        NoOtherCarrier(items, i, n);
        assert Forges(items[n], patch, x.value);
      }
    }
  }

  /** An update whose text ends in a marker makes a second carrier out of an issue that was not linked. */
  lemma UpdateCanForge(d: BodyMarker.Digest)
    ensures var linked, free := Posted(Input("", "", [], d)), Item("", "", Open, [], false);
      var patch := Patch(None, Some("\n\n" + BodyMarker.Marker(BodyMarker.Issue, d)), None, None);
      Distinct([linked, free]) && !Distinct([linked, Patched(free, patch)])
  {
    var input := Input("", "", [], d);
    var linked, free := Posted(input), Item("", "", Open, [], false);
    var body := "\n\n" + BodyMarker.Marker(BodyMarker.Issue, d);
    var patch := Patch(None, Some(body), None, None);
    MatchesExactly(input);
    BodyMarker.CleanExactly("");
    BodyMarker.ReadBack(BodyMarker.Issue, "", d);
    assert "" + "\n\n" + BodyMarker.Marker(BodyMarker.Issue, d) == body;
    assert Linkage(free).None?;
    var after := [linked, Patched(free, patch)];
    assert Linkage(after[0]) == Linkage(after[1]) == Some(d);
  }
}
