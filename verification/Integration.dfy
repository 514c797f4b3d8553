/**
One integration attempt: a worker that merges a source into a target ref by
compare-and-swap, while cancel, the deadline and other writers of the ref come in
between any two of its asynchronous calls. Every method is what happens between two
such points, so that a sequence of method calls is an interleaving.
*/
module Integration {
  import opened Prelude

  type Sha = string

  datatype Classification =
    | Integrated | AlreadyApplied | StaleSource | StaleTarget | MergeConflict | IrreconcilableExternal

  datatype IntegrationResult =
    IntegrationResult(classification: Classification, targetMoved: bool, resultSha: Option<Sha>)

  /** What the preparation of the merge answers. */
  datatype Preparation = Candidate(sha: Sha) | Applied(sha: Sha) | Conflicting | PreparationThrew

  /** A swap is answered, or throws before or after it took effect; it takes effect only on the expected target. */
  datatype SwapFate = Answered | ThrewBefore | ThrewAfter

  datatype Reply = Moved | Stale | Threw

  /** Where the worker waits. */
  datatype Stage =
    | Prepared | Starting | ReadingSource | ReadingTarget(source: Sha) | Preparing
    | Swapping(candidate: Sha) | Replying(candidate: Sha, reply: Reply) | Finished

  datatype Outcome = Succeeded | Failed | Cancelled

  /** One change of the target ref by this attempt. */
  datatype Write = Write(replaced: Sha, written: Sha)

  predicate Successful(c: Classification) { c.Integrated? || c.AlreadyApplied? }

  /** The SHAs the caller expects at both refs. */
  datatype Refs = Refs(source: Sha, target: Sha)

  /**
  The attempt and the target ref at one moment, with what this attempt wrote there and what its
  preparation answered.
  */
  datatype Snapshot = Snapshot(
    stage: Stage, cancelled: bool, timedOut: bool, result: Option<IntegrationResult>, outcome: Option<Outcome>,
    target: Sha, writes: seq<Write>, prepared: Option<Preparation>)

  datatype Event =
    | Start
    | Begin
    | SourceRead(sha: Option<Sha>)
    | TargetRead(threw: bool)
    | MergePrepared(answer: Preparation)
    | SwapHappens(fate: SwapFate)
    | SwapReturns
    | Cancel
    | Deadline
    | OutsideWrite(written: Sha)
    | Finalize(valid: bool)

  function Stopped(s: Snapshot, c: Classification, sha: Option<Sha>): Snapshot {
    s.(stage := Finished, result := Some(IntegrationResult(c, false, sha)))
  }

  /** One event; a step of the worker is possible only where the worker waits for it. */
  function Next(s: Snapshot, refs: Refs, e: Event): Snapshot {
    match e
    case Start => if s.stage.Prepared? then s.(stage := Starting) else s
    case Begin =>
      if !s.stage.Starting? then s
      else if s.cancelled then Stopped(s, IrreconcilableExternal, None)
      else s.(stage := ReadingSource)
    case SourceRead(sha) =>
      if !s.stage.ReadingSource? then s
      else if sha.None? then Stopped(s, IrreconcilableExternal, None)
      else s.(stage := ReadingTarget(sha.value))
    case TargetRead(threw) => if s.stage.ReadingTarget? then AfterReads(s, refs, threw) else s
    case MergePrepared(answer) => if s.stage.Preparing? then AfterMerge(s.(prepared := Some(answer)), answer) else s
    case SwapHappens(fate) => if s.stage.Swapping? then AfterSwap(s, refs, s.stage.candidate, fate) else s
    case SwapReturns => if s.stage.Replying? then AfterReply(s, s.stage.candidate, s.stage.reply) else s
    case Cancel => s.(cancelled := true)
    case Deadline => if s.result.None? && !s.timedOut then s.(cancelled := true, timedOut := true) else s
    case OutsideWrite(sha) => s.(target := sha)
    case Finalize(valid) =>
      s.(outcome := Some(
        if valid && s.result.Some? && Successful(s.result.value.classification) && !s.cancelled && !s.timedOut
        then Succeeded else if s.cancelled then Cancelled else Failed))
  }

  function AfterReads(s: Snapshot, refs: Refs, threw: bool): Snapshot
    requires s.stage.ReadingTarget?
  {
    if threw then Stopped(s, IrreconcilableExternal, None)
    else if s.stage.source != refs.source then Stopped(s, StaleSource, None)
    else if s.target != refs.target then Stopped(s, StaleTarget, None)
    else if s.cancelled then Stopped(s, IrreconcilableExternal, None)
    else s.(stage := Preparing)
  }

  function AfterMerge(s: Snapshot, answer: Preparation): Snapshot {
    match answer
    case PreparationThrew => s.(stage := Finished)
    case Conflicting => Stopped(s, MergeConflict, None)
    case Applied(sha) => Stopped(s, AlreadyApplied, Some(sha))
    case Candidate(sha) =>
      if s.cancelled then Stopped(s, IrreconcilableExternal, None) else s.(stage := Swapping(sha))
  }

  function AfterSwap(s: Snapshot, refs: Refs, candidate: Sha, fate: SwapFate): Snapshot {
    if fate.ThrewBefore? then s.(stage := Replying(candidate, Threw))
    else if s.target != refs.target then s.(stage := Replying(candidate, if fate.Answered? then Stale else Threw))
    else
      s.(stage := Replying(candidate, if fate.Answered? then Moved else Threw),
         target := candidate, writes := s.writes + [Write(s.target, candidate)])
  }

  function AfterReply(s: Snapshot, candidate: Sha, reply: Reply): Snapshot {
    match reply
    case Threw => s.(stage := Finished)
    case Stale => Stopped(s, StaleTarget, None)
    case Moved => s.(stage := Finished, result := Some(IntegrationResult(Integrated, true, Some(candidate))))
  }

  function Replay(s: Snapshot, refs: Refs, events: seq<Event>): Snapshot {
    if events == [] then s
    else
      var n := |events| - 1;
      Next(Replay(s, refs, events[..n]), refs, events[n])
  }

  /** A prepared attempt that nothing has happened to; the target ref may be anywhere. */
  predicate Fresh(s: Snapshot) {
    s == Snapshot(Prepared, false, false, None, None, s.target, [], None)
  }

  // --------------------------------------------------------- what the events alone tell

  /** The target ref after the writes of others. */
  function Outside(events: seq<Event>, start: Sha): Sha {
    if events == [] then start
    else
      var n := |events| - 1;
      if events[n].OutsideWrite? then events[n].written else Outside(events[..n], start)
  }

  predicate Raises(e: Event) { e.Cancel? || e.Deadline? }

  /** At `m` the worker was waiting for the merge to be prepared. */
  ghost predicate AwaitsMerge(x: Snapshot, refs: Refs, events: seq<Event>, m: nat) {
    m < |events| && events[m].MergePrepared? && Replay(x, refs, events[..m]).stage.Preparing?
  }

  /** The merge the worker waited for answered with candidate `c` at `m`, before any cancel or deadline. */
  ghost predicate Chosen(x: Snapshot, refs: Refs, events: seq<Event>, m: nat, c: Sha) {
    && AwaitsMerge(x, refs, events, m) && events[m].answer == Candidate(c)
    && forall i | 0 <= i < m :: !Raises(events[i])
  }

  /** At `j`, after the merge at `m`, the swap took effect: others had left the target at the expected SHA. */
  ghost predicate Swapped(x: Snapshot, refs: Refs, events: seq<Event>, m: nat, j: nat, c: Sha) {
    && Chosen(x, refs, events, m, c) && m < j < |events| && events[j].SwapHappens? && !events[j].fate.ThrewBefore?
    && Outside(events[..j], x.target) == refs.target
  }

  /** The swap at `j` is the only write there is, and the ref is where others have moved it since. */
  ghost predicate OneWrite(s: Snapshot, x: Snapshot, refs: Refs, events: seq<Event>, m: nat, j: nat, c: Sha) {
    && Swapped(x, refs, events, m, j, c)
    && s.writes == [Write(refs.target, c)] && s.target == Outside(events[j + 1..], c)
    && (s.stage.Replying? || s.stage.Finished?)
    && (s.stage.Replying? ==> s.stage == Replying(c, if events[j].fate.Answered? then Moved else Threw))
    && (s.stage.Finished? ==> (s.result.None? <==> events[j].fate.ThrewAfter?))
  }

  /** The last finalising, at `f`, was with a valid completion and no cancel before it. */
  ghost predicate Finalized(events: seq<Event>, f: nat) {
    && f < |events| && events[f] == Finalize(true) && (forall i | 0 <= i < f :: !events[i].Cancel?)
    && forall i | f < i < |events| :: !events[i].Finalize?
  }

  /** The merge the worker waited for was found to be applied already. */
  ghost predicate FoundApplied(x: Snapshot, refs: Refs, events: seq<Event>) {
    exists m: nat :: AwaitsMerge(x, refs, events, m) && events[m].answer.Applied?
  }

  // ------------------------------------------------------------ one event at a time

  ghost predicate Raised(events: seq<Event>) { exists i :: 0 <= i < |events| && Raises(events[i]) }

  ghost predicate WasCancelled(events: seq<Event>) { exists i :: 0 <= i < |events| && events[i].Cancel? }

  /** The cancel flag is up for every cancel, and until the worker ends for nothing else but a cancel or a deadline. */
  ghost predicate Flags(s: Snapshot, events: seq<Event>) {
    && (WasCancelled(events) ==> s.cancelled) && (s.timedOut ==> s.cancelled)
    && (!s.stage.Finished? ==> s.result.None? && (s.cancelled <==> Raised(events)))
  }

  lemma FlagsStep(s: Snapshot, refs: Refs, events: seq<Event>, e: Event)
    requires Flags(s, events)
    ensures Flags(Next(s, refs, e), events + [e])
  {
    var more := events + [e];
    assert more[|events|] == e && forall i | 0 <= i < |events| :: more[i] == events[i];
    assert Raised(more) <==> Raised(events) || Raises(e);
    assert WasCancelled(more) <==> WasCancelled(events) || e.Cancel?;
  }

  lemma AwaitsGrows(x: Snapshot, refs: Refs, events: seq<Event>, e: Event, m: nat)
    requires AwaitsMerge(x, refs, events, m)
    ensures AwaitsMerge(x, refs, events + [e], m) && (events + [e])[m] == events[m]
  {
    assert (events + [e])[..m] == events[..m];
  }

  lemma ChosenGrows(x: Snapshot, refs: Refs, events: seq<Event>, e: Event, m: nat, c: Sha)
    requires Chosen(x, refs, events, m, c)
    ensures Chosen(x, refs, events + [e], m, c)
  {
    AwaitsGrows(x, refs, events, e, m);
  }

  lemma OutsideGrows(events: seq<Event>, e: Event, start: Sha)
    ensures Outside(events + [e], start) == if e.OutsideWrite? then e.written else Outside(events, start)
  {
    assert (events + [e])[..|events|] == events;
  }

  /** The worker was told of candidate `c` without a cancel before. */
  ghost predicate Cleared(x: Snapshot, refs: Refs, events: seq<Event>, c: Sha) {
    exists m: nat :: Chosen(x, refs, events, m, c)
  }

  /** What this attempt has written, and where that leaves the target. */
  ghost predicate Written(s: Snapshot, x: Snapshot, refs: Refs, events: seq<Event>) {
    && (s.stage.Swapping? ==> s.writes == [] && Cleared(x, refs, events, s.stage.candidate))
    && (s.stage.Replying? ==> Cleared(x, refs, events, s.stage.candidate))
    && (s.writes == [] ==> s.target == Outside(events, x.target) && !(s.stage.Replying? && s.stage.reply.Moved?))
    && (s.writes != [] ==> exists m: nat, j: nat, c :: OneWrite(s, x, refs, events, m, j, c))
    && (s.result.Some? ==>
          && s.stage.Finished? && (s.result.value.targetMoved <==> s.writes != [])
          && (s.result.value.classification.Integrated? <==> s.writes != []))
  }

  lemma SwappedGrows(x: Snapshot, refs: Refs, events: seq<Event>, e: Event, m: nat, j: nat, c: Sha)
    requires Swapped(x, refs, events, m, j, c)
    ensures Swapped(x, refs, events + [e], m, j, c) && (events + [e])[j] == events[j]
    ensures Outside((events + [e])[j + 1..], c) == if e.OutsideWrite? then e.written else Outside(events[j + 1..], c)
  {
    var more := events + [e];
    assert more[..j] == events[..j] && more[j + 1..] == events[j + 1..] + [e];
    OutsideGrows(events[j + 1..], e, c);
    ChosenGrows(x, refs, events, e, m, c);
  }

  /** Once the swap has happened, only the ref and the worker's result change. */
  lemma SettledStep(s: Snapshot, refs: Refs, e: Event)
    requires s.stage.Replying? || s.stage.Finished?
    ensures var t := Next(s, refs, e);
      && t.writes == s.writes && t.target == (if e.OutsideWrite? then e.written else s.target)
      && (if s.stage.Replying? && e.SwapReturns?
          then && t.stage.Finished? && (t.result == s.result <== s.stage.reply.Threw?)
               && (s.stage.reply.Moved? ==> t.result.Some?)
          else t.stage == s.stage && t.result == s.result)
  {
  }

  lemma OneWriteGrows(s: Snapshot, x: Snapshot, refs: Refs, events: seq<Event>, e: Event, m: nat, j: nat, c: Sha)
    requires OneWrite(s, x, refs, events, m, j, c) && (s.stage.Replying? ==> s.result.None?)
    ensures OneWrite(Next(s, refs, e), x, refs, events + [e], m, j, c)
  {
    SwappedGrows(x, refs, events, e, m, j, c);
    SettledStep(s, refs, e);
  }

  lemma SwapWrites(s: Snapshot, x: Snapshot, refs: Refs, events: seq<Event>, fate: SwapFate)
    requires Written(s, x, refs, events) && s.stage.Swapping? && !fate.ThrewBefore? && s.target == refs.target
    ensures var more, t := events + [SwapHappens(fate)], Next(s, refs, SwapHappens(fate));
      exists m: nat, j: nat, c :: OneWrite(t, x, refs, more, m, j, c)
  {
    var e := SwapHappens(fate);
    var more, j, c := events + [e], |events|, s.stage.candidate;
    var m: nat :| Chosen(x, refs, events, m, c);
    ChosenGrows(x, refs, events, e, m, c);
    assert more[..j] == events && more[j + 1..] == [] && more[j] == e;
    assert OneWrite(Next(s, refs, e), x, refs, more, m, j, c);
  }

  lemma MergeClears(s: Snapshot, x: Snapshot, refs: Refs, events: seq<Event>, c: Sha)
    requires s == Replay(x, refs, events) && Flags(s, events) && s.stage.Preparing? && !s.cancelled
    ensures Cleared(x, refs, events + [MergePrepared(Candidate(c))], c)
  {
    var more := events + [MergePrepared(Candidate(c))];
    assert forall i | 0 <= i < |events| :: more[i] == events[i] && !Raises(events[i]);
    assert more[..|events|] == events;
    assert Chosen(x, refs, more, |events|, c);
  }

  lemma WrittenOnce(s: Snapshot, x: Snapshot, refs: Refs, events: seq<Event>, e: Event)
    requires Flags(s, events) && Written(s, x, refs, events) && s.writes != []
    ensures Written(Next(s, refs, e), x, refs, events + [e])
  {
    var m: nat, j: nat, c :| OneWrite(s, x, refs, events, m, j, c);
    OneWriteGrows(s, x, refs, events, e, m, j, c);
    SettledStep(s, refs, e);
    ChosenGrows(x, refs, events, e, m, c);
    assert Cleared(x, refs, events + [e], c);
  }

  /** Nothing written and no result that says so. */
  predicate Unmoved(s: Snapshot) {
    && s.writes == [] && !(s.stage.Replying? && s.stage.reply.Moved?)
    && (s.result.Some? ==>
          s.stage.Finished? && !s.result.value.targetMoved && !s.result.value.classification.Integrated?)
  }

  predicate Committed(g: Stage) { g.Swapping? || g.Replying? }

  lemma UnmovedStep(s: Snapshot, refs: Refs, e: Event)
    requires Unmoved(s) && Next(s, refs, e).writes == []
    ensures var t := Next(s, refs, e);
      && Unmoved(t) && t.target == (if e.OutsideWrite? then e.written else s.target)
      && (Committed(t.stage) ==>
            || (Committed(s.stage) && s.stage.candidate == t.stage.candidate)
            || (s.stage.Preparing? && !s.cancelled && e == MergePrepared(Candidate(t.stage.candidate))))
  {
  }

  lemma NotWritten(s: Snapshot, x: Snapshot, refs: Refs, events: seq<Event>, e: Event)
    requires s == Replay(x, refs, events) && Flags(s, events) && Written(s, x, refs, events)
    requires s.writes == [] && Next(s, refs, e).writes == []
    ensures Written(Next(s, refs, e), x, refs, events + [e])
  {
    var t := Next(s, refs, e);
    OutsideGrows(events, e, x.target);
    UnmovedStep(s, refs, e);
    if Committed(t.stage) {
      if Committed(s.stage) {
        var m: nat :| Chosen(x, refs, events, m, s.stage.candidate);
        ChosenGrows(x, refs, events, e, m, s.stage.candidate);
      } else {
        MergeClears(s, x, refs, events, t.stage.candidate);
      }
      assert Cleared(x, refs, events + [e], t.stage.candidate);
    }
  }

  lemma WrittenStep(s: Snapshot, x: Snapshot, refs: Refs, events: seq<Event>, e: Event)
    requires s == Replay(x, refs, events) && Flags(s, events) && Written(s, x, refs, events)
    ensures Written(Next(s, refs, e), x, refs, events + [e])
  {
    if s.writes != [] {
      WrittenOnce(s, x, refs, events, e);
    } else if Next(s, refs, e).writes == [] {
      NotWritten(s, x, refs, events, e);
    } else {
      SwapWrites(s, x, refs, events, e.fate);
      var m: nat :| Chosen(x, refs, events, m, s.stage.candidate);
      ChosenGrows(x, refs, events, e, m, s.stage.candidate);
    }
  }

  /** A success was the answer to the last finalising, and rests on a result that says integrated or already applied. */
  ghost predicate Answer(s: Snapshot, x: Snapshot, refs: Refs, events: seq<Event>) {
    && (s.result.Some? && s.result.value.classification.AlreadyApplied? ==> FoundApplied(x, refs, events))
    && (s.outcome == Some(Succeeded) ==>
          && s.result.Some? && Successful(s.result.value.classification) && exists f: nat :: Finalized(events, f))
  }

  lemma AppliedStep(s: Snapshot, x: Snapshot, refs: Refs, events: seq<Event>, e: Event)
    requires s == Replay(x, refs, events) && (s.result.Some? ==> s.stage.Finished?)
    requires s.result.Some? && s.result.value.classification.AlreadyApplied? ==> FoundApplied(x, refs, events)
    ensures var t := Next(s, refs, e);
      t.result.Some? && t.result.value.classification.AlreadyApplied? ==> FoundApplied(x, refs, events + [e])
  {
    var more := events + [e];
    if m: nat :| AwaitsMerge(x, refs, events, m) && events[m].answer.Applied? {
      AwaitsGrows(x, refs, events, e, m);
    }
    if e.MergePrepared? && s.stage.Preparing? {
      assert more[..|events|] == events;
      assert AwaitsMerge(x, refs, more, |events|);
    }
  }

  lemma FinalizedGrows(events: seq<Event>, e: Event, f: nat)
    requires Finalized(events, f) && !e.Finalize?
    ensures Finalized(events + [e], f)
  {
  }

  lemma FinalStep(s: Snapshot, refs: Refs, events: seq<Event>, e: Event)
    requires Flags(s, events) && (s.result.Some? ==> s.stage.Finished?)
    requires s.outcome == Some(Succeeded) ==>
      s.result.Some? && Successful(s.result.value.classification) && exists f: nat :: Finalized(events, f)
    ensures var t := Next(s, refs, e);
      t.outcome == Some(Succeeded) ==>
        t.result.Some? && Successful(t.result.value.classification) && exists f: nat :: Finalized(events + [e], f)
  {
    if e.Finalize? {
      if e.valid && !s.cancelled {
        var more := events + [e];
        assert forall i | 0 <= i < |events| :: more[i] == events[i] && !events[i].Cancel?;
        assert Finalized(more, |events|);
      }
    } else if s.outcome == Some(Succeeded) {
      var f: nat :| Finalized(events, f);
      FinalizedGrows(events, e, f);
    }
  }

  lemma {:induction false} ReplayFacts(s: Snapshot, refs: Refs, events: seq<Event>)
    requires Fresh(s)
    ensures var t := Replay(s, refs, events);
      Flags(t, events) && Written(t, s, refs, events) && Answer(t, s, refs, events)
  {
    if events != [] {
      var n := |events| - 1;
      ReplayFacts(s, refs, events[..n]);
      var t := Replay(s, refs, events[..n]);
      FlagsStep(t, refs, events[..n], events[n]);
      WrittenStep(t, s, refs, events[..n], events[n]);
      AppliedStep(t, s, refs, events[..n], events[n]);
      FinalStep(t, refs, events[..n], events[n]);
      assert events == events[..n] + [events[n]];
    }
  }

  // ------------------------------------------------------ what the worker has heard

  /** Where the first event of this kind at or after `from` is, or how many events there are. */
  function First(events: seq<Event>, from: nat, kind: Event -> bool): (k: nat)
    ensures k <= |events| && (k < |events| ==> from <= k && kind(events[k]))
    decreases |events| - from
  {
    if from >= |events| then |events| else if kind(events[from]) then from else First(events, from + 1, kind)
  }

  lemma {:induction false} FirstIsFirst(events: seq<Event>, from: nat, kind: Event -> bool)
    ensures forall i | from <= i < First(events, from, kind) :: !kind(events[i])
    decreases |events| - from
  {
    if from < |events| && !kind(events[from]) { FirstIsFirst(events, from + 1, kind); }
  }

  /** Where the worker is started, where it begins, and where each of its calls is answered. */
  datatype Trail = Trail(start: nat, begin: nat, source: nat, target: nat, merge: nat, swap: nat, back: nat)

  predicate IsStart(e: Event) { e.Start? }
  predicate IsBegin(e: Event) { e.Begin? }
  predicate IsSourceRead(e: Event) { e.SourceRead? }
  predicate IsTargetRead(e: Event) { e.TargetRead? }
  predicate IsMergePrepared(e: Event) { e.MergePrepared? }
  predicate IsSwapHappens(e: Event) { e.SwapHappens? }
  predicate IsSwapReturns(e: Event) { e.SwapReturns? }

  function StartAt(events: seq<Event>): nat { First(events, 0, IsStart) }
  function BeginAt(events: seq<Event>): nat { First(events, StartAt(events) + 1, IsBegin) }
  function SourceAt(events: seq<Event>): nat { First(events, BeginAt(events) + 1, IsSourceRead) }
  function TargetAt(events: seq<Event>): nat { First(events, SourceAt(events) + 1, IsTargetRead) }
  function MergeAt(events: seq<Event>): nat { First(events, TargetAt(events) + 1, IsMergePrepared) }
  function SwapAt(events: seq<Event>): nat { First(events, MergeAt(events) + 1, IsSwapHappens) }
  function BackAt(events: seq<Event>): nat { First(events, SwapAt(events) + 1, IsSwapReturns) }

  function TrailOf(events: seq<Event>): (t: Trail)
    ensures Fits(t, events)
  {
    Trail(
      StartAt(events), BeginAt(events), SourceAt(events), TargetAt(events), MergeAt(events), SwapAt(events),
      BackAt(events))
  }

  /** Each answer comes after the one before it, and is of the awaited kind. */
  predicate Fits(t: Trail, events: seq<Event>) {
    var n := |events|;
    && t.start <= n && t.begin <= n && t.source <= n && t.target <= n && t.merge <= n && t.swap <= n && t.back <= n
    && (t.begin < n ==> t.start < n) && (t.source < n ==> t.begin < n && events[t.source].SourceRead?)
    && (t.target < n ==> t.source < n && events[t.target].TargetRead?)
    && (t.merge < n ==> t.target < n && events[t.merge].MergePrepared?)
    && (t.swap < n ==> t.merge < n && events[t.swap].SwapHappens?)
    && (t.back < n ==> t.swap < n)
  }

  /** The worker is still at it, has ended with a result, or has thrown and has none. */
  datatype Verdict = Underway | Result(result: IntegrationResult) | NoResult

  function Unmoving(c: Classification, sha: Option<Sha>): Verdict { Result(IntegrationResult(c, false, sha)) }

  /** What the reads of both refs lead to, unless the merge is prepared. */
  ghost function AfterBothReads(x: Snapshot, refs: Refs, events: seq<Event>, t: Trail): Verdict
    requires Fits(t, events)
  {
    if t.begin == |events| then Underway
    else if Raised(events[..t.begin]) then Unmoving(IrreconcilableExternal, None)
    else if t.source == |events| then Underway
    else if events[t.source].sha.None? then Unmoving(IrreconcilableExternal, None)
    else if t.target == |events| then Underway
    else if events[t.target].threw then Unmoving(IrreconcilableExternal, None)
    else if events[t.source].sha != Some(refs.source) then Unmoving(StaleSource, None)
    else if Outside(events[..t.target], x.target) != refs.target then Unmoving(StaleTarget, None)
    else if Raised(events[..t.target]) then Unmoving(IrreconcilableExternal, None)
    else Underway
  }

  /** What the answer to the merge leads to, and the swap if there is one. */
  ghost function AfterTheMerge(x: Snapshot, refs: Refs, events: seq<Event>, t: Trail): Verdict
    requires Fits(t, events) && t.merge < |events|
  {
    match events[t.merge].answer
    case PreparationThrew => NoResult
    case Conflicting => Unmoving(MergeConflict, None)
    case Applied(sha) => Unmoving(AlreadyApplied, Some(sha))
    case Candidate(sha) =>
      if Raised(events[..t.merge]) then Unmoving(IrreconcilableExternal, None)
      else if t.back == |events| then Underway
      else if !events[t.swap].fate.Answered? then NoResult
      else if Outside(events[..t.swap], x.target) == refs.target
      then Result(IntegrationResult(Integrated, true, Some(sha)))
      else Unmoving(StaleTarget, None)
  }

  ghost function VerdictBy(x: Snapshot, refs: Refs, events: seq<Event>, t: Trail): Verdict
    requires Fits(t, events)
  {
    var early := AfterBothReads(x, refs, events, t);
    if !early.Underway? || t.merge == |events| then early else AfterTheMerge(x, refs, events, t)
  }

  /** How the events decide what becomes of the integration. */
  ghost function VerdictOf(x: Snapshot, refs: Refs, events: seq<Event>): Verdict {
    VerdictBy(x, refs, events, TrailOf(events))
  }

  ghost function ResultIn(v: Verdict): Option<IntegrationResult> {
    if v.Result? then Some(v.result) else None
  }

  /** The stage tells what has been heard and that nothing has stopped the worker so far. */
  ghost predicate Heard(s: Snapshot, x: Snapshot, refs: Refs, events: seq<Event>, t: Trail)
    requires Fits(t, events)
  {
    var n := |events|;
    match s.stage
    case Prepared => t.start == n
    case Starting => t.start < n && t.begin == n
    case ReadingSource => t.begin < n && t.source == n && !Raised(events[..t.begin])
    case ReadingTarget(sha) =>
      t.source < n && t.target == n && !Raised(events[..t.begin]) && events[t.source].sha == Some(sha)
    case Preparing => t.target < n && t.merge == n && AfterBothReads(x, refs, events, t).Underway?
    case Swapping(c) =>
      && t.merge < n && t.swap == n && AfterBothReads(x, refs, events, t).Underway?
      && events[t.merge].answer == Candidate(c) && !Raised(events[..t.merge])
    case Replying(c, reply) =>
      && t.swap < n && t.back == n && AfterBothReads(x, refs, events, t).Underway?
      && events[t.merge].answer == Candidate(c) && !Raised(events[..t.merge])
      && reply == (if !events[t.swap].fate.Answered? then Threw
                   else if Outside(events[..t.swap], x.target) == refs.target then Moved else Stale)
    case Finished =>
      var v := VerdictBy(x, refs, events, t);
      !v.Underway? && s.result == if v.Result? then Some(v.result) else None
  }

  lemma {:induction false} FirstGrows(events: seq<Event>, e: Event, from: nat, kind: Event -> bool)
    ensures var k, n := First(events, from, kind), |events|;
      First(events + [e], from, kind) == if k < n then k else if from <= n && kind(e) then n else n + 1
    decreases |events| - from
  {
    var more := events + [e];
    if from < |events| {
      assert more[from] == events[from];
      if !kind(events[from]) { FirstGrows(events, e, from + 1, kind); }
    } else if from == |events| {
      assert more[from] == e;
    }
  }

  /** What is heard with one more event: it is the next answer if it is of the awaited kind. */
  function Later(k: nat, before: nat, n: nat, awaited: bool): nat {
    if k < n then k else if before < n && awaited then n else n + 1
  }

  /** The same for an answer that is awaited after position `before`, which may only now be known. */
  lemma NextGrows(events: seq<Event>, e: Event, before: nat, now: nat, kind: Event -> bool)
    requires before <= |events| && (if before < |events| then now == before else now >= |events|)
    ensures First(events + [e], now + 1, kind)
      == Later(First(events, before + 1, kind), before, |events|, kind(e))
  {
    FirstGrows(events, e, now + 1, kind);
  }

  lemma StartGrows(events: seq<Event>, e: Event)
    ensures StartAt(events + [e])
      == if StartAt(events) < |events| then StartAt(events) else if e.Start? then |events| else |events| + 1
  {
    FirstGrows(events, e, 0, IsStart);
  }

  lemma BeginGrows(events: seq<Event>, e: Event)
    ensures BeginAt(events + [e]) == Later(BeginAt(events), StartAt(events), |events|, IsBegin(e))
  {
    StartGrows(events, e);
    NextGrows(events, e, StartAt(events), StartAt(events + [e]), IsBegin);
  }

  lemma SourceGrows(events: seq<Event>, e: Event)
    ensures SourceAt(events + [e]) == Later(SourceAt(events), BeginAt(events), |events|, IsSourceRead(e))
  {
    BeginGrows(events, e);
    NextGrows(events, e, BeginAt(events), BeginAt(events + [e]), IsSourceRead);
  }

  lemma TargetGrows(events: seq<Event>, e: Event)
    ensures TargetAt(events + [e]) == Later(TargetAt(events), SourceAt(events), |events|, IsTargetRead(e))
  {
    SourceGrows(events, e);
    NextGrows(events, e, SourceAt(events), SourceAt(events + [e]), IsTargetRead);
  }

  lemma MergeGrows(events: seq<Event>, e: Event)
    ensures MergeAt(events + [e]) == Later(MergeAt(events), TargetAt(events), |events|, IsMergePrepared(e))
  {
    TargetGrows(events, e);
    NextGrows(events, e, TargetAt(events), TargetAt(events + [e]), IsMergePrepared);
  }

  lemma SwapGrows(events: seq<Event>, e: Event)
    ensures SwapAt(events + [e]) == Later(SwapAt(events), MergeAt(events), |events|, IsSwapHappens(e))
  {
    MergeGrows(events, e);
    NextGrows(events, e, MergeAt(events), MergeAt(events + [e]), IsSwapHappens);
  }

  lemma BackGrows(events: seq<Event>, e: Event)
    ensures BackAt(events + [e]) == Later(BackAt(events), SwapAt(events), |events|, IsSwapReturns(e))
  {
    SwapGrows(events, e);
    NextGrows(events, e, SwapAt(events), SwapAt(events + [e]), IsSwapReturns);
  }

  /** `u` is the trail `t` of `n` events with one more event heard. */
  predicate Grown(t: Trail, u: Trail, n: nat, e: Event) {
    && u.start == (if t.start < n then t.start else if e.Start? then n else n + 1)
    && u.begin == Later(t.begin, t.start, n, e.Begin?)
    && u.source == Later(t.source, t.begin, n, e.SourceRead?)
    && u.target == Later(t.target, t.source, n, e.TargetRead?)
    && u.merge == Later(t.merge, t.target, n, e.MergePrepared?)
    && u.swap == Later(t.swap, t.merge, n, e.SwapHappens?)
    && u.back == Later(t.back, t.swap, n, e.SwapReturns?)
  }

  lemma TrailGrows(events: seq<Event>, e: Event)
    ensures Grown(TrailOf(events), TrailOf(events + [e]), |events|, e)
  {
    StartGrows(events, e);
    BeginGrows(events, e);
    SourceGrows(events, e);
    TargetGrows(events, e);
    MergeGrows(events, e);
    SwapGrows(events, e);
    BackGrows(events, e);
  }

  ghost predicate Continues(events: seq<Event>, e: Event, t: Trail, u: Trail) {
    Fits(t, events) && Fits(u, events + [e]) && Grown(t, u, |events|, e)
  }

  lemma PrefixStays(events: seq<Event>, e: Event, k: nat)
    requires k <= |events|
    ensures (events + [e])[..k] == events[..k]
  {
  }

  lemma PrefixesStay(events: seq<Event>, e: Event, t: Trail)
    requires Fits(t, events)
    ensures var more := events + [e];
      && more[..t.begin] == events[..t.begin] && more[..t.target] == events[..t.target]
      && more[..t.merge] == events[..t.merge] && more[..t.swap] == events[..t.swap]
      && more[..|events|] == events
  {
    PrefixStays(events, e, t.begin);
    PrefixStays(events, e, t.target);
    PrefixStays(events, e, t.merge);
    PrefixStays(events, e, t.swap);
  }

  /** A verdict on the reads stands, and so does that there is none once both are answered. */
  lemma EarlyStays(x: Snapshot, refs: Refs, events: seq<Event>, e: Event, t: Trail, u: Trail)
    requires Continues(events, e, t, u)
    requires !AfterBothReads(x, refs, events, t).Underway? || t.target < |events|
    ensures AfterBothReads(x, refs, events + [e], u) == AfterBothReads(x, refs, events, t)
  {
    PrefixesStay(events, e, t);
  }

  lemma VerdictStays(x: Snapshot, refs: Refs, events: seq<Event>, e: Event, t: Trail, u: Trail)
    requires Continues(events, e, t, u) && !VerdictBy(x, refs, events, t).Underway?
    ensures VerdictBy(x, refs, events + [e], u) == VerdictBy(x, refs, events, t)
  {
    PrefixesStay(events, e, t);
    EarlyStays(x, refs, events, e, t, u);
  }

  /** What the worker waits for. */
  predicate Awaited(g: Stage, e: Event) {
    match g
    case Prepared => e.Start?
    case Starting => e.Begin?
    case ReadingSource => e.SourceRead?
    case ReadingTarget(_) => e.TargetRead?
    case Preparing => e.MergePrepared?
    case Swapping(_) => e.SwapHappens?
    case Replying(_, _) => e.SwapReturns?
    case Finished => false
  }

  /** Any other event leaves the worker waiting. */
  lemma HeardOther(
    s: Snapshot, x: Snapshot, refs: Refs, events: seq<Event>, e: Event, t: Trail, u: Trail)
    requires Continues(events, e, t, u) && Heard(s, x, refs, events, t) && !Awaited(s.stage, e)
    ensures Heard(Next(s, refs, e), x, refs, events + [e], u)
  {
    PrefixesStay(events, e, t);
    if s.stage.Finished? {
      VerdictStays(x, refs, events, e, t, u);
    } else if s.stage.Preparing? || s.stage.Swapping? || s.stage.Replying? {
      EarlyStays(x, refs, events, e, t, u);
    }
  }

  /** What is known of the attempt before its next event, besides what it has heard. */
  ghost predicate Known(s: Snapshot, x: Snapshot, events: seq<Event>) {
    && s.result.None? && (s.cancelled <==> Raised(events))
    && (s.stage.Replying? || s.target == Outside(events, x.target))
  }

  lemma HeardEarly(s: Snapshot, x: Snapshot, refs: Refs, events: seq<Event>, e: Event, t: Trail, u: Trail)
    requires Continues(events, e, t, u) && Heard(s, x, refs, events, t) && Known(s, x, events)
    requires Awaited(s.stage, e) && (s.stage.Prepared? || s.stage.Starting? || s.stage.ReadingSource?)
    ensures Heard(Next(s, refs, e), x, refs, events + [e], u)
  {
    PrefixesStay(events, e, t);
  }

  lemma HeardTarget(s: Snapshot, x: Snapshot, refs: Refs, events: seq<Event>, e: Event, t: Trail, u: Trail)
    requires Continues(events, e, t, u) && Heard(s, x, refs, events, t) && Known(s, x, events)
    requires Awaited(s.stage, e) && s.stage.ReadingTarget?
    ensures Heard(Next(s, refs, e), x, refs, events + [e], u)
  {
    PrefixesStay(events, e, t);
  }

  lemma HeardMerge(s: Snapshot, x: Snapshot, refs: Refs, events: seq<Event>, e: Event, t: Trail, u: Trail)
    requires Continues(events, e, t, u) && Heard(s, x, refs, events, t) && Known(s, x, events)
    requires Awaited(s.stage, e) && s.stage.Preparing?
    ensures Heard(Next(s, refs, e), x, refs, events + [e], u)
  {
    PrefixesStay(events, e, t);
    EarlyStays(x, refs, events, e, t, u);
  }

  lemma HeardSwap(s: Snapshot, x: Snapshot, refs: Refs, events: seq<Event>, e: Event, t: Trail, u: Trail)
    requires Continues(events, e, t, u) && Heard(s, x, refs, events, t) && Known(s, x, events)
    requires Awaited(s.stage, e) && (s.stage.Swapping? || s.stage.Replying?)
    ensures Heard(Next(s, refs, e), x, refs, events + [e], u)
  {
    PrefixesStay(events, e, t);
    EarlyStays(x, refs, events, e, t, u);
  }

  // ------------------------------------------------------------------- theorems

  /**
  In every interleaving: without a write of this attempt the target is where others left it. Otherwise there was one
  write, by a swap from the expected SHA to a candidate that was prepared before any cancel or deadline, and the
  target is where others left it since.
  */
  lemma AtMostOneWrite(s: Snapshot, refs: Refs, events: seq<Event>)
    requires Fresh(s)
    ensures var t := Replay(s, refs, events);
      if t.writes == [] then t.target == Outside(events, s.target)
      else exists m: nat, j: nat, c :: OneWrite(t, s, refs, events, m, j, c)
  {
    ReplayFacts(s, refs, events);
  }

  /**
  A stored result says whether the target was moved, and success means integrated or already
  applied, with no cancel before.
  */
  lemma ResultsAreTrue(s: Snapshot, refs: Refs, events: seq<Event>)
    requires Fresh(s)
    ensures var t := Replay(s, refs, events);
      && (t.result.Some? ==> (t.result.value.targetMoved <==> t.writes != []))
      && (t.outcome == Some(Succeeded) ==>
            (t.writes != [] || FoundApplied(s, refs, events)) && exists f: nat :: Finalized(events, f))
  {
    ReplayFacts(s, refs, events);
  }

  lemma KnownBefore(x: Snapshot, refs: Refs, events: seq<Event>)
    requires Fresh(x) && !Replay(x, refs, events).stage.Finished?
    ensures Known(Replay(x, refs, events), x, events)
  {
    ReplayFacts(x, refs, events);
  }

  /** The trail, kept up to date event by event. */
  ghost predicate Tracked(events: seq<Event>, t: Trail)
    decreases |events|
  {
    && Fits(t, events)
    && if events == [] then t == Trail(0, 0, 0, 0, 0, 0, 0)
       else
         var n := |events| - 1;
         exists before :: Tracked(events[..n], before) && Grown(before, t, n, events[n])
  }

  lemma {:induction false} TrailTracked(events: seq<Event>)
    ensures Tracked(events, TrailOf(events))
    decreases |events|
  {
    if events != [] {
      var n := |events| - 1;
      var before, e := events[..n], events[n];
      assert events == before + [e];
      TrailTracked(before);
      TrailGrows(before, e);
      TrackedMore(before, e, TrailOf(before), TrailOf(before + [e]));
    }
  }

  lemma TrackedMore(events: seq<Event>, e: Event, t: Trail, u: Trail)
    requires Tracked(events, t) && Continues(events, e, t, u)
    ensures Tracked(events + [e], u)
  {
    assert (events + [e])[..|events|] == events;
  }

  lemma {:induction false} ReplayHeard(x: Snapshot, refs: Refs, events: seq<Event>, t: Trail)
    requires Fresh(x) && Tracked(events, t)
    ensures Heard(Replay(x, refs, events), x, refs, events, t)
    decreases |events|
  {
    if events != [] {
      var n := |events| - 1;
      var before, e := events[..n], events[n];
      var b :| Tracked(before, b) && Grown(b, t, n, e);
      assert events == before + [e];
      ReplayHeard(x, refs, before, b);
      HeardMore(x, refs, before, e, b, t);
    }
  }

  lemma HeardMore(x: Snapshot, refs: Refs, events: seq<Event>, e: Event, t: Trail, u: Trail)
    requires Fresh(x) && Continues(events, e, t, u) && Heard(Replay(x, refs, events), x, refs, events, t)
    ensures Heard(Replay(x, refs, events + [e]), x, refs, events + [e], u)
  {
    var s := Replay(x, refs, events);
    assert (events + [e])[..|events|] == events;
    if !s.stage.Finished? { KnownBefore(x, refs, events); }
    HeardNext(s, x, refs, events, e, t, u);
  }

  lemma HeardNext(s: Snapshot, x: Snapshot, refs: Refs, events: seq<Event>, e: Event, t: Trail, u: Trail)
    requires Continues(events, e, t, u) && Heard(s, x, refs, events, t)
    requires !s.stage.Finished? ==> Known(s, x, events)
    ensures Heard(Next(s, refs, e), x, refs, events + [e], u)
  {
    if !Awaited(s.stage, e) {
      HeardOther(s, x, refs, events, e, t, u);
    } else if s.stage.ReadingTarget? {
      HeardTarget(s, x, refs, events, e, t, u);
    } else if s.stage.Preparing? {
      HeardMerge(s, x, refs, events, e, t, u);
    } else if s.stage.Swapping? || s.stage.Replying? {
      HeardSwap(s, x, refs, events, e, t, u);
    } else {
      HeardEarly(s, x, refs, events, e, t, u);
    }
  }

  lemma StillUnderway(s: Snapshot, x: Snapshot, refs: Refs, events: seq<Event>, t: Trail)
    requires Fits(t, events) && Heard(s, x, refs, events, t) && !s.stage.Finished?
    ensures VerdictBy(x, refs, events, t).Underway?
  {
  }

  /**
  In every interleaving the events decide the result: a stale source, a stale target, a conflict, a merge that was
  applied already, a swap that moved the target, or a cancel or a failed read, each with its result SHA.
  */
  lemma VerdictExactly(x: Snapshot, refs: Refs, events: seq<Event>)
    requires Fresh(x)
    ensures var s, v := Replay(x, refs, events), VerdictOf(x, refs, events);
      (s.stage.Finished? <==> !v.Underway?) && s.result == ResultIn(v)
  {
    TrailTracked(events);
    HeardDecides(x, refs, events, TrailOf(events));
  }

  lemma HeardDecides(x: Snapshot, refs: Refs, events: seq<Event>, t: Trail)
    requires Fresh(x) && Tracked(events, t)
    ensures var s, v := Replay(x, refs, events), VerdictBy(x, refs, events, t);
      (s.stage.Finished? <==> !v.Underway?) && s.result == ResultIn(v)
  {
    var s := Replay(x, refs, events);
    ReplayHeard(x, refs, events, t);
    if !s.stage.Finished? {
      StillUnderway(s, x, refs, events, t);
      KnownBefore(x, refs, events);
    }
  }

  /** What each series of events decides. */
  ghost function Verdicts(x: Snapshot, refs: Refs): seq<Event> -> Verdict {
    (events: seq<Event>) => VerdictOf(x, refs, events)
  }

  ghost predicate Decides(verdict: seq<Event> -> Verdict, x: Snapshot, refs: Refs) {
    forall events :: Replay(x, refs, events).result == ResultIn(verdict(events))
  }

  /** A cancel was asked for, or the deadline passed while there was no result. */
  ghost predicate CancelledBy(verdict: seq<Event> -> Verdict, events: seq<Event>) {
    exists i :: 0 <= i < |events| && Cancels(verdict, events, i)
  }

  ghost predicate Cancels(verdict: seq<Event> -> Verdict, events: seq<Event>, i: nat)
    requires i < |events|
  {
    events[i].Cancel? || (events[i].Deadline? && ResultIn(verdict(events[..i])).None?)
  }

  lemma CancelsGrows(verdict: seq<Event> -> Verdict, events: seq<Event>, e: Event)
    ensures CancelledBy(verdict, events + [e]) <==>
      CancelledBy(verdict, events) || e.Cancel? || (e.Deadline? && ResultIn(verdict(events)).None?)
  {
    var more, n := events + [e], |events|;
    forall i | 0 <= i < n ensures Cancels(verdict, more, i) <==> Cancels(verdict, events, i) {
      PrefixStays(events, e, i);
    }
    PrefixStays(events, e, n);
    assert events[..n] == events && more[n] == e;
    if CancelledBy(verdict, events) {
      var i :| 0 <= i < n && Cancels(verdict, events, i);
      assert Cancels(verdict, more, i);
    }
    if Cancels(verdict, more, n) { assert CancelledBy(verdict, more); }
  }

  lemma CancelStep(s: Snapshot, refs: Refs, e: Event)
    requires s.timedOut ==> s.cancelled
    ensures Next(s, refs, e).cancelled <==> s.cancelled || e.Cancel? || (e.Deadline? && s.result.None?)
  {
  }

  lemma {:induction false} CancelledExactly(
    verdict: seq<Event> -> Verdict, x: Snapshot, refs: Refs, events: seq<Event>)
    requires Fresh(x) && Decides(verdict, x, refs)
    ensures Replay(x, refs, events).cancelled <==> CancelledBy(verdict, events)
    decreases |events|
  {
    if events != [] {
      var n := |events| - 1;
      var before, e := events[..n], events[n];
      CancelledExactly(verdict, x, refs, before);
      ReplayFacts(x, refs, before);
      CancelStep(Replay(x, refs, before), refs, e);
      CancelsGrows(verdict, before, e);
      assert events == before + [e];
    }
  }

  /** How finalising is answered after these events. */
  ghost function Judged(verdict: seq<Event> -> Verdict, events: seq<Event>, valid: bool): Outcome {
    var result := ResultIn(verdict(events));
    if valid && result.Some? && Successful(result.value.classification) && !CancelledBy(verdict, events)
    then Succeeded
    else if CancelledBy(verdict, events) then Cancelled else Failed
  }

  predicate LastFinal(events: seq<Event>, f: nat) {
    f < |events| && events[f].Finalize? && forall i | f < i < |events| :: !events[i].Finalize?
  }

  lemma JudgedNow(verdict: seq<Event> -> Verdict, x: Snapshot, refs: Refs, events: seq<Event>, valid: bool)
    requires Fresh(x) && Decides(verdict, x, refs)
    ensures Next(Replay(x, refs, events), refs, Finalize(valid)).outcome == Some(Judged(verdict, events, valid))
  {
    ReplayFacts(x, refs, events);
    CancelledExactly(verdict, x, refs, events);
  }

  /** The last finalising is answered by what the events before it had decided. */
  ghost predicate Answers(verdict: seq<Event> -> Verdict, events: seq<Event>, outcome: Option<Outcome>) {
    && ((forall i | 0 <= i < |events| :: !events[i].Finalize?) ==> outcome.None?)
    && forall f: nat | LastFinal(events, f) :: outcome == Some(Judged(verdict, events[..f], events[f].valid))
  }

  lemma AnswersFinal(verdict: seq<Event> -> Verdict, events: seq<Event>, valid: bool)
    ensures Answers(verdict, events + [Finalize(valid)], Some(Judged(verdict, events, valid)))
  {
    var more, n := events + [Finalize(valid)], |events|;
    assert more[n] == Finalize(valid) && more[..n] == events;
    forall f: nat | LastFinal(more, f) ensures f == n {
    }
  }

  lemma AnswersOther(verdict: seq<Event> -> Verdict, events: seq<Event>, e: Event, o: Option<Outcome>)
    requires Answers(verdict, events, o) && !e.Finalize?
    ensures Answers(verdict, events + [e], o)
  {
    var more := events + [e];
    assert forall i | 0 <= i < |events| :: more[i] == events[i];
    forall f: nat | LastFinal(more, f) ensures LastFinal(events, f) && more[..f] == events[..f] {
      PrefixStays(events, e, if f <= |events| then f else 0);
    }
  }

  lemma {:induction false} AnswersAll(
    verdict: seq<Event> -> Verdict, x: Snapshot, refs: Refs, events: seq<Event>)
    requires Fresh(x) && Decides(verdict, x, refs)
    ensures Answers(verdict, events, Replay(x, refs, events).outcome)
    decreases |events|
  {
    if events != [] {
      var n := |events| - 1;
      var before, e := events[..n], events[n];
      assert events == before + [e];
      AnswersAll(verdict, x, refs, before);
      if e.Finalize? {
        JudgedNow(verdict, x, refs, before, e.valid);
        AnswersFinal(verdict, before, e.valid);
      } else {
        OutcomeKept(Replay(x, refs, before), refs, e);
        AnswersOther(verdict, before, e, Replay(x, refs, before).outcome);
      }
    }
  }

  lemma OutcomeKept(s: Snapshot, refs: Refs, e: Event)
    requires !e.Finalize?
    ensures Next(s, refs, e).outcome == s.outcome
  {
  }

  /** In every interleaving the last finalising is answered by what the events before it had decided. */
  lemma OutcomeExactly(x: Snapshot, refs: Refs, events: seq<Event>)
    requires Fresh(x)
    ensures Answers(Verdicts(x, refs), events, Replay(x, refs, events).outcome)
  {
    forall es ensures Replay(x, refs, es).result == ResultIn(Verdicts(x, refs)(es)) { VerdictExactly(x, refs, es); }
    AnswersAll(Verdicts(x, refs), x, refs, events);
  }

  lemma ReplayMore(s: Snapshot, refs: Refs, events: seq<Event>, e: Event, t: Snapshot)
    requires Replay(s, refs, events) == t
    ensures Replay(s, refs, events + [e]) == Next(t, refs, e)
  {
    assert (events + [e])[..|events|] == events;
  }

  const NEW := Snapshot(Prepared, false, false, None, None, "t", [], None)

  /** A worker that nothing disturbs up to its swap. */
  const UNDISTURBED: seq<Event> :=
    [Start] + [Begin] + [SourceRead(Some("s"))] + [TargetRead(false)] + [MergePrepared(Candidate("c"))]

  lemma UndisturbedSwaps()
    ensures Replay(NEW, Refs("s", "t"), UNDISTURBED) == NEW.(stage := Swapping("c"), prepared := Some(Candidate("c")))
  {
    var x, e := Refs("s", "t"), [Start];
    assert e == [] + [Start];
    ReplayMore(NEW, x, [], Start, NEW);
    ReplayMore(NEW, x, e, Begin, NEW.(stage := Starting));
    ReplayMore(NEW, x, e + [Begin], SourceRead(Some("s")), NEW.(stage := ReadingSource));
    ReplayMore(NEW, x, e + [Begin] + [SourceRead(Some("s"))], TargetRead(false), NEW.(stage := ReadingTarget("s")));
    ReplayMore(
      NEW, x, e + [Begin] + [SourceRead(Some("s"))] + [TargetRead(false)], MergePrepared(Candidate("c")),
      NEW.(stage := Preparing));
  }

  /** After a swap that throws once it has taken effect, the target has moved and there is no result to say so. */
  lemma MovedWithoutResult()
    ensures var t := Replay(NEW, Refs("s", "t"), UNDISTURBED + [SwapHappens(ThrewAfter)] + [SwapReturns]);
      t.stage.Finished? && t.target == "c" && t.writes == [Write("t", "c")] && t.result.None?
  {
    var x, p := Refs("s", "t"), NEW.(stage := Swapping("c"), prepared := Some(Candidate("c")));
    UndisturbedSwaps();
    ReplayMore(NEW, x, UNDISTURBED, SwapHappens(ThrewAfter), p);
    ReplayMore(NEW, x, UNDISTURBED + [SwapHappens(ThrewAfter)], SwapReturns, Next(p, x, SwapHappens(ThrewAfter)));
  }

  // ----------------------------------------------------------------- the attempt

  class Attempt {
    const refs: Refs
    var stage: Stage
    var cancelled: bool
    var timedOut: bool
    var result: Option<IntegrationResult>
    var outcome: Option<Outcome>
    /** The target ref, which others write too. */
    var target: Sha
    /** What this attempt wrote there. */
    ghost var writes: seq<Write>
    /** What the merge preparation answered. */
    ghost var prepared: Option<Preparation>

    constructor (refs: Refs, now: Sha)
      ensures Fresh(View()) && target == now && this.refs == refs
    {
      this.refs := refs;
      stage, cancelled, timedOut, result, outcome := Prepared, false, false, None, None;
      target := now;
      writes, prepared := [], None;
    }

    ghost function View(): Snapshot
      reads this
    {
      Snapshot(stage, cancelled, timedOut, result, outcome, target, writes, prepared)
    }

    /** Ends the worker with a result and no write. */
    method Stop(c: Classification, sha: Option<Sha>)
      modifies this`stage, this`result
      ensures View() == Stopped(old(View()), c, sha)
    {
      result := Some(IntegrationResult(c, false, sha));
      stage := Finished;
    }

    method DoBegin()
      requires stage.Starting?
      modifies this`stage, this`result
      ensures View() == Next(old(View()), refs, Begin)
    {
      if cancelled { Stop(IrreconcilableExternal, None); } else { stage := ReadingSource; }
    }

    method OnSourceRead(sha: Option<Sha>)
      requires stage.ReadingSource?
      modifies this`stage, this`result
      ensures View() == Next(old(View()), refs, SourceRead(sha))
    {
      if sha.None? { Stop(IrreconcilableExternal, None); } else { stage := ReadingTarget(sha.value); }
    }

    /**
    The read is answered with the target's value at this moment; the merge is prepared only if both
    refs are as expected.
    */
    method OnTargetRead(threw: bool)
      requires stage.ReadingTarget?
      modifies this`stage, this`result
      ensures View() == Next(old(View()), refs, TargetRead(threw))
      ensures !stage.Preparing? ==>
        result == Some(IntegrationResult(
          if !threw && old(stage).source != refs.source then StaleSource
          else if !threw && target != refs.target then StaleTarget else IrreconcilableExternal, false, None))
      ensures stage.Preparing? <==>
        !threw && old(stage).source == refs.source && target == refs.target && !cancelled
    {
      if threw { Stop(IrreconcilableExternal, None); }
      else if stage.source != refs.source { Stop(StaleSource, None); }
      else if target != refs.target { Stop(StaleTarget, None); }
      else if cancelled { Stop(IrreconcilableExternal, None); }
      else { stage := Preparing; }
    }

    method OnMergePrepared(answer: Preparation)
      requires stage.Preparing?
      modifies this`stage, this`result, this`prepared
      ensures View() == Next(old(View()), refs, MergePrepared(answer))
      ensures stage.Swapping? <==> answer.Candidate? && !cancelled
      ensures answer.Applied? ==> result == Some(IntegrationResult(AlreadyApplied, false, Some(answer.sha)))
      ensures answer.Conflicting? ==> result == Some(IntegrationResult(MergeConflict, false, None))
      ensures answer.Candidate? && cancelled ==> result == Some(IntegrationResult(IrreconcilableExternal, false, None))
      ensures answer.PreparationThrew? ==> stage.Finished? && result == old(result)
    {
      prepared := Some(answer);
      match answer {
        case PreparationThrew => stage := Finished;
        case Conflicting => Stop(MergeConflict, None);
        case Applied(sha) => Stop(AlreadyApplied, Some(sha));
        case Candidate(sha) =>
          if cancelled { Stop(IrreconcilableExternal, None); } else { stage := Swapping(sha); }
      }
    }

    /** The compare-and-swap takes effect, or finds the target moved. */
    method OnSwap(fate: SwapFate)
      requires stage.Swapping?
      modifies this`stage, this`target, this`writes
      ensures View() == Next(old(View()), refs, SwapHappens(fate))
      ensures target == if !fate.ThrewBefore? && old(target) == refs.target then old(stage).candidate else old(target)
      ensures writes == if target == old(target) && (fate.ThrewBefore? || old(target) != refs.target)
                        then old(writes) else old(writes) + [Write(refs.target, old(stage).candidate)]
    {
      var candidate := stage.candidate;
      if fate.ThrewBefore? {
        stage := Replying(candidate, Threw);
      } else if target != refs.target {
        stage := Replying(candidate, if fate.Answered? then Stale else Threw);
      } else {
        writes := writes + [Write(target, candidate)];
        target := candidate;
        stage := Replying(candidate, if fate.Answered? then Moved else Threw);
      }
    }

    method OnSwapReturns()
      requires stage.Replying?
      modifies this`stage, this`result
      ensures View() == Next(old(View()), refs, SwapReturns)
      ensures stage.Finished? && writes == old(writes) && target == old(target)
      ensures old(stage).reply.Moved? ==>
        result == Some(IntegrationResult(Integrated, true, Some(old(stage).candidate)))
      ensures old(stage).reply.Stale? ==> result == Some(IntegrationResult(StaleTarget, false, None))
      ensures old(stage).reply.Threw? ==> result == old(result)
    {
      var at := stage;
      stage := Finished;
      match at.reply {
        case Threw =>
        case Stale => result := Some(IntegrationResult(StaleTarget, false, None));
        case Moved => result := Some(IntegrationResult(Integrated, true, Some(at.candidate)));
      }
    }

    method DoCancel()
      modifies this`cancelled
      ensures View() == Next(old(View()), refs, Cancel)
    {
      cancelled := true;
    }

    /**
    Seen by an observer once the deadline has passed: without a result it ends the attempt, with one
    it does nothing.
    */
    method OnDeadline()
      modifies this`cancelled, this`timedOut
      ensures View() == Next(old(View()), refs, Deadline)
      ensures timedOut <==> old(timedOut) || result.None?
      ensures cancelled <==> old(cancelled) || (result.None? && !old(timedOut))
    {
      if result.None? && !timedOut {
        timedOut := true;
        cancelled := true;
      }
    }

    method DoFinalize(valid: bool)
      modifies this`outcome
      ensures View() == Next(old(View()), refs, Finalize(valid))
      ensures outcome == Some(Succeeded) <==>
        && valid && result.Some?
        && (result.value.classification.Integrated? || result.value.classification.AlreadyApplied?)
        && !cancelled && !timedOut
      ensures outcome == Some(Cancelled) <==> cancelled
    {
      if result.Some? && Successful(result.value.classification) && !cancelled && !timedOut && valid {
        outcome := Some(Succeeded);
      } else {
        outcome := Some(if cancelled then Cancelled else Failed);
      }
    }

    method Take(e: Event)
      modifies this
      ensures View() == Next(old(View()), refs, e)
    {
      match e {
        case Start => if stage.Prepared? { stage := Starting; }
        case Begin => if stage.Starting? { DoBegin(); }
        case SourceRead(sha) => if stage.ReadingSource? { OnSourceRead(sha); }
        case TargetRead(threw) => if stage.ReadingTarget? { OnTargetRead(threw); }
        case MergePrepared(answer) => if stage.Preparing? { OnMergePrepared(answer); }
        case SwapHappens(fate) => if stage.Swapping? { OnSwap(fate); }
        case SwapReturns => if stage.Replying? { OnSwapReturns(); }
        case Cancel => DoCancel();
        case Deadline => OnDeadline();
        case OutsideWrite(sha) => target := sha;
        case Finalize(valid) => DoFinalize(valid);
      }
    }
  }

  /** Any interleaving on a new attempt: it goes as the replay of the events does, so the theorems above hold of it. */
  method Run(a: Attempt, events: seq<Event>)
    requires Fresh(a.View())
    modifies a
    ensures a.View() == Replay(old(a.View()), a.refs, events)
    ensures if a.writes == [] then a.target == Outside(events, old(a.target))
            else exists m: nat, j: nat, c :: OneWrite(a.View(), old(a.View()), a.refs, events, m, j, c)
    ensures a.result.Some? ==> (a.result.value.targetMoved <==> a.writes != [])
    ensures var v := VerdictOf(old(a.View()), a.refs, events);
      (a.stage.Finished? <==> !v.Underway?) && a.result == ResultIn(v)
    ensures Answers(Verdicts(old(a.View()), a.refs), events, a.outcome)
    ensures a.outcome == Some(Succeeded) ==>
      (a.writes != [] || FoundApplied(old(a.View()), a.refs, events)) && exists f: nat :: Finalized(events, f)
  {
    ghost var s := a.View();
    for i := 0 to |events|
      invariant a.View() == Replay(s, a.refs, events[..i])
    {
      a.Take(events[i]);
      assert events[..i + 1][..i] == events[..i];
    }
    assert events[..|events|] == events;
    AtMostOneWrite(s, a.refs, events);
    ResultsAreTrue(s, a.refs, events);
    VerdictExactly(s, a.refs, events);
    OutcomeExactly(s, a.refs, events);
  }
}
