/**
An approval attempt under any sequence of calls. Whether the deadline has passed and
whether the completion check is satisfied are parameters of the calls.
*/
module ApprovalRunner {
  import opened Prelude

  datatype Decision = Decision(interactionId: string, expectedRevision: int, approve: bool)

  datatype AnswerStatus = Recorded | Stale

  datatype Outcome = Succeeded | Failed | Cancelled

  datatype Failure = CancelledFailure | TimeoutFailure | StaleFailure | RejectedFailure | ValidationFailure

  datatype Observation = Terminal(outcome: Outcome) | TimedOut | Waiting

  datatype Call = Answers(decision: Decision) | Observes(deadlinePassed: bool) | Cancels | Finalizes(valid: bool)

  datatype Reply =
    | Answered(status: AnswerStatus)
    | Threw
    | Observed(observation: Observation)
    | CancelDone
    | Finished(outcome: Outcome)

  /** What an attempt keeps. */
  datatype Ledger = Ledger(
    revision: int, decision: Option<Decision>, status: Option<AnswerStatus>, timedOut: bool, cancelled: bool,
    result: Option<Outcome>)

  const NEW := Ledger(1, None, None, false, false, None)

  /** What comes of an answer to the interaction `id`. */
  function AnswerReply(l: Ledger, id: string, d: Decision): Reply {
    if l.cancelled || l.timedOut then Threw
    else if l.decision.Some? || l.status == Some(Stale) then Answered(Stale)
    else if d.interactionId != id then Threw
    else Answered(if d.expectedRevision != l.revision then Stale else Recorded)
  }

  function ObserveReply(l: Ledger, deadlinePassed: bool): Observation {
    if l.result.Some? then Terminal(l.result.value)
    else if l.cancelled then Terminal(Cancelled)
    else if l.status == Some(Stale) then Terminal(Failed)
    else if l.decision.Some? then Terminal(if l.decision.value.approve then Succeeded else Failed)
    else if !l.timedOut && deadlinePassed then TimedOut
    else Waiting
  }

  function OutcomeOf(l: Ledger, valid: bool): Outcome {
    if && valid && l.decision.Some? && l.decision.value.approve && l.status == Some(Recorded)
       && !l.cancelled && !l.timedOut
    then Succeeded else if l.cancelled then Cancelled else Failed
  }

  function ReplyTo(l: Ledger, id: string, c: Call): Reply {
    match c
    case Answers(d) => AnswerReply(l, id, d)
    case Observes(late) => Observed(ObserveReply(l, late))
    case Cancels => CancelDone
    case Finalizes(valid) => Finished(OutcomeOf(l, valid))
  }

  function Next(l: Ledger, id: string, c: Call): Ledger {
    match c
    case Answers(d) =>
      var r := AnswerReply(l, id, d);
      if r == Answered(Recorded) then l.(decision := Some(d), status := Some(Recorded), revision := l.revision + 1)
      else if r == Answered(Stale) then l.(status := Some(Stale))
      else l
    case Observes(late) => if ObserveReply(l, late).TimedOut? then l.(timedOut := true) else l
    case Cancels => l.(cancelled := true)
    case Finalizes(valid) => l.(result := Some(OutcomeOf(l, valid)))
  }

  function Replay(id: string, calls: seq<Call>): Ledger {
    if calls == [] then NEW
    else
      var n := |calls| - 1;
      Next(Replay(id, calls[..n]), id, calls[n])
  }

  function Replies(id: string, calls: seq<Call>): (replies: seq<Reply>)
    ensures |replies| == |calls|
  {
    if calls == [] then []
    else
      var n := |calls| - 1;
      Replies(id, calls[..n]) + [ReplyTo(Replay(id, calls[..n]), id, calls[n])]
  }

  // --------------------------------------------------------------- what the replies tell

  /** The only recorded answer is that to call `j`. */
  ghost predicate RecordedAt(calls: seq<Call>, replies: seq<Reply>, j: nat) {
    && j < |calls| == |replies| && calls[j].Answers? && replies[j] == Answered(Recorded)
    && forall i | 0 <= i < |replies| && i != j :: replies[i] != Answered(Recorded)
  }

  /** Call `j` is the approval that a success at `k` rests on. */
  ghost predicate Approval(id: string, calls: seq<Call>, replies: seq<Reply>, j: nat, k: nat) {
    && j < k <= |calls| == |replies|
    && calls[j] == Answers(Decision(id, 1, true)) && replies[j] == Answered(Recorded)
    && (forall i | 0 <= i < k && i != j && calls[i].Answers? :: i < j && replies[i] == Threw)
    && (forall i | 0 <= i < k :: !calls[i].Cancels? && replies[i] != Observed(TimedOut))
  }

  ghost predicate Approved(id: string, calls: seq<Call>, replies: seq<Reply>, k: nat) {
    exists j: nat :: Approval(id, calls, replies, j, k)
  }

  // ---------------------------------------------------------------- one call at a time

  /** The flags and the decision are what calls and replies say. */
  ghost predicate Told(l: Ledger, id: string, calls: seq<Call>, replies: seq<Reply>) {
    && |calls| == |replies|
    && (!l.cancelled ==> forall i | 0 <= i < |calls| :: !calls[i].Cancels?)
    && (!l.timedOut ==> forall i | 0 <= i < |calls| :: replies[i] != Observed(TimedOut))
    && (l.status.None? ==> forall i | 0 <= i < |calls| && calls[i].Answers? :: replies[i] == Threw)
    && (l.decision.None? ==>
          && l.revision == 1 && (l.status.None? || l.status == Some(Stale))
          && forall i | 0 <= i < |calls| :: replies[i] != Answered(Recorded))
    && (l.decision.Some? ==>
          && !l.timedOut && (l.status == Some(Recorded) || l.status == Some(Stale))
          && l.decision.value.interactionId == id && l.decision.value.expectedRevision == 1
          && exists j: nat :: RecordedAt(calls, replies, j) && calls[j].decision == l.decision.value)
  }

  /** While the recorded answer stands, every other answer came before it and was refused. */
  ghost predicate Unanswered(l: Ledger, calls: seq<Call>, replies: seq<Reply>) {
    |calls| == |replies| && (l.status == Some(Recorded) && !l.cancelled && !l.timedOut ==>
      forall i, j
        | 0 <= i < |calls| && 0 <= j < |calls| && i != j && calls[i].Answers? && replies[j] == Answered(Recorded) ::
        i < j && replies[i] == Threw)
  }

  lemma ToldAnswers(l: Ledger, id: string, calls: seq<Call>, replies: seq<Reply>, d: Decision)
    requires Told(l, id, calls, replies)
    ensures var c := Answers(d); Told(Next(l, id, c), id, calls + [c], replies + [ReplyTo(l, id, c)])
  {
    var c, n := Answers(d), |calls|;
    var more, answers := calls + [c], replies + [ReplyTo(l, id, c)];
    assert more[n] == c && answers[n] == ReplyTo(l, id, c);
    if answers[n] == Answered(Recorded) {
      assert RecordedAt(more, answers, n);
    } else if l.decision.Some? {
      var j: nat :| RecordedAt(calls, replies, j) && calls[j].decision == l.decision.value;
      assert RecordedAt(more, answers, j);
    }
  }

  lemma ToldOther(l: Ledger, id: string, calls: seq<Call>, replies: seq<Reply>, c: Call)
    requires Told(l, id, calls, replies) && !c.Answers?
    ensures Told(Next(l, id, c), id, calls + [c], replies + [ReplyTo(l, id, c)])
  {
    var more, answers := calls + [c], replies + [ReplyTo(l, id, c)];
    if l.decision.Some? {
      var j: nat :| RecordedAt(calls, replies, j) && calls[j].decision == l.decision.value;
      assert RecordedAt(more, answers, j);
    }
  }

  lemma UnansweredStep(l: Ledger, id: string, calls: seq<Call>, replies: seq<Reply>, c: Call)
    requires Told(l, id, calls, replies) && Unanswered(l, calls, replies)
    ensures Unanswered(Next(l, id, c), calls + [c], replies + [ReplyTo(l, id, c)])
  {
  }

  lemma SuccessApproved(l: Ledger, id: string, calls: seq<Call>, replies: seq<Reply>, valid: bool)
    requires Told(l, id, calls, replies) && Unanswered(l, calls, replies) && OutcomeOf(l, valid).Succeeded?
    ensures var c := Finalizes(valid); Approved(id, calls + [c], replies + [ReplyTo(l, id, c)], |calls|)
  {
    var c := Finalizes(valid);
    var more, answers := calls + [c], replies + [ReplyTo(l, id, c)];
    var j: nat :| RecordedAt(calls, replies, j) && calls[j].decision == l.decision.value;
    assert forall i | 0 <= i < |calls| :: more[i] == calls[i] && answers[i] == replies[i];
    assert Approval(id, more, answers, j, |calls|);
  }

  lemma ApprovedGrows(id: string, calls: seq<Call>, replies: seq<Reply>, k: nat, c: Call, r: Reply)
    requires Approved(id, calls, replies, k)
    ensures Approved(id, calls + [c], replies + [r], k)
  {
    var j: nat :| Approval(id, calls, replies, j, k);
    assert Approval(id, calls + [c], replies + [r], j, k);
  }

  lemma {:induction false} ReplayTold(id: string, calls: seq<Call>)
    ensures Told(Replay(id, calls), id, calls, Replies(id, calls))
    ensures Unanswered(Replay(id, calls), calls, Replies(id, calls))
  {
    if calls != [] {
      var n := |calls| - 1;
      var before, c := calls[..n], calls[n];
      ReplayTold(id, before);
      if c.Answers? { ToldAnswers(Replay(id, before), id, before, Replies(id, before), c.decision); }
      else { ToldOther(Replay(id, before), id, before, Replies(id, before), c); }
      UnansweredStep(Replay(id, before), id, before, Replies(id, before), c);
      assert calls == before + [c];
    }
  }

  // ------------------------------------------------------------------------ theorems

  /**
  In every call sequence at most one answer is recorded, it stays the decision, and no timeout is
  ever seen beside it.
  */
  lemma DecisionStands(id: string, calls: seq<Call>)
    ensures var l, replies := Replay(id, calls), Replies(id, calls);
      if l.decision.None? then forall i | 0 <= i < |calls| :: replies[i] != Answered(Recorded)
      else
        && (exists j: nat :: RecordedAt(calls, replies, j) && calls[j].decision == l.decision.value)
        && forall i | 0 <= i < |calls| :: replies[i] != Observed(TimedOut)
  {
    ReplayTold(id, calls);
  }

  /** Finalising succeeds only on one recorded approval that no cancel, timeout or other answer came in the way of. */
  lemma {:induction false} SuccessRestsOnApproval(id: string, calls: seq<Call>, k: nat)
    requires k < |calls| && Replies(id, calls)[k] == Finished(Succeeded)
    ensures Approved(id, calls, Replies(id, calls), k)
  {
    var n := |calls| - 1;
    var before, c := calls[..n], calls[n];
    assert calls == before + [c];
    if k < n {
      SuccessRestsOnApproval(id, before, k);
      ApprovedGrows(id, before, Replies(id, before), k, c, ReplyTo(Replay(id, before), id, c));
    } else {
      ReplayTold(id, before);
      SuccessApproved(Replay(id, before), id, before, Replies(id, before), c.valid);
    }
  }

  /** The flags are up only for a reason. */
  ghost predicate Reasons(l: Ledger, calls: seq<Call>, replies: seq<Reply>) {
    && |calls| == |replies|
    && (l.cancelled ==> exists i :: 0 <= i < |calls| && calls[i].Cancels?)
    && (l.timedOut ==> exists i :: 0 <= i < |calls| && replies[i] == Observed(TimedOut))
    && (l.status == Some(Stale) ==> exists i :: 0 <= i < |calls| && calls[i].Answers? && replies[i] == Answered(Stale))
  }

  lemma ReasonsStep(l: Ledger, id: string, calls: seq<Call>, replies: seq<Reply>, c: Call)
    requires Reasons(l, calls, replies)
    ensures Reasons(Next(l, id, c), calls + [c], replies + [ReplyTo(l, id, c)])
  {
    var more, answers, n := calls + [c], replies + [ReplyTo(l, id, c)], |calls|;
    assert forall i | 0 <= i < n :: more[i] == calls[i] && answers[i] == replies[i];
    assert more[n] == c && answers[n] == ReplyTo(l, id, c);
    if l.cancelled {
      var i :| 0 <= i < n && calls[i].Cancels?;
      assert more[i].Cancels?;
    }
    if l.timedOut {
      var i :| 0 <= i < n && replies[i] == Observed(TimedOut);
      assert answers[i] == Observed(TimedOut);
    }
    if l.status == Some(Stale) {
      var i :| 0 <= i < n && calls[i].Answers? && replies[i] == Answered(Stale);
      assert more[i].Answers? && answers[i] == Answered(Stale);
    }
  }

  lemma {:induction false} ReplayReasons(id: string, calls: seq<Call>)
    ensures Reasons(Replay(id, calls), calls, Replies(id, calls))
  {
    if calls != [] {
      var n := |calls| - 1;
      ReplayReasons(id, calls[..n]);
      ReasonsStep(Replay(id, calls[..n]), id, calls[..n], Replies(id, calls[..n]), calls[n]);
      assert calls == calls[..n] + [calls[n]];
    }
  }

  lemma {:induction false} RepliesPrefix(id: string, calls: seq<Call>, k: nat)
    requires k <= |calls|
    ensures Replies(id, calls)[..k] == Replies(id, calls[..k])
    decreases |calls|
  {
    if k < |calls| {
      RepliesPrefix(id, calls[..|calls| - 1], k);
      assert calls[..|calls| - 1][..k] == calls[..k];
    } else {
      assert calls[..k] == calls && Replies(id, calls)[..k] == Replies(id, calls);
    }
  }

  /** A valid finalising after nothing but an approval in force succeeds. */
  lemma ApprovalSucceeds(id: string, calls: seq<Call>)
    requires Approved(id, calls, Replies(id, calls), |calls|)
    ensures OutcomeOf(Replay(id, calls), true).Succeeded?
  {
    var l, replies := Replay(id, calls), Replies(id, calls);
    ReplayTold(id, calls);
    ReplayReasons(id, calls);
    var j: nat :| Approval(id, calls, replies, j, |calls|);
    assert replies[j] == Answered(Recorded);
  }

  lemma {:induction false} ReplyAt(id: string, calls: seq<Call>, k: nat)
    requires k < |calls|
    ensures Replies(id, calls)[k] == ReplyTo(Replay(id, calls[..k]), id, calls[k])
  {
    RepliesPrefix(id, calls, k + 1);
    assert calls[..k + 1][..k] == calls[..k];
    assert Replies(id, calls)[k] == Replies(id, calls)[..k + 1][k];
  }

  lemma ApprovalWithin(id: string, calls: seq<Call>, replies: seq<Reply>, j: nat, k: nat)
    requires Approval(id, calls, replies, j, k)
    ensures Approval(id, calls[..k], replies[..k], j, k)
  {
  }

  /** Finalising succeeds exactly if the completion is valid and one approval, and nothing against it, came before. */
  lemma SuccessExactly(id: string, calls: seq<Call>, k: nat)
    requires k < |calls|
    ensures Replies(id, calls)[k] == Finished(Succeeded) <==>
      calls[k] == Finalizes(true) && Approved(id, calls, Replies(id, calls), k)
  {
    ReplyAt(id, calls, k);
    if Replies(id, calls)[k] == Finished(Succeeded) {
      SuccessRestsOnApproval(id, calls, k);
    } else if calls[k] == Finalizes(true) && Approved(id, calls, Replies(id, calls), k) {
      var j: nat :| Approval(id, calls, Replies(id, calls), j, k);
      ApprovalWithin(id, calls, Replies(id, calls), j, k);
      RepliesPrefix(id, calls, k);
      ApprovalSucceeds(id, calls[..k]);
    }
  }

  // --------------------------------------------------------------------- the attempt

  class Attempt {
    const interactionId: string
    var interactionRevision: int
    var decision: Option<Decision>
    var answerStatus: Option<AnswerStatus>
    var timedOut: bool
    var cancelled: bool
    var result: Option<Outcome>

    constructor (interactionId: string)
      ensures View() == NEW && this.interactionId == interactionId
    {
      this.interactionId := interactionId;
      interactionRevision, decision, answerStatus, timedOut, cancelled, result := 1, None, None, false, false, None;
    }

    ghost function View(): Ledger
      reads this
    {
      Ledger(interactionRevision, decision, answerStatus, timedOut, cancelled, result)
    }

    /**
    A first answer against the current revision is recorded; any other makes the attempt stale.
    `None` is an exception.
    */
    method Answer(d: Decision) returns (r: Option<AnswerStatus>)
      modifies this`decision, this`answerStatus, this`interactionRevision
      ensures View() == Next(old(View()), interactionId, Answers(d))
      ensures (if r.Some? then Answered(r.value) else Threw) == AnswerReply(old(View()), interactionId, d)
      ensures old(decision).Some? ==> decision == old(decision)
      ensures r.None? <==>
        || cancelled || timedOut
        || (old(decision).None? && old(answerStatus) != Some(Stale) && d.interactionId != interactionId)
      ensures r == Some(Recorded) <==>
        && !cancelled && !timedOut && old(decision).None? && old(answerStatus) != Some(Stale)
        && d.interactionId == interactionId && d.expectedRevision == old(interactionRevision)
      ensures r == Some(Recorded) ==> decision == Some(d) && interactionRevision == old(interactionRevision) + 1
    {
      if cancelled || timedOut { return None; }
      if decision.Some? || answerStatus == Some(Stale) {
        answerStatus := Some(Stale);
        return Some(Stale);
      }
      if d.interactionId != interactionId { return None; }
      if d.expectedRevision != interactionRevision {
        answerStatus := Some(Stale);
        return Some(Stale);
      }
      decision := Some(d);
      answerStatus := Some(Recorded);
      interactionRevision := interactionRevision + 1;
      return Some(Recorded);
    }

    /** A timeout is found only without result, cancel, stale answer and decision. */
    method Observe(deadlinePassed: bool) returns (r: Observation)
      modifies this`timedOut
      ensures View() == Next(old(View()), interactionId, Observes(deadlinePassed))
      ensures r == ObserveReply(old(View()), deadlinePassed)
      ensures result.Some? ==> r == Terminal(result.value)
      ensures result.None? && cancelled ==> r == Terminal(Cancelled)
      ensures result.None? && !cancelled && answerStatus == Some(Stale) ==> r == Terminal(Failed)
      ensures result.None? && !cancelled && answerStatus != Some(Stale) && decision.Some? ==>
        r == Terminal(if decision.value.approve then Succeeded else Failed)
      ensures r.TimedOut? <==>
        && deadlinePassed && !old(timedOut) && result.None? && !cancelled
        && answerStatus != Some(Stale) && decision.None?
      ensures r.TimedOut? <==> timedOut && !old(timedOut)
      ensures r.TimedOut? ==>
        deadlinePassed && decision.None? && !cancelled && answerStatus != Some(Stale) && result.None?
    {
      if result.Some? { return Terminal(result.value); }
      if cancelled { return Terminal(Cancelled); }
      if answerStatus == Some(Stale) { return Terminal(Failed); }
      if decision.Some? { return Terminal(if decision.value.approve then Succeeded else Failed); }
      if !timedOut && deadlinePassed {
        timedOut := true;
        return TimedOut;
      }
      return Waiting;
    }

    method Cancel()
      modifies this`cancelled
      ensures View() == Next(old(View()), interactionId, Cancels) && cancelled
    {
      cancelled := true;
    }

    method Finalize(valid: bool) returns (r: Outcome, failure: Option<Failure>)
      modifies this`result
      ensures View() == Next(old(View()), interactionId, Finalizes(valid)) && result == Some(r)
      ensures r.Succeeded? <==>
        && valid && decision.Some? && decision.value.approve && answerStatus == Some(Recorded)
        && !cancelled && !timedOut
      ensures r.Cancelled? <==> cancelled
      ensures r.Succeeded? <==> failure.None?
      ensures failure == Some(RejectedFailure) ==>
        decision.Some? && !decision.value.approve && answerStatus != Some(Stale) && !cancelled && !timedOut
    {
      var approved :=
        decision.Some? && decision.value.approve && answerStatus == Some(Recorded) && !cancelled && !timedOut;
      if approved && valid {
        result := Some(Succeeded);
        return Succeeded, None;
      }
      failure := Some(
        if cancelled then CancelledFailure else if timedOut then TimeoutFailure
        else if answerStatus == Some(Stale) then StaleFailure
        else if decision.Some? && !decision.value.approve then RejectedFailure
        else ValidationFailure);
      r := if cancelled then Cancelled else Failed;
      result := Some(r);
    }

    method Take(c: Call) returns (r: Reply)
      modifies this
      ensures View() == Next(old(View()), interactionId, c) && r == ReplyTo(old(View()), interactionId, c)
    {
      match c {
        case Answers(d) =>
          var s := Answer(d);
          r := if s.Some? then Answered(s.value) else Threw;
        case Observes(late) =>
          var o := Observe(late);
          r := Observed(o);
        case Cancels =>
          Cancel();
          r := CancelDone;
        case Finalizes(valid) =>
          var o, f := Finalize(valid);
          r := Finished(o);
      }
    }
  }

  /**
  Any sequence of calls on a new attempt is answered as the replay says: a recorded decision never changes and never
  meets a timeout, and success rests on one recorded approval.
  */
  method Run(a: Attempt, calls: seq<Call>) returns (replies: seq<Reply>)
    requires a.View() == NEW
    modifies a
    ensures a.View() == Replay(a.interactionId, calls) && replies == Replies(a.interactionId, calls)
    ensures if a.decision.None? then forall i | 0 <= i < |calls| :: replies[i] != Answered(Recorded)
            else (exists j: nat :: RecordedAt(calls, replies, j) && calls[j].decision == a.decision.value)
                 && forall i | 0 <= i < |calls| :: replies[i] != Observed(TimedOut)
    ensures forall k | 0 <= k < |calls| ::
      replies[k] == Finished(Succeeded) <==>
        calls[k] == Finalizes(true) && Approved(a.interactionId, calls, replies, k)
  {
    replies := [];
    for n := 0 to |calls|
      invariant a.View() == Replay(a.interactionId, calls[..n]) && replies == Replies(a.interactionId, calls[..n])
    {
      var r := a.Take(calls[n]);
      assert calls[..n + 1][..n] == calls[..n];
      replies := replies + [r];
    }
    assert calls[..|calls|] == calls;
    DecisionStands(a.interactionId, calls);
    forall k | 0 <= k < |calls|
      ensures replies[k] == Finished(Succeeded) <==>
        calls[k] == Finalizes(true) && Approved(a.interactionId, calls, replies, k)
    {
      SuccessExactly(a.interactionId, calls, k);
    }
  }
}
