/**
A command attempt under any sequence of calls: the process may exit at any time, be
cancelled or run into its deadline, and collecting, validating and finalising may come
in any order and repeatedly. Files and the parsed envelope are parameters.
*/
module CommandRunner {
  import opened Prelude
  import opened Completion

  datatype Outcome = Succeeded | Failed | Cancelled

  /**
  What a look at the disk finds: which writes are artifact files, the envelope, and which writes
  its artifact stands for.
  */
  datatype Found = Found(isArtifact: string -> bool, envelope: Option<Envelope>, standsFor: string -> bool)

  /** A success may rest on this: a schema-valid envelope that names an artifact, and every write bound. */
  ghost predicate Grounds(writes: seq<string>, i: Input) {
    && i.writes == writes && Complete(i)
    && i.envelope.Some? && i.envelope.value.fitsSchema
    && (forall w | w in writes :: w in i.outputs)
    && (exists e :: e in i.evidence && e.kind == EnvelopeKind && e.satisfied)
  }

  /** Evidence other than exit codes comes from an envelope, or from a clean-up after the attempt was ended. */
  ghost predicate Explained(evidence: seq<Evidence>, envelope: Option<Envelope>, ended: bool) {
    forall e | e in evidence ::
      e.kind == ExitCodeKind || (e.kind == EnvelopeKind && envelope.Some?) || (e.kind == CleanupKind && ended)
  }

  function EnvelopeEvidence(found: Found): seq<Evidence> {
    if found.envelope.Some? && found.envelope.value.artifactPath.Some? then [Evidence(EnvelopeKind, true, "")] else []
  }

  lemma CompleteHasGrounds(i: Input)
    requires Complete(i) && Explained(i.evidence, i.envelope, false)
    ensures Grounds(i.writes, i)
  {
    var e :| e in i.evidence && e.satisfied && e.kind != ExitCodeKind;
    assert e.kind == EnvelopeKind;
  }

  /** The outputs once the writes for which `there` holds are bound too, in the order they are declared. */
  function Bound(writes: seq<string>, outputs: seq<string>, there: string -> bool): seq<string> {
    if writes == [] then outputs
    else
      var n := |writes| - 1;
      var before := Bound(writes[..n], outputs, there);
      if there(writes[n]) && writes[n] !in before then before + [writes[n]] else before
  }

  ghost predicate NoneTwice(names: seq<string>) {
    forall i, j | 0 <= i < j < |names| :: names[i] != names[j]
  }

  lemma {:induction false} BoundFacts(writes: seq<string>, outputs: seq<string>, there: string -> bool)
    ensures forall o | o in Bound(writes, outputs, there) :: o in outputs || (o in writes && there(o))
    ensures forall w | w in writes && there(w) :: w in Bound(writes, outputs, there)
    ensures forall o | o in outputs :: o in Bound(writes, outputs, there)
    ensures NoneTwice(outputs) ==> NoneTwice(Bound(writes, outputs, there))
  {
    if writes != [] {
      var n := |writes| - 1;
      BoundFacts(writes[..n], outputs, there);
      assert writes == writes[..n] + [writes[n]];
    }
  }

  /** Everything an attempt keeps; `validated` is what the stored validation looked at. */
  datatype Ledger = Ledger(
    outputs: seq<string>, evidence: seq<Evidence>, envelope: Option<Envelope>, recordedExit: Option<int>,
    exitCode: Option<int>, timedOut: bool, cancelled: bool, cleanup: Option<bool>, validated: Option<Input>)

  const NEW := Ledger([], [], None, None, None, false, false, None, None)

  predicate Ended(l: Ledger) { l.cancelled || l.timedOut }

  /** An exit code if there is one or the attempt was ended, and a clean-up if there was one. */
  function ProcessEvidence(l: Ledger): seq<Evidence> {
    (if l.exitCode.Some? || Ended(l) then [Evidence(ExitCodeKind, true, "")] else [])
    + (if l.cleanup.Some? then [Evidence(CleanupKind, l.cleanup.value, "")] else [])
  }

  class Attempt {
    const writes: seq<string>
    const requirements: seq<Requirement>
    var outputs: seq<string>
    var evidence: seq<Evidence>
    var envelope: Option<Envelope>
    var recordedExit: Option<int>
    var exitCode: Option<int>
    var timedOut: bool
    var cancelled: bool
    var cleanup: Option<bool>
    var validation: Option<Report>
    /** What the stored validation looked at. */
    ghost var validated: Option<Input>

    constructor (writes: seq<string>, requirements: seq<Requirement>)
      ensures Valid() && this.writes == writes && this.requirements == requirements && View() == NEW
    {
      this.writes, this.requirements := writes, requirements;
      outputs, evidence, envelope, recordedExit, exitCode := [], [], None, None, None;
      timedOut, cancelled, cleanup, validation := false, false, None, None;
      validated := None;
    }

    ghost function View(): Ledger
      reads this
    {
      Ledger(outputs, evidence, envelope, recordedExit, exitCode, timedOut, cancelled, cleanup, validated)
    }

    /** The stored report is the report on what was validated. */
    ghost predicate Valid()
      reads this
    {
      && (validation.Some? <==> validated.Some?)
      && (validated.Some? ==> (validation.value.valid <==> Complete(validated.value)))
    }

    /** What a validation looks at now. */
    function Now(): Input
      reads this
    {
      Input(writes, requirements, outputs, evidence, envelope)
    }

    /** The process ends; a signal leaves no exit code. */
    method Exit(code: Option<int>)
      requires Valid()
      modifies this`exitCode
      ensures Valid() && exitCode == code
    {
      exitCode := code;
    }

    method Deadline(cleaned: bool)
      requires Valid()
      modifies this`timedOut, this`cleanup
      ensures Valid() && timedOut && cleanup == Some(cleaned)
    {
      timedOut := true;
      cleanup := Some(cleaned);
    }

    method Cancel(cleaned: bool)
      requires Valid()
      modifies this`cancelled, this`cleanup
      ensures Valid() && cancelled && cleanup == Some(cleaned)
    {
      cancelled := true;
      cleanup := Some(cleaned);
    }

    /** Adds what is found; nothing collected before is lost. */
    method Collect(found: Found)
      requires Valid()
      modifies this`outputs, this`evidence, this`envelope, this`recordedExit
      ensures Valid() && View() == Collected(old(View()), writes, found)
    {
      CollectProcess();
      Bind(found.isArtifact);
      CollectEnvelope(found);
    }

    /** The exit code, if there is one or the attempt was ended, and the clean-up. */
    method CollectProcess()
      modifies this`evidence, this`recordedExit
      ensures evidence == old(evidence) + ProcessEvidence(old(View()))
      ensures evidence == old(evidence)
        + (if exitCode.Some? || timedOut || cancelled then [Evidence(ExitCodeKind, true, "")] else [])
        + (if cleanup.Some? then [Evidence(CleanupKind, cleanup.value, "")] else [])
      ensures recordedExit ==
        if exitCode.Some? then exitCode else if timedOut || cancelled then Some(1) else old(recordedExit)
    {
      var code := if exitCode.Some? then exitCode else if timedOut || cancelled then Some(1) else None;
      if code.Some? {
        recordedExit := code;
        evidence := evidence + [Evidence(ExitCodeKind, true, "")];
      }
      if cleanup.Some? { evidence := evidence + [Evidence(CleanupKind, cleanup.value, "")]; }
    }

    /** The envelope, if one is found; one that names an artifact is evidence and binds the writes it stands for. */
    method CollectEnvelope(found: Found)
      modifies this`outputs, this`evidence, this`envelope
      ensures evidence == old(evidence) + EnvelopeEvidence(found)
      ensures envelope == if found.envelope.Some? then found.envelope else old(envelope)
      ensures outputs ==
        if EnvelopeEvidence(found) == [] then old(outputs) else Bound(writes, old(outputs), found.standsFor)
    {
      if found.envelope.Some? {
        envelope := found.envelope;
        if envelope.value.artifactPath.Some? {
          evidence := evidence + [Evidence(EnvelopeKind, true, "")];
          Bind(found.standsFor);
        }
      }
    }

    /** Binds the writes for which `there` holds and that are not bound yet. */
    method Bind(there: string -> bool)
      modifies this`outputs
      ensures outputs == Bound(writes, old(outputs), there)
    {
      for k := 0 to |writes|
        invariant outputs == Bound(writes[..k], old(outputs), there)
      {
        assert writes[..k + 1][..k] == writes[..k];
        if there(writes[k]) && writes[k] !in outputs { outputs := outputs + [writes[k]]; }
      }
      assert writes[..|writes|] == writes;
    }

    method Validate()
      requires Valid()
      modifies this`validation, this`validated
      ensures Valid() && validation.Some? && validated == Some(Now())
    {
      var report := ValidateStageCompletion(Now());
      validation := Some(report);
      validated := Some(Now());
    }

    /** Success rests on the stored validation, or on one made now if there is none. */
    method Finalize() returns (r: Outcome)
      requires Valid()
      modifies this`validation, this`validated
      ensures Valid() && validated == if old(validated).Some? then old(validated) else Some(Now())
      ensures r == OutcomeOf(View())
    {
      if validation.None? { Validate(); }
      var nonZero := recordedExit.Some? && recordedExit.value != 0;
      if validation.value.valid && !nonZero && !timedOut && !cancelled { return Succeeded; }
      return if cancelled then Cancelled else Failed;
    }
  }

  function Collected(l: Ledger, writes: seq<string>, found: Found): Ledger {
    var outputs := Bound(writes, l.outputs, found.isArtifact);
    l.(outputs := if EnvelopeEvidence(found) == [] then outputs else Bound(writes, outputs, found.standsFor),
       evidence := l.evidence + ProcessEvidence(l) + EnvelopeEvidence(found),
       envelope := if found.envelope.Some? then found.envelope else l.envelope,
       recordedExit := if l.exitCode.Some? then l.exitCode else if Ended(l) then Some(1) else l.recordedExit)
  }

  ghost function OutcomeOf(l: Ledger): Outcome {
    if && l.validated.Some? && Complete(l.validated.value) && !Ended(l)
       && (l.recordedExit.None? || l.recordedExit.value == 0)
    then Succeeded else if l.cancelled then Cancelled else Failed
  }

  // ------------------------------------------------------------------- whole runs

  datatype Call =
    | Exits(code: Option<int>)
    | TimesOut(cleaned: bool)
    | Cancels(cleaned: bool)
    | Collects(found: Found)
    | Validates
    | Finalizes

  function Next(l: Ledger, writes: seq<string>, requirements: seq<Requirement>, c: Call): Ledger {
    var input := Some(Input(writes, requirements, l.outputs, l.evidence, l.envelope));
    match c
    case Exits(code) => l.(exitCode := code)
    case TimesOut(cleaned) => l.(timedOut := true, cleanup := Some(cleaned))
    case Cancels(cleaned) => l.(cancelled := true, cleanup := Some(cleaned))
    case Collects(found) => Collected(l, writes, found)
    case Validates => l.(validated := input)
    case Finalizes => if l.validated.None? then l.(validated := input) else l
  }

  /** What an attempt keeps after a sequence of calls. */
  function Replay(writes: seq<string>, requirements: seq<Requirement>, calls: seq<Call>): Ledger {
    if calls == [] then NEW
    else
      var n := |calls| - 1;
      Next(Replay(writes, requirements, calls[..n]), writes, requirements, calls[n])
  }

  // what the calls alone tell

  predicate FitsSchema(c: Call) {
    c.Collects? && c.found.envelope.Some? && c.found.envelope.value.fitsSchema
  }

  predicate NamesArtifact(c: Call) {
    c.Collects? && c.found.envelope.Some? && c.found.envelope.value.artifactPath.Some?
  }

  /** This call finds the write `w`, as a file or by the artifact of the envelope. */
  predicate Finds(c: Call, w: string) {
    c.Collects? && (c.found.isArtifact(w) || (NamesArtifact(c) && c.found.standsFor(w)))
  }

  /** The exit code of the process as far as it is known. */
  function LastExit(calls: seq<Call>): Option<int> {
    if calls == [] then None
    else
      var n := |calls| - 1;
      if calls[n].Exits? then calls[n].code else LastExit(calls[..n])
  }

  ghost predicate EndedBy(calls: seq<Call>) {
    exists j :: 0 <= j < |calls| && (calls[j].Cancels? || calls[j].TimesOut?)
  }

  /** The exit code that collecting has recorded: the last one known, or 1 for an attempt that was ended. */
  ghost function RecordedExit(calls: seq<Call>): Option<int> {
    if calls == [] then None
    else
      var n := |calls| - 1;
      var known := LastExit(calls[..n]);
      if calls[n].Collects? && known.Some? then known
      else if calls[n].Collects? && EndedBy(calls[..n]) then Some(1)
      else RecordedExit(calls[..n])
  }

  /** What a success after these calls must rest on. */
  ghost predicate Earned(writes: seq<string>, calls: seq<Call>) {
    && (exists j :: 0 <= j < |calls| && FitsSchema(calls[j]))
    && (exists j :: 0 <= j < |calls| && NamesArtifact(calls[j]))
    && (forall w | w in writes :: FoundBy(calls, w))
    && (RecordedExit(calls).None? || RecordedExit(calls).value == 0)
    && !EndedBy(calls)
  }

  ghost predicate FoundBy(calls: seq<Call>, w: string) {
    exists j :: 0 <= j < |calls| && Finds(calls[j], w)
  }

  // ------------------------------------------------------- from the ledger to the calls

  /** What is kept was found by one of the calls. */
  ghost predicate Backed(calls: seq<Call>, outputs: seq<string>, evidence: seq<Evidence>, envelope: Option<Envelope>) {
    && (envelope.Some? ==> exists j :: 0 <= j < |calls| && calls[j].Collects? && calls[j].found.envelope == envelope)
    && (forall e | e in evidence && e.kind == EnvelopeKind :: exists j :: 0 <= j < |calls| && NamesArtifact(calls[j]))
    && (forall o | o in outputs :: FoundBy(calls, o))
  }

  lemma BackedGrows(
    calls: seq<Call>, c: Call, outputs: seq<string>, evidence: seq<Evidence>, envelope: Option<Envelope>)
    requires Backed(calls, outputs, evidence, envelope)
    ensures Backed(calls + [c], outputs, evidence, envelope)
  {
    var more := calls + [c];
    assert forall j | 0 <= j < |calls| :: more[j] == calls[j];
    forall o | o in outputs ensures FoundBy(more, o) {
      assert FoundBy(calls, o);
      var j :| 0 <= j < |calls| && Finds(calls[j], o);
      assert Finds(more[j], o);
    }
    if envelope.Some? {
      var j :| 0 <= j < |calls| && calls[j].Collects? && calls[j].found.envelope == envelope;
      assert more[j].Collects?;
    }
    if e :| e in evidence && e.kind == EnvelopeKind {
      var j :| 0 <= j < |calls| && NamesArtifact(calls[j]);
      assert NamesArtifact(more[j]);
    }
  }

  lemma CollectBacked(calls: seq<Call>, l: Ledger, writes: seq<string>, found: Found)
    requires Backed(calls, l.outputs, l.evidence, l.envelope)
    ensures var m := Collected(l, writes, found);
      Backed(calls + [Collects(found)], m.outputs, m.evidence, m.envelope)
  {
    var more, m := calls + [Collects(found)], Collected(l, writes, found);
    BackedGrows(calls, Collects(found), l.outputs, l.evidence, l.envelope);
    BoundFacts(writes, l.outputs, found.isArtifact);
    BoundFacts(writes, Bound(writes, l.outputs, found.isArtifact), found.standsFor);
    assert more[|calls|] == Collects(found);
    forall o | o in m.outputs ensures FoundBy(more, o) {
      if o !in l.outputs { assert Finds(more[|calls|], o); }
    }
    forall e | e in m.evidence && e.kind == EnvelopeKind ensures exists j :: 0 <= j < |more| && NamesArtifact(more[j]) {
      if e !in l.evidence { assert NamesArtifact(more[|calls|]); }
    }
  }

  /** The flags and exit codes are what the calls say. */
  ghost predicate ToldFlags(calls: seq<Call>, l: Ledger) {
    && (l.cleanup.Some? ==> Ended(l)) && (Ended(l) <==> EndedBy(calls))
    && l.exitCode == LastExit(calls) && l.recordedExit == RecordedExit(calls)
  }

  /** What is kept, and what was validated, was found by the calls. */
  ghost predicate ToldKept(writes: seq<string>, calls: seq<Call>, l: Ledger) {
    && Backed(calls, l.outputs, l.evidence, l.envelope) && Explained(l.evidence, l.envelope, Ended(l))
    && (l.validated.Some? ==>
          var i := l.validated.value;
          && i.writes == writes && Backed(calls, i.outputs, i.evidence, i.envelope)
          && Explained(i.evidence, i.envelope, Ended(l)))
  }

  /** The ledger is what the calls say. */
  ghost predicate Told(writes: seq<string>, calls: seq<Call>, l: Ledger) {
    ToldFlags(calls, l) && ToldKept(writes, calls, l)
  }

  lemma EndedGrows(calls: seq<Call>, c: Call)
    ensures EndedBy(calls + [c]) <==> EndedBy(calls) || c.Cancels? || c.TimesOut?
  {
    var more := calls + [c];
    assert forall j | 0 <= j < |calls| :: more[j] == calls[j];
    assert more[|calls|] == c;
  }

  lemma FlagsStep(writes: seq<string>, requirements: seq<Requirement>, calls: seq<Call>, l: Ledger, c: Call)
    requires ToldFlags(calls, l)
    ensures ToldFlags(calls + [c], Next(l, writes, requirements, c))
  {
    EndedGrows(calls, c);
    assert (calls + [c])[..|calls|] == calls;
  }

  lemma ValidatedStep(writes: seq<string>, requirements: seq<Requirement>, calls: seq<Call>, l: Ledger, c: Call)
    requires ToldKept(writes, calls, l) && !c.Collects?
    ensures ToldKept(writes, calls + [c], Next(l, writes, requirements, c))
  {
    BackedGrows(calls, c, l.outputs, l.evidence, l.envelope);
    if l.validated.Some? {
      var i := l.validated.value;
      BackedGrows(calls, c, i.outputs, i.evidence, i.envelope);
    }
  }

  lemma CollectStep(writes: seq<string>, calls: seq<Call>, l: Ledger, found: Found)
    requires ToldFlags(calls, l) && ToldKept(writes, calls, l)
    ensures ToldKept(writes, calls + [Collects(found)], Collected(l, writes, found))
  {
    CollectBacked(calls, l, writes, found);
    if l.validated.Some? {
      var i := l.validated.value;
      BackedGrows(calls, Collects(found), i.outputs, i.evidence, i.envelope);
    }
  }

  lemma ToldStep(writes: seq<string>, requirements: seq<Requirement>, calls: seq<Call>, l: Ledger, c: Call)
    requires Told(writes, calls, l)
    ensures Told(writes, calls + [c], Next(l, writes, requirements, c))
  {
    FlagsStep(writes, requirements, calls, l, c);
    if c.Collects? {
      CollectStep(writes, calls, l, c.found);
    } else {
      ValidatedStep(writes, requirements, calls, l, c);
    }
  }

  lemma {:induction false} ReplayTold(writes: seq<string>, requirements: seq<Requirement>, calls: seq<Call>)
    ensures Told(writes, calls, Replay(writes, requirements, calls))
  {
    if calls != [] {
      var n := |calls| - 1;
      ReplayTold(writes, requirements, calls[..n]);
      ToldStep(writes, requirements, calls[..n], Replay(writes, requirements, calls[..n]), calls[n]);
      assert calls == calls[..n] + [calls[n]];
    }
  }

  /** Finalising after these calls succeeds only if they have earned it. */
  lemma SuccessIsEarned(writes: seq<string>, requirements: seq<Requirement>, calls: seq<Call>)
    requires OutcomeOf(Next(Replay(writes, requirements, calls), writes, requirements, Finalizes)).Succeeded?
    ensures Earned(writes, calls)
  {
    var l := Replay(writes, requirements, calls);
    ReplayTold(writes, requirements, calls);
    var i := Next(l, writes, requirements, Finalizes).validated.value;
    CompleteHasGrounds(i);
    forall w | w in writes ensures FoundBy(calls, w) { assert w in i.outputs; }
    var e :| e in i.evidence && e.kind == EnvelopeKind && e.satisfied;
    var j :| 0 <= j < |calls| && calls[j].Collects? && calls[j].found.envelope == i.envelope;
    assert FitsSchema(calls[j]);
  }

  // ------------------------------------------------------- when a success is certain

  /** The envelope that was found last. */
  function LastEnvelope(calls: seq<Call>): Option<Envelope> {
    if calls == [] then None
    else
      var n := |calls| - 1;
      if calls[n].Collects? && calls[n].found.envelope.Some? then calls[n].found.envelope else LastEnvelope(calls[..n])
  }

  ghost predicate SomeNamesArtifact(calls: seq<Call>) { exists j :: 0 <= j < |calls| && NamesArtifact(calls[j]) }

  predicate HasEnvelopeEvidence(evidence: seq<Evidence>) { exists e | e in evidence :: e.kind == EnvelopeKind }

  /** Exactly what the calls found is kept. */
  ghost predicate KeptExactly(
    writes: seq<string>, calls: seq<Call>, outputs: seq<string>, evidence: seq<Evidence>, envelope: Option<Envelope>)
  {
    && (forall o :: o in outputs <==> o in writes && FoundBy(calls, o))
    && NoneTwice(outputs) && envelope == LastEnvelope(calls)
    && (HasEnvelopeEvidence(evidence) <==> SomeNamesArtifact(calls))
    && (forall e | e in evidence && e.kind == EnvelopeKind :: e.satisfied)
  }

  lemma FoundGrows(calls: seq<Call>, c: Call, w: string)
    ensures FoundBy(calls + [c], w) <==> FoundBy(calls, w) || Finds(c, w)
  {
    var more := calls + [c];
    assert forall j | 0 <= j < |calls| :: more[j] == calls[j];
    assert more[|calls|] == c;
    if FoundBy(calls, w) {
      var j :| 0 <= j < |calls| && Finds(calls[j], w);
      assert Finds(more[j], w);
    }
  }

  lemma NamesGrows(calls: seq<Call>, c: Call)
    ensures SomeNamesArtifact(calls + [c]) <==> SomeNamesArtifact(calls) || NamesArtifact(c)
    ensures LastEnvelope(calls + [c]) ==
      if c.Collects? && c.found.envelope.Some? then c.found.envelope else LastEnvelope(calls)
  {
    var more := calls + [c];
    assert forall j | 0 <= j < |calls| :: more[j] == calls[j];
    assert more[|calls|] == c && more[..|calls|] == calls;
    if SomeNamesArtifact(calls) {
      var j :| 0 <= j < |calls| && NamesArtifact(calls[j]);
      assert NamesArtifact(more[j]);
    }
  }

  lemma KeptOther(
    writes: seq<string>, calls: seq<Call>, c: Call, outputs: seq<string>, evidence: seq<Evidence>,
    envelope: Option<Envelope>)
    requires KeptExactly(writes, calls, outputs, evidence, envelope) && !c.Collects?
    ensures KeptExactly(writes, calls + [c], outputs, evidence, envelope)
  {
    NamesGrows(calls, c);
    forall o ensures FoundBy(calls + [c], o) <==> FoundBy(calls, o) { FoundGrows(calls, c, o); }
  }

  lemma KeptCollect(writes: seq<string>, calls: seq<Call>, l: Ledger, found: Found)
    requires KeptExactly(writes, calls, l.outputs, l.evidence, l.envelope)
    ensures var m := Collected(l, writes, found);
      KeptExactly(writes, calls + [Collects(found)], m.outputs, m.evidence, m.envelope)
  {
    var c, m := Collects(found), Collected(l, writes, found);
    NamesGrows(calls, c);
    BoundFacts(writes, l.outputs, found.isArtifact);
    BoundFacts(writes, Bound(writes, l.outputs, found.isArtifact), found.standsFor);
    forall o ensures o in m.outputs <==> o in writes && FoundBy(calls + [c], o) { FoundGrows(calls, c, o); }
    EvidenceGrows(l.evidence, ProcessEvidence(l), EnvelopeEvidence(found));
  }

  lemma EvidenceGrows(before: seq<Evidence>, process: seq<Evidence>, envelope: seq<Evidence>)
    requires forall e | e in process :: e.kind != EnvelopeKind
    requires forall e | e in envelope :: e.kind == EnvelopeKind
    ensures HasEnvelopeEvidence(before + process + envelope) <==> HasEnvelopeEvidence(before) || envelope != []
  {
    if envelope != [] { assert envelope[0] in before + process + envelope; }
    if HasEnvelopeEvidence(before) {
      var e :| e in before && e.kind == EnvelopeKind;
      assert e in before + process + envelope;
    }
  }

  /** Where what is validated was fixed: at the last validation, or at a finalising if there was none before it. */
  function ValidatedAt(calls: seq<Call>): (p: Option<nat>)
    ensures p.Some? ==> p.value < |calls|
  {
    if calls == [] then None
    else
      var n := |calls| - 1;
      var before := ValidatedAt(calls[..n]);
      if calls[n].Validates? || (calls[n].Finalizes? && before.None?) then Some(n) else before
  }

  /** The calls that a finalising after these goes by. */
  function Considered(calls: seq<Call>): seq<Call> {
    if ValidatedAt(calls).Some? then calls[..ValidatedAt(calls).value] else calls
  }

  ghost predicate ToldExactly(writes: seq<string>, requirements: seq<Requirement>, calls: seq<Call>, l: Ledger) {
    && KeptExactly(writes, calls, l.outputs, l.evidence, l.envelope)
    && (l.validated.Some? <==> ValidatedAt(calls).Some?)
    && (l.validated.Some? ==>
          var i := l.validated.value;
          && i.writes == writes && i.requirements == requirements
          && KeptExactly(writes, Considered(calls), i.outputs, i.evidence, i.envelope))
  }

  lemma ConsideredGrows(calls: seq<Call>, c: Call)
    ensures var more := calls + [c];
      if c.Validates? || (c.Finalizes? && ValidatedAt(calls).None?)
      then ValidatedAt(more) == Some(|calls|) && Considered(more) == calls
      else
        && ValidatedAt(more) == ValidatedAt(calls)
        && (ValidatedAt(calls).Some? ==> Considered(more) == Considered(calls))
  {
    assert (calls + [c])[..|calls|] == calls;
    if ValidatedAt(calls).Some? {
      var p := ValidatedAt(calls).value;
      assert (calls + [c])[..p] == calls[..p];
    }
  }

  lemma ToldExactlyStep(writes: seq<string>, requirements: seq<Requirement>, calls: seq<Call>, l: Ledger, c: Call)
    requires ToldExactly(writes, requirements, calls, l)
    ensures ToldExactly(writes, requirements, calls + [c], Next(l, writes, requirements, c))
  {
    ConsideredGrows(calls, c);
    if c.Collects? {
      KeptCollect(writes, calls, l, c.found);
    } else {
      KeptOther(writes, calls, c, l.outputs, l.evidence, l.envelope);
    }
  }

  lemma {:induction false} ReplayToldExactly(writes: seq<string>, requirements: seq<Requirement>, calls: seq<Call>)
    ensures ToldExactly(writes, requirements, calls, Replay(writes, requirements, calls))
  {
    if calls != [] {
      var n := |calls| - 1;
      ReplayToldExactly(writes, requirements, calls[..n]);
      ToldExactlyStep(writes, requirements, calls[..n], Replay(writes, requirements, calls[..n]), calls[n]);
      assert calls == calls[..n] + [calls[n]];
    }
  }

  /** Evidence of an attempt that was not ended proves a required envelope, and nothing else. */
  lemma ProvedOnlyEnvelope(r: Requirement, evidence: seq<Evidence>, envelope: Option<Envelope>)
    requires Explained(evidence, envelope, false)
    requires forall e | e in evidence && e.kind == EnvelopeKind :: e.satisfied
    ensures Proved(r, evidence) <==> r.ResultEnvelope? && HasEnvelopeEvidence(evidence)
  {
    if r.ResultEnvelope? && HasEnvelopeEvidence(evidence) {
      var e :| e in evidence && e.kind == EnvelopeKind;
      assert EvidenceMatches(r, e);
    }
  }

  /** The calls bring a success about: what they found, and how the process ended. */
  ghost predicate Brings(writes: seq<string>, requirements: seq<Requirement>, calls: seq<Call>) {
    var seen := Considered(calls);
    && !EndedBy(calls) && (RecordedExit(calls).None? || RecordedExit(calls).value == 0)
    && (forall w | w in writes :: FoundBy(seen, w)) && SomeNamesArtifact(seen)
    && LastEnvelope(seen).Some? && LastEnvelope(seen).value.fitsSchema
    && forall r | r in requirements :: r.ResultEnvelope?
  }

  lemma CompleteExactly(writes: seq<string>, requirements: seq<Requirement>, seen: seq<Call>, i: Input)
    requires i.writes == writes && i.requirements == requirements && Explained(i.evidence, i.envelope, false)
    requires KeptExactly(writes, seen, i.outputs, i.evidence, i.envelope)
    ensures Complete(i) <==>
      && (forall w | w in writes :: FoundBy(seen, w)) && SomeNamesArtifact(seen)
      && LastEnvelope(seen).Some? && LastEnvelope(seen).value.fitsSchema
      && forall r | r in requirements :: r.ResultEnvelope?
  {
    forall r ensures Proved(r, i.evidence) <==> r.ResultEnvelope? && HasEnvelopeEvidence(i.evidence) {
      ProvedOnlyEnvelope(r, i.evidence, i.envelope);
    }
    if HasEnvelopeEvidence(i.evidence) {
      var e :| e in i.evidence && e.kind == EnvelopeKind;
      assert e.satisfied;
    }
  }

  /**
  Finalising after these calls succeeds exactly if what was collected up to the validation binds every write and ends
  in a schema-valid envelope, one of which named an artifact, nothing but an envelope is required, the recorded exit
  code is absent or zero, and the attempt was not ended.
  */
  lemma SuccessExactly(writes: seq<string>, requirements: seq<Requirement>, calls: seq<Call>)
    ensures OutcomeOf(Next(Replay(writes, requirements, calls), writes, requirements, Finalizes)).Succeeded? <==>
      Brings(writes, requirements, calls)
  {
    var l := Replay(writes, requirements, calls);
    var i := Next(l, writes, requirements, Finalizes).validated.value;
    ReplayTold(writes, requirements, calls);
    ReplayToldExactly(writes, requirements, calls);
    if !EndedBy(calls) { CompleteExactly(writes, requirements, Considered(calls), i); }
  }

  /** A stage that requires a diff fails, although its command did all that the runner can see. */
  lemma CommandNeverProves()
    ensures var found := Found(w => true, Some(Envelope(true, Some("a"))), w => true);
      var calls := [Exits(Some(0)), Collects(found), Validates];
      OutcomeOf(Next(Replay([], [NonEmptyDiff], calls), [], [NonEmptyDiff], Finalizes)).Failed?
  {
    var found := Found(w => true, Some(Envelope(true, Some("a"))), w => true);
    var calls := [Exits(Some(0)), Collects(found), Validates];
    SuccessExactly([], [NonEmptyDiff], calls);
    assert NonEmptyDiff in [NonEmptyDiff];
    ReplayTold([], [NonEmptyDiff], calls);
    assert !EndedBy(calls);
  }

  /** What call `k` answers: an outcome if it finalises. */
  ghost function Reported(
    writes: seq<string>, requirements: seq<Requirement>, calls: seq<Call>, k: nat): Option<Outcome>
    requires k < |calls|
  {
    if calls[k].Finalizes? then Some(OutcomeOf(Replay(writes, requirements, calls[..k + 1]))) else None
  }

  /**
  Any sequence of calls on a new attempt: finalising answers as the replay of the calls before it says, and with
  success only if they have earned it.
  */
  method Run(a: Attempt, calls: seq<Call>) returns (outcomes: seq<Option<Outcome>>)
    requires a.Valid() && a.View() == NEW
    modifies a
    ensures |outcomes| == |calls|
    ensures forall k | 0 <= k < |calls| :: outcomes[k] == Reported(a.writes, a.requirements, calls, k)
    ensures forall k | 0 <= k < |calls| ::
      outcomes[k] == Some(Succeeded) <==> calls[k].Finalizes? && Brings(a.writes, a.requirements, calls[..k])
    ensures forall k | 0 <= k < |calls| && outcomes[k] == Some(Succeeded) :: Earned(a.writes, calls[..k])
  {
    outcomes := [];
    for i := 0 to |calls|
      invariant a.Valid() && |outcomes| == i && a.View() == Replay(a.writes, a.requirements, calls[..i])
      invariant forall k | 0 <= k < i ::
        outcomes[k] == Reported(a.writes, a.requirements, calls, k)
    {
      var r := Take(a, calls[i]);
      assert calls[..i + 1][..i] == calls[..i];
      outcomes := outcomes + [r];
    }
    assert calls[..|calls|] == calls;
    forall k | 0 <= k < |calls|
      ensures outcomes[k] == Some(Succeeded) <==> calls[k].Finalizes? && Brings(a.writes, a.requirements, calls[..k])
      ensures outcomes[k] == Some(Succeeded) ==> Earned(a.writes, calls[..k])
    {
      ReportedExactly(a.writes, a.requirements, calls, k);
    }
  }

  lemma ReportedExactly(writes: seq<string>, requirements: seq<Requirement>, calls: seq<Call>, k: nat)
    requires k < |calls|
    ensures Reported(writes, requirements, calls, k) == Some(Succeeded) <==>
      calls[k].Finalizes? && Brings(writes, requirements, calls[..k])
    ensures Reported(writes, requirements, calls, k) == Some(Succeeded) ==> Earned(writes, calls[..k])
  {
    assert calls[..k + 1][..k] == calls[..k];
    SuccessExactly(writes, requirements, calls[..k]);
    if Reported(writes, requirements, calls, k) == Some(Succeeded) {
      SuccessIsEarned(writes, requirements, calls[..k]);
    }
  }

  method Take(a: Attempt, c: Call) returns (r: Option<Outcome>)
    requires a.Valid()
    modifies a
    ensures a.Valid() && a.View() == Next(old(a.View()), a.writes, a.requirements, c)
    ensures r == if c.Finalizes? then Some(OutcomeOf(a.View())) else None
  {
    r := None;
    match c {
      case Exits(code) => a.Exit(code);
      case TimesOut(cleaned) => a.Deadline(cleaned);
      case Cancels(cleaned) => a.Cancel(cleaned);
      case Collects(found) => a.Collect(found);
      case Validates => a.Validate();
      case Finalizes =>
        var o := a.Finalize();
        r := Some(o);
    }
  }
}
