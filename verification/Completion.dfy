/**
When a stage counts as complete: every declared write is bound, every requirement has
evidence, the result envelope, if there is one or one is required, fits its schema, and
there is satisfied evidence other than an exit code.
*/
module Completion {
  import opened Prelude

  datatype Requirement =
    | ResultEnvelope | NonEmptyDiff | Artifact(name: string) | SchemaCheck(name: string) | Sections(names: seq<string>)
    | Command(argv: seq<string>) | RepositoryState(state: string) | Verdict(profile: string)

  datatype EvidenceKind =
    | EnvelopeKind | DiffKind | ArtifactKind | SchemaKind | SectionsKind | CommandKind | StateKind | VerdictKind
    | ExitCodeKind | CleanupKind

  datatype Evidence = Evidence(kind: EvidenceKind, satisfied: bool, requirement: string)

  /** A parsed envelope: whether it fits the schema, and its artifact path if it has one. */
  datatype Envelope = Envelope(fitsSchema: bool, artifactPath: Option<string>)

  datatype Input = Input(
    writes: seq<string>, requirements: seq<Requirement>, outputs: seq<string>, evidence: seq<Evidence>,
    envelope: Option<Envelope>)

  datatype Report = Report(
    valid: bool, missingWrites: seq<string>, missingEvidence: seq<string>, envelopeValid: bool, exitCodeAlone: bool)

  function KindOf(r: Requirement): EvidenceKind {
    match r
    case ResultEnvelope => EnvelopeKind
    case NonEmptyDiff => DiffKind
    case Artifact(_) => ArtifactKind
    case SchemaCheck(_) => SchemaKind
    case Sections(_) => SectionsKind
    case Command(_) => CommandKind
    case RepositoryState(_) => StateKind
    case Verdict(_) => VerdictKind
  }

  predicate EvidenceMatches(r: Requirement, e: Evidence) {
    e.satisfied && e.kind == KindOf(r) &&
    match r
    case Artifact(name) => e.requirement == name || e.requirement == "artifact:" + name
    case SchemaCheck(name) => e.requirement == name || e.requirement == "schema_check:" + name
    case Verdict(profile) => e.requirement == profile || e.requirement == "verdict:" + profile
    case _ => true
  }

  function Joined(names: seq<string>, separator: string): string {
    if names == [] then "" else if |names| == 1 then names[0] else names[0] + separator + Joined(names[1..], separator)
  }

  /** How a requirement is named in a report. */
  function RequirementKey(r: Requirement): string {
    match r
    case ResultEnvelope => "result_envelope"
    case NonEmptyDiff => "non_empty_diff"
    case Artifact(name) => "artifact:" + name
    case SchemaCheck(name) => "schema_check:" + name
    case Sections(names) => "sections:" + Joined(names, ",")
    case Command(argv) => "command:" + Joined(argv, "\0")
    case RepositoryState(state) => "repository_state:" + state
    case Verdict(profile) => "verdict:" + profile
  }

  /** The fixed part of a key, and the name that follows it. */
  function KeyHead(r: Requirement): string {
    match r
    case ResultEnvelope => "result_envelope"
    case NonEmptyDiff => "non_empty_diff"
    case Artifact(_) => "artifact:"
    case SchemaCheck(_) => "schema_check:"
    case Sections(_) => "sections:"
    case Command(_) => "command:"
    case RepositoryState(_) => "repository_state:"
    case Verdict(_) => "verdict:"
  }

  /** What follows the fixed part. */
  function KeyTail(r: Requirement): string {
    match r
    case ResultEnvelope => ""
    case NonEmptyDiff => ""
    case Artifact(name) => name
    case SchemaCheck(name) => name
    case Sections(names) => Joined(names, [','])
    case Command(argv) => Joined(argv, ['\0'])
    case RepositoryState(state) => state
    case Verdict(profile) => profile
  }

  lemma KeySplits(r: Requirement)
    ensures RequirementKey(r) == KeyHead(r) + KeyTail(r)
  {
    assert [','] == "," && ['\0'] == "\0";
  }

  lemma HeadsDiffer(r: Requirement, q: Requirement)
    requires KeyHead(r)[0] == KeyHead(q)[0] && KeyHead(r)[2] == KeyHead(q)[2]
    ensures KeyHead(r) == KeyHead(q)
  {
  }

  /** Two keys are the same exactly if the kind and what follows it are. */
  lemma KeyParts(r: Requirement, q: Requirement)
    ensures RequirementKey(r) == RequirementKey(q) <==> KeyHead(r) == KeyHead(q) && KeyTail(r) == KeyTail(q)
  {
    KeySplits(r);
    KeySplits(q);
    var a, b := RequirementKey(r), RequirementKey(q);
    if a == b {
      assert a[0] == KeyHead(r)[0] && a[2] == KeyHead(r)[2] && b[0] == KeyHead(q)[0] && b[2] == KeyHead(q)[2];
      HeadsDiffer(r, q);
      assert a[|KeyHead(r)|..] == KeyTail(r) && b[|KeyHead(q)|..] == KeyTail(q);
    }
  }

  /** Words, at least one, that can be told apart once they are joined by `c`. */
  predicate Plain(words: seq<string>, c: char) {
    words != [] && forall w | w in words :: c !in w
  }

  /** More than one word leave a separator in the text. */
  lemma JoinedHolds(words: seq<string>, c: char)
    requires |words| > 1
    ensures c in Joined(words, [c])
  {
    assert Joined(words, [c])[|words[0]|] == c;
  }

  /** A text is cut at its first separator in one way only. */
  lemma SameFirst(u: string, v: string, x: string, y: string, c: char)
    requires c !in u && c !in v && u + [c] + x == v + [c] + y
    ensures u == v && x == y
  {
    var s, t := u + [c] + x, v + [c] + y;
    assert s[|u|] == c && t[|v|] == c;
    assert forall i | 0 <= i < |u| :: s[i] == u[i] && u[i] != c;
    assert forall i | 0 <= i < |v| :: t[i] == v[i] && v[i] != c;
    assert s[..|u|] == u && t[..|v|] == v && s[|u| + 1..] == x && t[|v| + 1..] == y;
  }

  /** Joining plain words loses nothing. */
  lemma {:induction false} JoinedInjective(a: seq<string>, b: seq<string>, c: char)
    requires Plain(a, c) && Plain(b, c) && Joined(a, [c]) == Joined(b, [c])
    ensures a == b
    decreases |a|
  {
    assert a[0] in a && b[0] in b;
    if |a| > 1 { JoinedHolds(a, c); }
    if |b| > 1 { JoinedHolds(b, c); }
    if |a| > 1 {
      SameFirst(a[0], b[0], Joined(a[1..], [c]), Joined(b[1..], [c]), c);
      JoinedInjective(a[1..], b[1..], c);
      assert a == [a[0]] + a[1..] && b == [b[0]] + b[1..];
    }
  }

  /** Another list of words is joined to the same text. */
  ghost predicate Shares(words: seq<string>, c: char) {
    exists b :: b != words && Joined(b, [c]) == Joined(words, [c])
  }

  lemma SharesWith(words: seq<string>, b: seq<string>, c: char)
    requires b != words && Joined(b, [c]) == Joined(words, [c])
    ensures Shares(words, c)
  {
  }

  /** Cutting the only word at a separator gives two words that are joined to the same text. */
  lemma CutShares(w: string, c: char)
    requires c in w
    ensures Shares([w], c)
  {
    var i :| 0 <= i < |w| && w[i] == c;
    var b := [w[..i], w[i + 1..]];
    assert b[1..] == [w[i + 1..]] && |b| != |[w]|;
    assert Joined(b, [c]) == w[..i] + [c] + w[i + 1..] == w;
    SharesWith([w], b, c);
  }

  /** A list of words shares its joined text with another list exactly unless it is one non-empty plain word. */
  lemma JoinedSharedExactly(words: seq<string>, c: char)
    ensures Shares(words, c) <==> !(|words| == 1 && words[0] != "" && c !in words[0])
  {
    if words == [] {
      SharesWith(words, [""], c);
    } else if |words| > 1 {
      var one := [Joined(words, [c])];
      assert |one| == 1;
      SharesWith(words, one, c);
    } else if words[0] == "" {
      SharesWith(words, [], c);
    } else if c in words[0] {
      CutShares(words[0], c);
      assert words == [words[0]];
    } else {
      forall b | Joined(b, [c]) == Joined(words, [c]) ensures b == words {
        if |b| > 1 { JoinedHolds(b, c); }
      }
    }
  }

  /** The words of a requirement and what joins them. */
  predicate Lists(r: Requirement) { r.Sections? || r.Command? }

  function Words(r: Requirement): seq<string>
    requires Lists(r)
  {
    if r.Sections? then r.names else r.argv
  }

  function SeparatorOf(r: Requirement): char { if r.Sections? then ',' else '\0' }

  /** Among requirements whose lists are plain, a reported key names its requirement. */
  lemma KeysDecide(r: Requirement, q: Requirement)
    requires Lists(r) ==> Plain(Words(r), SeparatorOf(r))
    requires Lists(q) ==> Plain(Words(q), SeparatorOf(q))
    ensures RequirementKey(r) == RequirementKey(q) <==> r == q
  {
    KeyParts(r, q);
    if RequirementKey(r) == RequirementKey(q) && Lists(r) {
      JoinedInjective(Words(r), Words(q), SeparatorOf(r));
    }
  }

  /** A requirement shares its key with another one exactly if it lists anything but one non-empty plain word. */
  lemma KeySharedExactly(r: Requirement)
    ensures (exists q :: q != r && RequirementKey(q) == RequirementKey(r)) <==>
      Lists(r) && !(|Words(r)| == 1 && Words(r)[0] != "" && SeparatorOf(r) !in Words(r)[0])
  {
    if Lists(r) {
      var c := SeparatorOf(r);
      JoinedSharedExactly(Words(r), c);
      if b :| b != Words(r) && Joined(b, [c]) == Joined(Words(r), [c]) {
        var q := if r.Sections? then Sections(b) else Command(b);
        KeyParts(q, r);
        assert q != r && RequirementKey(q) == RequirementKey(r);
      }
    }
    if q :| q != r && RequirementKey(q) == RequirementKey(r) {
      KeyParts(q, r);
      if Lists(r) { SharesWith(Words(r), Words(q), SeparatorOf(r)); }
    }
  }

  /** Two requirements that are reported under one key. */
  lemma KeysCollide()
    ensures RequirementKey(Sections(["a", "b"])) == RequirementKey(Sections(["a,b"])) && ["a", "b"] != ["a,b"]
  {
    assert ["a", "b"][1..] == ["b"] && Joined(["b"], ",") == "b" && Joined(["a,b"], ",") == "a,b";
    assert Joined(["a", "b"], ",") == "a" + "," + "b" == "a,b";
    assert |["a", "b"]| != |["a,b"]|;
  }

  // ------------------------------------------------------------------ what is meant

  /** What a kind of evidence is called. */
  function KindName(k: EvidenceKind): string {
    match k
    case EnvelopeKind => "result_envelope"
    case DiffKind => "non_empty_diff"
    case ArtifactKind => "artifact"
    case SchemaKind => "schema_check"
    case SectionsKind => "sections"
    case CommandKind => "command"
    case StateKind => "repository_state"
    case VerdictKind => "verdict"
    case ExitCodeKind => "exit_code"
    case CleanupKind => "process_cleanup"
  }

  /** The key of a requirement starts with the name of the kind of evidence it wants. */
  lemma KeyNamesKind(r: Requirement)
    ensures KeyHead(r) == KindName(KindOf(r)) + if r.ResultEnvelope? || r.NonEmptyDiff? then "" else ":"
  {
  }

  /** Evidence of the named kind counts, and for a named artifact, schema or verdict only under its name or its key. */
  lemma ProvedExactly(r: Requirement, evidence: seq<Evidence>)
    ensures Proved(r, evidence) <==>
      exists e :: e in evidence && e.satisfied && KindName(e.kind) <= RequirementKey(r) && KindOf(r) == e.kind
        && (r.Artifact? || r.SchemaCheck? || r.Verdict? ==>
              e.requirement == KeyTail(r) || e.requirement == RequirementKey(r))
  {
    KeySplits(r);
    KeyNamesKind(r);
    var name := KindName(KindOf(r));
    assert RequirementKey(r)[..|name|] == name;
    forall e ensures EvidenceMatches(r, e) <==>
      e.satisfied && KindName(e.kind) <= RequirementKey(r) && KindOf(r) == e.kind
        && (r.Artifact? || r.SchemaCheck? || r.Verdict? ==>
              e.requirement == KeyTail(r) || e.requirement == RequirementKey(r))
    {
    }
  }

  /** What is reported as missing says what would do: evidence of the kind that the key starts with, under that key. */
  lemma ReportedKeyHeals(r: Requirement, evidence: seq<Evidence>)
    ensures exists k ::
      KindName(k) <= RequirementKey(r) && Proved(r, evidence + [Evidence(k, true, RequirementKey(r))])
  {
    var e := Evidence(KindOf(r), true, RequirementKey(r));
    KeySplits(r);
    KeyNamesKind(r);
    var name := KindName(KindOf(r));
    assert RequirementKey(r)[..|name|] == name;
    assert e in evidence + [e] && EvidenceMatches(r, e);
  }

  ghost predicate EnvelopeFits(i: Input) {
    if i.envelope.Some? then i.envelope.value.fitsSchema else ResultEnvelope !in i.requirements
  }

  ghost predicate Complete(i: Input) {
    && (forall w | w in i.writes :: w in i.outputs)
    && (forall r | r in i.requirements :: Proved(r, i.evidence))
    && EnvelopeFits(i)
    && (exists e :: e in i.evidence && e.satisfied && e.kind != ExitCodeKind)
  }

  ghost predicate Proved(r: Requirement, evidence: seq<Evidence>) {
    exists e :: e in evidence && EvidenceMatches(r, e)
  }

  /** More outputs and more evidence, with the same envelope, never undo completeness. */
  lemma CompleteIsMonotone(i: Input, j: Input)
    requires Complete(i) && j.writes == i.writes && j.requirements == i.requirements && j.envelope == i.envelope
    requires (forall o | o in i.outputs :: o in j.outputs) && (forall e | e in i.evidence :: e in j.evidence)
    ensures Complete(j)
  {
    forall r | r in j.requirements ensures Proved(r, j.evidence) {
      assert Proved(r, i.evidence);
      var e :| e in i.evidence && EvidenceMatches(r, e);
      assert e in j.evidence;
    }
    var e :| e in i.evidence && e.satisfied && e.kind != ExitCodeKind;
    assert e in j.evidence;
  }

  /** Evidence of exit codes only never completes a stage, whatever the codes. */
  lemma ExitCodesNeverComplete(i: Input)
    requires forall e | e in i.evidence :: e.kind == ExitCodeKind
    ensures !Complete(i)
  {
  }

  // ---------------------------------------------------------------- as it is decided

  method SomeEvidence(evidence: seq<Evidence>, p: Evidence -> bool) returns (found: bool)
    ensures found <==> exists e :: e in evidence && p(e)
  {
    for k := 0 to |evidence|
      invariant forall j | 0 <= j < k :: !p(evidence[j])
    {
      if p(evidence[k]) { return true; }
    }
    return false;
  }

  method MissingWrites(writes: seq<string>, outputs: seq<string>) returns (missing: seq<string>)
    ensures forall w :: w in missing <==> w in writes && w !in outputs
  {
    missing := [];
    for k := 0 to |writes|
      invariant forall w :: w in missing <==> w in writes[..k] && w !in outputs
    {
      assert writes[..k + 1] == writes[..k] + [writes[k]];
      if writes[k] !in outputs { missing := missing + [writes[k]]; }
    }
    assert writes[..|writes|] == writes;
  }

  /** The requirement has no evidence, or is the envelope and the envelope does not fit. */
  ghost predicate Unmet(r: Requirement, evidence: seq<Evidence>, envelopeValid: bool) {
    !Proved(r, evidence) || (r.ResultEnvelope? && !envelopeValid)
  }

  /** `key` names a requirement that is not met. */
  ghost predicate Reported(key: string, requirements: seq<Requirement>, evidence: seq<Evidence>, envelopeValid: bool) {
    exists r :: r in requirements && RequirementKey(r) == key && Unmet(r, evidence, envelopeValid)
  }

  method MissingEvidence(requirements: seq<Requirement>, evidence: seq<Evidence>, envelopeValid: bool)
    returns (missing: seq<string>)
    ensures forall key :: key in missing <==> Reported(key, requirements, evidence, envelopeValid)
  {
    missing := [];
    for k := 0 to |requirements|
      invariant forall key :: key in missing <==> Reported(key, requirements[..k], evidence, envelopeValid)
    {
      var r := requirements[k];
      var matched := SomeEvidence(evidence, e => EvidenceMatches(r, e));
      assert matched <==> Proved(r, evidence) by {
        if Proved(r, evidence) {
          var e :| e in evidence && EvidenceMatches(r, e);
          assert ((e: Evidence) => EvidenceMatches(r, e))(e);
        }
      }
      ReportedNext(requirements[..k], r, evidence, envelopeValid);
      assert requirements[..k + 1] == requirements[..k] + [r];
      if !matched { missing := missing + [RequirementKey(r)]; }
      else if r.ResultEnvelope? && !envelopeValid && RequirementKey(r) !in missing {
        missing := missing + [RequirementKey(r)];
      }
    }
    assert requirements[..|requirements|] == requirements;
  }

  lemma ReportedNext(before: seq<Requirement>, r: Requirement, evidence: seq<Evidence>, envelopeValid: bool)
    ensures forall key :: Reported(key, before + [r], evidence, envelopeValid) <==>
      Reported(key, before, evidence, envelopeValid) || (key == RequirementKey(r) && Unmet(r, evidence, envelopeValid))
  {
    var more := before + [r];
    assert r in more && forall q :: q in more <==> q in before || q == r;
  }

  method ValidateStageCompletion(i: Input) returns (report: Report)
    ensures report.valid <==> Complete(i)
    ensures report.envelopeValid <==> EnvelopeFits(i)
    ensures forall w :: w in report.missingWrites <==> w in i.writes && w !in i.outputs
    ensures forall key :: key in report.missingEvidence <==> Reported(key, i.requirements, i.evidence, EnvelopeFits(i))
    ensures report.exitCodeAlone <==> i.evidence != [] && forall e | e in i.evidence :: e.kind == ExitCodeKind
  {
    var missingWrites := MissingWrites(i.writes, i.outputs);
    var envelopeValid := if i.envelope.Some? then i.envelope.value.fitsSchema else ResultEnvelope !in i.requirements;
    var missingEvidence := MissingEvidence(i.requirements, i.evidence, envelopeValid);
    var other := SomeEvidence(i.evidence, (e: Evidence) => e.kind != ExitCodeKind);
    var exitCodeAlone := i.evidence != [] && !other;
    var proof := SomeEvidence(i.evidence, (e: Evidence) => e.kind != ExitCodeKind && e.satisfied);
    var valid := !exitCodeAlone && missingWrites == [] && missingEvidence == [] && envelopeValid && proof;
    NothingMissing(i, missingWrites, missingEvidence, envelopeValid);
    report := Report(valid, missingWrites, missingEvidence, envelopeValid, exitCodeAlone);
  }

  lemma NothingMissing(i: Input, writes: seq<string>, keys: seq<string>, envelopeValid: bool)
    requires forall w :: w in writes <==> w in i.writes && w !in i.outputs
    requires forall key :: key in keys <==> Reported(key, i.requirements, i.evidence, envelopeValid)
    ensures writes == [] <==> forall w | w in i.writes :: w in i.outputs
    ensures envelopeValid ==> (keys == [] <==> forall r | r in i.requirements :: Proved(r, i.evidence))
  {
    if writes != [] { assert writes[0] in writes; }
    if keys != [] { assert keys[0] in keys; }
    forall r | r in i.requirements && !Proved(r, i.evidence) ensures RequirementKey(r) in keys {
      assert Unmet(r, i.evidence, envelopeValid);
    }
  }
}
