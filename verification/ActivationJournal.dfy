/**
The activation journal of the runtime manager: the active descriptor, the stored
compatibility reports and the activation records, each a file that is written in
several filesystem steps. A hook stands before every step; there the operation may
fail or the process may die. Version checks, the probe and the promotion suite are
parameters.
*/
module ActivationJournal {
  import opened Prelude

  // -------------------------------------------------------------------- values

  datatype Version = Version(major: nat, minor: nat, patch: nat)

  datatype SourceMode = Managed | External

  datatype Identity = Identity(
    sourceMode: SourceMode, entryPath: string, version: Version, buildSha: string,
    binarySha256: string, archiveSha256: Option<string>)

  datatype Status = Pass | Fail | Blocked

  datatype Check = Check(name: string, status: Status)

  datatype Report = Report(
    schemaVersion: int, suiteVersion: int, reportId: string, status: Status,
    runtime: Identity, checks: seq<Check>)

  datatype Descriptor = Descriptor(
    current: Option<Identity>, previous: Option<Identity>,
    currentReportId: Option<string>, previousReportId: Option<string>)

  datatype Action = Activate | Upgrade | Rollback | Adopt

  datatype Activation = Activation(
    activationId: string, action: Action, recordedAt: int,
    activeBefore: Option<Identity>, activeAfter: Identity, reportId: string)

  /** What the running entry says about itself. */
  datatype Observed = Observed(version: Version, buildSha: string)

  datatype Error =
    | ReleaseManifestInvalid | RuntimeNotInstalled | IntegrityFailed | CompatibilityBlocked
    | NoRollbackTarget | ActivationWriteFailed | Exists | Unreadable | Interrupted

  datatype Outcome<+T> = Done(value: T) | Failed(error: Error) | Crashed

  const REQUIRED_CHECKS: seq<string> := [
    "identity-protocol-operations", "external-planning-20m", "question-continuation",
    "cancellation-process-cleanup", "subscription-auth-route", "claude-external-profile",
    "codex-external-profile", "cursor-external-profile", "session-resume",
    "event-result-normalization", "isolated-write", "daemon-restart-recovery",
    "malformed-output-unsupported-model", "artifact-diff-retrieval"]

  predicate SafeChar(c: char) {
    'A' <= c <= 'Z' || 'a' <= c <= 'z' || '0' <= c <= '9' || c == '.' || c == '_' || c == '-'
  }

  predicate SafeId(s: string) {
    s != "" && forall c | c in s :: SafeChar(c)
  }

  /** The last check called `name` passed. */
  ghost predicate LastPassed(checks: seq<Check>, name: string) {
    exists i | 0 <= i < |checks| ::
      checks[i] == Check(name, Pass) && forall j | i < j < |checks| :: checks[j].name != name
  }

  /** The report lets exactly this identity be promoted. */
  ghost predicate Passing(report: Report, identity: Identity) {
    report.schemaVersion == 1 && report.suiteVersion == 1 && report.status == Pass
    && report.runtime == identity && SafeId(report.reportId)
    && forall name | name in REQUIRED_CHECKS :: LastPassed(report.checks, name)
  }

  /** As the manager decides it: by a table from check name to status. */
  method PassesReport(report: Report, identity: Identity) returns (ok: bool)
    ensures ok <==> Passing(report, identity)
  {
    var checks := report.checks;
    var statusByName: map<string, Status> := map[];
    for i := 0 to |checks|
      invariant forall name | name in statusByName :: Latest(checks[..i], name, statusByName[name])
      invariant forall j | 0 <= j < i :: checks[j].name in statusByName
    {
      LatestGrows(checks[..i], checks[i]);
      assert checks[..i] + [checks[i]] == checks[..i + 1];
      statusByName := statusByName[checks[i].name := checks[i].status];
    }
    assert checks[..|checks|] == checks;
    ok := report.schemaVersion == 1 && report.suiteVersion == 1 && report.status == Pass
      && report.runtime == identity && SafeId(report.reportId);
    for k := 0 to |REQUIRED_CHECKS|
      invariant ok <==>
        (report.schemaVersion == 1 && report.suiteVersion == 1 && report.status == Pass
         && report.runtime == identity && SafeId(report.reportId)
         && forall j | 0 <= j < k :: LastPassed(checks, REQUIRED_CHECKS[j]))
    {
      var name := REQUIRED_CHECKS[k];
      LatestDecides(checks, name, statusByName);
      ok := ok && name in statusByName && statusByName[name] == Pass;
    }
  }

  ghost predicate Latest(checks: seq<Check>, name: string, status: Status) {
    exists i | 0 <= i < |checks| ::
      checks[i] == Check(name, status) && forall j | i < j < |checks| :: checks[j].name != name
  }

  lemma LatestGrows(checks: seq<Check>, c: Check)
    ensures Latest(checks + [c], c.name, c.status)
    ensures forall name, s | name != c.name && Latest(checks, name, s) :: Latest(checks + [c], name, s)
  {
    var more := checks + [c];
    assert more[|checks|] == Check(c.name, c.status);
    forall name, s | name != c.name && Latest(checks, name, s) ensures Latest(more, name, s) {
      var i :| 0 <= i < |checks| && checks[i] == Check(name, s)
        && forall j | i < j < |checks| :: checks[j].name != name;
      assert more[i] == Check(name, s);
    }
  }

  lemma LatestDecides(checks: seq<Check>, name: string, table: map<string, Status>)
    requires name in table ==> Latest(checks, name, table[name])
    requires forall j | 0 <= j < |checks| :: checks[j].name in table
    ensures LastPassed(checks, name) <==> name in table && table[name] == Pass
  {
    if LastPassed(checks, name) {
      var i :| 0 <= i < |checks| && checks[i] == Check(name, Pass)
        && forall j | i < j < |checks| :: checks[j].name != name;
      assert checks[i].name in table;
    }
  }

  /** Component by component, first difference decides. */
  function CompareVersions(a: Version, b: Version): int {
    if a.major != b.major then a.major - b.major
    else if a.minor != b.minor then a.minor - b.minor
    else a.patch - b.patch
  }

  // ---------------------------------------------------------------------- disk

  /** A file being written holds part of its text, which does not parse. */
  datatype File<+T> = Torn | Whole(value: T)

  datatype Disk = Disk(
    descriptor: Option<File<Descriptor>>,
    attestations: map<string, File<Report>>,
    activations: map<string, File<Activation>>,
    temporaries: map<string, File<Descriptor>>)

  const NOTHING := Descriptor(None, None, None, None)

  /** The descriptor as a reader gets it; a missing file means nothing is active. */
  function Active(d: Option<File<Descriptor>>): Option<Descriptor> {
    match d
    case None => Some(NOTHING)
    case Some(Torn) => None
    case Some(Whole(v)) => Some(v)
  }

  function Promoted(old_: Descriptor, identity: Identity, reportId: string): Descriptor {
    Descriptor(Some(identity), old_.current, Some(reportId), old_.currentReportId)
  }

  function Swapped(d: Descriptor): Descriptor {
    Descriptor(d.previous, d.current, d.previousReportId, d.currentReportId)
  }

  /** One atomic change of the filesystem. */
  datatype Write =
    | CreateAttestation(id: string)
    | FillAttestation(id: string, report: Report)
    | CreateRecord(id: string)
    | FillRecord(id: string, record: Activation)
    | CreateTemporary(id: string)
    | FillTemporary(id: string, next: Descriptor)
    | Rename(id: string)

  /** Files are created exclusively, filled once by their creator, and renamed whole or torn. */
  predicate Possible(d: Disk, w: Write) {
    match w
    case CreateAttestation(id) => id !in d.attestations
    case FillAttestation(id, _) => id in d.attestations && d.attestations[id].Torn?
    case CreateRecord(id) => id !in d.activations
    case FillRecord(id, _) => id in d.activations && d.activations[id].Torn?
    case CreateTemporary(id) => id !in d.temporaries
    case FillTemporary(id, _) => id in d.temporaries && d.temporaries[id].Torn?
    case Rename(id) => id in d.temporaries
  }

  function Apply(d: Disk, w: Write): Disk
    requires Possible(d, w)
  {
    match w
    case CreateAttestation(id) => d.(attestations := d.attestations[id := Torn])
    case FillAttestation(id, r) => d.(attestations := d.attestations[id := Whole(r)])
    case CreateRecord(id) => d.(activations := d.activations[id := Torn])
    case FillRecord(id, r) => d.(activations := d.activations[id := Whole(r)])
    case CreateTemporary(id) => d.(temporaries := d.temporaries[id := Torn])
    case FillTemporary(id, n) => d.(temporaries := d.temporaries[id := Whole(n)])
    case Rename(id) => d.(descriptor := Some(d.temporaries[id]), temporaries := d.temporaries - {id})
  }

  predicate AllPossible(d: Disk, ws: seq<Write>)
    decreases |ws|
  {
    ws == [] || (Possible(d, ws[0]) && AllPossible(Apply(d, ws[0]), ws[1..]))
  }

  function ApplyAll(d: Disk, ws: seq<Write>): Disk
    requires AllPossible(d, ws)
    decreases |ws|
  {
    if ws == [] then d else ApplyAll(Apply(d, ws[0]), ws[1..])
  }

  // ---------------------------------------------------------------- operations

  /** What one promotion or rollback is about to make active, and under which names. */
  datatype Request =
    | Promotion(identity: Identity, report: Report, action: Action, id: string, at: int, temporary: string)
    | Return(id: string, at: int, temporary: string)

  /** The request passes the manager's checks in this state. */
  ghost predicate Allowed(d: Disk, q: Request) {
    Active(d.descriptor).Some? &&
    var a := Active(d.descriptor).value;
    match q
    case Promotion(identity, report, _, _, _, _) => Passing(report, identity)
    case Return(_, _, _) =>
      a.previous.Some? && a.previousReportId.Some? && a.previousReportId.value in d.attestations
      && d.attestations[a.previousReportId.value].Whole?
      && Passing(d.attestations[a.previousReportId.value].value, a.previous.value)
  }

  function Next(d: Disk, q: Request): Descriptor
    requires Active(d.descriptor).Some?
  {
    var a := Active(d.descriptor).value;
    match q
    case Promotion(identity, report, _, _, _, _) => Promoted(a, identity, report.reportId)
    case Return(_, _, _) => Swapped(a)
  }

  function Record(d: Disk, q: Request): Activation
    requires Active(d.descriptor).Some? && Next(d, q).current.Some? && Next(d, q).currentReportId.Some?
  {
    var n := Next(d, q);
    Activation(q.id, if q.Promotion? then q.action else Rollback, q.at,
               Active(d.descriptor).value.current, n.current.value, n.currentReportId.value)
  }

  /** The writes of the uninterrupted operation, in order. */
  function Plan(d: Disk, q: Request): seq<Write>
    requires Active(d.descriptor).Some? && Next(d, q).current.Some? && Next(d, q).currentReportId.Some?
  {
    Attest(d, q) + Journal(d, q) + [Rename(q.temporary)]
  }

  function Attest(d: Disk, q: Request): seq<Write> {
    if q.Return? || (q.report.reportId in d.attestations && d.attestations[q.report.reportId] == Whole(q.report))
    then []
    else [CreateAttestation(q.report.reportId), FillAttestation(q.report.reportId, q.report)]
  }

  function Journal(d: Disk, q: Request): seq<Write>
    requires Active(d.descriptor).Some? && Next(d, q).current.Some? && Next(d, q).currentReportId.Some?
  {
    [CreateRecord(q.id), FillRecord(q.id, Record(d, q)),
     CreateTemporary(q.temporary), FillTemporary(q.temporary, Next(d, q))]
  }

  /** `e` is `d` after the first `k` writes of the plan. */
  ghost predicate Reached(d: Disk, q: Request, k: nat, e: Disk)
    requires Allowed(d, q)
  {
    var p := Plan(d, q);
    k <= |p| && AllPossible(d, p[..k]) && e == ApplyAll(d, p[..k])
  }

  /** `e` is the disk after a prefix of the plan, with or without the clean-up of the temporary file. */
  ghost predicate Partial(d: Disk, q: Request, e: Disk)
    requires Allowed(d, q)
  {
    exists k: nat, s :: Reached(d, q, k, s) && (e == s || (k < |Plan(d, q)| && CleanedUp(d, q, s, e)))
  }

  /** `e` is `s` without the temporary file this operation had created. */
  ghost predicate CleanedUp(d: Disk, q: Request, s: Disk, e: Disk) {
    q.temporary !in d.temporaries && e == s.(temporaries := s.temporaries - {q.temporary})
  }

  /** One operation, complete or cut off between any two writes. */
  ghost predicate Operation(d: Disk, e: Disk) {
    e == d || exists q :: Allowed(d, q) && Partial(d, q, e)
  }

  // ------------------------------------------------------------------ invariant

  /** A stored report lets this identity run. */
  ghost predicate Attested(d: Disk, identity: Option<Identity>, reportId: Option<string>) {
    match identity
    case None => reportId.None?
    case Some(i) =>
      reportId.Some? && reportId.value in d.attestations && d.attestations[reportId.value].Whole?
      && Passing(d.attestations[reportId.value].value, i)
      && d.attestations[reportId.value].value.reportId == reportId.value
  }

  /** Some activation record tells of the change that made `a` active. */
  ghost predicate Journalled(d: Disk, a: Descriptor) {
    a.current.Some? && a.currentReportId.Some? &&
    exists id | id in d.activations ::
      d.activations[id].Whole? &&
      var r := d.activations[id].value;
      r.activationId == id && r.activeAfter == a.current.value && r.activeBefore == a.previous
      && r.reportId == a.currentReportId.value
  }

  ghost predicate Sound(d: Disk) {
    Active(d.descriptor).Some? &&
    var a := Active(d.descriptor).value;
    Attested(d, a.current, a.currentReportId) && Attested(d, a.previous, a.previousReportId)
    && (a == NOTHING || Journalled(d, a))
  }

  /** Reports and records are only ever added, and the descriptor is untouched. */
  ghost predicate Grows(d: Disk, e: Disk) {
    e.descriptor == d.descriptor && Keeps(d, e)
  }

  ghost predicate Keeps(d: Disk, e: Disk) {
    && (forall id | id in d.attestations && d.attestations[id].Whole? ::
          id in e.attestations && e.attestations[id] == d.attestations[id])
    && (forall id | id in d.activations && d.activations[id].Whole? ::
          id in e.activations && e.activations[id] == d.activations[id])
  }

  lemma WriteKeeps(d: Disk, w: Write)
    requires Possible(d, w)
    ensures Keeps(d, Apply(d, w)) && (!w.Rename? ==> Grows(d, Apply(d, w)))
  {
  }

  lemma {:induction false} WritesGrow(d: Disk, ws: seq<Write>)
    requires AllPossible(d, ws) && forall w | w in ws :: !w.Rename?
    ensures Grows(d, ApplyAll(d, ws))
    decreases |ws|
  {
    if ws != [] {
      WriteKeeps(d, ws[0]);
      WritesGrow(Apply(d, ws[0]), ws[1..]);
    }
  }

  lemma GrowsSound(d: Disk, e: Disk)
    requires Sound(d) && Grows(d, e)
    ensures Sound(e)
  {
    var a := Active(d.descriptor).value;
    if a != NOTHING {
      var id :| id in d.activations && d.activations[id].Whole? &&
        var r := d.activations[id].value;
        r.activationId == id && r.activeAfter == a.current.value && r.activeBefore == a.previous
        && r.reportId == a.currentReportId.value;
      assert e.activations[id] == d.activations[id];
    }
  }

  lemma {:induction false} ApplySplit(d: Disk, a: seq<Write>, b: seq<Write>)
    ensures AllPossible(d, a + b) <==> AllPossible(d, a) && AllPossible(ApplyAll(d, a), b)
    ensures AllPossible(d, a + b) ==> ApplyAll(d, a + b) == ApplyAll(ApplyAll(d, a), b)
    decreases |a|
  {
    if a == [] {
      assert a + b == b;
    } else {
      assert (a + b)[1..] == a[1..] + b;
      if Possible(d, a[0]) { ApplySplit(Apply(d, a[0]), a[1..], b); }
    }
  }

  /** The four writes before the rename leave the record and the new descriptor whole. */
  lemma JournalWrites(d: Disk, q: Request, s: Disk)
    requires Allowed(d, q) && AllPossible(s, Journal(d, q))
    ensures var t := ApplyAll(s, Journal(d, q));
      q.temporary in t.temporaries && t.temporaries[q.temporary] == Whole(Next(d, q))
      && q.id in t.activations && t.activations[q.id] == Whole(Record(d, q))
  {
    var ws := Journal(d, q);
    var s1 := Apply(s, ws[0]);
    assert AllPossible(s1, ws[1..]) && ws[1..][0] == ws[1] && ws[1..][1..] == ws[2..];
    var s2 := Apply(s1, ws[1]);
    assert AllPossible(s2, ws[2..]) && ws[2..][0] == ws[2] && ws[2..][1..] == ws[3..];
    var s3 := Apply(s2, ws[2]);
    assert AllPossible(s3, ws[3..]) && ws[3..][0] == ws[3] && ws[3..][1..] == [];
    assert ApplyAll(s, ws) == ApplyAll(s1, ws[1..]) == ApplyAll(s2, ws[2..]) == ApplyAll(s3, ws[3..])
      == Apply(s3, ws[3]);
  }

  lemma AttestWrites(d: Disk, q: Request)
    requires Allowed(d, q) && AllPossible(d, Attest(d, q))
    ensures var s := ApplyAll(d, Attest(d, q));
      q.Promotion? ==> q.report.reportId in s.attestations && s.attestations[q.report.reportId] == Whole(q.report)
  {
    var ws := Attest(d, q);
    if ws != [] {
      assert ws[1..][0] == ws[1] && ws[1..][1..] == [];
      assert ApplyAll(d, ws) == ApplyAll(Apply(d, ws[0]), ws[1..]) == Apply(Apply(d, ws[0]), ws[1]);
    }
  }

  /** Just before the rename everything the new descriptor will rest on is on disk. */
  lemma ReadyBeforeRename(d: Disk, q: Request)
    requires Allowed(d, q) && Sound(d) && AllPossible(d, Attest(d, q) + Journal(d, q))
    ensures var t := ApplyAll(d, Attest(d, q) + Journal(d, q));
      Grows(d, t)
      && q.temporary in t.temporaries && t.temporaries[q.temporary] == Whole(Next(d, q))
      && Attested(t, Next(d, q).current, Next(d, q).currentReportId)
      && Attested(t, Next(d, q).previous, Next(d, q).previousReportId)
      && Journalled(t, Next(d, q))
  {
    var a, b := Attest(d, q), Journal(d, q);
    ApplySplit(d, a, b);
    var s := ApplyAll(d, a);
    var t := ApplyAll(s, b);
    AttestWrites(d, q);
    JournalWrites(d, q, s);
    WritesGrow(d, a + b);
    WritesGrow(s, b);
    assert t.activations[q.id].value == Record(d, q);
  }

  // ------------------------------------------------------------------- theorems

  /** Wherever the operation is cut off, the descriptor is the old one until the last write and then the new one. */
  lemma OldOrNew(d: Disk, q: Request, k: nat, e: Disk)
    requires Sound(d) && Allowed(d, q) && Reached(d, q, k, e)
    ensures e.descriptor == if k == |Plan(d, q)| then Some(Whole(Next(d, q))) else d.descriptor
    ensures Keeps(d, e) && Sound(e)
  {
    var p := Plan(d, q);
    var ready := Attest(d, q) + Journal(d, q);
    if k < |p| {
      assert p[..k] == ready[..k];
      WritesGrow(d, p[..k]);
      GrowsSound(d, e);
    } else {
      assert p[..k] == ready + [Rename(q.temporary)];
      ApplySplit(d, ready, [Rename(q.temporary)]);
      ReadyBeforeRename(d, q);
      RenameCommits(d, q, ApplyAll(d, ready), e);
    }
  }

  lemma RenameCommits(d: Disk, q: Request, t: Disk, e: Disk)
    requires Allowed(d, q) && Grows(d, t)
    requires q.temporary in t.temporaries && t.temporaries[q.temporary] == Whole(Next(d, q))
    requires Attested(t, Next(d, q).current, Next(d, q).currentReportId)
    requires Attested(t, Next(d, q).previous, Next(d, q).previousReportId)
    requires Journalled(t, Next(d, q))
    requires AllPossible(t, [Rename(q.temporary)]) && e == ApplyAll(t, [Rename(q.temporary)])
    ensures e.descriptor == Some(Whole(Next(d, q))) && Keeps(d, e) && Sound(e)
  {
    assert e == Apply(t, Rename(q.temporary));
  }

  /** The record of a change is complete on disk while the old descriptor still stands. */
  lemma RecordPrecedesCommit(d: Disk, q: Request)
    requires Sound(d) && Allowed(d, q) && AllPossible(d, Plan(d, q))
    ensures var p := Plan(d, q); var k := |p| - 1;
      AllPossible(d, p[..k]) &&
      var t := ApplyAll(d, p[..k]);
      t.descriptor == d.descriptor && q.id in t.activations && t.activations[q.id] == Whole(Record(d, q))
      && Journalled(t, Next(d, q))
  {
    var ready := Attest(d, q) + Journal(d, q);
    assert Plan(d, q) == ready + [Rename(q.temporary)];
    assert Plan(d, q)[..|Plan(d, q)| - 1] == ready;
    ApplySplit(d, ready, [Rename(q.temporary)]);
    ReadyBeforeRename(d, q);
    ApplySplit(d, Attest(d, q), Journal(d, q));
    JournalWrites(d, q, ApplyAll(d, Attest(d, q)));
  }

  lemma CleanUpKeeps(d: Disk, q: Request, s: Disk, e: Disk)
    requires Sound(s) && CleanedUp(d, q, s, e)
    ensures Sound(e) && e.attestations == s.attestations && e.activations == s.activations
  {
    GrowsSound(s, e);
  }

  lemma PartialKeeps(d: Disk, q: Request, e: Disk)
    requires Sound(d) && Allowed(d, q) && Partial(d, q, e)
    ensures Sound(e) && Keeps(d, e)
  {
    var k: nat, s :| Reached(d, q, k, s) && (e == s || (k < |Plan(d, q)| && CleanedUp(d, q, s, e)));
    OldOrNew(d, q, k, s);
    if e != s { CleanUpKeeps(d, q, s, e); }
  }

  lemma OperationKeeps(d: Disk, e: Disk)
    requires Sound(d) && Operation(d, e)
    ensures Sound(e) && Keeps(d, e)
  {
    if e != d {
      var q :| Allowed(d, q) && Partial(d, q, e);
      PartialKeeps(d, q, e);
    }
  }

  const EMPTY := Disk(None, map[], map[], map[])

  /** The disk after each of a series of operations, each possibly cut off. */
  ghost predicate Run(disks: seq<Disk>) {
    disks != [] && disks[0] == EMPTY && forall i | 0 < i < |disks| :: Operation(disks[i - 1], disks[i])
  }

  /** After any run the descriptor is readable and everything it names is attested and journalled. */
  lemma {:induction false} RunSound(disks: seq<Disk>)
    requires Run(disks)
    ensures forall i | 0 <= i < |disks| :: Sound(disks[i])
  {
    var n := |disks| - 1;
    if n > 0 {
      RunSound(disks[..n]);
      assert disks[..n][n - 1] == disks[n - 1];
      assert Operation(disks[n - 1], disks[n]);
      OperationKeeps(disks[n - 1], disks[n]);
      assert forall i | 0 <= i < n :: disks[..n][i] == disks[i];
    }
  }

  /** No later operation takes away the record or the reports of a descriptor that was active at any time. */
  lemma {:induction false} HistoryKept(disks: seq<Disk>, i: nat, j: nat)
    requires Run(disks) && i <= j < |disks|
    ensures Sound(disks[i]) && Keeps(disks[i], disks[j])
    ensures var a := Active(disks[i].descriptor).value;
      Attested(disks[j], a.current, a.currentReportId) && Attested(disks[j], a.previous, a.previousReportId)
      && (a == NOTHING || Journalled(disks[j], a))
    decreases j
  {
    RunSound(disks);
    if i < j {
      HistoryKept(disks, i, j - 1);
      assert Operation(disks[j - 1], disks[j]);
      OperationKeeps(disks[j - 1], disks[j]);
    }
    var was := disks[j].(descriptor := disks[i].descriptor);
    GrowsSound(disks[i], was);
    StillHolds(was, disks[j], Active(disks[i].descriptor).value);
  }

  lemma StillHolds(d: Disk, e: Disk, a: Descriptor)
    requires d.attestations == e.attestations && d.activations == e.activations
    ensures Attested(d, a.current, a.currentReportId) ==> Attested(e, a.current, a.currentReportId)
    ensures Attested(d, a.previous, a.previousReportId) ==> Attested(e, a.previous, a.previousReportId)
    ensures Journalled(d, a) ==> Journalled(e, a)
  {
  }

  // ------------------------------------------------------------------- the files

  datatype Boundary =
    | AttestationCreate | AttestationWrite | AttestationFileSync | AttestationDirectorySync
    | RecordCreate | RecordWrite | RecordFileSync | RecordDirectorySync
    | DescriptorCreate | DescriptorWrite | DescriptorFileSync | DescriptorRename | DescriptorDirectorySync

  datatype Interrupt = Proceed | Throws | Dies

  type Hook = Boundary -> Interrupt

  datatype NewBoundaries = NewBoundaries(create: Boundary, write: Boundary, fileSync: Boundary, directorySync: Boundary)

  const ATTESTATION := NewBoundaries(AttestationCreate, AttestationWrite, AttestationFileSync, AttestationDirectorySync)
  const RECORD := NewBoundaries(RecordCreate, RecordWrite, RecordFileSync, RecordDirectorySync)

  predicate AllProceed(b: NewBoundaries, on: Hook) {
    on(b.create).Proceed? && on(b.write).Proceed? && on(b.fileSync).Proceed? && on(b.directorySync).Proceed?
  }

  /** What the first boundary that does not let the operation go on does to it. */
  function FirstStop(bs: seq<Boundary>, on: Hook): Interrupt {
    if bs == [] then Proceed else if on(bs[0]).Proceed? then FirstStop(bs[1..], on) else on(bs[0])
  }

  lemma FirstOfFour(a: Boundary, b: Boundary, c: Boundary, d: Boundary, on: Hook)
    ensures FirstStop([a, b, c, d], on)
      == if !on(a).Proceed? then on(a) else if !on(b).Proceed? then on(b) else if !on(c).Proceed? then on(c) else on(d)
  {
    assert [d][1..] == [] && FirstStop([d], on) == on(d);
    assert [c, d][1..] == [d] && FirstStop([c, d], on) == if on(c).Proceed? then on(d) else on(c);
    assert [b, c, d][1..] == [c, d] && [a, b, c, d][1..] == [b, c, d];
    assert FirstStop([b, c, d], on) == if on(b).Proceed? then FirstStop([c, d], on) else on(b);
  }

  function Stopped<T>(i: Interrupt): Outcome<T> {
    if i.Dies? then Crashed else Failed(Interrupted)
  }

  /** A directory of files that are written once. */
  class Directory<T> {
    var files: map<string, File<T>>

    constructor ()
      ensures files == map[]
    {
      files := map[];
    }

    method WriteNewJson(name: string, value: T, b: NewBoundaries, on: Hook) returns (r: Outcome<()>)
      modifies this
      ensures var created := on(b.create).Proceed? && name !in old(files);
        files == if created then old(files)[name := if on(b.write).Proceed? then Whole(value) else Torn] else old(files)
      ensures r.Done? <==> name !in old(files) && AllProceed(b, on)
      ensures r == Failed(Exists) <==> name in old(files) && on(b.create).Proceed?
      ensures r.Failed? ==> r.error == Exists || r.error == Interrupted
      ensures !r.Done? && r != Failed(Exists) ==>
        r == Stopped(FirstStop([b.create, b.write, b.fileSync, b.directorySync], on))
    {
      FirstOfFour(b.create, b.write, b.fileSync, b.directorySync, on);
      if on(b.create) != Proceed { return Stopped(on(b.create)); }
      if name in files { return Failed(Exists); }
      files := files[name := Torn];
      if on(b.write) != Proceed { return Stopped(on(b.write)); }
      files := files[name := Whole(value)];
      if on(b.fileSync) != Proceed { return Stopped(on(b.fileSync)); }
      if on(b.directorySync) != Proceed { return Stopped(on(b.directorySync)); }
      return Done(());
    }
  }

  datatype Mutation = Mutation(activeBefore: Option<Identity>, activeAfter: Identity, reportId: string)

  class Manager {
    const attestations: Directory<Report>
    const activations: Directory<Activation>
    var descriptor: Option<File<Descriptor>>
    var temporaries: map<string, File<Descriptor>>

    constructor ()
      ensures fresh(attestations) && fresh(activations) && View() == EMPTY
    {
      attestations := new Directory();
      activations := new Directory();
      descriptor := None;
      temporaries := map[];
    }

    ghost function View(): Disk
      reads this, attestations, activations
    {
      Disk(descriptor, attestations.files, activations.files, temporaries)
    }

    /** Through a temporary file, so that the descriptor changes in one step. */
    method WriteDescriptor(next: Descriptor, temporary: string, on: Hook) returns (r: Outcome<()>)
      modifies this
      ensures var created := on(DescriptorCreate).Proceed? && temporary !in old(temporaries);
        var filled := created && on(DescriptorWrite).Proceed?;
        var committed := filled && on(DescriptorFileSync).Proceed? && on(DescriptorRename).Proceed?;
        && descriptor == (if committed then Some(Whole(next)) else old(descriptor))
        && temporaries == (if created && !committed && r.Crashed?
                           then old(temporaries)[temporary := if filled then Whole(next) else Torn]
                           else old(temporaries))
        && (r.Done? <==> committed && on(DescriptorDirectorySync).Proceed?)
      ensures r == Failed(Exists) <==> on(DescriptorCreate).Proceed? && temporary in old(temporaries)
      ensures !r.Done? && r != Failed(Exists) ==>
        r == Stopped(FirstStop(
          [DescriptorCreate, DescriptorWrite, DescriptorFileSync, DescriptorRename, DescriptorDirectorySync], on))
    {
      if on(DescriptorCreate) != Proceed { return Stopped(on(DescriptorCreate)); }
      if temporary in temporaries { return Failed(Exists); }
      temporaries := temporaries[temporary := Torn];
      var stop := on(DescriptorWrite);
      if stop == Proceed {
        temporaries := temporaries[temporary := Whole(next)];
        stop := on(DescriptorFileSync);
      }
      if stop == Proceed { stop := on(DescriptorRename); }
      if stop == Proceed {
        descriptor := Some(temporaries[temporary]);
        temporaries := temporaries - {temporary};
        stop := on(DescriptorDirectorySync);
      }
      if stop == Proceed { return Done(()); }
      if stop == Throws { temporaries := temporaries - {temporary}; }
      return Stopped(stop);
    }

    /** The record first, then the descriptor. */
    method Commit(record: Activation, next: Descriptor, temporary: string, on: Hook, ghost d: Disk, ghost q: Request)
      returns (r: Outcome<()>)
      requires Allowed(d, q) && Reached(d, q, |Attest(d, q)|, View())
      requires record == Record(d, q) && next == Next(d, q) && temporary == q.temporary
      requires activations.files == d.activations && temporaries == d.temporaries
      modifies this, activations
      ensures Partial(d, q, View())
      ensures var committed := JournalProceeds(d, q, on);
        && descriptor == (if committed then Some(Whole(next)) else old(descriptor))
        && (r.Done? <==> committed && on(DescriptorDirectorySync).Proceed?)
      ensures r.Failed? ==> r.error == Exists || r.error == Interrupted || r.error == ActivationWriteFailed
      ensures r.Done? ==> Reached(d, q, |Plan(d, q)|, View())
      ensures activations.files ==
        if record.activationId in d.activations || !on(RecordCreate).Proceed? then d.activations
        else d.activations[record.activationId := if on(RecordWrite).Proceed? then Whole(record) else Torn]
    {
      ghost var s := View();
      RecordStage(d, q, s);
      r := activations.WriteNewJson(record.activationId, record, RECORD, on);
      if !r.Done? { return; }
      DescriptorStage(d, q, View());
      r := WriteDescriptor(next, temporary, on);
      if r.Failed? { return Failed(ActivationWriteFailed); }
    }

    /** Stores the report, or finds that the same one is stored already. */
    method StoreReport(report: Report, on: Hook, ghost d: Disk, ghost q: Request) returns (w: Outcome<()>)
      requires View() == d && Allowed(d, q) && q.Promotion? && q.report == report
      modifies attestations
      ensures Partial(d, q, View())
      ensures w.Done? ==>
        && Reached(d, q, |Attest(d, q)|, View())
        && report.reportId in attestations.files && attestations.files[report.reportId] == Whole(report)
      ensures w.Done? <==>
        if report.reportId in d.attestations
        then on(AttestationCreate).Proceed? && d.attestations[report.reportId] == Whole(report)
        else AllProceed(ATTESTATION, on)
      ensures w != Failed(IntegrityFailed)
      ensures attestations.files ==
        if report.reportId in d.attestations || !on(AttestationCreate).Proceed? then d.attestations
        else d.attestations[report.reportId := if on(AttestationWrite).Proceed? then Whole(report) else Torn]
      ensures report.reportId in d.attestations && on(AttestationCreate).Proceed? ==>
        && (d.attestations[report.reportId].Torn? ==> w == Failed(Unreadable))
        && (d.attestations[report.reportId].Whole? && d.attestations[report.reportId].value != report ==>
              w == Failed(Exists))
    {
      AttestStage(d, q);
      w := attestations.WriteNewJson(report.reportId, report, ATTESTATION, on);
      if w == Failed(Exists) {
        if attestations.files[report.reportId].Torn? { return Failed(Unreadable); }
        if attestations.files[report.reportId].value == report { return Done(()); }
      }
    }

    method Promote(identity: Identity, report: Report, action: Action, intact: bool, observed: Observed,
                   id: string, at: int, temporary: string, on: Hook) returns (r: Outcome<Mutation>)
      modifies this, attestations, activations
      ensures Operation(old(View()), View())
      ensures var q := Promotion(identity, report, action, id, at, temporary);
        var committed := PromotionCommits(old(View()), q, intact, observed, on);
        && descriptor == (if committed then Some(Whole(Next(old(View()), q))) else old(descriptor))
        && (r.Done? <==> committed && on(DescriptorDirectorySync).Proceed?)
      ensures r.Done? || descriptor != old(descriptor) ==> var a := Active(old(descriptor)).value;
        && descriptor == Some(Whole(Descriptor(
             Some(identity), a.current, Some(report.reportId), a.currentReportId)))
        && id in activations.files
        && activations.files[id] == Whole(Activation(id, action, at, a.current, identity, report.reportId))
        && report.reportId in attestations.files && attestations.files[report.reportId] == Whole(report)
      ensures r.Done? ==>
        && Reached(old(View()), Promotion(identity, report, action, id, at, temporary),
          |Plan(old(View()), Promotion(identity, report, action, id, at, temporary))|, View())
        && r.value == Mutation(Active(old(descriptor)).value.current, identity, report.reportId)
      ensures r == Failed(IntegrityFailed) <==>
        !intact || observed != Observed(identity.version, identity.buildSha)
      ensures
        && intact && observed == Observed(identity.version, identity.buildSha)
        && old(descriptor) != Some(Torn) && !Passing(report, identity) ==>
        r == Failed(CompatibilityBlocked)
      ensures
        && intact && observed == Observed(identity.version, identity.buildSha)
        && old(descriptor) != Some(Torn) && Passing(report, identity) && on(AttestationCreate).Proceed?
        && report.reportId in old(attestations.files) ==>
        && (old(attestations.files)[report.reportId].Torn? ==> r == Failed(Unreadable))
        && (old(attestations.files)[report.reportId].Whole? && old(attestations.files)[report.reportId].value != report
            ==> r == Failed(Exists))
    {
      ghost var q := Promotion(identity, report, action, id, at, temporary);
      ghost var d := View();
      if !intact || observed != Observed(identity.version, identity.buildSha) { return Failed(IntegrityFailed); }
      if descriptor == Some(Torn) { return Failed(Unreadable); }
      var before := Active(descriptor).value;
      var passing := PassesReport(report, identity);
      if !passing { return Failed(CompatibilityBlocked); }
      var w := StoreReport(report, on, d, q);
      if !w.Done? { return if w.Crashed? then Crashed else Failed(w.error); }
      if !SafeId(id) { return Failed(ActivationWriteFailed); }
      var record := Activation(id, action, at, before.current, identity, report.reportId);
      var next := Descriptor(Some(identity), before.current, Some(report.reportId), before.currentReportId);
      w := Commit(record, next, temporary, on, d, q);
      if !w.Done? { return if w.Crashed? then Crashed else Failed(w.error); }
      return Done(Mutation(before.current, identity, report.reportId));
    }

    /** Only to a newer version than the active one. */
    method UpgradeTo(version: Version, install: Outcome<Identity>, report: Report, intact: bool, observed: Observed,
                     id: string, at: int, temporary: string, on: Hook) returns (r: Outcome<Mutation>)
      modifies this, attestations, activations
      ensures Operation(old(View()), View())
      ensures var c := Upgrades(version, install, report, intact, observed, id, at, temporary, on);
        Served(old(View()), c, r.Done?, View())
      ensures var a := Active(old(descriptor));
        a.Some? && a.value.current.Some? && !Newer(version, a.value.current.value.version) ==>
          r == Failed(ReleaseManifestInvalid)
    {
      if descriptor == Some(Torn) { return Failed(Unreadable); }
      var active := Active(descriptor).value;
      if active.current.Some? && CompareVersions(version, active.current.value.version) <= 0 {
        return Failed(ReleaseManifestInvalid);
      }
      if !install.Done? { return if install.Crashed? then Crashed else Failed(install.error); }
      r := Promote(install.value, report, Upgrade, intact, observed, id, at, temporary, on);
    }

    method RollBack(intact: bool, observed: Observed, id: string, at: int, temporary: string, on: Hook)
      returns (r: Outcome<Mutation>)
      modifies this, attestations, activations
      ensures Operation(old(View()), View())
      ensures var q := Return(id, at, temporary);
        var committed := RollbackCommits(old(View()), q, intact, observed, on);
        && descriptor == (if committed then Some(Whole(Next(old(View()), q))) else old(descriptor))
        && (r.Done? <==> committed && on(DescriptorDirectorySync).Proceed?)
      ensures r.Done? ==>
        && Reached(old(View()), Return(id, at, temporary), |Plan(old(View()), Return(id, at, temporary))|, View())
        && var a := Active(old(descriptor)).value;
        && r.value == Mutation(a.current, a.previous.value, a.previousReportId.value)
      ensures r.Done? || descriptor != old(descriptor) ==> var a := Active(old(descriptor)).value;
        && a.previous.Some? && a.previousReportId.Some?
        && descriptor == Some(Whole(Descriptor(a.previous, a.current, a.previousReportId, a.currentReportId)))
        && id in activations.files
        && activations.files[id]
           == Whole(Activation(id, Rollback, at, a.current, a.previous.value, a.previousReportId.value))
      ensures Sound(old(View())) ==> NotRefused(Active(old(descriptor)).value, r)
    {
      ghost var q := Return(id, at, temporary);
      ghost var d := View();
      if descriptor == Some(Torn) { return Failed(Unreadable); }
      var before := Active(descriptor).value;
      if before.previous.None? || before.previousReportId.None? { return Failed(NoRollbackTarget); }
      var target, reportId := before.previous.value, before.previousReportId.value;
      if !intact || observed != Observed(target.version, target.buildSha) { return Failed(IntegrityFailed); }
      if reportId !in attestations.files { return Failed(CompatibilityBlocked); }
      if attestations.files[reportId].Torn? { return Failed(Unreadable); }
      var passing := PassesReport(attestations.files[reportId].value, target);
      if !passing { return Failed(CompatibilityBlocked); }
      if !SafeId(id) { return Failed(ActivationWriteFailed); }
      assert Plan(d, q)[..0] == [];
      var record := Activation(id, Rollback, at, before.current, target, reportId);
      var next := Descriptor(before.previous, before.current, before.previousReportId, before.currentReportId);
      var w := Commit(record, next, temporary, on, d, q);
      if !w.Done? { return if w.Crashed? then Crashed else Failed(w.error); }
      return Done(Mutation(before.current, target, reportId));
    }

    /** Two rollbacks that both succeed leave the descriptor as it was. */
    method RollBackTwice(
      intact: (bool, bool), observed: (Observed, Observed), ids: (string, string), at: (int, int),
      temporaries_: (string, string), on: (Hook, Hook))
      returns (first: Outcome<Mutation>, second: Outcome<Mutation>)
      modifies this, attestations, activations
      ensures first.Done? && second.Done? ==> descriptor == old(descriptor)
      ensures Sound(old(View())) && first.Done? ==>
        second != Failed(NoRollbackTarget) && second != Failed(CompatibilityBlocked)
    {
      first := Swap(intact.0, observed.0, ids.0, at.0, temporaries_.0, on.0);
      second := Swap(intact.1, observed.1, ids.1, at.1, temporaries_.1, on.1);
    }

    /** A rollback seen from the descriptor: a success swaps what is active with what was. */
    method Swap(intact: bool, observed: Observed, id: string, at: int, temporary: string, on: Hook)
      returns (r: Outcome<Mutation>)
      modifies this, attestations, activations
      ensures r.Done? ==>
        Swappable(old(descriptor)) && descriptor == Some(Whole(Swapped(old(descriptor).value.value)))
      ensures Sound(old(View())) ==> Sound(View()) && NotRefused(Active(old(descriptor)).value, r)
    {
      ghost var d := View();
      r := RollBack(intact, observed, id, at, temporary, on);
      if Sound(d) { OperationKeeps(d, View()); }
    }
  }

  ghost predicate Swappable(d: Option<File<Descriptor>>) {
    d.Some? && d.value.Whole? && d.value.value.previous.Some?
  }

  /** A rollback is refused for want of a target or of a passing report only when nothing was active before. */
  ghost predicate NotRefused(a: Descriptor, r: Outcome<Mutation>) {
    && r != Failed(CompatibilityBlocked) && r != Failed(Unreadable)
    && (r == Failed(NoRollbackTarget) <==> a.previous.None?)
  }

  /** `a` comes after `b` in lexicographic order. */
  predicate Newer(a: Version, b: Version) {
    a.major > b.major || (a.major == b.major && (a.minor > b.minor || (a.minor == b.minor && a.patch > b.patch)))
  }

  /** The order of versions: by major, then by minor, then by patch number. */
  lemma NewerExactly(a: Version, b: Version)
    ensures a.major > b.major ==> Newer(a, b)
    ensures a.major == b.major && a.minor > b.minor ==> Newer(a, b)
    ensures a.major == b.major && a.minor == b.minor && a.patch > b.patch ==> Newer(a, b)
    ensures Newer(a, b) ==> !Newer(b, a)
    ensures a == b || Newer(a, b) || Newer(b, a)
    ensures CompareVersions(a, b) > 0 <==> Newer(a, b)
    ensures CompareVersions(a, b) == 0 <==> a == b
  {
  }

  /** An identifier that is safe as a file name: one or more letters, digits, dots, underscores and hyphens. */
  lemma SafeIdExactly(s: string)
    ensures SafeId(s) <==>
      s != "" && forall c | c in s ::
        var u := c as int;
        0x41 <= u <= 0x5A || 0x61 <= u <= 0x7A || 0x30 <= u <= 0x39 || u == 0x2E || u == 0x5F || u == 0x2D
    ensures SafeId(s) ==> '/' !in s
  {
  }

  /** Nothing stops the operation before the rename of the descriptor. */
  ghost predicate JournalProceeds(d: Disk, q: Request, on: Hook) {
    && q.id !in d.activations && AllProceed(RECORD, on)
    && q.temporary !in d.temporaries && on(DescriptorCreate).Proceed? && on(DescriptorWrite).Proceed?
    && on(DescriptorFileSync).Proceed? && on(DescriptorRename).Proceed?
  }

  ghost predicate PromotionCommits(d: Disk, q: Request, intact: bool, observed: Observed, on: Hook)
    requires q.Promotion?
    ensures PromotionCommits(d, q, intact, observed, on) ==> Allowed(d, q)
  {
    && intact && observed == Observed(q.identity.version, q.identity.buildSha)
    && Allowed(d, q) && SafeId(q.id)
    && (if q.report.reportId in d.attestations
        then on(AttestationCreate).Proceed? && d.attestations[q.report.reportId] == Whole(q.report)
        else AllProceed(ATTESTATION, on))
    && JournalProceeds(d, q, on)
  }

  ghost predicate RollbackCommits(d: Disk, q: Request, intact: bool, observed: Observed, on: Hook)
    requires q.Return?
    ensures RollbackCommits(d, q, intact, observed, on) ==> Allowed(d, q)
  {
    Allowed(d, q) && intact && SafeId(q.id) && JournalProceeds(d, q, on)
    && var target := Active(d.descriptor).value.previous.value;
    observed == Observed(target.version, target.buildSha)
  }

  lemma Extend(d: Disk, q: Request, k: nat, s: Disk)
    requires Allowed(d, q) && Reached(d, q, k, s) && k < |Plan(d, q)| && Possible(s, Plan(d, q)[k])
    ensures Reached(d, q, k + 1, Apply(s, Plan(d, q)[k]))
  {
    var p := Plan(d, q);
    assert p[..k + 1] == p[..k] + [p[k]];
    ApplySplit(d, p[..k], [p[k]]);
    assert [p[k]][1..] == [];
  }

  lemma AttestStage(d: Disk, q: Request)
    requires Allowed(d, q) && q.Promotion?
    ensures Reached(d, q, 0, d)
    ensures q.report.reportId !in d.attestations ==>
      && |Attest(d, q)| == 2
      && Reached(d, q, 1, d.(attestations := d.attestations[q.report.reportId := Torn]))
      && Reached(d, q, 2, d.(attestations := d.attestations[q.report.reportId := Whole(q.report)]))
    ensures q.report.reportId in d.attestations && d.attestations[q.report.reportId] == Whole(q.report) ==>
      Attest(d, q) == []
  {
    assert Plan(d, q)[..0] == [];
    if q.report.reportId !in d.attestations {
      Extend(d, q, 0, d);
      var s := d.(attestations := d.attestations[q.report.reportId := Torn]);
      Extend(d, q, 1, s);
      assert s.attestations[q.report.reportId := Whole(q.report)]
        == d.attestations[q.report.reportId := Whole(q.report)];
    }
  }

  lemma RecordStage(d: Disk, q: Request, s: Disk)
    requires Allowed(d, q) && Reached(d, q, |Attest(d, q)|, s)
    ensures q.id !in s.activations ==>
      var k := |Attest(d, q)|;
      && Reached(d, q, k + 1, s.(activations := s.activations[q.id := Torn]))
      && Reached(d, q, k + 2, s.(activations := s.activations[q.id := Whole(Record(d, q))]))
  {
    if q.id !in s.activations {
      var k := |Attest(d, q)|;
      Extend(d, q, k, s);
      var t := s.(activations := s.activations[q.id := Torn]);
      Extend(d, q, k + 1, t);
      assert t.activations[q.id := Whole(Record(d, q))] == s.activations[q.id := Whole(Record(d, q))];
    }
  }

  lemma TemporaryStage(d: Disk, q: Request, s: Disk)
    requires Allowed(d, q) && Reached(d, q, |Attest(d, q)| + 2, s) && q.temporary !in s.temporaries
    ensures var k := |Attest(d, q)| + 2;
      && Reached(d, q, k + 1, s.(temporaries := s.temporaries[q.temporary := Torn]))
      && Reached(d, q, k + 2, s.(temporaries := s.temporaries[q.temporary := Whole(Next(d, q))]))
  {
    var k := |Attest(d, q)| + 2;
    Extend(d, q, k, s);
    var t := s.(temporaries := s.temporaries[q.temporary := Torn]);
    Extend(d, q, k + 1, t);
    assert t.temporaries[q.temporary := Whole(Next(d, q))] == s.temporaries[q.temporary := Whole(Next(d, q))];
  }

  lemma RenameStage(d: Disk, q: Request, s: Disk)
    requires Allowed(d, q) && q.temporary !in s.temporaries
    requires Reached(d, q, |Attest(d, q)| + 4, s.(temporaries := s.temporaries[q.temporary := Whole(Next(d, q))]))
    ensures Reached(d, q, |Attest(d, q)| + 5, s.(descriptor := Some(Whole(Next(d, q)))))
  {
    var u := s.(temporaries := s.temporaries[q.temporary := Whole(Next(d, q))]);
    Extend(d, q, |Attest(d, q)| + 4, u);
    assert u.temporaries - {q.temporary} == s.temporaries;
  }

  lemma DescriptorStage(d: Disk, q: Request, s: Disk)
    requires Allowed(d, q) && Reached(d, q, |Attest(d, q)| + 2, s)
    ensures q.temporary !in s.temporaries ==>
      var k := |Attest(d, q)| + 2;
      && Reached(d, q, k + 1, s.(temporaries := s.temporaries[q.temporary := Torn]))
      && Reached(d, q, k + 2, s.(temporaries := s.temporaries[q.temporary := Whole(Next(d, q))]))
      && Reached(d, q, k + 3, s.(descriptor := Some(Whole(Next(d, q)))))
  {
    if q.temporary !in s.temporaries {
      TemporaryStage(d, q, s);
      RenameStage(d, q, s);
    }
  }

  // ------------------------------------------------------------------- whole runs

  datatype Call =
    | Promotes(
        identity: Identity, report: Report, action: Action, intact: bool, observed: Observed,
        id: string, at: int, temporary: string, on: Hook)
    | Upgrades(
        version: Version, install: Outcome<Identity>, report: Report, intact: bool, observed: Observed,
        id: string, at: int, temporary: string, on: Hook)
    | RollsBack(intact: bool, observed: Observed, id: string, at: int, temporary: string, on: Hook)

  /** What a call asks for; an upgrade has the identity it asks for only once it is installed. */
  function RequestOf(c: Call): Request
    requires c.Upgrades? ==> c.install.Done?
  {
    match c
    case Promotes(identity, report, action, _, _, id, at, temporary, _) =>
      Promotion(identity, report, action, id, at, temporary)
    case Upgrades(_, install, report, _, _, id, at, temporary, _) =>
      Promotion(install.value, report, Upgrade, id, at, temporary)
    case RollsBack(_, _, id, at, temporary, _) => Return(id, at, temporary)
  }

  predicate IsUpgrade(descriptor: Option<File<Descriptor>>, version: Version) {
    var a := Active(descriptor);
    a.Some? && (a.value.current.Some? ==> Newer(version, a.value.current.value.version))
  }

  /** The call gets as far as the rename of the descriptor. */
  ghost predicate Commits(d: Disk, c: Call)
    ensures Commits(d, c) ==> (c.Upgrades? ==> c.install.Done?) && Allowed(d, RequestOf(c))
  {
    match c
    case Promotes(_, _, _, _, _, _, _, _, _) => PromotionCommits(d, RequestOf(c), c.intact, c.observed, c.on)
    case Upgrades(_, _, _, _, _, _, _, _, _) =>
      && IsUpgrade(d.descriptor, c.version) && c.install.Done?
      && PromotionCommits(d, RequestOf(c), c.intact, c.observed, c.on)
    case RollsBack(_, _, _, _, _, _) => RollbackCommits(d, RequestOf(c), c.intact, c.observed, c.on)
  }

  /**
  The call turned `d` into `e`: the descriptor is the requested one exactly if the call commits. It succeeds exactly
  if moreover the last directory sync goes through, and has then carried out the whole plan.
  */
  ghost predicate Served(d: Disk, c: Call, succeeded: bool, e: Disk) {
    && e.descriptor == (if Commits(d, c) then Some(Whole(Next(d, RequestOf(c)))) else d.descriptor)
    && (succeeded <==> Commits(d, c) && c.on(DescriptorDirectorySync).Proceed?)
    && (succeeded ==> Reached(d, RequestOf(c), |Plan(d, RequestOf(c))|, e))
  }

  method Take(m: Manager, c: Call) returns (r: Outcome<Mutation>)
    modifies m, m.attestations, m.activations
    ensures Operation(old(m.View()), m.View())
    ensures Served(old(m.View()), c, r.Done?, m.View())
    ensures c.Promotes? ==>
      (r == Failed(IntegrityFailed) <==>
         !c.intact || c.observed != Observed(c.identity.version, c.identity.buildSha))
  {
    match c {
      case Promotes(identity, report, action, intact, observed, id, at, temporary, on) =>
        r := m.Promote(identity, report, action, intact, observed, id, at, temporary, on);
      case Upgrades(version, install, report, intact, observed, id, at, temporary, on) =>
        r := m.UpgradeTo(version, install, report, intact, observed, id, at, temporary, on);
      case RollsBack(intact, observed, id, at, temporary, on) =>
        r := m.RollBack(intact, observed, id, at, temporary, on);
    }
  }

  /**
  Any series of calls, each stopped anywhere, from a fresh installation: the disks it goes through
  are a run, so all are sound, and each call changes the descriptor and succeeds exactly as it should.
  */
  method Serve(m: Manager, calls: seq<Call>) returns (results: seq<Outcome<Mutation>>, ghost disks: seq<Disk>)
    requires m.View() == EMPTY
    modifies m, m.attestations, m.activations
    ensures |results| == |calls| && |disks| == |calls| + 1 && disks[|calls|] == m.View()
    ensures Run(disks) && forall i | 0 <= i < |disks| :: Sound(disks[i])
    ensures forall k | 0 <= k < |calls| :: Served(disks[k], calls[k], results[k].Done?, disks[k + 1])
  {
    results, disks := [], [m.View()];
    for k := 0 to |calls|
      invariant |results| == k && |disks| == k + 1 && disks[k] == m.View() && Run(disks)
      invariant forall j | 0 <= j < k :: Served(disks[j], calls[j], results[j].Done?, disks[j + 1])
    {
      ghost var before := m.View();
      var r := Take(m, calls[k]);
      results := results + [r];
      ghost var more := disks + [m.View()];
      RunGrows(disks, m.View());
      disks := more;
    }
    RunSound(disks);
  }

  lemma RunGrows(disks: seq<Disk>, e: Disk)
    requires Run(disks) && Operation(disks[|disks| - 1], e)
    ensures Run(disks + [e])
  {
    var more := disks + [e];
    forall i | 0 < i < |more| ensures Operation(more[i - 1], more[i]) {
      if i < |disks| { assert Operation(disks[i - 1], disks[i]); }
    }
  }

  // ------------------------------------------------- a failure that has taken effect

  lemma {:induction false} AllPassing(checks: seq<Check>, name: string)
    requires forall c | c in checks :: c.status == Pass
    requires exists i :: 0 <= i < |checks| && checks[i].name == name
    ensures LastPassed(checks, name)
  {
    var n := |checks| - 1;
    var i :| 0 <= i < |checks| && checks[i].name == name;
    if checks[n].name == name {
      assert checks[n] == Check(name, Pass);
    } else {
      var fewer := checks[..n];
      assert fewer[i].name == name;
      AllPassing(fewer, name);
      var k :| 0 <= k < n && fewer[k] == Check(name, Pass) && forall j | k < j < n :: fewer[j].name != name;
      assert checks[k] == Check(name, Pass);
      assert forall j | k < j < n :: checks[j] == fewer[j];
    }
  }

  function PassingReport(identity: Identity): Report {
    Report(1, 1, "r", Pass, identity,
      seq(|REQUIRED_CHECKS|, i requires 0 <= i < |REQUIRED_CHECKS| => Check(REQUIRED_CHECKS[i], Pass)))
  }

  lemma PassingReportPasses(identity: Identity)
    ensures Passing(PassingReport(identity), identity)
  {
    var checks := PassingReport(identity).checks;
    forall name | name in REQUIRED_CHECKS ensures LastPassed(checks, name) {
      var i :| 0 <= i < |REQUIRED_CHECKS| && REQUIRED_CHECKS[i] == name;
      assert checks[i].name == name;
      AllPassing(checks, name);
    }
    assert forall c | c in "r" :: c == 'r';
  }

  const FIRST := Identity(Managed, "/1.0.0", Version(1, 0, 0), "b", "d", None)

  const FIRST_REQUEST := Promotion(FIRST, PassingReport(FIRST), Activate, "a", 0, "t")

  const SYNC_FAILS: Hook := b => if b == DescriptorDirectorySync then Throws else Proceed

  /**
  A first activation whose directory sync fails: by the contract of `Promote` it does not succeed,
  and is active all the same.
  */
  lemma FailedYetActive()
    ensures PromotionCommits(EMPTY, FIRST_REQUEST, true, Observed(FIRST.version, FIRST.buildSha), SYNC_FAILS)
    ensures !SYNC_FAILS(DescriptorDirectorySync).Proceed?
    ensures Some(Whole(Next(EMPTY, FIRST_REQUEST))) != EMPTY.descriptor
  {
    PassingReportPasses(FIRST);
    assert forall c | c in "a" :: c == 'a';
  }
}
