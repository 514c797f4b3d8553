/**
The runtime manager as a whole: installing, activating, upgrading, adopting and rolling
back on one directory, where what is published by one kind of call is what another kind
puts into the descriptor. Every call cleans up the staging directory first and may be
cut off anywhere.
*/
module RuntimeManager {
  import opened Prelude
  import Journal = ActivationJournal
  import Install = RuntimeInstall

  type Version = Journal.Version
  type Identity = Journal.Identity
  type Versions = map<Version, Install.Folder>

  /** What a promotion or a rollback meets; `untouched` says that nobody else has changed the entry file. */
  datatype Gate = Gate(
    report: Journal.Report, untouched: bool, observed: Journal.Observed, id: string, at: int, temporary: string,
    on: Journal.Hook)

  /** `removals` is how far the clean-up gets. */
  datatype Call =
    | Installs(q: Install.Request)
    | Activates(removals: nat, version: Version, gate: Gate)
    | Upgrades(q: Install.Request, gate: Gate)
    | Adopts(removals: nat, path: string, probed: Journal.Observed, digest: string, gate: Gate)
    | RollsBack(removals: nat, gate: Gate)

  /** `NotStarted` is a call whose clean-up was cut off; an upgrade that is none installs nothing. */
  datatype Reply =
    | NotStarted
    | Ran(installation: Install.InstallOutcome)
    | Answered(install: Option<Install.InstallOutcome>, outcome: Journal.Outcome<Journal.Mutation>)

  datatype State = State(disk: Journal.Disk, versions: Versions)

  /** An adopted runtime is outside of the directory. */
  function Adopted(path: string, probed: Journal.Observed, digest: string): Identity {
    Journal.Identity(Journal.External, path, probed.version, probed.buildSha, digest, None)
  }

  /** What an upgrade is told of its installation. */
  function Told(o: Option<Install.InstallOutcome>): Journal.Outcome<Identity> {
    match o
    case Some(Installed(identity)) => Journal.Done(identity)
    case Some(ProcessDied) => Journal.Crashed
    case _ => Journal.Failed(Journal.RuntimeNotInstalled)
  }

  /** The recorded identity of an installed version. */
  function RecordOf(versions: Versions, v: Version): Option<Identity> {
    if v in versions && versions[v].record.Some? && versions[v].record.value.Whole?
    then Some(versions[v].record.value.value) else None
  }

  function Promotes(identity: Identity, action: Journal.Action, g: Gate): Journal.Call {
    Journal.Promotes(identity, g.report, action, g.untouched, g.observed, g.id, g.at, g.temporary, g.on)
  }

  function UpgradesTo(version: Version, install: Option<Install.InstallOutcome>, g: Gate): Journal.Call {
    Journal.Upgrades(version, Told(install), g.report, g.untouched, g.observed, g.id, g.at, g.temporary, g.on)
  }

  function ReturnsTo(g: Gate): Journal.Call {
    Journal.RollsBack(g.untouched, g.observed, g.id, g.at, g.temporary, g.on)
  }

  // ------------------------------------------------------------------- what is meant

  /** The file of `x` is the one that was installed: it is there, regular and has the recorded digest. */
  predicate EntryThere(versions: Versions, x: Identity) {
    x.version in versions && versions[x.version].entry == Some(Install.Entry(true, x.binarySha256))
  }

  /** `x` is outside of the directory, or a published version holds exactly its record and its entry file. */
  predicate Published(versions: Versions, x: Identity) {
    x.sourceMode.Managed? ==> RecordOf(versions, x.version) == Some(x) && EntryThere(versions, x)
  }

  ghost predicate Whole(versions: Versions, pathOf: Version -> string) {
    forall v | v in versions :: Install.Complete(v, versions[v], pathOf)
  }

  /** Everything the descriptor names is published. */
  ghost predicate AllPublished(s: State) {
    var a := Journal.Active(s.disk.descriptor);
    a.Some? ==>
      && (a.value.current.Some? ==> Published(s.versions, a.value.current.value))
      && (a.value.previous.Some? ==> Published(s.versions, a.value.previous.value))
  }

  /** The descriptor is readable, attested and journalled, and what it names is published and whole. */
  ghost predicate Good(s: State, pathOf: Version -> string) {
    Journal.Sound(s.disk) && Whole(s.versions, pathOf) && AllPublished(s)
  }

  ghost predicate Kept(before: Versions, after: Versions) {
    forall v | v in before :: v in after && after[v] == before[v]
  }

  /** What one call did to the journal, given what was published before it. */
  ghost predicate Served(i: Install.Installer, s: State, c: Call, r: Reply, t: State) {
    && Kept(s.versions, t.versions) && Journal.Operation(s.disk, t.disk)
    && match c
       case Installs(q) => r.Ran? && t.disk == s.disk && Install.Served(i, q, r.installation, s.versions, t.versions)
       case Activates(_, v, g) =>
         && t.versions == s.versions && !r.Ran?
         && if r.NotStarted? then t.disk == s.disk
            else if RecordOf(s.versions, v).None?
            then t.disk == s.disk && r.outcome == Journal.Failed(Journal.RuntimeNotInstalled)
            else Journal.Served(
              s.disk, Promotes(RecordOf(s.versions, v).value, Journal.Activate, g), r.outcome.Done?, t.disk)
       case Upgrades(q, g) =>
         && !r.Ran?
         && if r.NotStarted? then t == s
            else
              && (r.install.Some? <==> Journal.IsUpgrade(s.disk.descriptor, q.version))
              && (if r.install.Some? then Install.Served(i, q, r.install.value, s.versions, t.versions)
                  else t.versions == s.versions)
              && Journal.Served(s.disk, UpgradesTo(q.version, r.install, g), r.outcome.Done?, t.disk)
       case Adopts(_, path, probed, digest, g) =>
         && t.versions == s.versions && !r.Ran?
         && if r.NotStarted? then t.disk == s.disk
            else Journal.Served(
              s.disk, Promotes(Adopted(path, probed, digest), Journal.Adopt, g), r.outcome.Done?, t.disk)
       case RollsBack(_, g) =>
         && t.versions == s.versions && !r.Ran?
         && if r.NotStarted? then t.disk == s.disk
            else Journal.Served(s.disk, ReturnsTo(g), r.outcome.Done?, t.disk)
  }

  // -------------------------------------------------------------------- one call

  lemma PublishedKept(before: Versions, after: Versions, x: Identity)
    requires Kept(before, after) && Published(before, x)
    ensures Published(after, x)
  {
  }

  /** What is recorded under a version is what is published under it. */
  lemma RecordIsPublished(versions: Versions, pathOf: Version -> string, v: Version)
    requires Whole(versions, pathOf) && v in versions
    ensures RecordOf(versions, v).Some? && RecordOf(versions, v).value.version == v
    ensures Published(versions, RecordOf(versions, v).value) && EntryThere(versions, RecordOf(versions, v).value)
  {
    assert Install.Complete(v, versions[v], pathOf);
  }

  /** The descriptor names what it named before, or the published identity that a promotion asks for. */
  lemma NamesPublished(s: State, c: Journal.Call, succeeded: bool, t: State)
    requires AllPublished(s) && Kept(s.versions, t.versions) && Journal.Served(s.disk, c, succeeded, t.disk)
    requires c.Promotes? && Journal.Commits(s.disk, c) ==> Published(t.versions, c.identity)
    requires c.Upgrades? && Journal.Commits(s.disk, c) ==> Published(t.versions, c.install.value)
    ensures AllPublished(t)
  {
    var a := Journal.Active(s.disk.descriptor);
    if a.Some? && a.value.current.Some? { PublishedKept(s.versions, t.versions, a.value.current.value); }
    if a.Some? && a.value.previous.Some? { PublishedKept(s.versions, t.versions, a.value.previous.value); }
  }

  class Manager {
    const journal: Journal.Manager
    const installer: Install.Installer

    constructor (pathOf: Version -> string, isStagingId: string -> bool)
      ensures fresh(journal) && fresh(journal.attestations) && fresh(journal.activations) && fresh(installer)
      ensures View() == State(Journal.EMPTY, map[]) && Valid()
    {
      journal := new Journal.Manager();
      installer := new Install.Installer(pathOf, isStagingId);
    }

    ghost function View(): State
      reads journal, journal.attestations, journal.activations, installer
    {
      State(journal.View(), installer.versions)
    }

    ghost predicate Valid()
      reads journal, journal.attestations, journal.activations, installer
    {
      Good(View(), installer.pathOf)
    }

    /** The clean-up, then a call on the journal that changes no version. */
    method Record(removals: nat, c: Journal.Call) returns (r: Reply)
      requires Valid()
      modifies journal, journal.attestations, journal.activations, installer
      ensures r.NotStarted? || (r.Answered? && r.install.None?)
      ensures View().versions == old(View()).versions && Journal.Operation(old(View()).disk, View().disk)
      ensures r.NotStarted? ==> View().disk == old(View()).disk
      ensures r.Answered? ==> Journal.Served(old(View()).disk, c, r.outcome.Done?, View().disk)
      ensures r.Answered? && c.Promotes? ==>
        (r.outcome == Journal.Failed(Journal.IntegrityFailed) <==>
           !c.intact || c.observed != Journal.Observed(c.identity.version, c.identity.buildSha))
    {
      var done := installer.CleanStaging(removals);
      if !done { return NotStarted; }
      var outcome := Journal.Take(journal, c);
      return Answered(None, outcome);
    }

    method DoInstall(q: Install.Request) returns (r: Reply)
      requires Valid()
      modifies installer
      ensures Valid() && Served(installer, old(View()), Installs(q), r, View())
    {
      ghost var s := View();
      var outcome := Install.Serve(installer, q);
      r := Ran(outcome);
      forall x | Published(s.versions, x) ensures Published(installer.versions, x) {
        PublishedKept(s.versions, installer.versions, x);
      }
    }

    method Activate(removals: nat, v: Version, g: Gate) returns (r: Reply)
      requires Valid()
      modifies journal, journal.attestations, journal.activations, installer
      ensures Valid() && Served(installer, old(View()), Activates(removals, v, g), r, View())
      ensures var x := RecordOf(old(View()).versions, v);
        r.Answered? && x.Some? ==>
          (r.outcome == Journal.Failed(Journal.IntegrityFailed) <==>
             !g.untouched || g.observed != Journal.Observed(x.value.version, x.value.buildSha))
    {
      ghost var s := View();
      var record := RecordOf(installer.versions, v);
      if record.None? {
        var done := installer.CleanStaging(removals);
        return if done then Answered(None, Journal.Failed(Journal.RuntimeNotInstalled)) else NotStarted;
      }
      RecordIsPublished(installer.versions, installer.pathOf, v);
      var intact := g.untouched && EntryThere(installer.versions, record.value);
      var c := Promotes(record.value, Journal.Activate, g.(untouched := intact));
      assert c == Promotes(record.value, Journal.Activate, g);
      r := Record(removals, c);
      Journal.OperationKeeps(s.disk, View().disk);
      if r.Answered? { NamesPublished(s, c, r.outcome.Done?, View()); }
    }

    method Adopt(removals: nat, path: string, probed: Journal.Observed, digest: string, g: Gate) returns (r: Reply)
      requires Valid()
      modifies journal, journal.attestations, journal.activations, installer
      ensures Valid() && Served(installer, old(View()), Adopts(removals, path, probed, digest, g), r, View())
    {
      ghost var s := View();
      var c := Promotes(Adopted(path, probed, digest), Journal.Adopt, g);
      r := Record(removals, c);
      Journal.OperationKeeps(s.disk, View().disk);
      if r.Answered? { NamesPublished(s, c, r.outcome.Done?, View()); }
    }

    method RollBack(removals: nat, g: Gate) returns (r: Reply)
      requires Valid()
      modifies journal, journal.attestations, journal.activations, installer
      ensures Valid() && Served(installer, old(View()), RollsBack(removals, g), r, View())
    {
      ghost var s := View();
      var previous := Journal.Active(journal.descriptor).value.previous;
      var outside := previous.None? || previous.value.sourceMode.External?;
      var there := outside || EntryThere(installer.versions, previous.value);
      var c := ReturnsTo(g.(untouched := g.untouched && there));
      assert c == ReturnsTo(g);
      r := Record(removals, c);
      Journal.OperationKeeps(s.disk, View().disk);
      if r.Answered? { NamesPublished(s, c, r.outcome.Done?, View()); }
    }

    /** Nothing is installed for what is no upgrade. */
    method RefuseUpgrade(q: Install.Request, g: Gate) returns (r: Reply)
      requires Valid() && !Journal.IsUpgrade(journal.descriptor, q.version)
      modifies journal, journal.attestations, journal.activations, installer
      ensures Valid() && Served(installer, old(View()), Upgrades(q, g), r, View())
    {
      ghost var s := View();
      var c := UpgradesTo(q.version, None, g);
      r := Record(q.removals, c);
      Journal.OperationKeeps(s.disk, View().disk);
      if r.Answered? { NamesPublished(s, c, r.outcome.Done?, View()); }
    }

    /** The entry file of what was just installed is there. */
    method Look(q: Install.Request, installation: Install.InstallOutcome) returns (there: bool)
      requires Whole(installer.versions, installer.pathOf)
      requires installation.Installed? ==> RecordOf(installer.versions, q.version) == Some(installation.identity)
      ensures there && (installation.Installed? ==> Published(installer.versions, installation.identity))
    {
      if !installation.Installed? { return true; }
      RecordIsPublished(installer.versions, installer.pathOf, q.version);
      return EntryThere(installer.versions, installation.identity);
    }

    /** Promotes what was installed; the call began in `s`. */
    method Promote(q: Install.Request, installation: Install.InstallOutcome, g: Gate, ghost s: State)
      returns (r: Reply)
      requires Good(s, installer.pathOf) && Whole(installer.versions, installer.pathOf)
      requires Kept(s.versions, installer.versions) && journal.View() == s.disk
      requires installation.Installed? ==> RecordOf(installer.versions, q.version) == Some(installation.identity)
      modifies journal, journal.attestations, journal.activations
      ensures Valid() && r.Answered? && r.install == Some(installation)
      ensures Journal.Operation(s.disk, View().disk)
      ensures Journal.Served(s.disk, UpgradesTo(q.version, Some(installation), g), r.outcome.Done?, View().disk)
    {
      var there := Look(q, installation);
      var c := UpgradesTo(q.version, Some(installation), g.(untouched := g.untouched && there));
      assert c == UpgradesTo(q.version, Some(installation), g);
      var outcome := Journal.Take(journal, c);
      r := Answered(Some(installation), outcome);
      Journal.OperationKeeps(s.disk, View().disk);
      NamesPublished(s, c, outcome.Done?, View());
    }

    /** Installs only what is newer than the active version, and then promotes what was installed. */
    method Upgrade(q: Install.Request, g: Gate) returns (r: Reply)
      requires Valid()
      modifies journal, journal.attestations, journal.activations, installer
      ensures Valid() && Served(installer, old(View()), Upgrades(q, g), r, View())
    {
      if !Journal.IsUpgrade(journal.descriptor, q.version) {
        r := RefuseUpgrade(q, g);
        return;
      }
      ghost var s := View();
      var installation := Install.Serve(installer, q);
      if installation.NotStarted? {
        assert installer.versions == s.versions;
        return NotStarted;
      }
      r := Promote(q, installation, g, s);
    }

    method Take(c: Call) returns (r: Reply)
      requires Valid()
      modifies journal, journal.attestations, journal.activations, installer
      ensures Valid() && Served(installer, old(View()), c, r, View())
    {
      match c {
        case Installs(q) => r := DoInstall(q);
        case Activates(removals, v, g) => r := Activate(removals, v, g);
        case Upgrades(q, g) => r := Upgrade(q, g);
        case Adopts(removals, path, probed, digest, g) => r := Adopt(removals, path, probed, digest, g);
        case RollsBack(removals, g) => r := RollBack(removals, g);
      }
    }
  }

  /**
  A version that was installed passes the identity check of its activation exactly if its running entry reports that
  version and the build of the manifest, and nobody touched the entry file.
  */
  method InstallThenActivate(m: Manager, q: Install.Request, removals: nat, g: Gate) returns (r: Reply, a: Reply)
    requires m.Valid()
    modifies m.journal, m.journal.attestations, m.journal.activations, m.installer
    ensures m.Valid()
    ensures r.Ran? && r.installation.Installed? && a.Answered? ==>
      (a.outcome == Journal.Failed(Journal.IntegrityFailed) <==>
         !g.untouched || g.observed != Journal.Observed(q.version, q.manifest.buildSha))
  {
    r := m.DoInstall(q);
    a := m.Activate(removals, q.version, g);
  }

  /**
  Any series of calls, each cut off anywhere, from a new directory: at every moment everything that the descriptor
  names is attested and journalled and, unless it was adopted, is a published whole version with exactly its record
  and its entry file. No version is ever replaced, and each call does to both what it should.
  */
  method Run(m: Manager, calls: seq<Call>) returns (replies: seq<Reply>, ghost states: seq<State>)
    requires m.Valid()
    modifies m.journal, m.journal.attestations, m.journal.activations, m.installer
    ensures |replies| == |calls| && |states| == |calls| + 1
    ensures states[0] == old(m.View()) && states[|calls|] == m.View()
    ensures forall k | 0 <= k < |states| :: Good(states[k], m.installer.pathOf)
    ensures forall k | 0 <= k < |calls| :: Served(m.installer, states[k], calls[k], replies[k], states[k + 1])
    ensures forall j, k | 0 <= j <= k < |states| :: Kept(states[j].versions, states[k].versions)
  {
    replies, states := [], [m.View()];
    for n := 0 to |calls|
      invariant m.Valid() && |replies| == n && |states| == n + 1
      invariant states[0] == old(m.View()) && states[n] == m.View()
      invariant forall k | 0 <= k <= n :: Good(states[k], m.installer.pathOf)
      invariant forall k | 0 <= k < n :: Served(m.installer, states[k], calls[k], replies[k], states[k + 1])
    {
      var r := m.Take(calls[n]);
      replies, states := replies + [r], states + [m.View()];
    }
    forall j, k | 0 <= j <= k < |states| ensures Kept(states[j].versions, states[k].versions) {
      KeptForGood(m.installer, states, calls, replies, j, k);
    }
  }

  lemma {:induction false} KeptForGood(
    i: Install.Installer, states: seq<State>, calls: seq<Call>, replies: seq<Reply>, j: nat, k: nat)
    requires |replies| == |calls| && |states| == |calls| + 1 && j <= k < |states|
    requires forall n | 0 <= n < |calls| :: Served(i, states[n], calls[n], replies[n], states[n + 1])
    ensures Kept(states[j].versions, states[k].versions)
    decreases k
  {
    if j < k {
      KeptForGood(i, states, calls, replies, j, k - 1);
      assert Served(i, states[k - 1], calls[k - 1], replies[k - 1], states[k]);
    }
  }
}
