/**
Installing a runtime version: everything is put together in a staging directory, which
is then renamed to the version's own directory. An operation may fail or the process
may die before any filesystem step. Download, signature and checksum are parameters.
*/
module RuntimeInstall {
  import opened Prelude
  import opened ActivationJournal

  /** The daemon entry of an unpacked archive. */
  datatype Entry = Entry(regular: bool, digest: string)

  datatype Folder = Folder(archive: bool, entry: Option<Entry>, record: Option<File<Identity>>)

  /** What a verified manifest says. */
  datatype Manifest = Manifest(buildSha: string, sha256: string)

  /** Unpacking ends, or fails after part of the work. */
  datatype Extraction = Extracted(entry: Option<Entry>) | ExtractionFailed(entry: Option<Entry>)

  datatype Step =
    | ArchiveCreate | ArchiveWrite | ArchiveFileSync | Extract | ArchiveUnlink
    | InstallRecordCreate | InstallRecordWrite | InstallRecordFileSync | InstallRecordDirectorySync
    | VersionRename | VersionDirectorySync

  type Hook = Step -> Interrupt

  datatype InstallError =
    | InvalidStagingId | StagingExists | ArchiveInvalid | NotInstalled | Damaged | InstallConflict | StepStopped

  /** `NotStarted` is a call whose clean-up of earlier leftovers was cut off. */
  datatype InstallOutcome = Installed(identity: Identity) | Refused(error: InstallError) | ProcessDied | NotStarted

  /** `f` is a whole installation of `v`. */
  ghost predicate Complete(v: Version, f: Folder, pathOf: Version -> string) {
    !f.archive && f.record.Some? && f.record.value.Whole? &&
    var i := f.record.value.value;
    i.version == v && i.sourceMode.Managed? && i.entryPath == pathOf(v) && f.entry == Some(Entry(true, i.binarySha256))
  }

  /** Nothing stops the work on the archive, and it holds a regular daemon entry. */
  predicate Unpacked(x: Extraction, on: Hook) {
    && x.Extracted? && x.entry.Some? && x.entry.value.regular
    && on(ArchiveCreate).Proceed? && on(ArchiveWrite).Proceed? && on(ArchiveFileSync).Proceed? && on(Extract).Proceed?
    && on(ArchiveUnlink).Proceed?
  }

  predicate Recorded(on: Hook) {
    && on(InstallRecordCreate).Proceed? && on(InstallRecordWrite).Proceed?
    && on(InstallRecordFileSync).Proceed? && on(InstallRecordDirectorySync).Proceed?
  }

  /** Nothing stops the work in the staging directory. */
  predicate Staged(x: Extraction, on: Hook) { Unpacked(x, on) && Recorded(on) }

  /** The archive is there, but does not unpack or holds no regular daemon entry. */
  predicate UnfitArchive(x: Extraction, on: Hook) {
    && on(ArchiveCreate).Proceed? && on(ArchiveWrite).Proceed? && on(ArchiveFileSync).Proceed? && on(Extract).Proceed?
    && (x.ExtractionFailed? || (on(ArchiveUnlink).Proceed? && (x.entry.None? || !x.entry.value.regular)))
  }

  /** No step is stopped in this way. */
  ghost predicate Never(i: Interrupt, on: Hook) { forall s :: on(s) != i }

  function NewIdentity(v: Version, m: Manifest, digest: string, pathOf: Version -> string): Identity {
    Identity(Managed, pathOf(v), v, m.buildSha, digest, Some(m.sha256))
  }

  /** The identity is that of version `v`, built and packed as the manifest says, with the entry that was unpacked. */
  predicate DescribedBy(i: Identity, v: Version, m: Manifest, x: Extraction, pathOf: Version -> string) {
    && i.sourceMode.Managed? && i.version == v && i.entryPath == pathOf(v)
    && i.buildSha == m.buildSha && i.archiveSha256 == Some(m.sha256)
    && x.entry.Some? && i.binarySha256 == x.entry.value.digest
  }

  /** The answer once everything is staged: a version that is there already must be the same one. */
  function Ending(versions: map<Version, Folder>, v: Version, identity: Identity, on: Hook): InstallOutcome {
    var stop := if on(VersionRename).Proceed? then on(VersionDirectorySync) else on(VersionRename);
    if v in versions && on(VersionRename).Proceed? then
      if versions[v].record == Some(Whole(identity)) then Installed(identity) else Refused(InstallConflict)
    else if stop.Proceed? then Installed(identity)
    else if stop.Dies? then ProcessDied
    else Refused(StepStopped)
  }

  ghost predicate AtMostOneId(names: set<string>, isStagingId: string -> bool) {
    forall m, n | m in names && n in names && isStagingId(m) && isStagingId(n) :: m == n
  }

  class Installer {
    const pathOf: Version -> string
    const isStagingId: string -> bool
    var versions: map<Version, Folder>
    var staging: map<string, Folder>

    constructor (pathOf: Version -> string, isStagingId: string -> bool)
      ensures Valid() && versions == map[] && staging == map[]
      ensures this.pathOf == pathOf && this.isStagingId == isStagingId
    {
      this.pathOf, this.isStagingId := pathOf, isStagingId;
      versions, staging := map[], map[];
    }

    /** Whatever was cut off, only whole installations stand under a version. */
    ghost predicate Valid()
      reads this
    {
      forall v | v in versions :: Complete(v, versions[v], pathOf)
    }

    /**
    Goes through the staging directory in any order and removes what a staging identifier names, until it is cut off
    after so many removals. Everything else is kept, and it says whether any such directory is left.
    */
    method CleanStaging(removals: nat) returns (done: bool)
      modifies this`staging
      ensures forall n | n in staging :: n in old(staging) && staging[n] == old(staging)[n]
      ensures forall n | n in old(staging) && !isStagingId(n) :: n in staging
      ensures done <==> forall n | n in staging :: !isStagingId(n)
      ensures removals > 0 && AtMostOneId(old(staging).Keys, isStagingId) ==> done
    {
      var entries, left := staging.Keys, removals;
      while entries != {}
        invariant entries <= staging.Keys
        invariant forall n | n in staging :: n in old(staging) && staging[n] == old(staging)[n]
        invariant forall n | n in old(staging) && !isStagingId(n) :: n in staging
        invariant forall n | n in staging && n !in entries :: !isStagingId(n)
        invariant AtMostOneId(old(staging).Keys, isStagingId) ==>
          left == removals || forall n | n in staging :: !isStagingId(n)
        decreases |entries|
      {
        var n :| n in entries;
        entries := entries - {n};
        if isStagingId(n) {
          if left == 0 { return false; }
          staging, left := staging - {n}, left - 1;
        }
      }
      return true;
    }

    /** Puts the archive into the staging directory, unpacks it and removes it again. */
    method Unpack(id: string, x: Extraction, on: Hook) returns (stop: Interrupt, error: InstallError)
      requires id in staging
      modifies this`staging
      ensures id in staging && staging - {id} == old(staging) - {id}
      ensures stop.Proceed? <==> Unpacked(x, on)
      ensures stop.Proceed? ==> staging[id] == Folder(false, x.entry, None)
      ensures UnfitArchive(x, on) ==> stop.Throws? && error == ArchiveInvalid
      ensures stop.Dies? ==> !Never(Dies, on)
      ensures stop.Throws? ==> error == ArchiveInvalid || (error == StepStopped && !Never(Throws, on))
    {
      error := StepStopped;
      if on(ArchiveCreate) != Proceed { return on(ArchiveCreate), error; }
      staging := staging[id := Folder(true, None, None)];
      if on(ArchiveWrite) != Proceed { return on(ArchiveWrite), error; }
      if on(ArchiveFileSync) != Proceed { return on(ArchiveFileSync), error; }
      if on(Extract) != Proceed { return on(Extract), ArchiveInvalid; }
      staging := staging[id := Folder(true, x.entry, None)];
      if x.ExtractionFailed? { return Throws, ArchiveInvalid; }
      if on(ArchiveUnlink) != Proceed { return on(ArchiveUnlink), error; }
      staging := staging[id := Folder(false, x.entry, None)];
      if x.entry.None? || !x.entry.value.regular { return Throws, ArchiveInvalid; }
      return Proceed, error;
    }

    /** Writes the install record beside the unpacked archive. */
    method WriteRecord(id: string, identity: Identity, on: Hook) returns (stop: Interrupt)
      requires id in staging
      modifies this`staging
      ensures id in staging && staging - {id} == old(staging) - {id}
      ensures stop.Proceed? <==> Recorded(on)
      ensures stop.Proceed? ==> staging[id] == old(staging)[id].(record := Some(Whole(identity)))
      ensures (stop.Dies? ==> !Never(Dies, on)) && (stop.Throws? ==> !Never(Throws, on))
    {
      if on(InstallRecordCreate) != Proceed { return on(InstallRecordCreate); }
      staging := staging[id := staging[id].(record := Some(Torn))];
      if on(InstallRecordWrite) != Proceed { return on(InstallRecordWrite); }
      staging := staging[id := staging[id].(record := Some(Whole(identity)))];
      if on(InstallRecordFileSync) != Proceed { return on(InstallRecordFileSync); }
      return on(InstallRecordDirectorySync);
    }

    /** Fills the staging directory; `Proceed` means that it is a whole installation. */
    method Stage(id: string, v: Version, m: Manifest, x: Extraction, on: Hook)
      returns (stop: Interrupt, error: InstallError)
      requires id in staging
      modifies this`staging
      ensures id in staging && staging - {id} == old(staging) - {id}
      ensures stop.Proceed? <==> Staged(x, on)
      ensures stop.Proceed? ==>
        staging[id] == Folder(false, x.entry, Some(Whole(NewIdentity(v, m, x.entry.value.digest, pathOf))))
      ensures UnfitArchive(x, on) ==> stop.Throws? && error == ArchiveInvalid
      ensures stop.Dies? ==> !Never(Dies, on)
      ensures stop.Throws? ==> error == ArchiveInvalid || (error == StepStopped && !Never(Throws, on))
    {
      stop, error := Unpack(id, x, on);
      if stop.Proceed? {
        error := StepStopped;
        stop := WriteRecord(id, NewIdentity(v, m, x.entry.value.digest, pathOf), on);
      }
    }

    /** Another installation stands under this version already. */
    method CompareExisting(v: Version, identity: Identity) returns (r: InstallOutcome)
      requires v in versions
      ensures Valid() ==>
        r == if versions[v].record == Some(Whole(identity)) then Installed(identity) else Refused(InstallConflict)
    {
      var record := versions[v].record;
      if record.None? { return Refused(NotInstalled); }
      if record.value.Torn? { return Refused(Damaged); }
      var existing := record.value.value;
      if versions[v].entry != Some(Entry(true, existing.binarySha256)) { return Refused(Damaged); }
      if existing != identity { return Refused(InstallConflict); }
      return Installed(existing);
    }

    /** The rename of a whole staging directory to its version. */
    method Publish(v: Version, id: string, identity: Identity, on: Hook) returns (r: InstallOutcome)
      requires Valid() && id in staging && staging[id].record == Some(Whole(identity))
      requires Complete(v, staging[id], pathOf)
      modifies this
      ensures Valid()
      ensures versions ==
        if v !in old(versions) && on(VersionRename).Proceed? then old(versions)[v := old(staging)[id]]
        else old(versions)
      ensures r == Ending(old(versions), v, identity, on)
      ensures staging == old(staging) - {id} || (r.ProcessDied? && staging == old(staging))
    {
      var stop := on(VersionRename);
      if stop.Proceed? {
        if v in versions {
          r := CompareExisting(v, identity);
          staging := staging - {id};
          return;
        }
        versions := versions[v := staging[id]];
        staging := staging - {id};
        stop := on(VersionDirectorySync);
        if stop.Proceed? { return Installed(identity); }
      }
      if stop.Dies? { return ProcessDied; }
      staging := staging - {id};
      return Refused(StepStopped);
    }

    method Install(v: Version, m: Manifest, id: string, x: Extraction, on: Hook) returns (r: InstallOutcome)
      requires Valid()
      modifies this
      ensures Valid()
      // a version is published once, whole, and never touched again
      ensures (forall w | w in old(versions) :: w in versions && versions[w] == old(versions)[w])
        && (forall w | w in versions && w !in old(versions) :: w == v)
      ensures v in versions && v !in old(versions) <==>
        v !in old(versions) && isStagingId(id) && id !in old(staging) && Staged(x, on) && on(VersionRename).Proceed?
      // the answer is determined once the work in staging is done, and success names what is there
      ensures isStagingId(id) && id !in old(staging) && Staged(x, on) ==>
        r == Ending(old(versions), v, NewIdentity(v, m, x.entry.value.digest, pathOf), on)
      ensures r.Installed? ==> v in versions && versions[v].record == Some(Whole(r.identity))
      ensures r.Installed? ==> DescribedBy(r.identity, v, m, x, pathOf)
      ensures v in versions && v !in old(versions) ==>
        versions[v].record.Some? && versions[v].record.value.Whole?
        && DescribedBy(versions[v].record.value.value, v, m, x, pathOf)
      ensures !r.NotStarted?
      // the version is new and the call has not succeeded, exactly when only the last directory sync was stopped
      ensures v in versions && v !in old(versions) && !r.Installed? <==>
        && v !in old(versions) && isStagingId(id) && id !in old(staging) && Staged(x, on)
        && on(VersionRename).Proceed? && !on(VersionDirectorySync).Proceed?
      ensures (r.ProcessDied? ==> !Never(Dies, on)) && (r == Refused(StepStopped) ==> !Never(Throws, on))
      ensures !isStagingId(id) ==> r == Refused(InvalidStagingId)
      ensures isStagingId(id) && id in old(staging) ==> r == Refused(StagingExists)
      // only the end of the process leaves anything in staging, and only under this operation's name
      ensures !r.ProcessDied? ==> staging == old(staging)
      ensures staging - {id} == old(staging) - {id}
    {
      if !isStagingId(id) { return Refused(InvalidStagingId); }
      if id in staging { return Refused(StagingExists); }
      staging := staging[id := Folder(false, None, None)];
      var stop, error := Stage(id, v, m, x, on);
      if stop.Proceed? {
        r := Publish(v, id, NewIdentity(v, m, x.entry.value.digest, pathOf), on);
      } else if stop.Dies? {
        r := ProcessDied;
      } else {
        staging := staging - {id};
        r := Refused(error);
      }
    }
  }

  const V: Version := Version(1, 0, 0)

  const SYNC_STOPPED: Hook := s => if s == VersionDirectorySync then Throws else Proceed

  /** An installation whose last directory sync fails is refused, and installed all the same. */
  method RefusedYetInstalled() returns (i: Installer, r: InstallOutcome)
    ensures r == Refused(StepStopped) && V in i.versions && i.Valid()
  {
    i := new Installer(v => "/runtime", n => true);
    r := i.Install(V, Manifest("b", "a"), "id", Extracted(Some(Entry(true, "d"))), SYNC_STOPPED);
  }

  /** One call: how far its clean-up gets, and what then happens to the installation. */
  datatype Request = Request(
    removals: nat, version: Version, manifest: Manifest, id: string, extraction: Extraction, on: Hook)

  /** `n` was left by a request during which the process died, and no later request got beyond its clean-up. */
  ghost predicate LeftBy(requests: seq<Request>, results: seq<InstallOutcome>, n: string) {
    exists j :: 0 <= j < |results| <= |requests| && n == requests[j].id && results[j].ProcessDied?
      && forall l | j < l < |results| :: results[l].NotStarted?
  }

  lemma LeftGrows(requests: seq<Request>, results: seq<InstallOutcome>, n: string)
    requires LeftBy(requests, results, n) && |results| < |requests|
    ensures LeftBy(requests, results + [NotStarted], n)
  {
    var j :| 0 <= j < |results| <= |requests| && n == requests[j].id && results[j].ProcessDied?
      && forall l | j < l < |results| :: results[l].NotStarted?;
    assert (results + [NotStarted])[j].ProcessDied?;
  }

  lemma LeftOnce(requests: seq<Request>, results: seq<InstallOutcome>, m: string, n: string)
    requires LeftBy(requests, results, m) && LeftBy(requests, results, n)
    ensures m == n
  {
  }

  /** A request whose clean-up is done gets as far as the rename. */
  predicate Publishes(i: Installer, q: Request) {
    i.isStagingId(q.id) && Staged(q.extraction, q.on) && q.on(VersionRename).Proceed?
  }

  /** One request turned the versions `before` into `after`. */
  ghost predicate Served(
    i: Installer, q: Request, r: InstallOutcome, before: map<Version, Folder>, after: map<Version, Folder>)
  {
    && (forall w | w in before :: w in after && after[w] == before[w])
    && (forall w | w in after && w !in before :: w == q.version && !r.NotStarted? && Publishes(i, q))
    && (!r.NotStarted? && Publishes(i, q) ==> q.version in after)
    && (!r.NotStarted? && !i.isStagingId(q.id) ==> r == Refused(InvalidStagingId))
    && (!r.NotStarted? && i.isStagingId(q.id) && Staged(q.extraction, q.on) ==>
          var identity := NewIdentity(q.version, q.manifest, q.extraction.entry.value.digest, i.pathOf);
          r == Ending(before, q.version, identity, q.on))
    && (r.Installed? ==> q.version in after && after[q.version].record == Some(Whole(r.identity)))
    && (r.Installed? ==> DescribedBy(r.identity, q.version, q.manifest, q.extraction, i.pathOf))
    && (q.version in after && q.version !in before ==>
          && after[q.version].record.Some? && after[q.version].record.value.Whole?
          && DescribedBy(after[q.version].record.value.value, q.version, q.manifest, q.extraction, i.pathOf))
  }

  /** Every request of a series was served in turn. */
  ghost predicate AllServed(
    i: Installer, requests: seq<Request>, results: seq<InstallOutcome>, stands: seq<map<Version, Folder>>)
  {
    && |results| <= |requests| && |stands| == |results| + 1
    && forall k | 0 <= k < |results| :: Served(i, requests[k], results[k], stands[k], stands[k + 1])
  }

  /** What stands once, stands for good. */
  lemma {:induction false} StandsForGood(
    i: Installer, requests: seq<Request>, results: seq<InstallOutcome>, stands: seq<map<Version, Folder>>,
    j: nat, k: nat)
    requires AllServed(i, requests, results, stands) && j <= k < |stands|
    ensures forall w | w in stands[j] :: w in stands[k] && stands[k][w] == stands[j][w]
    decreases k
  {
    if j < k {
      StandsForGood(i, requests, results, stands, j, k - 1);
      assert Served(i, requests[k - 1], results[k - 1], stands[k - 1], stands[k]);
    }
  }

  /** What is left in staging under a staging identifier was left by the last request that got that far. */
  ghost predicate OnlyLast(i: Installer, requests: seq<Request>, results: seq<InstallOutcome>)
    reads i
  {
    forall n | n in i.staging && i.isStagingId(n) :: LeftBy(requests, results, n)
  }

  /** Clean-up and installation. What is then in staging was left by this request or, if it did not start, was there. */
  method Serve(i: Installer, q: Request) returns (r: InstallOutcome)
    requires i.Valid()
    modifies i
    ensures i.Valid() && Served(i, q, r, old(i.versions), i.versions)
    ensures q.removals > 0 && AtMostOneId(old(i.staging).Keys, i.isStagingId) ==> !r.NotStarted?
    ensures forall n | n in i.staging && i.isStagingId(n) ::
      if r.NotStarted? then n in old(i.staging) else r.ProcessDied? && n == q.id
  {
    var done := i.CleanStaging(q.removals);
    if !done { return NotStarted; }
    ghost var clean := i.staging;
    r := i.Install(q.version, q.manifest, q.id, q.extraction, q.on);
    assert i.staging.Keys - {q.id} == (i.staging - {q.id}).Keys <= clean.Keys;
  }

  /**
  Any series of installations, each cut off anywhere; `stands` holds the versions before and after each request.
  Under every version stands a whole installation, none is ever replaced or removed, a new one appears exactly when a
  request gets as far as its rename, and of all the interrupted attempts at most the last one's leftovers remain.
  */
  method RunInstalls(i: Installer, requests: seq<Request>)
    returns (results: seq<InstallOutcome>, ghost stands: seq<map<Version, Folder>>)
    requires i.Valid() && forall n | n in i.staging :: !i.isStagingId(n)
    modifies i
    ensures i.Valid() && |results| == |requests| && AllServed(i, requests, results, stands)
    ensures stands[0] == old(i.versions) && stands[|requests|] == i.versions
    ensures forall k | 0 <= k < |requests| && requests[k].removals > 0 :: !results[k].NotStarted?
    ensures forall w | w in old(i.versions) :: w in i.versions && i.versions[w] == old(i.versions)[w]
    ensures forall k | 0 <= k < |requests| && results[k].Installed? ::
      requests[k].version in i.versions && i.versions[requests[k].version].record == Some(Whole(results[k].identity))
    ensures OnlyLast(i, requests, results)
  {
    results, stands := [], [i.versions];
    for k := 0 to |requests|
      invariant i.Valid() && |results| == k && AllServed(i, requests, results, stands)
      invariant stands[0] == old(i.versions) && stands[k] == i.versions
      invariant forall j | 0 <= j < k && requests[j].removals > 0 :: !results[j].NotStarted?
      invariant OnlyLast(i, requests, results)
    {
      var r := ServeNext(i, requests, results);
      results, stands := results + [r], stands + [i.versions];
    }
    StandsForGood(i, requests, results, stands, 0, |requests|);
    forall k | 0 <= k < |requests| && results[k].Installed?
      ensures requests[k].version in i.versions
      ensures i.versions[requests[k].version].record == Some(Whole(results[k].identity))
    {
      assert Served(i, requests[k], results[k], stands[k], stands[k + 1]);
      StandsForGood(i, requests, results, stands, k + 1, |requests|);
    }
  }

  /** The next request of a series. */
  method ServeNext(i: Installer, requests: seq<Request>, results: seq<InstallOutcome>) returns (r: InstallOutcome)
    requires i.Valid() && |results| < |requests| && OnlyLast(i, requests, results)
    modifies i
    ensures i.Valid() && Served(i, requests[|results|], r, old(i.versions), i.versions)
    ensures requests[|results|].removals > 0 ==> !r.NotStarted?
    ensures OnlyLast(i, requests, results + [r])
  {
    forall m, n | m in i.staging && n in i.staging && i.isStagingId(m) && i.isStagingId(n) ensures m == n {
      LeftOnce(requests, results, m, n);
    }
    r := Serve(i, requests[|results|]);
    ghost var more := results + [r];
    forall n | n in i.staging && i.isStagingId(n) ensures LeftBy(requests, more, n) {
      if r.NotStarted? { LeftGrows(requests, results, n); } else { assert more[|results|].ProcessDied?; }
    }
  }
}
