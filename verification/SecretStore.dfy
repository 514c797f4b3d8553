/**
The file store of secrets against the in-memory store. A write goes to a temporary
file that is renamed over the entry; it may fail, or the process may die, at any step.
Permissions of the directory and of the files are not modelled.
*/
module SecretStore {
  import opened Prelude
  import opened Texts

  datatype Error = InvalidName | Corrupt | WriteFailed | Died

  // --------------------------------------------------------------------- names

  predicate AlphaNumeric(u: Unit) { 0x30 <= u <= 0x39 || 0x41 <= u <= 0x5A || 0x61 <= u <= 0x7A }

  const DOT: Unit := 0x2E

  predicate NameUnit(u: Unit) { AlphaNumeric(u) || u == DOT || u == 0x5F || u == 0x2D }

  predicate ValidName(name: Text) {
    1 <= |name| <= 128 && AlphaNumeric(name[0]) && forall i | 1 <= i < |name| :: NameUnit(name[i])
  }

  predicate Letter(c: char) { 'A' <= c <= 'Z' || 'a' <= c <= 'z' }

  predicate Digit(c: char) { '0' <= c <= '9' }

  function Units(s: string): (t: Text)
    requires forall i | 0 <= i < |s| :: s[i] as int < 0xD800
    ensures |t| == |s| && forall i | 0 <= i < |s| :: t[i] == s[i] as int
  {
    seq(|s|, i requires 0 <= i < |s| => s[i] as int)
  }

  /** A name is a letter or a digit, followed by at most 127 letters, digits, dots, underscores and hyphens. */
  lemma ValidNameExactly(s: string)
    requires forall i | 0 <= i < |s| :: s[i] as int < 0xD800
    ensures ValidName(Units(s)) <==>
      && 1 <= |s| <= 128 && (Letter(s[0]) || Digit(s[0]))
      && forall i | 0 <= i < |s| :: Letter(s[i]) || Digit(s[i]) || s[i] == '.' || s[i] == '_' || s[i] == '-'
  {
    var t := Units(s);
    assert forall i | 0 <= i < |s| :: NameUnit(t[i]) <==>
      Letter(s[i]) || Digit(s[i]) || s[i] == '.' || s[i] == '_' || s[i] == '-';
  }

  /** How the files of an entry are called. */
  lemma FileNames(name: Text, random: Text)
    ensures EntryFile(name) == name + Units(".entry")
    ensures TemporaryFile(name, random) == Units(".") + name + Units(".") + random + Units(".tmp")
  {
    assert ENTRY == Units(".entry") && TMP == Units(".tmp") && [DOT] == Units(".");
  }

  const ENTRY: Text := [DOT, 0x65, 0x6E, 0x74, 0x72, 0x79]
  const TMP: Text := [DOT, 0x74, 0x6D, 0x70]

  function EntryFile(name: Text): Text { name + ENTRY }

  function TemporaryFile(name: Text, random: Text): Text { [DOT] + name + [DOT] + random + TMP }

  predicate IsEntryFile(file: Text) { |file| >= 6 && file[|file| - 6..] == ENTRY }

  function Stripped(file: Text): Text
    requires IsEntryFile(file)
  {
    file[..|file| - 6]
  }

  lemma EntryFileFacts(name: Text)
    ensures IsEntryFile(EntryFile(name)) && Stripped(EntryFile(name)) == name
  {
  }

  lemma StrippedFacts(file: Text)
    requires IsEntryFile(file)
    ensures EntryFile(Stripped(file)) == file
  {
  }

  /** A temporary file is no entry of any name. */
  lemma TemporaryIsNoEntry(name: Text, random: Text, other: Text)
    requires ValidName(other)
    ensures !IsEntryFile(TemporaryFile(name, random)) && EntryFile(other) != TemporaryFile(name, random)
  {
    var t := TemporaryFile(name, random);
    assert t[0] == DOT && EntryFile(other)[0] == other[0];
    assert t[|t| - 1] == TMP[3] && |t| >= 6;
    assert t[|t| - 6..][5] == t[|t| - 1];
  }

  // ------------------------------------------------------------------ in memory

  class MemoryStore {
    var entries: map<Text, string>

    constructor ()
      ensures entries == map[]
    {
      entries := map[];
    }

    method Read(name: Text) returns (r: Result<Option<string>, Error>)
      ensures r ==
        if !ValidName(name) then Err(InvalidName) else if name in entries then Ok(Some(entries[name])) else Ok(None)
    {
      if !ValidName(name) { return Err(InvalidName); }
      return Ok(if name in entries then Some(entries[name]) else None);
    }

    method Write(name: Text, value: string) returns (r: Result<(), Error>)
      modifies this
      ensures entries == if ValidName(name) then old(entries)[name := value] else old(entries)
      ensures r == if ValidName(name) then Ok(()) else Err(InvalidName)
    {
      if !ValidName(name) { return Err(InvalidName); }
      entries := entries[name := value];
      return Ok(());
    }

    method Remove(name: Text) returns (r: Result<bool, Error>)
      modifies this
      ensures entries == if ValidName(name) then old(entries) - {name} else old(entries)
      ensures r == if ValidName(name) then Ok(name in old(entries)) else Err(InvalidName)
    {
      if !ValidName(name) { return Err(InvalidName); }
      r := Ok(name in entries);
      entries := entries - {name};
    }

    method List() returns (names: seq<Text>)
      ensures Lists(names, entries.Keys) && names == SortedNames(entries.Keys)
    {
      var keys := Enumerate(entries.Keys);
      names := SortTexts(keys);
      SortedLists(keys, entries.Keys);
    }
  }

  /** The elements in any order, as a map or a directory hands them out. */
  method Enumerate(s: set<Text>) returns (keys: seq<Text>)
    ensures Lists(keys, s)
  {
    keys := [];
    var rest := s;
    while rest != {}
      invariant rest <= s && Lists(keys, s - rest)
      decreases |rest|
    {
      var t :| t in rest;
      rest := rest - {t};
      keys := keys + [t];
    }
  }

  /** A set can be listed. */
  lemma {:induction false} Listable(s: set<Text>) returns (keys: seq<Text>)
    ensures Lists(keys, s)
  {
    keys := [];
    if s != {} {
      var t :| t in s;
      keys := Listable(s - {t});
      keys := keys + [t];
    }
  }

  /** The names in code-unit order: any listing of them, sorted. */
  ghost function SortedNames(s: set<Text>): seq<Text> {
    assert exists keys :: Lists(keys, s) by { var k := Listable(s); }
    var keys :| Lists(keys, s);
    SortTexts(keys)
  }

  lemma SortedLists(keys: seq<Text>, s: set<Text>)
    requires Lists(keys, s)
    ensures Lists(SortTexts(keys), s) && SortTexts(keys) == SortedNames(s)
  {
    SortTextsMembers(keys);
    forall other | Lists(other, s) ensures SortTexts(keys) == SortTexts(other) {
      SortTextsUnique(keys, other);
    }
  }

  ghost predicate Lists(keys: seq<Text>, s: set<Text>) {
    NoRepeats(keys) && forall t :: t in keys <==> t in s
  }

  // -------------------------------------------------------------------- on disk

  datatype Point = AtOpen | AtWrite(written: nat) | AtSync | AtRename | AfterRename

  /** Where a write is cut off, by an error or by the end of the process. */
  datatype Cut = NoCut | Fails(at: Point) | Dies(at: Point)

  class FileStore {
    /** Every file of the directory, temporary and foreign ones too. */
    var files: map<Text, string>
    /** The entries a reader sees. */
    ghost var view: map<Text, string>

    constructor ()
      ensures Valid() && view == map[]
    {
      files := map[];
      view := map[];
    }

    ghost predicate Valid()
      reads this
    {
      && (forall n | n in view :: ValidName(n) && view[n] != "")
      && (forall n | ValidName(n) :: EntryFile(n) in files <==> n in view)
      && (forall n | ValidName(n) && n in view :: files[EntryFile(n)] == view[n])
    }

    method Read(name: Text) returns (r: Result<Option<string>, Error>)
      requires Valid()
      ensures r ==
        if !ValidName(name) then Err(InvalidName) else if name in view then Ok(Some(view[name])) else Ok(None)
    {
      if !ValidName(name) { return Err(InvalidName); }
      var target := EntryFile(name);
      if target !in files { return Ok(None); }
      if files[target] == "" { return Err(Corrupt); }
      return Ok(Some(files[target]));
    }

    method Remove(name: Text) returns (r: Result<bool, Error>)
      requires Valid()
      modifies this
      ensures Valid() && view == if ValidName(name) then old(view) - {name} else old(view)
      ensures r == if ValidName(name) then Ok(name in old(view)) else Err(InvalidName)
      ensures files.Keys <= old(files).Keys
    {
      if !ValidName(name) { return Err(InvalidName); }
      var target := EntryFile(name);
      r := Ok(target in files);
      files := files - {target};
      view := view - {name};
      forall n | ValidName(n) ensures n != name ==> EntryFile(n) != target {
        EntryFileFacts(n);
        EntryFileFacts(name);
      }
    }

    /** The temporary file is there or not, in whatever state; nothing else has changed. */
    method Write(name: Text, value: string, random: Text, cut: Cut) returns (r: Result<(), Error>)
      requires Valid() && value != ""
      modifies this
      ensures Valid()
      ensures var effect := ValidName(name) && TakesEffect(cut, TemporaryFile(name, random) in old(files));
        && view == (if effect then old(view)[name := value] else old(view))
        && r == (if !ValidName(name) then Err(InvalidName) else if cut.Dies? then Err(Died)
                 else if effect then Ok(()) else Err(WriteFailed))
      ensures forall f | f != EntryFile(name) && f != TemporaryFile(name, random) ::
        (f in files <==> f in old(files)) && (f in files ==> files[f] == old(files)[f])
      ensures !ValidName(name) ==> files == old(files)
      ensures ValidName(name) && !cut.Dies? ==> TemporaryFile(name, random) !in files
    {
      if !ValidName(name) { return Err(InvalidName); }
      var temp := TemporaryFile(name, random);
      var done := false;
      if cut != Fails(AtOpen) && cut != Dies(AtOpen) && temp !in files {
        PutTemporary(name, random, "");
        if !cut.NoCut? && cut.at.AtWrite? {
          PutTemporary(name, random, value[..if cut.at.written <= |value| then cut.at.written else |value|]);
        } else {
          PutTemporary(name, random, value);
          if cut.NoCut? || cut.at.AfterRename? {
            RenameTemporary(name, random);
            done := true;
          }
        }
      }
      if cut.Dies? { return Err(Died); }
      if done { return Ok(()); }
      DropTemporary(name, random);
      return Err(WriteFailed);
    }

    method PutTemporary(name: Text, random: Text, content: string)
      requires Valid()
      modifies this`files
      ensures Valid() && files == old(files)[TemporaryFile(name, random) := content]
    {
      forall n | ValidName(n) ensures EntryFile(n) != TemporaryFile(name, random) {
        TemporaryIsNoEntry(name, random, n);
      }
      files := files[TemporaryFile(name, random) := content];
    }

    method DropTemporary(name: Text, random: Text)
      requires Valid()
      modifies this`files
      ensures Valid() && files == old(files) - {TemporaryFile(name, random)}
    {
      forall n | ValidName(n) ensures EntryFile(n) != TemporaryFile(name, random) {
        TemporaryIsNoEntry(name, random, n);
      }
      files := files - {TemporaryFile(name, random)};
    }

    /** The rename over the entry, which makes the write visible at once. */
    method RenameTemporary(name: Text, random: Text)
      requires Valid() && ValidName(name)
      requires TemporaryFile(name, random) in files && files[TemporaryFile(name, random)] != ""
      modifies this
      ensures Valid() && view == old(view)[name := old(files)[TemporaryFile(name, random)]]
      ensures files
        == (old(files) - {TemporaryFile(name, random)})[EntryFile(name) := old(files)[TemporaryFile(name, random)]]
    {
      var target, temp := EntryFile(name), TemporaryFile(name, random);
      forall n | ValidName(n) ensures EntryFile(n) != temp && (n != name ==> EntryFile(n) != target) {
        TemporaryIsNoEntry(name, random, n);
        EntryFileFacts(n);
        EntryFileFacts(name);
      }
      view := view[name := files[temp]];
      files := (files - {temp})[target := files[temp]];
    }

    method List() returns (names: seq<Text>)
      requires Valid()
      ensures Lists(names, view.Keys) && names == SortedNames(view.Keys)
    {
      var directory := Enumerate(files.Keys);
      names := EntryNames(directory);
      forall t ensures t in names <==> t in view {
        if ValidName(t) { EntryFileFacts(t); }
      }
      SortedLists(names, view.Keys);
      names := SortTexts(names);
    }
  }

  /** The names of the entry files among `directory`. */
  method EntryNames(directory: seq<Text>) returns (names: seq<Text>)
    requires NoRepeats(directory)
    ensures NoRepeats(names) && forall t :: t in names <==> ValidName(t) && EntryFile(t) in directory
  {
    names := [];
    for i := 0 to |directory|
      invariant NoRepeats(names) && forall t :: t in names <==> ValidName(t) && EntryFile(t) in directory[..i]
    {
      var file := directory[i];
      assert directory[..i + 1] == directory[..i] + [file];
      assert file !in directory[..i];
      forall t ensures EntryFile(t) == file <==> IsEntryFile(file) && Stripped(file) == t {
        EntryFileFacts(t);
        if IsEntryFile(file) { StrippedFacts(file); }
      }
      if IsEntryFile(file) && ValidName(Stripped(file)) { names := names + [Stripped(file)]; }
    }
    assert directory[..|directory|] == directory;
  }

  /** The rename is reached. */
  predicate TakesEffect(cut: Cut, collision: bool) {
    !collision && (cut.NoCut? || cut.at.AfterRename?)
  }

  // ------------------------------------------------------------------ refinement

  datatype Operation =
    | ReadEntry(name: Text) | RemoveEntry(name: Text) | ListEntries
    | WriteEntry(name: Text, value: string, random: Text, cut: Cut)

  datatype Reply =
    | WasRead(read: Result<Option<string>, Error>)
    | WasRemoved(removed: Result<bool, Error>)
    | WasListed(names: seq<Text>)
    | WasWritten(written: Result<(), Error>)

  type Entries = map<Text, string>

  /** The entries after one operation; a write counts only if it happened. */
  function Effect(e: Entries, op: Operation, happened: bool): Entries {
    match op
    case RemoveEntry(name) => if ValidName(name) then e - {name} else e
    case WriteEntry(name, value, _, _) => if happened then e[name := value] else e
    case _ => e
  }

  /** The answer to one operation; a write that did not happen has failed. */
  ghost function Answer(e: Entries, op: Operation, happened: bool): Reply {
    match op
    case ReadEntry(name) =>
      WasRead(if !ValidName(name) then Err(InvalidName) else if name in e then Ok(Some(e[name])) else Ok(None))
    case RemoveEntry(name) => WasRemoved(if ValidName(name) then Ok(name in e) else Err(InvalidName))
    case ListEntries => WasListed(SortedNames(e.Keys))
    case WriteEntry(name, _, _, _) =>
      WasWritten(if !ValidName(name) then Err(InvalidName) else if happened then Ok(()) else Err(WriteFailed))
  }

  /** The entries after a series of operations of which the writes marked in `happened` took place. */
  function EntriesAfter(e: Entries, script: seq<Operation>, happened: seq<bool>): Entries
    requires |script| == |happened|
  {
    if script == [] then e
    else
      var n := |script| - 1;
      Effect(EntriesAfter(e, script[..n], happened[..n]), script[n], happened[n])
  }

  /** The answers along the way. */
  ghost function Answers(e: Entries, script: seq<Operation>, happened: seq<bool>): seq<Reply>
    requires |script| == |happened|
  {
    if script == [] then []
    else
      var n := |script| - 1;
      Answers(e, script[..n], happened[..n])
      + [Answer(EntriesAfter(e, script[..n], happened[..n]), script[n], happened[n])]
  }

  /** The process ends while this write of a valid name is under way, so that the caller gets no other answer. */
  predicate DiesWriting(op: Operation) {
    op.WriteEntry? && ValidName(op.name) && op.cut.Dies?
  }

  /** The answers of a store on disk: those of the memory store, but for the writes during which the process died. */
  ghost function OnDisk(script: seq<Operation>, answers: seq<Reply>): seq<Reply>
    requires |script| == |answers|
  {
    seq(|script|, i requires 0 <= i < |script| =>
      if DiesWriting(script[i]) then WasWritten(Err(Died)) else answers[i])
  }

  /** No file has the temporary name of this write yet, and no earlier write used it. */
  ghost predicate FreeName(files: set<Text>, script: seq<Operation>, i: nat)
    requires i < |script| && script[i].WriteEntry?
  {
    var temp := TemporaryFile(script[i].name, script[i].random);
    && temp !in files
    && forall j | 0 <= j < i && script[j].WriteEntry? :: TemporaryFile(script[j].name, script[j].random) != temp
  }

  /** The write gets as far as its rename. */
  predicate ReachesRename(op: Operation) {
    op.WriteEntry? && ValidName(op.name) && (op.cut.NoCut? || op.cut.at.AfterRename?)
  }

  /** A write happens only if it reaches its rename, and always then if its temporary name is free. */
  ghost predicate HappenedRightly(files: set<Text>, script: seq<Operation>, happened: seq<bool>) {
    |happened| <= |script| && forall i | 0 <= i < |happened| ::
      (happened[i] ==> ReachesRename(script[i]))
      && (ReachesRename(script[i]) && FreeName(files, script, i) ==> happened[i])
  }

  lemma HappenedGrows(files: set<Text>, script: seq<Operation>, happened: seq<bool>, h: bool)
    requires |happened| < |script| && HappenedRightly(files, script, happened)
    requires var i := |happened|;
      (h ==> ReachesRename(script[i])) && (ReachesRename(script[i]) && FreeName(files, script, i) ==> h)
    ensures HappenedRightly(files, script, happened + [h])
  {
  }

  lemma OneMoreOnDisk(script: seq<Operation>, i: nat, answers: seq<Reply>, m: Reply)
    requires i < |script| && |answers| == i
    ensures OnDisk(script[..i + 1], answers + [m])
      == OnDisk(script[..i], answers) + [if DiesWriting(script[i]) then WasWritten(Err(Died)) else m]
  {
  }

  /**
  Any series of operations on both stores, where the memory store does a write exactly when `happened` says so. The
  answers of the memory store are those of the script, the store on disk gives the same answers except to a caller
  that died, and both hold the same entries at the end. A write happens only if it reaches its rename, and always
  then if its temporary name is free.
  */
  method Lockstep(file: FileStore, memory: MemoryStore, script: seq<Operation>)
    returns (onDisk: seq<Reply>, inMemory: seq<Reply>, happened: seq<bool>)
    requires file.Valid() && file.view == memory.entries
    requires forall i | 0 <= i < |script| && script[i].WriteEntry? :: script[i].value != ""
    modifies file, memory
    ensures |onDisk| == |inMemory| == |happened| == |script|
    ensures memory.entries == EntriesAfter(old(memory.entries), script, happened)
    ensures inMemory == Answers(old(memory.entries), script, happened)
    ensures onDisk == OnDisk(script, inMemory)
    ensures file.Valid() && file.view == memory.entries
    ensures HappenedRightly(old(file.files).Keys, script, happened)
  {
    onDisk, inMemory, happened := [], [], [];
    for i := 0 to |script|
      invariant |onDisk| == |inMemory| == |happened| == i && file.Valid() && file.view == memory.entries
      invariant memory.entries == EntriesAfter(old(memory.entries), script[..i], happened)
      invariant inMemory == Answers(old(memory.entries), script[..i], happened)
      invariant onDisk == OnDisk(script[..i], inMemory)
      invariant HappenedRightly(old(file.files).Keys, script, happened)
      invariant Leftovers(old(file.files).Keys, script[..i], file.files.Keys)
    {
      ghost var before := file.files.Keys;
      var d, m, h := Both(file, memory, script[i]);
      OneMore(old(memory.entries), script, i, happened, h);
      OneMoreOnDisk(script, i, inMemory, m);
      FilesStep(old(file.files).Keys, script, happened, h, before, file.files.Keys);
      onDisk, inMemory, happened := onDisk + [d], inMemory + [m], happened + [h];
    }
    assert script[..|script|] == script;
  }

  /** Every temporary file in the directory was there before or belongs to a write of the script. */
  ghost predicate Leftovers(start: set<Text>, script: seq<Operation>, files: set<Text>) {
    forall f | f in files && !IsEntryFile(f) :: f in start || WrittenAs(script, f)
  }

  ghost predicate WrittenAs(script: seq<Operation>, f: Text) {
    exists j :: 0 <= j < |script| && script[j].WriteEntry? && f == TemporaryFile(script[j].name, script[j].random)
  }

  lemma FreeStaysFree(start: set<Text>, script: seq<Operation>, i: nat, files: set<Text>)
    requires i < |script| && ReachesRename(script[i]) && Leftovers(start, script[..i], files)
    ensures FreeName(start, script, i) ==> TemporaryFile(script[i].name, script[i].random) !in files
  {
    var temp := TemporaryFile(script[i].name, script[i].random);
    TemporaryIsNoEntry(script[i].name, script[i].random, script[i].name);
    assert forall j | 0 <= j < i :: script[..i][j] == script[j];
  }

  lemma OneMore(e: Entries, script: seq<Operation>, i: nat, happened: seq<bool>, h: bool)
    requires i < |script| && |happened| == i
    ensures var now := EntriesAfter(e, script[..i], happened);
      && EntriesAfter(e, script[..i + 1], happened + [h]) == Effect(now, script[i], h)
      && Answers(e, script[..i + 1], happened + [h]) == Answers(e, script[..i], happened) + [Answer(now, script[i], h)]
  {
    assert script[..i + 1][..i] == script[..i] && (happened + [h])[..i] == happened;
  }

  /** One operation adds no file but its entry and its temporary file. */
  ghost predicate AddsOnly(op: Operation, before: set<Text>, after: set<Text>) {
    forall f | f in after && f !in before ::
      op.WriteEntry? && (f == EntryFile(op.name) || f == TemporaryFile(op.name, op.random))
  }

  lemma LeftoversGrow(start: set<Text>, script: seq<Operation>, i: nat, before: set<Text>, after: set<Text>)
    requires i < |script| && Leftovers(start, script[..i], before) && AddsOnly(script[i], before, after)
    ensures Leftovers(start, script[..i + 1], after)
  {
    forall f | f in after && !IsEntryFile(f) && f !in start ensures WrittenAs(script[..i + 1], f) {
      if f in before {
        var j :| 0 <= j < i && script[..i][j].WriteEntry?
          && f == TemporaryFile(script[..i][j].name, script[..i][j].random);
        assert script[..i + 1][j] == script[..i][j];
      } else {
        EntryFileFacts(script[i].name);
        assert script[..i + 1][i] == script[i];
      }
    }
  }

  /** One more operation keeps what is known of the files and of which writes happened. */
  lemma FilesStep(start: set<Text>, script: seq<Operation>, happened: seq<bool>, h: bool,
    before: set<Text>, after: set<Text>)
    requires |happened| < |script| && HappenedRightly(start, script, happened)
    requires Leftovers(start, script[..|happened|], before)
    requires var op := script[|happened|];
      && AddsOnly(op, before, after) && (h ==> ReachesRename(op))
      && (ReachesRename(op) && TemporaryFile(op.name, op.random) !in before ==> h)
    ensures HappenedRightly(start, script, happened + [h])
    ensures Leftovers(start, script[..|happened| + 1], after)
  {
    var i := |happened|;
    if ReachesRename(script[i]) { FreeStaysFree(start, script, i, before); }
    HappenedGrows(start, script, happened, h);
    LeftoversGrow(start, script, i, before, after);
  }

  method Both(file: FileStore, memory: MemoryStore, op: Operation) returns (d: Reply, m: Reply, happened: bool)
    requires file.Valid() && file.view == memory.entries && (op.WriteEntry? ==> op.value != "")
    modifies file, memory
    ensures file.Valid() && file.view == memory.entries == Effect(old(memory.entries), op, happened)
    ensures m == Answer(old(memory.entries), op, happened)
    ensures d == if DiesWriting(op) then WasWritten(Err(Died)) else m
    ensures happened ==> ReachesRename(op)
    ensures ReachesRename(op) && TemporaryFile(op.name, op.random) !in old(file.files) ==> happened
    ensures AddsOnly(op, old(file.files).Keys, file.files.Keys)
  {
    happened := false;
    match op {
      case ReadEntry(name) =>
        var a := file.Read(name);
        var b := memory.Read(name);
        d, m := WasRead(a), WasRead(b);
      case RemoveEntry(name) =>
        var a := file.Remove(name);
        var b := memory.Remove(name);
        d, m := WasRemoved(a), WasRemoved(b);
      case ListEntries =>
        var a := file.List();
        var b := memory.List();
        d, m := WasListed(a), WasListed(b);
      case WriteEntry(name, value, random, cut) =>
        happened := ValidName(name) && TakesEffect(cut, TemporaryFile(name, random) in file.files);
        var a := file.Write(name, value, random, cut);
        var b: Result<(), Error> := Err(WriteFailed);
        if happened || !ValidName(name) { b := memory.Write(name, value); }
        d, m := WasWritten(a), WasWritten(b);
    }
  }
}
