/**
The operation lock of the Claudexor runtime manager: a lock file created with an
exclusive open, reclaimed by renaming a stale file aside, comparing it with what
was read, and linking it back when the wrong file was moved.

An `Actor` is one call of `acquireLock`; several actors may share a process. Every
filesystem call is one atomic step, any number of actors interleave, and a process
may crash between any two steps. A file is an inode with one or more names, so a
rename or an unlink never changes what an open handle writes to.
*/
module OperationLock {
  import opened Prelude

  type Pid = nat
  type Actor = nat
  type Inode = nat

  // The text of a lock file. Only `Owned` parses as a lock record.
  datatype Content = Blank | Garbage(text: nat) | Owned(pid: Pid, token: nat)

  datatype Path = LockPath | StalePath(id: nat)

  datatype Stage =
    | Trying(attempt: nat)                          // about to open the lock path exclusively
    | Created(inode: Inode, token: nat)             // the file exists and is still empty
    | Written(inode: Inode, token: nat)             // the record is in the file
    | Holding(inode: Inode, token: nat)             // acquireLock has returned
    | Releasing(inode: Inode, token: nat)           // about to read the lock path
    | Unlinking(inode: Inode, token: nat)           // read its own token there
    | Contended(attempt: nat)                       // the open failed with EEXIST
    | Observed(attempt: nat, raw: Content)          // has read the lock file
    | Claiming(attempt: nat, raw: Content)          // judged it stale
    | Claimed(attempt: nat, raw: Content, id: nat)  // renamed the lock path aside
    | Discarding(attempt: nat, id: nat)             // the moved file is the observed one
    | Restoring(attempt: nat, id: nat)              // the moved file is another one
    | Linked(attempt: nat, id: nat)                 // linked it back
    | Finished

  datatype Caller = Caller(pid: Pid, stage: Stage)

  datatype State = State(
    lock: Option<Inode>,                            // the file at the lock path
    stale: map<nat, Inode>,                         // the files at the stale names
    contents: map<Inode, Content>,
    callers: map<Actor, Caller>,
    dead: set<Pid>,
    unused: nat)                                     // inodes and random identifiers from here on are free

  datatype Step =
    | Spawn(a: Actor, pid: Pid)
    | Open(a: Actor)
    | Write(a: Actor)
    | Enter(a: Actor)
    | Fail(a: Actor)
    | BeginRelease(a: Actor)
    | ReadForRelease(a: Actor)
    | Unlink(a: Actor)
    | Read(a: Actor)
    | Decide(a: Actor)
    | Rename(a: Actor)
    | Compare(a: Actor)
    | Discard(a: Actor)
    | Link(a: Actor)
    | DropClaim(a: Actor)
    | Crash(pid: Pid)

  const ATTEMPTS := 3

  ghost predicate Live(s: State, a: Actor) {
    a in s.callers && s.callers[a].pid !in s.dead
  }

  function StageOf(s: State, a: Actor): Stage {
    if a in s.callers then s.callers[a].stage else Finished
  }

  function Goto(s: State, a: Actor, stage: Stage): State {
    if a in s.callers then s.(callers := s.callers[a := s.callers[a].(stage := stage)]) else s
  }

  predicate Stale(c: Content, dead: set<Pid>) {
    !c.Owned? || c.pid in dead
  }

  function FileAt(s: State, p: Path): Option<Inode> {
    match p
    case LockPath => s.lock
    case StalePath(id) => if id in s.stale then Some(s.stale[id]) else None
  }

  /** The file at the lock path carries the token `t`. */
  predicate LockCarries(s: State, t: nat) {
    s.lock.Some? && s.lock.value in s.contents
    && var c := s.contents[s.lock.value]; c.Owned? && c.token == t
  }

  ghost predicate Enabled(s: State, step: Step) {
    match step
    case Spawn(a, pid) => a !in s.callers && pid !in s.dead
    case Open(a) => Live(s, a) && StageOf(s, a).Trying? && StageOf(s, a).attempt < ATTEMPTS
    case Write(a) => Live(s, a) && StageOf(s, a).Created?
    case Enter(a) => Live(s, a) && StageOf(s, a).Written?
    case Fail(a) => Live(s, a) && (StageOf(s, a).Created? || StageOf(s, a).Written?)
    case BeginRelease(a) => Live(s, a) && StageOf(s, a).Holding?
    case ReadForRelease(a) => Live(s, a) && StageOf(s, a).Releasing?
    case Unlink(a) => Live(s, a) && StageOf(s, a).Unlinking?
    case Read(a) => Live(s, a) && StageOf(s, a).Contended?
    case Decide(a) => Live(s, a) && StageOf(s, a).Observed?
    case Rename(a) => Live(s, a) && StageOf(s, a).Claiming?
    case Compare(a) => Live(s, a) && StageOf(s, a).Claimed?
    case Discard(a) => Live(s, a) && StageOf(s, a).Discarding?
    case Link(a) => Live(s, a) && StageOf(s, a).Restoring?
    case DropClaim(a) => Live(s, a) && StageOf(s, a).Linked?
    case Crash(pid) => true
  }

  function ApplyOpen(s: State, a: Actor, k: nat): State {
    if s.lock.Some? then Goto(s, a, Contended(k))
    else
      Goto(s, a, Created(s.unused, s.unused)).(
        lock := Some(s.unused),
        contents := s.contents[s.unused := Blank],
        unused := s.unused + 1)
  }

  function ApplyRead(s: State, a: Actor, k: nat): State {
    if s.lock.Some? && s.lock.value in s.contents
    then Goto(s, a, Observed(k, s.contents[s.lock.value]))
    else Goto(s, a, Trying(k + 1))
  }

  function ApplyDecide(s: State, a: Actor, k: nat, raw: Content): State {
    if Stale(raw, s.dead) then Goto(s, a, Claiming(k, raw))
    else if k + 1 < ATTEMPTS then Goto(s, a, Trying(k + 1))
    else Goto(s, a, Finished)                       // RUNTIME_BUSY
  }

  function ApplyRename(s: State, a: Actor, k: nat, raw: Content): State {
    if s.lock.Some? then
      Goto(s, a, Claimed(k, raw, s.unused)).(
        lock := None,
        stale := s.stale[s.unused := s.lock.value],
        unused := s.unused + 1)
    else Goto(s, a, Trying(k + 1))
  }

  function ApplyCompare(s: State, a: Actor, k: nat, raw: Content, id: nat): State {
    if id in s.stale && s.stale[id] in s.contents
       && s.contents[s.stale[id]] == raw
    then Goto(s, a, Discarding(k, id))
    else Goto(s, a, Restoring(k, id))
  }

  function ApplyLink(s: State, a: Actor, k: nat, id: nat): State {
    if s.lock.Some? || id !in s.stale then Goto(s, a, Trying(k + 1))
    else Goto(s, a, Linked(k, id)).(lock := Some(s.stale[id]))
  }

  function Apply(s: State, step: Step): State {
    match step
    case Spawn(a, pid) => s.(callers := s.callers[a := Caller(pid, Trying(0))])
    case Open(a) =>
      var g := StageOf(s, a); if g.Trying? then ApplyOpen(s, a, g.attempt) else s
    case Write(a) =>
      var g := StageOf(s, a);
      if g.Created? && a in s.callers then
        Goto(s, a, Written(g.inode, g.token)).(
          contents := s.contents[g.inode := Owned(s.callers[a].pid, g.token)])
      else s
    case Enter(a) =>
      var g := StageOf(s, a); if g.Written? then Goto(s, a, Holding(g.inode, g.token)) else s
    case Fail(a) =>
      var g := StageOf(s, a);
      if g.Created? || g.Written? then Goto(s, a, Releasing(g.inode, g.token)) else s
    case BeginRelease(a) =>
      var g := StageOf(s, a); if g.Holding? then Goto(s, a, Releasing(g.inode, g.token)) else s
    case ReadForRelease(a) =>
      var g := StageOf(s, a);
      if !g.Releasing? then s
      else if LockCarries(s, g.token) then Goto(s, a, Unlinking(g.inode, g.token))
      else Goto(s, a, Finished)
    case Unlink(a) => Goto(s, a, Finished).(lock := None)
    case Read(a) =>
      var g := StageOf(s, a); if g.Contended? then ApplyRead(s, a, g.attempt) else s
    case Decide(a) =>
      var g := StageOf(s, a); if g.Observed? then ApplyDecide(s, a, g.attempt, g.raw) else s
    case Rename(a) =>
      var g := StageOf(s, a); if g.Claiming? then ApplyRename(s, a, g.attempt, g.raw) else s
    case Compare(a) =>
      var g := StageOf(s, a); if g.Claimed? then ApplyCompare(s, a, g.attempt, g.raw, g.id) else s
    case Discard(a) =>
      var g := StageOf(s, a);
      if g.Discarding? then Goto(s, a, Trying(g.attempt + 1)).(stale := s.stale - {g.id})
      else s
    case Link(a) =>
      var g := StageOf(s, a); if g.Restoring? then ApplyLink(s, a, g.attempt, g.id) else s
    case DropClaim(a) =>
      var g := StageOf(s, a);
      if g.Linked? then Goto(s, a, Trying(g.attempt + 1)).(stale := s.stale - {g.id})
      else s
    case Crash(pid) => s.(dead := s.dead + {pid})
  }

  function Exec(s: State, steps: seq<Step>): State
    decreases |steps|
  {
    if steps == [] then s else Exec(Apply(s, steps[0]), steps[1..])
  }

  /** A start state: callers about to begin; the lock path may hold anything an earlier run left. */
  ghost predicate Initial(s: State) {
    && (forall a | a in s.callers :: s.callers[a].stage == Trying(0))
    && s.stale == map[] && (s.lock.Some? ==> s.lock.value in s.contents)
    && (forall i | i in s.contents :: i < s.unused && (s.contents[i].Owned? ==> s.contents[i].token < s.unused))
  }

  // ---------------------------------------------------------------- premises

  /** A reclaim rename moves a file with exactly the text that was read: no mismatch follows. */
  ghost predicate TextUnchanged(s: State, step: Step) {
    step.Rename? && s.lock.Some? && StageOf(s, step.a).Claiming? ==>
      s.lock.value in s.contents && s.contents[s.lock.value] == StageOf(s, step.a).raw
  }

  /** No live caller is still between creating the file that a reclaim renames and writing it. */
  ghost predicate NotBeingWritten(s: State, step: Step) {
    step.Rename? && s.lock.Some? ==>
      forall b | Live(s, b) && StageOf(s, b).Created? :: StageOf(s, b).inode != s.lock.value
  }

  ghost predicate SoundClaim(s: State, step: Step) {
    TextUnchanged(s, step) && NotBeingWritten(s, step)
  }

  /** A reclaim rename moves a complete record. */
  ghost predicate MovesRecord(s: State, step: Step) {
    step.Rename? && s.lock.Some? && s.lock.value in s.contents ==>
      s.contents[s.lock.value].Owned?
  }

  /** A release unlinks the file it read, not one that took the name since. */
  ghost predicate AimedRelease(s: State, step: Step) {
    step.Unlink? && s.lock.Some? && StageOf(s, step.a).Unlinking? ==>
      s.lock.value == StageOf(s, step.a).inode
  }

  ghost predicate NotBeingWrittenAndAimed(s: State, step: Step) {
    NotBeingWritten(s, step) && AimedRelease(s, step)
  }

  /** `steps` is an interleaving from `s` in which every step is possible and meets `premise`. */
  ghost predicate Run(premise: (State, Step) -> bool, s: State, steps: seq<Step>)
    decreases |steps|
  {
    steps == [] ||
    (Enabled(s, steps[0]) && premise(s, steps[0]) && Run(premise, Apply(s, steps[0]), steps[1..]))
  }

  // -------------------------------------------------------------- invariants

  predicate OwnsFile(g: Stage) {
    g.Created? || g.Written? || g.Holding? || g.Releasing? || g.Unlinking?
  }

  predicate HasClaim(g: Stage) {
    g.Claimed? || g.Discarding? || g.Restoring? || g.Linked?
  }

  /** Bookkeeping every interleaving keeps: one creator per inode, unique tokens and stale names. */
  ghost predicate Book(s: State) {
    && (s.lock.Some? ==> s.lock.value in s.contents)
    && (forall id | id in s.stale :: id < s.unused && s.stale[id] in s.contents)
    && (forall i | i in s.contents :: i < s.unused && (s.contents[i].Owned? ==> s.contents[i].token < s.unused))
    && (forall a | a in s.callers :: BookOf(s, a))
    && (forall a, b | a in s.callers && b in s.callers && a != b :: Apart(s.callers[a].stage, s.callers[b].stage))
  }

  ghost predicate Apart(g: Stage, h: Stage) {
    && (OwnsFile(g) && OwnsFile(h) ==> g.inode != h.inode && g.token != h.token)
    && (HasClaim(g) && HasClaim(h) ==> g.id != h.id)
  }

  ghost predicate BookOf(s: State, a: Actor)
    requires a in s.callers
  {
    var g := s.callers[a].stage;
    && (OwnsFile(g) ==> g.inode in s.contents && g.token < s.unused
                        && (forall i | i in s.contents && s.contents[i].Owned? ::
                              s.contents[i].token == g.token ==> i == g.inode))
    && (g.Created? ==> s.contents[g.inode] == Blank)
    && (g.Written? || g.Holding? || g.Unlinking? ==> s.contents[g.inode] == Owned(s.callers[a].pid, g.token))
    && (g.Releasing? ==> s.contents[g.inode] in {Blank, Owned(s.callers[a].pid, g.token)})
    && (g.Claiming? || g.Claimed? ==> Stale(g.raw, s.dead))
    && (HasClaim(g) ==> g.id < s.unused)
  }

  /** A live caller that has created the lock and not yet given it up. */
  ghost predicate Engaged(s: State, a: Actor) {
    Live(s, a) && var g := StageOf(s, a);
    || g.Created? || g.Written? || g.Holding? || g.Unlinking?
    || (g.Releasing? && g.inode in s.contents && s.contents[g.inode].Owned?)
  }

  ghost predicate AtLockPath(s: State, a: Actor) {
    OwnsFile(StageOf(s, a)) && s.lock.Some? && s.lock.value == StageOf(s, a).inode
  }

  /** Every engaged caller's own file is the one at the lock path. */
  ghost predicate Exclusive(s: State) {
    forall a | Engaged(s, a) :: AtLockPath(s, a)
  }

  /** A step that only moves caller `a` on leaves everyone else's bookkeeping alone. */
  lemma BookQuiet(s: State, s': State, a: Actor)
    requires Book(s) && a in s.callers && a in s'.callers
    requires s'.contents == s.contents && s.unused <= s'.unused && s.dead <= s'.dead
    requires s'.callers == s.callers[a := s'.callers[a]]
    requires s'.lock.Some? ==> s'.lock.value in s.contents
    requires forall id | id in s'.stale :: id < s'.unused && s'.stale[id] in s.contents
    requires BookOf(s', a)
    requires forall b | b in s.callers && b != a :: Apart(s'.callers[a].stage, s.callers[b].stage)
    ensures Book(s')
  {
    forall b | b in s'.callers
      ensures BookOf(s', b)
    {
      if b != a { assert BookOf(s, b); }
    }
  }

  lemma BookCreate(s: State, a: Actor)
    requires Book(s) && Enabled(s, Open(a)) && s.lock.None?
    ensures Book(Apply(s, Open(a)))
  {
    var s' := Apply(s, Open(a));
    forall b | b in s'.callers
      ensures BookOf(s', b)
      ensures b != a ==> Apart(s'.callers[a].stage, s'.callers[b].stage)
    {
      if b != a { assert BookOf(s, b); }
    }
  }

  lemma BookOpen(s: State, a: Actor)
    requires Book(s) && Enabled(s, Open(a))
    ensures Book(Apply(s, Open(a)))
  {
    if s.lock.None? { BookCreate(s, a); } else { BookQuiet(s, Apply(s, Open(a)), a); }
  }

  lemma BookWrite(s: State, a: Actor)
    requires Book(s) && Enabled(s, Write(a))
    ensures Book(Apply(s, Write(a)))
  {
    var s' := Apply(s, Write(a));
    assert BookOf(s, a);
    forall b | b in s'.callers
      ensures BookOf(s', b)
    {
      if b != a {
        assert BookOf(s, b) && Apart(s.callers[a].stage, s.callers[b].stage);
      }
    }
  }

  lemma BookHolder(s: State, a: Actor, step: Step)
    requires Book(s) && Enabled(s, step) && (step == Enter(a) || step == Fail(a) || step == BeginRelease(a))
    ensures Book(Apply(s, step))
  {
    assert BookOf(s, a);
    BookQuiet(s, Apply(s, step), a);
  }

  lemma BookReadForRelease(s: State, a: Actor)
    requires Book(s) && Enabled(s, ReadForRelease(a))
    ensures Book(Apply(s, ReadForRelease(a)))
  {
    assert BookOf(s, a);
    BookQuiet(s, Apply(s, ReadForRelease(a)), a);
  }

  lemma BookUnlink(s: State, a: Actor)
    requires Book(s) && Enabled(s, Unlink(a))
    ensures Book(Apply(s, Unlink(a)))
  {
    BookQuiet(s, Apply(s, Unlink(a)), a);
  }

  lemma BookRead(s: State, a: Actor)
    requires Book(s) && Enabled(s, Read(a))
    ensures Book(Apply(s, Read(a)))
  {
    BookQuiet(s, Apply(s, Read(a)), a);
  }

  lemma BookDecide(s: State, a: Actor)
    requires Book(s) && Enabled(s, Decide(a))
    ensures Book(Apply(s, Decide(a)))
  {
    BookQuiet(s, Apply(s, Decide(a)), a);
  }

  lemma BookCompare(s: State, a: Actor)
    requires Book(s) && Enabled(s, Compare(a))
    ensures Book(Apply(s, Compare(a)))
  {
    assert BookOf(s, a);
    BookQuiet(s, Apply(s, Compare(a)), a);
  }

  lemma BookDiscard(s: State, a: Actor)
    requires Book(s) && Enabled(s, Discard(a))
    ensures Book(Apply(s, Discard(a)))
  {
    BookQuiet(s, Apply(s, Discard(a)), a);
  }

  lemma BookDropClaim(s: State, a: Actor)
    requires Book(s) && Enabled(s, DropClaim(a))
    ensures Book(Apply(s, DropClaim(a)))
  {
    BookQuiet(s, Apply(s, DropClaim(a)), a);
  }

  lemma BookRename(s: State, a: Actor)
    requires Book(s) && Enabled(s, Rename(a))
    ensures Book(Apply(s, Rename(a)))
  {
    assert BookOf(s, a);
    forall b | b in s.callers && b != a
      ensures Apart(Apply(s, Rename(a)).callers[a].stage, s.callers[b].stage)
    {
      assert BookOf(s, b);
    }
    BookQuiet(s, Apply(s, Rename(a)), a);
  }

  lemma BookLink(s: State, a: Actor)
    requires Book(s) && Enabled(s, Link(a))
    ensures Book(Apply(s, Link(a)))
  {
    assert BookOf(s, a);
    BookQuiet(s, Apply(s, Link(a)), a);
  }

  lemma BookSpawn(s: State, a: Actor, pid: Pid)
    requires Book(s) && Enabled(s, Spawn(a, pid))
    ensures Book(Apply(s, Spawn(a, pid)))
  {
    forall b | b in s.callers
      ensures BookOf(Apply(s, Spawn(a, pid)), b)
    {
      assert BookOf(s, b);
    }
  }

  lemma BookCrash(s: State, pid: Pid)
    requires Book(s)
    ensures Book(Apply(s, Crash(pid)))
  {
    forall b | b in s.callers
      ensures BookOf(Apply(s, Crash(pid)), b)
    {
      assert BookOf(s, b);
    }
  }

  lemma BookStep(s: State, step: Step)
    requires Book(s) && Enabled(s, step)
    ensures Book(Apply(s, step))
  {
    match step
    case Spawn(a, pid) => BookSpawn(s, a, pid);
    case Crash(pid) => BookCrash(s, pid);
    case Open(a) => BookOpen(s, a);
    case Write(a) => BookWrite(s, a);
    case Rename(a) => BookRename(s, a);
    case Link(a) => BookLink(s, a);
    case Read(a) => BookRead(s, a);
    case Decide(a) => BookDecide(s, a);
    case Compare(a) => BookCompare(s, a);
    case Discard(a) => BookDiscard(s, a);
    case DropClaim(a) => BookDropClaim(s, a);
    case ReadForRelease(a) => BookReadForRelease(s, a);
    case Unlink(a) => BookUnlink(s, a);
    case _ => BookHolder(s, step.a, step);
  }

  /** Two engaged callers would share one file, and every file has one creator. */
  lemma OneEngaged(s: State, a: Actor, b: Actor)
    requires Book(s) && Exclusive(s) && Engaged(s, a) && Engaged(s, b)
    ensures a == b
  {
    assert AtLockPath(s, a) && AtLockPath(s, b);
    assert a != b ==> Apart(s.callers[a].stage, s.callers[b].stage);
  }

  /** A sound claim never moves the file of an engaged caller. */
  lemma SoundClaimMovesNobody(s: State, q: Actor, a: Actor)
    requires Book(s) && Exclusive(s) && Enabled(s, Rename(q)) && SoundClaim(s, Rename(q))
    requires s.lock.Some?
    ensures !Engaged(s, a)
  {
    assert BookOf(s, q);
    assert a in s.callers ==> BookOf(s, a);
    assert Engaged(s, a) ==> AtLockPath(s, a);
  }

  /** Steps that leave the lock path alone and create no file keep every engaged file in place. */
  lemma ExclusiveQuiet(s: State, step: Step)
    requires Book(s) && Exclusive(s) && Enabled(s, step)
    requires step.Spawn? || step.Write? || step.Enter? || step.Fail? || step.BeginRelease? || step.Crash?
    ensures Exclusive(Apply(s, step))
  {
    forall b | Engaged(Apply(s, step), b)
      ensures AtLockPath(Apply(s, step), b)
    {
      assert b in s.callers ==> BookOf(s, b);
      assert Engaged(s, b) && AtLockPath(s, b);
    }
  }

  lemma ExclusiveClaimant(s: State, step: Step)
    requires Book(s) && Exclusive(s) && Enabled(s, step)
    requires step.Read? || step.Decide? || step.Compare? || step.Discard? || step.Link? || step.DropClaim?
    ensures Exclusive(Apply(s, step))
  {
    forall b | Engaged(Apply(s, step), b)
      ensures AtLockPath(Apply(s, step), b)
    {
      assert Engaged(s, b) && AtLockPath(s, b);
    }
  }

  lemma ExclusiveOpen(s: State, a: Actor)
    requires Book(s) && Exclusive(s) && Enabled(s, Open(a))
    ensures Exclusive(Apply(s, Open(a)))
  {
    forall b | Engaged(Apply(s, Open(a)), b) && b != a
      ensures AtLockPath(Apply(s, Open(a)), b)
    {
      assert BookOf(s, b) && Engaged(s, b) && AtLockPath(s, b);
    }
  }

  lemma ExclusiveReadForRelease(s: State, a: Actor)
    requires Book(s) && Exclusive(s) && Enabled(s, ReadForRelease(a))
    ensures Exclusive(Apply(s, ReadForRelease(a)))
  {
    assert BookOf(s, a);
    forall b | Engaged(Apply(s, ReadForRelease(a)), b)
      ensures AtLockPath(Apply(s, ReadForRelease(a)), b)
    {
      assert Engaged(s, b) ==> AtLockPath(s, b);
    }
  }

  lemma ExclusiveUnlink(s: State, a: Actor)
    requires Book(s) && Exclusive(s) && Enabled(s, Unlink(a))
    ensures Exclusive(Apply(s, Unlink(a)))
  {
    forall b
      ensures !Engaged(Apply(s, Unlink(a)), b)
    {
      if Engaged(s, b) { OneEngaged(s, a, b); }
    }
  }

  lemma ExclusiveRename(s: State, q: Actor)
    requires Book(s) && Exclusive(s) && Enabled(s, Rename(q)) && SoundClaim(s, Rename(q))
    ensures Exclusive(Apply(s, Rename(q)))
  {
    forall b
      ensures !Engaged(Apply(s, Rename(q)), b)
    {
      assert Engaged(s, b) ==> AtLockPath(s, b);
      if s.lock.Some? { SoundClaimMovesNobody(s, q, b); }
    }
  }

  lemma ExclusiveStep(s: State, step: Step)
    requires Book(s) && Exclusive(s) && Enabled(s, step) && SoundClaim(s, step)
    ensures Exclusive(Apply(s, step))
  {
    match step
    case Open(a) => ExclusiveOpen(s, a);
    case ReadForRelease(a) => ExclusiveReadForRelease(s, a);
    case Unlink(a) => ExclusiveUnlink(s, a);
    case Rename(q) => ExclusiveRename(s, q);
    case _ =>
      if step.Read? || step.Decide? || step.Compare? || step.Discard? || step.Link? || step.DropClaim? {
        ExclusiveClaimant(s, step);
      } else {
        ExclusiveQuiet(s, step);
      }
  }

  /**
  The exact guard: in a state where every engaged caller's file is at the lock path,
  the next step takes a live owner's file away from it exactly when it is a reclaim
  rename executed while some live caller is engaged.
  */
  lemma ExclusionBrokenExactly(s: State, step: Step)
    requires Book(s) && Exclusive(s) && Enabled(s, step)
    ensures !Exclusive(Apply(s, step)) <==>
            step.Rename? && exists a :: Engaged(s, a)
  {
    if step.Rename? {
      if a :| Engaged(s, a) {
        assert AtLockPath(s, a) && BookOf(s, a);
        assert Engaged(Apply(s, step), a) && !AtLockPath(Apply(s, step), a);
      } else {
        forall b ensures !Engaged(Apply(s, step), b) { assert !Engaged(s, b); }
      }
    } else {
      ExclusiveStep(s, step);
    }
  }

  /** At most one live caller is engaged. */
  ghost predicate AtMostOne(s: State) {
    forall a, b | Engaged(s, a) && Engaged(s, b) :: a == b
  }

  /** A second caller becomes engaged exactly when it finds the lock path free while another live caller is engaged. */
  lemma SecondHolderExactly(s: State, step: Step)
    requires Book(s) && AtMostOne(s) && Enabled(s, step)
    ensures !AtMostOne(Apply(s, step)) <==>
      step.Open? && s.lock.None? && exists b :: b != step.a && Engaged(s, b)
  {
    var s' := Apply(s, step);
    if step.Open? && s.lock.None? {
      OpenEngages(s, step.a);
    } else {
      forall a | Engaged(s', a) ensures Engaged(s, a) { EngagedBefore(s, step, a); }
    }
  }

  lemma OpenEngages(s: State, q: Actor)
    requires Book(s) && Enabled(s, Open(q)) && s.lock.None?
    ensures Engaged(Apply(s, Open(q)), q)
    ensures forall b | b != q :: Engaged(Apply(s, Open(q)), b) <==> Engaged(s, b)
  {
    forall b | b != q ensures Engaged(Apply(s, Open(q)), b) <==> Engaged(s, b) {
      if b in s.callers { assert BookOf(s, b); }
    }
  }

  lemma EngagedBefore(s: State, step: Step, a: Actor)
    requires Book(s) && Enabled(s, step) && !(step.Open? && s.lock.None?) && Engaged(Apply(s, step), a)
    ensures Engaged(s, a)
  {
    match step
    case Write(q) => WriteEngages(s, q, a);
    case ReadForRelease(q) => ReleaseEngages(s, q, a);
    case _ => QuietEngages(s, step, a);
  }

  lemma QuietEngages(s: State, step: Step, a: Actor)
    requires !step.Write? && !step.ReadForRelease? && !(step.Open? && s.lock.None?)
    requires Enabled(s, step) && Engaged(Apply(s, step), a)
    ensures Engaged(s, a)
  {
  }

  lemma WriteEngages(s: State, q: Actor, a: Actor)
    requires Book(s) && Enabled(s, Write(q)) && Engaged(Apply(s, Write(q)), a)
    ensures Engaged(s, a)
  {
    assert a in s.callers && BookOf(s, a) && BookOf(s, q);
    assert a != q ==> Apart(s.callers[q].stage, s.callers[a].stage);
  }

  lemma ReleaseEngages(s: State, q: Actor, a: Actor)
    requires Book(s) && Enabled(s, ReadForRelease(q)) && Engaged(Apply(s, ReadForRelease(q)), a)
    ensures Engaged(s, a)
  {
    assert a in s.callers && BookOf(s, a);
  }

  /** In every interleaving with sound claims, at most one live caller holds the lock. */
  lemma MutualExclusion(s: State, steps: seq<Step>, a: Actor, b: Actor)
    requires Initial(s) && Run(SoundClaim, s, steps)
    requires Engaged(Exec(s, steps), a) && Engaged(Exec(s, steps), b)
    ensures a == b
    ensures AtLockPath(Exec(s, steps), a)
  {
    SoundRunKeeps(s, steps);
    OneEngaged(Exec(s, steps), a, b);
  }

  lemma {:induction false} SoundRunKeeps(s: State, steps: seq<Step>)
    requires Book(s) && Exclusive(s) && Run(SoundClaim, s, steps)
    ensures Book(Exec(s, steps)) && Exclusive(Exec(s, steps))
    decreases |steps|
  {
    if steps != [] {
      BookStep(s, steps[0]);
      ExclusiveStep(s, steps[0]);
      SoundRunKeeps(Apply(s, steps[0]), steps[1..]);
    }
  }

  // ------------------------------------------------- no reclaim deletes a record

  ghost predicate Owner(s: State, a: Actor) {
    Live(s, a) && (StageOf(s, a).Written? || StageOf(s, a).Holding?)
  }

  /** Some claimant has linked the file behind `p` back and will now unlink `p`. */
  ghost predicate Doomed(s: State, p: Path) {
    exists q :: q in s.callers && DoomedBy(s.callers[q].stage, p)
  }

  predicate DoomedBy(g: Stage, p: Path) {
    g.Linked? && p == StalePath(g.id)
  }

  ghost predicate NamedBy(s: State, a: Actor, p: Path) {
    OwnsFile(StageOf(s, a)) && FileAt(s, p) == Some(StageOf(s, a).inode) && !Doomed(s, p)
  }

  /** A live caller whose lock file is not its own to give up yet. */
  ghost predicate Owning(s: State, a: Actor) {
    Live(s, a) && (StageOf(s, a).Created? || StageOf(s, a).Written? || StageOf(s, a).Holding?)
  }

  /** The file of every live owner still has a name that no claimant is about to unlink. */
  ghost predicate Kept(s: State) {
    && (forall a | Owning(s, a) :: exists p :: NamedBy(s, a, p))
    && (forall q, a | Owning(s, a) :: Spares(s, StageOf(s, q), StageOf(s, a)))
  }

  ghost predicate Spares(s: State, g: Stage, h: Stage) {
    (g.Claimed? && h.Created?) || (g.Discarding? && OwnsFile(h)) ==>
      g.id in s.stale ==> s.stale[g.id] != h.inode
  }

  /** The complete lock record of `a` is the text of the file named `p`. */
  ghost predicate RecordAt(s: State, a: Actor, p: Path) {
    && a in s.callers && OwnsFile(s.callers[a].stage)
    && FileAt(s, p).Some? && FileAt(s, p).value in s.contents
    && s.contents[FileAt(s, p).value] == Owned(s.callers[a].pid, s.callers[a].stage.token)
  }

  /** A name that a step neither moves nor removes, and that nobody newly dooms, still does. */
  lemma NameStays(s: State, s': State, q: Actor, a: Actor, n: Path)
    requires NamedBy(s, a, n) && q in s.callers && q in s'.callers
    requires s'.callers == s.callers[q := s'.callers[q]] && !DoomedBy(s'.callers[q].stage, n)
    requires FileAt(s', n) == FileAt(s, n)
    requires OwnsFile(StageOf(s', a)) && StageOf(s', a).inode == StageOf(s, a).inode
    ensures NamedBy(s', a, n)
  {
    forall r | r in s'.callers
      ensures !DoomedBy(s'.callers[r].stage, n)
    {
      if r != q { assert !DoomedBy(s.callers[r].stage, n); }
    }
  }

  lemma NameAfterRename(s: State, q: Actor, a: Actor, n: Path) returns (p: Path)
    requires Book(s) && Enabled(s, Rename(q)) && Owning(s, a) && NamedBy(s, a, n)
    ensures NamedBy(Apply(s, Rename(q)), a, p)
  {
    var s' := Apply(s, Rename(q));
    if n == LockPath {
      p := StalePath(s.unused);
      forall r | r in s'.callers
        ensures !DoomedBy(s'.callers[r].stage, p)
      {
        assert BookOf(s, r);
      }
    } else {
      p := n;
      assert n.id < s.unused;
      NameStays(s, s', q, a, n);
    }
  }

  lemma NameAfterLink(s: State, q: Actor, a: Actor, n: Path) returns (p: Path)
    requires Book(s) && Enabled(s, Link(q)) && Owning(s, a) && NamedBy(s, a, n)
    ensures NamedBy(Apply(s, Link(q)), a, p)
  {
    if s.lock.None? && n == StalePath(StageOf(s, q).id) {
      p := LockPath;
    } else {
      p := n;
      NameStays(s, Apply(s, Link(q)), q, a, n);
    }
  }

  lemma NameAfterUnlink(s: State, step: Step, a: Actor, n: Path)
    requires Book(s) && Kept(s) && Enabled(s, step) && AimedRelease(s, step)
    requires step.Unlink? || step.Discard? || step.DropClaim?
    requires Owning(s, a) && NamedBy(s, a, n)
    ensures NamedBy(Apply(s, step), a, n)
  {
    assert step.a != a && Apart(s.callers[step.a].stage, s.callers[a].stage);
    assert Spares(s, StageOf(s, step.a), StageOf(s, a)) && !DoomedBy(s.callers[step.a].stage, n);
    NameStays(s, Apply(s, step), step.a, a, n);
  }

  lemma NameAfterReader(s: State, step: Step, a: Actor, n: Path)
    requires Book(s) && Enabled(s, step) && (step.Read? || step.Decide? || step.Compare?)
    requires Owning(s, a) && NamedBy(s, a, n)
    ensures NamedBy(Apply(s, step), a, n)
  {
    NameStays(s, Apply(s, step), step.a, a, n);
  }

  lemma NameAfterQuiet(s: State, step: Step, a: Actor, n: Path)
    requires Book(s) && Enabled(s, step)
    requires step.Spawn? || step.Write? || step.Enter? || step.Fail? || step.BeginRelease? || step.ReadForRelease?
      || step.Crash?
    requires Owning(s, a) && Owning(Apply(s, step), a) && NamedBy(s, a, n)
    ensures NamedBy(Apply(s, step), a, n)
  {
    var s' := Apply(s, step);
    forall r | r in s'.callers
      ensures !DoomedBy(s'.callers[r].stage, n)
    {
      if r in s.callers { assert !DoomedBy(s.callers[r].stage, n); }
    }
  }

  lemma KeptName(s: State, step: Step, a: Actor) returns (p: Path)
    requires Book(s) && Kept(s) && Enabled(s, step) && AimedRelease(s, step)
    requires Owning(s, a) && Owning(Apply(s, step), a)
    ensures NamedBy(Apply(s, step), a, p)
  {
    var n :| NamedBy(s, a, n);
    p := n;
    if step.Rename? {
      p := NameAfterRename(s, step.a, a, n);
    } else if step.Link? {
      p := NameAfterLink(s, step.a, a, n);
    } else if step.Unlink? || step.Discard? || step.DropClaim? {
      NameAfterUnlink(s, step, a, n);
    } else if step.Open? {
      NameStays(s, Apply(s, step), step.a, a, n);
    } else if step.Read? || step.Decide? || step.Compare? {
      NameAfterReader(s, step, a, n);
    } else {
      NameAfterQuiet(s, step, a, n);
    }
  }

  /** A comparison makes a caller discard a file only when it found that file stale. */
  lemma SparesCompare(s: State, q: Actor, a: Actor)
    requires Book(s) && Kept(s) && Enabled(s, Compare(q)) && Owning(s, a)
    ensures Spares(Apply(s, Compare(q)), StageOf(Apply(s, Compare(q)), q), StageOf(s, a))
  {
    assert BookOf(s, a) && BookOf(s, q) && Spares(s, StageOf(s, q), StageOf(s, a));
  }

  lemma SparesRename(s: State, r: Actor, q: Actor, a: Actor)
    requires Book(s) && Kept(s) && Enabled(s, Rename(r)) && NotBeingWritten(s, Rename(r)) && Owning(s, a)
    ensures Spares(Apply(s, Rename(r)), StageOf(Apply(s, Rename(r)), q), StageOf(Apply(s, Rename(r)), a))
  {
    assert Spares(s, StageOf(s, q), StageOf(s, a));
    assert q in s.callers ==> BookOf(s, q);
  }

  lemma SparesOpen(s: State, step: Step, q: Actor)
    requires Book(s) && Enabled(s, step) && step.Open?
    requires Owning(Apply(s, step), step.a)
    ensures Spares(Apply(s, step), StageOf(Apply(s, step), q), StageOf(Apply(s, step), step.a))
  {
    assert forall id | id in s.stale :: s.stale[id] in s.contents;
  }

  lemma SparesAfterOpen(s: State, o: Actor, q: Actor, a: Actor)
    requires Book(s) && Kept(s) && Enabled(s, Open(o)) && Owning(s, a)
    ensures Spares(Apply(s, Open(o)), StageOf(Apply(s, Open(o)), q), StageOf(Apply(s, Open(o)), a))
  {
    assert Spares(s, StageOf(s, q), StageOf(s, a));
  }

  lemma SparesAfterLink(s: State, o: Actor, q: Actor, a: Actor)
    requires Book(s) && Kept(s) && Enabled(s, Link(o)) && Owning(s, a)
    ensures Spares(Apply(s, Link(o)), StageOf(Apply(s, Link(o)), q), StageOf(Apply(s, Link(o)), a))
  {
    assert Spares(s, StageOf(s, q), StageOf(s, a));
  }

  lemma SparesAfterUnlink(s: State, o: Actor, q: Actor, a: Actor)
    requires Book(s) && Kept(s) && Enabled(s, Unlink(o)) && Owning(s, a)
    ensures Spares(Apply(s, Unlink(o)), StageOf(Apply(s, Unlink(o)), q), StageOf(Apply(s, Unlink(o)), a))
  {
    assert Spares(s, StageOf(s, q), StageOf(s, a));
  }

  lemma SparesAfterDiscard(s: State, o: Actor, q: Actor, a: Actor)
    requires Book(s) && Kept(s) && Enabled(s, Discard(o)) && Owning(s, a)
    ensures Spares(Apply(s, Discard(o)), StageOf(Apply(s, Discard(o)), q), StageOf(Apply(s, Discard(o)), a))
  {
    assert Spares(s, StageOf(s, q), StageOf(s, a));
  }

  lemma SparesAfterDrop(s: State, o: Actor, q: Actor, a: Actor)
    requires Book(s) && Kept(s) && Enabled(s, DropClaim(o)) && Owning(s, a)
    ensures Spares(Apply(s, DropClaim(o)), StageOf(Apply(s, DropClaim(o)), q), StageOf(Apply(s, DropClaim(o)), a))
  {
    assert Spares(s, StageOf(s, q), StageOf(s, a));
  }

  lemma SparesQuiet(s: State, step: Step, q: Actor, a: Actor)
    requires Kept(s) && Enabled(s, step) && Owning(s, a) && Owning(Apply(s, step), a)
    requires !(step.Open? || step.Rename? || step.Link? || step.Unlink? || step.Discard? || step.DropClaim?)
    requires step != Compare(q)
    ensures Spares(Apply(s, step), StageOf(Apply(s, step), q), StageOf(Apply(s, step), a))
  {
    assert Spares(s, StageOf(s, q), StageOf(s, a));
  }

  lemma SparesStep(s: State, step: Step, q: Actor, a: Actor)
    requires Book(s) && Kept(s) && Enabled(s, step) && NotBeingWritten(s, step)
    requires Owning(s, a) && Owning(Apply(s, step), a)
    ensures Spares(Apply(s, step), StageOf(Apply(s, step), q), StageOf(Apply(s, step), a))
  {
    if step == Compare(q) {
      SparesCompare(s, q, a);
    } else {
      match step
      case Rename(o) => SparesRename(s, o, q, a);
      case Open(o) => SparesAfterOpen(s, o, q, a);
      case Link(o) => SparesAfterLink(s, o, q, a);
      case _ => SparesOther(s, step, q, a);
    }
  }

  lemma SparesOther(s: State, step: Step, q: Actor, a: Actor)
    requires Book(s) && Kept(s) && Enabled(s, step) && Owning(s, a) && Owning(Apply(s, step), a)
    requires !step.Rename? && !step.Open? && !step.Link? && step != Compare(q)
    ensures Spares(Apply(s, step), StageOf(Apply(s, step), q), StageOf(Apply(s, step), a))
  {
    match step
    case Unlink(o) => SparesAfterUnlink(s, o, q, a);
    case Discard(o) => SparesAfterDiscard(s, o, q, a);
    case DropClaim(o) => SparesAfterDrop(s, o, q, a);
    case _ => SparesQuiet(s, step, q, a);
  }

  lemma OwningBefore(s: State, step: Step, a: Actor)
    requires Enabled(s, step) && Owning(Apply(s, step), a)
    ensures Owning(s, a) || (step.Open? && step.a == a && s.lock.None?)
  {
  }

  lemma KeptStep(s: State, step: Step)
    requires Book(s) && Kept(s) && Enabled(s, step) && NotBeingWritten(s, step) && AimedRelease(s, step)
    ensures Kept(Apply(s, step))
  {
    var s' := Apply(s, step);
    forall a | Owning(s', a)
      ensures exists p :: NamedBy(s', a, p)
    {
      OwningBefore(s, step, a);
      if Owning(s, a) {
        var p := KeptName(s, step, a);
      } else {
        assert NamedBy(s', a, LockPath);
      }
    }
    forall q, a | Owning(s', a)
      ensures Spares(s', StageOf(s', q), StageOf(s', a))
    {
      OwningBefore(s, step, a);
      if Owning(s, a) { SparesStep(s, step, q, a); } else { SparesOpen(s, step, q); }
    }
  }

  lemma {:induction false} AimedRunKeeps(s: State, steps: seq<Step>)
    requires Book(s) && Kept(s) && Run(NotBeingWrittenAndAimed, s, steps)
    ensures Book(Exec(s, steps)) && Kept(Exec(s, steps))
    decreases |steps|
  {
    if steps != [] {
      BookStep(s, steps[0]);
      KeptStep(s, steps[0]);
      AimedRunKeeps(Apply(s, steps[0]), steps[1..]);
    }
  }

  /**
  However renames, comparisons and link-backs interleave, even when a rename moves the
  wrong file, the complete record of a live owner always has a name: the lock path or a
  stale name.
  */
  lemma RecordNeverDeleted(s: State, steps: seq<Step>, a: Actor)
    requires Initial(s) && Run(NotBeingWrittenAndAimed, s, steps)
    requires Owner(Exec(s, steps), a)
    ensures exists p :: RecordAt(Exec(s, steps), a, p)
  {
    AimedRunKeeps(s, steps);
    var t := Exec(s, steps);
    assert Owning(t, a);
    var p :| NamedBy(t, a, p);
    assert BookOf(t, a);
    assert RecordAt(t, a, p);
  }

  /** The lock path is the only name of the owner's file that no claimant is about to unlink. */
  ghost predicate OnlyAtLockPath(s: State, a: Actor) {
    Owning(s, a) && NamedBy(s, a, LockPath) && forall p | NamedBy(s, a, p) :: p == LockPath
  }

  ghost predicate Nameless(s: State, a: Actor) {
    Owning(s, a) && forall p :: !NamedBy(s, a, p)
  }

  lemma UnlinkLoses(s: State, q: Actor, a: Actor)
    requires Book(s) && Enabled(s, Unlink(q)) && a != q && OnlyAtLockPath(s, a)
    ensures Nameless(Apply(s, Unlink(q)), a)
  {
    var s' := Apply(s, Unlink(q));
    forall p ensures !NamedBy(s', a, p) {
      if NamedBy(s', a, p) {
        assert p != LockPath && FileAt(s, p) == FileAt(s', p);
        forall r | r in s.callers ensures !DoomedBy(s.callers[r].stage, p) {
          assert r != q ==> !DoomedBy(s'.callers[r].stage, p);
        }
        assert NamedBy(s, a, p);
      }
    }
  }

  lemma UnlinkSpares(s: State, q: Actor, a: Actor, n: Path)
    requires Book(s) && Enabled(s, Unlink(q)) && Owning(s, a) && NamedBy(s, a, n) && n != LockPath
    ensures NamedBy(Apply(s, Unlink(q)), a, n)
  {
    NameStays(s, Apply(s, Unlink(q)), q, a, n);
  }

  /**
  The exact guard: where every live owner's file has a name to keep, the next step leaves one without exactly when a
  release unlinks the lock path while that is the only such name of another live owner's file.
  */
  lemma RecordLostExactly(s: State, step: Step)
    requires Book(s) && Kept(s) && Enabled(s, step) && NotBeingWritten(s, step)
    ensures (exists a :: Nameless(Apply(s, step), a)) <==>
      step.Unlink? && exists a :: a != step.a && OnlyAtLockPath(s, a)
  {
    var s' := Apply(s, step);
    if AimedRelease(s, step) {
      KeptStep(s, step);
      forall a ensures !Nameless(s', a) { assert Owning(s', a) ==> exists p :: NamedBy(s', a, p); }
      if step.Unlink? {
        forall a | a != step.a ensures !OnlyAtLockPath(s, a) {
          assert a in s.callers ==> Apart(s.callers[step.a].stage, s.callers[a].stage);
        }
      }
    } else {
      LostByUnlink(s, step.a);
    }
  }

  lemma LostByUnlink(s: State, q: Actor)
    requires Book(s) && Kept(s) && Enabled(s, Unlink(q))
    ensures (exists a :: Nameless(Apply(s, Unlink(q)), a)) <==> exists a :: a != q && OnlyAtLockPath(s, a)
  {
    var s' := Apply(s, Unlink(q));
    if a :| a != q && OnlyAtLockPath(s, a) { UnlinkLoses(s, q, a); }
    if a :| Nameless(s', a) {
      assert a != q && Owning(s, a);
      var n :| NamedBy(s, a, n);
      forall p | NamedBy(s, a, p) ensures p == LockPath {
        if p != LockPath { UnlinkSpares(s, q, a, p); }
      }
      assert OnlyAtLockPath(s, a);
    }
  }

  // -------------------------------------------------------------- three attempts

  /** How often `a` has tried to create the lock file. */
  function Opens(steps: seq<Step>, a: Actor): nat
    decreases |steps|
  {
    if steps == [] then 0 else (if steps[0] == Open(a) then 1 else 0) + Opens(steps[1..], a)
  }

  /** The caller has not got the lock yet, and has not given up. */
  predicate Acquiring(g: Stage) {
    g.Trying? || g.Contended? || g.Observed? || g.Claiming? || g.Claimed? || g.Discarding? || g.Restoring? || g.Linked?
  }

  predicate Counting(s: State, a: Actor) {
    a !in s.callers || Acquiring(s.callers[a].stage)
  }

  /** The tries that the stage of `a` accounts for. */
  function Rounds(s: State, a: Actor): nat
    requires Counting(s, a)
  {
    if a !in s.callers then 0
    else
      var g := s.callers[a].stage;
      if g.Trying? then g.attempt else g.attempt + 1
  }

  lemma RoundsStep(s: State, step: Step, a: Actor)
    requires Enabled(s, step) && Counting(Apply(s, step), a)
    ensures Counting(s, a)
    ensures Rounds(Apply(s, step), a) == Rounds(s, a) + if step == Open(a) then 1 else 0
  {
  }

  lemma {:induction false} RoundsCounted(premise: (State, Step) -> bool, s: State, steps: seq<Step>, a: Actor)
    requires Run(premise, s, steps) && Counting(Exec(s, steps), a)
    ensures Counting(s, a) && Rounds(Exec(s, steps), a) == Rounds(s, a) + Opens(steps, a)
    decreases |steps|
  {
    if steps != [] {
      RoundsCounted(premise, Apply(s, steps[0]), steps[1..], a);
      RoundsStep(s, steps[0], a);
    }
  }

  lemma GiveUpStep(t: State, step: Step, a: Actor)
    requires a in t.callers && Acquiring(t.callers[a].stage) && Enabled(t, step) && StageOf(Apply(t, step), a).Finished?
    ensures step == Decide(a) && !Stale(t.callers[a].stage.raw, t.dead) && Rounds(t, a) >= ATTEMPTS
  {
  }

  /** A caller gives up only on finding the lock in the hands of a live process at its third try. */
  lemma GivesUpAfterThree(premise: (State, Step) -> bool, s: State, steps: seq<Step>, step: Step, a: Actor)
    requires Initial(s) && Run(premise, s, steps)
    requires var t := Exec(s, steps);
      a in t.callers && Acquiring(t.callers[a].stage) && Enabled(t, step) && StageOf(Apply(t, step), a).Finished?
    ensures var t := Exec(s, steps);
      step == Decide(a) && !Stale(t.callers[a].stage.raw, t.dead) && Opens(steps, a) == ATTEMPTS
  {
    GiveUpStep(Exec(s, steps), step, a);
    TriesBounded(premise, s, steps, a);
  }

  /** No caller tries more than three times for the lock, and one that has run out of tries has made exactly three. */
  lemma TriesBounded(premise: (State, Step) -> bool, s: State, steps: seq<Step>, a: Actor)
    requires Initial(s) && Run(premise, s, steps) && Counting(Exec(s, steps), a)
    ensures Opens(steps, a) == Rounds(Exec(s, steps), a) <= ATTEMPTS
    ensures StageOf(Exec(s, steps), a) == Trying(ATTEMPTS) ==> Opens(steps, a) == ATTEMPTS
  {
    RoundsCounted(premise, s, steps, a);
    RoundsBounded(premise, s, steps, a);
  }

  lemma {:induction false} RoundsBounded(premise: (State, Step) -> bool, s: State, steps: seq<Step>, a: Actor)
    requires Run(premise, s, steps) && Counting(Exec(s, steps), a)
    requires Counting(s, a) ==> Rounds(s, a) <= ATTEMPTS
    ensures Rounds(Exec(s, steps), a) <= ATTEMPTS
    decreases |steps|
  {
    if steps != [] {
      RoundsCounted(premise, Apply(s, steps[0]), steps[1..], a);
      RoundsStep(s, steps[0], a);
      RoundsBounded(premise, Apply(s, steps[0]), steps[1..], a);
    }
  }

  // --------------------------------------------------------------- reaching a state

  lemma {:induction false} RunExtends(premise: (State, Step) -> bool, s: State, steps: seq<Step>, step: Step)
    requires Run(premise, s, steps)
    requires Enabled(Exec(s, steps), step) && premise(Exec(s, steps), step)
    ensures Run(premise, s, steps + [step])
    ensures Exec(s, steps + [step]) == Apply(Exec(s, steps), step)
    decreases |steps|
  {
    if steps != [] {
      RunExtends(premise, Apply(s, steps[0]), steps[1..], step);
      assert (steps + [step])[1..] == steps[1..] + [step];
    }
  }

  /** `t` is reached from `s` by some interleaving that meets `premise`. */
  ghost predicate Reached(premise: (State, Step) -> bool, s: State, t: State) {
    exists run :: Run(premise, s, run) && Exec(s, run) == t
  }

  lemma Start(premise: (State, Step) -> bool, s: State)
    ensures Reached(premise, s, s)
  {
    assert Run(premise, s, []) && Exec(s, []) == s;
  }

  lemma Go(premise: (State, Step) -> bool, s: State, t: State, step: Step)
    requires Reached(premise, s, t) && Enabled(t, step) && premise(t, step)
    ensures Reached(premise, s, Apply(t, step))
  {
    var run :| Run(premise, s, run) && Exec(s, run) == t;
    RunExtends(premise, s, run, step);
    assert Run(premise, s, run + [step]) && Exec(s, run + [step]) == Apply(t, step);
  }

  /** One more step, ending in `u`. */
  lemma Go1(premise: (State, Step) -> bool, s: State, t: State, a: Step, u: State)
    requires Reached(premise, s, t) && Enabled(t, a) && premise(t, a) && u == Apply(t, a)
    ensures Reached(premise, s, u)
  {
    Go(premise, s, t, a);
  }
}
