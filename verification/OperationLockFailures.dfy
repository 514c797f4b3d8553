/**
Concrete interleavings of the operation lock that break what the lock is for. Each run
meets every premise of a guarantee in `OperationLock` but one.
*/
module OperationLockFailures {
  import opened Prelude
  import opened OperationLock

  /** A moved complete record is not a file still being written, so each run below fails one premise only. */
  lemma MovesRecordIsWritten(s: State, step: Step)
    requires Book(s) && MovesRecord(s, step)
    ensures NotBeingWritten(s, step)
  {
    forall b | Live(s, b) && StageOf(s, b).Created?
      ensures step.Rename? && s.lock.Some? ==> StageOf(s, b).inode != s.lock.value
    {
      assert BookOf(s, b);
    }
  }

  lemma {:induction false} RunIsWritten(s: State, steps: seq<Step>)
    requires Book(s) && Run(MovesRecord, s, steps)
    ensures Run(NotBeingWritten, s, steps)
    decreases |steps|
  {
    if steps != [] {
      MovesRecordIsWritten(s, steps[0]);
      BookStep(s, steps[0]);
      RunIsWritten(Apply(s, steps[0]), steps[1..]);
    }
  }

  lemma ReachedIsWritten(s: State, t: State)
    requires Initial(s) && Reached(MovesRecord, s, t)
    ensures Reached(NotBeingWritten, s, t)
  {
    var run :| Run(MovesRecord, s, run) && Exec(s, run) == t;
    RunIsWritten(s, run);
  }

  ghost predicate TwoHolders(s: State) {
    exists a, b :: a != b && Live(s, a) && Live(s, b) && StageOf(s, a).Holding? && StageOf(s, b).Holding?
  }

  /** Two or three steps at once, ending in `u`. */
  lemma Go2(premise: (State, Step) -> bool, s: State, t: State, a: Step, b: Step, u: State)
    requires Reached(premise, s, t)
    requires Enabled(t, a) && premise(t, a)
    requires Enabled(Apply(t, a), b) && premise(Apply(t, a), b)
    requires u == Apply(Apply(t, a), b)
    ensures Reached(premise, s, u)
  {
    Go(premise, s, t, a);
    Go(premise, s, Apply(t, a), b);
  }

  lemma Go3(premise: (State, Step) -> bool, s: State, t: State, a: Step, b: Step, c: Step, u: State)
    requires Reached(premise, s, t)
    requires Enabled(t, a) && premise(t, a)
    requires Enabled(Apply(t, a), b) && premise(Apply(t, a), b)
    requires Enabled(Apply(Apply(t, a), b), c) && premise(Apply(Apply(t, a), b), c)
    requires u == Apply(Apply(Apply(t, a), b), c)
    ensures Reached(premise, s, u)
  {
    Go(premise, s, t, a);
    Go(premise, s, Apply(t, a), b);
    Go(premise, s, Apply(Apply(t, a), b), c);
  }

  /** A caller that finds a stale record tries, reads it and decides to claim it. */
  lemma GoClaim(s: State, t: State, a: Actor, u: State)
    requires Reached(MovesRecord, s, t)
    requires Live(t, a) && t.callers[a].stage == Trying(0)
    requires t.lock.Some? && t.lock.value in t.contents && Stale(t.contents[t.lock.value], t.dead)
    requires u == t.(callers := t.callers[a := Caller(t.callers[a].pid, Claiming(0, t.contents[t.lock.value]))])
    ensures Reached(MovesRecord, s, u)
  {
    var raw := t.contents[t.lock.value];
    var contended := Goto(t, a, Contended(0));
    Go1(MovesRecord, s, t, Open(a), contended);
    var observed := Goto(contended, a, Observed(0, raw));
    Go1(MovesRecord, s, contended, Read(a), observed);
    assert Goto(observed, a, Claiming(0, raw)).callers == u.callers;
    Go1(MovesRecord, s, observed, Decide(a), u);
  }

  /** A claimant renames the record at the lock path aside. */
  lemma GoRename(s: State, t: State, a: Actor, u: State)
    requires Reached(MovesRecord, s, t)
    requires Live(t, a) && t.callers[a].stage.Claiming?
    requires t.lock.Some? && t.lock.value in t.contents && t.contents[t.lock.value].Owned?
    requires var g := t.callers[a].stage;
      u == State(
        None, t.stale[t.unused := t.lock.value], t.contents,
        t.callers[a := Caller(t.callers[a].pid, Claimed(g.attempt, g.raw, t.unused))], t.dead, t.unused + 1)
    ensures Reached(MovesRecord, s, u)
  {
    Go1(MovesRecord, s, t, Rename(a), u);
  }

  /** A claimant compares the file it moved with what it read. */
  lemma GoCompare(s: State, t: State, a: Actor, u: State)
    requires Reached(MovesRecord, s, t)
    requires Live(t, a) && t.callers[a].stage.Claimed?
    requires t.callers[a].stage.id in t.stale && t.stale[t.callers[a].stage.id] in t.contents
    requires var g := t.callers[a].stage;
      var same := t.contents[t.stale[g.id]] == g.raw;
      var next := if same then Discarding(g.attempt, g.id) else Restoring(g.attempt, g.id);
      u == t.(callers := t.callers[a := Caller(t.callers[a].pid, next)])
    ensures Reached(MovesRecord, s, u)
  {
    Go1(MovesRecord, s, t, Compare(a), u);
  }

  /** A caller whose record is written returns from `acquireLock`. */
  lemma GoEnter(s: State, t: State, a: Actor, u: State)
    requires Reached(MovesRecord, s, t)
    requires Live(t, a) && t.callers[a].stage.Written?
    requires var g := t.callers[a].stage;
      u == t.(callers := t.callers[a := Caller(t.callers[a].pid, Holding(g.inode, g.token))])
    ensures Reached(MovesRecord, s, u)
  {
    Go1(MovesRecord, s, t, Enter(a), u);
  }

  /** A claimant that moved the wrong file links it back. */
  lemma GoLink(s: State, t: State, a: Actor, u: State)
    requires Reached(MovesRecord, s, t)
    requires Live(t, a) && t.callers[a].stage.Restoring? && t.lock.None? && t.callers[a].stage.id in t.stale
    requires var g := t.callers[a].stage;
      u == t.(
        lock := Some(t.stale[g.id]),
        callers := t.callers[a := Caller(t.callers[a].pid, Linked(g.attempt, g.id))])
    ensures Reached(MovesRecord, s, u)
  {
    Go1(MovesRecord, s, t, Link(a), u);
  }

  /** A claimant that linked the file back removes the stale name. */
  lemma GoDropClaim(s: State, t: State, a: Actor, u: State)
    requires Reached(MovesRecord, s, t)
    requires Live(t, a) && t.callers[a].stage.Linked?
    requires var g := t.callers[a].stage;
      u == t.(
        stale := t.stale - {g.id},
        callers := t.callers[a := Caller(t.callers[a].pid, Trying(g.attempt + 1))])
    ensures Reached(MovesRecord, s, u)
  {
    Go1(MovesRecord, s, t, DropClaim(a), u);
  }

  /** A claimant that moved the file it read unlinks it. */
  lemma GoDiscard(s: State, t: State, a: Actor, u: State)
    requires Reached(MovesRecord, s, t)
    requires Live(t, a) && t.callers[a].stage.Discarding?
    requires var g := t.callers[a].stage;
      u == t.(
        stale := t.stale - {g.id},
        callers := t.callers[a := Caller(t.callers[a].pid, Trying(g.attempt + 1))])
    ensures Reached(MovesRecord, s, u)
  {
    Go1(MovesRecord, s, t, Discard(a), u);
  }

  lemma WriteGives(t: State, a: Actor)
    requires Live(t, a) && t.callers[a].stage.Created?
    ensures var c := t.callers[a];
      Apply(t, Write(a)) == t.(
        contents := t.contents[c.stage.inode := Owned(c.pid, c.stage.token)],
        callers := t.callers[a := Caller(c.pid, Written(c.stage.inode, c.stage.token))])
  {
  }

  /** A caller that finds the lock path free creates the file and writes its record. */
  lemma GoTake(s: State, t: State, a: Actor, u: State)
    requires Reached(MovesRecord, s, t)
    requires Live(t, a) && t.callers[a].stage.Trying? && t.callers[a].stage.attempt < ATTEMPTS && t.lock.None?
    requires u == State(
      Some(t.unused), t.stale, t.contents[t.unused := Owned(t.callers[a].pid, t.unused)],
      t.callers[a := Caller(t.callers[a].pid, Written(t.unused, t.unused))], t.dead, t.unused + 1)
    ensures Reached(MovesRecord, s, u)
  {
    var created := ApplyOpen(t, a, t.callers[a].stage.attempt);
    Go1(MovesRecord, s, t, Open(a), created);
    WriteGives(created, a);
    Go1(MovesRecord, s, created, Write(a), u);
  }

  const TORN_0 := State(
    None, map[], map[],
    map[1 := Caller(10, Trying(0)), 2 := Caller(20, Trying(0))], {}, 0)

  const TORN_1 := State(
    Some(0), map[], map[0 := Blank],
    map[1 := Caller(10, Created(0, 0)), 2 := Caller(20, Observed(0, Blank))], {}, 1)

  lemma Torn1()
    ensures Reached(TextUnchanged, TORN_0, TORN_1)
  {
    Start(TextUnchanged, TORN_0);
    Go3(TextUnchanged, TORN_0, TORN_0, Open(1), Open(2), Read(2), TORN_1);
  }

  const TORN_2 := State(
    None, map[1 := 0], map[0 := Blank],
    map[1 := Caller(10, Created(0, 0)), 2 := Caller(20, Discarding(0, 1))], {}, 2)

  lemma Torn2()
    ensures Reached(TextUnchanged, TORN_0, TORN_2)
  {
    Torn1();
    Go3(TextUnchanged, TORN_0, TORN_1, Decide(2), Rename(2), Compare(2), TORN_2);
  }

  const TORN_2_FREE := State(
    None, map[], map[0 := Blank],
    map[1 := Caller(10, Created(0, 0)), 2 := Caller(20, Trying(1))], {}, 2)

  lemma Torn2Free()
    ensures Reached(TextUnchanged, TORN_0, TORN_2_FREE)
  {
    Torn2();
    assert TORN_2.stale - {1} == TORN_2_FREE.stale;
    Go1(TextUnchanged, TORN_0, TORN_2, Discard(2), TORN_2_FREE);
  }

  const TORN_3 := State(
    Some(2), map[], map[0 := Owned(10, 0), 2 := Blank],
    map[1 := Caller(10, Written(0, 0)), 2 := Caller(20, Created(2, 2))], {}, 3)

  lemma Torn3()
    ensures Reached(TextUnchanged, TORN_0, TORN_3)
  {
    Torn2Free();
    Go2(TextUnchanged, TORN_0, TORN_2_FREE, Open(2), Write(1), TORN_3);
  }

  const TORN_4 := State(
    Some(2), map[], map[0 := Owned(10, 0), 2 := Owned(20, 2)],
    map[1 := Caller(10, Holding(0, 0)), 2 := Caller(20, Holding(2, 2))], {}, 3)

  lemma Torn4()
    ensures Reached(TextUnchanged, TORN_0, TORN_4)
  {
    Torn3();
    Go3(TextUnchanged, TORN_0, TORN_3, Enter(1), Write(2), Enter(2), TORN_4);
  }

  /** An empty lock file counts as stale, so a caller stopped before its write loses the lock. */
  lemma TornCreateBreaksExclusion() returns (t: State)
    ensures Initial(TORN_0) && Reached(TextUnchanged, TORN_0, t)
    ensures TwoHolders(t)
  {
    Torn4();
    t := TORN_4;
    assert Live(t, 1) && Live(t, 2) && StageOf(t, 1).Holding? && StageOf(t, 2).Holding?;
  }

  function Three(g1: Stage, g2: Stage, g3: Stage): map<Actor, Caller> {
    map[1 := Caller(10, g1), 2 := Caller(20, g2), 3 := Caller(30, g3)]
  }

  const AIM_0 := State(
    Some(1), map[], map[1 := Owned(9, 0)],
    Three(Trying(0), Trying(0), Trying(0)), {9}, 2)

  const AIM_1 := State(
    Some(1), map[], map[1 := Owned(9, 0)],
    Three(Claiming(0, Owned(9, 0)), Trying(0), Trying(0)), {9}, 2)

  lemma Aim1()
    ensures Reached(MovesRecord, AIM_0, AIM_1)
  {
    Start(MovesRecord, AIM_0);
    GoClaim(AIM_0, AIM_0, 1, AIM_1);
  }

  const AIM_2 := State(
    Some(1), map[], map[1 := Owned(9, 0)],
    Three(Claiming(0, Owned(9, 0)), Claiming(0, Owned(9, 0)), Trying(0)), {9}, 2)

  lemma Aim2()
    ensures Reached(MovesRecord, AIM_0, AIM_2)
  {
    Aim1();
    GoClaim(AIM_0, AIM_1, 2, AIM_2);
  }

  const AIM_2_MOVED := State(
    None, map[2 := 1], map[1 := Owned(9, 0)],
    Three(Claiming(0, Owned(9, 0)), Claimed(0, Owned(9, 0), 2), Trying(0)), {9}, 3)

  lemma Aim2Moved()
    ensures Reached(MovesRecord, AIM_0, AIM_2_MOVED)
  {
    Aim2();
    GoRename(AIM_0, AIM_2, 2, AIM_2_MOVED);
  }

  const AIM_3 := State(
    None, map[2 := 1], map[1 := Owned(9, 0)],
    Three(Claiming(0, Owned(9, 0)), Discarding(0, 2), Trying(0)), {9}, 3)

  lemma Aim3()
    ensures Reached(MovesRecord, AIM_0, AIM_3)
  {
    Aim2Moved();
    GoCompare(AIM_0, AIM_2_MOVED, 2, AIM_3);
  }

  const AIM_3_FREE := State(
    None, map[], map[1 := Owned(9, 0)],
    Three(Claiming(0, Owned(9, 0)), Trying(1), Trying(0)), {9}, 3)

  lemma Aim3Free()
    ensures Reached(MovesRecord, AIM_0, AIM_3_FREE)
  {
    Aim3();
    assert AIM_3.stale - {2} == AIM_3_FREE.stale;
    GoDiscard(AIM_0, AIM_3, 2, AIM_3_FREE);
  }

  const AIM_4 := State(
    Some(3), map[], map[1 := Owned(9, 0), 3 := Owned(20, 3)],
    Three(Claiming(0, Owned(9, 0)), Written(3, 3), Trying(0)), {9}, 4)

  lemma Aim4()
    ensures Reached(MovesRecord, AIM_0, AIM_4)
  {
    Aim3Free();
    GoTake(AIM_0, AIM_3_FREE, 2, AIM_4);
  }

  const AIM_5 := State(
    Some(5), map[4 := 3], map[1 := Owned(9, 0), 3 := Owned(20, 3), 5 := Blank],
    Three(Claimed(0, Owned(9, 0), 4), Holding(3, 3), Created(5, 5)), {9}, 6)

  lemma Aim5()
    ensures Reached(MovesRecord, AIM_0, AIM_5)
  {
    Aim4();
    Go3(MovesRecord, AIM_0, AIM_4, Enter(2), Rename(1), Open(3), AIM_5);
  }

  const AIM_6 := State(
    Some(5), map[4 := 3], map[1 := Owned(9, 0), 3 := Owned(20, 3), 5 := Owned(30, 5)],
    Three(Claimed(0, Owned(9, 0), 4), Holding(3, 3), Holding(5, 5)), {9}, 6)

  lemma Aim6()
    ensures Reached(MovesRecord, AIM_0, AIM_6)
  {
    Aim5();
    Go2(MovesRecord, AIM_0, AIM_5, Write(3), Enter(3), AIM_6);
  }

  /** A claimant that read a dead record may move the file of the caller that replaced it. */
  lemma MisaimedClaimBreaksExclusion() returns (t: State)
    ensures Initial(AIM_0) && Reached(MovesRecord, AIM_0, t) && Reached(NotBeingWritten, AIM_0, t)
    ensures TwoHolders(t)
  {
    Aim6();
    t := AIM_6;
    ReachedIsWritten(AIM_0, t);
    assert Live(t, 2) && Live(t, 3) && StageOf(t, 2).Holding? && StageOf(t, 3).Holding?;
  }

  function Four(g1: Stage, g2: Stage, g3: Stage, g4: Stage): map<Actor, Caller> {
    map[1 := Caller(10, g1), 2 := Caller(20, g2), 3 := Caller(30, g3), 4 := Caller(40, g4)]
  }

  const LOST_0 := State(
    Some(1), map[], map[1 := Owned(9, 0)],
    Four(Trying(0), Trying(0), Trying(0), Trying(0)), {9}, 2)

  const LOST_1 := State(
    Some(1), map[], map[1 := Owned(9, 0)],
    Four(Claiming(0, Owned(9, 0)), Trying(0), Trying(0), Trying(0)), {9}, 2)

  lemma Lost1()
    ensures Reached(MovesRecord, LOST_0, LOST_1)
  {
    Start(MovesRecord, LOST_0);
    GoClaim(LOST_0, LOST_0, 1, LOST_1);
  }

  const LOST_2 := State(
    Some(1), map[], map[1 := Owned(9, 0)],
    Four(Claiming(0, Owned(9, 0)), Trying(0), Trying(0), Claiming(0, Owned(9, 0))), {9}, 2)

  lemma Lost2()
    ensures Reached(MovesRecord, LOST_0, LOST_2)
  {
    Lost1();
    GoClaim(LOST_0, LOST_1, 4, LOST_2);
  }

  const LOST_3 := State(
    Some(1), map[], map[1 := Owned(9, 0)],
    Four(Claiming(0, Owned(9, 0)), Claiming(0, Owned(9, 0)), Trying(0), Claiming(0, Owned(9, 0))), {9}, 2)

  lemma Lost3()
    ensures Reached(MovesRecord, LOST_0, LOST_3)
  {
    Lost2();
    GoClaim(LOST_0, LOST_2, 2, LOST_3);
  }

  const LOST_3_MOVED := State(
    None, map[2 := 1], map[1 := Owned(9, 0)],
    Four(Claiming(0, Owned(9, 0)), Claimed(0, Owned(9, 0), 2), Trying(0), Claiming(0, Owned(9, 0))), {9}, 3)

  lemma Lost3Moved()
    ensures Reached(MovesRecord, LOST_0, LOST_3_MOVED)
  {
    Lost3();
    GoRename(LOST_0, LOST_3, 2, LOST_3_MOVED);
  }

  const LOST_4 := State(
    None, map[2 := 1], map[1 := Owned(9, 0)],
    Four(Claiming(0, Owned(9, 0)), Discarding(0, 2), Trying(0), Claiming(0, Owned(9, 0))), {9}, 3)

  lemma Lost4()
    ensures Reached(MovesRecord, LOST_0, LOST_4)
  {
    Lost3Moved();
    GoCompare(LOST_0, LOST_3_MOVED, 2, LOST_4);
  }

  const LOST_5 := State(
    None, map[], map[1 := Owned(9, 0)],
    Four(Claiming(0, Owned(9, 0)), Trying(1), Trying(0), Claiming(0, Owned(9, 0))), {9}, 3)

  lemma Lost5()
    ensures Reached(MovesRecord, LOST_0, LOST_5)
  {
    Lost4();
    assert LOST_4.stale - {2} == LOST_5.stale;
    GoDiscard(LOST_0, LOST_4, 2, LOST_5);
  }

  const LOST_5_TAKEN := State(
    Some(3), map[], map[1 := Owned(9, 0), 3 := Owned(20, 3)],
    Four(Claiming(0, Owned(9, 0)), Written(3, 3), Trying(0), Claiming(0, Owned(9, 0))), {9}, 4)

  lemma Lost5Taken()
    ensures Reached(MovesRecord, LOST_0, LOST_5_TAKEN)
  {
    Lost5();
    GoTake(LOST_0, LOST_5, 2, LOST_5_TAKEN);
  }

  const LOST_6 := State(
    Some(3), map[], map[1 := Owned(9, 0), 3 := Owned(20, 3)],
    Four(Claiming(0, Owned(9, 0)), Holding(3, 3), Trying(0), Claiming(0, Owned(9, 0))), {9}, 4)

  lemma Lost6()
    ensures Reached(MovesRecord, LOST_0, LOST_6)
  {
    Lost5Taken();
    GoEnter(LOST_0, LOST_5_TAKEN, 2, LOST_6);
  }

  const LOST_7 := State(
    Some(3), map[], map[1 := Owned(9, 0), 3 := Owned(20, 3)],
    Four(Claiming(0, Owned(9, 0)), Unlinking(3, 3), Trying(0), Claiming(0, Owned(9, 0))), {9}, 4)

  lemma Lost7()
    ensures Reached(MovesRecord, LOST_0, LOST_7)
  {
    Lost6();
    Go2(MovesRecord, LOST_0, LOST_6, BeginRelease(2), ReadForRelease(2), LOST_7);
  }

  const LOST_8 := State(
    Some(5), map[4 := 3], map[1 := Owned(9, 0), 3 := Owned(20, 3), 5 := Blank],
    Four(Claiming(0, Owned(9, 0)), Unlinking(3, 3), Created(5, 5), Claimed(0, Owned(9, 0), 4)), {9}, 6)

  lemma Lost8()
    ensures Reached(MovesRecord, LOST_0, LOST_8)
  {
    Lost7();
    Go2(MovesRecord, LOST_0, LOST_7, Rename(4), Open(3), LOST_8);
  }

  const LOST_8_WRITTEN := State(
    Some(5), map[4 := 3], map[1 := Owned(9, 0), 3 := Owned(20, 3), 5 := Owned(30, 5)],
    Four(Claiming(0, Owned(9, 0)), Unlinking(3, 3), Written(5, 5), Claimed(0, Owned(9, 0), 4)), {9}, 6)

  lemma Lost8Written()
    ensures Reached(MovesRecord, LOST_0, LOST_8_WRITTEN)
  {
    Lost8();
    Go1(MovesRecord, LOST_0, LOST_8, Write(3), LOST_8_WRITTEN);
  }

  const LOST_9 := State(
    None, map[4 := 3, 6 := 5], map[1 := Owned(9, 0), 3 := Owned(20, 3), 5 := Owned(30, 5)],
    Four(Claimed(0, Owned(9, 0), 6), Unlinking(3, 3), Written(5, 5), Claimed(0, Owned(9, 0), 4)), {9}, 7)

  lemma Lost9()
    ensures Reached(MovesRecord, LOST_0, LOST_9)
  {
    Lost8Written();
    assert LOST_8_WRITTEN.stale[6 := 5] == LOST_9.stale;
    assert LOST_8_WRITTEN.callers[1 := Caller(10, Claimed(0, Owned(9, 0), 6))] == LOST_9.callers;
    GoRename(LOST_0, LOST_8_WRITTEN, 1, LOST_9);
  }

  const LOST_10 := State(
    None, map[4 := 3, 6 := 5], map[1 := Owned(9, 0), 3 := Owned(20, 3), 5 := Owned(30, 5)],
    Four(Restoring(0, 6), Unlinking(3, 3), Written(5, 5), Claimed(0, Owned(9, 0), 4)), {9}, 7)

  lemma Lost10()
    ensures Reached(MovesRecord, LOST_0, LOST_10)
  {
    Lost9();
    GoCompare(LOST_0, LOST_9, 1, LOST_10);
  }

  const LOST_11 := State(
    Some(5), map[4 := 3, 6 := 5], map[1 := Owned(9, 0), 3 := Owned(20, 3), 5 := Owned(30, 5)],
    Four(Linked(0, 6), Unlinking(3, 3), Written(5, 5), Claimed(0, Owned(9, 0), 4)), {9}, 7)

  lemma Lost11()
    ensures Reached(MovesRecord, LOST_0, LOST_11)
  {
    Lost10();
    GoLink(LOST_0, LOST_10, 1, LOST_11);
  }

  const LOST_12 := State(
    None, map[4 := 3, 6 := 5], map[1 := Owned(9, 0), 3 := Owned(20, 3), 5 := Owned(30, 5)],
    Four(Linked(0, 6), Finished, Written(5, 5), Claimed(0, Owned(9, 0), 4)), {9}, 7)

  lemma Lost12()
    ensures Reached(MovesRecord, LOST_0, LOST_12)
  {
    Lost11();
    Go1(MovesRecord, LOST_0, LOST_11, Unlink(2), LOST_12);
  }

  const LOST_13 := State(
    None, map[4 := 3], map[1 := Owned(9, 0), 3 := Owned(20, 3), 5 := Owned(30, 5)],
    Four(Trying(1), Finished, Written(5, 5), Claimed(0, Owned(9, 0), 4)), {9}, 7)

  lemma LeftAfterDrop()
    ensures LOST_12.stale - {6} == LOST_13.stale
    ensures LOST_12.callers[1 := Caller(10, Trying(1))] == LOST_13.callers
  {
  }

  lemma Lost13()
    ensures Reached(MovesRecord, LOST_0, LOST_13)
  {
    Lost12();
    LeftAfterDrop();
    GoDropClaim(LOST_0, LOST_12, 1, LOST_13);
  }

  lemma RecordGone()
    ensures Owner(LOST_13, 3) && forall p :: !RecordAt(LOST_13, 3, p)
  {
  }

  /** A release that unlinks a linked-back file, then the claimant's own unlink, delete a live owner's record. */
  lemma MisaimedReleaseDeletesRecord() returns (t: State)
    ensures Initial(LOST_0) && Reached(MovesRecord, LOST_0, t) && Reached(NotBeingWritten, LOST_0, t)
    ensures exists a :: Owner(t, a) && forall p :: !RecordAt(t, a, p)
  {
    Lost13();
    t := LOST_13;
    ReachedIsWritten(LOST_0, t);
    RecordGone();
  }
}
