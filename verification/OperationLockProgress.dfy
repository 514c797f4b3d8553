/**
What the operation lock is for: a free or stale lock is obtained by a caller that nobody
disturbs, a live owner's is not, and a release gives the lock path up again.
*/
module OperationLockProgress {
  import opened Prelude
  import opened OperationLock

  /** A step of `a` itself, and not the failure of one. */
  predicate Own(step: Step, a: Actor) {
    !step.Spawn? && !step.Crash? && !step.Fail? && step.a == a
  }

  /** Only `a` takes steps. */
  function Undisturbed(a: Actor): (State, Step) -> bool { (s: State, step: Step) => Own(step, a) }

  /** `a` has the lock: it is done acquiring, and the lock path holds its own complete record. */
  ghost predicate HasLock(s: State, a: Actor) {
    && Live(s, a) && s.callers[a].stage.Holding?
    && s.lock == Some(s.callers[a].stage.inode) && s.lock.value in s.contents
    && s.contents[s.lock.value] == Owned(s.callers[a].pid, s.callers[a].stage.token)
  }

  /** The lock path is free, or holds a file that is no record or the record of a dead process. */
  ghost predicate FreeOrStale(s: State) {
    s.lock.None? || (s.lock.value in s.contents && Stale(s.contents[s.lock.value], s.dead))
  }

  /** The other callers and their files are as they were. */
  ghost predicate OthersKept(s: State, t: State, a: Actor) {
    && t.callers.Keys == s.callers.Keys && t.dead == s.dead
    && (forall b | b in s.callers && b != a :: t.callers[b] == s.callers[b])
    && (forall i | i in s.contents :: i in t.contents && t.contents[i] == s.contents[i])
  }

  function With(s: State, a: Actor, g: Stage): State
    requires a in s.callers
  {
    s.(callers := s.callers[a := Caller(s.callers[a].pid, g)])
  }

  lemma Own1(s: State, t: State, a: Actor, step: Step, u: State)
    requires Reached(Undisturbed(a), s, t) && Own(step, a) && Enabled(t, step) && u == Apply(t, step)
    ensures Reached(Undisturbed(a), s, u)
  {
    Go1(Undisturbed(a), s, t, step, u);
  }

  // --------------------------------------------------------------------- obtaining it

  /** The file is created: it is new, empty and at the lock path. */
  lemma Creates(s: State, t: State, a: Actor) returns (u: State)
    requires Reached(Undisturbed(a), s, t) && Live(t, a) && t.lock.None?
    requires t.callers[a].stage.Trying? && t.callers[a].stage.attempt < ATTEMPTS
    ensures Reached(Undisturbed(a), s, u)
    ensures u == State(
      Some(t.unused), t.stale, t.contents[t.unused := Blank],
      t.callers[a := Caller(t.callers[a].pid, Created(t.unused, t.unused))], t.dead, t.unused + 1)
  {
    u := State(
      Some(t.unused), t.stale, t.contents[t.unused := Blank],
      t.callers[a := Caller(t.callers[a].pid, Created(t.unused, t.unused))], t.dead, t.unused + 1);
    Own1(s, t, a, Open(a), u);
  }

  /** The record is written into it. */
  lemma Writes(s: State, t: State, a: Actor) returns (u: State)
    requires Reached(Undisturbed(a), s, t) && Live(t, a) && t.callers[a].stage.Created?
    ensures Reached(Undisturbed(a), s, u)
    ensures var c := t.callers[a];
      u == With(t, a, Written(c.stage.inode, c.stage.token)).(
        contents := t.contents[c.stage.inode := Owned(c.pid, c.stage.token)])
  {
    var c := t.callers[a];
    u := With(t, a, Written(c.stage.inode, c.stage.token)).(
      contents := t.contents[c.stage.inode := Owned(c.pid, c.stage.token)]);
    Own1(s, t, a, Write(a), u);
  }

  /** The file is created, written, and `acquireLock` returns. */
  lemma TakesFree(s: State, t: State, a: Actor) returns (u: State)
    requires Reached(Undisturbed(a), s, t) && Book(t) && Live(t, a) && t.lock.None?
    requires t.callers[a].stage.Trying? && t.callers[a].stage.attempt < ATTEMPTS
    ensures Reached(Undisturbed(a), s, u) && HasLock(u, a) && OthersKept(t, u, a) && u.stale == t.stale
  {
    var created := Creates(s, t, a);
    var written := Writes(s, created, a);
    u := With(written, a, Holding(t.unused, t.unused));
    Own1(s, written, a, Enter(a), u);
  }

  /** The exclusive open fails, and the file is read. */
  lemma Observes(s: State, t: State, a: Actor) returns (u: State)
    requires Reached(Undisturbed(a), s, t) && Live(t, a) && t.lock.Some? && t.lock.value in t.contents
    requires t.callers[a].stage.Trying? && t.callers[a].stage.attempt < ATTEMPTS
    ensures u == With(t, a, Observed(t.callers[a].stage.attempt, t.contents[t.lock.value]))
    ensures Reached(Undisturbed(a), s, u)
  {
    var k, raw := t.callers[a].stage.attempt, t.contents[t.lock.value];
    var contended := With(t, a, Contended(k));
    Own1(s, t, a, Open(a), contended);
    u := With(t, a, Observed(k, raw));
    assert With(contended, a, Observed(k, raw)) == u;
    Own1(s, contended, a, Read(a), u);
  }

  /** A stale file is to be claimed. */
  lemma ReadsStale(s: State, t: State, a: Actor) returns (u: State)
    requires Reached(Undisturbed(a), s, t) && Live(t, a) && t.lock.Some?
    requires t.lock.value in t.contents && Stale(t.contents[t.lock.value], t.dead)
    requires t.callers[a].stage.Trying? && t.callers[a].stage.attempt < ATTEMPTS
    ensures u == With(t, a, Claiming(t.callers[a].stage.attempt, t.contents[t.lock.value]))
    ensures Reached(Undisturbed(a), s, u)
  {
    var g := Claiming(t.callers[a].stage.attempt, t.contents[t.lock.value]);
    var observed := Observes(s, t, a);
    u := With(t, a, g);
    assert With(observed, a, g) == u;
    Own1(s, observed, a, Decide(a), u);
  }

  /** It is renamed aside, to a name nobody has. */
  lemma Renames(s: State, t: State, a: Actor) returns (u: State)
    requires Reached(Undisturbed(a), s, t) && Live(t, a) && t.lock.Some? && t.callers[a].stage.Claiming?
    ensures Reached(Undisturbed(a), s, u)
    ensures var g := t.callers[a].stage;
      u == State(
        None, t.stale[t.unused := t.lock.value], t.contents,
        t.callers[a := Caller(t.callers[a].pid, Claimed(g.attempt, g.raw, t.unused))], t.dead, t.unused + 1)
  {
    var g := t.callers[a].stage;
    u := State(
      None, t.stale[t.unused := t.lock.value], t.contents,
      t.callers[a := Caller(t.callers[a].pid, Claimed(g.attempt, g.raw, t.unused))], t.dead, t.unused + 1);
    Own1(s, t, a, Rename(a), u);
  }

  /** Found to be the observed file, it is removed. */
  lemma Discards(s: State, t: State, a: Actor) returns (u: State)
    requires Reached(Undisturbed(a), s, t) && Live(t, a) && t.callers[a].stage.Claimed?
    requires var g := t.callers[a].stage;
      g.id in t.stale && t.stale[g.id] in t.contents && t.contents[t.stale[g.id]] == g.raw
    ensures Reached(Undisturbed(a), s, u)
    ensures var g := t.callers[a].stage;
      u == With(t, a, Trying(g.attempt + 1)).(stale := t.stale - {g.id})
  {
    var g := t.callers[a].stage;
    var compared := With(t, a, Discarding(g.attempt, g.id));
    Own1(s, t, a, Compare(a), compared);
    u := With(t, a, Trying(g.attempt + 1)).(stale := t.stale - {g.id});
    assert With(compared, a, Trying(g.attempt + 1)).callers == u.callers;
    Own1(s, compared, a, Discard(a), u);
  }

  /** The whole reclaim leaves the lock path free and everything else as it was. */
  lemma RemovesStale(s: State, t: State, a: Actor) returns (u: State)
    requires Reached(Undisturbed(a), s, t) && Book(t) && Live(t, a) && t.lock.Some?
    requires t.callers[a].stage.Claiming? && t.lock.value in t.contents
    requires t.callers[a].stage.raw == t.contents[t.lock.value]
    ensures u == With(t, a, Trying(t.callers[a].stage.attempt + 1)).(lock := None, unused := t.unused + 1)
    ensures Reached(Undisturbed(a), s, u)
  {
    var moved := Renames(s, t, a);
    u := Discards(s, moved, a);
    assert moved.stale - {t.unused} == t.stale;
    assert u.callers == With(t, a, Trying(t.callers[a].stage.attempt + 1)).callers;
  }

  lemma {:induction false} RunBook(premise: (State, Step) -> bool, s: State, steps: seq<Step>)
    requires Book(s) && Run(premise, s, steps)
    ensures Book(Exec(s, steps))
    decreases |steps|
  {
    if steps != [] {
      BookStep(s, steps[0]);
      RunBook(premise, Apply(s, steps[0]), steps[1..]);
    }
  }

  lemma ReachedBook(premise: (State, Step) -> bool, s: State, t: State)
    requires Book(s) && Reached(premise, s, t)
    ensures Book(t)
  {
    var run :| Run(premise, s, run) && Exec(s, run) == t;
    RunBook(premise, s, run);
  }

  /** A caller may still try as often as it takes: once for a free path, twice for a stale file. */
  predicate TriesLeft(s: State, a: Actor) {
    && a in s.callers && s.callers[a].stage.Trying?
    && s.callers[a].stage.attempt + (if s.lock.Some? then 1 else 0) < ATTEMPTS
  }

  lemma Reclaims(t: State, a: Actor) returns (u: State)
    requires Book(t) && Live(t, a) && TriesLeft(t, a) && FreeOrStale(t) && t.lock.Some?
    ensures Reached(Undisturbed(a), t, u)
    ensures u == With(t, a, Trying(t.callers[a].stage.attempt + 1)).(lock := None, unused := t.unused + 1)
  {
    Start(Undisturbed(a), t);
    var claiming := ReadsStale(t, t, a);
    ReachedBook(Undisturbed(a), t, claiming);
    u := RemovesStale(t, claiming, a);
    assert u.callers == With(t, a, Trying(t.callers[a].stage.attempt + 1)).callers;
  }

  lemma Takes(t: State, a: Actor) returns (u: State)
    requires Book(t) && Live(t, a) && TriesLeft(t, a) && FreeOrStale(t)
    ensures Reached(Undisturbed(a), t, u) && HasLock(u, a) && OthersKept(t, u, a) && u.stale == t.stale
  {
    Start(Undisturbed(a), t);
    if t.lock.None? {
      u := TakesFree(t, t, a);
    } else {
      var free := Reclaims(t, a);
      ReachedBook(Undisturbed(a), t, free);
      u := TakesFree(t, free, a);
    }
  }

  /** From every reachable state a live caller that nobody disturbs obtains a free or stale lock. */
  lemma Obtains(premise: (State, Step) -> bool, s: State, steps: seq<Step>, a: Actor) returns (u: State)
    requires Initial(s) && Run(premise, s, steps)
    requires Live(Exec(s, steps), a) && TriesLeft(Exec(s, steps), a) && FreeOrStale(Exec(s, steps))
    ensures Reached(Undisturbed(a), Exec(s, steps), u)
    ensures HasLock(u, a) && OthersKept(Exec(s, steps), u, a)
  {
    RunBook(premise, s, steps);
    u := Takes(Exec(s, steps), a);
  }

  // --------------------------------------------------------------- a live owner's lock

  /** The caller has not got beyond looking at the lock file. */
  predicate Looking(g: Stage, raw: Content) {
    g.Trying? || g.Contended? || g.Finished? || (g.Observed? && g.raw == raw)
  }

  ghost predicate Busy(s: State) {
    s.lock.Some? && s.lock.value in s.contents && !Stale(s.contents[s.lock.value], s.dead)
  }

  lemma BusyStep(s: State, step: Step, a: Actor)
    requires Busy(s) && Live(s, a) && Looking(s.callers[a].stage, s.contents[s.lock.value])
    requires Own(step, a) && Enabled(s, step)
    ensures var t := Apply(s, step);
      && Live(t, a) && Looking(t.callers[a].stage, s.contents[s.lock.value])
      && t == With(s, a, t.callers[a].stage)
  {
  }

  /** Whatever an undisturbed caller does, a live owner's lock stays as it is, and so does everything else. */
  lemma {:induction false} StaysBusy(s: State, steps: seq<Step>, a: Actor)
    requires Busy(s) && Live(s, a) && Looking(s.callers[a].stage, s.contents[s.lock.value])
    requires Run(Undisturbed(a), s, steps)
    ensures var t := Exec(s, steps);
      && Live(t, a) && Looking(t.callers[a].stage, s.contents[s.lock.value])
      && t == With(s, a, t.callers[a].stage)
    decreases |steps|
  {
    if steps != [] {
      BusyStep(s, steps[0], a);
      StaysBusy(Apply(s, steps[0]), steps[1..], a);
    }
  }

  /** An undisturbed caller that has just begun gets the lock exactly if it is free or stale. */
  lemma ObtainsExactly(s: State, a: Actor)
    requires Book(s) && Live(s, a) && s.callers[a].stage == Trying(0)
    ensures (exists u :: Reached(Undisturbed(a), s, u) && HasLock(u, a)) <==> FreeOrStale(s)
  {
    if FreeOrStale(s) {
      var u := Takes(s, a);
    } else {
      forall u | Reached(Undisturbed(a), s, u) ensures !HasLock(u, a) {
        var run :| Run(Undisturbed(a), s, run) && Exec(s, run) == u;
        StaysBusy(s, run, a);
      }
    }
  }

  /** One look at a live owner's lock, after which the next try is up, or none. */
  lemma LooksOnce(s: State, t: State, a: Actor) returns (u: State)
    requires Reached(Undisturbed(a), s, t) && Busy(t) && Live(t, a)
    requires t.callers[a].stage.Trying? && t.callers[a].stage.attempt < ATTEMPTS
    ensures Reached(Undisturbed(a), s, u)
    ensures var k := t.callers[a].stage.attempt;
      u == With(t, a, if k + 1 < ATTEMPTS then Trying(k + 1) else Finished)
  {
    var k := t.callers[a].stage.attempt;
    var observed := Observes(s, t, a);
    var next := if k + 1 < ATTEMPTS then Trying(k + 1) else Finished;
    u := With(t, a, next);
    assert With(observed, a, next) == u;
    Own1(s, observed, a, Decide(a), u);
  }

  lemma LooksThrice(t: State, a: Actor) returns (u: State)
    requires Busy(t) && Live(t, a) && t.callers[a].stage == Trying(0)
    ensures Reached(Undisturbed(a), t, u) && u == With(t, a, Finished)
  {
    Start(Undisturbed(a), t);
    var first := LooksOnce(t, t, a);
    var second := LooksOnce(t, first, a);
    assert second == With(t, a, Trying(2));
    u := LooksOnce(t, second, a);
    assert u.callers == With(t, a, Finished).callers;
  }

  /** From every reachable state a caller that finds a live owner's lock gives up, and has changed nothing. */
  lemma GivesUp(premise: (State, Step) -> bool, s: State, steps: seq<Step>, a: Actor) returns (u: State)
    requires Initial(s) && Run(premise, s, steps)
    requires var t := Exec(s, steps); Live(t, a) && t.callers[a].stage == Trying(0) && !FreeOrStale(t)
    ensures Reached(Undisturbed(a), Exec(s, steps), u) && u == With(Exec(s, steps), a, Finished)
  {
    RunBook(premise, s, steps);
    u := LooksThrice(Exec(s, steps), a);
  }

  // ----------------------------------------------------------------------- giving it up

  /** Once a release has unlinked, there is no file at the lock path, and nothing else has changed. */
  lemma UnlinkFrees(premise: (State, Step) -> bool, s: State, steps: seq<Step>, a: Actor)
    requires Run(premise, s, steps) && Enabled(Exec(s, steps), Unlink(a)) && premise(Exec(s, steps), Unlink(a))
    ensures Run(premise, s, steps + [Unlink(a)])
    ensures Exec(s, steps + [Unlink(a)]) == With(Exec(s, steps), a, Finished).(lock := None)
  {
    RunExtends(premise, s, steps, Unlink(a));
  }

  /** A holder whose record is at the lock path gives it up. */
  lemma Releases(s: State, a: Actor) returns (u: State)
    requires HasLock(s, a)
    ensures Reached(Undisturbed(a), s, u) && u == With(s, a, Finished).(lock := None)
  {
    var g := s.callers[a].stage;
    Start(Undisturbed(a), s);
    var releasing := With(s, a, Releasing(g.inode, g.token));
    Own1(s, s, a, BeginRelease(a), releasing);
    var unlinking := With(s, a, Unlinking(g.inode, g.token));
    assert With(releasing, a, Unlinking(g.inode, g.token)) == unlinking;
    Own1(s, releasing, a, ReadForRelease(a), unlinking);
    u := With(s, a, Finished).(lock := None);
    assert With(unlinking, a, Finished).callers == u.callers;
    Own1(s, unlinking, a, Unlink(a), u);
  }

  /** After every sound interleaving a holder has the lock, and its release leaves the lock path free. */
  lemma ReleaseFrees(s: State, steps: seq<Step>, a: Actor) returns (u: State)
    requires Initial(s) && Run(SoundClaim, s, steps)
    requires Live(Exec(s, steps), a) && StageOf(Exec(s, steps), a).Holding?
    ensures HasLock(Exec(s, steps), a)
    ensures Reached(Undisturbed(a), Exec(s, steps), u) && u == With(Exec(s, steps), a, Finished).(lock := None)
  {
    var t := Exec(s, steps);
    SoundRunKeeps(s, steps);
    assert Engaged(t, a) && AtLockPath(t, a) && BookOf(t, a);
    u := Releases(t, a);
  }

  /** After every sound interleaving the lock can be handed over: the holder releases, and another caller obtains it. */
  lemma HandsOver(s: State, steps: seq<Step>, a: Actor, b: Actor) returns (free: State, u: State)
    requires Initial(s) && Run(SoundClaim, s, steps) && a != b
    requires Live(Exec(s, steps), a) && StageOf(Exec(s, steps), a).Holding?
    requires Live(Exec(s, steps), b) && StageOf(Exec(s, steps), b).Trying?
    requires StageOf(Exec(s, steps), b).attempt < ATTEMPTS
    ensures Reached(Undisturbed(a), Exec(s, steps), free) && Reached(Undisturbed(b), free, u) && HasLock(u, b)
  {
    free := ReleaseFrees(s, steps, a);
    RunBook(SoundClaim, s, steps);
    ReachedBook(Undisturbed(a), Exec(s, steps), free);
    u := Takes(free, b);
  }

  // ------------------------------------------------------------------ failing to write

  /** Only `a` takes steps, and its write may fail. */
  function Unhindered(a: Actor): (State, Step) -> bool {
    (s: State, step: Step) => !step.Spawn? && !step.Crash? && step.a == a
  }

  /** A caller that fails once its record is written removes it again. */
  lemma FailedWriteFrees(s: State, a: Actor) returns (u: State)
    requires Live(s, a) && s.callers[a].stage.Written? && s.lock == Some(s.callers[a].stage.inode)
    requires s.lock.value in s.contents
    requires s.contents[s.lock.value] == Owned(s.callers[a].pid, s.callers[a].stage.token)
    ensures Reached(Unhindered(a), s, u) && u == With(s, a, Finished).(lock := None)
  {
    var g := s.callers[a].stage;
    Start(Unhindered(a), s);
    var releasing := With(s, a, Releasing(g.inode, g.token));
    Go1(Unhindered(a), s, s, Fail(a), releasing);
    var unlinking := With(s, a, Unlinking(g.inode, g.token));
    assert With(releasing, a, Unlinking(g.inode, g.token)) == unlinking;
    Go1(Unhindered(a), s, releasing, ReadForRelease(a), unlinking);
    u := With(s, a, Finished).(lock := None);
    assert With(unlinking, a, Finished).callers == u.callers;
    Go1(Unhindered(a), s, unlinking, Unlink(a), u);
  }

  /** A caller that fails before it has written leaves an empty file behind, which the next one takes for stale. */
  lemma FailedCreateLeavesStale(s: State, a: Actor) returns (u: State)
    requires Live(s, a) && s.callers[a].stage.Created? && s.lock == Some(s.callers[a].stage.inode)
    requires s.lock.value in s.contents && s.contents[s.lock.value] == Blank
    ensures Reached(Unhindered(a), s, u) && u == With(s, a, Finished) && FreeOrStale(u)
  {
    var g := s.callers[a].stage;
    Start(Unhindered(a), s);
    var releasing := With(s, a, Releasing(g.inode, g.token));
    Go1(Unhindered(a), s, s, Fail(a), releasing);
    u := With(s, a, Finished);
    assert With(releasing, a, Finished) == u;
    Go1(Unhindered(a), s, releasing, ReadForRelease(a), u);
  }
}
