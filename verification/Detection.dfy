/**
Recognising a registered codebase in the repositories observed on disk. A stored
repository answers to an observed one when they share their common Git directory or
a remote URL. How URLs are normalised and how paths are ordered are parameters.
*/
module Detection {
  import opened Prelude

  datatype Remote = Remote(fetchUrl: Option<string>, pushUrl: Option<string>)

  datatype Stored = Stored(repositoryId: string, gitCommonDirectory: string, remotes: seq<Remote>)

  datatype Observation = Observation(path: string, gitCommonDirectory: string, remotes: seq<Remote>)

  datatype Registration = Registration(codebaseId: string, repositories: seq<Stored>)

  datatype Match = Match | NoMatch | Ambiguous

  type Normalize = (string, string) -> string

  /** The normalised URLs of what was observed. */
  function ObservedUrls(o: Observation, normalize: Normalize): set<string> {
    (set r, u | r in o.remotes && u in Urls(r) :: normalize(u, o.path))
  }

  function Urls(r: Remote): seq<string> {
    (if r.fetchUrl.Some? then [r.fetchUrl.value] else []) + (if r.pushUrl.Some? then [r.pushUrl.value] else [])
  }

  predicate SharesRemote(s: Stored, o: Observation, normalize: Normalize) {
    exists r | r in s.remotes :: exists u | u in Urls(r) :: u in ObservedUrls(o, normalize)
  }

  /** The positions in `stored` that answer to `o`, as the comparison with a registration collects them. */
  function Candidates(stored: seq<Stored>, o: Observation, normalize: Normalize): seq<nat> {
    if stored == [] then []
    else
      var n := |stored| - 1;
      var before := Candidates(stored[..n], o, normalize);
      if stored[n].gitCommonDirectory == o.gitCommonDirectory then before + [n]
      else if SharesRemote(stored[n], o, normalize) then before + [n]
      else before
  }

  /** The stored repositories that answer to `o`, as the choice of an id filters them. */
  function Answering(stored: seq<Stored>, o: Observation, normalize: Normalize): seq<Stored> {
    if stored == [] then []
    else
      var rest := Answering(stored[1..], o, normalize);
      if stored[0].gitCommonDirectory == o.gitCommonDirectory || SharesRemote(stored[0], o, normalize)
      then [stored[0]] + rest
      else rest
  }

  /** The only candidate of each observation. */
  function Selected(stored: seq<Stored>, observations: seq<Observation>, normalize: Normalize): seq<nat>
    requires forall i | 0 <= i < |observations| :: |Candidates(stored, observations[i], normalize)| == 1
  {
    seq(|observations|, i requires 0 <= i < |observations| => Candidates(stored, observations[i], normalize)[0])
  }

  function Elements(p: seq<nat>): set<nat> { set x | x in p }

  function RegistrationMatch(reg: Registration, observations: seq<Observation>, normalize: Normalize): Match {
    var stored := reg.repositories;
    if |stored| != |observations| then NoMatch
    else if exists i | 0 <= i < |observations| :: Candidates(stored, observations[i], normalize) == [] then NoMatch
    else if exists i | 0 <= i < |observations| :: |Candidates(stored, observations[i], normalize)| > 1 then Ambiguous
    else
      var selected := Selected(stored, observations, normalize);
      if |Elements(selected)| == |selected| then Match else Ambiguous
  }

  function RepositoryIdFor(reg: Option<Registration>, o: Observation, normalize: Normalize): Option<string> {
    if reg.None? then None
    else
      var matches := Answering(reg.value.repositories, o, normalize);
      if |matches| == 1 then Some(matches[0].repositoryId) else None
  }

  datatype Detected = Registered(registration: Registration) | Unregistered | AmbiguousRegistration

  /** The registrations that match, in order. */
  function Matching(regs: seq<Registration>, observations: seq<Observation>, normalize: Normalize): seq<Registration> {
    if regs == [] then []
    else
      (if RegistrationMatch(regs[0], observations, normalize).Match? then [regs[0]] else [])
      + Matching(regs[1..], observations, normalize)
  }

  function Detect(regs: seq<Registration>, observations: seq<Observation>, normalize: Normalize): Detected {
    var matches := Matching(regs, observations, normalize);
    if |matches| > 1 || exists r | r in regs :: RegistrationMatch(r, observations, normalize).Ambiguous?
    then AmbiguousRegistration
    else if |matches| == 1 then Registered(matches[0])
    else Unregistered
  }

  // ------------------------------------------------------------------- agreement

  lemma {:induction false} AnsweringAppend(a: seq<Stored>, s: Stored, o: Observation, normalize: Normalize)
    ensures Answering(a + [s], o, normalize) == Answering(a, o, normalize) + Answering([s], o, normalize)
  {
    if a == [] {
      assert [] + [s] == [s];
    } else {
      AnsweringAppend(a[1..], s, o, normalize);
      assert (a + [s])[1..] == a[1..] + [s];
    }
  }

  /** The two ways of finding what answers to an observation agree. */
  lemma {:induction false} CandidatesAgree(stored: seq<Stored>, o: Observation, normalize: Normalize)
    ensures var c, a := Candidates(stored, o, normalize), Answering(stored, o, normalize);
      |c| == |a| && forall i | 0 <= i < |c| :: c[i] < |stored| && a[i] == stored[c[i]]
  {
    if stored != [] {
      var n := |stored| - 1;
      CandidatesAgree(stored[..n], o, normalize);
      AnsweringAppend(stored[..n], stored[n], o, normalize);
      assert stored == stored[..n] + [stored[n]];
      assert Answering([stored[n]][1..], o, normalize) == [];
    }
  }

  // ------------------------------------------------------------------- pigeonhole

  lemma {:induction false} SubsetSize<T>(a: set<T>, b: set<T>)
    requires a <= b
    ensures |a| <= |b| && (|a| == |b| ==> a == b)
  {
    if a != {} {
      var x :| x in a;
      SubsetSize(a - {x}, b - {x});
    }
  }

  function Below(n: nat): set<nat> { if n == 0 then {} else Below(n - 1) + {n - 1} }

  lemma {:induction false} BelowFacts(n: nat)
    ensures |Below(n)| == n && forall x: nat :: x in Below(n) <==> x < n
  {
    if n > 0 { BelowFacts(n - 1); }
  }

  lemma {:induction false} SizeOfElements(p: seq<nat>)
    ensures |Elements(p)| <= |p|
    ensures |Elements(p)| == |p| ==> forall i, j | 0 <= i < j < |p| :: p[i] != p[j]
  {
    if p != [] {
      var front, last := p[..|p| - 1], p[|p| - 1];
      SizeOfElements(front);
      assert p == front + [last];
      assert Elements(p) == Elements(front) + {last};
      if |Elements(p)| == |p| {
        assert last !in Elements(front);
        forall i, j | 0 <= i < j < |p| ensures p[i] != p[j] {
          assert p[i] == front[i] && front[i] in Elements(front);
          if j < |front| { assert p[j] == front[j]; }
        }
      }
    }
  }

  /** `n` different positions below `n` are all of them. */
  lemma Pigeonhole(p: seq<nat>, n: nat)
    requires |p| == n && (forall i | 0 <= i < n :: p[i] < n) && |Elements(p)| == n
    ensures forall m | 0 <= m < n :: m in p
  {
    BelowFacts(n);
    SubsetSize(Elements(p), Below(n));
    forall m: nat | m < n ensures m in p {
      assert m in Below(n);
    }
  }

  // -------------------------------------------------------------------- bijection

  /** The ids given to the observations, in order. */
  function Ids(
    regs: seq<Registration>, observations: seq<Observation>, normalize: Normalize): (ids: seq<Option<string>>)
    ensures |ids| == |observations|
  {
    var reg := ChosenRegistration(regs, observations, normalize);
    seq(|observations|, i requires 0 <= i < |observations| => RepositoryIdFor(reg, observations[i], normalize))
  }

  /** The only matching registration. */
  function ChosenRegistration(
    regs: seq<Registration>, observations: seq<Observation>, normalize: Normalize): Option<Registration>
  {
    var matches := Matching(regs, observations, normalize);
    if |matches| == 1 then Some(matches[0]) else None
  }

  lemma {:induction false} MatchingMatches(
    regs: seq<Registration>, observations: seq<Observation>, normalize: Normalize)
    ensures forall r | r in Matching(regs, observations, normalize) ::
      r in regs && RegistrationMatch(r, observations, normalize).Match?
  {
    if regs != [] { MatchingMatches(regs[1..], observations, normalize); }
  }

  /** A matching registration is matched one to one: the selected positions are all positions, each once. */
  lemma MatchIsOneToOne(reg: Registration, observations: seq<Observation>, normalize: Normalize)
    requires RegistrationMatch(reg, observations, normalize).Match?
    ensures |reg.repositories| == |observations|
    ensures forall i | 0 <= i < |observations| :: |Candidates(reg.repositories, observations[i], normalize)| == 1
    ensures var stored := reg.repositories; var p := Selected(stored, observations, normalize);
      && (forall i | 0 <= i < |p| ::
            && p[i] < |stored|
            && RepositoryIdFor(Some(reg), observations[i], normalize) == Some(stored[p[i]].repositoryId))
      && (forall i, j | 0 <= i < j < |p| :: p[i] != p[j])
      && (forall m | 0 <= m < |stored| :: m in p)
  {
    var stored := reg.repositories;
    forall i | 0 <= i < |observations| ensures |Candidates(stored, observations[i], normalize)| == 1 {
      assert Candidates(stored, observations[i], normalize) != [];
    }
    var p := Selected(stored, observations, normalize);
    forall i | 0 <= i < |p|
      ensures p[i] < |stored|
      ensures RepositoryIdFor(Some(reg), observations[i], normalize) == Some(stored[p[i]].repositoryId)
    {
      CandidatesAgree(stored, observations[i], normalize);
    }
    SizeOfElements(p);
    Pigeonhole(p, |stored|);
  }

  /** A stored and an observed repository share their common directory or a remote. */
  predicate Answers(s: Stored, o: Observation, normalize: Normalize) {
    s.gitCommonDirectory == o.gitCommonDirectory || SharesRemote(s, o, normalize)
  }

  lemma {:induction false} CandidatesExactly(stored: seq<Stored>, o: Observation, normalize: Normalize)
    ensures var c := Candidates(stored, o, normalize);
      && (forall m :: m in c <==> 0 <= m < |stored| && Answers(stored[m], o, normalize))
      && (forall i, j | 0 <= i < j < |c| :: c[i] < c[j])
  {
    if stored != [] {
      var n := |stored| - 1;
      var before := Candidates(stored[..n], o, normalize);
      CandidatesExactly(stored[..n], o, normalize);
      assert forall i | 0 <= i < |before| :: before[i] in before && before[i] < n;
      assert forall m | 0 <= m < n :: stored[..n][m] == stored[m];
    }
  }

  lemma OnlyElement(c: seq<nat>, m: nat)
    requires (forall x: nat :: x in c <==> x == m) && forall i, j | 0 <= i < j < |c| :: c[i] < c[j]
    ensures c == [m]
  {
    assert m in c;
    forall i | 0 <= i < |c| ensures c[i] == m {
      var x: nat := c[i];
      assert x in c;
    }
    var first, last := c[0], c[|c| - 1];
    assert 0 < |c| - 1 ==> first < last;
  }

  lemma {:induction false} DistinctElements(p: seq<nat>)
    requires forall i, j | 0 <= i < j < |p| :: p[i] != p[j]
    ensures |Elements(p)| == |p|
  {
    if p != [] {
      var front, last := p[..|p| - 1], p[|p| - 1];
      DistinctElements(front);
      assert Elements(p) == Elements(front) + {last} by { assert p == front + [last]; }
      assert last !in front;
    }
  }

  /** `p` sends each observation to a stored repository of its own. */
  ghost predicate Assignment(p: seq<nat>, n: nat) {
    |p| == n && (forall i | 0 <= i < n :: p[i] < n) && forall i, j | 0 <= i < j < n :: p[i] != p[j]
  }

  /** What answers to what is exactly this assignment. */
  ghost predicate AnswersAre(stored: seq<Stored>, observations: seq<Observation>, normalize: Normalize, p: seq<nat>) {
    Assignment(p, |stored|) && |stored| == |observations|
    && forall i, m | 0 <= i < |p| && 0 <= m < |stored| :: Answers(stored[m], observations[i], normalize) <==> m == p[i]
  }

  /** A registration matches exactly when what answers to what is a one-to-one assignment. */
  lemma MatchExactly(reg: Registration, observations: seq<Observation>, normalize: Normalize)
    ensures RegistrationMatch(reg, observations, normalize).Match? <==>
      exists p :: AnswersAre(reg.repositories, observations, normalize, p)
  {
    var stored := reg.repositories;
    if RegistrationMatch(reg, observations, normalize).Match? {
      MatchIsOneToOne(reg, observations, normalize);
      var p := Selected(stored, observations, normalize);
      forall i, m | 0 <= i < |p| && 0 <= m < |stored|
        ensures Answers(stored[m], observations[i], normalize) <==> m == p[i]
      {
        CandidatesExactly(stored, observations[i], normalize);
        assert Candidates(stored, observations[i], normalize) == [p[i]];
      }
      assert AnswersAre(stored, observations, normalize, p);
    }
    if p :| AnswersAre(stored, observations, normalize, p) {
      AssignmentMatches(reg, observations, normalize, p);
    }
  }

  lemma AssignmentMatches(reg: Registration, observations: seq<Observation>, normalize: Normalize, p: seq<nat>)
    requires AnswersAre(reg.repositories, observations, normalize, p)
    ensures RegistrationMatch(reg, observations, normalize).Match?
  {
    var stored := reg.repositories;
    forall i | 0 <= i < |observations| ensures Candidates(stored, observations[i], normalize) == [p[i]] {
      CandidatesExactly(stored, observations[i], normalize);
      OnlyElement(Candidates(stored, observations[i], normalize), p[i]);
    }
    assert Selected(stored, observations, normalize) == p;
    DistinctElements(p);
  }

  /**
  When a codebase is found registered and its stored ids are distinct, every observation gets one of the stored ids,
  no two the same, and every stored id is given.
  */
  lemma RegisteredIsBijection(regs: seq<Registration>, observations: seq<Observation>, normalize: Normalize)
    requires Detect(regs, observations, normalize).Registered?
    ensures var reg := Detect(regs, observations, normalize).registration;
      var ids := Ids(regs, observations, normalize);
      && reg in regs && |reg.repositories| == |observations|
      && (forall i | 0 <= i < |ids| :: ids[i].Some?)
      && (forall s | s in reg.repositories :: Some(s.repositoryId) in ids)
      && (DistinctIds(reg) ==> forall i, j | 0 <= i < j < |ids| :: ids[i] != ids[j])
  {
    var reg := Detect(regs, observations, normalize).registration;
    MatchingMatches(regs, observations, normalize);
    MatchIsOneToOne(reg, observations, normalize);
    var stored, ids := reg.repositories, Ids(regs, observations, normalize);
    var p := Selected(stored, observations, normalize);
    assert forall i | 0 <= i < |ids| :: ids[i] == Some(stored[p[i]].repositoryId);
    forall s | s in stored ensures Some(s.repositoryId) in ids {
      var m :| 0 <= m < |stored| && stored[m] == s;
      assert m in p;
      var i :| 0 <= i < |p| && p[i] == m;
      assert ids[i] == Some(s.repositoryId);
    }
    if DistinctIds(reg) {
      forall i, j | 0 <= i < j < |ids| ensures ids[i] != ids[j] {
        assert p[i] != p[j];
      }
    }
  }

  ghost predicate DistinctIds(reg: Registration) {
    forall i, j | 0 <= i < j < |reg.repositories| ::
      reg.repositories[i].repositoryId != reg.repositories[j].repositoryId
  }

  /** A shared remote: some stored URL is the normalised form of some observed one. */
  lemma SharesRemoteMeans(s: Stored, o: Observation, normalize: Normalize)
    ensures SharesRemote(s, o, normalize) <==>
      exists r, u, q, w :: r in s.remotes && u in Urls(r) && q in o.remotes && w in Urls(q) && u == normalize(w, o.path)
  {
    if r, u, q, w :| r in s.remotes && u in Urls(r) && q in o.remotes && w in Urls(q) && u == normalize(w, o.path) {
      assert u in ObservedUrls(o, normalize);
    }
  }

  ghost predicate TwoMatched(regs: seq<Registration>, observations: seq<Observation>, normalize: Normalize) {
    exists i, j :: 0 <= i < j < |regs|
      && Matched(regs[i], observations, normalize) && Matched(regs[j], observations, normalize)
  }

  lemma {:induction false} MatchingCount(regs: seq<Registration>, observations: seq<Observation>, normalize: Normalize)
    ensures var n := |Matching(regs, observations, normalize)|;
      && (n >= 1 <==> exists i :: 0 <= i < |regs| && Matched(regs[i], observations, normalize))
      && (n >= 2 <==> TwoMatched(regs, observations, normalize))
  {
    if regs != [] {
      var rest := regs[1..];
      MatchingCount(rest, observations, normalize);
      assert forall i | 0 <= i < |rest| :: rest[i] == regs[i + 1];
      if i, j :|
        && 0 <= i < j < |regs|
        && Matched(regs[i], observations, normalize) && Matched(regs[j], observations, normalize)
      {
        assert Matched(rest[j - 1], observations, normalize);
        assert i > 0 ==> Matched(rest[i - 1], observations, normalize);
      }
      if i :| 0 <= i < |regs| && Matched(regs[i], observations, normalize) {
        assert i > 0 ==> Matched(rest[i - 1], observations, normalize);
      }
    }
  }

  ghost predicate Matched(reg: Registration, observations: seq<Observation>, normalize: Normalize) {
    RegistrationMatch(reg, observations, normalize).Match?
  }

  /** Ambiguous exactly if some registration is, or two match; registered exactly if otherwise one matches. */
  lemma DetectExactly(regs: seq<Registration>, observations: seq<Observation>, normalize: Normalize)
    ensures var d := Detect(regs, observations, normalize);
      && (d.AmbiguousRegistration? <==>
            (exists i :: 0 <= i < |regs| && RegistrationMatch(regs[i], observations, normalize).Ambiguous?)
            || TwoMatched(regs, observations, normalize))
      && (d.Registered? <==>
            !d.AmbiguousRegistration? && exists i :: 0 <= i < |regs| && Matched(regs[i], observations, normalize))
  {
    MatchingCount(regs, observations, normalize);
  }

  // ------------------------------------------------------- one observation per directory

  /** `before` is a strict order of the paths. */
  ghost predicate StrictOrder(before: (string, string) -> bool) {
    (forall a :: !before(a, a)) && forall a, b, c | before(a, b) && before(b, c) :: before(a, c)
  }

  /** Of the observations with the same common directory the one with the first path is kept. */
  method ByCommonDirectory(discovered: seq<Observation>, before: (string, string) -> bool)
    returns (kept: map<string, Observation>)
    requires StrictOrder(before)
    ensures forall d :: d in kept <==> exists i :: 0 <= i < |discovered| && discovered[i].gitCommonDirectory == d
    ensures forall d | d in kept :: kept[d] in discovered && kept[d].gitCommonDirectory == d
    ensures forall i | 0 <= i < |discovered| :: var o := discovered[i]; !before(o.path, kept[o.gitCommonDirectory].path)
  {
    kept := map[];
    for n := 0 to |discovered|
      invariant forall i | 0 <= i < n :: discovered[i].gitCommonDirectory in kept
      invariant forall d | d in kept :: kept[d] in discovered && kept[d].gitCommonDirectory == d
      invariant forall i | 0 <= i < n :: var o := discovered[i]; !before(o.path, kept[o.gitCommonDirectory].path)
    {
      var o := discovered[n];
      if o.gitCommonDirectory !in kept || before(o.path, kept[o.gitCommonDirectory].path) {
        kept := kept[o.gitCommonDirectory := o];
      }
    }
  }
}
