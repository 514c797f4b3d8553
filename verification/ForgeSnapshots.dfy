/**
What observed versions and linkage digests are digests of: the canonical text of a
normalised pull request, and of a kind with an idempotency key. Both texts decide
equality, so an injective digest does too.
*/
module ForgeSnapshots {
  import opened Prelude
  import opened Texts
  import opened CanonicalJson

  datatype State = Open | Closed | Merged

  datatype PullRequest = PullRequest(
    pullRequestId: Text, repositoryId: Text, number: int, url: Text, state: State, draft: bool, sourceBranch: Text,
    targetBranch: Text, baseSha: Text, headSha: Text, autoMergeEnabled: bool, linkageDigest: Option<Text>)

  datatype Kind = Issue | PullRequestKind

  predicate IsAscii(s: string) { forall i | 0 <= i < |s| :: s[i] as int < 128 }

  /** The code units of a plain name. */
  function Ascii(s: string): (t: Text)
    requires IsAscii(s)
    ensures |t| == |s| && forall i | 0 <= i < |s| :: t[i] == s[i] as int
  {
    seq(|s|, i requires 0 <= i < |s| => s[i] as int)
  }

  function StateText(s: State): string {
    match s case Open => "open" case Closed => "closed" case Merged => "merged"
  }

  function KindText(k: Kind): string {
    match k case Issue => "issue" case PullRequestKind => "pull-request"
  }

  const PULL_REQUEST_ID: Text := Ascii("pullRequestId")
  const REPOSITORY_ID: Text := Ascii("repositoryId")
  const NUMBER: Text := Ascii("number")
  const URL: Text := Ascii("url")
  const STATE: Text := Ascii("state")
  const DRAFT: Text := Ascii("draft")
  const SOURCE_BRANCH: Text := Ascii("sourceBranch")
  const TARGET_BRANCH: Text := Ascii("targetBranch")
  const BASE_SHA: Text := Ascii("baseSha")
  const HEAD_SHA: Text := Ascii("headSha")
  const AUTO_MERGE_ENABLED: Text := Ascii("autoMergeEnabled")
  const LINKAGE_DIGEST: Text := Ascii("linkageDigest")
  const KIND: Text := Ascii("kind")
  const KEY: Text := Ascii("key")

  /** The members of the normalised pull request, in the order they are written. */
  function Members(p: PullRequest): seq<Pair<Json>> {
    Always(p) + (if p.linkageDigest.Some? then [Pair(LINKAGE_DIGEST, Str(p.linkageDigest.value))] else [])
  }

  /** The members that are always there. */
  function Always(p: PullRequest): seq<Pair<Json>> {
    [Pair(PULL_REQUEST_ID, Str(p.pullRequestId)), Pair(REPOSITORY_ID, Str(p.repositoryId)),
     Pair(NUMBER, Num(p.number)), Pair(URL, Str(p.url)), Pair(STATE, Str(Ascii(StateText(p.state)))),
     Pair(DRAFT, Bool(p.draft)), Pair(SOURCE_BRANCH, Str(p.sourceBranch)),
     Pair(TARGET_BRANCH, Str(p.targetBranch)), Pair(BASE_SHA, Str(p.baseSha)), Pair(HEAD_SHA, Str(p.headSha)),
     Pair(AUTO_MERGE_ENABLED, Bool(p.autoMergeEnabled))]
  }

  /** The text whose digest is the observed version. */
  function Version(p: PullRequest): Text { Canonical(Obj(Members(p))) }

  /** The text whose digest is the linkage digest. */
  function LinkageText(kind: Kind, key: Text): Text {
    Canonical(Obj([Pair(KIND, Str(Ascii(KindText(kind)))), Pair(KEY, Str(key))]))
  }

  // ------------------------------------------------------------------ field by field

  /** Keys that differ in length or in their first unit. */
  predicate Tellable(a: Text, b: Text) {
    a != [] && b != [] && (|a| != |b| || a[0] != b[0])
  }

  lemma MembersDistinct(p: PullRequest)
    ensures DistinctKeys(Members(p))
  {
    var ms := Members(p);
    forall i, j | 0 <= i < j < |ms| ensures ms[i].key != ms[j].key {
      assert Tellable(ms[i].key, ms[j].key);
    }
  }

  lemma SameMember(ms: seq<Pair<Json>>, ns: seq<Pair<Json>>, i: nat)
    requires DistinctKeys(ms) && DistinctKeys(ns) && DenoteMembers(ms) == DenoteMembers(ns)
    requires i < |ms| && i < |ns| && ms[i].key == ns[i].key
    ensures Denote(ms[i].value) == Denote(ns[i].value)
  {
    DenoteMembersAt(ms);
    DenoteMembersAt(ns);
  }

  lemma StateTextInjective(a: State, b: State)
    requires Ascii(StateText(a)) == Ascii(StateText(b))
    ensures a == b
  {
    assert |StateText(a)| == |StateText(b)|;
    assert Ascii(StateText(a))[0] == StateText(a)[0] as int && Ascii(StateText(b))[0] == StateText(b)[0] as int;
  }

  lemma KindTextInjective(a: Kind, b: Kind)
    requires Ascii(KindText(a)) == Ascii(KindText(b))
    ensures a == b
  {
    assert |KindText(a)| == |KindText(b)|;
  }

  /** The linkage digest is there or not. */
  lemma SameLinkage(p: PullRequest, q: PullRequest)
    requires DenoteMembers(Members(p)) == DenoteMembers(Members(q))
    ensures p.linkageDigest == q.linkageDigest
  {
    MembersDistinct(p);
    MembersDistinct(q);
    LinkageKnown(p);
    LinkageKnown(q);
  }

  lemma LinkageKnown(p: PullRequest)
    requires DistinctKeys(Members(p))
    ensures LINKAGE_DIGEST in DenoteMembers(Members(p)) <==> p.linkageDigest.Some?
    ensures p.linkageDigest.Some? ==> DenoteMembers(Members(p))[LINKAGE_DIGEST] == TStr(p.linkageDigest.value)
  {
    var ms := Members(p);
    DenoteMembersAt(ms);
    if p.linkageDigest.Some? {
      assert ms[11].key == LINKAGE_DIGEST;
    } else {
      forall i | 0 <= i < |ms| ensures ms[i].key != LINKAGE_DIGEST {
        assert Tellable(ms[i].key, LINKAGE_DIGEST);
      }
    }
  }

  /** A member that is always there denotes the same in both. */
  lemma SameField(p: PullRequest, q: PullRequest, i: nat)
    requires DenoteMembers(Members(p)) == DenoteMembers(Members(q)) && i < 11
    ensures Denote(Always(p)[i].value) == Denote(Always(q)[i].value)
  {
    MembersDistinct(p);
    MembersDistinct(q);
    assert Members(p)[i] == Always(p)[i] && Members(q)[i] == Always(q)[i];
    assert Always(p)[i].key == Always(q)[i].key;
    SameMember(Members(p), Members(q), i);
  }

  lemma SameNames(p: PullRequest, q: PullRequest)
    requires DenoteMembers(Members(p)) == DenoteMembers(Members(q))
    ensures p.pullRequestId == q.pullRequestId && p.repositoryId == q.repositoryId && p.url == q.url
  {
    SameField(p, q, 0);
    SameField(p, q, 1);
    SameField(p, q, 3);
  }

  lemma SameBranches(p: PullRequest, q: PullRequest)
    requires DenoteMembers(Members(p)) == DenoteMembers(Members(q))
    ensures p.sourceBranch == q.sourceBranch && p.targetBranch == q.targetBranch
    ensures p.baseSha == q.baseSha && p.headSha == q.headSha
  {
    SameField(p, q, 6);
    SameField(p, q, 7);
    SameField(p, q, 8);
    SameField(p, q, 9);
  }

  lemma SameFlags(p: PullRequest, q: PullRequest)
    requires DenoteMembers(Members(p)) == DenoteMembers(Members(q))
    ensures p.number == q.number && p.state == q.state
    ensures p.draft == q.draft && p.autoMergeEnabled == q.autoMergeEnabled
  {
    SameField(p, q, 2);
    SameField(p, q, 4);
    SameField(p, q, 5);
    SameField(p, q, 10);
    StateTextInjective(p.state, q.state);
  }

  // ------------------------------------------------------------------- theorems

  /** Two pull requests have the same version exactly when nothing that is observed differs. */
  lemma VersionsDecide(p: PullRequest, q: PullRequest)
    ensures Version(p) == Version(q) <==> p == q
  {
    if Version(p) == Version(q) {
      MembersDistinct(p);
      MembersDistinct(q);
      CanonicalDecidesEquality(Obj(Members(p)), Obj(Members(q)));
      SameLinkage(p, q);
      SameNames(p, q);
      SameBranches(p, q);
      SameFlags(p, q);
    }
  }

  /** Different idempotency keys, or the same key for an issue and a pull request, never share a linkage text. */
  lemma LinkageDecides(k: Kind, a: Text, l: Kind, b: Text)
    ensures LinkageText(k, a) == LinkageText(l, b) <==> k == l && a == b
  {
    var ms := [Pair(KIND, Str(Ascii(KindText(k)))), Pair(KEY, Str(a))];
    var ns := [Pair(KIND, Str(Ascii(KindText(l)))), Pair(KEY, Str(b))];
    assert Tellable(KIND, KEY) && DistinctKeys(ms) && DistinctKeys(ns);
    if LinkageText(k, a) == LinkageText(l, b) {
      CanonicalDecidesEquality(Obj(ms), Obj(ns));
      SameMember(ms, ns, 0);
      SameMember(ms, ns, 1);
      KindTextInjective(k, l);
    }
  }
}
