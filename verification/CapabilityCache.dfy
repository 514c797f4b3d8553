/**
The capability catalogue with its cache, and the check of a selection against it.
Times are integers; discovery and the inspection of versions are parameters of a call.
*/
module CapabilityCache {
  import opened Prelude

  datatype Engine = Claude | Codex | Cursor

  /** What evidence is about: an engine, and an account of it if one is meant. */
  datatype Target = Target(engine: Engine, account: Option<string>)

  datatype Support = Supported | Unsupported | Unknown

  datatype Freshness = Fresh | Stale

  datatype Installation = Installed | NotInstalled | UnknownInstallation

  datatype Authentication = Authenticated | Unauthenticated | UnknownAuthentication

  datatype Compatibility = Compatible | Incompatible | UnknownCompatibility

  datatype Model = Model(id: string, efforts: seq<string>, executionModes: seq<string>)

  datatype Tool = Tool(name: string, support: Support)

  datatype Entry = Entry(
    target: Target, expiresAt: int, freshness: Freshness, ready: bool, configured: bool, installation: Installation,
    authentication: Authentication, compatibility: Compatibility, rateLimited: bool, models: seq<Model>,
    features: string -> Support, tools: seq<Tool>, engineVersion: string, claudexorVersion: string)

  datatype Version = Version(target: Target, engineVersion: string, claudexorVersion: string)

  /** Asking the engines for their versions: not offered, failed, or answered. */
  datatype Inspection = NotOffered | InspectionFailed | Versions(versions: seq<Version>)

  // -------------------------------------------------------------------- selection

  datatype Phase = Authoring | Execution

  datatype Requirement = Requirement(
    engine: Engine, account: Option<string>, model: string, effort: string, executionMode: string,
    features: seq<string>, tools: seq<string>)

  function Wanted(q: Requirement): Target {
    Target(q.engine, if q.executionMode == "native" then None else q.account)
  }

  function Find<T>(s: seq<T>, p: T -> bool): (r: Option<T>)
    ensures r.Some? ==> r.value in s && p(r.value)
    ensures r.None? ==> forall x | x in s :: !p(x)
    ensures r.Some? ==> exists k :: FirstOf(s, p, k) && s[k] == r.value
  {
    if s == [] then None
    else if p(s[0]) then
      assert FirstOf(s, p, 0);
      Some(s[0])
    else
      var r := Find(s[1..], p);
      assert r.Some? ==> exists k :: FirstOf(s, p, k) && s[k] == r.value by {
        if r.Some? {
          var k :| FirstOf(s[1..], p, k) && s[1..][k] == r.value;
          assert FirstOf(s, p, k + 1);
        }
      }
      r
  }

  /** The element at `k` is the first that satisfies `p`. */
  ghost predicate FirstOf<T>(s: seq<T>, p: T -> bool, k: int) {
    0 <= k < |s| && p(s[k]) && forall i | 0 <= i < k :: !p(s[i])
  }

  ghost predicate FirstTool(e: Entry, name: string, k: int) {
    0 <= k < |e.tools| && e.tools[k].name == name && forall i | 0 <= i < k :: e.tools[i].name != name
  }

  ghost predicate FirstModel(e: Entry, id: string, k: int) {
    0 <= k < |e.models| && e.models[k].id == id && forall i | 0 <= i < k :: e.models[i].id != id
  }

  /** A tool is supported exactly if the first entry of that name says so. */
  lemma ToolSupportedExactly(e: Entry, name: string)
    ensures ToolSupport(e, name) == Some(Supported) <==>
      exists k :: FirstTool(e, name, k) && e.tools[k].support.Supported?
  {
    var p := (t: Tool) => t.name == name;
    if k :| FirstOf(e.tools, p, k) && Find(e.tools, p).Some? && e.tools[k] == Find(e.tools, p).value {
      assert FirstTool(e, name, k);
      forall j | FirstTool(e, name, j) ensures j == k {
        assert p(e.tools[j]);
      }
    }
    if k :| FirstTool(e, name, k) { assert e.tools[k] in e.tools && p(e.tools[k]); }
  }

  /** The first model of that id offers the effort and the mode. */
  lemma ModelOffersExactly(e: Entry, id: string, effort: string, mode: string)
    ensures (var m := ModelFor(e, id); m.Some? && effort in m.value.efforts && mode in m.value.executionModes) <==>
      exists k :: FirstModel(e, id, k) && effort in e.models[k].efforts && mode in e.models[k].executionModes
  {
    var p := (m: Model) => m.id == id;
    if k :| FirstOf(e.models, p, k) && Find(e.models, p).Some? && e.models[k] == Find(e.models, p).value {
      assert FirstModel(e, id, k);
      forall j | FirstModel(e, id, j) ensures j == k {
        assert p(e.models[j]);
      }
    }
    if k :| FirstModel(e, id, k) { assert e.models[k] in e.models && p(e.models[k]); }
  }

  /** A selection is allowed exactly if the entry is usable and offers all that is asked for. */
  lemma AllowsExactly(e: Entry, q: Requirement, phase: Phase)
    ensures Allows(e, q, phase) <==>
      && e.configured && !e.rateLimited && !(phase.Execution? && e.freshness.Stale?)
      && e.installation == Installed && e.authentication == Authenticated && e.compatibility == Compatible
      && (exists k :: FirstModel(e, q.model, k)
            && q.effort in e.models[k].efforts && q.executionMode in e.models[k].executionModes)
      && (forall f | f in q.features :: e.features(f) == Supported)
      && (forall t | t in q.tools :: exists k :: FirstTool(e, t, k) && e.tools[k].support == Supported)
  {
    ModelOffersExactly(e, q.model, q.effort, q.executionMode);
    forall t ensures ToolSupport(e, t) == Some(Supported) <==>
      exists k :: FirstTool(e, t, k) && e.tools[k].support.Supported? { ToolSupportedExactly(e, t); }
  }

  /** The first entry about `t`. */
  function EntryFor(entries: seq<Entry>, t: Target): Option<Entry> { Find(entries, (e: Entry) => e.target == t) }

  function ToolSupport(e: Entry, name: string): Option<Support> {
    var t := Find(e.tools, (t: Tool) => t.name == name);
    if t.None? then None else Some(t.value.support)
  }

  function ModelFor(e: Entry, id: string): Option<Model> { Find(e.models, (m: Model) => m.id == id) }

  /** The entry allows everything that is asked for. */
  ghost predicate Allows(e: Entry, q: Requirement, phase: Phase) {
    && e.configured && (phase.Execution? ==> e.freshness.Fresh?)
    && e.installation.Installed? && e.authentication.Authenticated? && e.compatibility.Compatible? && !e.rateLimited
    && (var m := ModelFor(e, q.model);
        m.Some? && q.effort in m.value.efforts && q.executionMode in m.value.executionModes)
    && (forall f | f in q.features :: e.features(f).Supported?)
    && (forall t | t in q.tools :: ToolSupport(e, t) == Some(Supported))
  }

  /** An entry that allows a selection lists the model with that effort and mode, and every tool as supported. */
  lemma AllowsMeans(e: Entry, q: Requirement, phase: Phase)
    requires Allows(e, q, phase)
    ensures exists m :: m in e.models && m.id == q.model && q.effort in m.efforts && q.executionMode in m.executionModes
    ensures forall name | name in q.tools :: exists t :: t in e.tools && t.name == name && t.support.Supported?
  {
    assert ModelFor(e, q.model).value in e.models;
    forall name | name in q.tools ensures exists t :: t in e.tools && t.name == name && t.support.Supported? {
      assert ToolSupport(e, name) == Some(Supported);
      assert Find(e.tools, (t: Tool) => t.name == name).value in e.tools;
    }
  }

  /** What is wrong, one message each. */
  method ValidateSelection(entries: seq<Entry>, q: Requirement, phase: Phase)
    returns (issues: seq<string>, warnings: seq<string>)
    ensures issues == [] <==> EntryFor(entries, Wanted(q)).Some? && Allows(EntryFor(entries, Wanted(q)).value, q, phase)
    ensures warnings != [] <==>
      phase.Authoring? && EntryFor(entries, Wanted(q)).Some? && EntryFor(entries, Wanted(q)).value.freshness.Stale?
  {
    issues, warnings := [], [];
    var found := EntryFor(entries, Wanted(q));
    if found.None? { return ["catalogue-entry"], []; }
    var e := found.value;
    if !e.configured { issues := issues + ["configuration"]; }
    if e.freshness.Stale? {
      if phase.Execution? { issues := issues + ["freshness"]; } else { warnings := warnings + ["stale"]; }
    }
    if !e.installation.Installed? { issues := issues + ["installation"]; }
    if !e.authentication.Authenticated? { issues := issues + ["authentication"]; }
    if !e.compatibility.Compatible? { issues := issues + ["compatibility"]; }
    if e.rateLimited { issues := issues + ["capacity"]; }
    var m := ModelFor(e, q.model);
    if m.None? {
      issues := issues + ["model:" + q.model];
    } else {
      if q.effort !in m.value.efforts { issues := issues + ["effort:" + q.effort]; }
      if q.executionMode !in m.value.executionModes { issues := issues + ["execution-mode:" + q.executionMode]; }
    }
    var more := FeatureIssues(e, q);
    issues := issues + more;
  }

  method FeatureIssues(e: Entry, q: Requirement) returns (issues: seq<string>)
    ensures issues == [] <==>
      && (forall f | f in q.features :: e.features(f).Supported?)
      && (forall t | t in q.tools :: ToolSupport(e, t) == Some(Supported))
  {
    issues := [];
    for k := 0 to |q.features|
      invariant issues == [] <==> forall j | 0 <= j < k :: e.features(q.features[j]).Supported?
    {
      if !e.features(q.features[k]).Supported? { issues := issues + [q.features[k]]; }
    }
    var before := issues;
    for k := 0 to |q.tools|
      invariant issues == [] <==> before == [] && forall j | 0 <= j < k :: ToolSupport(e, q.tools[j]) == Some(Supported)
    {
      if ToolSupport(e, q.tools[k]) != Some(Supported) { issues := issues + ["tool:" + q.tools[k]]; }
    }
  }

  // -------------------------------------------------------------------- catalogue

  function Outdated(e: Entry): Entry { e.(freshness := Stale, ready := false) }

  /** The inspected versions are those the entries were made with. */
  ghost predicate SameVersions(cached: seq<Entry>, versions: seq<Version>) {
    forall e | e in cached ::
      var v := Find(versions, (v: Version) => v.target == e.target);
      v.Some? && v.value.engineVersion == e.engineVersion && v.value.claudexorVersion == e.claudexorVersion
  }

  /** A discovery hands out evidence that is fresh at `now`. */
  ghost predicate FreshAt(entries: seq<Entry>, now: int) {
    forall e | e in entries :: e.freshness.Fresh? && e.expiresAt > now
  }

  /** Evidence that calls itself fresh has not expired. */
  ghost predicate Truthful(entries: seq<Entry>, now: int) {
    forall e | e in entries && e.freshness.Fresh? :: e.expiresAt > now
  }

  datatype Account = Account(engine: Engine, id: string)

  /** Every configured account; Claude without account always, the other engines only when they have none. */
  method Targets(accounts: seq<Account>) returns (r: seq<Target>)
    ensures forall t :: t in r <==> Expected(accounts, t)
  {
    var claude := AccountsOf(accounts, Claude);
    var codex := AccountsOf(accounts, Codex);
    var cursor := AccountsOf(accounts, Cursor);
    r := [Target(Claude, None)] + claude
      + (if codex == [] then [Target(Codex, None)] else codex)
      + (if cursor == [] then [Target(Cursor, None)] else cursor);
    assert forall e: Engine :: e.Claude? || e.Codex? || e.Cursor?;
    EmptyExactly(accounts, Codex, codex);
    EmptyExactly(accounts, Cursor, cursor);
  }

  ghost predicate Expected(accounts: seq<Account>, t: Target) {
    match t.account
    case Some(id) => Account(t.engine, id) in accounts
    case None => t.engine.Claude? || forall a | a in accounts :: a.engine != t.engine
  }

  method AccountsOf(accounts: seq<Account>, engine: Engine) returns (r: seq<Target>)
    ensures forall t :: t in r <==>
      t.engine == engine && t.account.Some? && Account(engine, t.account.value) in accounts
  {
    r := [];
    for k := 0 to |accounts|
      invariant forall t :: t in r <==>
        t.engine == engine && t.account.Some? && Account(engine, t.account.value) in accounts[..k]
    {
      assert accounts[..k + 1] == accounts[..k] + [accounts[k]];
      if accounts[k].engine == engine { r := r + [Target(engine, Some(accounts[k].id))]; }
    }
    assert accounts[..|accounts|] == accounts;
  }

  lemma EmptyExactly(accounts: seq<Account>, engine: Engine, r: seq<Target>)
    requires forall t :: t in r <==>
      t.engine == engine && t.account.Some? && Account(engine, t.account.value) in accounts
    ensures r == [] <==> forall a | a in accounts :: a.engine != engine
  {
    if a :| a in accounts && a.engine == engine {
      assert a == Account(engine, a.id) && Target(engine, Some(a.id)) in r;
    }
    if r != [] { assert r[0] in r; }
  }

  /** The entries there are for the expected targets, in their order. */
  function Cached(expected: seq<Target>, store: map<Target, Entry>): seq<Entry> {
    if expected == [] then []
    else
      var n := |expected| - 1;
      Cached(expected[..n], store) + if expected[n] in store then [store[expected[n]]] else []
  }

  /** The store after the entries were written in turn: the last one of a target stays. */
  function Written(store: map<Target, Entry>, entries: seq<Entry>): map<Target, Entry> {
    if entries == [] then store
    else
      var n := |entries| - 1;
      Written(store, entries[..n])[entries[n].target := entries[n]]
  }

  /** The versions were inspected and are not those the entries were made with. */
  ghost predicate Mismatch(cached: seq<Entry>, inspection: Inspection) {
    inspection.Versions? && !SameVersions(cached, inspection.versions)
  }

  /** A complete cache that has not expired and is of the same versions answers without discovery. */
  ghost predicate Hit(
    expected: seq<Target>, store: map<Target, Entry>, now: int, refresh: bool, inspection: Inspection)
  {
    var cached := Cached(expected, store);
    && !refresh && |cached| == |expected| && !Mismatch(cached, inspection)
    && forall e | e in cached :: e.expiresAt > now
  }

  function OutdatedAll(cached: seq<Entry>): (r: seq<Entry>)
    ensures |r| == |cached|
  {
    seq(|cached|, i requires 0 <= i < |cached| => Outdated(cached[i]))
  }

  /** The catalogue of a call: from the cache, from discovery, from the cache as stale, or none. */
  ghost function Answer(
    expected: seq<Target>, store: map<Target, Entry>, now: int, refresh: bool, inspection: Inspection,
    discovery: Option<seq<Entry>>): Option<seq<Entry>>
  {
    var cached := Cached(expected, store);
    if Hit(expected, store, now, refresh, inspection) then Some(cached)
    else if discovery.Some? then discovery
    else if |cached| == |expected| && !Mismatch(cached, inspection) then Some(OutdatedAll(cached))
    else None
  }

  class Service {
    const expected: seq<Target>
    var store: map<Target, Entry>

    constructor (expected: seq<Target>)
      ensures Valid() && this.expected == expected && store == map[]
    {
      this.expected := expected;
      store := map[];
    }

    ghost predicate Valid()
      reads this
    {
      Keyed(store)
    }

    /** The cached entries of the expected targets, as far as there are any. */
    method ReadCache() returns (cached: seq<Entry>)
      requires Valid()
      ensures cached == Cached(expected, store)
      ensures |cached| <= |expected|
      ensures forall e | e in cached :: e.target in expected && e.target in store && store[e.target] == e
      ensures |cached| == |expected| <==> forall t | t in expected :: t in store
    {
      cached := [];
      for k := 0 to |expected|
        invariant cached == Cached(expected[..k], store)
        invariant |cached| <= k
        invariant forall e | e in cached :: e.target in expected && e.target in store && store[e.target] == e
        invariant |cached| == k <==> forall j | 0 <= j < k :: expected[j] in store
      {
        assert expected[..k + 1][..k] == expected[..k];
        if expected[k] in store { cached := cached + [store[expected[k]]]; }
      }
      assert expected[..|expected|] == expected;
    }

    method AllSameVersions(cached: seq<Entry>, versions: seq<Version>) returns (same: bool)
      ensures same <==> SameVersions(cached, versions)
    {
      for k := 0 to |cached|
        invariant forall j | 0 <= j < k ::
          var v := Find(versions, (v: Version) => v.target == cached[j].target);
          && v.Some? && v.value.engineVersion == cached[j].engineVersion
          && v.value.claudexorVersion == cached[j].claudexorVersion
      {
        var e := cached[k];
        var v := Find(versions, (v: Version) => v.target == e.target);
        if v.None? || v.value.engineVersion != e.engineVersion || v.value.claudexorVersion != e.claudexorVersion {
          assert e in cached;
          return false;
        }
      }
      return true;
    }

    method WriteAll(entries: seq<Entry>)
      requires Valid()
      modifies this
      ensures Valid() && store == Written(old(store), entries)
      ensures forall t | t in store :: store[t] in entries || (t in old(store) && store[t] == old(store)[t])
    {
      for k := 0 to |entries|
        invariant Valid() && store == Written(old(store), entries[..k])
        invariant forall t | t in store :: store[t] in entries || (t in old(store) && store[t] == old(store)[t])
      {
        assert entries[..k + 1][..k] == entries[..k];
        store := store[entries[k].target := entries[k]];
      }
      assert entries[..|entries|] == entries;
    }

    /** The answer of the cache or of discovery, and what is stored of it. */
    method Consult(now: int, refresh: bool, inspection: Inspection, discovery: Option<seq<Entry>>)
      returns (r: Option<seq<Entry>>)
      requires Valid()
      modifies this
      ensures Valid() && r == Answer(expected, old(store), now, refresh, inspection, discovery)
      ensures forall t | t in store ::
        (t in old(store) && store[t] == old(store)[t]) || (discovery.Some? && store[t] in discovery.value)
      ensures store ==
        if discovery.Some? && !Hit(expected, old(store), now, refresh, inspection)
        then Written(old(store), discovery.value) else old(store)
    {
      var cached := ReadCache();
      var complete := |cached| == |expected|;
      var allFresh := complete;
      for k := 0 to |cached|
        invariant allFresh <==> complete && forall j | 0 <= j < k :: cached[j].expiresAt > now
      {
        allFresh := allFresh && cached[k].expiresAt > now;
      }
      var incompatible := false;
      if complete && inspection.Versions? {
        var same := AllSameVersions(cached, inspection.versions);
        incompatible := !same;
      }
      if !refresh && allFresh && !incompatible { return Some(cached); }
      if discovery.Some? {
        WriteAll(discovery.value);
        return Some(discovery.value);
      }
      if complete && !incompatible {
        var stale := AllOutdated(cached);
        return Some(stale);
      }
      return None;
    }

    /**
    From the cache if it is complete, unexpired and of the same versions; else by discovery;
    else from the cache as stale.
    */
    method Catalogue(now: int, refresh: bool, inspection: Inspection, discovery: Option<seq<Entry>>)
      returns (r: Option<seq<Entry>>)
      requires Valid()
      modifies this
      ensures Valid()
      ensures discovery.Some? && FreshAt(discovery.value, now) ==> r.Some? && Truthful(r.value, now)
      ensures discovery.None? && r.Some? ==> Truthful(r.value, now) && store == old(store)
      ensures r.Some? ==> forall e | e in r.value && e.freshness.Fresh? ::
        (discovery.Some? && e in discovery.value) || (e.target in old(store) && old(store)[e.target] == e)
      ensures refresh && discovery.None? && r.Some? ==> forall e | e in r.value :: e.freshness.Stale?
      ensures r.Some? && inspection.Versions? && (discovery.None? || r.value != discovery.value) ==>
        SameVersions(r.value, inspection.versions)
      ensures forall t | t in store ::
        (t in old(store) && store[t] == old(store)[t]) || (discovery.Some? && store[t] in discovery.value)
      ensures store ==
        if discovery.Some? && !Hit(expected, old(store), now, refresh, inspection)
        then Written(old(store), discovery.value) else old(store)
      ensures r == Answer(expected, old(store), now, refresh, inspection, discovery)
      ensures discovery.None? && !Hit(expected, old(store), now, refresh, inspection) && r.Some? ==>
        forall e | e in r.value :: e.freshness.Stale? && !e.ready
    {
      CachedFrom(expected, store);
      r := Consult(now, refresh, inspection, discovery);
    }
  }

  method AllOutdated(cached: seq<Entry>) returns (r: seq<Entry>)
    ensures r == OutdatedAll(cached)
  {
    r := [];
    for k := 0 to |cached|
      invariant |r| == k && forall j | 0 <= j < k :: r[j] == Outdated(cached[j])
    {
      r := r + [Outdated(cached[k])];
    }
  }

  // ------------------------------------------------------------------- whole runs

  /**
  One resolution: its time, what the outside world answers, and the selection the profile resolves
  to, if it does.
  */
  datatype Call = Call(
    now: int, refresh: bool, inspection: Inspection, discovery: Option<seq<Entry>>,
    selection: Option<Requirement>, phase: Phase)

  /** What a call's selection would rest on: the entry of the wanted target in the catalogue of the call. */
  ghost function Evidence(expected: seq<Target>, store: map<Target, Entry>, c: Call): Option<Entry> {
    var catalogue := Answer(expected, store, c.now, c.refresh, c.inspection, c.discovery);
    if catalogue.None? || c.selection.None? then None else EntryFor(catalogue.value, Wanted(c.selection.value))
  }

  ghost predicate Accepts(expected: seq<Target>, store: map<Target, Entry>, c: Call) {
    var e := Evidence(expected, store, c);
    e.Some? && c.selection.Some? && Allows(e.value, c.selection.value, c.phase)
  }

  /** The cache after a call: discovery is stored, unless the cache had answered. */
  ghost function Stored(expected: seq<Target>, store: map<Target, Entry>, c: Call): map<Target, Entry> {
    if c.discovery.Some? && !Hit(expected, store, c.now, c.refresh, c.inspection)
    then Written(store, c.discovery.value) else store
  }

  /** Entries are kept under their own target. */
  ghost predicate Keyed(store: map<Target, Entry>) {
    forall t | t in store :: store[t].target == t
  }

  lemma {:induction false} CachedFrom(expected: seq<Target>, store: map<Target, Entry>)
    requires Keyed(store)
    ensures forall e | e in Cached(expected, store) :: e.target in store && store[e.target] == e
  {
    if expected != [] { CachedFrom(expected[..|expected| - 1], store); }
  }

  lemma {:induction false} WrittenFrom(store: map<Target, Entry>, entries: seq<Entry>)
    requires Keyed(store)
    ensures Keyed(Written(store, entries))
    ensures forall t | t in Written(store, entries) ::
      Written(store, entries)[t] in entries || (t in store && Written(store, entries)[t] == store[t])
  {
    if entries != [] { WrittenFrom(store, entries[..|entries| - 1]); }
  }

  /** Accepted evidence of the execution phase was cached or just discovered, and has not expired. */
  lemma EvidenceFacts(expected: seq<Target>, store: map<Target, Entry>, c: Call)
    requires Keyed(store) && Accepts(expected, store, c) && c.phase.Execution?
    requires c.discovery.Some? ==> FreshAt(c.discovery.value, c.now)
    ensures var e := Evidence(expected, store, c).value;
      && e.target == Wanted(c.selection.value) && e.expiresAt > c.now
      && ((c.discovery.Some? && e in c.discovery.value) || (e.target in store && store[e.target] == e))
  {
    CachedFrom(expected, store);
    var cached := Cached(expected, store);
    assert forall e | e in OutdatedAll(cached) :: e.freshness.Stale?;
  }

  method Resolve(service: Service, c: Call) returns (accepted: bool)
    requires service.Valid()
    modifies service
    ensures service.Valid() && service.store == Stored(service.expected, old(service.store), c)
    ensures accepted <==> Accepts(service.expected, old(service.store), c)
    ensures accepted ==>
      Evidence(service.expected, old(service.store), c).value.target.account
      == if c.selection.value.executionMode == "native" then None else c.selection.value.account
  {
    var catalogue := service.Catalogue(c.now, c.refresh, c.inspection, c.discovery);
    if catalogue.None? || c.selection.None? { return false; }
    var issues, warnings := ValidateSelection(catalogue.value, c.selection.value, c.phase);
    return issues == [];
  }

  /** The cache after a series of calls. */
  ghost function StoreAfter(expected: seq<Target>, calls: seq<Call>): map<Target, Entry> {
    if calls == [] then map[]
    else
      var n := |calls| - 1;
      Stored(expected, StoreAfter(expected, calls[..n]), calls[n])
  }

  /** Some call up to `n` discovered `e`. */
  ghost predicate DiscoveredBy(calls: seq<Call>, n: nat, e: Entry) {
    exists j :: 0 <= j < n && j < |calls| && calls[j].discovery.Some? && e in calls[j].discovery.value
  }

  /** The selection of call `k` rests on evidence that some call up to it discovered and that has not expired. */
  ghost predicate WellFounded(expected: seq<Target>, calls: seq<Call>, k: nat)
    requires k < |calls|
  {
    var e := Evidence(expected, StoreAfter(expected, calls[..k]), calls[k]);
    e.Some? && e.value.expiresAt > calls[k].now && DiscoveredBy(calls, k + 1, e.value)
  }

  lemma {:induction false} StoreDiscovered(expected: seq<Target>, calls: seq<Call>)
    ensures var store := StoreAfter(expected, calls);
      Keyed(store) && forall t | t in store :: DiscoveredBy(calls, |calls|, store[t])
  {
    if calls != [] {
      var n := |calls| - 1;
      var before, c := StoreAfter(expected, calls[..n]), calls[n];
      StoreDiscovered(expected, calls[..n]);
      if c.discovery.Some? { WrittenFrom(before, c.discovery.value); }
      var after := StoreAfter(expected, calls);
      forall t | t in after ensures DiscoveredBy(calls, |calls|, after[t]) {
        if t in before && after[t] == before[t] { DiscoveredEarlier(calls, n, after[t]); }
        else { assert after[t] in calls[n].discovery.value; }
      }
    }
  }

  lemma DiscoveredEarlier(calls: seq<Call>, n: nat, e: Entry)
    requires n < |calls| && DiscoveredBy(calls[..n], n, e)
    ensures DiscoveredBy(calls, n + 1, e)
  {
    var j :| 0 <= j < n && j < |calls[..n]| && calls[..n][j].discovery.Some? && e in calls[..n][j].discovery.value;
    assert calls[j] == calls[..n][j];
  }

  /** Every discovery hands out entries that are fresh then. */
  ghost predicate FreshDiscoveries(calls: seq<Call>) {
    forall k | 0 <= k < |calls| && calls[k].discovery.Some? :: FreshAt(calls[k].discovery.value, calls[k].now)
  }

  /** What is accepted for execution rests on evidence that was discovered in this run and has not expired. */
  lemma AcceptedIsFounded(expected: seq<Target>, calls: seq<Call>, k: nat)
    requires FreshDiscoveries(calls) && k < |calls| && calls[k].phase.Execution?
    requires Accepts(expected, StoreAfter(expected, calls[..k]), calls[k])
    ensures WellFounded(expected, calls, k)
  {
    var store := StoreAfter(expected, calls[..k]);
    StoreDiscovered(expected, calls[..k]);
    EvidenceFacts(expected, store, calls[k]);
    var e := Evidence(expected, store, calls[k]).value;
    if e.target in store && store[e.target] == e { DiscoveredEarlier(calls, k, e); }
  }

  /**
  Any run from an empty cache: a selection is accepted exactly as the cache of the moment says, and for execution only
  on evidence that was discovered in this run and has not expired, given that discoveries hand out fresh entries.
  */
  method Run(service: Service, calls: seq<Call>) returns (accepted: seq<bool>)
    requires service.Valid() && service.store == map[]
    modifies service
    ensures |accepted| == |calls|
    ensures forall k | 0 <= k < |calls| ::
      accepted[k] <==> Accepts(service.expected, StoreAfter(service.expected, calls[..k]), calls[k])
    ensures FreshDiscoveries(calls) ==>
      forall k | 0 <= k < |calls| && accepted[k] && calls[k].phase.Execution? :: WellFounded(service.expected, calls, k)
  {
    accepted := [];
    for n := 0 to |calls|
      invariant service.Valid() && |accepted| == n && service.store == StoreAfter(service.expected, calls[..n])
      invariant forall k | 0 <= k < n ::
        accepted[k] <==> Accepts(service.expected, StoreAfter(service.expected, calls[..k]), calls[k])
    {
      var ok := Resolve(service, calls[n]);
      assert calls[..n + 1][..n] == calls[..n];
      accepted := accepted + [ok];
    }
    if FreshDiscoveries(calls) {
      forall k | 0 <= k < |calls| && accepted[k] && calls[k].phase.Execution?
        ensures WellFounded(service.expected, calls, k)
      {
        AcceptedIsFounded(service.expected, calls, k);
      }
    }
  }
}
