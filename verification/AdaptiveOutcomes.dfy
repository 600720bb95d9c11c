/**
 The pytest plugin that collects the outcomes of the frozen adaptive cases, and the decision
 `execute` takes over them. A run of pytest is an arbitrary sequence of hook calls.
 */
module AdaptiveOutcomes {
  import opened PyText
  import opened Sorting
  import opened AdaptiveEvidence
  import AdaptiveIndex

  /** One hook call. `xfail` says whether the report carries `wasxfail`. */
  datatype Event =
    | Collected(items: seq<string>)
    | CollectReport(failed: bool)
    | LogReport(nodeid: string, phase: string, outcome: string, xfail: bool)

  type Results = map<string, map<string, string>>

  datatype State = State(collected: seq<string>, results: Results, collectionFailed: bool)

  const START := State([], map[], false)
  const PHASES := map["setup" := "passed", "call" := "passed", "teardown" := "passed"]

  function Status(outcome: string, xfail: bool): string {
    if !xfail then outcome else if outcome == "passed" then "xpass" else "xfail"
  }

  function Phases(results: Results, id: string): map<string, string> {
    if id in results then results[id] else map[]
  }

  function Step(s: State, e: Event): State {
    match e
    case Collected(items) => s.(collected := SortStrings(items))
    case CollectReport(failed) => s.(collectionFailed := s.collectionFailed || failed)
    case LogReport(id, phase, outcome, xfail) =>
      s.(results := s.results[id := Phases(s.results, id)[phase := Status(outcome, xfail)]])
  }

  function Run(events: seq<Event>): State {
    if events == [] then START else Step(Run(events[..|events| - 1]), events[|events| - 1])
  }

  function RecordFor(results: Results, id: string): Case {
    Case(id, if Phases(results, id) == PHASES then "pass" else "not-passed")
  }

  function RecordsOf(s: State): seq<Case> {
    MapSeq((id: string) => RecordFor(s.results, id), s.collected)
  }

  class Outcomes {
    var collected: seq<string>
    var results: Results
    var collectionFailed: bool

    ghost function Value(): State
      reads this
    {
      State(collected, results, collectionFailed)
    }

    constructor ()
      ensures Value() == START
    {
      collected := [];
      results := map[];
      collectionFailed := false;
    }

    method CollectionFinish(items: seq<string>)
      modifies this
      ensures Value() == Step(old(Value()), Collected(items))
    {
      collected := SortStrings(items);
    }

    method CollectReport(failed: bool)
      modifies this
      ensures Value() == Step(old(Value()), Event.CollectReport(failed))
    {
      if failed {
        collectionFailed := true;
      }
    }

    method RuntestLogReport(nodeid: string, phase: string, outcome: string, xfail: bool)
      modifies this
      ensures Value() == Step(old(Value()), LogReport(nodeid, phase, outcome, xfail))
    {
      var status := outcome;
      if xfail {
        status := if outcome == "passed" then "xpass" else "xfail";
      }
      if nodeid !in results {
        results := results[nodeid := map[]];
      }
      results := results[nodeid := results[nodeid][phase := status]];
    }

    method Records() returns (records: seq<Case>)
      ensures records == RecordsOf(Value())
    {
      records := [];
      for i := 0 to |collected|
        invariant records == RecordsOf(Value())[..i]
      {
        var phases := if collected[i] in results then results[collected[i]] else map[];
        records := records + [Case(collected[i], if phases == PHASES then "pass" else "not-passed")];
      }
    }

    /** One pytest session: the hooks are called in the order of the events. */
    method Session(events: seq<Event>)
      requires Value() == START
      modifies this
      ensures Value() == Run(events)
    {
      for i := 0 to |events|
        invariant Value() == Run(events[..i])
      {
        assert events[..i + 1][..i] == events[..i];
        match events[i]
        case Collected(items) => CollectionFinish(items);
        case CollectReport(failed) => CollectReport(failed);
        case LogReport(id, phase, outcome, xfail) => RuntestLogReport(id, phase, outcome, xfail);
      }
      assert events[..|events|] == events;
    }
  }

  // ---------------------------------------------------------------- what a run remembers

  /** What an event overwrites, and what it leaves there. */
  datatype Slot = Listing | Phase(nodeid: string, phase: string) | Nowhere
  datatype Effect = Listed(ids: seq<string>) | Reported(status: string) | Nothing

  function SlotOf(e: Event): Slot {
    match e
    case Collected(_) => Listing
    case CollectReport(_) => Nowhere
    case LogReport(id, phase, _, _) => Phase(id, phase)
  }

  function EffectOf(e: Event): Effect {
    match e
    case Collected(items) => Listed(SortStrings(items))
    case CollectReport(_) => Nothing
    case LogReport(_, _, outcome, xfail) => Reported(Status(outcome, xfail))
  }

  function Last(events: seq<Event>, slot: Slot): Option<Effect> {
    if events == [] then None
    else
      var e := events[|events| - 1];
      if SlotOf(e) == slot then Some(EffectOf(e)) else Last(events[..|events| - 1], slot)
  }

  function Lookup(results: Results, id: string, phase: string): Option<Effect> {
    if id in results && phase in results[id] then Some(Reported(results[id][phase])) else None
  }

  ghost predicate Remembers(s: State, events: seq<Event>) {
    && s.collected == (match Last(events, Listing) case Some(Listed(ids)) => ids case _ => [])
    && (forall id, phase :: Lookup(s.results, id, phase) == Last(events, Phase(id, phase)))
    && (forall id :: id in s.results ==> s.results[id] != map[])
    && (s.collectionFailed <==> CollectReport(true) in events)
  }

  lemma StepRemembers(s: State, rest: seq<Event>, e: Event)
    requires Remembers(s, rest)
    ensures Remembers(Step(s, e), rest + [e])
  {
    hide SortStrings, Status;
    var events, t := rest + [e], Step(s, e);
    assert events[..|events| - 1] == rest && events[|events| - 1] == e;
    assert forall slot :: Last(events, slot) == if SlotOf(e) == slot then Some(EffectOf(e)) else Last(rest, slot);
    hide Last;
    forall id, phase ensures Lookup(t.results, id, phase) == Last(events, Phase(id, phase)) {
      assert Lookup(s.results, id, phase) == Last(rest, Phase(id, phase));
    }
    forall id | id in t.results ensures t.results[id] != map[] {
      if e.LogReport? && e.nodeid == id {
        assert e.phase in t.results[id];
      }
    }
  }

  lemma StartRemembers()
    ensures Remembers(START, [])
  {
  }

  /** The state is the last listing, the last status of each test and phase, and whether a collection failed. */
  lemma {:induction false} RunRemembersTheLast(events: seq<Event>)
    ensures Remembers(Run(events), events)
  {
    hide Step, Remembers;
    if events == [] {
      StartRemembers();
    } else {
      var rest, e := events[..|events| - 1], events[|events| - 1];
      RunRemembersTheLast(rest);
      StepRemembers(Run(rest), rest, e);
      assert events == rest + [e];
    }
  }

  lemma SameMemories(a: State, b: State, x: seq<Event>, y: seq<Event>)
    requires Remembers(a, x) && Remembers(b, y)
    requires (forall slot :: slot != Nowhere ==> Last(x, slot) == Last(y, slot))
    requires CollectReport(true) in x <==> CollectReport(true) in y
    ensures a == b
  {
    forall id, phase ensures Lookup(a.results, id, phase) == Lookup(b.results, id, phase) {
    }
    forall id | id in a.results ensures id in b.results && a.results[id] == b.results[id] {
      SameRow(a.results, b.results, id);
    }
    forall id | id in b.results ensures id in a.results {
      SameRow(b.results, a.results, id);
    }
    assert a.results == b.results;
  }

  lemma SameRow(a: Results, b: Results, id: string)
    requires id in a && a[id] != map[]
    requires forall phase :: Lookup(a, id, phase) == Lookup(b, id, phase)
    ensures id in b && a[id] == b[id]
  {
    var phase :| phase in a[id];
    assert Lookup(b, id, phase).Some?;
    forall p ensures p in a[id] <==> p in b[id] {
      assert Lookup(a, id, p) == Lookup(b, id, p);
    }
    forall p | p in a[id] ensures a[id][p] == b[id][p] {
      assert Lookup(a, id, p) == Lookup(b, id, p);
    }
  }

  /** A report under `xfail` is remembered as `xpass` or `xfail`, any other one as its own outcome. */
  lemma ReportsAreRemembered(events: seq<Event>, id: string, phase: string, outcome: string, xfail: bool)
    ensures var results := Run(events + [LogReport(id, phase, outcome, xfail)]).results;
            && id in results && phase in results[id]
            && (!xfail ==> results[id][phase] == outcome)
            && (xfail && outcome == "passed" ==> results[id][phase] == "xpass")
            && (xfail && outcome != "passed" ==> results[id][phase] == "xfail")
  {
    var e := LogReport(id, phase, outcome, xfail);
    assert (events + [e])[..|events|] == events;
  }

  // ---------------------------------------------------------------- order of the hooks

  /** All events of one slot leave the same there. */
  ghost predicate Unanimous(events: seq<Event>) {
    forall d, e :: d in events && e in events && SlotOf(d) == SlotOf(e) ==> EffectOf(d) == EffectOf(e)
  }

  ghost predicate Reordering(a: seq<Event>, b: seq<Event>) {
    multiset(a) == multiset(b)
  }

  lemma {:induction false} LastIsAMember(events: seq<Event>, slot: Slot)
    ensures Last(events, slot).Some? <==> exists e :: e in events && SlotOf(e) == slot
    ensures Last(events, slot).Some? ==> exists e :: e in events && SlotOf(e) == slot && Some(EffectOf(e)) == Last(events, slot)
  {
    hide EffectOf, SlotOf;
    if events != [] {
      var rest, e := events[..|events| - 1], events[|events| - 1];
      assert events == rest + [e];
      LastIsAMember(rest, slot);
      if SlotOf(e) == slot {
        assert e in events;
      }
    }
  }

  lemma SameLast(a: seq<Event>, b: seq<Event>, slot: Slot)
    requires Unanimous(a) && forall e :: e in a <==> e in b
    ensures Last(a, slot) == Last(b, slot)
  {
    hide EffectOf, SlotOf;
    LastIsAMember(a, slot);
    LastIsAMember(b, slot);
  }

  lemma UnanimousIgnoresOrder(a: seq<Event>, b: seq<Event>)
    requires Unanimous(a) && forall e :: e in a <==> e in b
    ensures Run(a) == Run(b)
  {
    RunRemembersTheLast(a);
    RunRemembersTheLast(b);
    forall slot ensures Last(a, slot) == Last(b, slot) {
      SameLast(a, b, slot);
    }
    SameMemories(Run(a), Run(b), a, b);
  }

  function ToTheEnd(events: seq<Event>, k: nat): (r: seq<Event>)
    requires k < |events|
    ensures multiset(r) == multiset(events)
    ensures r != [] && r[|r| - 1] == events[k]
  {
    WithoutAt(events, k);
    Without(events, k) + [events[k]]
  }

  lemma MovedToTheEnd(events: seq<Event>, i: nat, j: nat)
    requires i < |events| && j < |events|
    requires SlotOf(events[i]) == SlotOf(events[j]) && EffectOf(events[i]) != EffectOf(events[j])
    ensures Run(ToTheEnd(events, i)) != Run(ToTheEnd(events, j))
  {
    hide ToTheEnd, Run;
    var a, b := ToTheEnd(events, i), ToTheEnd(events, j);
    RunRemembersTheLast(a);
    RunRemembersTheLast(b);
    var slot := SlotOf(events[i]);
    assert Last(a, slot) == Some(EffectOf(events[i])) && Last(b, slot) == Some(EffectOf(events[j]));
    if slot.Phase? {
      assert Lookup(Run(a).results, slot.nodeid, slot.phase) != Lookup(Run(b).results, slot.nodeid, slot.phase);
    }
  }

  /** A run can be reordered at will exactly when no test phase is reported with two statuses and no two listings differ. */
  lemma OrderIsImmaterialExactly(events: seq<Event>)
    ensures Unanimous(events) <==> forall other :: Reordering(events, other) ==> Run(other) == Run(events)
  {
    hide Run, Unanimous;
    if Unanimous(events) {
      forall other | Reordering(events, other) ensures Run(other) == Run(events) {
        forall e ensures e in events <==> e in other {
          assert e in multiset(events) <==> e in multiset(other);
        }
        UnanimousIgnoresOrder(events, other);
      }
    } else {
      var i, j := Disagreement(events);
      MovedToTheEnd(events, i, j);
      assert Reordering(events, ToTheEnd(events, i)) && Reordering(events, ToTheEnd(events, j));
    }
  }

  lemma Disagreement(events: seq<Event>) returns (i: nat, j: nat)
    requires !Unanimous(events)
    ensures i < |events| && j < |events|
    ensures SlotOf(events[i]) == SlotOf(events[j]) && EffectOf(events[i]) != EffectOf(events[j])
  {
    var d, e :| d in events && e in events && SlotOf(d) == SlotOf(e) && EffectOf(d) != EffectOf(e);
    i :| 0 <= i < |events| && events[i] == d;
    j :| 0 <= j < |events| && events[j] == e;
  }

  /** No test phase is reported twice, and the collection finishes at most once. */
  ghost predicate ReportsOnce(events: seq<Event>) {
    forall i, j :: 0 <= i < j < |events| && SlotOf(events[i]) == SlotOf(events[j]) ==> SlotOf(events[i]) == Nowhere
  }

  /** A run that reports each phase of each test at most once writes the same records in every interleaving. */
  lemma RecordsIgnoreInterleaving(a: seq<Event>, b: seq<Event>)
    requires ReportsOnce(a) && Reordering(a, b)
    ensures RecordsOf(Run(a)) == RecordsOf(Run(b))
  {
    hide RecordsOf;
    assert Unanimous(a) by {
      forall d, e | d in a && e in a && SlotOf(d) == SlotOf(e) ensures EffectOf(d) == EffectOf(e) {
        var i :| 0 <= i < |a| && a[i] == d;
        var j :| 0 <= j < |a| && a[j] == e;
      }
    }
    OrderIsImmaterialExactly(a);
  }

  /** The last report of a test's phase. */
  function LastReport(events: seq<Event>, id: string, phase: string): Option<Event> {
    if events == [] then None
    else
      var e := events[|events| - 1];
      if e.LogReport? && e.nodeid == id && e.phase == phase then Some(e) else LastReport(events[..|events| - 1], id, phase)
  }

  /** Reported as passed, and not as an expected failure. */
  predicate Clean(report: Option<Event>) {
    report.Some? && report.value.LogReport? && report.value.outcome == "passed" && !report.value.xfail
  }

  lemma {:induction false} LastIsOfTheLastReport(events: seq<Event>, id: string, phase: string)
    ensures Last(events, Phase(id, phase)).Some? <==> LastReport(events, id, phase).Some?
    ensures Last(events, Phase(id, phase)) == Some(Reported("passed")) <==> Clean(LastReport(events, id, phase))
  {
    if events != [] {
      LastIsOfTheLastReport(events[..|events| - 1], id, phase);
    }
  }

  /** Setup, call and teardown were last reported a clean pass; no other phase was reported. */
  predicate PhaseIsClean(events: seq<Event>, id: string, phase: string) {
    var report := LastReport(events, id, phase);
    if phase in {"setup", "call", "teardown"} then Clean(report) else report.None?
  }

  /** A test passes exactly when all its phases are clean. */
  lemma PassesExactly(events: seq<Event>, id: string)
    ensures RecordFor(Run(events).results, id).status == "pass" <==> forall phase :: PhaseIsClean(events, id, phase)
    ensures RecordFor(Run(events).results, id).status in {"pass", "not-passed"} && RecordFor(Run(events).results, id).id == id
  {
    hide Run, Last, LastReport, Clean;
    RunRemembersTheLast(events);
    var results := Run(events).results;
    forall phase ensures Lookup(results, id, phase) == Wanted(phase) <==> PhaseIsClean(events, id, phase) {
      LastIsOfTheLastReport(events, id, phase);
      assert Lookup(results, id, phase) == Last(events, Phase(id, phase));
    }
    PhasesMatch(results, id);
    hide Lookup, Phases, Wanted, PhaseIsClean;
  }

  /** What the dictionary of three passes answers to every lookup. */
  function Wanted(phase: string): Option<Effect> {
    if phase in {"setup", "call", "teardown"} then Some(Reported("passed")) else None
  }

  lemma PhasesMatch(results: Results, id: string)
    ensures Phases(results, id) == PHASES <==> forall phase :: Lookup(results, id, phase) == Wanted(phase)
  {
    var phases := Phases(results, id);
    assert forall phase :: Wanted(phase) == if phase in PHASES then Some(Reported(PHASES[phase])) else None;
    assert forall phase :: Lookup(results, id, phase) == if phase in phases then Some(Reported(phases[phase])) else None;
    if forall phase :: Lookup(results, id, phase) == Wanted(phase) {
      forall phase ensures phase in phases <==> phase in PHASES {
        assert Lookup(results, id, phase) == Wanted(phase);
      }
      forall phase | phase in PHASES ensures phases[phase] == PHASES[phase] {
        assert Lookup(results, id, phase) == Wanted(phase);
      }
    }
  }

  // ---------------------------------------------------------------- the pass decision

  /** The decision of `execute` before its own validation. */
  predicate Passed(returncode: int, s: State, before: string, after: string, expected: set<string>) {
    var cases := RecordsOf(s);
    var ids := set k | k in cases :: k.id;
    && returncode == 0 && !s.collectionFailed && cases != []
    && |ids| == |cases| && (forall k :: k in cases ==> k.status == "pass")
    && before == after && ids == expected
  }

  lemma {:induction false} RepeatsLowerTheCount<T>(s: seq<T>)
    ensures |set x | x in s| <= |s|
    ensures |set x | x in s| == |s| ==> Distinct(s)
  {
    if s != [] {
      var rest := s[..|s| - 1];
      RepeatsLowerTheCount(rest);
      var x := s[|s| - 1];
      assert s == rest + [x];
      assert (set y | y in s) == (set y | y in rest) + {x};
      if x in rest {
        assert (set y | y in s) == (set y | y in rest);
      } else if Distinct(rest) {
        DistinctSnoc(rest, x);
      }
    }
  }

  function Names(ids: seq<string>): set<string> {
    set id | id in ids
  }

  lemma IdsOfRecords(s: State)
    ensures Ids(RecordsOf(s)) == s.collected && |RecordsOf(s)| == |s.collected|
    ensures (set k | k in RecordsOf(s) :: k.id) == Names(s.collected)
  {
    var cases := RecordsOf(s);
    forall k | k in cases ensures k.id in s.collected {
      var i :| 0 <= i < |cases| && cases[i] == k;
      assert s.collected[i] == k.id;
    }
    forall id | id in s.collected ensures id in (set k | k in cases :: k.id) {
      var i :| 0 <= i < |s.collected| && s.collected[i] == id;
      assert cases[i] in cases && cases[i].id == id;
    }
  }

  lemma {:induction false} CollectedIsSorted(events: seq<Event>)
    ensures SortedBy(StringLe, Run(events).collected)
  {
    if events != [] {
      CollectedIsSorted(events[..|events| - 1]);
      StringOrder();
      var e := events[|events| - 1];
      if e.Collected? {
        SortSorted(e.items, StringLe);
      }
    }
  }

  lemma SameNames(a: seq<string>, b: seq<string>)
    requires Distinct(b) && SortedBy(StringLe, a) && SortedBy(StringLe, b)
    ensures |Names(a)| == |a| && Names(a) == Names(b) <==> a == b
  {
    DistinctSize(b);
    if |Names(a)| == |a| && Names(a) == Names(b) {
      RepeatsLowerTheCount(a);
      forall x ensures x in a <==> x in b {
        assert x in Names(a) <==> x in Names(b);
      }
      hide Names, StringLe;
      StringOrder();
      DistinctMultiset(a, b);
      SortedUnique(a, b, StringLe);
    }
  }

  /** The decision is exactly what the observation validator asks of the outcome: every frozen case, in order, passing. */
  lemma PassedMeansFrozenCases(returncode: int, events: seq<Event>, before: string, after: string, c: Catalogue)
    requires ValidCatalogue(c)
    ensures Passed(returncode, Run(events), before, after, Names(c.cases))
            <==> returncode == 0 && !Run(events).collectionFailed && before == after && CasesOk(RecordsOf(Run(events)), c)
  {
    hide RecordsOf, Run, Ids, Names, SortStrings;
    IdsOfRecords(Run(events));
    CollectedIsSorted(events);
    FrozenList(c);
    hide ValidCatalogue, StringLe;
    SameNames(Run(events).collected, c.cases);
  }

  lemma FrozenList(c: Catalogue)
    requires ValidCatalogue(c)
    ensures |c.cases| > 0 && Distinct(c.cases) && SortedBy(StringLe, c.cases) && SortStrings(c.cases) == c.cases
  {
    StringOrder();
    SortFixed(c.cases, StringLe);
  }

  // ---------------------------------------------------------------- execute

  /** What `execute` reads from the machine, the clock and git, as the unfinished part of its record. */
  datatype Surroundings = Surroundings(
    startedAt: Time, finishedAt: Time, commit: string, tree: string, dirty: bool, os: string, architecture: string,
    python: string, dependencies: map<string, string>, command: seq<string>, ci: Ci)

  ghost predicate Supported(m: Surroundings) {
    && m.startedAt.utc && m.finishedAt.utc && m.startedAt.instant <= m.finishedAt.instant
    && HexId(m.commit) && HexId(m.tree)
    && Identity(m.architecture) && SupportedPython(m.python) && Cell(m.os, m.python[..4]) in Cells()
    && Pinned(m.dependencies)
    && m.command != [] && (forall a :: a in m.command ==> Identity(a))
    && (forall v :: v in Given(m.ci.runId) + Given(m.ci.runAttempt) + Given(m.ci.job) + Given(m.ci.sha) ==> Identity(v))
  }

  /** What a record says about its surroundings. */
  function SurroundingsOf(o: Observation): Surroundings {
    Surroundings(o.startedAt, o.finishedAt, o.commit, o.tree, o.dirty, o.os, o.architecture, o.python, o.dependencies, o.command,
                 o.ci)
  }

  /** A clean checkout in a CI run that says all about itself, at the commit that is observed. */
  predicate CompleteCi(m: Surroundings) {
    && m.ci.runId.Some? && m.ci.runAttempt.Some? && m.ci.job.Some? && m.ci.sha.Some?
    && m.ci.sha.value == m.commit && !m.dirty
  }

  /** The digests of the category files; `layout` is how they are serialised. */
  function Artifacts(categories: map<string, CategoryRecord>, layout: nat): map<string, Digest> {
    map n | n in categories :: OfFile(File(CategoryDocument(categories[n]), layout))
  }

  function Written(m: Surroundings, s: State, returncode: int, passed: bool, before: string, after: string, c: Catalogue,
                   artifacts: map<string, Digest>): Observation
  {
    var cases := RecordsOf(s);
    Observation(OBSERVATION_SCHEMA, "0.54", m.startedAt, m.finishedAt, m.commit, m.tree, m.dirty, before, after, m.os,
                m.architecture, m.python, m.dependencies, m.command, m.ci, returncode, if passed then "pass" else "fail",
                s.collectionFailed, cases, OfCases(cases), OfCatalogue(c), artifacts)
  }

  /** The conjunction `execute` calls `passed`. */
  method Decide(plugin: Outcomes, cases: seq<Case>, returncode: int, before: string, after: string, expected: set<string>)
    returns (passed: bool)
    requires cases == RecordsOf(plugin.Value())
    ensures passed == Passed(returncode, plugin.Value(), before, after, expected)
  {
    var ids := set k | k in cases :: k.id;
    passed := && returncode == 0 && !plugin.collectionFailed && cases != [] && |ids| == |cases|
              && (forall k :: k in cases ==> k.status == "pass") && before == after && ids == expected;
  }

  /** `execute`, over the events of the pytest session it starts; an invalid catalogue is refused before the session. */
  method Execute(c: Catalogue, m: Surroundings, before: string, after: string, events: seq<Event>, returncode: int, layout: nat)
    returns (code: int, o: Observation, categories: map<string, CategoryRecord>)
    requires ValidCatalogue(c)
    ensures code == 0 <==> && returncode == 0 && !Run(events).collectionFailed && before == after && SourceDigest(before)
                           && CasesOk(RecordsOf(Run(events)), c) && Supported(m)
    ensures code == 0 ==> ObservationOk(o, c, before)
                          && forall n :: n in c.categories ==> n in categories && CategoryOk(categories[n], c, o, n, before)
    ensures code != 0 ==> code == 1 && o.result == "fail"
    ensures categories.Keys == c.categories.Keys
            && forall n :: n in categories ==> categories[n] == CategoryFor(c.categories[n], o.cases, n, before)
    ensures o.cases == RecordsOf(Run(events)) && o.artifacts == Artifacts(categories, layout)
    ensures SurroundingsOf(o) == m && o.returncode == returncode && o.sourceBefore == before && o.sourceAfter == after
    ensures o.result == if code == 0 then "pass" else "fail"
  {
    hide ValidCatalogue, CasesOk, ObservationOk, SourceDigest, Supported, Run, CategoryOk, CategoryFor, Artifacts, Names;
    var plugin := new Outcomes();
    plugin.Session(events);
    var cases := plugin.Records();
    categories := CategoryRecords(c, cases, before);
    ghost var s := plugin.Value();
    var passed := Decide(plugin, cases, returncode, before, after, Names(c.cases));
    PassedMeansFrozenCases(returncode, events, before, after, c);
    var artifacts := Artifacts(categories, layout);
    o := Written(m, State(plugin.collected, plugin.results, plugin.collectionFailed), returncode, passed, before, after, c,
                 artifacts);
    assert artifacts.Keys == c.categories.Keys by { ArtifactNames(categories, layout); }
    Validated(m, s, returncode, before, after, c, artifacts);
    if passed {
      var cell := ValidateObservation(o, c, before);
      if cell.None? {
        passed := false;
        o := o.(result := "fail");
      }
    }
    code := if passed then 0 else 1;
    assert o.artifacts == artifacts;
    if passed {
      CategoriesWritten(o, c, before, categories);
    }
  }

  lemma ArtifactNames(categories: map<string, CategoryRecord>, layout: nat)
    ensures Artifacts(categories, layout).Keys == categories.Keys
  {
  }

  lemma CategoriesWritten(o: Observation, c: Catalogue, source: string, categories: map<string, CategoryRecord>)
    requires ObservationOk(o, c, source) && categories.Keys == c.categories.Keys
    requires forall n :: n in categories ==> categories[n] == CategoryFor(c.categories[n], o.cases, n, source)
    ensures forall n :: n in c.categories ==> CategoryOk(categories[n], c, o, n, source)
  {
    hide ObservationOk, CategoryOk, CategoryFor;
    forall n | n in c.categories ensures CategoryOk(categories[n], c, o, n, source) {
      CategoryAcceptedExactly(categories[n], c, o, n, source);
    }
  }

  lemma Validated(m: Surroundings, s: State, returncode: int, before: string, after: string, c: Catalogue,
                  artifacts: map<string, Digest>)
    requires ValidCatalogue(c) && artifacts.Keys == c.categories.Keys
    ensures returncode == 0 && !s.collectionFailed && before == after && CasesOk(RecordsOf(s), c) ==>
              (ObservationOk(Written(m, s, returncode, true, before, after, c, artifacts), c, before)
               <==> SourceDigest(before) && Supported(m))
  {
    hide ValidCatalogue, CasesOk, Identity, HexId, SourceDigest, RecordsOf, Cells;
  }

  lemma CompleteCiIsOk(m: Surroundings, o: Observation)
    requires SurroundingsOf(o) == m
    ensures CompleteCi(m) <==> CiOk(o)
  {
  }

  /**
   A successful run in a clean checkout with complete CI provenance, written to a directory, is one of the
   honest observations whose aggregate the index verifier accepts.
   */
  lemma ExecutedRunIsHonest(files: Directory, path: string, m: Surroundings, o: Observation, c: Catalogue, source: string,
                            categories: map<string, CategoryRecord>, layout: nat)
    requires SurroundingsOf(o) == m && CompleteCi(m)
    requires ObservationOk(o, c, source) && o.artifacts == Artifacts(categories, layout)
    requires categories.Keys == c.categories.Keys
    requires forall n :: n in categories ==> categories[n] == CategoryFor(c.categories[n], o.cases, n, source)
    requires Relative(path) == Some(path) && path in files && files[path].document == ObservationDocument(o)
    requires forall n :: n in categories ==>
               && Relative(Sibling(path, n)).Some? && Relative(Sibling(path, n)).value in files
               && files[Relative(Sibling(path, n)).value] == File(CategoryDocument(categories[n]), layout)
    ensures AdaptiveIndex.HonestObservation(files, path, c, source)
  {
    hide ObservationOk, Relative, Sibling, CategoryFor, CiOk;
    CompleteCiIsOk(m, o);
    hide SurroundingsOf, CompleteCi;
    AdaptiveIndex.ArtifactKeys(o, c, source);
    forall n | n in c.categories ensures AdaptiveIndex.WrittenBy(files, path, o, c, source, n) {
      assert n in categories;
    }
  }

  // ---------------------------------------------------------------- every accepted observation

  /** A session that reports the three phases of these tests, each passed. */
  function PassingReports(ids: seq<string>): seq<Event> {
    if ids == [] then []
    else
      var id := ids[|ids| - 1];
      PassingReports(ids[..|ids| - 1])
      + [LogReport(id, "setup", "passed", false), LogReport(id, "call", "passed", false),
         LogReport(id, "teardown", "passed", false)]
  }

  lemma RunSnoc(events: seq<Event>, e: Event)
    ensures Run(events + [e]) == Step(Run(events), e)
  {
    assert (events + [e])[..|events|] == events;
  }

  lemma ThreePhases(s: State, id: string)
    requires id !in s.results
    ensures var a := Step(s, LogReport(id, "setup", "passed", false));
            var b := Step(a, LogReport(id, "call", "passed", false));
            Step(b, LogReport(id, "teardown", "passed", false)) == s.(results := s.results[id := PHASES])
  {
    var a := Step(s, LogReport(id, "setup", "passed", false));
    var b := Step(a, LogReport(id, "call", "passed", false));
    assert a.results[id] == map["setup" := "passed"];
    assert b.results[id] == map["setup" := "passed", "call" := "passed"];
  }

  lemma ThreeMore(before: seq<Event>, id: string)
    requires id !in Run(before).results
    ensures Run(before + [LogReport(id, "setup", "passed", false), LogReport(id, "call", "passed", false),
                          LogReport(id, "teardown", "passed", false)])
            == Run(before).(results := Run(before).results[id := PHASES])
  {
    hide Step, Run;
    var x, y, z := LogReport(id, "setup", "passed", false), LogReport(id, "call", "passed", false),
                   LogReport(id, "teardown", "passed", false);
    assert before + [x, y, z] == before + [x] + [y] + [z];
    RunSnoc(before, x);
    RunSnoc(before + [x], y);
    RunSnoc(before + [x] + [y], z);
    ThreePhases(Run(before), id);
  }

  lemma {:induction false} PassingRun(listing: seq<string>, ids: seq<string>)
    requires Distinct(ids)
    ensures Run([Collected(listing)] + PassingReports(ids))
            == State(SortStrings(listing), map id | id in ids :: PHASES, false)
  {
    hide Step, Run, SortStrings;
    if ids == [] {
      assert [Collected(listing)] + PassingReports([]) == [] + [Collected(listing)];
      RunSnoc([], Collected(listing));
      NothingRun();
      CollectedFirst(listing);
    } else {
      var n := |ids| - 1;
      var rest, id := ids[..n], ids[n];
      var before := [Collected(listing)] + PassingReports(rest);
      PassingRun(listing, rest);
      assert ids == rest + [id] && id !in rest;
      ThreeMore(before, id);
      ConcatAssociative([Collected(listing)], PassingReports(rest),
                        [LogReport(id, "setup", "passed", false), LogReport(id, "call", "passed", false),
                         LogReport(id, "teardown", "passed", false)], []);
    }
  }

  lemma NothingRun()
    ensures Run([]) == START
  {
  }

  lemma CollectedFirst(listing: seq<string>)
    ensures Step(START, Collected(listing)) == State(SortStrings(listing), map[], false)
  {
  }

  /** A passing session over the frozen cases. */
  function FrozenSession(c: Catalogue): seq<Event> {
    [Collected(c.cases)] + PassingReports(c.cases)
  }

  lemma FrozenSessionPasses(c: Catalogue, cases: seq<Case>)
    requires ValidCatalogue(c) && CasesOk(cases, c)
    ensures RecordsOf(Run(FrozenSession(c))) == cases && !Run(FrozenSession(c)).collectionFailed
  {
    FrozenList(c);
    PassingRun(c.cases, c.cases);
    var records := RecordsOf(Run(FrozenSession(c)));
    forall i | 0 <= i < |cases| ensures records[i] == cases[i] {
      assert cases[i] in cases && Ids(cases)[i] == cases[i].id == c.cases[i];
      assert c.cases[i] in c.cases;
    }
  }

  /**
   The validator accepts exactly the records that a passing session over the frozen cases leaves in supported surroundings:
   for every accepted observation there is such a run, and every such run is accepted.
   */
  lemma AcceptedExactlyRuns(o: Observation, c: Catalogue, source: string)
    requires ValidCatalogue(c)
    ensures ObservationOk(o, c, source)
            <==> exists events :: && o == Written(SurroundingsOf(o), Run(events), 0, true, source, source, c, o.artifacts)
                                  && Passed(0, Run(events), source, source, Names(c.cases))
                                  && Supported(SurroundingsOf(o)) && SourceDigest(source) && o.artifacts.Keys == c.categories.Keys
  {
    hide ValidCatalogue, Supported, Run, SourceDigest, Passed, Names;
    var m := SurroundingsOf(o);
    if ObservationOk(o, c, source) {
      var events := FrozenSession(c);
      ObservedCases(o, c, source);
      FrozenSessionPasses(c, o.cases);
      PassedMeansFrozenCases(0, events, source, source, c);
      WrittenBack(o, Run(events), c, source);
      Validated(m, Run(events), 0, source, source, c, o.artifacts);
    }
    forall events | o == Written(m, Run(events), 0, true, source, source, c, o.artifacts)
                    && Passed(0, Run(events), source, source, Names(c.cases))
                    && Supported(m) && SourceDigest(source) && o.artifacts.Keys == c.categories.Keys
      ensures ObservationOk(o, c, source)
    {
      PassedMeansFrozenCases(0, events, source, source, c);
      Validated(m, Run(events), 0, source, source, c, o.artifacts);
    }
  }

  lemma WrittenBack(o: Observation, s: State, c: Catalogue, source: string)
    requires ObservationOk(o, c, source) && RecordsOf(s) == o.cases && !s.collectionFailed
    ensures o == Written(SurroundingsOf(o), s, 0, true, source, source, c, o.artifacts)
    ensures o.artifacts.Keys == c.categories.Keys
  {
    hide ValidCatalogue, RecordsOf;
  }
}
