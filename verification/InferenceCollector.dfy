/**
 The pytest plugin of the 0.55 inference gates: it tallies the outcome of every test, reports the
 outcome of the tests the finding ledger names, and counts. A session is any sequence of hook calls.
 */
module InferenceCollector {
  import opened PyText
  import opened Sorting

  datatype Finding = Finding(id: string, test: string, gate: string)

  datatype FindingCase = FindingCase(findingId: string, nodeid: string, result: string)

  datatype Counts = Counts(collected: int, passed: int, failed: int, skipped: int, notRun: int)

  datatype Event = Collected(items: seq<string>) | Report(nodeid: string, phase: string, outcome: string)

  datatype Tally = Tally(collected: set<string>, outcomes: map<string, string>, failed: set<string>, skipped: set<string>)

  const NOTHING := Tally({}, map[], {}, {})

  function Members(items: seq<string>): set<string> {
    set i | i in items
  }

  function Step(t: Tally, e: Event): Tally {
    match e
    case Collected(items) => t.(collected := Members(items))
    case Report(nodeid, phase, outcome) =>
      if outcome == "failed" then t.(failed := t.failed + {nodeid})
      else if outcome == "skipped" then t.(skipped := t.skipped + {nodeid})
      else if phase in {"call", "teardown"} then t.(outcomes := t.outcomes[nodeid := "passed"])
      else t
  }

  function Run(events: seq<Event>): Tally {
    if events == [] then NOTHING else Step(Run(events[..|events| - 1]), events[|events| - 1])
  }

  function OutcomeOf(t: Tally, nodeid: string): string {
    if nodeid !in t.collected then "not-collected"
    else if nodeid in t.failed then "failed"
    else if nodeid in t.skipped then "skipped"
    else if nodeid in t.outcomes then t.outcomes[nodeid]
    else "not-run"
  }

  // ---------------------------------------------------------------- the ledger's tests

  /** The text before and after the first `::`. */
  function Cut(test: string): Option<(string, string)> {
    if |test| < 2 then None
    else if test[..2] == "::" then Some(("", test[2..]))
    else match Cut(test[1..])
      case None => None
      case Some((file, name)) => Some(([test[0]] + file, name))
  }

  /** `_finding_test_nodeid`; `testFiles` are the texts naming a Python file below the root, without `..`. */
  function NodeId(f: Finding, testFiles: set<string>): Option<string> {
    match Cut(f.test)
    case None => None
    case Some((file, name)) => if file in testFiles && StartsWith(name, "test_") then Some(f.test) else None
  }

  lemma {:induction false} CutExactly(test: string, file: string, name: string)
    ensures Cut(test) == Some((file, name)) <==> test == file + "::" + name && !Contains(file + ":", "::")
  {
    if |test| < 2 {
    } else if test[..2] == "::" {
      CutAtOnce(test, file, name);
    } else {
      CutLater(test, file, name);
      CutStep(test, file, name);
      if file != "" {
        CutExactly(test[1..], file[1..], name);
      }
    }
  }

  lemma CutStep(test: string, file: string, name: string)
    requires |test| >= 2 && test[..2] != "::"
    ensures Cut(test) == Some((file, name))
            <==> file != "" && file[0] == test[0] && Cut(test[1..]) == Some((file[1..], name))
  {
    assert file != "" ==> file == [file[0]] + file[1..];
    if Cut(test[1..]).Some? {
      var (front, back) := Cut(test[1..]).value;
      assert ([test[0]] + front)[1..] == front;
    }
  }

  lemma CutAtOnce(test: string, file: string, name: string)
    requires |test| >= 2 && test[..2] == "::"
    ensures test == file + "::" + name && !Contains(file + ":", "::") <==> file == "" && name == test[2..]
  {
    if test == file + "::" + name && file != "" {
      assert (file + ":")[..2] == test[..2];
      assert FoundAt(file + ":", 0, "::");
    }
    if file == "" && name == test[2..] {
      assert test == test[..2] + test[2..];
      assert |file + ":"| == 1;
    }
  }

  lemma CutLater(test: string, file: string, name: string)
    requires |test| >= 2 && test[..2] != "::"
    ensures test == file + "::" + name && !Contains(file + ":", "::")
            <==> file != "" && file[0] == test[0] && test[1..] == file[1..] + "::" + name && !Contains(file[1..] + ":", "::")
  {
    assert file == "" ==> (file + "::" + name)[..2] == "::";
    if file != "" && test == file + "::" + name {
      assert test[0] == file[0] && test[1..] == file[1..] + "::" + name;
    }
    if file != "" && file[0] == test[0] && test[1..] == file[1..] + "::" + name {
      assert test == [test[0]] + test[1..] && file == [file[0]] + file[1..];
      assert test == file + "::" + name;
      TailContains(file, test, name);
    }
    if file != "" && test == file + "::" + name {
      TailContains(file, test, name);
    }
  }

  lemma TailContains(file: string, test: string, name: string)
    requires file != "" && test == file + "::" + name && test[..2] != "::"
    ensures Contains(file + ":", "::") <==> Contains(file[1..] + ":", "::")
  {
    var whole, tail := file + ":", file[1..] + ":";
    assert whole == [file[0]] + tail;
    assert whole[..2] == test[..2];
    forall i: nat ensures FoundAt(whole, i + 1, "::") <==> FoundAt(tail, i, "::") {
      assert i + 3 <= |whole| ==> whole[i + 1..i + 3] == tail[i..i + 2];
    }
    if Contains(whole, "::") {
      var i :| 0 <= i <= |whole| - 2 && FoundAt(whole, i, "::");
      assert i != 0 && FoundAt(tail, i - 1, "::");
    }
    if Contains(tail, "::") {
      var i :| 0 <= i <= |tail| - 2 && FoundAt(tail, i, "::");
      assert FoundAt(whole, i + 1, "::");
    }
  }

  /** A finding has a valid test when the text in front of its first `::` names a test file and the rest begins with `test_`. */
  lemma NodeIdExactly(f: Finding, testFiles: set<string>)
    ensures NodeId(f, testFiles).Some?
            <==> exists file, name :: f.test == file + "::" + name && !Contains(file + ":", "::") && file in testFiles
                                      && |name| >= 5 && name[..5] == "test_"
  {
    hide Cut;
    forall file, name ensures Cut(f.test) == Some((file, name)) <==> f.test == file + "::" + name && !Contains(file + ":", "::") {
      CutExactly(f.test, file, name);
    }
  }

  function OfGate(findings: seq<Finding>, gate: string): seq<Finding> {
    if findings == [] then []
    else (if findings[0].gate == gate then [findings[0]] else []) + OfGate(findings[1..], gate)
  }

  function CaseFor(t: Tally, f: Finding): FindingCase {
    FindingCase(f.id, f.test, OutcomeOf(t, f.test))
  }

  function CasesFor(t: Tally, findings: seq<Finding>): seq<FindingCase> {
    MapSeq((f: Finding) => CaseFor(t, f), findings)
  }

  predicate Named(findings: seq<Finding>, testFiles: set<string>) {
    forall f :: f in findings ==> NodeId(f, testFiles).Some?
  }

  function Reported(t: Tally): set<string> {
    t.failed + t.skipped + t.outcomes.Keys
  }

  /** `sum(counts[key] for key in count_keys[1:]) == counts[count_keys[0]]`. */
  predicate Reconciles(c: Counts) {
    c.passed + c.failed + c.skipped + c.notRun == c.collected
  }

  function Larger(a: int, b: int): int {
    if a < b then b else a
  }

  function CountsOf(t: Tally): Counts {
    var failed, skipped := |t.failed|, |t.skipped - t.failed|;
    var passed := |t.outcomes.Keys - t.failed - t.skipped|;
    var collected := |if t.collected != {} then t.collected else Reported(t)|;
    Counts(collected, passed, failed, skipped, Larger(0, collected - (passed + failed + skipped)))
  }

  class OutcomeCollector {
    const findings: seq<Finding>
    var outcomes: map<string, string>
    var collected: set<string>
    var failed: set<string>
    var skipped: set<string>

    ghost function Value(): Tally
      reads this
    {
      Tally(collected, outcomes, failed, skipped)
    }

    constructor (all: seq<Finding>, gate: string)
      ensures Value() == NOTHING && findings == OfGate(all, gate)
    {
      findings := OfGate(all, gate);
      outcomes, collected, failed, skipped := map[], {}, {}, {};
    }

    method CollectionFinish(items: seq<string>)
      modifies this
      ensures Value() == Step(old(Value()), Collected(items))
    {
      collected := Members(items);
    }

    method RuntestLogReport(nodeid: string, phase: string, outcome: string)
      modifies this
      ensures Value() == Step(old(Value()), Report(nodeid, phase, outcome))
    {
      if outcome == "failed" {
        failed := failed + {nodeid};
      } else if outcome == "skipped" {
        skipped := skipped + {nodeid};
      } else if phase in {"call", "teardown"} {
        outcomes := outcomes[nodeid := "passed"];
      }
    }

    method Session(events: seq<Event>)
      requires Value() == NOTHING
      modifies this
      ensures Value() == Run(events)
    {
      for i := 0 to |events|
        invariant Value() == Run(events[..i])
      {
        assert events[..i + 1][..i] == events[..i];
        match events[i]
        case Collected(items) => CollectionFinish(items);
        case Report(nodeid, phase, outcome) => RuntestLogReport(nodeid, phase, outcome);
      }
      assert events[..|events|] == events;
    }

    /** One case for each finding of the gate, in ledger order; a finding without a valid test is an error. */
    method FindingResults(testFiles: set<string>) returns (results: Option<seq<FindingCase>>)
      ensures results.Some? <==> Named(findings, testFiles)
      ensures results.Some? ==> results.value == CasesFor(Value(), findings)
    {
      hide NodeId;
      var cases: seq<FindingCase> := [];
      for i := 0 to |findings|
        invariant Named(findings[..i], testFiles) && cases == CasesFor(Value(), findings)[..i]
      {
        var nodeid := NodeId(findings[i], testFiles);
        if nodeid.None? {
          return None;
        }
        NodeIdIsTest(findings[i], testFiles);
        var outcome := "not-run";
        if nodeid.value !in collected {
          outcome := "not-collected";
        } else if nodeid.value in failed {
          outcome := "failed";
        } else if nodeid.value in skipped {
          outcome := "skipped";
        } else if nodeid.value in outcomes {
          outcome := outcomes[nodeid.value];
        }
        cases := cases + [FindingCase(findings[i].id, nodeid.value, outcome)];
      }
      return Some(cases);
    }

    /** The counts partition what was reported, and satisfy the verifier unless more was reported than collected. */
    method OutcomeCounts() returns (counts: Counts)
      ensures counts == CountsOf(Value())
      ensures counts.passed + counts.failed + counts.skipped == |Reported(Value())|
      ensures counts.collected == if collected != {} then |collected| else |Reported(Value())|
      ensures Reported(Value()) <= collected ==> counts.notRun == |collected - Reported(Value())|
      ensures Reconciles(counts) <==> collected == {} || |Reported(Value())| <= |collected|
    {
      CountsPartition(Value());
      ReconcilesExactly(Value());
      if Reported(Value()) <= collected {
        NotRunIsTheRest(Value());
      }
      var nFailed, nSkipped := |failed|, |skipped - failed|;
      var nPassed := |outcomes.Keys - failed - skipped|;
      var nCollected := |if collected != {} then collected else failed + skipped + outcomes.Keys|;
      counts := Counts(nCollected, nPassed, nFailed, nSkipped, Larger(0, nCollected - (nPassed + nFailed + nSkipped)));
    }
  }

  lemma NodeIdIsTest(f: Finding, testFiles: set<string>)
    requires NodeId(f, testFiles).Some?
    ensures NodeId(f, testFiles).value == f.test
  {
  }

  // ---------------------------------------------------------------- what a session tallies

  function Node(e: Event): string {
    match e case Collected(_) => "" case Report(nodeid, _, _) => nodeid
  }

  predicate Fails(e: Event) {
    e.Report? && e.outcome == "failed"
  }

  predicate Skips(e: Event) {
    e.Report? && e.outcome == "skipped"
  }

  predicate Ends(e: Event) {
    e.Report? && e.outcome != "failed" && e.outcome != "skipped" && e.phase in {"call", "teardown"}
  }

  function NodesWhere(events: seq<Event>, p: Event -> bool): set<string> {
    set e | e in events && p(e) :: Node(e)
  }

  function LastListing(events: seq<Event>): set<string> {
    if events == [] then {}
    else
      var e := events[|events| - 1];
      if e.Collected? then Members(e.items) else LastListing(events[..|events| - 1])
  }

  lemma NodesSnoc(events: seq<Event>, e: Event, p: Event -> bool)
    ensures NodesWhere(events + [e], p) == NodesWhere(events, p) + if p(e) then {Node(e)} else {}
  {
    assert forall x :: x in events + [e] <==> x in events || x == e;
    assert e in events + [e];
  }

  ghost predicate Tallies(t: Tally, events: seq<Event>) {
    && t.collected == LastListing(events)
    && t.failed == NodesWhere(events, Fails) && t.skipped == NodesWhere(events, Skips)
    && t.outcomes.Keys == NodesWhere(events, Ends) && (forall id :: id in t.outcomes ==> t.outcomes[id] == "passed")
  }

  lemma StepTallies(t: Tally, events: seq<Event>, e: Event)
    requires Tallies(t, events)
    ensures Tallies(Step(t, e), events + [e])
  {
    hide Members;
    assert LastListing(events + [e]) == if e.Collected? then Members(e.items) else LastListing(events) by {
      assert (events + [e])[..|events|] == events;
    }
    hide LastListing;
    StepNodes(events, e);
    hide NodesWhere;
  }

  lemma StepNodes(events: seq<Event>, e: Event)
    ensures Fails(e) ==> NodesWhere(events + [e], Fails) == NodesWhere(events, Fails) + {Node(e)}
    ensures !Fails(e) ==> NodesWhere(events + [e], Fails) == NodesWhere(events, Fails)
    ensures Skips(e) ==> NodesWhere(events + [e], Skips) == NodesWhere(events, Skips) + {Node(e)}
    ensures !Skips(e) ==> NodesWhere(events + [e], Skips) == NodesWhere(events, Skips)
    ensures Ends(e) ==> NodesWhere(events + [e], Ends) == NodesWhere(events, Ends) + {Node(e)}
    ensures !Ends(e) ==> NodesWhere(events + [e], Ends) == NodesWhere(events, Ends)
  {
    hide NodesWhere, Fails, Skips, Ends;
    NodesSnoc(events, e, Fails);
    NodesSnoc(events, e, Skips);
    NodesSnoc(events, e, Ends);
  }

  /** The tally is the last listing and three sets: which tests ever failed, were ever skipped, and ever ended otherwise. */
  lemma {:induction false} RunTallies(events: seq<Event>)
    ensures Tallies(Run(events), events)
  {
    if events != [] {
      hide Step, Tallies;
      var rest := events[..|events| - 1];
      RunTallies(rest);
      StepTallies(Run(rest), rest, events[|events| - 1]);
      assert events == rest + [events[|events| - 1]];
    }
  }

  lemma SameNodes(a: seq<Event>, b: seq<Event>, p: Event -> bool)
    requires forall e :: e in a <==> e in b
    ensures NodesWhere(a, p) == NodesWhere(b, p)
  {
  }

  /** Reports commute and repeat without effect: two sessions with the same events and the same last listing tally alike. */
  lemma ReportsCommute(a: seq<Event>, b: seq<Event>)
    requires (forall e :: e in a <==> e in b) && LastListing(a) == LastListing(b)
    ensures Run(a) == Run(b)
  {
    RunTallies(a);
    RunTallies(b);
    SameNodes(a, b, Fails);
    SameNodes(a, b, Skips);
    SameNodes(a, b, Ends);
  }

  lemma NodeMember(events: seq<Event>, p: Event -> bool, nodeid: string)
    ensures nodeid in NodesWhere(events, p) <==> exists e :: e in events && p(e) && Node(e) == nodeid
  {
  }

  /** A finding's test passes exactly when it was collected, ran to an end, and never failed or was skipped. */
  lemma PassesExactly(events: seq<Event>, nodeid: string)
    ensures OutcomeOf(Run(events), nodeid) == "passed"
            <==> && nodeid in LastListing(events)
                 && (forall e :: e in events && Node(e) == nodeid ==> !Fails(e) && !Skips(e))
                 && (exists e :: e in events && Node(e) == nodeid && Ends(e))
  {
    hide Run, NodesWhere, LastListing;
    RunTallies(events);
    NodeMember(events, Fails, nodeid);
    NodeMember(events, Skips, nodeid);
    NodeMember(events, Ends, nodeid);
  }

  /** What is said about a test: the worst of its reports, if it was collected at all. */
  lemma OutcomeExactly(events: seq<Event>, nodeid: string)
    ensures OutcomeOf(Run(events), nodeid)
            == if nodeid !in LastListing(events) then "not-collected"
               else if exists e :: e in events && e.Report? && e.nodeid == nodeid && e.outcome == "failed" then "failed"
               else if exists e :: e in events && e.Report? && e.nodeid == nodeid && e.outcome == "skipped" then "skipped"
               else if exists e :: e in events && e.Report? && e.nodeid == nodeid && e.phase in {"call", "teardown"} then "passed"
               else "not-run"
  {
    hide Run, NodesWhere, LastListing;
    RunTallies(events);
    NodeMember(events, Fails, nodeid);
    NodeMember(events, Skips, nodeid);
    NodeMember(events, Ends, nodeid);
  }

  /** A test that failed stays failed whatever is reported later. */
  lemma OnceFailedNeverPassed(events: seq<Event>, later: seq<Event>, e: Event)
    requires e in events && Fails(e)
    ensures var t := Run(events + later);
            OutcomeOf(t, e.nodeid) in {"failed", "not-collected"} && e.nodeid !in t.outcomes.Keys - t.failed - t.skipped
  {
    hide Run;
    RunTallies(events + later);
    assert e in events + later;
    NodeMember(events + later, Fails, e.nodeid);
  }

  // ---------------------------------------------------------------- the counts

  lemma ThreeParts<T>(a: set<T>, b: set<T>, c: set<T>)
    ensures |a| + |b - a| + |c - a - b| == |a + b + c|
  {
    assert |a + (b - a)| == |a| + |b - a|;
    assert a + (b - a) == a + b;
    assert |(a + b) + (c - a - b)| == |a + b| + |c - a - b|;
    assert (a + b) + (c - a - b) == a + b + c;
  }

  lemma CountsPartition(t: Tally)
    ensures var c := CountsOf(t); c.passed + c.failed + c.skipped == |Reported(t)|
    ensures var c := CountsOf(t); c.notRun == Larger(0, c.collected - |Reported(t)|)
    ensures t.collected != {} ==> CountsOf(t).collected == |t.collected|
    ensures t.collected == {} ==> CountsOf(t).collected == |Reported(t)|
  {
    ThreeParts(t.failed, t.skipped, t.outcomes.Keys);
  }

  /** What the counts count: tests that ever failed, were skipped but never failed, and ended without either. */
  lemma CountsNameTheTests(events: seq<Event>)
    ensures var c := CountsOf(Run(events));
            var failed, skipped, ended := NodesWhere(events, Fails), NodesWhere(events, Skips), NodesWhere(events, Ends);
            c.failed == |failed| && c.skipped == |skipped - failed| && c.passed == |ended - failed - skipped|
  {
    hide Run, NodesWhere;
    RunTallies(events);
  }

  /** The verifier's reconciliation holds exactly when no more tests were reported than collected, or none was collected. */
  lemma ReconcilesExactly(t: Tally)
    ensures Reconciles(CountsOf(t)) <==> t.collected == {} || |Reported(t)| <= |t.collected|
  {
    hide CountsOf, Reported;
    CountsPartition(t);
  }

  lemma ReportedWithin(events: seq<Event>)
    requires forall e :: e in events && e.Report? ==> e.nodeid in LastListing(events)
    ensures Reported(Run(events)) <= Run(events).collected
  {
    hide Run, LastListing;
    RunTallies(events);
  }

  lemma NotRunIsTheRest(t: Tally)
    requires Reported(t) <= t.collected
    ensures Reconciles(CountsOf(t)) && CountsOf(t).notRun == |t.collected - Reported(t)|
  {
    hide CountsOf, Reported;
    SubsetSize(Reported(t), t.collected);
    CountsPartition(t);
    ReconcilesExactly(t);
    ThreeParts(Reported(t), t.collected, {});
    assert Reported(t) + t.collected + {} == t.collected;
    assert {} - Reported(t) - t.collected == {};
  }

  /** A session that reports only tests it collected reconciles, and `not_run` counts the collected tests nobody reported. */
  lemma CollectedReportsReconcile(events: seq<Event>)
    requires forall e :: e in events && e.Report? ==> e.nodeid in LastListing(events)
    ensures var t := Run(events);
            Reconciles(CountsOf(t)) && Reported(t) <= t.collected && CountsOf(t).notRun == |t.collected - Reported(t)|
  {
    hide Run, CountsOf, Reported;
    ReportedWithin(events);
    NotRunIsTheRest(Run(events));
  }
}
