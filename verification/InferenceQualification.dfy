/**
 What an accepted campaign guarantees about the finding ledger, and the exact conditions under which
 the campaign that has just passed on a clean tree is accepted.
 */
module InferenceQualification {
  import opened PyText
  import opened Sorting
  import opened InferenceCollector
  import opened InferenceCampaign
  import opened InferenceVerifier

  // ---------------------------------------------------------------- what acceptance means

  lemma {:induction false} TestsOfKeys(findings: seq<Finding>)
    ensures TestsOf(findings).Keys == Ids(FindingIds(findings))
  {
    if findings != [] {
      var n := |findings| - 1;
      TestsOfKeys(findings[..n]);
      assert FindingIds(findings) == FindingIds(findings[..n]) + [findings[n].id];
    }
  }

  lemma {:induction false} TestsOfIsATest(findings: seq<Finding>, id: string)
    requires id in TestsOf(findings)
    ensures exists f :: f in findings && f.id == id && TestsOf(findings)[id] == f.test
  {
    var n := |findings| - 1;
    if findings[n].id != id {
      TestsOfIsATest(findings[..n], id);
    }
  }

  lemma IdIn(findings: seq<Finding>, f: Finding)
    requires f in findings
    ensures f.id in Ids(FindingIds(findings))
  {
    var i :| 0 <= i < |findings| && findings[i] == f;
    assert FindingIds(findings)[i] == f.id;
  }

  /** Findings of one gate under one id name one test. */
  ghost predicate Agree(findings: seq<Finding>) {
    forall f, g :: f in findings && g in findings && f.gate == g.gate && f.id == g.id ==> f.test == g.test
  }

  /** Exactly one case carries the finding's id, and it is a passing run of the finding's own test. */
  ghost predicate HasItsCase(cases: seq<FindingCase>, f: Finding) {
    && (exists i :: 0 <= i < |cases| && cases[i] == FindingCase(f.id, f.test, "passed"))
    && (forall i, j :: 0 <= i < |cases| && 0 <= j < |cases| && cases[i].findingId == f.id == cases[j].findingId ==> i == j)
  }

  lemma MatchedCase(cases: seq<FindingCase>, own: seq<Finding>, f: Finding)
    requires CasesMatch(cases, TestsOf(own)) && f in own
    ensures f.id in TestsOf(own)
    ensures HasItsCase(cases, f) <==> TestsOf(own)[f.id] == f.test
  {
    hide TestsOf;
    TestsOfKeys(own);
    IdIn(own, f);
    assert f.id in Ids(CaseIds(cases));
    var i :| 0 <= i < |cases| && CaseIds(cases)[i] == f.id;
    assert cases[i] in cases;
    forall a, b | 0 <= a < |cases| && 0 <= b < |cases| && cases[a].findingId == f.id == cases[b].findingId ensures a == b {
      assert CaseIds(cases)[a] == CaseIds(cases)[b];
    }
    if HasItsCase(cases, f) {
      var j :| 0 <= j < |cases| && cases[j] == FindingCase(f.id, f.test, "passed");
      assert i == j;
    }
  }

  /** Every finding of a gate has its case exactly when the gate's findings agree on the test of each id. */
  lemma GateFindingsCovered(cases: seq<FindingCase>, findings: seq<Finding>, gate: string)
    requires CasesMatch(cases, TestsOf(OfGate(findings, gate)))
    ensures (forall f :: f in findings && f.gate == gate ==> HasItsCase(cases, f))
            <==> (forall f, g :: f in findings && g in findings && f.gate == g.gate == gate && f.id == g.id ==> f.test == g.test)
  {
    hide TestsOf, CasesMatch, HasItsCase, OfGate;
    var own := OfGate(findings, gate);
    OfGateMembers(findings, gate);
    forall f | f in own ensures f.id in TestsOf(own) && (HasItsCase(cases, f) <==> TestsOf(own)[f.id] == f.test) {
      MatchedCase(cases, own, f);
    }
    if forall f, g :: f in findings && g in findings && f.gate == g.gate == gate && f.id == g.id ==> f.test == g.test {
      forall f | f in findings && f.gate == gate ensures HasItsCase(cases, f) {
        assert f in own;
        TestsOfIsATest(own, f.id);
      }
    }
    if forall f :: f in findings && f.gate == gate ==> HasItsCase(cases, f) {
      forall f, g | f in findings && g in findings && f.gate == g.gate == gate && f.id == g.id ensures f.test == g.test {
        assert f in own && g in own;
      }
    }
  }

  ghost predicate Covered(files: Directory, f: Finding) {
    RecordAt(files, f.gate).Some? && HasItsCase(RecordAt(files, f.gate).value.findingTests, f)
  }

  lemma AcceptedGates(files: Directory, m: Manifest, tests: Selection, current: Identity, testFiles: set<string>)
    requires Accepted(files, m, tests, current, testFiles)
    ensures forall g :: g in GATES ==> GateCasesMatch(files, m.findings, g)
    ensures forall f :: f in m.findings ==> f.gate in GATES
  {
    hide Load, HeaderOk, ManifestOk, GateOk, EntryOk, GateCasesMatch;
  }

  /**
   In an accepted campaign every finding of the ledger has exactly one case in its own gate's record,
   a passing run of its own test, if and only if no two findings of a gate share an id and differ in their test.
   */
  lemma AcceptedFindingsCoveredExactly(files: Directory, m: Manifest, tests: Selection, current: Identity, testFiles: set<string>)
    requires Accepted(files, m, tests, current, testFiles)
    ensures (forall f :: f in m.findings ==> Covered(files, f)) <==> Agree(m.findings)
  {
    hide Accepted, TestsOf, OfGate, CasesMatch, HasItsCase, RecordAt;
    AcceptedGates(files, m, tests, current, testFiles);
    forall g | g in GATES
      ensures GateCasesMatch(files, m.findings, g)
      ensures (forall f :: f in m.findings && f.gate == g ==> HasItsCase(RecordAt(files, g).value.findingTests, f))
              <==> (forall f, h :: f in m.findings && h in m.findings && f.gate == h.gate == g && f.id == h.id ==>
                      f.test == h.test)
    {
      GateFindingsCovered(RecordAt(files, g).value.findingTests, m.findings, g);
    }
    hide GATES;
  }

  /** No case of an accepted campaign is made up: each is a passing run of the test of a finding of that gate. */
  lemma AcceptedCasesAreFindings(files: Directory, m: Manifest, tests: Selection, current: Identity, testFiles: set<string>,
                                 gate: string, k: FindingCase)
    requires Accepted(files, m, tests, current, testFiles) && gate in GATES
    requires RecordAt(files, gate).Some? && k in RecordAt(files, gate).value.findingTests
    ensures k.result == "passed" && exists f :: f in m.findings && f.gate == gate && f.id == k.findingId && f.test == k.nodeid
  {
    hide Accepted, TestsOf, OfGate, RecordAt;
    AcceptedGates(files, m, tests, current, testFiles);
    var own := OfGate(m.findings, gate);
    assert GateCasesMatch(files, m.findings, gate);
    TestsOfIsATest(own, k.findingId);
    OfGateMembers(m.findings, gate);
  }

  // ---------------------------------------------------------------- a campaign that has just passed

  ghost predicate MachineReady(machine: Machine) {
    machine.os != "" && machine.architecture != "" && machine.python != "" && EnvironmentRowFree(EnvironmentOf(machine))
  }

  ghost predicate CommandReady(gate: string, tests: Selection) {
    gate == "wire_security" || gate == OPTIONAL || forall item :: item in tests(gate) ==> item != "" && !Leaks(item)
  }

  /** What the gate without pytest says about tests, in marker lines its checks print, satisfies the verifier by itself. */
  ghost predicate SaidOk(said: Metadata, own: seq<Finding>) {
    && CountsOk(said.counts) && (forall k :: k in said.findingTests ==> CaseGiven(k) && CaseRowFree(k))
    && CasesMatch(said.findingTests, TestsOf(own))
  }

  /**
   The clock did not run backwards and the lockfile was readable. Where the gate runs pytest, its findings have distinct
   ids and no more tests were reported than collected; elsewhere what is printed is in order.
   */
  ghost predicate GateReady(gate: string, e: Execution, findings: seq<Finding>) {
    var own, t := OfGate(findings, gate), Run(e.events);
    && e.started <= e.finished && e.lock.Some?
    && if gate == OPTIONAL then SaidOk(LastMetadata(e.noise), own)
       else Distinct(FindingIds(own)) && (t.collected == {} || |Reported(t)| <= |t.collected|)
  }

  /** When it prints no marker line, the gate without pytest must have no finding. */
  lemma SilentGateHasNoFinding(noise: seq<Line>, own: seq<Finding>)
    requires forall line :: line in noise ==> line.Text?
    ensures SaidOk(LastMetadata(noise), own) <==> own == []
  {
    hide TestsOf, CasesMatch, CaseGiven, CaseRowFree, CountsOk, LastMetadata;
    SaidNothing(noise);
    NothingMatchesNothing(own);
    NoCounts();
  }

  function Processes(executions: map<string, Execution>, findings: seq<Finding>, testFiles: set<string>): map<string, Completed> {
    map g | g in executions :: Process(g, executions[g], findings, testFiles)
  }

  /** What a process that ended with code 0 has said about its tests. */
  lemma SaidByProcess(gate: string, e: Execution, findings: seq<Finding>, testFiles: set<string>)
    requires Process(gate, e, findings, testFiles).returncode == 0
    ensures LastMetadata(Process(gate, e, findings, testFiles).lines)
            == if gate == OPTIONAL then LastMetadata(e.noise) else MetadataOf(Run(e.events), OfGate(findings, gate))
  {
    hide Run, OfGate, MetadataOf, Named;
    if gate != OPTIONAL {
      var metadata := MetadataOf(Run(e.events), OfGate(findings, gate));
      var lines := e.noise + [Marker(metadata)];
      assert lines[|lines| - 1] == Marker(metadata);
    }
  }

  /** The cases a gate reports, all passing, match the ledger exactly when the gate's findings have distinct ids. */
  lemma OwnCasesMatchExactly(t: Tally, own: seq<Finding>)
    requires AllPassed(CasesFor(t, own))
    ensures CasesMatch(CasesFor(t, own), TestsOf(own)) <==> Distinct(FindingIds(own))
  {
    hide OutcomeOf, TestsOf;
    var cases := CasesFor(t, own);
    assert CaseIds(cases) == FindingIds(own);
    TestsOfKeys(own);
    if Distinct(FindingIds(own)) {
      forall k | k in cases ensures k.findingId in TestsOf(own) && TestsOf(own)[k.findingId] == k.nodeid && k.result == "passed" {
        var i :| 0 <= i < |cases| && cases[i] == k;
        assert own[i] in own;
        IdIn(own, own[i]);
        TestsOfIsATest(own, own[i].id);
        var f :| f in own && f.id == own[i].id && TestsOf(own)[own[i].id] == f.test;
        var j :| 0 <= j < |own| && own[j] == f;
        assert FindingIds(own)[i] == FindingIds(own)[j];
      }
    }
  }

  lemma NothingMatchesNothing(own: seq<Finding>)
    ensures CasesMatch([], TestsOf(own)) <==> own == []
  {
    hide TestsOf;
    TestsOfKeys(own);
    assert CaseIds([]) == [];
    if own != [] {
      IdIn(own, own[0]);
    } else {
      assert FindingIds(own) == [];
    }
  }

  lemma LetterMissing(s: string, m: string, k: nat)
    requires k < |m| && m[k] !in s
    ensures !Contains(s, m)
  {
    forall i: nat ensures !FoundAt(s, i, m) {
      if FoundAt(s, i, m) {
        CharFound(s, i, m, k);
      }
    }
  }

  lemma NoSlashNoLeak(s: string)
    requires '/' !in s
    ensures !Leaks(s)
  {
    LetterMissing(s, "/Users/", 0);
    LetterMissing(s, "/home/", 0);
    LetterMissing(s, "/tmp/", 0);
    LetterMissing(s, "/var/", 0);
    LetterMissing(s, "/Volumes/", 0);
  }

  /** The cases of well-formed findings carry no empty field and no path. */
  lemma OwnCasesAreClean(t: Tally, findings: seq<Finding>, gate: string, testFiles: set<string>)
    requires forall f :: f in findings ==> FindingOk(f, testFiles)
    requires AllPassed(CasesFor(t, OfGate(findings, gate)))
    ensures forall k :: k in CasesFor(t, OfGate(findings, gate)) ==> CaseGiven(k) && CaseRowFree(k)
  {
    hide OutcomeOf, OfGate, Leaks, NodeId, GATES;
    var own := OfGate(findings, gate);
    var cases := CasesFor(t, own);
    OfGateMembers(findings, gate);
    forall k | k in cases ensures CaseGiven(k) && CaseRowFree(k) {
      var i :| 0 <= i < |cases| && cases[i] == k;
      assert own[i] in own && FindingOk(own[i], testFiles);
      NoSlashNoLeak("passed");
    }
  }

  lemma CountsAreGiven(t: Tally)
    ensures CountsOk(CountsOf(t)) <==> t.collected == {} || |Reported(t)| <= |t.collected|
  {
    ReconcilesExactly(t);
  }

  /** Every refused directory has one of these letters in its name. */
  lemma LettersMissingNoLeak(s: string)
    requires 'U' !in s && 'm' !in s && 'a' !in s
    ensures !Leaks(s)
  {
    LetterMissing(s, "/Users/", 1);
    LetterMissing(s, "/home/", 3);
    LetterMissing(s, "/tmp/", 2);
    LetterMissing(s, "/var/", 2);
    LetterMissing(s, "/Volumes/", 5);
  }

  lemma ScriptDoesNotLeak()
    ensures !Leaks("scripts/check_inference_0_55.py")
  {
    hide *;
    LettersMissingNoLeak("scripts/check_inference_0_55.py");
  }

  lemma OptionalDoesNotLeak()
    ensures !Leaks(OPTIONAL)
  {
    NoSlashNoLeak(OPTIONAL);
  }

  /** The command words the script writes itself carry no path it would refuse. */
  lemma FixedWordsDoNotLeak()
    ensures !Leaks("python") && !Leaks("scripts/check_inference_0_55.py") && !Leaks("--gate") && !Leaks("wire_security")
    ensures !Leaks(OPTIONAL) && !Leaks("-m") && !Leaks("pytest") && !Leaks("-q")
  {
    hide *;
    NoSlashNoLeak("python");
    NoSlashNoLeak("--gate");
    NoSlashNoLeak("wire_security");
    OptionalDoesNotLeak();
    NoSlashNoLeak("-m");
    NoSlashNoLeak("pytest");
    NoSlashNoLeak("-q");
    ScriptDoesNotLeak();
  }

  lemma CommandIsReady(gate: string, tests: Selection)
    ensures CommandOk(ActualCommand(gate, tests), gate, tests) && CommandRowFree(ActualCommand(gate, tests))
            <==> CommandReady(gate, tests)
  {
    hide Leaks;
    var command := ActualCommand(gate, tests);
    FixedWordsDoNotLeak();
    if gate == "wire_security" || gate == OPTIONAL {
      assert forall item :: item in command <==> item in {"python", "scripts/check_inference_0_55.py", "--gate", gate};
    } else {
      assert forall item :: item in command <==> item in {"python", "-m", "pytest", "-q"} || item in tests(gate);
    }
  }

  /** One gate of a passing campaign: its record is accepted exactly when the gate was ready. */
  lemma GateAcceptedExactly(gate: string, e: Execution, findings: seq<Finding>, testFiles: set<string>, identity: Identity,
                            machine: Machine, tests: Selection)
    requires forall f :: f in findings ==> FindingOk(f, testFiles)
    requires IsCommit(identity.commit) && IsCommit(identity.tree) && !identity.dirty
    requires var done := Process(gate, e, findings, testFiles);
             done.returncode == 0 && AllPassed(LastMetadata(done.lines).findingTests)
    ensures var r := RecordFor(gate, identity, machine, tests, Process(gate, e, findings, testFiles));
            RowFree(GateDocument(r)) && RecordOk(r, gate, tests, identity.commit, identity.tree)
            && CasesMatch(r.findingTests, TestsOf(OfGate(findings, gate)))
            <==> MachineReady(machine) && CommandReady(gate, tests) && GateReady(gate, e, findings)
  {
    hide Process, Run, OfGate, MetadataOf, FindingOk, LastMetadata, CommandOk, CountsOk, CasesMatch, TestsOf, EnvironmentRowFree,
         CommandReady, CommandRowFree, CaseGiven, CaseRowFree, CountsOf, CasesFor, IsCommit, Distinct, FindingIds,
         ActualCommand, Kept, Reported;
    var done := Process(gate, e, findings, testFiles);
    var t, own := Run(e.events), OfGate(findings, gate);
    SaidByProcess(gate, e, findings, testFiles);
    assert done.started == e.started && done.finished == e.finished && done.lock == e.lock by {
      ProcessTimes(gate, e, findings, testFiles);
    }
    CommandIsReady(gate, tests);
    if gate == OPTIONAL {
      assert LastMetadata(done.lines) == LastMetadata(e.noise);
    } else {
      assert MetadataOf(t, own) == Metadata(CountsOf(t), CasesFor(t, own)) by { MetadataIs(t, own); }
      OwnCasesAreClean(t, findings, gate, testFiles);
      OwnCasesMatchExactly(t, own);
      CountsAreGiven(t);
    }
  }

  lemma ProcessTimes(gate: string, e: Execution, findings: seq<Finding>, testFiles: set<string>)
    ensures var done := Process(gate, e, findings, testFiles);
            done.started == e.started && done.finished == e.finished && done.lock == e.lock
  {
  }

  lemma NoCounts()
    ensures CountsOk(NO_METADATA.counts)
  {
  }

  lemma MetadataIs(t: Tally, own: seq<Finding>)
    ensures MetadataOf(t, own) == Metadata(CountsOf(t), CasesFor(t, own))
  {
  }

  /** All the gates of a passing campaign were ready, and its findings are well formed. */
  ghost predicate CampaignReady(identity: Identity, machine: Machine, tests: Selection, started: int, finished: int,
                                executions: map<string, Execution>, m: Manifest, testFiles: set<string>)
    requires forall g :: g in GATES ==> g in executions
  {
    && IsCommit(identity.commit) && IsCommit(identity.tree) && started <= finished
    && MachineReady(machine) && (forall g :: g in GATES ==> CommandReady(g, tests))
    && (forall g :: g in GATES ==> GateReady(g, executions[g], m.findings))
    && ManifestOk(m, testFiles)
  }

  lemma LoadedGate(files: Directory, identity: Identity, machine: Machine, tests: Selection, runs: map<string, Completed>,
                   gates: seq<string>, g: string)
    requires (forall h :: h in gates ==> h in runs) && Recorded(files, gates, identity, machine, tests, runs) && g in gates
    ensures var r := RecordFor(g, identity, machine, tests, runs[g]);
            Load(files, Artifact(g)) == if RowFree(GateDocument(r)) then Some(GateDocument(r)) else None
  {
    hide RecordFor, Artifact, RowFree;
  }

  lemma GateVerdict(files: Directory, c: Campaign, identity: Identity, machine: Machine, tests: Selection,
                    runs: map<string, Completed>, gates: seq<string>, g: string, findings: seq<Finding>)
    requires (forall h :: h in gates ==> h in runs) && Recorded(files, gates, identity, machine, tests, runs) && g in gates
    requires c.results == Artifacts(gates) && c.commit == identity.commit && c.tree == identity.tree
    ensures var r := RecordFor(g, identity, machine, tests, runs[g]);
            GateOk(files, c, g, tests) && GateCasesMatch(files, findings, g)
            <==> RowFree(GateDocument(r)) && RecordOk(r, g, tests, identity.commit, identity.tree)
                 && CasesMatch(r.findingTests, TestsOf(OfGate(findings, g)))
  {
    hide RecordFor, Artifact, RowFree, RecordOk, CasesMatch, TestsOf, OfGate, Load, Recorded;
    LoadedGate(files, identity, machine, tests, runs, gates, g);
  }

  lemma StripArtifact(gate: string)
    ensures RemoveSuffix(RemovePrefix(Artifact(gate), "gates/"), ".json") == gate
  {
    var path := Artifact(gate);
    assert path[..6] == "gates/";
    assert path[6..] == gate + ".json";
    assert (gate + ".json")[|gate|..] == ".json" && (gate + ".json")[..|gate|] == gate;
  }

  /** With every gate accepted, so is every capability that names a gate's artifact. */
  lemma EntriesFollow(files: Directory, c: Campaign, tests: Selection, m: Manifest, testFiles: set<string>)
    requires ManifestOk(m, testFiles) && forall g :: g in GATES ==> GateOk(files, c, g, tests)
    ensures forall e :: e in m.entries ==> EntryOk(files, e)
    ensures Placed(m.findings, GATES, testFiles)
  {
    hide Artifact, RemovePrefix, RemoveSuffix, Load, NodeId, Leaks;
    forall e | e in m.entries ensures EntryOk(files, e) {
      var g :| g in GATES && e.evidence == Artifact(g);
      assert GateOk(files, c, g, tests);
      StripArtifact(g);
    }
  }

  lemma HeaderAcceptedExactly(identity: Identity, started: int, finished: int, runs: map<string, Completed>, current: Identity)
    requires (forall g :: g in GATES ==> g in runs) && GatesPass(GATES, runs) && !identity.dirty
    ensures HeaderOk(CampaignFor(identity, started, finished, runs), current)
            <==> started <= finished && IsCommit(identity.commit) && IsCommit(identity.tree) && current == identity
  {
    GatesAre();
    hide IsCommit, GatesPass;
    assert Artifacts(GATES).Keys == Ids(GATES) by { ArtifactKeys(GATES); }
    hide Artifacts, Ids;
  }

  lemma ArtifactKeys(gates: seq<string>)
    ensures Artifacts(gates).Keys == Ids(gates)
  {
  }

  /** The gates of a passing campaign at a proper commit are all accepted exactly when all were ready. */
  lemma GatesAcceptedExactly(files: Directory, c: Campaign, identity: Identity, machine: Machine, tests: Selection,
                             executions: map<string, Execution>, gates: seq<string>, findings: seq<Finding>,
                             testFiles: set<string>)
    requires (forall f :: f in findings ==> FindingOk(f, testFiles)) && forall g :: g in gates ==> g in executions
    requires IsCommit(identity.commit) && IsCommit(identity.tree) && !identity.dirty && gates != []
    requires c.results == Artifacts(gates) && c.commit == identity.commit && c.tree == identity.tree
    requires var runs := Processes(executions, findings, testFiles);
             GatesPass(gates, runs) && Recorded(files, gates, identity, machine, tests, runs)
    ensures (forall g :: g in gates ==> GateOk(files, c, g, tests) && GateCasesMatch(files, findings, g))
            <==> MachineReady(machine)
                 && (forall g :: g in gates ==> CommandReady(g, tests) && GateReady(g, executions[g], findings))
  {
    hide FindingOk, IsCommit, Recorded, Process, LastMetadata, AllPassed, RecordFor, RowFree, RecordOk, CasesMatch, TestsOf,
         OfGate, MachineReady, CommandReady, GateReady, GateOk, GateCasesMatch, Artifacts;
    var runs := Processes(executions, findings, testFiles);
    forall g | g in gates
      ensures GateOk(files, c, g, tests) && GateCasesMatch(files, findings, g)
              <==> MachineReady(machine) && CommandReady(g, tests) && GateReady(g, executions[g], findings)
    {
      assert runs[g] == Process(g, executions[g], findings, testFiles);
      GateVerdict(files, c, identity, machine, tests, runs, gates, g, findings);
      GateAcceptedExactly(g, executions[g], findings, testFiles, identity, machine, tests);
    }
    assert gates[0] in gates;
  }

  /**
   A campaign that passed on a clean tree is accepted exactly when it is verified at the same clean revision, the
   manifest is valid, the clock never ran backwards, the machine names itself, the lockfile was readable, no gate
   has two findings of one id, no gate reported more tests than it collected, and the gate without pytest, where it prints
   no marker line, has no finding.
   */
  lemma PassingCampaignAcceptedExactly(files: Directory, identity: Identity, machine: Machine, tests: Selection, started: int,
                                       finished: int, executions: map<string, Execution>, m: Manifest, current: Identity,
                                       testFiles: set<string>)
    requires forall g :: g in GATES ==> g in executions
    requires var runs := Processes(executions, m.findings, testFiles);
             GatesPass(GATES, runs) && Published(files, identity, machine, tests, started, finished, runs)
    requires !identity.dirty
    ensures Accepted(files, m, tests, current, testFiles)
            <==> current == identity && CampaignReady(identity, machine, tests, started, finished, executions, m, testFiles)
  {
    hide HeaderOk, ManifestOk, Recorded, Process, GatesPass, MachineReady, CommandReady, GateReady, GateOk, GateCasesMatch,
         EntryOk, IsCommit, Artifacts, Placed, FindingOk;
    var runs := Processes(executions, m.findings, testFiles);
    var c := CampaignFor(identity, started, finished, runs);
    HeaderAcceptedExactly(identity, started, finished, runs, current);
    assert Load(files, "index.json") == Some(CampaignDocument(c));
    if ManifestOk(m, testFiles) && IsCommit(identity.commit) && IsCommit(identity.tree) {
      assert forall f :: f in m.findings ==> FindingOk(f, testFiles) by { FindingsAreOk(m, testFiles); }
      GatesAcceptedExactly(files, c, identity, machine, tests, executions, GATES, m.findings, testFiles);
      if forall g :: g in GATES ==> GateOk(files, c, g, tests) {
        EntriesFollow(files, c, tests, m, testFiles);
      }
    }
  }

  lemma FindingsAreOk(m: Manifest, testFiles: set<string>)
    requires ManifestOk(m, testFiles)
    ensures forall f :: f in m.findings ==> FindingOk(f, testFiles)
  {
  }

  // ---------------------------------------------------------------- what a gate's success and an accepted record say

  /**
   A gate's process ends with code 1 when its own checks fail, or when a finding of the gate has no valid test that was
   collected, ran to an end, and never failed or was skipped; otherwise with pytest's code, and without pytest with 0.
   */
  lemma GateSucceedsExactly(gate: string, e: Execution, findings: seq<Finding>, testFiles: set<string>)
    ensures Process(gate, e, findings, testFiles).returncode
            == if !e.checksPass then 1
               else if gate == "optional_dependency_matrix" then 0
               else if forall f :: f in findings && f.gate == gate ==> NodeId(f, testFiles).Some? && TestPasses(e.events, f.test)
               then e.pytestReturn
               else 1
  {
    hide Run, OfGate, NodeId, LastMetadata, CountsOf, TestPasses;
    var own := OfGate(findings, gate);
    OfGateMembers(findings, gate);
    var t := Run(e.events);
    forall f: Finding ensures OutcomeOf(t, f.test) == "passed" <==> TestPasses(e.events, f.test) {
      PassesAsReported(e.events, f.test);
    }
    hide OutcomeOf;
    AllPassedExactly(t, own);
    assert MetadataOf(t, own) == Metadata(CountsOf(t), CasesFor(t, own));
    hide CasesFor, AllPassed;
  }

  /** In terms of the session's reports. */
  ghost predicate TestPasses(events: seq<Event>, nodeid: string) {
    && nodeid in LastListing(events)
    && (forall e :: e in events && e.Report? && e.nodeid == nodeid ==> e.outcome != "failed" && e.outcome != "skipped")
    && (exists e :: e in events && e.Report? && e.nodeid == nodeid && (e.phase == "call" || e.phase == "teardown"))
  }

  lemma PassesAsReported(events: seq<Event>, nodeid: string)
    ensures OutcomeOf(Run(events), nodeid) == "passed" <==> TestPasses(events, nodeid)
  {
    hide Run, LastListing, OutcomeOf;
    PassesExactly(events, nodeid);
    if TestPasses(events, nodeid) {
      forall e | e in events && Node(e) == nodeid ensures !Fails(e) && !Skips(e) {
      }
    }
  }

  lemma AllPassedExactly(t: Tally, own: seq<Finding>)
    ensures AllPassed(CasesFor(t, own)) <==> forall f :: f in own ==> OutcomeOf(t, f.test) == "passed"
  {
    hide OutcomeOf;
    var cases := CasesFor(t, own);
    if AllPassed(cases) {
      forall f | f in own ensures OutcomeOf(t, f.test) == "passed" {
        var i :| 0 <= i < |own| && own[i] == f;
        assert cases[i] in cases;
      }
    }
    if forall f :: f in own ==> OutcomeOf(t, f.test) == "passed" {
      forall k | k in cases ensures k.result == "passed" {
        var i :| 0 <= i < |cases| && cases[i] == k;
        assert own[i] in own;
      }
    }
  }

  /** The numbers of a record that the verifier only asks to be non-negative. */
  function WithNumbers(r: GateRecord, duration: int, stdoutBytes: int, stderrBytes: int): GateRecord {
    r.(duration := duration, stdoutBytes := stdoutBytes, stderrBytes := stderrBytes)
  }

  /** A run that ended well on a machine that says what it is, and reported reconciled counts and complete cases. */
  ghost predicate WellRun(machine: Machine, done: Completed) {
    && machine.os != "" && machine.architecture != "" && machine.python != ""
    && done.returncode == 0 && done.started <= done.finished && done.lock.Some?
    && CountsOk(LastMetadata(done.lines).counts) && forall k :: k in LastMetadata(done.lines).findingTests ==> CaseGiven(k)
  }

  /**
   The verifier accepts exactly the records of such runs of the gate at the evaluated revision, except that it cannot tell
   how long the run took and how many bytes it wrote.
   */
  lemma AcceptedRecordIsARun(r: GateRecord, gate: string, tests: Selection, commit: string, tree: string)
    requires IsCommit(commit) && IsCommit(tree) && forall item :: item in ActualCommand(gate, tests) ==> item != ""
    ensures RecordOk(r, gate, tests, commit, tree)
            <==> && r.duration >= 0 && r.stdoutBytes >= 0 && r.stderrBytes >= 0
                 && exists machine, done :: WellRun(machine, done)
                      && r == WithNumbers(RecordFor(gate, Identity(commit, tree, false), machine, tests, done), r.duration,
                                          r.stdoutBytes, r.stderrBytes)
  {
    hide IsCommit, CountsOk, CaseGiven;
    if RecordOk(r, gate, tests, commit, tree) {
      var done := RunOf(r);
      var machine := MachineOf(r.environment);
      RunRead(r);
      MachineRead(r.environment);
      hide EnvironmentOf, Kept, LastMetadata, RunOf, MachineOf;
      assert WellRun(machine, done);
      assert r == WithNumbers(RecordFor(gate, Identity(commit, tree, false), machine, tests, done), r.duration, r.stdoutBytes,
                              r.stderrBytes);
    }
    hide Kept, LastMetadata;
  }

  /** A run that leaves what the record says. */
  function RunOf(r: GateRecord): Completed {
    Completed(r.started.instant, r.finished.instant,
              [Text(r.stdout.text), Line.Marker(Metadata(r.counts, r.findingTests))], r.stderr.text, 0, Some(r.lock.text))
  }

  function MachineOf(e: Environment): Machine {
    Machine(e.os, e.architecture, e.python,
            map n | n in e.dependencies && e.dependencies[n].Some? :: e.dependencies[n].value)
  }

  lemma RunRead(r: GateRecord)
    ensures Join(Kept(RunOf(r).lines), "\n") == r.stdout.text
    ensures LastMetadata(RunOf(r).lines) == Metadata(r.counts, r.findingTests)
    ensures RunOf(r).started == r.started.instant && RunOf(r).finished == r.finished.instant && RunOf(r).returncode == 0
    ensures RunOf(r).stderr == r.stderr.text && RunOf(r).lock == Some(r.lock.text)
  {
    var lines := RunOf(r).lines;
    assert lines[..1] == [Text(r.stdout.text)] && lines[..1][..0] == [];
    assert Kept(lines[..1]) == [r.stdout.text];
    assert Kept(lines) == [r.stdout.text] + [];
  }

  lemma MachineRead(e: Environment)
    requires e.dependencies.Keys == DEPENDENCY_NAMES
    ensures EnvironmentOf(MachineOf(e)) == e
    ensures MachineOf(e).os == e.os && MachineOf(e).architecture == e.architecture && MachineOf(e).python == e.python
  {
    assert EnvironmentOf(MachineOf(e)).dependencies == e.dependencies;
  }

  // ---------------------------------------------------------------- a passing campaign that is refused

  const AUDIT := Finding("P1", "a.py::test_a", "race_tests")
  const LEDGER := Manifest([AUDIT], [Entry("races", Artifact("race_tests"))], ["P1"], true)
  const TEST_FILES := {"a.py"}
  const HEAD := Identity(seq(40, _ => 'a'), seq(40, _ => 'b'), false)
  const RUNNER := Machine("Linux", "x86_64", "3.12.0", map[])
  const WHOLE_SUITE: Selection := gate => []

  /** A gate's process that collects and passes the one test; the lockfile is readable or not. */
  function Quiet(lock: Option<string>): Execution {
    Execution(0, 1, true, [], [Collected([AUDIT.test]), Report(AUDIT.test, "call", "passed")], 0, "", lock)
  }

  function QuietRuns(lock: Option<string>): map<string, Completed> {
    Processes(map g | g in GATES :: Quiet(lock), LEDGER.findings, TEST_FILES)
  }

  lemma {:induction false} CutAt(file: string, name: string)
    requires ':' !in file
    ensures Cut(file + "::" + name) == Some((file, name))
  {
    var test := file + "::" + name;
    if file == "" {
      assert test[2..] == name;
    } else {
      assert file[0] in file && test[0] == file[0];
      assert test[1..] == file[1..] + "::" + name;
      CutAt(file[1..], name);
      assert [file[0]] + file[1..] == file;
    }
  }

  lemma AuditIsNamed()
    ensures NodeId(AUDIT, TEST_FILES).Some?
  {
    hide Cut;
    assert AUDIT.test == "a.py" + "::" + "test_a";
    assert ':' !in "a.py";
    CutAt("a.py", "test_a");
  }

  lemma AuditDoesNotLeak()
    ensures !Leaks("P1") && !Leaks("a.py::test_a")
  {
    hide *;
    NoSlashNoLeak("P1");
    NoSlashNoLeak("a.py::test_a");
  }

  lemma AuditIsOk()
    ensures FindingOk(AUDIT, TEST_FILES)
  {
    hide NodeId, Leaks;
    AuditIsNamed();
    AuditDoesNotLeak();
  }

  lemma QuietTally(lock: Option<string>)
    ensures Run(Quiet(lock).events) == Tally({AUDIT.test}, map[AUDIT.test := "passed"], {}, {})
  {
    var events := Quiet(lock).events;
    assert events[..1] == [Collected([AUDIT.test])] && events[..1][..0] == [];
    assert Run(events[..1]) == Tally({AUDIT.test}, map[], {}, {});
  }

  lemma OwnFinding(gate: string)
    ensures OfGate(LEDGER.findings, gate) == if gate == "race_tests" then [AUDIT] else []
  {
    assert LEDGER.findings[1..] == [];
  }

  lemma QuietCases(gate: string, lock: Option<string>)
    ensures var own := OfGate(LEDGER.findings, gate);
            Named(own, TEST_FILES) && AllPassed(CasesFor(Run(Quiet(lock).events), own))
  {
    hide Run, OfGate, NodeId;
    OwnFinding(gate);
    QuietTally(lock);
    AuditIsNamed();
  }

  lemma QuietGatePasses(gate: string, lock: Option<string>)
    ensures var done := Process(gate, Quiet(lock), LEDGER.findings, TEST_FILES);
            done.returncode == 0 && AllPassed(LastMetadata(done.lines).findingTests)
  {
    hide Run, OfGate, Named, CasesFor, CountsOf, LEDGER;
    QuietCases(gate, lock);
    assert LastMetadata([]) == NO_METADATA;
  }

  lemma QuietGateReady(gate: string, lock: Option<string>)
    ensures GateReady(gate, Quiet(lock), LEDGER.findings) <==> lock.Some?
  {
    hide Run, OfGate, SaidOk;
    OwnFinding(gate);
    QuietTally(lock);
    SilentGateHasNoFinding([], []);
  }

  lemma QuietMachine()
    ensures MachineReady(RUNNER)
  {
    hide Leaks;
    NoSlashNoLeak("Linux");
    NoSlashNoLeak("x86_64");
    NoSlashNoLeak("3.12.0");
  }

  lemma QuietLedger()
    ensures ManifestOk(LEDGER, TEST_FILES)
  {
    hide FindingOk;
    AuditIsOk();
    assert FindingIds(LEDGER.findings) == ["P1"];
  }

  /**
   The conditions are needed: this campaign passes on a clean tree, and the verifier accepts what it wrote exactly when
   the lockfile could be read, which nothing in the campaign's own verdict looks at.
   */
  lemma UnreadableLockIsRefused(files: Directory, lock: Option<string>)
    requires Published(files, HEAD, RUNNER, WHOLE_SUITE, 0, 1, QuietRuns(lock))
    ensures GatesPass(GATES, QuietRuns(lock)) && !HEAD.dirty
    ensures Accepted(files, LEDGER, WHOLE_SUITE, HEAD, TEST_FILES) <==> lock.Some?
  {
    hide Accepted, Process, GateReady, ManifestOk, MachineReady, Published, LEDGER, Quiet, RUNNER, TEST_FILES, Leaks;
    var executions := map g | g in GATES :: Quiet(lock);
    forall g | g in GATES
      ensures QuietRuns(lock)[g].returncode == 0 && AllPassed(LastMetadata(QuietRuns(lock)[g].lines).findingTests)
      ensures (GateReady(g, executions[g], LEDGER.findings) <==> lock.Some?) && CommandReady(g, WHOLE_SUITE)
    {
      assert executions[g] == Quiet(lock);
      QuietGatePasses(g, lock);
      QuietGateReady(g, lock);
    }
    assert "race_tests" in GATES;
    hide GATES, CommandReady;
    QuietMachine();
    QuietLedger();
    QuietHead();
    PassingCampaignAcceptedExactly(files, HEAD, RUNNER, WHOLE_SUITE, 0, 1, executions, LEDGER, HEAD, TEST_FILES);
  }

  lemma QuietHead()
    ensures IsCommit(HEAD.commit) && IsCommit(HEAD.tree) && !HEAD.dirty
  {
  }

  /** A finding that comes into the ledger under the audited one's id, in front of it. */
  const HIDDEN := Finding("P1", "a.py::test_b", "race_tests")
  const GROWN := LEDGER.(findings := [HIDDEN, AUDIT])

  lemma HiddenIsNamed()
    ensures NodeId(HIDDEN, TEST_FILES).Some?
  {
    hide Cut;
    assert HIDDEN.test == "a.py" + "::" + "test_b";
    assert ':' !in "a.py";
    CutAt("a.py", "test_b");
  }

  lemma HiddenIsOk()
    ensures FindingOk(HIDDEN, TEST_FILES) && HIDDEN.test != AUDIT.test
  {
    hide NodeId, Leaks;
    HiddenIsNamed();
    AuditDoesNotLeak();
    NoSlashNoLeak("a.py::test_b");
    assert HIDDEN.test[|HIDDEN.test| - 1] != AUDIT.test[|AUDIT.test| - 1];
  }

  lemma TestsOfOne(gate: string)
    ensures TestsOf(OfGate(LEDGER.findings, gate)) == if gate == "race_tests" then map["P1" := AUDIT.test] else map[]
  {
    assert LEDGER.findings == [] + [AUDIT];
    ExpectOneMore([], AUDIT, gate);
    hide OfGate, TestsOf;
    NothingExpected();
  }

  /** The later finding's test stands for both. */
  lemma GrownTests(gate: string)
    ensures TestsOf(OfGate(GROWN.findings, gate)) == TestsOf(OfGate(LEDGER.findings, gate))
            == if gate == "race_tests" then map["P1" := AUDIT.test] else map[]
  {
    TestsOfOne(gate);
    assert GROWN.findings == [HIDDEN] + [AUDIT] && [HIDDEN] == [] + [HIDDEN];
    ExpectOneMore([], HIDDEN, gate);
    ExpectOneMore([HIDDEN], AUDIT, gate);
    hide OfGate, TestsOf;
    NothingExpected();
  }

  lemma GrownLedger()
    ensures ManifestOk(GROWN, TEST_FILES) && Placed(GROWN.findings, GATES, TEST_FILES)
    ensures ManifestOk(LEDGER, TEST_FILES) && Placed(LEDGER.findings, GATES, TEST_FILES)
  {
    hide NodeId, Leaks;
    AuditIsOk();
    HiddenIsOk();
    assert FindingIds(GROWN.findings) == ["P1", "P1"] && FindingIds(LEDGER.findings) == ["P1"];
  }

  lemma ArtifactsAlike(files: Directory, c: Campaign, gates: seq<string>, tests: Selection, m: Manifest, n: Manifest,
                       testFiles: set<string>)
    requires m.entries == n.entries && Placed(m.findings, gates, testFiles) && Placed(n.findings, gates, testFiles)
    requires forall g :: GateCasesMatch(files, m.findings, g) <==> GateCasesMatch(files, n.findings, g)
    ensures ArtifactsOk(files, c, gates, tests, m, testFiles) <==> ArtifactsOk(files, c, gates, tests, n, testFiles)
  {
    hide GateCasesMatch, Placed, GateOk, EntryOk;
  }

  lemma GrownCases(files: Directory, gate: string)
    ensures GateCasesMatch(files, GROWN.findings, gate) <==> GateCasesMatch(files, LEDGER.findings, gate)
  {
    GrownTests(gate);
    hide RecordAt, CasesMatch, OfGate, TestsOf, GROWN, LEDGER;
  }

  lemma GrownArtifacts(files: Directory, c: Campaign, tests: Selection)
    ensures ArtifactsOk(files, c, GATES, tests, GROWN, TEST_FILES) <==> ArtifactsOk(files, c, GATES, tests, LEDGER, TEST_FILES)
  {
    hide GateCasesMatch, Placed, ArtifactsOk, GATES, TEST_FILES;
    assert GROWN.entries == LEDGER.entries;
    hide GROWN, LEDGER;
    forall g ensures GateCasesMatch(files, GROWN.findings, g) <==> GateCasesMatch(files, LEDGER.findings, g) {
      GrownCases(files, g);
    }
    GrownLedger();
    ArtifactsAlike(files, c, GATES, tests, GROWN, LEDGER, TEST_FILES);
  }

  lemma GrownIsAcceptedAlike(files: Directory)
    ensures Accepted(files, GROWN, WHOLE_SUITE, HEAD, TEST_FILES) <==> Accepted(files, LEDGER, WHOLE_SUITE, HEAD, TEST_FILES)
  {
    hide ManifestOk, Placed, Load, HeaderOk, ArtifactsOk, GATES, HEAD, WHOLE_SUITE, TEST_FILES, GROWN, LEDGER;
    GrownLedger();
    var d := Load(files, "index.json");
    if d.Some? && d.value.CampaignDocument? {
      GrownArtifacts(files, d.value.campaign, WHOLE_SUITE);
    }
  }

  /**
   The condition on shared ids is needed too: what this campaign wrote is accepted for the grown ledger, although no case
   covers the finding in front.
   */
  lemma SharedIdHidesAFinding(files: Directory, lock: Option<string>)
    requires Published(files, HEAD, RUNNER, WHOLE_SUITE, 0, 1, QuietRuns(lock)) && lock.Some?
    ensures Accepted(files, GROWN, WHOLE_SUITE, HEAD, TEST_FILES)
    ensures HIDDEN in GROWN.findings && !Covered(files, HIDDEN)
  {
    UnreadableLockIsRefused(files, lock);
    GrownIsAcceptedAlike(files);
    hide Published, Accepted, TestsOf, OfGate, CasesMatch, HasItsCase, RecordAt, TEST_FILES, HEAD, WHOLE_SUITE;
    AcceptedGates(files, GROWN, WHOLE_SUITE, HEAD, TEST_FILES);
    assert GateCasesMatch(files, GROWN.findings, "race_tests");
    GrownTests("race_tests");
    HiddenIsOk();
    OfGateMembers(GROWN.findings, "race_tests");
    MatchedCase(RecordAt(files, "race_tests").value.findingTests, OfGate(GROWN.findings, "race_tests"), HIDDEN);
  }

  /** The same campaign, run and verified with the ledger it ran for and with the grown one. */
  method RunAndVerify(lock: Option<string>) returns (code: int, accepted: bool, grown: bool)
    ensures code == 0 && (accepted <==> lock.Some?) && (grown <==> lock.Some?)
  {
    hide Accepted, Published, GatesPass, QuietRuns;
    var campaign, files;
    assert forall g :: g in GATES ==> g in QuietRuns(lock) by { QuietRunsAll(lock); }
    code, campaign, files := RunCampaign(HEAD, RUNNER, WHOLE_SUITE, 0, 1, QuietRuns(lock));
    UnreadableLockIsRefused(files, lock);
    GrownIsAcceptedAlike(files);
    accepted := VerifyCampaign(files, LEDGER, WHOLE_SUITE, HEAD, TEST_FILES);
    grown := VerifyCampaign(files, GROWN, WHOLE_SUITE, HEAD, TEST_FILES);
  }

  lemma QuietRunsAll(lock: Option<string>)
    ensures forall g :: g in GATES ==> g in QuietRuns(lock)
  {
  }
}
