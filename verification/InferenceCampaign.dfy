/**
 A campaign of the 0.55 inference gates: what each gate's process does, the record kept of it, and
 the artifacts `_run_campaign` writes. SHA-256 is injective; documents are typed records.
 */
module InferenceCampaign {
  import opened PyText
  import opened Sorting
  import opened InferenceCollector

  const OPTIONAL := "optional_dependency_matrix"
  const GATES := ["wire_security", "bounded_materialization", "lineage_solver", "target_revision", "durable_definition",
                  OPTIONAL, "differential_fixtures", "race_tests", "full_regression"]
  const DEPENDENCY_NAMES := {"etlantic", "pandas", "polars", "pyarrow", "pytest", "pyspark", "duckdb", "datafusion",
                             "sqlmodel", "ruff", "pyright"}
  const CAMPAIGN_SCHEMA := "etlantic.inference-gate-campaign/1"
  const RESULT_SCHEMA := "etlantic.inference-gate-result/1"

  datatype Digest = Sha256(text: string) | NoDigest(text: string)

  datatype Time = Time(zoned: bool, instant: int)

  /** A reading of `datetime.now(UTC)`. */
  function Utc(instant: int): Time {
    Time(true, instant)
  }

  datatype Environment = Environment(os: string, architecture: string, python: string, dependencies: map<string, Option<string>>)

  datatype Identity = Identity(commit: string, tree: string, dirty: bool)

  /** What a gate's process says about its tests; `NO_METADATA` is what the reader fills in when it says nothing. */
  datatype Metadata = Metadata(counts: Counts, findingTests: seq<FindingCase>)

  const NO_METADATA := Metadata(Counts(0, 0, 0, 0, 0), [])

  /** A line of a gate's output; a marker line carries metadata. */
  datatype Line = Text(text: string) | Marker(metadata: Metadata)

  datatype Completed = Completed(
    started: int, finished: int, lines: seq<Line>, stderr: string, returncode: int, lock: Option<string>)

  datatype GateRecord = GateRecord(
    schema: string,
    phase: string,
    gate: string,
    result: string,
    commit: string,
    tree: string,
    dirty: bool,
    started: Time,
    finished: Time,
    duration: int,
    command: seq<string>,
    lock: Digest,
    findingTests: seq<FindingCase>,
    counts: Counts,
    environment: Environment,
    returncode: int,
    stdoutBytes: int,
    stderrBytes: int,
    stdout: Digest,
    stderr: Digest)

  datatype Campaign = Campaign(
    schema: string,
    phase: string,
    commit: string,
    tree: string,
    dirty: bool,
    started: Time,
    finished: Time,
    requiredGates: seq<string>,
    results: map<string, string>,
    result: string)

  datatype Document = CampaignDocument(campaign: Campaign) | GateDocument(record: GateRecord) | Malformed(text: string)

  type Directory = map<string, Document>

  // ---------------------------------------------------------------- one gate

  /** The pytest arguments of each gate, `GATE_TESTS`. */
  type Selection = string -> seq<string>

  function ActualCommand(gate: string, tests: Selection): seq<string> {
    if gate == "wire_security" || gate == OPTIONAL then ["python", "scripts/check_inference_0_55.py", "--gate", gate]
    else ["python", "-m", "pytest", "-q"] + tests(gate)
  }

  /**
   One execution of a gate: whether the artifacts load and the gate's own checks pass, what is printed before the
   marker, and the pytest session.
   */
  datatype Execution = Execution(
    started: int, finished: int, checksPass: bool, noise: seq<Line>, events: seq<Event>, pytestReturn: int, stderr: string,
    lock: Option<string>)

  function MetadataOf(t: Tally, findings: seq<Finding>): Metadata {
    Metadata(CountsOf(t), CasesFor(t, findings))
  }

  predicate AllPassed(cases: seq<FindingCase>) {
    forall k :: k in cases ==> k.result == "passed"
  }

  /** What is left of a gate's process; an exception ends it with code 1. */
  function Process(gate: string, e: Execution, findings: seq<Finding>, testFiles: set<string>): Completed {
    var own := OfGate(findings, gate);
    var metadata := MetadataOf(Run(e.events), own);
    if !e.checksPass then Completed(e.started, e.finished, e.noise, e.stderr, 1, e.lock)
    else if gate == OPTIONAL then Completed(e.started, e.finished, e.noise, e.stderr, 0, e.lock)
    else if !Named(own, testFiles) then Completed(e.started, e.finished, e.noise, e.stderr, 1, e.lock)
    else Completed(e.started, e.finished, e.noise + [Marker(metadata)], e.stderr,
                   if AllPassed(metadata.findingTests) then e.pytestReturn else 1, e.lock)
  }

  /** `_run_gate_action` and `_run_pytest_gate`, in the process of one gate. */
  method RunGateAction(gate: string, e: Execution, findings: seq<Finding>, testFiles: set<string>) returns (done: Completed)
    ensures done == Process(gate, e, findings, testFiles)
  {
    if !e.checksPass {
      return Completed(e.started, e.finished, e.noise, e.stderr, 1, e.lock);
    }
    if gate == OPTIONAL {
      return Completed(e.started, e.finished, e.noise, e.stderr, 0, e.lock);
    }
    var collector := new OutcomeCollector(findings, gate);
    collector.Session(e.events);
    var results := collector.FindingResults(testFiles);
    if results.None? {
      return Completed(e.started, e.finished, e.noise, e.stderr, 1, e.lock);
    }
    var counts := collector.OutcomeCounts();
    var lines := e.noise + [Marker(Metadata(counts, results.value))];
    if !AllPassed(results.value) {
      return Completed(e.started, e.finished, lines, e.stderr, 1, e.lock);
    }
    return Completed(e.started, e.finished, lines, e.stderr, e.pytestReturn, e.lock);
  }

  function LastMetadata(lines: seq<Line>): Metadata {
    if lines == [] then NO_METADATA
    else
      var line := lines[|lines| - 1];
      if line.Marker? then line.metadata else LastMetadata(lines[..|lines| - 1])
  }

  function Kept(lines: seq<Line>): seq<string> {
    if lines == [] then []
    else
      var line := lines[|lines| - 1];
      Kept(lines[..|lines| - 1]) + if line.Text? then [line.text] else []
  }

  lemma {:induction false} SaidNothing(lines: seq<Line>)
    requires forall line :: line in lines ==> line.Text?
    ensures LastMetadata(lines) == NO_METADATA
  {
    if lines != [] {
      assert lines[|lines| - 1] in lines;
      SaidNothing(lines[..|lines| - 1]);
    }
  }

  /** The last marker line is the one that counts. */
  lemma {:induction false} LastMarkerSpeaks(before: seq<Line>, metadata: Metadata, after: seq<Line>)
    requires forall line :: line in after ==> line.Text?
    ensures LastMetadata(before + [Marker(metadata)] + after) == metadata
  {
    var lines := before + [Marker(metadata)] + after;
    if after != [] {
      var n := |after| - 1;
      assert after[n] in after;
      LastMarkerSpeaks(before, metadata, after[..n]);
      assert lines[..|lines| - 1] == before + [Marker(metadata)] + after[..n];
    }
  }

  lemma {:induction false} KeptConcat(a: seq<Line>, b: seq<Line>)
    ensures Kept(a + b) == Kept(a) + Kept(b)
  {
    if b == [] {
      assert a + b == a;
    } else {
      var n := |b| - 1;
      KeptConcat(a, b[..n]);
      assert (a + b)[..|a + b| - 1] == a + b[..n];
    }
  }

  function Texts(texts: seq<string>): seq<Line> {
    MapSeq((text: string) => Text(text), texts)
  }

  lemma {:induction false} TextsAreKept(texts: seq<string>)
    ensures Kept(Texts(texts)) == texts
  {
    if texts != [] {
      var n := |texts| - 1;
      TextsAreKept(texts[..n]);
      assert Texts(texts)[..n] == Texts(texts[..n]);
    }
  }

  /** A marker line vanishes wherever it stands; the lines around it are kept as they are. */
  lemma MarkerVanishes(before: seq<string>, metadata: Metadata, after: seq<string>)
    ensures Kept(Texts(before) + [Marker(metadata)] + Texts(after)) == before + after
  {
    TextsAreKept(before);
    TextsAreKept(after);
    assert Kept([Marker(metadata)]) == [] by {
      assert [Marker(metadata)][..0] == [];
    }
    KeptConcat(Texts(before), [Marker(metadata)]);
    KeptConcat(Texts(before) + [Marker(metadata)], Texts(after));
  }

  lemma OutputIsRead(lines: seq<Line>)
    ensures forall texts :: lines == Texts(texts) ==> Kept(lines) == texts && LastMetadata(lines) == NO_METADATA
    ensures forall before, metadata, after :: lines == Texts(before) + [Marker(metadata)] + Texts(after) ==>
              Kept(lines) == before + after && LastMetadata(lines) == metadata
  {
    forall texts | lines == Texts(texts) ensures Kept(lines) == texts && LastMetadata(lines) == NO_METADATA {
      TextsAreKept(texts);
      SaidNothing(lines);
    }
    forall before, metadata, after | lines == Texts(before) + [Marker(metadata)] + Texts(after)
      ensures Kept(lines) == before + after && LastMetadata(lines) == metadata
    {
      MarkerVanishes(before, metadata, after);
      LastMarkerSpeaks(Texts(before), metadata, Texts(after));
    }
  }

  /** `_gate_output_metadata`: the last marker line speaks for the gate and no marker line is kept. */
  method GateOutputMetadata(lines: seq<Line>) returns (stdout: string, metadata: Metadata)
    ensures stdout == Join(Kept(lines), "\n") && metadata == LastMetadata(lines)
  {
    var kept: seq<string> := [];
    metadata := NO_METADATA;
    for i := 0 to |lines|
      invariant kept == Kept(lines[..i]) && metadata == LastMetadata(lines[..i])
    {
      assert lines[..i + 1][..i] == lines[..i];
      match lines[i]
      case Marker(m) => metadata := m;
      case Text(text) => kept := kept + [text];
    }
    assert lines[..|lines|] == lines;
    stdout := Join(kept, "\n");
  }

  /** The machine the campaign runs on; a package without a version is not installed. */
  datatype Machine = Machine(os: string, architecture: string, python: string, installed: map<string, string>)

  function EnvironmentOf(m: Machine): Environment {
    Environment(m.os, m.architecture, m.python,
                map n | n in DEPENDENCY_NAMES :: if n in m.installed then Some(m.installed[n]) else None)
  }

  function RecordFor(gate: string, identity: Identity, machine: Machine, tests: Selection, done: Completed): GateRecord {
    var stdout, metadata := Join(Kept(done.lines), "\n"), LastMetadata(done.lines);
    GateRecord(RESULT_SCHEMA, "0.55", gate, if done.returncode == 0 then "pass" else "fail", identity.commit, identity.tree,
               identity.dirty, Utc(done.started), Utc(done.finished), done.finished - done.started, ActualCommand(gate, tests),
               if done.lock.Some? then Sha256(done.lock.value) else NoDigest("unavailable"), metadata.findingTests,
               metadata.counts, EnvironmentOf(machine), done.returncode, |stdout|, |done.stderr|, Sha256(stdout),
               Sha256(done.stderr))
  }

  // ---------------------------------------------------------------- the campaign

  function Artifact(gate: string): string {
    "gates/" + gate + ".json"
  }

  lemma ArtifactsDiffer(a: string, b: string)
    ensures Artifact(a) == Artifact(b) ==> a == b
    ensures Artifact(a) != "index.json"
  {
    assert Artifact(a)[6..|Artifact(a)| - 5] == a && Artifact(b)[6..|Artifact(b)| - 5] == b;
    assert Artifact(a)[0] == 'g';
  }

  /** Every gate's process ended well and the tests it reports passed. */
  predicate GatesPass(gates: seq<string>, runs: map<string, Completed>)
    requires forall g :: g in gates ==> g in runs
  {
    forall g :: g in gates ==> runs[g].returncode == 0 && AllPassed(LastMetadata(runs[g].lines).findingTests)
  }

  function CampaignFor(identity: Identity, started: int, finished: int, runs: map<string, Completed>): Campaign
    requires forall g :: g in GATES ==> g in runs
  {
    Campaign(CAMPAIGN_SCHEMA, "0.55", identity.commit, identity.tree, identity.dirty, Utc(started), Utc(finished), GATES,
             Artifacts(GATES),
             if GatesPass(GATES, runs) && !identity.dirty then "pass" else "fail")
  }

  /** The directory holds the record of each of these gates' runs. */
  ghost predicate Recorded(files: Directory, gates: seq<string>, identity: Identity, machine: Machine, tests: Selection,
                           runs: map<string, Completed>)
    requires forall g :: g in gates ==> g in runs
  {
    forall g :: g in gates ==>
      Artifact(g) in files && files[Artifact(g)] == GateDocument(RecordFor(g, identity, machine, tests, runs[g]))
  }

  /** The directory holds the campaign and, for each gate, the record of its run. */
  ghost predicate Published(files: Directory, identity: Identity, machine: Machine, tests: Selection, started: int, finished: int,
                            runs: map<string, Completed>)
    requires forall g :: g in GATES ==> g in runs
  {
    && "index.json" in files && files["index.json"] == CampaignDocument(CampaignFor(identity, started, finished, runs))
    && Recorded(files, GATES, identity, machine, tests, runs)
  }

  lemma RecordOneMore(files: Directory, gates: seq<string>, g: string, identity: Identity, machine: Machine, tests: Selection,
                      runs: map<string, Completed>)
    requires (forall h :: h in gates + [g] ==> h in runs) && Recorded(files, gates, identity, machine, tests, runs)
    ensures var next := files[Artifact(g) := GateDocument(RecordFor(g, identity, machine, tests, runs[g]))];
            Recorded(next, gates + [g], identity, machine, tests, runs)
  {
    hide RecordFor, Artifact;
    forall h | h in gates + [g] ensures Artifact(h) == Artifact(g) ==> h == g {
      ArtifactsDiffer(h, g);
    }
    assert forall h :: h in gates + [g] <==> h in gates || h == g;
  }

  function Artifacts(gates: seq<string>): map<string, string> {
    map g | g in gates :: Artifact(g)
  }

  /** The loop of `_run_campaign`. */
  method RunGates(gates: seq<string>, identity: Identity, machine: Machine, tests: Selection, runs: map<string, Completed>)
    returns (passed: bool, results: map<string, string>, files: Directory)
    requires forall g :: g in gates ==> g in runs
    ensures passed == GatesPass(gates, runs) && results == Artifacts(gates)
    ensures Recorded(files, gates, identity, machine, tests, runs)
  {
    hide RecordFor, Artifact, Recorded, LastMetadata, Kept, Texts;
    files, results, passed := map[], map[], true;
    NoneRecorded(identity, machine, tests, runs);
    for i := 0 to |gates|
      invariant Recorded(files, gates[..i], identity, machine, tests, runs)
      invariant results == Artifacts(gates[..i])
      invariant passed == GatesPass(gates[..i], runs)
    {
      var gate := gates[i];
      assert gates[..i + 1] == gates[..i] + [gate];
      assert forall g :: g in gates[..i + 1] <==> g in gates[..i] || g == gate;
      var record := GateRecordOf(gate, identity, machine, tests, runs[gate]);
      RecordOneMore(files, gates[..i], gate, identity, machine, tests, runs);
      files := files[Artifact(gate) := GateDocument(record)];
      results := results[gate := Artifact(gate)];
      passed := passed && runs[gate].returncode == 0 && AllPassed(record.findingTests);
    }
    assert gates[..|gates|] == gates;
  }

  lemma NoneRecorded(identity: Identity, machine: Machine, tests: Selection, runs: map<string, Completed>)
    ensures Recorded(map[], [], identity, machine, tests, runs)
  {
  }

  /** `_run_campaign`, over the processes it starts and waits for. */
  method RunCampaign(identity: Identity, machine: Machine, tests: Selection, started: int, finished: int,
                     runs: map<string, Completed>)
    returns (code: int, campaign: Campaign, files: Directory)
    requires forall g :: g in GATES ==> g in runs
    ensures campaign == CampaignFor(identity, started, finished, runs)
    ensures Published(files, identity, machine, tests, started, finished, runs)
    ensures code == (if GatesPass(GATES, runs) && !identity.dirty then 0 else 1)
    ensures campaign.result == (if code == 0 then "pass" else "fail") && campaign.commit == identity.commit
    ensures campaign.tree == identity.tree && campaign.dirty == identity.dirty
    ensures campaign.started.instant == started && campaign.finished.instant == finished
  {
    hide RecordFor, Artifact, Artifacts, GatesPass;
    var passed, results;
    passed, results, files := RunGates(GATES, identity, machine, tests, runs);
    campaign := Campaign(CAMPAIGN_SCHEMA, "0.55", identity.commit, identity.tree, identity.dirty, Utc(started), Utc(finished),
                         GATES, results, if passed && !identity.dirty then "pass" else "fail");
    forall g | g in GATES ensures Artifact(g) != "index.json" {
      ArtifactsDiffer(g, g);
    }
    files := files["index.json" := CampaignDocument(campaign)];
    code := if campaign.result == "pass" then 0 else 1;
  }

  /** `_gate_record`. */
  method GateRecordOf(gate: string, identity: Identity, machine: Machine, tests: Selection, done: Completed)
    returns (record: GateRecord)
    ensures record == RecordFor(gate, identity, machine, tests, done)
    ensures record.result == (if done.returncode == 0 then "pass" else "fail") && record.returncode == done.returncode
    ensures record.lock == if done.lock.Some? then Sha256(done.lock.value) else NoDigest("unavailable")
    ensures record.gate == gate && record.commit == identity.commit && record.tree == identity.tree
            && record.dirty == identity.dirty
    ensures record.started.instant == done.started && record.finished.instant == done.finished
    ensures record.duration == done.finished - done.started
    ensures record.stderr == Sha256(done.stderr) && record.stderrBytes == |done.stderr|
            && record.stdoutBytes == |record.stdout.text|
    ensures record.environment.os == machine.os && record.environment.architecture == machine.architecture
    ensures record.environment.python == machine.python
    ensures record.findingTests == LastMetadata(done.lines).findingTests
    ensures forall texts :: done.lines == Texts(texts) ==>
              record.stdout == Sha256(Join(texts, "\n")) && Metadata(record.counts, record.findingTests) == NO_METADATA
    ensures forall before, metadata, after :: done.lines == Texts(before) + [Marker(metadata)] + Texts(after) ==>
              && record.stdout == Sha256(Join(before + after, "\n"))
              && Metadata(record.counts, record.findingTests) == metadata
  {
    hide Kept, LastMetadata, Texts, ActualCommand;
    var stdout, metadata := GateOutputMetadata(done.lines);
    OutputIsRead(done.lines);
    record := GateRecord(RESULT_SCHEMA, "0.55", gate, if done.returncode == 0 then "pass" else "fail", identity.commit,
                         identity.tree, identity.dirty, Utc(done.started), Utc(done.finished),
                         done.finished - done.started, ActualCommand(gate, tests),
                         if done.lock.Some? then Sha256(done.lock.value) else NoDigest("unavailable"), metadata.findingTests,
                         metadata.counts, EnvironmentOf(machine), done.returncode, |stdout|, |done.stderr|, Sha256(stdout),
                         Sha256(done.stderr));
  }
}
