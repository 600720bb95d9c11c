/** The verifier of a gate campaign: which campaigns, gate records, finding ledgers and capability entries it accepts. */
module InferenceVerifier {
  import opened PyText
  import opened Sorting
  import opened InferenceCollector
  import opened InferenceCampaign

  datatype Entry = Entry(surface: string, evidence: string)

  /**
   The manifest, ledger and capability matrix that come with the script. `rest` says that their other
   checks hold, which read neither the campaign nor the fields below.
   */
  datatype Manifest = Manifest(findings: seq<Finding>, entries: seq<Entry>, requiredFindings: seq<string>, rest: bool)

  // ---------------------------------------------------------------- loading

  ghost predicate Leaks(text: string) {
    exists m :: m in {"/Users/", "/home/", "/tmp/", "/var/", "/Volumes/"} && Contains(text, m)
  }

  ghost predicate CaseRowFree(k: FindingCase) {
    !Leaks(k.findingId) && !Leaks(k.nodeid) && !Leaks(k.result)
  }

  ghost predicate EnvironmentRowFree(e: Environment) {
    && !Leaks(e.os) && !Leaks(e.architecture) && !Leaks(e.python)
    && forall n :: n in e.dependencies && e.dependencies[n].Some? ==> !Leaks(e.dependencies[n].value)
  }

  ghost predicate CommandRowFree(command: seq<string>) {
    forall item :: item in command ==> !Leaks(item)
  }

  /** The scan for absolute paths, on the strings of a record that no other check compares with fixed texts. */
  ghost predicate RowFree(d: Document) {
    d.GateDocument? ==>
      && EnvironmentRowFree(d.record.environment) && CommandRowFree(d.record.command)
      && forall k :: k in d.record.findingTests ==> CaseRowFree(k)
  }

  /** `_load`: a document that is an object and free of row data. */
  ghost function Load(files: Directory, path: string): (d: Option<Document>)
    ensures d.Some? ==> path in files && d.value == files[path] && !d.value.Malformed?
  {
    if path in files && !files[path].Malformed? && RowFree(files[path]) then Some(files[path]) else None
  }

  /** The test on one string of `_check_row_free`. */
  method CheckText(text: string) returns (ok: bool)
    ensures ok <==> !Leaks(text)
  {
    var markers := ["/Users/", "/home/", "/tmp/", "/var/", "/Volumes/"];
    for i := 0 to |markers|
      invariant forall m :: m in markers[..i] ==> !Contains(text, m)
    {
      hide Contains;
      if Contains(text, markers[i]) {
        MarkerIsRefused(markers[i]);
        return false;
      }
    }
    assert markers[..|markers|] == markers;
    return true;
  }

  lemma MarkerIsRefused(m: string)
    requires m in ["/Users/", "/home/", "/tmp/", "/var/", "/Volumes/"]
    ensures m in {"/Users/", "/home/", "/tmp/", "/var/", "/Volumes/"}
  {
  }

  method CheckTexts(texts: seq<string>) returns (ok: bool)
    ensures ok <==> forall text :: text in texts ==> !Leaks(text)
  {
    hide Leaks;
    for i := 0 to |texts|
      invariant forall text :: text in texts[..i] ==> !Leaks(text)
    {
      var free := CheckText(texts[i]);
      if !free {
        assert texts[i] in texts;
        return false;
      }
    }
    assert texts[..|texts|] == texts;
    return true;
  }

  method CheckVersions(dependencies: map<string, Option<string>>) returns (ok: bool)
    ensures ok <==> forall n :: n in dependencies && dependencies[n].Some? ==> !Leaks(dependencies[n].value)
  {
    hide Leaks;
    var pending := dependencies.Keys;
    while pending != {}
      invariant pending <= dependencies.Keys
      invariant forall n :: n in dependencies.Keys - pending && dependencies[n].Some? ==> !Leaks(dependencies[n].value)
      decreases pending
    {
      var n :| n in pending;
      if dependencies[n].Some? {
        var free := CheckText(dependencies[n].value);
        if !free {
          return false;
        }
      }
      pending := pending - {n};
    }
    return true;
  }

  method CheckCases(cases: seq<FindingCase>) returns (ok: bool)
    ensures ok <==> forall k :: k in cases ==> CaseRowFree(k)
  {
    hide Leaks;
    for i := 0 to |cases|
      invariant forall k :: k in cases[..i] ==> CaseRowFree(k)
    {
      assert cases[i] in cases;
      var texts := [cases[i].findingId, cases[i].nodeid, cases[i].result];
      assert forall text :: text in texts <==> text in {cases[i].findingId, cases[i].nodeid, cases[i].result};
      var free := CheckTexts(texts);
      if !free {
        return false;
      }
    }
    assert cases[..|cases|] == cases;
    return true;
  }

  /** `_load` for the documents of a campaign. */
  method LoadDocument(files: Directory, path: string) returns (d: Option<Document>)
    ensures d == Load(files, path)
  {
    hide CaseRowFree, Leaks;
    if path !in files || files[path].Malformed? {
      return None;
    }
    if files[path].GateDocument? {
      var record := files[path].record;
      var texts := [record.environment.os, record.environment.architecture, record.environment.python];
      assert forall text :: text in texts
                            <==> text in {record.environment.os, record.environment.architecture, record.environment.python};
      var environment := CheckTexts(texts);
      var versions := CheckVersions(record.environment.dependencies);
      var command := CheckTexts(record.command);
      var cases := CheckCases(record.findingTests);
      if !environment || !versions || !command || !cases {
        return None;
      }
    }
    return Some(files[path]);
  }

  // ---------------------------------------------------------------- one gate record

  ghost predicate IsCommit(s: string) {
    |s| == 40 && Hexadecimal(s)
  }

  /** Git identities are exactly the hexadecimal texts of 20 bytes. */
  lemma CommitsAreHex(s: string)
    ensures IsCommit(s) <==> exists bytes :: Octets(bytes, 20) && s == Hex(bytes)
  {
    HexadecimalExactly(s, 20);
  }

  ghost predicate Ordered(started: Time, finished: Time) {
    started.zoned && finished.zoned && started.instant <= finished.instant
  }

  ghost predicate CountsOk(c: Counts) {
    && c.collected >= 0 && c.passed >= 0 && c.failed >= 0 && c.skipped >= 0 && c.notRun >= 0
    && Reconciles(c)
  }

  ghost predicate CaseGiven(k: FindingCase) {
    k.findingId != "" && k.nodeid != "" && k.result != ""
  }

  ghost predicate EnvironmentOk(e: Environment) {
    && e.os != "" && e.architecture != "" && e.python != ""
    && e.dependencies.Keys == {"etlantic", "pandas", "polars", "pyarrow", "pytest", "pyspark", "duckdb", "datafusion", "sqlmodel",
                               "ruff", "pyright"}
  }

  ghost predicate CommandOk(command: seq<string>, gate: string, tests: Selection) {
    && (forall item :: item in command ==> item != "")
    && command == if gate in {"wire_security", "optional_dependency_matrix"}
                  then ["python", "scripts/check_inference_0_55.py", "--gate", gate]
                  else ["python", "-m", "pytest", "-q"] + tests(gate)
  }

  /** `_validate_gate_record`. */
  ghost predicate RecordOk(r: GateRecord, gate: string, tests: Selection, commit: string, tree: string) {
    && r.schema == "etlantic.inference-gate-result/1" && r.phase == "0.55" && r.gate == gate && r.result == "pass"
        && r.returncode == 0
    && r.commit == commit && r.tree == tree && IsCommit(r.commit) && IsCommit(r.tree) && !r.dirty
    && Ordered(r.started, r.finished) && r.duration >= 0
    && CommandOk(r.command, gate, tests)
    && r.lock.Sha256? && r.stdoutBytes >= 0 && r.stderrBytes >= 0 && r.stdout.Sha256? && r.stderr.Sha256?
    && CountsOk(r.counts) && (forall k :: k in r.findingTests ==> CaseGiven(k))
    && EnvironmentOk(r.environment)
  }

  method CheckCommit(s: string) returns (ok: bool)
    ensures ok <==> IsCommit(s)
  {
    return |s| == 40 && !exists c :: c in s && c !in "0123456789abcdef";
  }

  method CheckCounts(c: Counts) returns (ok: bool)
    ensures ok <==> CountsOk(c)
  {
    if c.collected < 0 || c.passed < 0 || c.failed < 0 || c.skipped < 0 || c.notRun < 0 {
      return false;
    }
    return c.passed + c.failed + c.skipped + c.notRun == c.collected;
  }

  /** `_validate_gate_record`, in its order. */
  method ValidateGateRecord(r: GateRecord, gate: string, tests: Selection, commit: string, tree: string) returns (ok: bool)
    ensures ok <==> RecordOk(r, gate, tests, commit, tree)
  {
    hide IsCommit, CountsOk, DEPENDENCY_NAMES;
    if r.schema != RESULT_SCHEMA || r.phase != "0.55" || r.gate != gate || r.result != "pass" || r.returncode != 0 {
      return false;
    }
    var commitOk := CheckCommit(r.commit);
    var treeOk := CheckCommit(r.tree);
    if r.commit != commit || r.tree != tree || !commitOk || !treeOk || r.dirty {
      return false;
    }
    if !r.started.zoned || !r.finished.zoned || r.finished.instant < r.started.instant || r.duration < 0 {
      return false;
    }
    if r.command == [] || (exists item :: item in r.command && item == "") || r.command != ActualCommand(gate, tests) {
      return false;
    }
    if r.lock.NoDigest? || r.stdoutBytes < 0 || r.stderrBytes < 0 || r.stdout.NoDigest? || r.stderr.NoDigest? {
      return false;
    }
    var counts := CheckCounts(r.counts);
    if !counts || exists k :: k in r.findingTests && (k.findingId == "" || k.nodeid == "" || k.result == "") {
      return false;
    }
    var e := r.environment;
    if e.os == "" || e.architecture == "" || e.python == "" || e.dependencies.Keys != DEPENDENCY_NAMES {
      NamesAreTheDependencies();
      return false;
    }
    NamesAreTheDependencies();
    return true;
  }

  lemma NamesAreTheDependencies()
    ensures DEPENDENCY_NAMES == {"etlantic", "pandas", "polars", "pyarrow", "pytest", "pyspark", "duckdb", "datafusion",
            "sqlmodel",
                                 "ruff", "pyright"}
  {
  }

  // ---------------------------------------------------------------- the findings of a gate

  function CaseIds(cases: seq<FindingCase>): seq<string> {
    MapSeq((k: FindingCase) => k.findingId, cases)
  }

  function FindingIds(findings: seq<Finding>): seq<string> {
    MapSeq((f: Finding) => f.id, findings)
  }

  function Ids(ids: seq<string>): set<string> {
    set id | id in ids
  }

  /** What `expected_by_gate[gate]` holds after these findings of the gate: the last test of each id. */
  function TestsOf(findings: seq<Finding>): map<string, string> {
    if findings == [] then map[]
    else
      var f := findings[|findings| - 1];
      TestsOf(findings[..|findings| - 1])[f.id := f.test]
  }

  /** The cases name exactly the expected findings, each once, with its test, passing. */
  ghost predicate CasesMatch(cases: seq<FindingCase>, expected: map<string, string>) {
    && Distinct(CaseIds(cases)) && Ids(CaseIds(cases)) == expected.Keys
    && forall k :: k in cases ==> k.findingId in expected && expected[k.findingId] == k.nodeid && k.result == "passed"
  }

  /** What the verifier has seen of the cases. */
  ghost predicate Observed(cases: seq<FindingCase>, observed: map<string, FindingCase>) {
    && Distinct(CaseIds(cases)) && observed.Keys == Ids(CaseIds(cases))
    && forall k :: k in cases ==> k.findingId in observed && observed[k.findingId] == k
  }

  lemma ObserveOneMore(cases: seq<FindingCase>, observed: map<string, FindingCase>, k: FindingCase)
    requires Observed(cases, observed)
    ensures k.findingId in observed ==> !Distinct(CaseIds(cases + [k]))
    ensures k.findingId !in observed ==> Observed(cases + [k], observed[k.findingId := k])
  {
    assert CaseIds(cases + [k]) == CaseIds(cases) + [k.findingId];
    if k.findingId in observed {
      var i :| 0 <= i < |cases| && CaseIds(cases)[i] == k.findingId;
      assert CaseIds(cases + [k])[i] == CaseIds(cases + [k])[|cases|];
    } else {
      DistinctSnoc(CaseIds(cases), k.findingId);
      assert Ids(CaseIds(cases) + [k.findingId]) == Ids(CaseIds(cases)) + {k.findingId};
      forall j | j in cases + [k]
        ensures j.findingId in observed[k.findingId := k] && observed[k.findingId := k][j.findingId] == j
      {
        if j in cases {
          assert j.findingId in observed;
        }
      }
    }
  }

  lemma ObservedMatch(cases: seq<FindingCase>, observed: map<string, FindingCase>, expected: map<string, string>)
    requires Observed(cases, observed) && observed.Keys == expected.Keys
    ensures CasesMatch(cases, expected)
            <==> forall id :: id in expected ==> observed[id].nodeid == expected[id] && observed[id].result == "passed"
  {
    forall id | id in expected ensures observed[id] in cases && observed[id].findingId == id {
      var i :| 0 <= i < |cases| && CaseIds(cases)[i] == id;
      assert cases[i] in cases;
    }
  }

  lemma PrefixDistinct(cases: seq<FindingCase>, i: nat)
    requires i <= |cases| && !Distinct(CaseIds(cases[..i]))
    ensures !Distinct(CaseIds(cases))
  {
    var a, b :| 0 <= a < b < i && CaseIds(cases[..i])[a] == CaseIds(cases[..i])[b];
    assert CaseIds(cases)[a] == CaseIds(cases)[b];
  }

  method CheckFindingCases(cases: seq<FindingCase>, expected: map<string, string>) returns (ok: bool)
    ensures ok <==> CasesMatch(cases, expected)
  {
    hide Distinct;
    var observed: map<string, FindingCase> := map[];
    assert Observed([], observed) by { EmptyObserved(); }
    for i := 0 to |cases|
      invariant Observed(cases[..i], observed)
    {
      hide Observed;
      ObserveOneMore(cases[..i], observed, cases[i]);
      assert cases[..i + 1] == cases[..i] + [cases[i]];
      if cases[i].findingId in observed {
        PrefixDistinct(cases, i + 1);
        return false;
      }
      observed := observed[cases[i].findingId := cases[i]];
    }
    assert cases[..|cases|] == cases;
    if observed.Keys != expected.Keys {
      return false;
    }
    ObservedMatch(cases, observed, expected);
    ok := ExpectedPass(observed, expected);
  }

  method ExpectedPass(observed: map<string, FindingCase>, expected: map<string, string>) returns (ok: bool)
    requires observed.Keys == expected.Keys
    ensures ok <==> forall id :: id in expected ==> observed[id].nodeid == expected[id] && observed[id].result == "passed"
  {
    var pending := expected.Keys;
    while pending != {}
      invariant pending <= expected.Keys
      invariant forall id :: id in expected.Keys - pending ==>
                  observed[id].nodeid == expected[id] && observed[id].result == "passed"
      decreases pending
    {
      var id :| id in pending;
      if observed[id].nodeid != expected[id] || observed[id].result != "passed" {
        return false;
      }
      pending := pending - {id};
    }
    return true;
  }

  lemma EmptyObserved()
    ensures Observed([], map[])
  {
  }

  // ---------------------------------------------------------------- expectations

  lemma {:induction false} OfGateSnoc(findings: seq<Finding>, f: Finding, gate: string)
    ensures OfGate(findings + [f], gate) == OfGate(findings, gate) + if f.gate == gate then [f] else []
  {
    var last := if f.gate == gate then [f] else [];
    if findings == [] {
      assert findings + [f] == [f];
      assert last + [] == last;
    } else {
      var rest := findings[1..];
      assert (findings + [f])[1..] == rest + [f] && (findings + [f])[0] == findings[0];
      OfGateSnoc(rest, f, gate);
      var head := if findings[0].gate == gate then [findings[0]] else [];
      assert head + (OfGate(rest, gate) + last) == (head + OfGate(rest, gate)) + last;
    }
  }

  lemma {:induction false} OfGateMembers(findings: seq<Finding>, gate: string)
    ensures forall f :: f in OfGate(findings, gate) <==> f in findings && f.gate == gate
  {
    if findings != [] {
      OfGateMembers(findings[1..], gate);
      assert findings == [findings[0]] + findings[1..];
    }
  }

  predicate Placed(findings: seq<Finding>, gates: seq<string>, testFiles: set<string>) {
    forall f :: f in findings ==> f.gate in gates && NodeId(f, testFiles).Some?
  }

  lemma ExpectOneMore(findings: seq<Finding>, f: Finding, gate: string)
    ensures TestsOf(OfGate(findings + [f], gate))
            == if f.gate == gate then TestsOf(OfGate(findings, gate))[f.id := f.test] else TestsOf(OfGate(findings, gate))
  {
    OfGateSnoc(findings, f, gate);
    var own := OfGate(findings, gate);
    if f.gate == gate {
      assert (own + [f])[..|own|] == own;
    } else {
      assert own + [] == own;
    }
  }

  /** The loop that fills `expected_by_gate`; a finding of an unknown gate, or without a valid test, is an error. */
  method ExpectedByGate(findings: seq<Finding>, gates: seq<string>, testFiles: set<string>)
    returns (expected: Option<map<string, map<string, string>>>)
    ensures expected.Some? <==> Placed(findings, gates, testFiles)
    ensures expected.Some? ==> expected.value.Keys == Ids(gates)
                               && forall g :: g in expected.value ==> expected.value[g] == TestsOf(OfGate(findings, g))
  {
    hide NodeId, OfGate, TestsOf;
    var byGate: map<string, map<string, string>> := map g | g in gates :: map[];
    assert forall g :: TestsOf(OfGate([], g)) == map[] by { NothingExpected(); }
    for i := 0 to |findings|
      invariant Placed(findings[..i], gates, testFiles) && byGate.Keys == Ids(gates)
      invariant forall g :: g in byGate ==> byGate[g] == TestsOf(OfGate(findings[..i], g))
    {
      var f := findings[i];
      assert findings[..i + 1] == findings[..i] + [f];
      if f.gate !in gates || NodeId(f, testFiles).None? {
        return None;
      }
      NodeIdIsTest(f, testFiles);
      forall g ensures TestsOf(OfGate(findings[..i + 1], g))
                       == if f.gate == g then TestsOf(OfGate(findings[..i], g))[f.id := f.test]
                          else TestsOf(OfGate(findings[..i], g)) {
        ExpectOneMore(findings[..i], f, g);
      }
      byGate := byGate[f.gate := byGate[f.gate][f.id := NodeId(f, testFiles).value]];
    }
    assert findings[..|findings|] == findings;
    return Some(byGate);
  }

  lemma NothingExpected()
    ensures forall g :: TestsOf(OfGate([], g)) == map[]
  {
  }

  // ---------------------------------------------------------------- the verifier

  ghost predicate HeaderOk(c: Campaign, current: Identity) {
    && c.schema == "etlantic.inference-gate-campaign/1" && c.phase == "0.55"
    && c.requiredGates == ["wire_security", "bounded_materialization", "lineage_solver", "target_revision", "durable_definition",
                           "optional_dependency_matrix", "differential_fixtures", "race_tests", "full_regression"]
    && Ordered(c.started, c.finished)
    && IsCommit(c.commit) && IsCommit(c.tree) && !current.dirty
    && c.commit == current.commit && c.tree == current.tree && !c.dirty && c.result == "pass"
    && c.results.Keys == Ids(GATES)
  }

  /** The gate's artifact is where it belongs and its record is valid. */
  ghost predicate GateOk(files: Directory, c: Campaign, gate: string, tests: Selection) {
    && gate in c.results && c.results[gate] == Artifact(gate)
    && var d := Load(files, Artifact(gate));
       d.Some? && d.value.GateDocument? && RecordOk(d.value.record, gate, tests, c.commit, c.tree)
  }

  function RemovePrefix(s: string, prefix: string): string {
    if StartsWith(s, prefix) then s[|prefix|..] else s
  }

  function RemoveSuffix(s: string, suffix: string): string {
    if |s| >= |suffix| && s[|s| - |suffix|..] == suffix then s[..|s| - |suffix|] else s
  }

  function ResultOf(d: Document): string {
    match d
    case CampaignDocument(c) => c.result
    case GateDocument(r) => r.result
    case Malformed(_) => ""
  }

  /** A capability points at a passing gate's artifact. */
  ghost predicate EntryOk(files: Directory, e: Entry) {
    var d := Load(files, e.evidence);
    && d.Some? && ResultOf(d.value) == "pass"
    && RemoveSuffix(RemovePrefix(e.evidence, "gates/"), ".json") in GATES
  }

  ghost predicate FindingOk(f: Finding, testFiles: set<string>) {
    f.id != "" && f.test != "" && f.gate in GATES && NodeId(f, testFiles).Some? && !Leaks(f.id) && !Leaks(f.test)
  }

  /** `_validate_manifest` on a ledger that `_load` let through. */
  ghost predicate ManifestOk(m: Manifest, testFiles: set<string>) {
    && m.rest && m.findings != [] && m.entries != [] && m.requiredFindings != []
    && (forall f :: f in m.findings ==> FindingOk(f, testFiles))
    && (forall e :: e in m.entries ==> exists g :: g in GATES && e.evidence == Artifact(g))
    && (forall id :: id in m.requiredFindings ==> id in FindingIds(m.findings))
  }

  ghost function RecordAt(files: Directory, gate: string): Option<GateRecord> {
    var d := Load(files, Artifact(gate));
    if d.Some? && d.value.GateDocument? then Some(d.value.record) else None
  }

  ghost predicate GateCasesMatch(files: Directory, findings: seq<Finding>, gate: string) {
    RecordAt(files, gate).Some? && CasesMatch(RecordAt(files, gate).value.findingTests, TestsOf(OfGate(findings, gate)))
  }

  /** What the verifier asks of the artifacts of a campaign. */
  ghost predicate ArtifactsOk(files: Directory, c: Campaign, gates: seq<string>, tests: Selection, m: Manifest,
                        testFiles: set<string>)
  {
    && (forall g :: g in gates ==> GateOk(files, c, g, tests))
    && (forall e :: e in m.entries ==> EntryOk(files, e))
    && Placed(m.findings, gates, testFiles)
    && (forall g :: g in gates ==> GateCasesMatch(files, m.findings, g))
  }

  ghost predicate Accepted(files: Directory, m: Manifest, tests: Selection, current: Identity, testFiles: set<string>) {
    var d := Load(files, "index.json");
    && d.Some? && d.value.CampaignDocument? && HeaderOk(d.value.campaign, current)
    && ArtifactsOk(files, d.value.campaign, GATES, tests, m, testFiles)
    && ManifestOk(m, testFiles)
  }

  /** The artifact of one gate, loaded and validated. */
  method LoadGate(files: Directory, c: Campaign, gate: string, tests: Selection) returns (record: Option<GateRecord>)
    ensures record.Some? <==> GateOk(files, c, gate, tests)
    ensures record.Some? ==> RecordAt(files, gate) == record
  {
    hide RecordOk, Load;
    if gate !in c.results || c.results[gate] != "gates/" + gate + ".json" {
      return None;
    }
    var d := LoadDocument(files, "gates/" + gate + ".json");
    if d.None? || !d.value.GateDocument? {
      return None;
    }
    var valid := ValidateGateRecord(d.value.record, gate, tests, c.commit, c.tree);
    return if valid then Some(d.value.record) else None;
  }

  /** The loop that loads and validates the record of every gate. */
  method GateRecords(files: Directory, c: Campaign, gates: seq<string>, tests: Selection)
    returns (loaded: Option<map<string, GateRecord>>)
    ensures loaded.Some? <==> forall g :: g in gates ==> GateOk(files, c, g, tests)
    ensures loaded.Some? ==> forall g :: g in gates ==> g in loaded.value && RecordAt(files, g) == Some(loaded.value[g])
  {
    hide GateOk, RecordAt;
    var records: map<string, GateRecord> := map[];
    for i := 0 to |gates|
      invariant forall g :: g in gates[..i] ==>
                  GateOk(files, c, g, tests) && g in records && RecordAt(files, g) == Some(records[g])
    {
      var record := LoadGate(files, c, gates[i], tests);
      if record.None? {
        assert gates[i] in gates;
        return None;
      }
      records := records[gates[i] := record.value];
    }
    assert gates[..|gates|] == gates;
    return Some(records);
  }

  /** The loop that compares the cases of every gate with the ledger. */
  method GateFindingsMatch(files: Directory, gates: seq<string>, findings: seq<Finding>, records: map<string, GateRecord>,
                           expected: map<string, map<string, string>>)
    returns (ok: bool)
    requires forall g :: g in gates ==> g in records && RecordAt(files, g) == Some(records[g])
    requires forall g :: g in gates ==> g in expected && expected[g] == TestsOf(OfGate(findings, g))
    ensures ok <==> forall g :: g in gates ==> GateCasesMatch(files, findings, g)
  {
    hide RecordAt, CasesMatch, OfGate, TestsOf;
    for i := 0 to |gates|
      invariant forall g :: g in gates[..i] ==> GateCasesMatch(files, findings, g)
    {
      var gate := gates[i];
      assert gate in gates;
      var matches := CheckFindingCases(records[gate].findingTests, expected[gate]);
      if !matches {
        return false;
      }
    }
    return true;
  }

  /** The loop over the capability entries. */
  method CheckEntries(files: Directory, entries: seq<Entry>) returns (ok: bool)
    ensures ok <==> forall e :: e in entries ==> EntryOk(files, e)
  {
    hide Load, GATES, RemovePrefix, RemoveSuffix;
    for i := 0 to |entries|
      invariant forall e :: e in entries[..i] ==> EntryOk(files, e)
    {
      var entry := entries[i];
      assert entry in entries;
      var gate := RemoveSuffix(RemovePrefix(entry.evidence, "gates/"), ".json");
      var d := LoadDocument(files, entry.evidence);
      if d.None? || ResultOf(d.value) != "pass" || gate !in GATES {
        assert !EntryOk(files, entry);
        return false;
      }
    }
    assert entries[..|entries|] == entries;
    return true;
  }

  lemma GatesAre()
    ensures GATES == ["wire_security", "bounded_materialization", "lineage_solver", "target_revision", "durable_definition",
                      "optional_dependency_matrix", "differential_fixtures", "race_tests", "full_regression"]
  {
  }

  method CheckHeader(c: Campaign, current: Identity) returns (ok: bool)
    ensures ok <==> HeaderOk(c, current)
  {
    GatesAre();
    hide IsCommit, GATES;
    if c.schema != CAMPAIGN_SCHEMA || c.phase != "0.55" || c.requiredGates != GATES {
      return false;
    }
    if !c.started.zoned || !c.finished.zoned || c.finished.instant < c.started.instant {
      return false;
    }
    var commit := CheckCommit(c.commit);
    var tree := CheckCommit(c.tree);
    if !commit || !tree || current.dirty || c.commit != current.commit || c.tree != current.tree || c.dirty {
      return false;
    }
    return c.result == "pass" && c.results.Keys == set gate | gate in GATES;
  }

  /** The checks of `_validate_manifest` on one finding. */
  method CheckFinding(f: Finding, testFiles: set<string>) returns (ok: bool)
    ensures ok <==> FindingOk(f, testFiles)
  {
    hide Leaks, NodeId, GATES;
    var free := CheckTexts([f.id, f.test]);
    assert forall text :: text in [f.id, f.test] <==> text == f.id || text == f.test;
    return free && f.id != "" && f.test != "" && f.gate in GATES && NodeId(f, testFiles).Some?;
  }

  method ValidateManifest(m: Manifest, testFiles: set<string>) returns (ok: bool)
    ensures ok <==> ManifestOk(m, testFiles)
  {
    hide FindingOk, GATES;
    if !m.rest || m.findings == [] || m.entries == [] || m.requiredFindings == [] {
      return false;
    }
    for i := 0 to |m.findings|
      invariant forall f :: f in m.findings[..i] ==> FindingOk(f, testFiles)
    {
      assert m.findings[i] in m.findings;
      var valid := CheckFinding(m.findings[i], testFiles);
      if !valid {
        return false;
      }
    }
    assert m.findings[..|m.findings|] == m.findings;
    if exists e :: e in m.entries && !exists g :: g in GATES && e.evidence == "gates/" + g + ".json" {
      return false;
    }
    return !exists id :: id in m.requiredFindings && id !in FindingIds(m.findings);
  }

  /** The checks of `_verify_campaign` on the gates, the capability entries and the findings. */
  method VerifyArtifacts(files: Directory, c: Campaign, gates: seq<string>, tests: Selection, m: Manifest, testFiles: set<string>)
    returns (ok: bool)
    ensures ok <==> ArtifactsOk(files, c, gates, tests, m, testFiles)
  {
    hide GateOk, EntryOk, Placed, RecordAt, GateCasesMatch, OfGate, TestsOf;
    var records := GateRecords(files, c, gates, tests);
    if records.None? {
      return false;
    }
    var entries := CheckEntries(files, m.entries);
    if !entries {
      return false;
    }
    var expected := ExpectedByGate(m.findings, gates, testFiles);
    if expected.None? {
      return false;
    }
    ok := GateFindingsMatch(files, gates, m.findings, records.value, expected.value);
  }

  lemma GateHasRecord(files: Directory, c: Campaign, gate: string, tests: Selection)
    requires GateOk(files, c, gate, tests)
    ensures RecordAt(files, gate).Some? && RecordOk(RecordAt(files, gate).value, gate, tests, c.commit, c.tree)
  {
    hide RecordOk, Artifact;
  }

  /** `_verify_campaign`. */
  method VerifyCampaign(files: Directory, m: Manifest, tests: Selection, current: Identity, testFiles: set<string>)
    returns (ok: bool)
    ensures ok <==> Accepted(files, m, tests, current, testFiles)
  {
    hide HeaderOk, ArtifactsOk, ManifestOk, Load;
    var d := LoadDocument(files, "index.json");
    if d.None? || !d.value.CampaignDocument? {
      return false;
    }
    var header := CheckHeader(d.value.campaign, current);
    if !header {
      return false;
    }
    var artifacts := VerifyArtifacts(files, d.value.campaign, GATES, tests, m, testFiles);
    if !artifacts {
      return false;
    }
    ok := ValidateManifest(m, testFiles);
  }
}
