/**
 The other side of the pushdown matrix: the findings the compilers emit for a plan, and the records and native proofs the
 evidence generator makes of them. The checker accepts what this code produces exactly when every compiler fits the
 contract, and accepts nothing that differs from it.
 */
module PushdownProducer {
  import opened PyText
  import opened Sorting
  import opened Pushdown

  /** How a compiler reports pushdown: as a host engine, or natively with these effects for the actions it supports. */
  datatype Compiler = Host | Relational(effects: seq<string>, supported: set<string>)

  /** What running the whole plan natively left: digests of the result and of the plan, and of each action. */
  datatype Execution = Execution(
    result: string,
    explain: string,
    hostFallback: bool,
    actionNative: map<string, string>,
    actionExplain: map<string, string>)

  // ---------------------------------------------------------------- the compilers

  function At(boundary: string, k: nat): string {
    boundary + ":" + Decimal(k)
  }

  function NotApplicable(boundary: string, k: nat, reason: string, a: Action, fingerprint: string): Finding {
    Finding("", At(boundary, k), a.name, a.id, fingerprint, "not_applicable", "informational", reason, [], None)
  }

  /** The three findings of a host engine for action `k`. */
  function HostRow(k: nat, a: Action, fingerprint: string): seq<Finding> {
    var reason := "host-owned execution has no backend pushdown boundary";
    [NotApplicable("source", k, reason, a, fingerprint), NotApplicable("relational", k, reason, a, fingerprint),
     NotApplicable("sink", k, reason, a, fingerprint)]
  }

  function Lowered(k: nat, a: Action, fingerprint: string, effects: seq<string>, supported: bool): Finding {
    Finding("", At("relational", k), a.name, a.id, fingerprint, if supported then "pushed_exact" else "unsupported", "required",
            if supported then "action lowered into the native relational plan"
            else "action is not supported by the native relational compiler",
            if supported then effects else [], if supported then Some("runtime-required:" + a.id) else None)
  }

  /** The three findings of a relational engine for action `k`. */
  function RelationalRow(k: nat, a: Action, fingerprint: string, effects: seq<string>, supported: set<string>): seq<Finding> {
    [NotApplicable("source", k, "connector source pushdown is outside the native plan contract", a, fingerprint),
     Lowered(k, a, fingerprint, effects, a.name in supported),
     NotApplicable("sink", k, "sink pushdown is outside the native plan contract", a, fingerprint)]
  }

  function Row(compiler: Compiler, k: nat, a: Action, fingerprint: string): (row: seq<Finding>)
    ensures |row| == 3
  {
    match compiler
    case Host => HostRow(k, a, fingerprint)
    case Relational(effects, supported) => RelationalRow(k, a, fingerprint, effects, supported)
  }

  /** Everything a compiler reports from action `k` on. */
  function Reported(compiler: Compiler, actions: seq<Action>, k: nat, fingerprint: string): seq<Finding>
    requires k <= |actions|
    decreases |actions| - k
  {
    if k == |actions| then [] else Row(compiler, k, actions[k], fingerprint) + Reported(compiler, actions, k + 1, fingerprint)
  }

  lemma NothingMore(findings: seq<Finding>)
    ensures findings + [] == findings
  {
  }

  method HostPushdownFindings(actions: seq<Action>, fingerprint: string) returns (findings: seq<Finding>)
    ensures findings == Reported(Host, actions, 0, fingerprint)
  {
    hide NotApplicable;
    findings := [];
    for k := 0 to |actions|
      invariant Reported(Host, actions, 0, fingerprint) == findings + Reported(Host, actions, k, fingerprint)
    {
      var reason, a := "host-owned execution has no backend pushdown boundary", actions[k];
      findings := findings + [NotApplicable("source", k, reason, a, fingerprint),
                              NotApplicable("relational", k, reason, a, fingerprint),
                              NotApplicable("sink", k, reason, a, fingerprint)];
    }
    NothingMore(findings);
  }

  method RelationalPushdownFindings(actions: seq<Action>, fingerprint: string, effects: seq<string>, supported: set<string>)
    returns (findings: seq<Finding>)
    ensures findings == Reported(Relational(effects, supported), actions, 0, fingerprint)
  {
    hide NotApplicable, Lowered;
    findings := [];
    for k := 0 to |actions|
      invariant Reported(Relational(effects, supported), actions, 0, fingerprint)
                == findings + Reported(Relational(effects, supported), actions, k, fingerprint)
    {
      var a := actions[k];
      findings := findings + [
        NotApplicable("source", k, "connector source pushdown is outside the native plan contract", a, fingerprint),
        Lowered(k, a, fingerprint, effects, a.name in supported),
        NotApplicable("sink", k, "sink pushdown is outside the native plan contract", a, fingerprint)];
    }
    NothingMore(findings);
  }

  // ---------------------------------------------------------------- the generator

  /** A finding as recorded: under its engine, and a required one with a reference to its native proof. */
  function Recorded(engine: string, f: Finding): Finding {
    f.(engine := engine,
       proof := if f.obligation == "required" then Some("native-execution:" + engine + ":" + f.target) else f.proof)
  }

  function Digest(digests: map<string, string>, id: string): string {
    if id in digests then digests[id] else ""
  }

  /** The proof entry of a required finding. */
  function ProofEntry(engine: string, f: Finding, run: Execution): ActionProof {
    ActionProof("native-execution:" + engine + ":" + f.target, f.action, f.effects, run.hostFallback,
                "native_explain_and_execution_trace", run.explain, Digest(run.actionExplain, f.target),
                Digest(run.actionNative, f.target), run.result)
  }

  /** The proof entries after some findings: one for each required target, the last one counting. */
  function ProofEntries(engine: string, findings: seq<Finding>, run: Execution): map<string, ActionProof> {
    if findings == [] then map[]
    else
      var f := findings[|findings| - 1];
      var entries := ProofEntries(engine, findings[..|findings| - 1], run);
      if f.obligation == "required" then entries[f.target := ProofEntry(engine, f, run)] else entries
  }

  function Record(engine: string, findings: seq<Finding>): seq<Finding> {
    MapSeq((f: Finding) => Recorded(engine, f), findings)
  }

  /** The generator's loop over what one compiler reported. */
  method RecordPushdown(engine: string, reported: seq<Finding>, run: Execution)
    returns (records: seq<Finding>, entries: map<string, ActionProof>)
    ensures records == Record(engine, reported) && entries == ProofEntries(engine, reported, run)
  {
    records, entries := [], map[];
    for i := 0 to |reported|
      invariant records == Record(engine, reported[..i]) && entries == ProofEntries(engine, reported[..i], run)
    {
      var f := reported[i];
      assert reported[..i + 1][..i] == reported[..i];
      var recorded := f.(engine := engine);
      if f.obligation == "required" {
        var proof := "native-execution:" + engine + ":" + f.target;
        entries := entries[f.target := ActionProof(proof, f.action, f.effects, run.hostFallback,
                                                   "native_explain_and_execution_trace", run.explain,
                                                   Digest(run.actionExplain, f.target), Digest(run.actionNative, f.target),
                                                   run.result)];
        recorded := recorded.(proof := Some(proof));
      }
      records := records + [recorded];
    }
    assert reported[..|reported|] == reported;
  }

  // ---------------------------------------------------------------- findings against the contract

  /** The boundaries the producer knows. */
  predicate Standard(c: Contract) {
    c.boundaries == ["source", "relational", "sink"]
  }

  /** The finding produced for boundary `b` and action `k`. */
  function Produced(c: Contract, compiler: Compiler, engine: string, fingerprint: string, b: nat, k: nat): Finding
    requires b < 3 && k < |c.actions|
  {
    Recorded(engine, Row(compiler, k, c.actions[k], fingerprint)[b])
  }

  /** The compiler reports what the contract says about its engine. */
  predicate Fits(c: Contract, engine: string, compiler: Compiler) {
    if engine in c.native then
      && compiler.Relational? && (forall a :: a in c.actions ==> a.name in compiler.supported)
      && (set x | x in compiler.effects) == (if engine in {"sql", "duckdb"} then {"materialization", "lost_fusion"} else {})
    else compiler.Host?
  }

  lemma RowFields(compiler: Compiler, b: nat, k: nat, a: Action, fingerprint: string)
    requires b < 3
    ensures var f := Row(compiler, k, a, fingerprint)[b];
            && f.action == a.name && f.fingerprint == fingerprint && f.target == a.id
            && f.boundary == At(if b == 0 then "source" else if b == 1 then "relational" else "sink", k)
  {
    hide At;
  }

  lemma ProducedKey(c: Contract, compiler: Compiler, engine: string, fingerprint: string, b: nat, k: nat)
    requires Standard(c) && b < 3 && k < |c.actions|
    ensures var f := Produced(c, compiler, engine, fingerprint, b, k);
            && KeyOf(f) == Key(engine, c.boundaries[b], c.actions[k].id) && f.boundary == At(c.boundaries[b], k)
            && f.action == c.actions[k].name && f.engine == engine && f.fingerprint == fingerprint && f.target == c.actions[k].id
  {
    RowFields(compiler, b, k, c.actions[k], fingerprint);
    assert c.boundaries[b] == if b == 0 then "source" else if b == 1 then "relational" else "sink";
    StandardNames(c, b);
    hide At, BoundaryName, Row, Standard;
    BoundaryIsCut(c.boundaries[b], k);
  }

  lemma StandardNames(c: Contract, b: nat)
    requires Standard(c) && b < 3
    ensures |c.boundaries| == 3 && ':' !in c.boundaries[b]
  {
  }

  lemma BoundaryIsCut(name: string, k: nat)
    requires ':' !in name
    ensures BoundaryName(At(name, k)) == name
  {
    hide SplitFirst, Decimal;
    SplitFirstPrefix(name, ':', Decimal(k));
  }

  lemma ProducedIsIdentified(c: Contract, compiler: Compiler, engine: string, fingerprint: string, b: nat, k: nat)
    requires Standard(c) && b < 3 && k < |c.actions| && engine in c.engines && IsDigest(fingerprint)
    ensures Identified(c, Produced(c, compiler, engine, fingerprint, b, k))
  {
    ProducedKey(c, compiler, engine, fingerprint, b, k);
    StandardNames(c, b);
    hide BoundaryName, IsDigest, Produced, KeyOf, Standard;
    BoundaryIsCut(c.boundaries[b], k);
    assert c.actions[k] == Action(c.actions[k].id, c.actions[k].name);
  }

  lemma RecordedNotApplicable(engine: string, boundary: string, k: nat, reason: string, a: Action, fingerprint: string)
    ensures Recorded(engine, NotApplicable(boundary, k, reason, a, fingerprint))
            == Finding(engine, At(boundary, k), a.name, a.id, fingerprint, "not_applicable", "informational", reason, [], None)
  {
    OutcomesDiffer();
    hide At;
  }

  /** What a compiler gives as the reason off the relational boundary. */
  function ReasonGiven(compiler: Compiler, b: nat): string {
    if compiler.Host? then "host-owned execution has no backend pushdown boundary"
    else if b == 0 then "connector source pushdown is outside the native plan contract"
    else "sink pushdown is outside the native plan contract"
  }

  /** Off the relational boundary nothing is claimed. */
  lemma ProducedElsewhere(c: Contract, compiler: Compiler, engine: string, fingerprint: string, b: nat, k: nat)
    requires Standard(c) && k < |c.actions| && (b == 0 || b == 2 || (b == 1 && compiler.Host?))
    ensures var f := Produced(c, compiler, engine, fingerprint, b, k);
            && f.outcome == "not_applicable" && f.obligation == "informational" && f.effects == [] && f.proof == None
            && f.reason == ReasonGiven(compiler, b)
  {
    var name := if b == 0 then "source" else if b == 1 then "relational" else "sink";
    assert Row(compiler, k, c.actions[k], fingerprint)[b]
           == NotApplicable(name, k, ReasonGiven(compiler, b), c.actions[k], fingerprint);
    hide NotApplicable, ReasonGiven, Row, Recorded;
    RecordedNotApplicable(engine, name, k, ReasonGiven(compiler, b), c.actions[k], fingerprint);
  }

  lemma ProducedRelational(c: Contract, compiler: Compiler, engine: string, fingerprint: string, k: nat)
    requires Standard(c) && k < |c.actions| && compiler.Relational?
    ensures var f, a := Produced(c, compiler, engine, fingerprint, 1, k), c.actions[k];
            && f.obligation == "required" && f.proof == Some("native-execution:" + engine + ":" + a.id)
            && f.outcome == (if a.name in compiler.supported then "pushed_exact" else "unsupported")
            && (a.name in compiler.supported ==>
                  f.effects == compiler.effects && f.reason == "action lowered into the native relational plan")
  {
    hide At;
  }

  lemma ProducedAgrees(c: Contract, compiler: Compiler, engine: string, fingerprint: string, b: nat, k: nat)
    requires Standard(c) && b < 3 && k < |c.actions| && Fits(c, engine, compiler)
    ensures Agrees(c, Key(engine, c.boundaries[b], c.actions[k].id), Produced(c, compiler, engine, fingerprint, b, k))
  {
    hide Produced;
    assert c.actions[k] in c.actions;
    if b == 1 && compiler.Relational? {
      ProducedRelational(c, compiler, engine, fingerprint, k);
    } else {
      ProducedElsewhere(c, compiler, engine, fingerprint, b, k);
      var none: seq<string> := [];
      assert (set x | x in none) == {};
      assert b != 1 ==> c.boundaries[b] != "relational";
    }
  }

  /** What a fitting compiler's report is recorded as agrees with the contract. */
  lemma ProducedIsOk(c: Contract, compiler: Compiler, engine: string, fingerprint: string, b: nat, k: nat)
    requires Standard(c) && b < 3 && k < |c.actions| && engine in c.engines && IsDigest(fingerprint) && Fits(c, engine, compiler)
    ensures FindingOk(c, Produced(c, compiler, engine, fingerprint, b, k))
  {
    ProducedKey(c, compiler, engine, fingerprint, b, k);
    ProducedIsIdentified(c, compiler, engine, fingerprint, b, k);
    ProducedAgrees(c, compiler, engine, fingerprint, b, k);
    hide Identified, Agrees, Produced;
  }

  /** Equal up to the order and repetition of effects, and to how an absent proof is written. */
  predicate Alike(f: Finding, g: Finding) {
    && f.(effects := g.effects, proof := g.proof) == g
    && (set x | x in f.effects) == (set x | x in g.effects)
    && (f.proof == g.proof || (f.proof.GetOr("") == "" && g.proof.GetOr("") == ""))
  }

  /** The checker accepts a finding if and only if it is alike to one the fitting compiler of its engine produces. */
  lemma AcceptedFindingIsProduced(c: Contract, compiler: Compiler, f: Finding)
    requires c.Valid() && Standard(c) && (f.engine in c.engines ==> Fits(c, f.engine, compiler))
    ensures FindingOk(c, f) <==> f.engine in c.engines && IsDigest(f.fingerprint)
                                 && exists b: nat, k: nat :: b < 3 && k < |c.actions|
                                      && Alike(f, Produced(c, compiler, f.engine, f.fingerprint, b, k))
  {
    hide IsDigest;
    if FindingOk(c, f) {
      var k: nat :| k < |c.actions| && c.actions[k] == Action(f.target, f.action)
                    && f.boundary == BoundaryName(f.boundary) + ":" + Decimal(k);
      var b: nat :| b < 3 && c.boundaries[b] == BoundaryName(f.boundary);
      SameCell(c, compiler, f, b, k);
    }
    if f.engine in c.engines && IsDigest(f.fingerprint) {
      forall b: nat, k: nat | b < 3 && k < |c.actions| && Alike(f, Produced(c, compiler, f.engine, f.fingerprint, b, k))
        ensures FindingOk(c, f)
      {
        ProducedIsOk(c, compiler, f.engine, f.fingerprint, b, k);
        AlikeIsOk(c, f, Produced(c, compiler, f.engine, f.fingerprint, b, k));
      }
    }
  }

  /** What the contract fixes about a key leaves only the effects' order and an absent proof's spelling open. */
  lemma AgreementIsAlike(c: Contract, key: Key, f: Finding, g: Finding)
    requires Agrees(c, key, f) && Agrees(c, key, g)
    ensures f.outcome == g.outcome && f.obligation == g.obligation && f.reason == g.reason
    ensures (set x | x in f.effects) == (set x | x in g.effects)
    ensures f.proof == g.proof || (f.proof.GetOr("") == "" && g.proof.GetOr("") == "")
  {
    hide Required, Reason, Effects, ProofId;
  }

  lemma SameCell(c: Contract, compiler: Compiler, f: Finding, b: nat, k: nat)
    requires Standard(c) && b < 3 && k < |c.actions| && Fits(c, f.engine, compiler)
    requires c.actions[k] == Action(f.target, f.action) && f.boundary == At(c.boundaries[b], k) && FindingOk(c, f)
    requires c.boundaries[b] == BoundaryName(f.boundary)
    ensures Alike(f, Produced(c, compiler, f.engine, f.fingerprint, b, k))
  {
    var g := Produced(c, compiler, f.engine, f.fingerprint, b, k);
    ProducedKey(c, compiler, f.engine, f.fingerprint, b, k);
    ProducedAgrees(c, compiler, f.engine, f.fingerprint, b, k);
    hide Produced, Identified, At, Agrees, Fits, BoundaryName, Standard;
    AgreementIsAlike(c, KeyOf(f), f, g);
  }

  lemma AlikeIsOk(c: Contract, f: Finding, g: Finding)
    requires Alike(f, g) && FindingOk(c, g)
    ensures FindingOk(c, f)
  {
    hide IsDigest, BoundaryName, Reason, Effects, Required;
    assert ProofId(g.engine, KeyOf(g).action)[0] == 'n';
    hide ProofId;
  }

  // ---------------------------------------------------------------- the whole matrix

  /** What the relational finding of one action says about its compiler. */
  predicate LoweredFits(c: Contract, engine: string, compiler: Compiler, k: nat)
    requires k < |c.actions|
  {
    if engine in c.native then
      && compiler.Relational? && c.actions[k].name in compiler.supported
      && (set x | x in compiler.effects) == (if engine in {"sql", "duckdb"} then {"materialization", "lost_fusion"} else {})
    else compiler.Host?
  }

  lemma OutcomesDiffer()
    ensures "pushed_exact" != "not_applicable" && "pushed_exact" != "unsupported" && "required" != "informational"
  {
    assert |"pushed_exact"| == 12 && |"not_applicable"| == 14 && |"unsupported"| == 11;
    assert |"required"| == 8 && |"informational"| == 13;
  }

  lemma RelationalIsJudged(c: Contract, compiler: Compiler, engine: string, fingerprint: string, k: nat)
    requires Standard(c) && k < |c.actions| && FindingOk(c, Produced(c, compiler, engine, fingerprint, 1, k))
    ensures LoweredFits(c, engine, compiler, k)
  {
    ProducedKey(c, compiler, engine, fingerprint, 1, k);
    hide Identified, At, KeyOf, ProofId, Reason, Produced, Effects;
    assert Effects(engine) == (if engine in {"sql", "duckdb"} then {"materialization",
           "lost_fusion"} else {}) by { EffectsAre(engine); }
    OutcomesDiffer();
    if compiler.Relational? {
      ProducedRelational(c, compiler, engine, fingerprint, k);
    } else {
      ProducedElsewhere(c, compiler, engine, fingerprint, 1, k);
    }
  }

  lemma EffectsAre(engine: string)
    ensures Effects(engine) == if engine in {"sql", "duckdb"} then {"materialization", "lost_fusion"} else {}
  {
  }

  /** All findings of a compiler are accepted. */
  ghost predicate ReportsAccepted(c: Contract, compiler: Compiler, engine: string, fingerprint: string) {
    forall b: nat, k: nat :: b < 3 && k < |c.actions| ==> FindingOk(c, Produced(c, compiler, engine, fingerprint, b, k))
  }

  lemma AcceptedReportsFit(c: Contract, compiler: Compiler, engine: string, fingerprint: string)
    requires c.Valid() && Standard(c) && ReportsAccepted(c, compiler, engine, fingerprint)
    ensures Fits(c, engine, compiler)
  {
    hide FindingOk, Produced;
    forall k: nat | k < |c.actions| ensures LoweredFits(c, engine, compiler, k) {
      assert FindingOk(c, Produced(c, compiler, engine, fingerprint, 1, k));
      RelationalIsJudged(c, compiler, engine, fingerprint, k);
    }
    hide ReportsAccepted;
    assert LoweredFits(c, engine, compiler, 0);
    forall a | a in c.actions ensures compiler.Relational? ==> a.name in compiler.supported {
      var k: nat :| k < |c.actions| && c.actions[k] == a;
      assert LoweredFits(c, engine, compiler, k);
    }
  }

  /** A compiler's findings are accepted if and only if it fits its engine. */
  lemma ReportsAcceptedExactly(c: Contract, compiler: Compiler, engine: string, fingerprint: string)
    requires c.Valid() && Standard(c) && engine in c.engines && IsDigest(fingerprint)
    ensures ReportsAccepted(c, compiler, engine, fingerprint) <==> Fits(c, engine, compiler)
  {
    if ReportsAccepted(c, compiler, engine, fingerprint) {
      AcceptedReportsFit(c, compiler, engine, fingerprint);
    }
    hide FindingOk, Produced, Fits;
    if Fits(c, engine, compiler) {
      forall b: nat, k: nat | b < 3 && k < |c.actions| ensures FindingOk(c, Produced(c, compiler, engine, fingerprint, b, k)) {
        ProducedIsOk(c, compiler, engine, fingerprint, b, k);
      }
    }
  }

  lemma {:induction false} ReportedMembers(c: Contract, compiler: Compiler, engine: string, fingerprint: string, k: nat)
    requires k <= |c.actions|
    ensures forall f :: f in Record(engine, Reported(compiler, c.actions, k, fingerprint))
                        <==> exists b: nat, j: nat :: b < 3 && k <= j < |c.actions|
                                                      && f == Produced(c, compiler, engine, fingerprint, b, j)
    decreases |c.actions| - k
  {
    hide Row, Recorded;
    if k < |c.actions| {
      ReportedMembers(c, compiler, engine, fingerprint, k + 1);
      var row, rest := Row(compiler, k, c.actions[k], fingerprint), Reported(compiler, c.actions, k + 1, fingerprint);
      RecordConcat(engine, row, rest);
      var recorded := Record(engine, row);
      forall f ensures f in recorded <==> exists b: nat :: b < 3 && f == Produced(c, compiler, engine, fingerprint, b, k) {
        assert |recorded| == 3 && forall b: nat :: b < 3 ==> recorded[b] == Produced(c, compiler, engine, fingerprint, b, k);
      }
      hide Reported, Record, Produced;
    }
  }

  lemma RecordConcat(engine: string, a: seq<Finding>, b: seq<Finding>)
    ensures Record(engine, a + b) == Record(engine, a) + Record(engine, b)
  {
    hide Recorded;
  }

  lemma DistinctConcat<T>(a: seq<T>, b: seq<T>)
    requires Distinct(a) && Distinct(b) && forall x :: x in a ==> x !in b
    ensures Distinct(a + b)
  {
    var all := a + b;
    forall i, j | 0 <= i < j < |all| ensures all[i] != all[j] {
      assert i < |a| ==> all[i] == a[i] && a[i] in a;
      assert i >= |a| ==> all[i] == b[i - |a|];
      assert j >= |a| ==> all[j] == b[j - |a|] && b[j - |a|] in b;
    }
  }

  lemma {:induction false} ReportedKeysDistinct(c: Contract, compiler: Compiler, engine: string, fingerprint: string, k: nat)
    requires c.Valid() && Standard(c) && k <= |c.actions|
    ensures Distinct(Keys(Record(engine, Reported(compiler, c.actions, k, fingerprint))))
    decreases |c.actions| - k
  {
    hide Row, Recorded, KeyOf;
    if k < |c.actions| {
      var row, rest := Row(compiler, k, c.actions[k], fingerprint), Reported(compiler, c.actions, k + 1, fingerprint);
      ReportedKeysDistinct(c, compiler, engine, fingerprint, k + 1);
      RecordConcat(engine, row, rest);
      var a, b := Keys(Record(engine, row)), Keys(Record(engine, rest));
      assert Keys(Record(engine, row) + Record(engine, rest)) == a + b;
      forall i: nat | i < 3 ensures a[i] == Key(engine, c.boundaries[i], c.actions[k].id) {
        ProducedKey(c, compiler, engine, fingerprint, i, k);
      }
      forall key | key in b ensures key.action != c.actions[k].id {
        var i :| 0 <= i < |b| && b[i] == key;
        assert Record(engine, rest)[i] in Record(engine, rest);
        ReportedMembers(c, compiler, engine, fingerprint, k + 1);
        var x: nat, j: nat :| x < 3 && k < j < |c.actions| && Record(engine, rest)[i] == Produced(c, compiler, engine,
            fingerprint, x, j);
        ProducedKey(c, compiler, engine, fingerprint, x, j);
      }
      DistinctConcat(a, b);
    }
  }

  /** All records, compiler by compiler. */
  function Generated(c: Contract, engines: seq<string>, table: map<string, Compiler>, prints: map<string, string>): seq<Finding>
    requires forall e :: e in engines ==> e in table && e in prints
  {
    if engines == [] then []
    else
      var e := engines[0];
      Record(e, Reported(table[e], c.actions, 0, prints[e])) + Generated(c, engines[1..], table, prints)
  }

  lemma {:induction false} GeneratedMembers(c: Contract, engines: seq<string>, table: map<string, Compiler>,
                                            prints: map<string, string>)
    requires forall e :: e in engines ==> e in table && e in prints
    ensures forall f :: f in Generated(c, engines, table, prints)
                        <==> exists e, b: nat, k: nat :: e in engines && b < 3 && k < |c.actions|
                               && f == Produced(c, table[e], e, prints[e], b, k)
  {
    hide Produced, Record, Reported;
    if engines != [] {
      var e := engines[0];
      ReportedMembers(c, table[e], e, prints[e], 0);
      GeneratedMembers(c, engines[1..], table, prints);
      assert forall x :: x in engines <==> x == e || x in engines[1..];
    }
  }

  lemma {:induction false} GeneratedKeysDistinct(c: Contract, engines: seq<string>, table: map<string, Compiler>,
                                                 prints: map<string, string>)
    requires c.Valid() && Standard(c) && Distinct(engines) && forall e :: e in engines ==> e in table && e in prints
    ensures Distinct(Keys(Generated(c, engines, table, prints)))
  {
    hide Produced, Record, Reported, KeyOf;
    if engines != [] {
      var e, rest := engines[0], engines[1..];
      var own, others := Record(e, Reported(table[e], c.actions, 0, prints[e])), Generated(c, rest, table, prints);
      ReportedKeysDistinct(c, table[e], e, prints[e], 0);
      GeneratedKeysDistinct(c, rest, table, prints);
      assert Keys(own + others) == Keys(own) + Keys(others);
      KeyEngines(c, [e], own, table, prints);
      KeyEngines(c, rest, others, table, prints);
      forall key | key in Keys(own) ensures key !in Keys(others) {
        assert key.engine in [e];
      }
      DistinctConcat(Keys(own), Keys(others));
    }
  }

  lemma KeyEngines(c: Contract, engines: seq<string>, findings: seq<Finding>, table: map<string, Compiler>,
                   prints: map<string, string>)
    requires Standard(c) && forall e :: e in engines ==> e in table && e in prints
    requires findings == Generated(c, engines, table, prints)
             || (|engines| == 1 && findings == Record(engines[0], Reported(table[engines[0]], c.actions, 0, prints[engines[0]])))
    ensures forall key :: key in Keys(findings) ==> key.engine in engines
  {
    hide Produced, Record, Reported, KeyOf;
    GeneratedMembers(c, engines, table, prints);
    if |engines| == 1 {
      ReportedMembers(c, table[engines[0]], engines[0], prints[engines[0]], 0);
    }
    forall key | key in Keys(findings) ensures key.engine in engines {
      var i :| 0 <= i < |findings| && Keys(findings)[i] == key;
      assert findings[i] in findings;
      var e, b: nat, k: nat :| e in engines && b < 3 && k < |c.actions|
          && findings[i] == Produced(c, table[e], e, prints[e], b, k);
      ProducedKey(c, table[e], e, prints[e], b, k);
    }
  }

  lemma GeneratedKeysComplete(c: Contract, engines: seq<string>, table: map<string, Compiler>, prints: map<string, string>)
    requires Standard(c) && (forall e :: e in engines ==> e in table && e in prints) && (set e | e in engines) == c.engines
    ensures (set key | key in Keys(Generated(c, engines, table, prints))) == ExpectedKeys(c)
  {
    hide Produced, Generated, KeyOf;
    var findings := Generated(c, engines, table, prints);
    GeneratedMembers(c, engines, table, prints);
    forall key | key in Keys(findings) ensures key in ExpectedKeys(c) {
      var i :| 0 <= i < |findings| && Keys(findings)[i] == key;
      assert findings[i] in findings;
      var e, b: nat, k: nat :| e in engines && b < 3 && k < |c.actions|
          && findings[i] == Produced(c, table[e], e, prints[e], b, k);
      ProducedKey(c, table[e], e, prints[e], b, k);
      assert c.actions[k] in c.actions;
    }
    forall key | key in ExpectedKeys(c) ensures key in Keys(findings) {
      var k: nat :| k < |c.actions| && c.actions[k].id == key.action;
      var b: nat :| b < 3 && c.boundaries[b] == key.boundary;
      var f := Produced(c, table[key.engine], key.engine, prints[key.engine], b, k);
      ProducedKey(c, table[key.engine], key.engine, prints[key.engine], b, k);
      assert f in findings;
      var i :| 0 <= i < |findings| && findings[i] == f;
      assert Keys(findings)[i] == key;
    }
  }

  /** What the compilers of all engines produce is accepted if and only if each fits and their fingerprints are distinct digests. */
  lemma GeneratedFindingsAcceptedExactly(c: Contract, engines: seq<string>, table: map<string, Compiler>,
                                         prints: map<string, string>)
    requires c.Valid() && Standard(c) && Distinct(engines) && (set e | e in engines) == c.engines
    requires table.Keys == c.engines && prints.Keys == c.engines
    ensures FindingsOk(c, Generated(c, engines, table, prints), EvidenceOf(engines, prints), None)
            <==> (forall e :: e in c.engines ==> Fits(c, e, table[e]) && IsDigest(prints[e])) && TellApart(prints)
  {
    hide FindingOk, Generated, IsDigest, ExpectedKeys, Fits, KeyOf, TellApart, EvidenceOf, Distinct, Contract.Valid, Standard,
         EvidenceOk, Keys, Fingerprinted;
    GeneratedKeysDistinct(c, engines, table, prints);
    GeneratedKeysComplete(c, engines, table, prints);
    EvidenceExactly(c, engines, prints);
    if forall e :: e in c.engines ==> IsDigest(prints[e]) {
      GeneratedFitExactly(c, engines, table, prints);
    }
    ItsOwnPrints(c, engines, table, prints);
  }

  lemma GeneratedFitExactly(c: Contract, engines: seq<string>, table: map<string, Compiler>, prints: map<string, string>)
    requires c.Valid() && Standard(c) && (set e | e in engines) == c.engines
    requires table.Keys == c.engines && prints.Keys == c.engines && forall e :: e in c.engines ==> IsDigest(prints[e])
    ensures (forall f :: f in Generated(c, engines, table, prints) ==> FindingOk(c, f))
            <==> forall e :: e in c.engines ==> Fits(c, e, table[e])
  {
    hide FindingOk, Generated, Produced, IsDigest, Fits, ReportsAccepted;
    GeneratedMembers(c, engines, table, prints);
    forall e | e in c.engines ensures ReportsAccepted(c, table[e], e, prints[e]) <==> Fits(c, e, table[e]) {
      ReportsAcceptedExactly(c, table[e], e, prints[e]);
    }
    MatrixExactly(c, engines, Generated(c, engines, table, prints), table, prints);
  }

  lemma MatrixExactly(c: Contract, engines: seq<string>, findings: seq<Finding>, table: map<string, Compiler>,
                      prints: map<string, string>)
    requires (set e | e in engines) == c.engines && table.Keys == c.engines && prints.Keys == c.engines
    requires forall f :: f in findings
                         <==> exists e, b: nat, k: nat :: e in engines && b < 3 && k < |c.actions|
                                && f == Produced(c, table[e], e, prints[e], b, k)
    requires forall e :: e in c.engines ==> (ReportsAccepted(c, table[e], e, prints[e]) <==> Fits(c, e, table[e]))
    ensures (forall f :: f in findings ==> FindingOk(c, f)) <==> forall e :: e in c.engines ==> Fits(c, e, table[e])
  {
    hide FindingOk, Produced, Fits;
    if forall f :: f in findings ==> FindingOk(c, f) {
      forall e | e in c.engines ensures Fits(c, e, table[e]) {
        forall b: nat, k: nat | b < 3 && k < |c.actions| ensures FindingOk(c, Produced(c, table[e], e, prints[e], b, k)) {
          assert e in engines;
          assert Produced(c, table[e], e, prints[e], b, k) in findings;
        }
      }
    }
    if forall e :: e in c.engines ==> Fits(c, e, table[e]) {
      forall f | f in findings ensures FindingOk(c, f) {
        var e, b: nat, k: nat :| e in engines && b < 3 && k < |c.actions| && f == Produced(c, table[e], e, prints[e], b, k);
        assert e in c.engines && Fits(c, e, table[e]);
      }
    }
  }

  function EvidenceOf(engines: seq<string>, prints: map<string, string>): seq<string> {
    MapSeq((e: string) => if e in prints then prints[e] else "", engines)
  }

  ghost predicate TellApart(prints: map<string, string>) {
    forall d, e :: d in prints && e in prints && prints[d] == prints[e] ==> d == e
  }

  lemma EvidenceMembers(engines: seq<string>, prints: map<string, string>)
    requires (set e | e in engines) == prints.Keys
    ensures forall i :: 0 <= i < |engines| ==> engines[i] in prints && EvidenceOf(engines, prints)[i] == prints[engines[i]]
    ensures (set x | x in EvidenceOf(engines, prints)) == prints.Values
  {
    var evidence := EvidenceOf(engines, prints);
    forall i | 0 <= i < |engines| ensures engines[i] in prints && evidence[i] == prints[engines[i]] {
      assert engines[i] in engines;
    }
    forall x ensures x in evidence <==> x in prints.Values {
      if x in prints.Values {
        var e :| e in prints && prints[e] == x;
        var i :| 0 <= i < |engines| && engines[i] == e;
        assert evidence[i] == x;
      }
      if x in evidence {
        var i :| 0 <= i < |evidence| && evidence[i] == x;
        assert prints[engines[i]] in prints.Values;
      }
    }
  }

  lemma EvidenceDistinctExactly(engines: seq<string>, prints: map<string, string>)
    requires Distinct(engines) && (set e | e in engines) == prints.Keys
    ensures Distinct(EvidenceOf(engines, prints)) <==> TellApart(prints)
  {
    EvidenceMembers(engines, prints);
    var evidence := EvidenceOf(engines, prints);
    hide EvidenceOf;
    if Distinct(evidence) {
      forall d, e | d in prints && e in prints && prints[d] == prints[e] ensures d == e {
        var i :| 0 <= i < |engines| && engines[i] == d;
        var j :| 0 <= j < |engines| && engines[j] == e;
        assert evidence[i] == evidence[j];
      }
    }
    if TellApart(prints) {
      forall i, j | 0 <= i < j < |evidence| ensures evidence[i] != evidence[j] {
        assert engines[i] != engines[j];
      }
    }
  }

  lemma EvidenceExactly(c: Contract, engines: seq<string>, prints: map<string, string>)
    requires Distinct(engines) && (set e | e in engines) == c.engines == prints.Keys
    ensures (set x | x in EvidenceOf(engines, prints)) == prints.Values
    ensures EvidenceOk(c, EvidenceOf(engines, prints))
            <==> (forall e :: e in c.engines ==> IsDigest(prints[e])) && TellApart(prints)
  {
    hide IsDigest, TellApart;
    DistinctSize(engines);
    EvidenceMembers(engines, prints);
    EvidenceDistinctExactly(engines, prints);
    hide EvidenceOf, Distinct;
    assert forall e :: e in c.engines ==> prints[e] in prints.Values;
    assert forall x :: x in prints.Values ==> exists e :: e in c.engines && prints[e] == x;
    assert forall x :: x in EvidenceOf(engines, prints) <==> x in prints.Values;
  }

  lemma ItsOwnPrints(c: Contract, engines: seq<string>, table: map<string, Compiler>, prints: map<string, string>)
    requires c.Valid() && Standard(c) && Distinct(engines) && (set e | e in engines) == c.engines
    requires table.Keys == c.engines && prints.Keys == c.engines
    ensures Fingerprinted(c, Generated(c, engines, table, prints), EvidenceOf(engines, prints), None, prints)
  {
    hide Produced, Generated;
    EvidenceExactly(c, engines, prints);
    GeneratedMembers(c, engines, table, prints);
    forall f | f in Generated(c, engines, table, prints) ensures f.engine in prints && prints[f.engine] == f.fingerprint {
      var e, b: nat, k: nat :| e in engines && b < 3 && k < |c.actions| && f == Produced(c, table[e], e, prints[e], b, k);
      ProducedKey(c, table[e], e, prints[e], b, k);
    }
  }

  // ---------------------------------------------------------------- the native proofs

  /** Required findings of one target are one finding. */
  ghost predicate OneForEach(findings: seq<Finding>) {
    forall f, g :: f in findings && g in findings && f.obligation == "required" == g.obligation && f.target == g.target ==> f == g
  }

  lemma {:induction false} EntriesOf(engine: string, findings: seq<Finding>, run: Execution)
    requires OneForEach(findings)
    ensures forall id :: id in ProofEntries(engine, findings, run)
                         <==> exists f :: f in findings && f.obligation == "required" && f.target == id
    ensures forall f :: f in findings && f.obligation == "required" ==>
              ProofEntries(engine, findings, run)[f.target] == ProofEntry(engine, f, run)
  {
    hide ProofEntry;
    if findings != [] {
      var n := |findings| - 1;
      var before, last := findings[..n], findings[n];
      assert findings == before + [last];
      assert forall f :: f in findings <==> f in before || f == last;
      EntriesOf(engine, before, run);
    }
  }

  lemma {:induction false} ReportedRows(compiler: Compiler, actions: seq<Action>, k: nat, fingerprint: string)
    requires k <= |actions|
    ensures forall f :: f in Reported(compiler, actions, k, fingerprint)
                        <==> exists b: nat, j: nat :: b < 3 && k <= j < |actions|
                                                      && f == Row(compiler, j, actions[j], fingerprint)[b]
    decreases |actions| - k
  {
    hide Row;
    if k < |actions| {
      ReportedRows(compiler, actions, k + 1, fingerprint);
      var row := Row(compiler, k, actions[k], fingerprint);
      assert forall f :: f in row <==> exists b: nat :: b < 3 && f == row[b];
      hide Reported;
    }
  }

  lemma LoweredIsRequired(k: nat, a: Action, fingerprint: string, effects: seq<string>, supported: bool)
    ensures Lowered(k, a, fingerprint, effects, supported).obligation == "required"
    ensures Lowered(k, a, fingerprint, effects, supported).target == a.id
  {
  }

  lemma NotApplicableIsNotRequired(boundary: string, k: nat, reason: string, a: Action, fingerprint: string)
    ensures NotApplicable(boundary, k, reason, a, fingerprint).obligation != "required"
  {
    OutcomesDiffer();
  }

  /** The finding a relational compiler requires a proof for. */
  function RequiredFinding(compiler: Compiler, k: nat, a: Action, fingerprint: string): Finding
    requires compiler.Relational?
  {
    Lowered(k, a, fingerprint, compiler.effects, a.name in compiler.supported)
  }

  lemma RequiredRow(compiler: Compiler, b: nat, k: nat, a: Action, fingerprint: string)
    requires b < 3
    ensures var f := Row(compiler, k, a, fingerprint)[b];
            && (f.obligation == "required" <==> compiler.Relational? && b == 1)
            && (compiler.Relational? && b == 1 ==> f == RequiredFinding(compiler, k, a, fingerprint))
  {
    hide NotApplicable, Lowered;
    if compiler.Relational? && b == 1 {
      LoweredIsRequired(k, a, fingerprint, compiler.effects, a.name in compiler.supported);
    } else {
      var name := if b == 0 then "source" else if b == 1 then "relational" else "sink";
      NotApplicableIsNotRequired(name, k, ReasonGiven(compiler, b), a, fingerprint);
    }
  }

  lemma RequiredFindings(compiler: Compiler, actions: seq<Action>, fingerprint: string)
    ensures forall f :: f in Reported(compiler, actions, 0, fingerprint) && f.obligation == "required"
                        <==> exists k: nat :: k < |actions| && compiler.Relational?
                               && f == RequiredFinding(compiler, k, actions[k], fingerprint)
  {
    ReportedRows(compiler, actions, 0, fingerprint);
    forall b: nat, k: nat | b < 3 && k < |actions|
      ensures var f := Row(compiler, k, actions[k], fingerprint)[b];
              && (f.obligation == "required" <==> compiler.Relational? && b == 1)
              && (compiler.Relational? && b == 1 ==> f == RequiredFinding(compiler, k, actions[k], fingerprint))
    {
      RequiredRow(compiler, b, k, actions[k], fingerprint);
    }
    hide Row, Reported, RequiredFinding;
    forall k: nat | k < |actions| && compiler.Relational?
      ensures var f := RequiredFinding(compiler, k, actions[k], fingerprint);
              f in Reported(compiler, actions, 0, fingerprint) && f.obligation == "required"
    {
      assert Row(compiler, k, actions[k], fingerprint)[1] == RequiredFinding(compiler, k, actions[k], fingerprint);
    }
  }

  lemma HostEntries(c: Contract, engine: string, fingerprint: string, run: Execution)
    requires c.Valid()
    ensures ProofEntries(engine, Reported(Host, c.actions, 0, fingerprint), run) == map[]
  {
    var findings := Reported(Host, c.actions, 0, fingerprint);
    RequiredFindings(Host, c.actions, fingerprint);
    hide Reported, ProofEntry, ProofEntries;
    EntriesOf(engine, findings, run);
  }

  /** A relational compiler leaves one proof entry for each action. */
  lemma EntryForEach(c: Contract, engine: string, compiler: Compiler, fingerprint: string, run: Execution, k: nat)
    requires c.Valid() && compiler.Relational? && k < |c.actions|
    ensures var entries := ProofEntries(engine, Reported(compiler, c.actions, 0, fingerprint), run);
            && c.actions[k].id in entries
            && entries[c.actions[k].id] == ProofEntry(engine, RequiredFinding(compiler, k, c.actions[k], fingerprint), run)
  {
    var findings, f := Reported(compiler, c.actions, 0, fingerprint), RequiredFinding(compiler, k, c.actions[k], fingerprint);
    RequiredFindings(compiler, c.actions, fingerprint);
    RequiredTarget(compiler, k, c.actions[k], fingerprint);
    OneRequired(c, compiler, findings, fingerprint);
    hide Reported, RequiredFinding, ProofEntry, ProofEntries, OneForEach, Contract.Valid;
    EntriesOf(engine, findings, run);
    assert f in findings && f.obligation == "required";
  }

  lemma EntryIsAnAction(c: Contract, engine: string, compiler: Compiler, fingerprint: string, run: Execution, id: string)
    requires c.Valid() && compiler.Relational?
    requires id in ProofEntries(engine, Reported(compiler, c.actions, 0, fingerprint), run)
    ensures id in c.ActionIds()
  {
    var findings := Reported(compiler, c.actions, 0, fingerprint);
    assert OneForEach(findings) by {
      RequiredFindings(compiler, c.actions, fingerprint);
      OneRequired(c, compiler, findings, fingerprint);
    }
    hide Reported, RequiredFinding, ProofEntry, ProofEntries, OneForEach, Contract.Valid;
    EntriesOf(engine, findings, run);
    var f :| f in findings && f.obligation == "required" && f.target == id;
    RequiredFindings(compiler, c.actions, fingerprint);
    var k: nat :| k < |c.actions| && f == RequiredFinding(compiler, k, c.actions[k], fingerprint);
    RequiredTarget(compiler, k, c.actions[k], fingerprint);
    assert c.actions[k] in c.actions;
  }

  lemma EntryIds(c: Contract, engine: string, compiler: Compiler, fingerprint: string, run: Execution)
    requires c.Valid() && compiler.Relational?
    ensures ProofEntries(engine, Reported(compiler, c.actions, 0, fingerprint), run).Keys == c.ActionIds()
  {
    hide Reported, RequiredFinding, ProofEntry, ProofEntries, Contract.Valid;
    var entries := ProofEntries(engine, Reported(compiler, c.actions, 0, fingerprint), run);
    forall id ensures id in entries <==> id in c.ActionIds() {
      if id in entries {
        EntryIsAnAction(c, engine, compiler, fingerprint, run, id);
      }
      if id in c.ActionIds() {
        var k: nat :| k < |c.actions| && c.actions[k].id == id;
        EntryForEach(c, engine, compiler, fingerprint, run, k);
      }
    }
  }

  lemma RequiredTarget(compiler: Compiler, k: nat, a: Action, fingerprint: string)
    requires compiler.Relational?
    ensures RequiredFinding(compiler, k, a, fingerprint).target == a.id
  {
    hide At;
  }

  lemma OneRequired(c: Contract, compiler: Compiler, findings: seq<Finding>, fingerprint: string)
    requires c.Valid()
    requires forall f :: f in findings && f.obligation == "required"
                         <==> exists k: nat :: k < |c.actions| && compiler.Relational?
                                && f == RequiredFinding(compiler, k, c.actions[k], fingerprint)
    ensures OneForEach(findings)
  {
    hide RequiredFinding;
    forall f, g | f in findings && g in findings && f.obligation == "required" == g.obligation
           && f.target == g.target ensures f == g {
      var j: nat :| j < |c.actions| && compiler.Relational? && f == RequiredFinding(compiler, j, c.actions[j], fingerprint);
      var k: nat :| k < |c.actions| && compiler.Relational? && g == RequiredFinding(compiler, k, c.actions[k], fingerprint);
      RequiredTarget(compiler, j, c.actions[j], fingerprint);
      RequiredTarget(compiler, k, c.actions[k], fingerprint);
    }
  }

  /** What the generator records for one engine. */
  function EngineRecord(c: Contract, engine: string, compiler: Compiler, fingerprint: string, run: Execution,
                        sqlite: SqliteExecution): EngineProof
  {
    var native := engine in c.native;
    EngineProof(ProofEntries(engine, Reported(compiler, c.actions, 0, fingerprint), run),
                if native then Some(run.result) else None, if native then Some(run.explain) else None,
                if engine == "sql" then Some(sqlite) else None)
  }

  /** The native run stayed native and left a digest for everything. */
  predicate RunFits(c: Contract, run: Execution) {
    && IsDigest(run.result) && IsDigest(run.explain) && !run.hostFallback
    && forall a :: a in c.actions ==> IsDigest(Digest(run.actionNative, a.id)) && IsDigest(Digest(run.actionExplain, a.id))
  }

  /** The proofs of a fitting compiler are accepted if and only if its native run fits. */
  lemma ProofsAcceptedExactly(c: Contract, engine: string, compiler: Compiler, fingerprint: string, run: Execution,
                              sqlite: SqliteExecution)
    requires c.Valid() && Standard(c) && Fits(c, engine, compiler)
    ensures EngineProofOk(c, engine, EngineRecord(c, engine, compiler, fingerprint, run, sqlite))
            <==> (engine in c.native ==> RunFits(c, run))
  {
    hide IsDigest, Digest, Standard, RequiredFinding, ProofEntry;
    if engine !in c.native {
      HostEntries(c, engine, fingerprint, run);
    } else {
      EntryIds(c, engine, compiler, fingerprint, run);
      var p := EngineRecord(c, engine, compiler, fingerprint, run, sqlite);
      forall k: nat | k < |c.actions|
        ensures c.actions[k].id in p.actions
        ensures ActionProofOk(c, engine, c.actions[k].id, p)
                <==> IsDigest(run.result) && IsDigest(run.explain) && !run.hostFallback
                     && IsDigest(Digest(run.actionNative, c.actions[k].id))
                         && IsDigest(Digest(run.actionExplain, c.actions[k].id))
      {
        EntryForEach(c, engine, compiler, fingerprint, run, k);
        EntryIsJudged(c, engine, compiler, fingerprint, run, p, k);
      }
      hide ProofEntries, EngineRecord, Reported, Fits, ActionProofOk;
      RunExactly(c, engine, run, p);
    }
  }

  lemma RunExactly(c: Contract, engine: string, run: Execution, p: EngineProof)
    requires c.Valid() && engine in c.native && p.actions.Keys == c.ActionIds()
    requires p.result == Some(run.result) && p.explain == Some(run.explain)
    requires forall k: nat :: k < |c.actions| ==>
               (ActionProofOk(c, engine, c.actions[k].id, p)
                <==> IsDigest(run.result) && IsDigest(run.explain) && !run.hostFallback
                     && IsDigest(Digest(run.actionNative, c.actions[k].id))
                         && IsDigest(Digest(run.actionExplain, c.actions[k].id)))
    ensures EngineProofOk(c, engine, p) <==> RunFits(c, run)
  {
    hide IsDigest, Digest, ActionProofOk;
    assert c.actions[0] in c.actions;
    if RunFits(c, run) {
      forall id | id in p.actions ensures ActionProofOk(c, engine, id, p) {
        var k: nat :| k < |c.actions| && c.actions[k].id == id;
        assert c.actions[k] in c.actions;
      }
    }
    if EngineProofOk(c, engine, p) {
      forall k: nat | k < |c.actions| ensures ActionProofOk(c, engine, c.actions[k].id, p) {
        assert c.actions[k] in c.actions;
      }
      forall a | a in c.actions ensures IsDigest(Digest(run.actionNative, a.id)) && IsDigest(Digest(run.actionExplain, a.id)) {
        var k: nat :| k < |c.actions| && c.actions[k] == a;
        assert ActionProofOk(c, engine, c.actions[k].id, p);
      }
      assert ActionProofOk(c, engine, c.actions[0].id, p);
    }
  }

  lemma EntryIsJudged(c: Contract, engine: string, compiler: Compiler, fingerprint: string, run: Execution, p: EngineProof,
                      k: nat)
    requires c.Valid() && engine in c.native && Fits(c, engine, compiler) && k < |c.actions| && c.actions[k].id in p.actions
    requires p.actions[c.actions[k].id]
             == ProofEntry(engine, RequiredFinding(compiler, k, c.actions[k], fingerprint), run)
    requires p.result == Some(run.result) && p.explain == Some(run.explain)
    ensures ActionProofOk(c, engine, c.actions[k].id, p)
            <==> IsDigest(run.result) && IsDigest(run.explain) && !run.hostFallback
                 && IsDigest(Digest(run.actionNative, c.actions[k].id)) && IsDigest(Digest(run.actionExplain, c.actions[k].id))
  {
    hide IsDigest, Digest, At;
    assert c.actions[k] in c.actions && c.actions[k] == Action(c.actions[k].id, c.actions[k].name);
    EffectsAre(engine);
  }

  /** The SQLite run is judged by its digests, one for each action, and by whether it fell back to the host. */
  lemma SqliteAcceptedExactly(c: Contract, proofs: map<string, EngineProof>)
    ensures SqliteOk(c, proofs)
            <==> exists run: SqliteExecution :: "sql" in proofs && proofs["sql"].sqlite == Some(run)
                   && IsDigest(run.result) && IsDigest(run.explain) && run.hostFallback == false
                   && (forall id :: id in run.actionNative <==> exists a :: a in c.actions && a.id == id)
                   && (forall id :: id in run.actionExplain <==> exists a :: a in c.actions && a.id == id)
                   && (forall id :: id in run.actionNative ==> IsDigest(run.actionNative[id]))
                   && (forall id :: id in run.actionExplain ==> IsDigest(run.actionExplain[id]))
  {
    hide IsDigest;
  }

  // ---------------------------------------------------------------- release 0.50

  /** The actions of the plan that the generator has every compiler analyse. */
  const PLAN := [
    Action("f", "dtcs:filter"), Action("p", "dtcs:project"), Action("w", "dtcs:with_fields"), Action("d", "dtcs:drop_fields"),
    Action("n", "dtcs:rename_fields"), Action("j", "dtcs:join"), Action("u", "dtcs:union"), Action("a", "dtcs:aggregate"),
    Action("s", "dtcs:sort"), Action("x", "dtcs:distinct"), Action("k", "dtcs:deduplicate"), Action("l", "dtcs:limit")]

  /** The first-party compilers, for the set of actions they all support. */
  function Compilers(supported: set<string>): map<string, Compiler> {
    map["local" := Host, "polars" := Host, "pandas" := Host,
        "sql" := Relational(["materialization", "lost_fusion"], supported),
        "duckdb" := Relational(["materialization", "lost_fusion"], supported),
        "pyspark" := Relational([], supported), "datafusion" := Relational([], supported)]
  }

  /** The frozen contract of the checker is the plan's, with the engines and effects of the seven compilers. */
  lemma FrozenContractFitsTheCompilers(supported: set<string>)
    requires forall a :: a in PLAN ==> a.name in supported
    ensures FROZEN.actions == PLAN && Standard(FROZEN) && FROZEN.engines == Compilers(supported).Keys
    ensures forall e :: e in FROZEN.engines ==> Fits(FROZEN, e, Compilers(supported)[e])
  {
    FrozenEngines(supported);
    var twice, none := ["materialization", "lost_fusion"], [];
    assert (set x | x in twice) == {"materialization", "lost_fusion"};
    assert (set x: string | x in none) == {};
  }

  lemma FrozenEngines(supported: set<string>)
    ensures FROZEN.engines == Compilers(supported).Keys
    ensures forall e :: e in FROZEN.engines ==> (e in FROZEN.native <==> Compilers(supported)[e].Relational?)
  {
  }
}
