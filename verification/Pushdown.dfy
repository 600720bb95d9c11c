/**
 The pushdown matrix check: one finding for each engine, boundary and action, each saying what
 the frozen contract says, engine fingerprints that tell the engines apart, and one native proof
 for each required finding. Everything is proved for any well-formed contract.
 */
module Pushdown {
  import opened PyText
  import opened Sorting

  datatype Action = Action(id: string, name: string)

  datatype Contract = Contract(engines: set<string>, native: set<string>, boundaries: seq<string>, actions: seq<Action>) {
    ghost predicate Valid() {
      && native <= engines && engines != {}
      && Distinct(boundaries) && "relational" in boundaries && (forall b :: b in boundaries ==> ':' !in b)
      && actions != [] && (forall i, j :: 0 <= i < j < |actions| ==> actions[i].id != actions[j].id)
    }

    function ActionIds(): set<string> {
      set a | a in actions :: a.id
    }
  }

  /** The contract of release 0.50. */
  const FROZEN := Contract(
    {"local", "polars", "pandas", "sql", "pyspark", "datafusion", "duckdb"},
    {"sql", "pyspark", "datafusion", "duckdb"},
    ["source", "relational", "sink"],
    [Action("f", "dtcs:filter"), Action("p", "dtcs:project"), Action("w", "dtcs:with_fields"),
     Action("d", "dtcs:drop_fields"), Action("n", "dtcs:rename_fields"), Action("j", "dtcs:join"),
     Action("u", "dtcs:union"), Action("a", "dtcs:aggregate"), Action("s", "dtcs:sort"),
     Action("x", "dtcs:distinct"), Action("k", "dtcs:deduplicate"), Action("l", "dtcs:limit")])

  lemma FrozenBoundaries()
    ensures var b := FROZEN.boundaries; |b| == 3 && Distinct(b) && "relational" in b && forall x :: x in b ==> ':' !in x
  {
  }

  lemma DifferentLetters()
    ensures var letters := "fpwdnjuasxkl"; forall i, j :: 0 <= i < j < 12 ==> letters[i] != letters[j]
  {
  }

  lemma FrozenActions()
    ensures |FROZEN.actions| == 12
    ensures forall i, j :: 0 <= i < j < 12 ==> FROZEN.actions[i].id != FROZEN.actions[j].id
  {
    var letters := "fpwdnjuasxkl";
    assert forall i :: 0 <= i < 12 ==> |FROZEN.actions[i].id| == 1 && FROZEN.actions[i].id[0] == letters[i];
    DifferentLetters();
  }

  lemma FrozenIsValid()
    ensures FROZEN.Valid() && |FROZEN.boundaries| == 3 && |FROZEN.actions| == 12
  {
    FrozenBoundaries();
    FrozenActions();
    assert FROZEN.native <= FROZEN.engines && "sql" in FROZEN.engines;
    hide FROZEN, Distinct;
  }

  /** A finding as recorded; its boundary is written `name:index`. */
  datatype Finding = Finding(
    engine: string,
    boundary: string,
    action: string,
    target: string,
    fingerprint: string,
    outcome: string,
    obligation: string,
    reason: string,
    effects: seq<string>,
    proof: Option<string>)

  datatype Key = Key(engine: string, boundary: string, action: string)

  datatype ProofKey = ProofKey(engine: string, action: string)

  /** `[0-9a-f]{64}`. */
  predicate IsDigest(s: string) {
    |s| == 64 && Hexadecimal(s)
  }

  /** The digests are exactly the hexadecimal texts of 32 bytes. */
  lemma DigestsAreHex(s: string)
    ensures IsDigest(s) <==> exists bytes :: Octets(bytes, 32) && s == Hex(bytes)
  {
    HexadecimalExactly(s, 32);
  }

  // ---------------------------------------------------------------- one finding

  predicate Required(c: Contract, key: Key) {
    key.engine in c.native && key.boundary == "relational"
  }

  function Reason(c: Contract, key: Key): string {
    if Required(c, key) then "action lowered into the native relational plan"
    else if key.engine !in c.native then "host-owned execution has no backend pushdown boundary"
    else if key.boundary == "source" then "connector source pushdown is outside the native plan contract"
    else "sink pushdown is outside the native plan contract"
  }

  function Effects(engine: string): set<string> {
    if engine == "sql" || engine == "duckdb" then {"materialization", "lost_fusion"} else {}
  }

  function ProofId(engine: string, action: string): string {
    "native-execution:" + engine + ":" + action
  }

  /** What the contract fixes about a finding with a given key. */
  predicate Agrees(c: Contract, key: Key, f: Finding) {
    && f.outcome == (if Required(c, key) then "pushed_exact" else "not_applicable")
    && f.obligation == (if Required(c, key) then "required" else "informational")
    && f.reason == Reason(c, key)
    && (set x | x in f.effects) == (if Required(c, key) then Effects(key.engine) else {})
    && (if Required(c, key) then f.proof == Some(ProofId(key.engine, key.action))
        else f.proof == None || f.proof == Some(""))
  }

  function BoundaryName(boundary: string): string {
    match SplitFirst(boundary, ':')
    case None => boundary
    case Some((name, _)) => name
  }

  function KeyOf(f: Finding): Key {
    Key(f.engine, BoundaryName(f.boundary), f.target)
  }

  /**
   The checks on a finding's identity. The recorded boundary index has to be the decimal position
   of the target action, which subsumes the digit and range tests in front of it.
   */
  predicate Identified(c: Contract, f: Finding) {
    && f.engine in c.engines && IsDigest(f.fingerprint)
    && BoundaryName(f.boundary) in c.boundaries
    && exists k :: 0 <= k < |c.actions| && c.actions[k] == Action(f.target, f.action)
                   && f.boundary == BoundaryName(f.boundary) + ":" + Decimal(k)
  }

  function ExpectedKeys(c: Contract): set<Key> {
    set e, b, a | e in c.engines && b in c.boundaries && a in c.ActionIds() :: Key(e, b, a)
  }

  predicate FindingOk(c: Contract, f: Finding) {
    Identified(c, f) && Agrees(c, KeyOf(f), f)
  }

  function Keys(findings: seq<Finding>): seq<Key> {
    MapSeq(KeyOf, findings)
  }

  function FingerprintsOf(findings: seq<Finding>, engine: string): set<string> {
    set f | f in findings && f.engine == engine :: f.fingerprint
  }

  /** The findings fill the matrix, one for each key, and agree with the contract. */
  ghost predicate Matrix(c: Contract, findings: seq<Finding>) {
    && (forall f :: f in findings ==> FindingOk(c, f))
    && Distinct(Keys(findings))
    && (set k | k in Keys(findings)) == ExpectedKeys(c)
  }

  /** One fingerprint for each engine, together the recorded evidence, and as expected where given. */
  ghost predicate Fingerprinted(c: Contract, findings: seq<Finding>, evidence: seq<string>, expected: Option<map<string, string>>,
                                prints: map<string, string>)
  {
    && prints.Keys == c.engines && prints.Values == (set x | x in evidence)
    && (forall f :: f in findings ==> f.engine in prints && prints[f.engine] == f.fingerprint)
    && (expected.Some? ==> expected.value == prints)
  }

  /** The evidence list: as many distinct digests as there are engines. */
  ghost predicate EvidenceOk(c: Contract, evidence: seq<string>) {
    |evidence| == |c.engines| && Distinct(evidence) && forall x :: x in evidence ==> IsDigest(x)
  }

  /** What acceptance of the findings half means. */
  ghost predicate FindingsOk(c: Contract, findings: seq<Finding>, evidence: seq<string>, expected: Option<map<string, string>>) {
    && EvidenceOk(c, evidence)
    && Matrix(c, findings)
    && exists prints :: Fingerprinted(c, findings, evidence, expected, prints)
  }

  /** What the loop over the findings has gathered from the ones it has accepted. */
  ghost predicate Scanned(c: Contract, findings: seq<Finding>, keys: set<Key>, required: set<ProofKey>,
                          prints: map<string, set<string>>)
  {
    && (forall f :: f in findings ==> FindingOk(c, f))
    && Distinct(Keys(findings))
    && keys == (set k | k in Keys(findings))
    && required == RequiredProofs(c, keys)
    && prints.Keys == c.engines && forall e :: e in prints ==> prints[e] == FingerprintsOf(findings, e)
  }

  lemma ScanStep(c: Contract, done: seq<Finding>, f: Finding, keys: set<Key>, required: set<ProofKey>,
                 prints: map<string, set<string>>)
    requires Scanned(c, done, keys, required, prints) && FindingOk(c, f) && KeyOf(f) !in keys
    ensures f.engine in prints
    ensures Scanned(c, done + [f], keys + {KeyOf(f)},
                    required + (if Required(c, KeyOf(f)) then {ProofKey(f.engine, KeyOf(f).action)} else {}),
                    prints[f.engine := prints[f.engine] + {f.fingerprint}])
  {
    hide FindingOk, KeyOf, RequiredProofs, Required, FingerprintsOf;
    FindingEngine(c, f);
    KeysGrow(done, f);
    RequiredGrow(c, keys, KeyOf(f));
    PrintsGrow(done, f);
    assert forall x :: x in done + [f] <==> x in done || x == f;
  }

  lemma KeysGrow(done: seq<Finding>, f: Finding)
    requires Distinct(Keys(done)) && KeyOf(f) !in Keys(done)
    ensures Distinct(Keys(done + [f]))
    ensures (set k | k in Keys(done + [f])) == (set k | k in Keys(done)) + {KeyOf(f)}
  {
    hide KeyOf;
    assert Keys(done + [f]) == Keys(done) + [KeyOf(f)];
  }

  lemma PrintsGrow(done: seq<Finding>, f: Finding)
    ensures forall e :: FingerprintsOf(done + [f], e) == FingerprintsOf(done, e) + if f.engine == e then {f.fingerprint} else {}
  {
    assert forall x :: x in done + [f] <==> x in done || x == f;
  }

  /** The loop over the findings: the keys, the required proofs and the fingerprints by engine. */
  method ScanFindings(c: Contract, findings: seq<Finding>)
    returns (ok: bool, keys: set<Key>, required: set<ProofKey>, prints: map<string, set<string>>)
    ensures ok <==> (forall f :: f in findings ==> FindingOk(c, f)) && Distinct(Keys(findings))
    ensures ok ==> Scanned(c, findings, keys, required, prints)
  {
    keys, required := {}, {};
    prints := map e | e in c.engines :: {};
    hide FindingOk, KeyOf, Required;
    assert Scanned(c, [], keys, required, prints);
    for i := 0 to |findings|
      invariant Scanned(c, findings[..i], keys, required, prints)
    {
      hide Scanned;
      var f := findings[i];
      assert f in findings;
      if !FindingOk(c, f) {
        return false, keys, required, prints;
      }
      var key := KeyOf(f);
      if key in keys {
        RepeatedKey(c, findings, i, keys, required, prints);
        return false, keys, required, prints;
      }
      ScanStep(c, findings[..i], f, keys, required, prints);
      KeyFields(f);
      assert findings[..i + 1] == findings[..i] + [f];
      prints := prints[f.engine := prints[f.engine] + {f.fingerprint}];
      keys := keys + {key};
      if Required(c, key) {
        required := required + {ProofKey(f.engine, key.action)};
      }
      assert required + {} == required;
    }
    assert findings[..|findings|] == findings;
    ok := true;
  }

  lemma KeyFields(f: Finding)
    ensures KeyOf(f).engine == f.engine
  {
  }

  /** The native proofs a set of findings calls for. */
  function RequiredProofs(c: Contract, keys: set<Key>): set<ProofKey> {
    set k | k in keys && Required(c, k) :: ProofKey(k.engine, k.action)
  }

  lemma RequiredGrow(c: Contract, keys: set<Key>, key: Key)
    ensures RequiredProofs(c, keys + {key})
            == RequiredProofs(c, keys) + if Required(c, key) then {ProofKey(key.engine, key.action)} else {}
  {
  }

  lemma FindingEngine(c: Contract, f: Finding)
    requires FindingOk(c, f)
    ensures f.engine in c.engines && KeyOf(f).engine == f.engine
  {
  }

  lemma RepeatedKey(c: Contract, findings: seq<Finding>, i: nat, keys: set<Key>, required: set<ProofKey>,
                    prints: map<string, set<string>>)
    requires i < |findings| && Scanned(c, findings[..i], keys, required, prints) && KeyOf(findings[i]) in keys
    ensures !Distinct(Keys(findings))
  {
    hide KeyOf, FindingOk;
    var j :| 0 <= j < i && Keys(findings[..i])[j] == KeyOf(findings[i]);
    assert Keys(findings)[j] == Keys(findings)[i];
  }

  /** The first half of `validate_pushdown_findings`; also hands on the required proofs. */
  method CheckFindings(c: Contract, findings: seq<Finding>, evidence: seq<string>, expected: Option<map<string, string>>)
    returns (ok: bool, required: set<ProofKey>)
    requires c.Valid()
    ensures ok <==> FindingsOk(c, findings, evidence, expected)
    ensures ok ==> required == RequiredProofs(c, ExpectedKeys(c))
  {
    hide FindingOk, IsDigest, ExpectedKeys, RequiredProofs, Fingerprinted, KeyOf, FingerprintsOf;
    required := {};
    var distinct := AllDistinct(evidence);
    if |evidence| != |c.engines| || !distinct || exists x :: x in evidence && !IsDigest(x) {
      return false, required;
    }
    ExpectedAreDigests(c, findings, evidence, expected);
    if expected.Some? && (expected.value.Keys != c.engines || exists e :: e in expected.value && !IsDigest(expected.value[e])) {
      return false, required;
    }
    var scanned, keys, proofs, byEngine := ScanFindings(c, findings);
    required := proofs;
    if !scanned || keys != ExpectedKeys(c) {
      return false, required;
    }
    PrintsExactly(c, findings, evidence, expected, byEngine);
    ok := (forall e :: e in c.engines ==> |byEngine[e]| == 1)
          && (set e, x | e in c.engines && x in byEngine[e] :: x) == (set x | x in evidence)
          && (expected.Some? ==> forall e :: e in c.engines ==> byEngine[e] == {expected.value[e]});
  }

  lemma ExpectedAreDigests(c: Contract, findings: seq<Finding>, evidence: seq<string>, expected: Option<map<string, string>>)
    ensures expected.Some? && FindingsOk(c, findings, evidence, expected) ==>
              expected.value.Keys == c.engines && forall e :: e in expected.value ==> IsDigest(expected.value[e])
  {
    if expected.Some? && FindingsOk(c, findings, evidence, expected) {
      var prints :| Fingerprinted(c, findings, evidence, expected, prints);
      forall e | e in prints ensures IsDigest(prints[e]) {
        assert prints[e] in prints.Values;
      }
    }
  }

  /** Some finding speaks for every engine. */
  lemma EngineHasFinding(c: Contract, findings: seq<Finding>, engine: string) returns (f: Finding)
    requires c.Valid() && Matrix(c, findings) && engine in c.engines
    ensures f in findings && f.engine == engine
  {
    var key := Key(engine, "relational", c.actions[0].id);
    assert c.actions[0] in c.actions && c.actions[0].id in c.ActionIds();
    assert key in ExpectedKeys(c);
    assert key in (set k | k in Keys(findings));
    var i :| 0 <= i < |findings| && Keys(findings)[i] == key;
    f := findings[i];
  }

  /** The three set tests say exactly that the fingerprints form a function on the engines. */
  lemma PrintsExactly(c: Contract, findings: seq<Finding>, evidence: seq<string>, expected: Option<map<string, string>>,
                      byEngine: map<string, set<string>>)
    requires c.Valid() && Matrix(c, findings)
    requires expected.Some? ==> expected.value.Keys == c.engines
    requires byEngine.Keys == c.engines && forall e :: e in byEngine ==> byEngine[e] == FingerprintsOf(findings, e)
    ensures (exists prints :: Fingerprinted(c, findings, evidence, expected, prints)) <==>
              && (forall e :: e in c.engines ==> |byEngine[e]| == 1)
              && (set e, x | e in c.engines && x in byEngine[e] :: x) == (set x | x in evidence)
              && (expected.Some? ==> forall e :: e in c.engines ==> byEngine[e] == {expected.value[e]})
  {
    hide FindingOk, ExpectedKeys;
    forall f | f in findings ensures f.engine in c.engines {
      FindingEngine(c, f);
    }
    if prints :| Fingerprinted(c, findings, evidence, expected, prints) {
      PrintsAreSingletons(c, findings, evidence, expected, byEngine, prints);
    }
    if && (forall e :: e in c.engines ==> |byEngine[e]| == 1)
       && (set e, x | e in c.engines && x in byEngine[e] :: x) == (set x | x in evidence)
       && (expected.Some? ==> forall e :: e in c.engines ==> byEngine[e] == {expected.value[e]})
    {
      SingletonsArePrints(c, findings, evidence, expected, byEngine);
    }
  }

  lemma PrintsAreSingletons(c: Contract, findings: seq<Finding>, evidence: seq<string>, expected: Option<map<string, string>>,
                            byEngine: map<string, set<string>>, prints: map<string, string>)
    requires c.Valid() && Matrix(c, findings) && Fingerprinted(c, findings, evidence, expected, prints)
    requires byEngine.Keys == c.engines && forall e :: e in byEngine ==> byEngine[e] == FingerprintsOf(findings, e)
    ensures forall e :: e in c.engines ==> byEngine[e] == {prints[e]} && |byEngine[e]| == 1
    ensures (set e, x | e in c.engines && x in byEngine[e] :: x) == (set x | x in evidence)
  {
    hide Matrix;
    forall e | e in c.engines ensures byEngine[e] == {prints[e]} {
      OnePrint(c, findings, evidence, expected, prints, e);
    }
    UnionOfSingletons(c.engines, byEngine, prints);
  }

  lemma OnePrint(c: Contract, findings: seq<Finding>, evidence: seq<string>, expected: Option<map<string, string>>,
                 prints: map<string, string>, engine: string)
    requires c.Valid() && Matrix(c, findings) && Fingerprinted(c, findings, evidence, expected, prints)
    requires engine in c.engines
    ensures FingerprintsOf(findings, engine) == {prints[engine]}
  {
    hide Matrix;
    var f := EngineHasFinding(c, findings, engine);
    assert f.fingerprint in FingerprintsOf(findings, engine);
  }

  lemma UnionOfSingletons(engines: set<string>, byEngine: map<string, set<string>>, prints: map<string, string>)
    requires byEngine.Keys == prints.Keys == engines && forall e :: e in engines ==> byEngine[e] == {prints[e]}
    ensures (set e, x | e in engines && x in byEngine[e] :: x) == prints.Values
  {
    var union := set e, x | e in engines && x in byEngine[e] :: x;
    forall x | x in prints.Values ensures x in union {
      var e :| e in prints && prints[e] == x;
      assert x in byEngine[e];
    }
  }

  lemma SingletonsArePrints(c: Contract, findings: seq<Finding>, evidence: seq<string>, expected: Option<map<string, string>>,
                            byEngine: map<string, set<string>>)
    requires forall f :: f in findings ==> f.engine in c.engines
    requires expected.Some? ==> expected.value.Keys == c.engines
    requires byEngine.Keys == c.engines && forall e :: e in byEngine ==> byEngine[e] == FingerprintsOf(findings, e)
    requires forall e :: e in c.engines ==> |byEngine[e]| == 1
    requires (set e, x | e in c.engines && x in byEngine[e] :: x) == (set x | x in evidence)
    requires expected.Some? ==> forall e :: e in c.engines ==> byEngine[e] == {expected.value[e]}
    ensures exists prints :: Fingerprinted(c, findings, evidence, expected, prints)
  {
    forall e | e in c.engines ensures exists x :: byEngine[e] == {x} {
      SingletonHasOne(byEngine[e]);
    }
    var prints := map e | e in c.engines :: Only(byEngine[e]);
    forall f | f in findings ensures prints[f.engine] == f.fingerprint {
      assert f.fingerprint in FingerprintsOf(findings, f.engine);
    }
    var union := set e, x | e in c.engines && x in byEngine[e] :: x;
    forall x ensures x in prints.Values <==> x in union {
      if x in union {
        var e :| e in c.engines && x in byEngine[e];
        assert prints[e] == x;
      }
      if x in prints.Values {
        var e :| e in prints && prints[e] == x;
        assert x in byEngine[e];
      }
    }
    assert Fingerprinted(c, findings, evidence, expected, prints);
  }

  ghost function Only(s: set<string>): string
    requires exists x :: s == {x}
  {
    var x :| s == {x};
    x
  }

  lemma SingletonHasOne(s: set<string>)
    requires |s| == 1
    ensures exists x :: s == {x}
  {
    var x :| x in s;
    assert |s - {x}| == 0;
    assert s == {x};
  }

  // ---------------------------------------------------------------- consequences

  /** The matrix has one finding for each engine, boundary and action, and no other. */
  lemma MatrixIsBijective(c: Contract, findings: seq<Finding>, engine: string, boundary: string, action: string)
    requires c.Valid() && Matrix(c, findings)
    requires engine in c.engines && boundary in c.boundaries && action in c.ActionIds()
    ensures exists i :: 0 <= i < |findings| && KeyOf(findings[i]) == Key(engine, boundary, action)
                        && Agrees(c, Key(engine, boundary, action), findings[i])
                        && forall j :: 0 <= j < |findings| && KeyOf(findings[j]) == KeyOf(findings[i]) ==> j == i
  {
    hide Agrees;
    var key := Key(engine, boundary, action);
    assert key in ExpectedKeys(c);
    assert key in (set k | k in Keys(findings));
    var i :| 0 <= i < |findings| && Keys(findings)[i] == key;
    assert findings[i] in findings && FindingOk(c, findings[i]);
    forall j | 0 <= j < |findings| && KeyOf(findings[j]) == key ensures j == i {
      assert Keys(findings)[j] == Keys(findings)[i];
    }
  }

  lemma {:induction false} ImageSize(keys: set<string>, prints: map<string, string>)
    requires keys <= prints.Keys
    ensures |set e | e in keys :: prints[e]| <= |keys|
    decreases keys
  {
    if keys == {} {
      assert (set e | e in keys :: prints[e]) == {};
    } else {
      var e :| e in keys;
      ImageSize(keys - {e}, prints);
      assert (set x | x in keys :: prints[x]) == (set x | x in keys - {e} :: prints[x]) + {prints[e]};
    }
  }

  /** As many evidence digests as engines: no two engines share a fingerprint. */
  lemma FingerprintsTellEnginesApart(c: Contract, findings: seq<Finding>, evidence: seq<string>,
                                     expected: Option<map<string, string>>, prints: map<string, string>)
    requires EvidenceOk(c, evidence) && Fingerprinted(c, findings, evidence, expected, prints)
    ensures forall a, b :: a in c.engines && b in c.engines && prints[a] == prints[b] ==> a == b
  {
    DistinctSize(evidence);
    forall a, b | a in c.engines && b in c.engines && prints[a] == prints[b] ensures a == b {
      if a != b {
        ImageSize(c.engines - {a}, prints);
        ValuesWithout(prints, a, b);
      }
    }
  }

  lemma ValuesWithout(prints: map<string, string>, a: string, b: string)
    requires a in prints && b in prints && a != b && prints[a] == prints[b]
    ensures prints.Values == set e | e in prints.Keys - {a} :: prints[e]
  {
    var others := set e | e in prints.Keys - {a} :: prints[e];
    forall x | x in prints.Values ensures x in others {
      var e :| e in prints && prints[e] == x;
      assert prints[if e == a then b else e] == x;
    }
  }

  // ---------------------------------------------------------------- native proofs

  datatype ActionProof = ActionProof(
    proofId: string,
    action: string,
    effects: seq<string>,
    hostFallback: bool,
    basis: string,
    explain: string,
    actionExplain: string,
    actionNative: string,
    result: string)

  /** What the SQL engine's record says about the run on SQLite. */
  datatype SqliteExecution = SqliteExecution(
    result: string,
    explain: string,
    hostFallback: bool,
    actionNative: map<string, string>,
    actionExplain: map<string, string>)

  datatype EngineProof = EngineProof(
    actions: map<string, ActionProof>,
    result: Option<string>,
    explain: Option<string>,
    sqlite: Option<SqliteExecution>)

  /** An engine's proofs: none for a host engine, one complete proof for each action of a native one. */
  predicate EngineProofOk(c: Contract, engine: string, p: EngineProof) {
    if engine in c.native then
      && p.actions.Keys == c.ActionIds()
      && p.result.Some? && IsDigest(p.result.value) && p.explain.Some? && IsDigest(p.explain.value)
      && forall a :: a in p.actions ==> ActionProofOk(c, engine, a, p)
    else p.actions == map[] && p.result.None? && p.explain.None?
  }

  predicate ActionProofOk(c: Contract, engine: string, id: string, p: EngineProof)
    requires id in p.actions
  {
    var a := p.actions[id];
    && a.proofId == ProofId(engine, id)
    && Action(id, a.action) in c.actions
    && (set x | x in a.effects) == Effects(engine)
    && !a.hostFallback && a.basis == "native_explain_and_execution_trace"
    && IsDigest(a.explain) && IsDigest(a.actionExplain) && IsDigest(a.actionNative) && IsDigest(a.result)
    && Some(a.result) == p.result && Some(a.explain) == p.explain
  }

  /** Native proofs also equal the independent attestation and the reviewed authority, where those are given. */
  predicate Attested(c: Contract, proofs: map<string, EngineProof>, source: Option<map<string, EngineProof>>) {
    source.Some? ==> forall e :: e in c.native ==> e in source.value && e in proofs && source.value[e] == proofs[e]
  }

  ghost predicate ProofsOk(c: Contract, proofs: map<string, EngineProof>) {
    && proofs.Keys == c.engines
    && forall e :: e in c.engines ==> EngineProofOk(c, e, proofs[e])
  }

  function ProofKeys(proofs: map<string, EngineProof>): set<ProofKey> {
    set e, a | e in proofs && a in proofs[e].actions :: ProofKey(e, a)
  }

  /** The loop over the engines' proofs. */
  method CheckProofs(c: Contract, proofs: map<string, EngineProof>) returns (ok: bool, proofKeys: set<ProofKey>)
    ensures ok <==> ProofsOk(c, proofs)
    ensures ok ==> proofKeys == ProofKeys(proofs)
  {
    hide EngineProofOk;
    proofKeys := {};
    if proofs.Keys != c.engines {
      return false, proofKeys;
    }
    var pending := c.engines;
    while pending != {}
      invariant pending <= c.engines
      invariant forall e :: e in c.engines - pending ==> EngineProofOk(c, e, proofs[e])
      invariant proofKeys == set e, a | e in c.engines - pending && a in proofs[e].actions :: ProofKey(e, a)
      decreases pending
    {
      var engine :| engine in pending;
      if !EngineProofOk(c, engine, proofs[engine]) {
        return false, proofKeys;
      }
      proofKeys := proofKeys + set a | a in proofs[engine].actions :: ProofKey(engine, a);
      pending := pending - {engine};
    }
    ok := true;
  }

  /** Required findings and native proofs correspond one to one, so the final comparison cannot fail. */
  lemma ProofsMatchRequired(c: Contract, proofs: map<string, EngineProof>)
    requires c.Valid() && ProofsOk(c, proofs)
    ensures ProofKeys(proofs) == RequiredProofs(c, ExpectedKeys(c))
    ensures ProofKeys(proofs) == set e, a | e in c.native && a in c.ActionIds() :: ProofKey(e, a)
  {
    var all := set e, a | e in c.native && a in c.ActionIds() :: ProofKey(e, a);
    forall p ensures (p in ProofKeys(proofs) <==> p in all) && (p in RequiredProofs(c, ExpectedKeys(c)) <==> p in all) {
      assert p == ProofKey(p.engine, p.action);
      if p in all {
        var key := Key(p.engine, "relational", p.action);
        assert key in ExpectedKeys(c) && Required(c, key);
        assert EngineProofOk(c, p.engine, proofs[p.engine]);
      }
      if p in ProofKeys(proofs) {
        assert EngineProofOk(c, p.engine, proofs[p.engine]);
      }
    }
  }

  /** One digest for each action of the contract. */
  predicate DigestForEach(c: Contract, digests: map<string, string>) {
    digests.Keys == c.ActionIds() && forall a :: a in digests ==> IsDigest(digests[a])
  }

  /** The SQL engine also ran every action on SQLite, without falling back to the host. */
  predicate SqliteOk(c: Contract, proofs: map<string, EngineProof>) {
    && "sql" in proofs && proofs["sql"].sqlite.Some?
    && var run := proofs["sql"].sqlite.value;
       && IsDigest(run.result) && IsDigest(run.explain) && !run.hostFallback
       && DigestForEach(c, run.actionNative) && DigestForEach(c, run.actionExplain)
  }

  /** `validate_pushdown_findings`; `boundaries` and `evidence` are the payload's lists. */
  method ValidatePushdownFindings(c: Contract, findings: seq<Finding>, boundaries: seq<string>, evidence: seq<string>,
                                  expected: Option<map<string, string>>, proofs: map<string, EngineProof>,
                                  attestations: Option<map<string, EngineProof>>, authority: Option<map<string, EngineProof>>)
    returns (accepted: bool)
    requires c.Valid()
    ensures accepted <==> boundaries == c.boundaries && FindingsOk(c, findings, evidence, expected) && ProofsOk(c, proofs)
                          && (attestations.Some? ==> attestations.value.Keys == c.engines)
                          && (attestations.Some? ==> forall e :: e in c.native ==>
                                e in proofs && attestations.value[e] == proofs[e])
                          && (authority.Some? ==> forall e :: e in c.native ==>
                                e in authority.value && e in proofs && authority.value[e] == proofs[e])
                          && SqliteOk(c, proofs)
  {
    hide FindingsOk, ProofsOk, ExpectedKeys, RequiredProofs, ProofKeys, SqliteOk;
    if boundaries != c.boundaries {
      return false;
    }
    var ok, required := CheckFindings(c, findings, evidence, expected);
    if !ok || (attestations.Some? && attestations.value.Keys != c.engines) {
      return false;
    }
    var proved, proofKeys := CheckProofs(c, proofs);
    if !proved || !Attested(c, proofs, attestations) || !Attested(c, proofs, authority) {
      return false;
    }
    ProofsMatchRequired(c, proofs);
    if proofKeys != required {
      assert false;
    }
    return SqliteOk(c, proofs);
  }
}
