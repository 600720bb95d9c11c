/**
 The adaptive 0.54 evidence: observations of the frozen cases, category records, the index that
 `aggregate` builds over a directory, and the verifier that accepts or refuses it.

 A file's bytes are its parsed document together with its layout; SHA-256 is injective on them.
 A document whose keys or types are wrong is `Malformed`.
 */
module AdaptiveEvidence {
  import opened PyText
  import opened Sorting

  datatype Digest = OfFile(file: File) | OfCases(cases: seq<Case>) | OfCatalogue(catalogue: Catalogue) | Foreign(text: string)

  datatype File = File(document: Document, layout: nat)

  datatype Document =
    | ObservationDocument(observation: Observation)
    | CategoryDocument(category: CategoryRecord)
    | Malformed(text: string)

  datatype Case = Case(id: string, status: string)

  datatype Catalogue = Catalogue(
    schema: string,
    phase: string,
    cases: seq<string>,
    localAc: map<string, seq<string>>,
    programAc: map<string, seq<string>>,
    rows: map<string, seq<string>>,
    categories: map<string, seq<string>>)

  /** A parsed timestamp: whether it is in UTC, and its instant. */
  datatype Time = Time(utc: bool, instant: int)

  datatype Ci = Ci(runId: Option<string>, runAttempt: Option<string>, job: Option<string>, sha: Option<string>)

  datatype Observation = Observation(
    schema: string,
    phase: string,
    startedAt: Time,
    finishedAt: Time,
    commit: string,
    tree: string,
    dirty: bool,
    sourceBefore: string,
    sourceAfter: string,
    os: string,
    architecture: string,
    python: string,
    dependencies: map<string, string>,
    command: seq<string>,
    ci: Ci,
    returncode: int,
    result: string,
    collectionFailed: bool,
    cases: seq<Case>,
    casesDigest: Digest,
    catalogueDigest: Digest,
    artifacts: map<string, Digest>)

  datatype CategoryRecord = CategoryRecord(
    schema: string, phase: string, source: string, category: string, cases: seq<Case>, result: string)

  datatype Reference = Reference(path: string, digest: Digest)

  datatype Index = Index(schema: string, phase: string, source: string, catalogueDigest: Digest, observations: seq<Reference>)

  datatype Cell = Cell(os: string, minor: string)

  const OBSERVATION_SCHEMA := "etlantic.adaptive_observation/1"
  const INDEX_SCHEMA := "etlantic.adaptive_evidence_index/1"
  const CATALOGUE_SCHEMA := "etlantic.adaptive_case_catalogue/1"
  const CATEGORY_SCHEMA := "etlantic.adaptive_category_observation/1"
  const SYSTEMS := {"Linux", "Darwin", "Windows"}
  const MINORS := {"3.11", "3.12", "3.13"}
  const BACKENDS := map["polars" := "1.42.1", "pandas" := "2.3.3", "pyarrow" := "25.0.0"]
  const OWN_PACKAGES := {"etlantic", "etlantic-polars", "etlantic-pandas"}

  /** The packages of an observation, each at its one version. */
  ghost predicate Pinned(dependencies: map<string, string>) {
    dependencies == map["polars" := "1.42.1", "pandas" := "2.3.3", "pyarrow" := "25.0.0",
                        "etlantic" := "0.54.0", "etlantic-polars" := "0.54.0", "etlantic-pandas" := "0.54.0"]
  }

  /** The comparison with the pinned versions. */
  method ValidatePins(dependencies: map<string, string>) returns (ok: bool)
    ensures ok <==> Pinned(dependencies)
  {
    if dependencies.Keys != OWN_PACKAGES + BACKENDS.Keys {
      return false;
    }
    if exists name :: name in BACKENDS && dependencies[name] != BACKENDS[name] {
      return false;
    }
    return !exists name :: name in OWN_PACKAGES && dependencies[name] != "0.54.0";
  }

  function Cells(): set<Cell> {
    set s, m | s in SYSTEMS && m in MINORS :: Cell(s, m)
  }

  // ---------------------------------------------------------------- catalogue

  /** `_identity`. */
  predicate Identity(s: string) {
    s != "" && |s| <= 4096 && forall c :: c in s ==> c as int >= 32
  }

  /** A text that is given, bounded, and free of control characters. */
  lemma IdentityExactly(s: string)
    ensures Identity(s) <==> 1 <= |s| < 4097 && forall i :: 0 <= i < |s| ==> s[i] >= ' '
  {
    if forall i :: 0 <= i < |s| ==> s[i] >= ' ' {
      forall c | c in s ensures c as int >= 32 {
        var i :| 0 <= i < |s| && s[i] == c;
      }
    }
    if forall c :: c in s ==> c as int >= 32 {
      forall i | 0 <= i < |s| ensures s[i] >= ' ' {
        assert s[i] in s;
      }
    }
  }

  ghost predicate References(refs: seq<string>, cases: seq<string>) {
    refs != [] && forall r :: r in refs ==> r in cases
  }

  /** `f"AC-{i:03}"` for an `i` of at most two digits. */
  function AcId(i: nat): string {
    "AC-0" + (if i < 10 then "0" else "") + Decimal(i)
  }

  lemma LeadingZero(s: string, v: nat)
    requires DigitsValue(s, true, 0) == Some(v)
    ensures DigitsValue("0" + s, true, 0) == Some(v)
  {
    assert ("0" + s)[1..] == s;
  }

  /** An identifier is six characters, `AC-` and three digits that say its number. */
  lemma AcIdReadsBack(i: nat)
    requires 1 <= i <= 24
    ensures |AcId(i)| == 6 && AcId(i)[..3] == "AC-" && DigitsValue(AcId(i)[3..], true, 0) == Some(i)
  {
    DigitsValueDecimal(i);
    var d := Decimal(i);
    DigitsStarted(d, i);
    LeadingZero(d, i);
    if i < 10 {
      LeadingZero("0" + d, i);
      assert AcId(i)[3..] == "0" + ("0" + d);
    } else {
      assert i / 10 < 10;
      assert Decimal(i / 10) == [(i / 10 + '0' as int) as char];
      assert AcId(i)[3..] == "0" + d;
    }
  }

  lemma DigitsStarted(s: string, v: nat)
    requires DigitsValue(s, false, 0) == Some(v) && s != ""
    ensures DigitsValue(s, true, 0) == Some(v) || s[0] == '_'
  {
  }

  ghost predicate AcMapping(mapping: map<string, seq<string>>, cases: seq<string>) {
    && mapping.Keys == (set i | 1 <= i <= 24 :: AcId(i))
    && forall k :: k in mapping ==> References(mapping[k], cases) && Distinct(mapping[k])
  }

  ghost predicate LowerWord(s: string) {
    forall c :: c in s ==> 'a' <= c <= 'z' || '0' <= c <= '9' || c == '_'
  }

  ghost predicate CategoryName(name: string) {
    && |name| > 5 && name[|name| - 5..] == ".json"
    && LowerWord(name[..|name| - 5])
    && name != "observation.json" && name != "index.json"
  }

  ghost predicate FrozenCases(cases: seq<string>) {
    && 0 < |cases| <= 10000
    && (forall k :: k in cases ==> Identity(k) && StartsWith(k, "tests/") && Contains(k, "::test_"))
    && Distinct(cases) && SortedBy(StringLe, cases)
  }

  ghost predicate ValidCatalogue(c: Catalogue) {
    && c.schema == "etlantic.adaptive_case_catalogue/1" && c.phase == "0.54"
    && FrozenCases(c.cases)
    && AcMapping(c.localAc, c.cases) && AcMapping(c.programAc, c.cases)
    && |c.rows| == 14 && (forall r :: r in c.rows ==> Identity(r) && References(c.rows[r], c.cases))
    && c.categories != map[]
    && (forall n :: n in c.categories ==> CategoryName(n) && References(c.categories[n], c.cases))
  }

  /** A case list that `validate_catalogue` takes, with or without a test for repetition. */
  method ValidateReferences(refs: seq<string>, cases: seq<string>, once: bool) returns (ok: bool)
    ensures ok <==> References(refs, cases) && (once ==> Distinct(refs))
  {
    if refs == [] || exists r :: r in refs && r !in cases {
      return false;
    }
    ok := true;
    if once {
      ok := AllDistinct(refs);
    }
  }

  method ValidateAcMapping(mapping: map<string, seq<string>>, cases: seq<string>) returns (ok: bool)
    ensures ok <==> AcMapping(mapping, cases)
  {
    hide References, AcId;
    if mapping.Keys != set i | 1 <= i <= 24 :: AcId(i) {
      return false;
    }
    var pending := mapping.Keys;
    while pending != {}
      invariant pending <= mapping.Keys
      invariant forall k :: k in mapping.Keys - pending ==> References(mapping[k], cases) && Distinct(mapping[k])
      decreases pending
    {
      var k :| k in pending;
      var valid := ValidateReferences(mapping[k], cases, true);
      if !valid {
        return false;
      }
      pending := pending - {k};
    }
    return true;
  }

  method ValidateCases(cases: seq<string>) returns (ok: bool)
    ensures ok <==> FrozenCases(cases)
  {
    if cases == [] || |cases| > 10000 {
      return false;
    }
    for i := 0 to |cases|
      invariant forall k :: k in cases[..i] ==> Identity(k) && StartsWith(k, "tests/") && Contains(k, "::test_")
    {
      assert cases[i] in cases;
      if !Identity(cases[i]) || !StartsWith(cases[i], "tests/") || !Contains(cases[i], "::test_") {
        return false;
      }
    }
    assert cases[..|cases|] == cases;
    hide Identity, Contains, StartsWith;
    var distinct := AllDistinct(cases);
    if !distinct || cases != SortStrings(cases) {
      if distinct && SortedBy(StringLe, cases) {
        StringOrder();
        SortFixed(cases, StringLe);
        assert false;
      }
      return false;
    }
    StringOrder();
    SortSorted(cases, StringLe);
    return true;
  }

  method ValidateRows(rows: map<string, seq<string>>, cases: seq<string>) returns (ok: bool)
    ensures ok <==> |rows| == 14 && forall r :: r in rows ==> Identity(r) && References(rows[r], cases)
  {
    hide Identity, References;
    if |rows| != 14 {
      return false;
    }
    var pending := rows.Keys;
    while pending != {}
      invariant pending <= rows.Keys
      invariant forall r :: r in rows.Keys - pending ==> Identity(r) && References(rows[r], cases)
      decreases pending
    {
      var row :| row in pending;
      var valid := ValidateReferences(rows[row], cases, false);
      if !Identity(row) || !valid {
        return false;
      }
      pending := pending - {row};
    }
    return true;
  }

  /** `[a-z0-9_]+\.json` and neither of the two reserved names. */
  method ValidateCategoryName(name: string) returns (ok: bool)
    ensures ok <==> CategoryName(name)
  {
    if |name| < 6 || name[|name| - 5..] != ".json" || name == "observation.json" || name == "index.json" {
      return false;
    }
    var stem := name[..|name| - 5];
    return !exists c :: c in stem && !('a' <= c <= 'z') && !('0' <= c <= '9') && c != '_';
  }

  method ValidateCategories(categories: map<string, seq<string>>, cases: seq<string>) returns (ok: bool)
    ensures ok <==> categories != map[] && forall n :: n in categories ==> CategoryName(n) && References(categories[n], cases)
  {
    hide CategoryName, References;
    if categories == map[] {
      return false;
    }
    var pending := categories.Keys;
    while pending != {}
      invariant pending <= categories.Keys
      invariant forall n :: n in categories.Keys - pending ==> CategoryName(n) && References(categories[n], cases)
      decreases pending
    {
      var name :| name in pending;
      var named := ValidateCategoryName(name);
      var valid := ValidateReferences(categories[name], cases, false);
      if !named || !valid {
        return false;
      }
      pending := pending - {name};
    }
    return true;
  }

  /** `validate_catalogue`. */
  method ValidateCatalogue(c: Catalogue) returns (ok: bool)
    ensures ok <==> ValidCatalogue(c)
  {
    hide FrozenCases, AcMapping, Identity, References, CategoryName;
    if c.schema != CATALOGUE_SCHEMA || c.phase != "0.54" {
      return false;
    }
    var cases := ValidateCases(c.cases);
    if !cases {
      return false;
    }
    var localAc := ValidateAcMapping(c.localAc, c.cases);
    var programAc := ValidateAcMapping(c.programAc, c.cases);
    if !localAc || !programAc {
      return false;
    }
    var rows := ValidateRows(c.rows, c.cases);
    if !rows {
      return false;
    }
    ok := ValidateCategories(c.categories, c.cases);
  }

  // ---------------------------------------------------------------- observation

  ghost predicate HexId(s: string) {
    (|s| == 40 || |s| == 64) && Hexadecimal(s)
  }

  /** `3\.(11|12|13)\.\d+`, with ASCII digits. */
  ghost predicate SupportedPython(s: string) {
    |s| > 5 && s[..4] in MINORS && s[4] == '.' && forall c :: c in s[5..] ==> AsciiDigit(c)
  }

  function CellOf(o: Observation): Cell {
    Cell(o.os, if |o.python| >= 4 then o.python[..4] else o.python)
  }

  function Ids(cases: seq<Case>): seq<string> {
    MapSeq((k: Case) => k.id, cases)
  }

  /** The checks on the case list: every frozen case, in order, passing. */
  ghost predicate CasesOk(cases: seq<Case>, c: Catalogue) {
    && |cases| == |c.cases|
    && (forall k :: k in cases ==> k.status == "pass")
    && Ids(cases) == SortStrings(c.cases)
  }

  function Given(value: Option<string>): set<string> {
    if value.Some? then {value.value} else {}
  }

  ghost predicate ObservationOk(o: Observation, c: Catalogue, source: string) {
    && ValidCatalogue(c)
    && o.schema == "etlantic.adaptive_observation/1" && o.phase == "0.54"
    && SourceDigest(source) && o.sourceBefore == source && o.sourceAfter == source
    && o.startedAt.utc && o.finishedAt.utc && o.startedAt.instant <= o.finishedAt.instant
    && HexId(o.commit) && HexId(o.tree)
    && o.returncode == 0 && o.result == "pass" && !o.collectionFailed
    && CasesOk(o.cases, c)
    && o.casesDigest == OfCases(o.cases) && o.catalogueDigest == OfCatalogue(c)
    && Identity(o.architecture) && SupportedPython(o.python) && CellOf(o) in Cells()
    && Pinned(o.dependencies)
    && o.command != [] && (forall a :: a in o.command ==> Identity(a))
    && (forall v :: v in Given(o.ci.runId) + Given(o.ci.runAttempt) + Given(o.ci.job) + Given(o.ci.sha) ==> Identity(v))
    && o.artifacts.Keys == c.categories.Keys
  }

  /** `re.fullmatch(r"3\.(11|12|13)\.\d+", python)`: the minor it matches. */
  method PythonMinor(python: string) returns (minor: Option<string>)
    ensures minor.Some? <==> SupportedPython(python)
    ensures minor.Some? ==> minor.value == python[..4]
  {
    if |python| < 6 || python[..4] !in {"3.11", "3.12", "3.13"} || python[4] != '.' {
      return None;
    }
    if exists c :: c in python[5..] && !('0' <= c <= '9') {
      return None;
    }
    return Some(python[..4]);
  }

  method IsHexId(s: string) returns (ok: bool)
    ensures ok <==> HexId(s)
  {
    return (|s| == 40 || |s| == 64) && !exists c :: c in s && !('0' <= c <= '9') && !('a' <= c <= 'f');
  }

  method IsSourceDigest(s: string) returns (ok: bool)
    ensures ok <==> SourceDigest(s)
  {
    if |s| != 71 || s[..7] != "sha256:" {
      return false;
    }
    return !exists c :: c in s[7..] && !('0' <= c <= '9') && !('a' <= c <= 'f');
  }

  /** The checks on the case list. */
  method ValidateObservedCases(cases: seq<Case>, c: Catalogue) returns (ok: bool)
    ensures ok <==> CasesOk(cases, c)
  {
    if |cases| != |c.cases| || exists k :: k in cases && k.status != "pass" {
      return false;
    }
    return Ids(cases) == SortStrings(c.cases);
  }

  /** `validate_observation`: the cell of a valid observation. */
  method ValidateObservation(o: Observation, c: Catalogue, source: string) returns (cell: Option<Cell>)
    ensures cell.Some? <==> ObservationOk(o, c, source)
    ensures cell.Some? ==> cell.value == CellOf(o)
  {
    hide ValidCatalogue, CasesOk, HexId, SupportedPython, SourceDigest, Identity, Cells, Pinned;
    var catalogue := ValidateCatalogue(c);
    var hashed := IsSourceDigest(source);
    if !catalogue || o.schema != OBSERVATION_SCHEMA || o.phase != "0.54" || !hashed
       || o.sourceBefore != source || o.sourceAfter != source
    {
      return None;
    }
    if !o.startedAt.utc || !o.finishedAt.utc || o.finishedAt.instant < o.startedAt.instant {
      return None;
    }
    var commit := IsHexId(o.commit);
    var tree := IsHexId(o.tree);
    if !commit || !tree || o.returncode != 0 || o.result != "pass" || o.collectionFailed {
      return None;
    }
    var cases := ValidateObservedCases(o.cases, c);
    if !cases || o.casesDigest != OfCases(o.cases) || o.catalogueDigest != OfCatalogue(c) {
      return None;
    }
    var minor := PythonMinor(o.python);
    if !Identity(o.architecture) || minor.None? {
      return None;
    }
    assert |o.python| >= 4 by { SupportedPythonIsLong(o.python); }
    var pinned := ValidatePins(o.dependencies);
    if Cell(o.os, minor.value) !in Cells() || !pinned {
      return None;
    }
    if o.command == [] || exists a :: a in o.command && !Identity(a) {
      return None;
    }
    if exists v :: v in Given(o.ci.runId) + Given(o.ci.runAttempt) + Given(o.ci.job) + Given(o.ci.sha) && !Identity(v) {
      return None;
    }
    if o.artifacts.Keys != c.categories.Keys {
      return None;
    }
    return Some(Cell(o.os, minor.value));
  }

  lemma SupportedPythonIsLong(s: string)
    requires SupportedPython(s)
    ensures |s| > 5
  {
  }

  // ---------------------------------------------------------------- categories

  /** `{case["id"]: case["status"] for case in cases}`: the last one wins. */
  function Outcomes(cases: seq<Case>): map<string, string> {
    if cases == [] then map[]
    else Outcomes(cases[..|cases| - 1])[cases[|cases| - 1].id := cases[|cases| - 1].status]
  }

  function StatusOf(outcomes: map<string, string>, id: string): string {
    if id in outcomes then outcomes[id] else "missing"
  }

  function SelectedCases(outcomes: map<string, string>, ids: seq<string>): seq<Case> {
    MapSeq((id: string) => Case(id, StatusOf(outcomes, id)), ids)
  }

  /** The record `category_records` writes for one category. */
  function CategoryFor(ids: seq<string>, cases: seq<Case>, name: string, source: string): CategoryRecord {
    var selected := SelectedCases(Outcomes(cases), ids);
    CategoryRecord(CATEGORY_SCHEMA, "0.54", source, name, selected,
                   if forall k :: k in selected ==> k.status == "pass" then "pass" else "fail")
  }

  method CategoryRecords(c: Catalogue, cases: seq<Case>, source: string) returns (records: map<string, CategoryRecord>)
    ensures records.Keys == c.categories.Keys
    ensures forall n :: n in records ==> records[n] == CategoryFor(c.categories[n], cases, n, source)
  {
    records := map[];
    var pending := c.categories.Keys;
    while pending != {}
      invariant records.Keys == c.categories.Keys - pending && pending <= c.categories.Keys
      invariant forall n :: n in records ==> records[n] == CategoryFor(c.categories[n], cases, n, source)
      decreases pending
    {
      var name :| name in pending;
      records := records[name := CategoryFor(c.categories[name], cases, name, source)];
      pending := pending - {name};
    }
  }

  /** `validate_category`; a reference without an outcome is a `KeyError`. */
  ghost predicate CategoryOk(r: CategoryRecord, c: Catalogue, parent: Observation, name: string, source: string)
    requires name in c.categories
  {
    var outcomes := Outcomes(parent.cases);
    && (forall id :: id in c.categories[name] ==> id in outcomes)
    && r.schema == "etlantic.adaptive_category_observation/1" && r.phase == "0.54" && r.source == source && r.category == name
    && r.cases == SelectedCases(outcomes, c.categories[name])
    && r.result == "pass"
  }

  /** `validate_category`. */
  method ValidateCategory(r: CategoryRecord, c: Catalogue, parent: Observation, name: string, source: string) returns (ok: bool)
    requires name in c.categories
    ensures ok <==> CategoryOk(r, c, parent, name, source)
  {
    var outcomes: map<string, string> := map[];
    for i := 0 to |parent.cases|
      invariant outcomes == Outcomes(parent.cases[..i])
    {
      assert parent.cases[..i + 1][..i] == parent.cases[..i];
      outcomes := outcomes[parent.cases[i].id := parent.cases[i].status];
    }
    assert parent.cases[..|parent.cases|] == parent.cases;
    var ids, expected := c.categories[name], [];
    for i := 0 to |ids|
      invariant expected == SelectedCases(outcomes, ids)[..i]
      invariant forall id :: id in ids[..i] ==> id in outcomes
    {
      assert ids[i] in ids;
      if ids[i] !in outcomes {
        return false;
      }
      expected := expected + [Case(ids[i], outcomes[ids[i]])];
    }
    assert ids[..|ids|] == ids;
    return r.schema == CATEGORY_SCHEMA && r.phase == "0.54" && r.source == source && r.category == name && r.cases == expected
           && r.result == "pass";
  }

  lemma {:induction false} OutcomesPass(cases: seq<Case>)
    requires forall k :: k in cases ==> k.status == "pass"
    ensures Outcomes(cases).Keys == set k | k in cases :: k.id
    ensures forall id :: id in Outcomes(cases) ==> Outcomes(cases)[id] == "pass"
  {
    if cases != [] {
      var n := |cases| - 1;
      OutcomesPass(cases[..n]);
      assert cases == cases[..n] + [cases[n]];
    }
  }

  /** `k` is at `i`, and no later case has its id. */
  ghost predicate LastCase(cases: seq<Case>, i: int, k: Case) {
    0 <= i < |cases| && cases[i] == k && forall j :: i < j < |cases| ==> cases[j].id != k.id
  }

  lemma {:induction false} OutcomesAreLast(cases: seq<Case>, k: Case)
    ensures StatusIs(Outcomes(cases), k) <==> exists i :: LastCase(cases, i, k)
  {
    if cases != [] {
      var n := |cases| - 1;
      OutcomesAreLast(cases[..n], k);
      if cases[n] == k {
        assert LastCase(cases, n, k);
      } else if cases[n].id != k.id {
        forall i ensures LastCase(cases, i, k) <==> LastCase(cases[..n], i, k) {
        }
      }
    }
  }

  predicate StatusIs(outcomes: map<string, string>, k: Case) {
    k.id in outcomes && outcomes[k.id] == k.status
  }

  /** Over any cases, a category record passes exactly when the last case of each of its ids passed. */
  lemma CategoryPassesExactly(ids: seq<string>, cases: seq<Case>, name: string, source: string)
    ensures CategoryFor(ids, cases, name, source).result == "pass"
            <==> forall id :: id in ids ==> exists i :: LastCase(cases, i, Case(id, "pass"))
    ensures Ids(CategoryFor(ids, cases, name, source).cases) == ids
  {
    hide Outcomes, LastCase;
    var selected := SelectedCases(Outcomes(cases), ids);
    forall i | 0 <= i < |ids|
      ensures selected[i].status == "pass" <==> exists j :: LastCase(cases, j, Case(ids[i], "pass"))
    {
      OutcomesAreLast(cases, Case(ids[i], "pass"));
    }
    if forall id :: id in ids ==> exists i :: LastCase(cases, i, Case(id, "pass")) {
      forall k | k in selected ensures k.status == "pass" {
        var i :| 0 <= i < |ids| && selected[i] == k;
        assert ids[i] in ids;
      }
    }
    if forall k :: k in selected ==> k.status == "pass" {
      forall id | id in ids ensures exists i :: LastCase(cases, i, Case(id, "pass")) {
        var i :| 0 <= i < |ids| && ids[i] == id;
        assert selected[i] in selected;
      }
    }
  }

  /** A category record holds, for each of its ids, the status of the id's last case, or `missing`; its result is pass or fail. */
  lemma CategoryStatuses(ids: seq<string>, cases: seq<Case>, name: string, source: string, i: nat)
    requires i < |ids|
    ensures var r := CategoryFor(ids, cases, name, source);
            && |r.cases| == |ids| && r.cases[i].id == ids[i] && (r.result == "pass" || r.result == "fail")
            && (forall j, k :: LastCase(cases, j, k) && k.id == ids[i] ==> r.cases[i].status == k.status)
            && ((forall k :: k in cases ==> k.id != ids[i]) ==> r.cases[i].status == "missing")
            && r.category == name && r.source == source
  {
    hide Outcomes, LastCase;
    forall j, k | LastCase(cases, j, k) && k.id == ids[i] ensures StatusIs(Outcomes(cases), k) {
      OutcomesAreLast(cases, k);
    }
    OutcomeIds(cases);
  }

  lemma {:induction false} OutcomeIds(cases: seq<Case>)
    ensures Outcomes(cases).Keys == set k | k in cases :: k.id
  {
    if cases != [] {
      var n := |cases| - 1;
      OutcomeIds(cases[..n]);
      assert cases == cases[..n] + [cases[n]];
    }
  }

  lemma CatalogueCategory(c: Catalogue, name: string)
    requires ValidCatalogue(c) && name in c.categories
    ensures References(c.categories[name], c.cases) && CategoryName(name)
  {
    hide AcMapping, Identity, Contains, StartsWith, CategoryName, References;
  }

  lemma ObservedCases(o: Observation, c: Catalogue, source: string)
    requires ObservationOk(o, c, source)
    ensures CasesOk(o.cases, c) && ValidCatalogue(c)
  {
  }

  /** For a valid observation the validator accepts exactly the record the producer writes. */
  lemma CategoryAcceptedExactly(r: CategoryRecord, c: Catalogue, o: Observation, name: string, source: string)
    requires ObservationOk(o, c, source) && name in c.categories
    ensures CategoryOk(r, c, o, name, source) <==> r == CategoryFor(c.categories[name], o.cases, name, source)
  {
    hide ValidCatalogue;
    assert CasesOk(o.cases, c) && ValidCatalogue(c) by { ObservedCases(o, c, source); }
    hide ObservationOk;
    var ids := c.categories[name];
    assert References(ids, c.cases) by { CatalogueCategory(c, name); }
    SortMembers(c.cases, StringLe);
    assert forall id :: id in ids ==> id in Ids(o.cases);
    SelectedPass(ids, o.cases);
    hide Outcomes, SelectedCases;
  }

  lemma SelectedPass(ids: seq<string>, cases: seq<Case>)
    requires (forall k :: k in cases ==> k.status == "pass") && forall id :: id in ids ==> id in Ids(cases)
    ensures forall id :: id in ids ==> id in Outcomes(cases)
    ensures forall k :: k in SelectedCases(Outcomes(cases), ids) ==> k.status == "pass"
  {
    hide Outcomes;
    OutcomesPass(cases);
    forall id | id in ids ensures id in Outcomes(cases) {
      var i :| 0 <= i < |cases| && Ids(cases)[i] == id;
      assert cases[i] in cases;
    }
    var selected := SelectedCases(Outcomes(cases), ids);
    forall k | k in selected ensures k.status == "pass" {
      var i :| 0 <= i < |ids| && selected[i] == k;
      assert ids[i] in ids;
    }
  }

  // ---------------------------------------------------------------- paths

  function Kept(parts: seq<string>): seq<string> {
    if parts == [] then []
    else (if parts[0] == "" || parts[0] == "." then [] else [parts[0]]) + Kept(parts[1..])
  }

  /** A relative POSIX path with empty and `.` parts dropped, as `pathlib` resolves it below its base. */
  function Normal(path: string): string {
    Join(Kept(Split(path, '/')), "/")
  }

  /** `_relative`: the file a location names, unless it could escape the base directory. */
  function Relative(location: string): Option<string> {
    if !Identity(location) || StartsWith(location, "/") || ".." in Split(location, '/')
       || '\\' in location || ':' in location then None
    else Some(Normal(location))
  }

  /** The path with its last part replaced by `name`. */
  function Sibling(path: string, name: string): string {
    var parts := Split(path, '/');
    Join(parts[..|parts| - 1] + [name], "/")
  }

  lemma {:induction false} KeptConcat(a: seq<string>, b: seq<string>)
    ensures Kept(a + b) == Kept(a) + Kept(b)
  {
    if a == [] {
      assert a + b == b;
    } else {
      assert (a + b)[1..] == a[1..] + b;
      KeptConcat(a[1..], b);
    }
  }

  lemma {:induction false} KeptProper(parts: seq<string>)
    requires forall p :: p in parts ==> p != "" && p != "."
    ensures Kept(parts) == parts
  {
    if parts != [] {
      assert parts == [parts[0]] + parts[1..] && parts[0] in parts;
      forall p | p in parts[1..] ensures p in parts {
      }
      KeptProper(parts[1..]);
    }
  }

  lemma KeptWithout(a: seq<string>, idle: string, b: seq<string>)
    requires idle == "" || idle == "."
    ensures Kept(a + [idle] + b) == Kept(a + b)
  {
    assert Kept([idle]) == [] by { assert [idle][1..] == []; }
    hide Kept;
    KeptConcat(a, [idle] + b);
    KeptConcat([idle], b);
    KeptConcat(a, b);
    assert [] + Kept(b) == Kept(b);
    assert a + [idle] + b == a + ([idle] + b);
  }

  lemma NormalOf(parts: seq<string>)
    requires parts != [] && forall p :: p in parts ==> '/' !in p
    ensures Normal(Join(parts, "/")) == Join(Kept(parts), "/")
  {
    hide Kept, Split, Join;
    SplitJoin(parts, '/');
  }

  /** Parts that are empty or a dot do not change the file a path names. */
  lemma PathNamesAFile(a: seq<string>, idle: string, b: seq<string>)
    requires a + b != [] && (idle == "" || idle == ".") && forall p :: p in a || p in b ==> '/' !in p
    ensures Normal(Join(a + [idle] + b, "/")) == Normal(Join(a + b, "/"))
  {
    hide Kept, Normal, Join;
    KeptWithout(a, idle, b);
    NormalOf(a + b);
    NormalOf(a + [idle] + b);
  }

  /** A path of other parts names itself. */
  lemma ProperPathIsNormal(parts: seq<string>)
    requires parts != [] && forall p :: p in parts ==> '/' !in p && p != "" && p != "."
    ensures Normal(Join(parts, "/")) == Join(parts, "/")
  {
    NormalOf(parts);
    KeptProper(parts);
  }

  /** A location is refused if it is no identity, absolute, holds a backslash or colon, or climbs with a `..` part. */
  lemma RelativeExactly(parts: seq<string>)
    requires parts != [] && forall p :: p in parts ==> '/' !in p
    ensures var location := Join(parts, "/");
            && (Relative(location).Some? <==> Identity(location) && location[0] != '/' && '\\' !in location && ':' !in location
                                              && forall i :: 0 <= i < |parts| ==> parts[i] != "..")
            && (Relative(location).Some? ==> Relative(location).value == Normal(location))
  {
    SplitJoin(parts, '/');
    hide Identity, Split, Normal;
    assert ".." in parts <==> exists i :: 0 <= i < |parts| && parts[i] == "..";
    var location := Join(parts, "/");
    assert location != "" ==> (StartsWith(location, "/") <==> location[0] == '/');
    assert Identity(location) ==> location != "" by { IdentityExactly(location); }
  }

  /** The file of a category stands beside its observation. */
  lemma SiblingIsBeside(directory: string, last: string, name: string)
    requires '/' !in last
    ensures Sibling(directory + "/" + last, name) == directory + "/" + name && Sibling(last, name) == name
  {
    SplitLast(directory, '/', last);
    SplitNone(last, '/');
    var parts := Split(directory, '/');
    assert (parts + [last])[..|parts|] == parts;
    JoinSnoc(parts, name, "/");
    SplitRebuild(directory, '/');
    assert [last][..0] + [name] == [name];
  }

  type Directory = map<string, File>

  // ---------------------------------------------------------------- the verifier

  /** The category files next to an observation match what it recorded. */
  ghost predicate CategoriesOk(files: Directory, path: string, o: Observation, c: Catalogue, source: string)
    requires o.artifacts.Keys == c.categories.Keys
  {
    forall name :: name in o.artifacts ==> CategoryFileOk(files, path, o, c, source, name)
  }

  ghost predicate CategoryFileOk(files: Directory, path: string, o: Observation, c: Catalogue, source: string, name: string)
    requires name in o.artifacts && name in c.categories
  {
    match Relative(Sibling(path, name))
    case None => false
    case Some(p) =>
      && p in files && OfFile(files[p]) == o.artifacts[name]
      && files[p].document.CategoryDocument? && CategoryOk(files[p].document.category, c, o, name, source)
  }

  /** `sha256:` and 64 hexadecimal digits. */
  ghost predicate SourceDigest(s: string) {
    |s| == 71 && StartsWith(s, "sha256:") && Hexadecimal(s[7..])
  }

  /** Complete CI provenance from a clean checkout of the observed commit. */
  ghost predicate CiOk(o: Observation) {
    && o.ci.runId.Some? && o.ci.runAttempt.Some? && o.ci.job.Some? && o.ci.sha == Some(o.commit)
    && !o.dirty
  }

  datatype Provenance = Provenance(commit: string, tree: string, runId: Option<string>, runAttempt: Option<string>)

  function ProvenanceOf(o: Observation): Provenance {
    Provenance(o.commit, o.tree, o.ci.runId, o.ci.runAttempt)
  }

  /** The observation a reference leads to. */
  function Resolved(files: Directory, r: Reference): Option<(string, Observation)> {
    match Relative(r.path)
    case None => None
    case Some(p) =>
      if p in files && OfFile(files[p]) == r.digest && files[p].document.ObservationDocument?
      then Some((p, files[p].document.observation)) else None
  }

  /** Everything checked about one reference by itself. */
  ghost predicate ReferenceOk(files: Directory, r: Reference, c: Catalogue, source: string) {
    match Resolved(files, r)
    case None => false
    case Some((p, o)) => ObservationOk(o, c, source) && CategoriesOk(files, p, o, c, source) && CiOk(o)
  }

  ghost predicate HeaderOk(index: Index, c: Catalogue, source: string) {
    && SourceDigest(source) && ValidCatalogue(c)
    && index.schema == "etlantic.adaptive_evidence_index/1" && index.phase == "0.54" && index.source == source
    && index.catalogueDigest == OfCatalogue(c)
  }

  function PathOf(files: Directory, r: Reference): Option<string> {
    match Resolved(files, r) case None => None case Some((p, _)) => Some(p)
  }

  function RecordOf(files: Directory, r: Reference): Option<Observation> {
    match Resolved(files, r) case None => None case Some((_, o)) => Some(o)
  }

  function CellAt(files: Directory, r: Reference): Option<Cell> {
    match RecordOf(files, r) case None => None case Some(o) => Some(CellOf(o))
  }

  function ProvenanceAt(files: Directory, r: Reference): Option<Provenance> {
    match RecordOf(files, r) case None => None case Some(o) => Some(ProvenanceOf(o))
  }

  function PathsOf(files: Directory, refs: seq<Reference>): seq<Option<string>> {
    MapSeq((r: Reference) => PathOf(files, r), refs)
  }

  function CellsOf(files: Directory, refs: seq<Reference>): seq<Option<Cell>> {
    MapSeq((r: Reference) => CellAt(files, r), refs)
  }

  /** An acceptable list: nine good references to distinct files, of distinct cells and one provenance. */
  ghost predicate ReferencesOk(files: Directory, refs: seq<Reference>, c: Catalogue, source: string) {
    && |refs| == 9
    && (forall r :: r in refs ==> ReferenceOk(files, r, c, source))
    && Distinct(PathsOf(files, refs)) && Distinct(CellsOf(files, refs))
    && (forall r, s :: r in refs && s in refs ==> ProvenanceAt(files, r) == ProvenanceAt(files, s))
  }

  ghost predicate Accepted(files: Directory, index: Index, c: Catalogue, source: string) {
    HeaderOk(index, c, source) && ReferencesOk(files, index.observations, c, source)
  }

  /** The category files of one observation. */
  method ValidateCategoryFiles(files: Directory, path: string, o: Observation, c: Catalogue, source: string) returns (ok: bool)
    requires o.artifacts.Keys == c.categories.Keys
    ensures ok <==> CategoriesOk(files, path, o, c, source)
  {
    hide CategoryOk, Relative, Sibling;
    var pending := o.artifacts.Keys;
    while pending != {}
      invariant pending <= o.artifacts.Keys
      invariant forall name :: name in o.artifacts.Keys - pending ==> CategoryFileOk(files, path, o, c, source, name)
      decreases pending
    {
      var name :| name in pending;
      var location := Relative(Sibling(path, name));
      if location.None? || location.value !in files || OfFile(files[location.value]) != o.artifacts[name]
         || !files[location.value].document.CategoryDocument?
      {
        assert !CategoryFileOk(files, path, o, c, source, name);
        return false;
      }
      var valid := ValidateCategory(files[location.value].document.category, c, o, name, source);
      if !valid {
        assert !CategoryFileOk(files, path, o, c, source, name);
        return false;
      }
      pending := pending - {name};
    }
    return true;
  }

  /** The loop body of `_verify_index_snapshot`, for one reference by itself. */
  method ValidateReference(files: Directory, reference: Reference, c: Catalogue, source: string)
    returns (r: Option<(string, Observation)>)
    ensures r.Some? <==> ReferenceOk(files, reference, c, source)
    ensures r.Some? ==> r == Resolved(files, reference)
  {
    hide ObservationOk, CategoriesOk, Relative;
    var location := Relative(reference.path);
    if location.None? || location.value !in files || OfFile(files[location.value]) != reference.digest
       || !files[location.value].document.ObservationDocument?
    {
      return None;
    }
    var path, o := location.value, files[location.value].document.observation;
    var cell := ValidateObservation(o, c, source);
    if cell.None? {
      return None;
    }
    assert o.artifacts.Keys == c.categories.Keys by { ObservedArtifacts(o, c, source); }
    var categories := ValidateCategoryFiles(files, path, o, c, source);
    if !categories || o.ci.runId.None? || o.ci.runAttempt.None? || o.ci.job.None? || o.ci.sha.None?
       || o.ci.sha.value != o.commit || o.dirty
    {
      return None;
    }
    return Some((path, o));
  }

  lemma ObservedArtifacts(o: Observation, c: Catalogue, source: string)
    requires ObservationOk(o, c, source)
    ensures o.artifacts.Keys == c.categories.Keys
  {
  }

  /** The checks on the index itself. */
  method ValidateHeader(index: Index, c: Catalogue, source: string) returns (ok: bool)
    ensures ok <==> HeaderOk(index, c, source)
  {
    hide SourceDigest, ValidCatalogue;
    var hashed := IsSourceDigest(source);
    var catalogue := ValidateCatalogue(c);
    return hashed && catalogue && index.schema == INDEX_SCHEMA && index.phase == "0.54" && index.source == source
           && index.catalogueDigest == OfCatalogue(c);
  }
}
