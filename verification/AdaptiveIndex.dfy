/**
 The index verifier against its declarative acceptance, what acceptance guarantees, and why the
 index that `aggregate` builds over honest observations is accepted.
 */
module AdaptiveIndex {
  import opened PyText
  import opened Sorting
  import opened AdaptiveEvidence

  lemma RowCount(system: string)
    ensures |set m | m in MINORS :: Cell(system, m)| == 3
  {
    var row := set m | m in MINORS :: Cell(system, m);
    var a, b, c := Cell(system, "3.11"), Cell(system, "3.12"), Cell(system, "3.13");
    assert row == {a} + {b} + {c};
    assert a != b && b != c && a != c;
  }

  lemma CellCount()
    ensures |Cells()| == 9
  {
    var linux := set m | m in MINORS :: Cell("Linux", m);
    var darwin := set m | m in MINORS :: Cell("Darwin", m);
    var windows := set m | m in MINORS :: Cell("Windows", m);
    RowCount("Linux");
    RowCount("Darwin");
    RowCount("Windows");
    assert Cells() == linux + darwin + windows;
    assert linux !! darwin && (linux + darwin) !! windows;
  }

  /** What the verifier's loop has gathered from the references it has passed. */
  ghost predicate Progress(files: Directory, refs: seq<Reference>, c: Catalogue, source: string,
                           cells: set<Cell>, provenance: set<Provenance>, paths: set<string>, records: seq<Observation>)
  {
    && (forall r :: r in refs ==> ReferenceOk(files, r, c, source))
    && Distinct(PathsOf(files, refs)) && Distinct(CellsOf(files, refs))
    && (forall p :: p in paths <==> Some(p) in PathsOf(files, refs))
    && (forall x :: x in cells <==> Some(x) in CellsOf(files, refs))
    && |cells| == |refs| && cells <= Cells()
    && |records| == |refs| && (forall i :: 0 <= i < |refs| ==> RecordOf(files, refs[i]) == Some(records[i]))
    && provenance == (set o | o in records :: ProvenanceOf(o))
  }

  lemma NoProgress(files: Directory, c: Catalogue, source: string)
    ensures Progress(files, [], c, source, {}, {}, {}, [])
  {
  }

  lemma ProgressStep(files: Directory, refs: seq<Reference>, c: Catalogue, source: string,
                     cells: set<Cell>, provenance: set<Provenance>, paths: set<string>, records: seq<Observation>,
                     r: Reference, path: string, o: Observation)
    requires Progress(files, refs, c, source, cells, provenance, paths, records)
    requires ReferenceOk(files, r, c, source) && Resolved(files, r) == Some((path, o))
    requires path !in paths && CellOf(o) !in cells
    ensures Progress(files, refs + [r], c, source, cells + {CellOf(o)}, provenance + {ProvenanceOf(o)},
                     paths + {path}, records + [o])
  {
    hide ReferenceOk, Resolved, PathsOf, CellsOf, CellOf, Cells, Distinct;
    assert CellOf(o) in Cells() by { ReferenceCell(files, r, c, source); }
    assert CellAt(files, r) == Some(CellOf(o)) && PathOf(files, r) == Some(path);
    Listed(files, refs, r);
    DistinctSnoc(PathsOf(files, refs), Some(path));
    DistinctSnoc(CellsOf(files, refs), Some(CellOf(o)));
    assert forall x :: x in records + [o] <==> x in records || x == o;
    assert forall x :: x in refs + [r] <==> x in refs || x == r;
    assert forall i :: 0 <= i < |refs| ==> (refs + [r])[i] == refs[i] && (records + [o])[i] == records[i];
  }

  lemma Listed(files: Directory, refs: seq<Reference>, r: Reference)
    ensures PathsOf(files, refs + [r]) == PathsOf(files, refs) + [PathOf(files, r)]
    ensures CellsOf(files, refs + [r]) == CellsOf(files, refs) + [CellAt(files, r)]
  {
    hide PathOf, CellAt;
  }

  lemma ReferenceCell(files: Directory, r: Reference, c: Catalogue, source: string)
    requires ReferenceOk(files, r, c, source)
    ensures Resolved(files, r).Some? && CellAt(files, r).Some? && CellAt(files, r).value in Cells()
    ensures ObservationOk(RecordOf(files, r).value, c, source)
  {
    hide Relative, ValidCatalogue, CasesOk;
  }

  /** `_verify_index_snapshot` on a loaded index. */
  method VerifyIndex(files: Directory, index: Index, c: Catalogue, source: string) returns (r: Option<seq<Observation>>)
    ensures r.Some? <==> Accepted(files, index, c, source)
    ensures r.Some? ==> |r.value| == |index.observations|
                        && forall i :: 0 <= i < |r.value| ==> RecordOf(files, index.observations[i]) == Some(r.value[i])
  {
    hide HeaderOk, ReferenceOk, Resolved, CellOf, Cells, PathsOf, CellsOf;
    var refs := index.observations;
    var header := ValidateHeader(index, c, source);
    if !header || |refs| != 9 {
      return None;
    }
    var cells: set<Cell>, provenance: set<Provenance>, paths: set<string>, records: seq<Observation> := {}, {}, {}, [];
    NoProgress(files, c, source);
    for i := 0 to |refs|
      invariant Progress(files, refs[..i], c, source, cells, provenance, paths, records)
    {
      hide Progress;
      var reference := refs[i];
      assert reference in refs;
      assert refs[..i + 1] == refs[..i] + [reference];
      var valid := ValidateReference(files, reference, c, source);
      if valid.None? {
        return None;
      }
      ReferenceCell(files, reference, c, source);
      var (path, o) := valid.value;
      if path in paths || CellOf(o) in cells {
        Repeats(files, refs, c, source, cells, provenance, paths, records, i, path, o);
        return None;
      }
      ProgressStep(files, refs[..i], c, source, cells, provenance, paths, records, reference, path, o);
      paths := paths + {path};
      cells := cells + {CellOf(o)};
      provenance := provenance + {ProvenanceOf(o)};
      records := records + [o];
    }
    assert refs[..|refs|] == refs;
    CellCount();
    SubsetOfSameSize(cells, Cells());
    OneProvenance(files, refs, records, provenance);
    if cells != Cells() {
      // Nine distinct cells out of nine: this refusal can never happen.
      assert false;
    }
    if |provenance| != 1 {
      return None;
    }
    return Some(records);
  }

  lemma Repeats(files: Directory, refs: seq<Reference>, c: Catalogue, source: string,
                cells: set<Cell>, provenance: set<Provenance>, paths: set<string>, records: seq<Observation>,
                i: nat, path: string, o: Observation)
    requires i < |refs| && Progress(files, refs[..i], c, source, cells, provenance, paths, records)
    requires Resolved(files, refs[i]) == Some((path, o)) && (path in paths || CellOf(o) in cells)
    ensures !ReferencesOk(files, refs, c, source)
  {
    hide ReferenceOk, Resolved, HeaderOk, PathsOf, CellsOf, Cells;
    assert Some(path) in PathsOf(files, refs[..i]) || Some(CellOf(o)) in CellsOf(files, refs[..i]);
    hide Progress;
    assert PathOf(files, refs[i]) == Some(path) && CellAt(files, refs[i]) == Some(CellOf(o));
    Prefixes(files, refs, i);
    if Some(path) in PathsOf(files, refs[..i]) {
      RepeatIsNotDistinct(PathsOf(files, refs), i);
    } else {
      RepeatIsNotDistinct(CellsOf(files, refs), i);
    }
  }

  lemma Prefixes(files: Directory, refs: seq<Reference>, i: nat)
    requires i < |refs|
    ensures |PathsOf(files, refs)| == |CellsOf(files, refs)| == |refs|
    ensures PathsOf(files, refs[..i]) == PathsOf(files, refs)[..i] && PathsOf(files, refs)[i] == PathOf(files, refs[i])
    ensures CellsOf(files, refs[..i]) == CellsOf(files, refs)[..i] && CellsOf(files, refs)[i] == CellAt(files, refs[i])
  {
    hide PathOf, CellAt;
  }

  lemma RepeatIsNotDistinct<T>(s: seq<T>, i: nat)
    requires i < |s| && s[i] in s[..i]
    ensures !Distinct(s)
  {
    var j :| 0 <= j < i && s[..i][j] == s[i];
    assert s[j] == s[i];
  }

  lemma OneProvenance(files: Directory, refs: seq<Reference>, records: seq<Observation>, provenance: set<Provenance>)
    requires |refs| == |records| > 0
    requires forall i :: 0 <= i < |refs| ==> RecordOf(files, refs[i]) == Some(records[i])
    requires provenance == set o | o in records :: ProvenanceOf(o)
    ensures |provenance| == 1 <==> forall r, s :: r in refs && s in refs ==> ProvenanceAt(files, r) == ProvenanceAt(files, s)
  {
    hide Resolved, RecordOf;
    assert records[0] in records;
    var p := ProvenanceOf(records[0]);
    forall i | 0 <= i < |refs| ensures ProvenanceAt(files, refs[i]) == Some(ProvenanceOf(records[i])) {
    }
    if |provenance| == 1 {
      assert p in provenance;
      assert |provenance - {p}| == 0;
      assert provenance == {p};
      forall i | 0 <= i < |refs| ensures ProvenanceOf(records[i]) == p {
        assert records[i] in records;
        assert ProvenanceOf(records[i]) in provenance;
      }
    }
    if forall r, s :: r in refs && s in refs ==> ProvenanceAt(files, r) == ProvenanceAt(files, s) {
      forall i | 0 <= i < |refs| ensures ProvenanceOf(records[i]) == p {
        assert refs[i] in refs && refs[0] in refs;
      }
      assert provenance == {p};
    }
  }

  // ---------------------------------------------------------------- what acceptance means

  /** Accepted observations are in bijection with the cells of the matrix. */
  lemma AcceptedCellsAreExact(files: Directory, index: Index, c: Catalogue, source: string, cell: Cell)
    requires Accepted(files, index, c, source) && cell in Cells()
    ensures var refs := index.observations;
            exists i :: 0 <= i < |refs| && CellAt(files, refs[i]) == Some(cell)
                        && forall j :: 0 <= j < |refs| && CellAt(files, refs[j]) == Some(cell) ==> j == i
  {
    hide HeaderOk, ReferenceOk, CellAt, Cells;
    var refs := index.observations;
    var cells := CellsOf(files, refs);
    assert |cells| == 9;
    forall i | 0 <= i < |refs| ensures cells[i].Some? && cells[i].value in Cells() {
      assert refs[i] in refs;
      ReferenceCell(files, refs[i], c, source);
    }
    var seen := set x | x in cells;
    var all := Wrapped(Cells());
    DistinctSize(cells);
    SomeCount(Cells());
    CellCount();
    forall x | x in seen ensures x in all {
      var k :| 0 <= k < |cells| && cells[k] == x;
      assert cells[k].value in Cells();
    }
    SubsetOfSameSize(seen, all);
    assert Some(cell) in all;
    var i :| 0 <= i < |refs| && cells[i] == Some(cell);
    forall j | 0 <= j < |refs| && CellAt(files, refs[j]) == Some(cell) ensures j == i {
      assert cells[j] == cells[i];
    }
  }

  function Wrapped<T>(s: set<T>): set<Option<T>> {
    set x | x in s :: Some(x)
  }

  lemma {:induction false} SomeCount<T>(s: set<T>)
    ensures |Wrapped(s)| == |s|
    decreases s
  {
    if s == {} {
      assert Wrapped(s) == {};
    } else {
      var y :| y in s;
      SomeCount(s - {y});
      assert Wrapped(s) == Wrapped(s - {y}) + {Some(y)};
    }
  }

  /** Every accepted observation ran and passed every frozen case, at one commit, tree and CI run. */
  lemma AcceptedObservationsAgree(files: Directory, index: Index, c: Catalogue, source: string, i: nat, j: nat)
    requires Accepted(files, index, c, source) && i < |index.observations| && j < |index.observations|
    ensures var a, b := RecordOf(files, index.observations[i]), RecordOf(files, index.observations[j]);
            && a.Some? && b.Some? && CasesOk(a.value.cases, c)
            && a.value.commit == b.value.commit && a.value.tree == b.value.tree
            && a.value.ci.runId == b.value.ci.runId && a.value.ci.runAttempt == b.value.ci.runAttempt
            && (forall id :: id in c.cases ==> Case(id, "pass") in a.value.cases)
  {
    hide HeaderOk, ReferenceOk, Relative, ValidCatalogue;
    var refs := index.observations;
    assert refs[i] in refs && refs[j] in refs;
    ReferenceCell(files, refs[i], c, source);
    ReferenceCell(files, refs[j], c, source);
    assert ProvenanceAt(files, refs[i]) == ProvenanceAt(files, refs[j]);
    var cases := RecordOf(files, refs[i]).value.cases;
    SortMembers(c.cases, StringLe);
    forall id | id in c.cases ensures Case(id, "pass") in cases {
      assert id in Ids(cases);
      var k :| 0 <= k < |cases| && Ids(cases)[k] == id;
      assert cases[k] in cases && cases[k] == Case(id, "pass");
    }
  }

  /** The verdict is the same for every order of the observations. */
  lemma VerdictIgnoresOrder(files: Directory, a: Index, b: Index, c: Catalogue, source: string)
    requires multiset(a.observations) == multiset(b.observations) && a.(observations := []) == b.(observations := [])
    ensures Accepted(files, a, c, source) <==> Accepted(files, b, c, source)
  {
    if Accepted(files, a, c, source) {
      PermutedIsAccepted(files, a, b, c, source);
    }
    if Accepted(files, b, c, source) {
      PermutedIsAccepted(files, b, a, c, source);
    }
  }

  lemma PermutedIsAccepted(files: Directory, a: Index, b: Index, c: Catalogue, source: string)
    requires multiset(a.observations) == multiset(b.observations) && a.(observations := []) == b.(observations := [])
    requires Accepted(files, a, c, source)
    ensures Accepted(files, b, c, source)
  {
    hide ReferenceOk, PathOf, CellAt, ProvenanceAt;
    var x, y := a.observations, b.observations;
    var path, cell := (r: Reference) => PathOf(files, r), (r: Reference) => CellAt(files, r);
    assert PathsOf(files, x) == MapSeq(path, x) && PathsOf(files, y) == MapSeq(path, y);
    assert CellsOf(files, x) == MapSeq(cell, x) && CellsOf(files, y) == MapSeq(cell, y);
    MultisetLength(x, y);
    MapPermuted(path, x, y);
    MapPermuted(cell, x, y);
    DistinctPermutation(PathsOf(files, x), PathsOf(files, y));
    DistinctPermutation(CellsOf(files, x), CellsOf(files, y));
    forall r | r in b.observations ensures r in a.observations {
      assert r in multiset(b.observations);
    }
  }

  // ---------------------------------------------------------------- qualification rows

  /** The evidence a row collects from one observation. */
  function RowEvidence(c: Catalogue, row: string, digest: Digest, o: Observation): set<Digest>
    requires row in c.rows
  {
    {digest} + set n | n in c.categories && n in o.artifacts && (forall k :: k in c.rows[row] ==> k in c.categories[n])
                 :: o.artifacts[n]
  }

  function RowEvidenceOf(c: Catalogue, row: string, refs: seq<Reference>, records: seq<Observation>): set<Digest>
    requires row in c.rows && |refs| == |records|
  {
    if refs == [] then {}
    else RowEvidence(c, row, refs[0].digest, records[0]) + RowEvidenceOf(c, row, refs[1..], records[1..])
  }

  lemma {:induction false} RowEvidenceSnoc(c: Catalogue, row: string, refs: seq<Reference>, records: seq<Observation>,
                                           r: Reference, o: Observation)
    requires row in c.rows && |refs| == |records|
    ensures RowEvidenceOf(c, row, refs + [r], records + [o])
            == RowEvidenceOf(c, row, refs, records) + RowEvidence(c, row, r.digest, o)
  {
    hide RowEvidence;
    if refs == [] {
      assert refs + [r] == [r] && records + [o] == [o];
    } else {
      assert (refs + [r])[1..] == refs[1..] + [r] && (records + [o])[1..] == records[1..] + [o];
      RowEvidenceSnoc(c, row, refs[1..], records[1..], r, o);
    }
  }

  /** A row is credited with a category's artifact when the category lists every case of the row. */
  ghost predicate Credited(o: Observation, c: Catalogue, row: string, d: Digest)
    requires row in c.rows
  {
    exists n :: && n in c.categories && n in o.artifacts && o.artifacts[n] == d
                && forall k :: k in c.rows[row] ==> k in c.categories[n]
  }

  /** The references' digests, and the artifacts of the categories that cover the row. */
  ghost predicate EvidenceIs(files: Directory, refs: seq<Reference>, c: Catalogue, row: string, evidence: set<Digest>)
    requires row in c.rows
  {
    forall d :: d in evidence <==>
      || (exists r :: r in refs && r.digest == d)
      || (exists r :: r in refs && RecordOf(files, r).Some? && Credited(RecordOf(files, r).value, c, row, d))
  }

  lemma EvidenceOfOne(c: Catalogue, row: string, digest: Digest, o: Observation)
    requires row in c.rows
    ensures forall d :: d in RowEvidence(c, row, digest, o) <==> d == digest || Credited(o, c, row, d)
  {
  }

  lemma EvidenceJoins(files: Directory, r: Reference, rest: seq<Reference>, o: Observation, c: Catalogue, row: string,
                      own: set<Digest>, evidence: set<Digest>)
    requires row in c.rows && RecordOf(files, r) == Some(o) && EvidenceIs(files, rest, c, row, evidence)
    requires forall d :: d in own <==> d == r.digest || Credited(o, c, row, d)
    ensures EvidenceIs(files, [r] + rest, c, row, own + evidence)
  {
    hide RecordOf, Credited;
    assert forall x :: x in [r] + rest <==> x == r || x in rest;
  }

  lemma {:induction false} RowEvidenceIs(files: Directory, refs: seq<Reference>, records: seq<Observation>, c: Catalogue,
                                         row: string)
    requires row in c.rows && |refs| == |records|
    requires forall i :: 0 <= i < |refs| ==> RecordOf(files, refs[i]) == Some(records[i])
    ensures EvidenceIs(files, refs, c, row, RowEvidenceOf(c, row, refs, records))
  {
    hide RecordOf, RowEvidence, Credited;
    if refs != [] {
      var rest, own := refs[1..], RowEvidence(c, row, refs[0].digest, records[0]);
      assert forall i :: 0 <= i < |rest| ==> RecordOf(files, rest[i]) == Some(records[1..][i]);
      RowEvidenceIs(files, rest, records[1..], c, row);
      EvidenceOfOne(c, row, refs[0].digest, records[0]);
      hide EvidenceIs;
      EvidenceJoins(files, refs[0], rest, records[0], c, row, own, RowEvidenceOf(c, row, rest, records[1..]));
      assert refs == [refs[0]] + rest;
    }
  }

  /** Where no category covers the row, its evidence is the nine observations and nothing else. */
  lemma UncoveredRowHasExactlyNine(files: Directory, index: Index, c: Catalogue, source: string, row: string,
                                   evidence: set<Digest>)
    requires Accepted(files, index, c, source) && row in c.rows && EvidenceIs(files, index.observations, c, row, evidence)
    requires forall n :: n in c.categories ==> exists k :: k in c.rows[row] && k !in c.categories[n]
    ensures |evidence| == 9 && evidence == set r | r in index.observations :: r.digest
  {
    hide RecordOf, Accepted;
    var refs := index.observations;
    assert forall d :: d in evidence <==> exists r :: r in refs && r.digest == d;
    var digests := MapSeq((r: Reference) => r.digest, refs);
    DigestsDiffer(files, index, c, source);
    forall d ensures d in digests <==> d in evidence {
      if d in digests {
        var i :| 0 <= i < |digests| && digests[i] == d;
        assert refs[i] in refs;
      }
      if d in evidence {
        var r :| r in refs && r.digest == d;
        var i :| 0 <= i < |refs| && refs[i] == r;
        assert digests[i] == d;
      }
    }
    DistinctSize(digests);
    assert evidence == set d | d in digests;
  }

  /** `verify_qualification`: the evidence of every row, for an accepted index. */
  method VerifyQualification(files: Directory, index: Index, c: Catalogue, source: string)
    returns (rows: Option<map<string, set<Digest>>>)
    ensures rows.Some? <==> Accepted(files, index, c, source)
    ensures rows.Some? ==> rows.value.Keys == c.rows.Keys
                           && forall row :: row in rows.value ==>
                                |rows.value[row]| >= 9 && EvidenceIs(files, index.observations, c, row, rows.value[row])
  {
    hide RowEvidence, RowEvidenceOf, Accepted, RecordOf, EvidenceIs;
    var verified := VerifyIndex(files, index, c, source);
    if verified.None? {
      return None;
    }
    var refs, records := index.observations, verified.value;
    var evidence: map<string, set<Digest>> := map row | row in c.rows :: {};
    NoRowEvidence(c);
    for i := 0 to |refs|
      invariant evidence.Keys == c.rows.Keys
      invariant forall row :: row in c.rows ==> evidence[row] == RowEvidenceOf(c, row, refs[..i], records[..i])
    {
      assert refs[..i + 1] == refs[..i] + [refs[i]] && records[..i + 1] == records[..i] + [records[i]];
      forall row | row in c.rows
        ensures RowEvidenceOf(c, row, refs[..i + 1], records[..i + 1])
                == evidence[row] + RowEvidence(c, row, refs[i].digest, records[i])
      {
        RowEvidenceSnoc(c, row, refs[..i], records[..i], refs[i], records[i]);
      }
      evidence := map row | row in c.rows :: evidence[row] + RowEvidence(c, row, refs[i].digest, records[i]);
    }
    assert refs[..|refs|] == refs && records[..|records|] == records;
    forall row | row in c.rows
      ensures |evidence[row]| >= 9 && EvidenceIs(files, refs, c, row, evidence[row])
    {
      RowHasNine(files, index, c, source, row, records);
      RowEvidenceIs(files, refs, records, c, row);
    }
    return Some(evidence);
  }

  lemma NoRowEvidence(c: Catalogue)
    ensures forall row :: row in c.rows ==> RowEvidenceOf(c, row, [], []) == {}
  {
  }

  lemma {:induction false} RowEvidenceHolds(c: Catalogue, row: string, refs: seq<Reference>, records: seq<Observation>)
    requires row in c.rows && |refs| == |records|
    ensures forall r :: r in refs ==> r.digest in RowEvidenceOf(c, row, refs, records)
  {
    if refs != [] {
      RowEvidenceHolds(c, row, refs[1..], records[1..]);
      assert refs == [refs[0]] + refs[1..];
    }
  }

  /** Nine observations of nine cells are nine different files. */
  lemma DigestsDiffer(files: Directory, index: Index, c: Catalogue, source: string)
    requires Accepted(files, index, c, source)
    ensures var digests := MapSeq((r: Reference) => r.digest, index.observations); Distinct(digests) && |digests| == 9
  {
    hide ReferenceOk, HeaderOk;
    var refs := index.observations;
    var digests := MapSeq((r: Reference) => r.digest, refs);
    forall i, j | 0 <= i < j < |refs| ensures digests[i] != digests[j] {
      assert refs[i] in refs && refs[j] in refs;
      ReferenceCell(files, refs[i], c, source);
      ReferenceCell(files, refs[j], c, source);
      assert CellsOf(files, refs)[i] != CellsOf(files, refs)[j];
    }
  }

  /** Nine observations of nine cells are nine different files, so a row has at least nine references. */
  lemma RowHasNine(files: Directory, index: Index, c: Catalogue, source: string, row: string, records: seq<Observation>)
    requires Accepted(files, index, c, source) && row in c.rows && |records| == |index.observations|
    ensures |RowEvidenceOf(c, row, index.observations, records)| >= 9
    ensures forall r :: r in index.observations ==> r.digest in RowEvidenceOf(c, row, index.observations, records)
  {
    hide Accepted, RowEvidenceOf;
    var refs := index.observations;
    RowEvidenceHolds(c, row, refs, records);
    DigestsDiffer(files, index, c, source);
    var digests := MapSeq((r: Reference) => r.digest, refs);
    DistinctSize(digests);
    SubsetSize((set d | d in digests), RowEvidenceOf(c, row, refs, records));
  }

  // ---------------------------------------------------------------- aggregation

  /** The index over a listing of the directory's observation files, in any order. */
  function Aggregate(files: Directory, listing: seq<string>, c: Catalogue, source: string): Result<Index> {
    var paths := SortStrings(listing);
    if exists p :: p in paths && (Relative(p).None? || Relative(p).value !in files) then
      Raised("Escaping adaptive artifact location")
    else
      Ok(Index(INDEX_SCHEMA, "0.54", source, OfCatalogue(c),
               MapSeq((p: string) => Reference(p, DigestAt(files, p)), paths)))
  }

  function DigestAt(files: Directory, path: string): Digest {
    match Relative(path)
    case Some(p) => if p in files then OfFile(files[p]) else Foreign(path)
    case None => Foreign(path)
  }

  /** A directory of nine passing observations of one candidate, with the category files `execute` writes beside them. */
  ghost predicate HonestDirectory(files: Directory, listing: seq<string>, c: Catalogue, source: string) {
    && |listing| == 9 && Distinct(listing)
    && (forall p :: p in listing ==> HonestObservation(files, p, c, source))
    && (forall p, q :: p in listing && q in listing ==>
          && (p != q ==> CellOf(files[p].document.observation) != CellOf(files[q].document.observation))
          && ProvenanceOf(files[p].document.observation) == ProvenanceOf(files[q].document.observation))
  }

  ghost predicate HonestObservation(files: Directory, path: string, c: Catalogue, source: string) {
    && Relative(path) == Some(path) && path in files && files[path].document.ObservationDocument?
    && var o := files[path].document.observation;
       && ObservationOk(o, c, source) && CiOk(o)
       && forall name :: name in c.categories ==> WrittenBy(files, path, o, c, source, name)
  }

  /** The category file holds the produced record, and the observation holds its digest. */
  ghost predicate WrittenBy(files: Directory, path: string, o: Observation, c: Catalogue, source: string, name: string)
    requires name in c.categories && o.artifacts.Keys == c.categories.Keys
  {
    match Relative(Sibling(path, name))
    case None => false
    case Some(p) =>
      && p in files && files[p].document == CategoryDocument(CategoryFor(c.categories[name], o.cases, name, source))
      && o.artifacts[name] == OfFile(files[p])
  }

  lemma HonestReference(files: Directory, path: string, c: Catalogue, source: string)
    requires HonestObservation(files, path, c, source)
    ensures var r := Reference(path, DigestAt(files, path));
            && ReferenceOk(files, r, c, source)
            && Resolved(files, r) == Some((path, files[path].document.observation))
  {
    hide Relative, Sibling, ObservationOk, CategoryFor;
    var o := files[path].document.observation;
    assert o.artifacts.Keys == c.categories.Keys by { ArtifactKeys(o, c, source); }
    forall name | name in o.artifacts ensures CategoryFileOk(files, path, o, c, source, name) {
      assert WrittenBy(files, path, o, c, source, name);
      var p := Relative(Sibling(path, name)).value;
      CategoryAcceptedExactly(files[p].document.category, c, o, name, source);
    }
  }

  lemma ArtifactKeys(o: Observation, c: Catalogue, source: string)
    requires ObservationOk(o, c, source)
    ensures o.artifacts.Keys == c.categories.Keys && ValidCatalogue(c) && SourceDigest(source)
  {
  }

  /** The index that `aggregate` builds over an honest directory is accepted, whatever order the files are found in. */
  lemma AggregateIsAccepted(files: Directory, listing: seq<string>, c: Catalogue, source: string)
    requires HonestDirectory(files, listing, c, source)
    ensures Aggregate(files, listing, c, source).Ok?
    ensures Accepted(files, Aggregate(files, listing, c, source).value, c, source)
  {
    hide HonestObservation, ReferenceOk, Resolved, ObservationOk, Relative, DigestAt;
    var paths := SortStrings(listing);
    SortMembers(listing, StringLe);
    DistinctPermutation(listing, paths);
    forall p | p in paths
      ensures HonestObservation(files, p, c, source) && Relative(p) == Some(p) && p in files
    {
      HonestFacts(files, p, c, source);
    }
    var refs := MapSeq((p: string) => Reference(p, DigestAt(files, p)), paths);
    forall i | 0 <= i < |refs|
      ensures ReferenceOk(files, refs[i], c, source) && paths[i] in files && files[paths[i]].document.ObservationDocument?
      ensures Resolved(files, refs[i]) == Some((paths[i], files[paths[i]].document.observation))
    {
      assert paths[i] in paths;
      HonestFacts(files, paths[i], c, source);
      HonestReference(files, paths[i], c, source);
    }
    assert paths[0] in paths;
    HonestFacts(files, paths[0], c, source);
    ArtifactKeys(files[paths[0]].document.observation, c, source);
    ListIsOk(files, listing, paths, refs, c, source);
  }

  lemma HonestFacts(files: Directory, path: string, c: Catalogue, source: string)
    requires HonestObservation(files, path, c, source)
    ensures Relative(path) == Some(path) && path in files && files[path].document.ObservationDocument?
    ensures ObservationOk(files[path].document.observation, c, source)
  {
  }

  lemma ListIsOk(files: Directory, listing: seq<string>, paths: seq<string>, refs: seq<Reference>, c: Catalogue, source: string)
    requires HonestDirectory(files, listing, c, source) && Distinct(paths)
    requires |refs| == |paths| == 9 && forall p :: p in paths <==> p in listing
    requires forall i :: 0 <= i < |refs| ==>
               && ReferenceOk(files, refs[i], c, source) && paths[i] in files && files[paths[i]].document.ObservationDocument?
               && Resolved(files, refs[i]) == Some((paths[i], files[paths[i]].document.observation))
    ensures ReferencesOk(files, refs, c, source)
  {
    hide HonestObservation, ReferenceOk, Resolved;
    forall i, j | 0 <= i < j < |refs|
      ensures PathOf(files, refs[i]) != PathOf(files, refs[j]) && CellAt(files, refs[i]) != CellAt(files, refs[j])
    {
      assert paths[i] in listing && paths[j] in listing && paths[i] != paths[j];
    }
    forall r, s | r in refs && s in refs ensures ProvenanceAt(files, r) == ProvenanceAt(files, s) {
      var i :| 0 <= i < |refs| && refs[i] == r;
      var j :| 0 <= j < |refs| && refs[j] == s;
      assert paths[i] in listing && paths[j] in listing;
    }
  }
}
