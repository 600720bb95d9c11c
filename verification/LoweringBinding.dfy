/**
 The adaptive checker's lowering binding: the lowered requirements of a candidate, grouped by the
 evidence that lowers them, must be exactly the lowering records the candidate declares.
 */
module LoweringBinding {
  import opened PyText
  import opened Sorting

  /** What a support finding says about a lowering. */
  datatype Finding = Finding(loweringId: string, proofReference: string, conditions: seq<string>, physicalEffects: seq<string>)

  /** The group-by key: the fields of a lowering record other than its requirements. */
  datatype Key = Key(id: string, proof: string, conditions: seq<string>, effects: seq<string>)

  /** Requirement names resolve to finding identifiers, and those to findings. */
  datatype Evidence = Evidence(resolved: map<string, string>, findings: map<string, Finding>)

  datatype Requirement = Requirement(name: string, support: string)

  /** A lowering record: one key with the requirements it lowers. */
  datatype Record = Record(key: Key, requirements: seq<string>)

  /** An entry of the declared list: a record, some other object, or no object at all. */
  datatype Entry = Lowering(record: Record) | OtherObject(text: string) | NotAnObject(text: string)

  datatype Listing = Missing | Malformed | Listed(entries: seq<Entry>)

  datatype Candidate = Candidate(lowerings: Listing, lowering: Option<Entry>)

  // ---------------------------------------------------------------- what is expected

  function LoweredNames(requirements: seq<Requirement>): seq<string> {
    if requirements == [] then []
    else
      (if requirements[0].support == "supported_with_lowering" then [requirements[0].name] else [])
      + LoweredNames(requirements[1..])
  }

  function Lowered(requirements: seq<Requirement>): seq<string> {
    SortStrings(LoweredNames(requirements))
  }

  /** The key of a lowered requirement; `None` where its evidence is incomplete. */
  function KeyFor(e: Evidence, requirement: string): Option<Key> {
    if requirement !in e.resolved || e.resolved[requirement] !in e.findings then None
    else
      var f := e.findings[e.resolved[requirement]];
      if f.loweringId == "" || f.proofReference == "" || f.physicalEffects == [] then None
      else Some(Key(f.loweringId, f.proofReference, f.conditions, f.physicalEffects))
  }

  ghost predicate Complete(e: Evidence, lowered: seq<string>) {
    forall r :: r in lowered ==> KeyFor(e, r).Some?
  }

  /** The requirements with a key, in their order. */
  function Having(e: Evidence, lowered: seq<string>, key: Key): seq<string> {
    if lowered == [] then []
    else (if KeyFor(e, lowered[0]) == Some(key) then [lowered[0]] else []) + Having(e, lowered[1..], key)
  }

  /** `records` is the group-by of `lowered`: one record for each key that occurs, with all its requirements. */
  ghost predicate GroupBy(e: Evidence, lowered: seq<string>, records: seq<Record>) {
    && (forall i :: 0 <= i < |records| ==>
          records[i].requirements == Having(e, lowered, records[i].key) && records[i].requirements != [])
    && (forall i, j :: 0 <= i < j < |records| ==> records[i].key != records[j].key)
    && (forall r :: r in lowered ==> exists i :: 0 <= i < |records| && Some(records[i].key) == KeyFor(e, r))
  }

  lemma {:induction false} HavingMembers(e: Evidence, lowered: seq<string>, key: Key)
    ensures forall r :: r in Having(e, lowered, key) <==> r in lowered && KeyFor(e, r) == Some(key)
  {
    if lowered != [] {
      HavingMembers(e, lowered[1..], key);
      assert lowered == [lowered[0]] + lowered[1..];
    }
  }

  lemma {:induction false} HavingSnoc(e: Evidence, lowered: seq<string>, r: string, key: Key)
    ensures Having(e, lowered + [r], key) == Having(e, lowered, key) + if KeyFor(e, r) == Some(key) then [r] else []
  {
    if lowered == [] {
      assert lowered + [r] == [r];
    } else {
      assert (lowered + [r])[1..] == lowered[1..] + [r];
      HavingSnoc(e, lowered[1..], r, key);
    }
  }

  // ---------------------------------------------------------------- grouping

  /** `groups.setdefault(key, []).append(requirement)` on a dictionary in insertion order. */
  function AddTo(groups: seq<Record>, key: Key, requirement: string): seq<Record> {
    if groups == [] then [Record(key, [requirement])]
    else if groups[0].key == key then [Record(key, groups[0].requirements + [requirement])] + groups[1..]
    else [groups[0]] + AddTo(groups[1..], key, requirement)
  }

  lemma {:induction false} AddToShape(groups: seq<Record>, key: Key, requirement: string)
    requires forall i, j :: 0 <= i < j < |groups| ==> groups[i].key != groups[j].key
    ensures var out := AddTo(groups, key, requirement);
            && (forall i, j :: 0 <= i < j < |out| ==> out[i].key != out[j].key)
            && |groups| <= |out| <= |groups| + 1
            && (forall i :: 0 <= i < |groups| ==>
                  out[i] == if groups[i].key == key then Record(key, groups[i].requirements + [requirement]) else groups[i])
            && (|out| > |groups| ==> out[|groups|] == Record(key, [requirement])
                                     && forall i :: 0 <= i < |groups| ==> groups[i].key != key)
            && (|out| == |groups| ==> exists i :: 0 <= i < |groups| && groups[i].key == key)
  {
    if groups != [] && groups[0].key != key {
      var rest := groups[1..];
      assert forall i :: 0 <= i < |rest| ==> rest[i] == groups[i + 1];
      forall i, j | 0 <= i < j < |rest| ensures rest[i].key != rest[j].key {
        assert groups[i + 1].key != groups[j + 1].key;
      }
      AddToShape(rest, key, requirement);
      var tail := AddTo(rest, key, requirement);
      var out := [groups[0]] + tail;
      assert AddTo(groups, key, requirement) == out;
      forall j | 0 <= j < |tail| ensures tail[j].key != groups[0].key {
        if j < |rest| {
          assert groups[0].key != groups[j + 1].key;
        }
      }
    }
  }

  lemma MembersAreGrouped(e: Evidence, lowered: seq<string>, groups: seq<Record>, key: Key)
    requires GroupBy(e, lowered, groups)
    ensures Having(e, lowered, key) == [] || exists k :: 0 <= k < |groups| && groups[k].key == key
  {
    HavingMembers(e, lowered, key);
    if Having(e, lowered, key) != [] {
      var x := Having(e, lowered, key)[0];
      assert x in Having(e, lowered, key);
      var k :| 0 <= k < |groups| && Some(groups[k].key) == KeyFor(e, x);
      assert groups[k].key == key;
    }
  }

  lemma AddToKeepsGroupBy(e: Evidence, lowered: seq<string>, r: string, key: Key, groups: seq<Record>)
    requires GroupBy(e, lowered, groups) && KeyFor(e, r) == Some(key)
    ensures GroupBy(e, lowered + [r], AddTo(groups, key, r))
  {
    var out := AddTo(groups, key, r);
    AddToShape(groups, key, r);
    forall i | 0 <= i < |out|
      ensures out[i].requirements == Having(e, lowered + [r], out[i].key) && out[i].requirements != []
    {
      HavingSnoc(e, lowered, r, out[i].key);
      if i == |groups| {
        MembersAreGrouped(e, lowered, groups, key);
      }
    }
    forall x | x in lowered + [r] ensures exists i :: 0 <= i < |out| && Some(out[i].key) == KeyFor(e, x) {
      if x in lowered {
        var i :| 0 <= i < |groups| && Some(groups[i].key) == KeyFor(e, x);
        assert out[i].key == groups[i].key;
      } else if |out| > |groups| {
        assert out[|groups|].key == key;
      } else {
        var i :| 0 <= i < |groups| && groups[i].key == key;
        assert out[i].key == key;
      }
    }
  }

  // ---------------------------------------------------------------- uniqueness

  lemma GroupByMembers(e: Evidence, lowered: seq<string>, records: seq<Record>)
    requires GroupBy(e, lowered, records)
    ensures Distinct(records)
    ensures forall x :: x in records <==> x.requirements == Having(e, lowered, x.key) && x.requirements != []
  {
    forall x ensures x in records <==> x.requirements == Having(e, lowered, x.key) && x.requirements != [] {
      if x.requirements == Having(e, lowered, x.key) && x.requirements != [] {
        HavingMembers(e, lowered, x.key);
        assert x.requirements[0] in x.requirements;
        var i :| 0 <= i < |records| && Some(records[i].key) == KeyFor(e, x.requirements[0]);
        assert records[i] == x;
      }
    }
  }

  /** Two group-bys of the same requirements are permutations of each other. */
  lemma GroupByUnique(e: Evidence, lowered: seq<string>, a: seq<Record>, b: seq<Record>)
    requires GroupBy(e, lowered, a) && GroupBy(e, lowered, b)
    ensures multiset(a) == multiset(b)
  {
    GroupByMembers(e, lowered, a);
    GroupByMembers(e, lowered, b);
    DistinctMultiset(a, b);
  }

  /** And a permutation of a group-by is one. */
  lemma GroupByPermutes(e: Evidence, lowered: seq<string>, a: seq<Record>, b: seq<Record>)
    requires GroupBy(e, lowered, a) && multiset(a) == multiset(b)
    ensures GroupBy(e, lowered, b)
  {
    GroupByMembers(e, lowered, a);
    DistinctPermutation(a, b);
    assert forall x :: x in a <==> x in multiset(a);
    assert forall x :: x in b <==> x in multiset(b);
    forall i | 0 <= i < |b|
      ensures b[i].requirements == Having(e, lowered, b[i].key) && b[i].requirements != []
    {
      assert b[i] in b && b[i] in a;
    }
    forall i, j | 0 <= i < j < |b| ensures b[i].key != b[j].key {
      assert b[i] != b[j] && b[i] in a && b[j] in a;
    }
    forall r | r in lowered ensures exists i :: 0 <= i < |b| && Some(b[i].key) == KeyFor(e, r) {
      var i :| 0 <= i < |a| && Some(a[i].key) == KeyFor(e, r);
      assert a[i] in b;
      var j :| 0 <= j < |b| && b[j] == a[i];
    }
  }

  /** Each lowered requirement lies in exactly one record. */
  lemma ExactlyOneRecord(e: Evidence, lowered: seq<string>, records: seq<Record>, r: string)
    requires GroupBy(e, lowered, records) && r in lowered
    ensures exists i :: 0 <= i < |records| && r in records[i].requirements
                        && forall j :: 0 <= j < |records| && r in records[j].requirements ==> j == i
  {
    var i :| 0 <= i < |records| && Some(records[i].key) == KeyFor(e, r);
    forall j | 0 <= j < |records| ensures r in records[j].requirements <==> j == i {
      HavingMembers(e, lowered, records[j].key);
    }
  }

  // ---------------------------------------------------------------- the verdict

  /** The declared list: `lowerings`, or else the singular `lowering` on its own. */
  function Declared(candidate: Candidate): Option<seq<Entry>> {
    match candidate.lowerings
    case Malformed => None
    case Listed(entries) => Some(entries)
    case Missing => Some(match candidate.lowering case None => [] case Some(entry) => [entry])
  }

  function Entries(records: seq<Record>): (r: seq<Entry>) {
    MapSeq((x: Record) => Lowering(x), records)
  }

  /** The declared lowerings are the group-by, in any order; a singular one is the only group. */
  ghost predicate Bound(candidate: Candidate, e: Evidence, lowered: seq<string>) {
    && Complete(e, lowered)
    && Declared(candidate).Some?
    && (exists records :: GroupBy(e, lowered, records) && Entries(records) == Declared(candidate).value)
    && (candidate.lowering.Some? ==> Declared(candidate).value == [candidate.lowering.value])
  }

  ghost predicate ByDump(dumps: Entry -> string, le: (Entry, Entry) -> bool) {
    forall a, b :: le(a, b) == StringLe(dumps(a), dumps(b))
  }

  lemma DumpOrder(dumps: Entry -> string, le: (Entry, Entry) -> bool)
    requires Injective(dumps) && ByDump(dumps, le)
    ensures TotalOrder(le)
  {
    StringOrder();
  }

  lemma EntriesInjective()
    ensures Injective((x: Record) => Lowering(x))
  {
  }

  /** Some list of records produces the entries that are a permutation of produced entries. */
  lemma PermutedEntries(records: seq<Record>, entries: seq<Entry>) returns (permuted: seq<Record>)
    requires multiset(Entries(records)) == multiset(entries)
    ensures Entries(permuted) == entries && multiset(permuted) == multiset(records)
  {
    forall i | 0 <= i < |entries| ensures entries[i].Lowering? {
      assert entries[i] in multiset(Entries(records));
      var j :| 0 <= j < |records| && Entries(records)[j] == entries[i];
    }
    permuted := seq(|entries|, i requires 0 <= i < |entries| => entries[i].record);
    assert Entries(permuted) == entries;
    EntriesInjective();
    MapMultiset((x: Record) => Lowering(x), permuted, records);
  }

  /** `json.dumps(item, sort_keys=True)` is taken as an injective text of an entry. */
  method ValidateLoweringBinding(candidate: Candidate, requirements: seq<Requirement>, e: Evidence, dumps: Entry -> string)
    returns (accepted: bool)
    requires Injective(dumps)
    ensures accepted <==> Bound(candidate, e, Lowered(requirements))
  {
    hide GroupBy, Complete, KeyFor, Lowered;
    var lowered := Lowered(requirements);
    var groups: seq<Record> := [];
    NothingGrouped(e);
    for i := 0 to |lowered|
      invariant GroupBy(e, lowered[..i], groups)
      invariant Complete(e, lowered[..i])
    {
      var key := KeyFor(e, lowered[i]);
      CompleteUpTo(e, lowered, i);
      if key.None? {
        return false;
      }
      AddToKeepsGroupBy(e, lowered[..i], lowered[i], key.value, groups);
      assert lowered[..i + 1] == lowered[..i] + [lowered[i]];
      groups := AddTo(groups, key.value, lowered[i]);
    }
    assert lowered[..|lowered|] == lowered;
    accepted := CompareDeclared(candidate, lowered, e, groups, dumps);
  }

  lemma NothingGrouped(e: Evidence)
    ensures GroupBy(e, [], []) && Complete(e, [])
  {
  }

  lemma CompleteUpTo(e: Evidence, lowered: seq<string>, i: nat)
    requires i < |lowered| && Complete(e, lowered[..i])
    ensures KeyFor(e, lowered[i]).Some? ==> Complete(e, lowered[..i + 1])
    ensures KeyFor(e, lowered[i]).None? ==> !Complete(e, lowered)
  {
    hide KeyFor;
    assert lowered[..i + 1] == lowered[..i] + [lowered[i]];
    assert lowered[i] in lowered;
  }

  /** The comparison of the declared list with the groups. */
  method CompareDeclared(candidate: Candidate, lowered: seq<string>, e: Evidence, groups: seq<Record>, dumps: Entry -> string)
    returns (accepted: bool)
    requires Injective(dumps) && Complete(e, lowered) && GroupBy(e, lowered, groups)
    ensures accepted <==> Bound(candidate, e, lowered)
  {
    hide GroupBy, Complete;
    var declared := Declared(candidate);
    if declared.None? {
      return false;
    }
    var actual, expected := declared.value, Entries(groups);
    BoundByMultiset(candidate, lowered, e, groups);
    if exists entry :: entry in actual && entry.NotAnObject? {
      return false;
    }
    if candidate.lowering.Some? && |expected| != 1 {
      return false;
    }
    if candidate.lowering.Some? && (actual == [] || candidate.lowering.value != actual[0]) {
      return false;
    }
    var le := (a: Entry, b: Entry) => StringLe(dumps(a), dumps(b));
    DumpOrder(dumps, le);
    SortCanonical(actual, expected, le);
    accepted := Sort(actual, le) == Sort(expected, le);
    if accepted && candidate.lowering.Some? {
      MultisetLength(actual, expected);
      assert actual == [actual[0]];
    }
  }

  /** Being bound, in terms of the groups at hand. */
  lemma BoundByMultiset(candidate: Candidate, lowered: seq<string>, e: Evidence, groups: seq<Record>)
    requires Complete(e, lowered) && GroupBy(e, lowered, groups) && Declared(candidate).Some?
    ensures var actual := Declared(candidate).value;
            Bound(candidate, e, lowered) <==>
              multiset(actual) == multiset(Entries(groups))
              && (candidate.lowering.Some? ==> actual == [candidate.lowering.value])
    ensures multiset(Declared(candidate).value) == multiset(Entries(groups)) ==>
              |Declared(candidate).value| == |groups| && forall entry :: entry in Declared(candidate).value ==> entry.Lowering?
  {
    hide GroupBy, Complete;
    var actual := Declared(candidate).value;
    EntriesInjective();
    if multiset(actual) == multiset(Entries(groups)) {
      MultisetLength(actual, Entries(groups));
      var permuted := PermutedEntries(groups, actual);
      GroupByPermutes(e, lowered, groups, permuted);
    }
    if records :| GroupBy(e, lowered, records) && Entries(records) == actual {
      GroupByUnique(e, lowered, records, groups);
      MapMultiset((x: Record) => Lowering(x), records, groups);
    }
  }

  // ---------------------------------------------------------------- acceptance, record by record

  /** The record quotes the complete finding of the requirement. */
  predicate Quotes(e: Evidence, requirement: string, record: Record) {
    && requirement in e.resolved && e.resolved[requirement] in e.findings
    && var f := e.findings[e.resolved[requirement]];
       && record.key.id == f.loweringId != "" && record.key.proof == f.proofReference != ""
       && record.key.conditions == f.conditions && record.key.effects == f.physicalEffects != []
  }

  ghost predicate IsLowered(requirements: seq<Requirement>, name: string) {
    exists r :: r in requirements && r.name == name && r.support == "supported_with_lowering"
  }

  /** Each record lists, sorted, exactly the lowered requirements whose findings it quotes. */
  ghost predicate RecordsQuote(requirements: seq<Requirement>, e: Evidence, records: seq<Record>) {
    && (forall i :: 0 <= i < |records| ==>
          && records[i].requirements != [] && Distinct(records[i].requirements)
          && SortedBy(StringLe, records[i].requirements)
          && forall name :: name in records[i].requirements <==> IsLowered(requirements, name) && Quotes(e, name, records[i]))
    && (forall i, j :: 0 <= i < j < |records| ==> records[i].key != records[j].key)
    && (forall name :: IsLowered(requirements, name) ==> exists i :: 0 <= i < |records| && name in records[i].requirements)
  }

  lemma {:induction false} LoweredMembers(requirements: seq<Requirement>)
    ensures forall name :: name in LoweredNames(requirements) <==> IsLowered(requirements, name)
  {
    if requirements != [] {
      var rest := requirements[1..];
      LoweredMembers(rest);
      assert requirements == [requirements[0]] + rest;
      assert forall r :: r in requirements <==> r == requirements[0] || r in rest;
    }
  }

  lemma DistinctBehind(x: string, tail: seq<string>)
    requires Distinct(tail) && x !in tail
    ensures Distinct([x] + tail)
  {
    var out := [x] + tail;
    forall i, j | 0 <= i < j < |out| ensures out[i] != out[j] {
      assert out[j] == tail[j - 1] && out[j] in tail;
      assert i > 0 ==> out[i] == tail[i - 1];
    }
  }

  lemma {:induction false} LoweredDistinct(requirements: seq<Requirement>)
    requires Distinct(MapSeq((r: Requirement) => r.name, requirements))
    ensures Distinct(LoweredNames(requirements))
  {
    if requirements != [] {
      var rest, first := requirements[1..], requirements[0];
      var names := MapSeq((r: Requirement) => r.name, requirements);
      assert MapSeq((r: Requirement) => r.name, rest) == names[1..];
      LoweredDistinct(rest);
      LoweredMembers(rest);
      forall i | 0 <= i < |rest| ensures rest[i].name != first.name {
        assert names[i + 1] == rest[i].name && names[0] == first.name;
      }
      assert forall r :: r in rest ==> r.name != first.name;
      assert first.name !in LoweredNames(rest);
      hide IsLowered, Distinct;
      DistinctBehind(first.name, LoweredNames(rest));
      assert [] + LoweredNames(rest) == LoweredNames(rest);
    }
  }

  lemma LoweredFacts(requirements: seq<Requirement>)
    requires Distinct(MapSeq((r: Requirement) => r.name, requirements))
    ensures forall name :: name in Lowered(requirements) <==> IsLowered(requirements, name)
    ensures Distinct(Lowered(requirements)) && SortedBy(StringLe, Lowered(requirements))
  {
    hide IsLowered;
    LoweredMembers(requirements);
    LoweredDistinct(requirements);
    StringOrder();
    SortMembers(LoweredNames(requirements), StringLe);
    SortSorted(LoweredNames(requirements), StringLe);
    DistinctPermutation(LoweredNames(requirements), Lowered(requirements));
  }

  lemma KeyIsQuoted(e: Evidence, requirement: string, record: Record)
    ensures KeyFor(e, requirement) == Some(record.key) <==> Quotes(e, requirement, record)
  {
  }

  lemma {:induction false} HavingSorted(e: Evidence, lowered: seq<string>, key: Key)
    requires Distinct(lowered) && SortedBy(StringLe, lowered)
    ensures Distinct(Having(e, lowered, key)) && SortedBy(StringLe, Having(e, lowered, key))
  {
    hide KeyFor, StringLe;
    if lowered != [] {
      var rest := lowered[1..];
      assert forall i, j :: 0 <= i < j < |rest| ==> rest[i] == lowered[i + 1] && rest[j] == lowered[j + 1];
      HavingSorted(e, rest, key);
      HavingMembers(e, rest, key);
      var tail := Having(e, rest, key);
      forall x | x in tail ensures x != lowered[0] && StringLe(lowered[0], x) {
        var j :| 0 <= j < |rest| && rest[j] == x;
        assert lowered[j + 1] == x;
      }
      FirstSorted(lowered[0], tail);
    }
  }

  lemma FirstSorted(x: string, tail: seq<string>)
    requires Distinct(tail) && SortedBy(StringLe, tail) && forall y :: y in tail ==> x != y && StringLe(x, y)
    ensures Distinct([x] + tail) && SortedBy(StringLe, [x] + tail)
  {
    hide StringLe;
    DistinctBehind(x, tail);
    var out := [x] + tail;
    forall i, j | 0 <= i < j < |out| ensures StringLe(out[i], out[j]) {
      assert out[j] == tail[j - 1] && out[j] in tail;
      assert i > 0 ==> out[i] == tail[i - 1];
    }
  }

  lemma SameList(a: seq<string>, b: seq<string>)
    requires Distinct(a) && SortedBy(StringLe, a) && Distinct(b) && SortedBy(StringLe, b)
    requires forall x :: x in a <==> x in b
    ensures a == b
  {
    hide StringLe;
    StringOrder();
    DistinctMultiset(a, b);
    SortedUnique(a, b, StringLe);
  }

  /** Being the group-by says exactly that, when requirement names are the keys of a dictionary. */
  lemma GroupByQuotes(requirements: seq<Requirement>, e: Evidence, records: seq<Record>)
    requires Distinct(MapSeq((r: Requirement) => r.name, requirements))
    ensures GroupBy(e, Lowered(requirements), records) <==> RecordsQuote(requirements, e, records)
  {
    var lowered := Lowered(requirements);
    LoweredFacts(requirements);
    hide Lowered, IsLowered, KeyFor, Quotes, StringLe;
    forall i | 0 <= i < |records|
      ensures records[i].requirements == Having(e, lowered, records[i].key)
              <==> Distinct(records[i].requirements) && SortedBy(StringLe, records[i].requirements)
                   && forall name :: name in records[i].requirements <==> name in lowered && Quotes(e, name, records[i])
    {
      RecordQuotes(e, lowered, records[i]);
    }
    forall name, i | 0 <= i < |records| ensures Some(records[i].key) == KeyFor(e, name) <==> Quotes(e, name, records[i]) {
      KeyIsQuoted(e, name, records[i]);
    }
    hide Having, Distinct, SortedBy;
  }

  lemma RecordQuotes(e: Evidence, lowered: seq<string>, record: Record)
    requires Distinct(lowered) && SortedBy(StringLe, lowered)
    ensures record.requirements == Having(e, lowered, record.key)
            <==> Distinct(record.requirements) && SortedBy(StringLe, record.requirements)
                 && forall name :: name in record.requirements <==> name in lowered && Quotes(e, name, record)
  {
    HavingSorted(e, lowered, record.key);
    HavingMembers(e, lowered, record.key);
    forall name ensures KeyFor(e, name) == Some(record.key) <==> Quotes(e, name, record) {
      KeyIsQuoted(e, name, record);
    }
    hide KeyFor, Quotes, StringLe, Having;
    if Distinct(record.requirements) && SortedBy(StringLe, record.requirements)
       && forall name :: name in record.requirements <==> name in lowered && Quotes(e, name, record) {
      SameList(record.requirements, Having(e, lowered, record.key));
    }
  }

  /**
   Accepted means: every lowered requirement's finding is complete, and the declared entries are records that each quote
   the findings of exactly the requirements they list; a singular lowering is the only one.
   */
  lemma AcceptedExactly(candidate: Candidate, requirements: seq<Requirement>, e: Evidence)
    requires Distinct(MapSeq((r: Requirement) => r.name, requirements))
    ensures Bound(candidate, e, Lowered(requirements))
            <==> exists records ::
                   && RecordsQuote(requirements, e, records)
                   && (match candidate.lowerings
                       case Malformed => false
                       case Listed(entries) => entries == Entries(records)
                       case Missing => Entries(records) == if candidate.lowering.Some? then [candidate.lowering.value] else [])
                   && (candidate.lowering.Some? ==> Entries(records) == [candidate.lowering.value])
  {
    var lowered := Lowered(requirements);
    LoweredFacts(requirements);
    forall records ensures GroupBy(e, lowered, records) <==> RecordsQuote(requirements, e, records) {
      GroupByQuotes(requirements, e, records);
    }
    forall records ensures GroupBy(e, lowered, records) ==> Complete(e, lowered) {
      hide KeyFor, Having;
    }
    hide GroupBy, RecordsQuote, Complete, Lowered;
  }

  // ---------------------------------------------------------------- requirement order

  lemma {:induction false} LoweredNamesMultiset(requirements: seq<Requirement>, name: string)
    ensures multiset(LoweredNames(requirements))[name]
            == multiset(requirements)[Requirement(name, "supported_with_lowering")]
  {
    if requirements != [] {
      LoweredNamesMultiset(requirements[1..], name);
      var head := if requirements[0].support == "supported_with_lowering" then [requirements[0].name] else [];
      assert LoweredNames(requirements) == head + LoweredNames(requirements[1..]);
      assert multiset(LoweredNames(requirements)) == multiset(head) + multiset(LoweredNames(requirements[1..]));
      assert multiset(head)[name] == if requirements[0] == Requirement(name, "supported_with_lowering") then 1 else 0;
      assert requirements == [requirements[0]] + requirements[1..];
      assert multiset(requirements) == multiset{requirements[0]} + multiset(requirements[1..]);
    }
  }

  /** The verdict does not depend on the order of the requirements. */
  lemma VerdictIgnoresOrder(candidate: Candidate, e: Evidence, a: seq<Requirement>, b: seq<Requirement>)
    requires multiset(a) == multiset(b)
    ensures Bound(candidate, e, Lowered(a)) <==> Bound(candidate, e, Lowered(b))
  {
    forall name ensures multiset(LoweredNames(a))[name] == multiset(LoweredNames(b))[name] {
      LoweredNamesMultiset(a, name);
      LoweredNamesMultiset(b, name);
    }
    StringOrder();
    SortCanonical(LoweredNames(a), LoweredNames(b), StringLe);
  }
}
