/**
 The adaptive checker's placement evidence: candidates bound to targets, the node-by-target
 matrix they must fill, and the selection made from them. A target is its canonical JSON text.
 */
module Placement {
  import opened PyText
  import opened Sorting

  /** A candidate record; `None` targets are values that are not objects. */
  datatype Candidate = Candidate(
    id: string,
    node: string,
    eligible: bool,
    decision: string,
    score: Option<int>,
    target: Option<string>,
    reportTarget: Option<string>,
    evidenced: bool)

  /** What one record by itself has to say; `evidenced` stands for the support vector and its lowerings. */
  ghost predicate WellFormed(c: Candidate) {
    && c.node != ""
    && (c.decision == "eligible" || c.decision == "eliminated_before_preference_scoring")
    && (c.eligible <==> c.score.Some?)
    && c.evidenced
  }

  /** The candidate's target is an object and the one of its support report. */
  ghost predicate TargetBound(c: Candidate) {
    c.target.Some? && c.target == c.reportTarget
  }

  /** Where a candidate places its node. */
  datatype Place = Place(node: string, target: string)

  function PlaceOf(c: Candidate): Place {
    Place(c.node, c.target.GetOr(""))
  }

  /** The non-empty strings of the `nodes` list; `None` is an entry that is no string. */
  function NodeIds(nodes: seq<Option<string>>): set<string> {
    set n | n in nodes && n.Some? && n.value != "" :: n.value
  }

  function Grid(ids: set<string>, targets: set<string>): set<Place> {
    set n, t | n in ids && t in targets :: Place(n, t)
  }

  function Places(candidates: seq<Candidate>): (r: seq<Place>) {
    MapSeq(PlaceOf, candidates)
  }

  /** The candidates fill the grid of all nodes and one common, non-empty target set, once each. */
  ghost predicate FillsGrid(candidates: seq<Candidate>, nodes: seq<Option<string>>, targets: set<string>) {
    && (forall c :: c in candidates ==> WellFormed(c) && TargetBound(c))
    && Distinct(Places(candidates))
    && NodeIds(nodes) != {} && targets != {}
    && (set p | p in Places(candidates)) == Grid(NodeIds(nodes), targets)
  }

  function TargetsAt(candidates: seq<Candidate>, node: string): set<string> {
    set c | c in candidates && c.node == node && c.target.Some? :: c.target.value
  }

  /** `validate_adaptive_target_binding`: `None` where it raises, else the target key, which is new for the node. */
  method BindTarget(c: Candidate, seenTargets: set<Place>) returns (key: Option<string>, seen: set<Place>)
    ensures key.Some? <==> TargetBound(c) && PlaceOf(c) !in seenTargets
    ensures key.Some? ==> c.target == key && seen == seenTargets + {PlaceOf(c)}
  {
    seen := seenTargets;
    if c.target.None? || c.target != c.reportTarget || PlaceOf(c) in seen {
      return None, seen;
    }
    seen := seen + {PlaceOf(c)};
    return c.target, seen;
  }

  /** The candidate loop of `main`, its test for several nodes, and the target matrix check behind it. */
  method CheckMatrix(candidates: seq<Candidate>, nodes: seq<Option<string>>) returns (accepted: bool)
    ensures accepted <==> |nodes| >= 2 && exists targets :: FillsGrid(candidates, nodes, targets)
  {
    var seenTargets: set<Place> := {};
    var targetsByNode: map<string, set<string>> := map[];
    for i := 0 to |candidates|
      invariant forall c :: c in candidates[..i] ==> WellFormed(c) && TargetBound(c)
      invariant Distinct(Places(candidates[..i]))
      invariant seenTargets == set p | p in Places(candidates[..i])
      invariant targetsByNode.Keys == set c | c in candidates[..i] :: c.node
      invariant forall n :: n in targetsByNode ==> targetsByNode[n] == TargetsAt(candidates[..i], n)
    {
      hide Distinct;
      var c := candidates[i];
      assert c in candidates;
      assert candidates[..i + 1] == candidates[..i] + [c];
      assert Places(candidates[..i + 1]) == Places(candidates[..i]) + [PlaceOf(c)];
      if c.node == "" || c.decision !in {"eligible", "eliminated_before_preference_scoring"}
         || (c.eligible && c.score.None?) || (!c.eligible && c.score.Some?)
      {
        return false;
      }
      var key, seen := BindTarget(c, seenTargets);
      if key.None? {
        RepeatedPlace(candidates, nodes, i);
        return false;
      }
      if !c.evidenced {
        return false;
      }
      assert PlaceOf(c) !in Places(candidates[..i]);
      DistinctSnoc(Places(candidates[..i]), PlaceOf(c));
      seenTargets := seen;
      TargetsGrow(candidates[..i], c);
      var before := if c.node in targetsByNode then targetsByNode[c.node] else {};
      assert c.node !in targetsByNode ==> TargetsAt(candidates[..i], c.node) == {};
      targetsByNode := targetsByNode[c.node := before + {key.value}];
    }
    assert candidates[..|candidates|] == candidates;
    if |nodes| < 2 {
      return false;
    }
    accepted := MatrixCovered(candidates, nodes, targetsByNode);
  }

  lemma TargetsGrow(candidates: seq<Candidate>, c: Candidate)
    requires c.target.Some?
    ensures forall n :: TargetsAt(candidates + [c], n) == TargetsAt(candidates, n) + if n == c.node then {c.target.value} else {}
  {
    assert forall x :: x in candidates + [c] <==> x in candidates || x == c;
  }

  lemma RepeatedPlace(candidates: seq<Candidate>, nodes: seq<Option<string>>, i: nat)
    requires i < |candidates|
    requires TargetBound(candidates[i]) ==> PlaceOf(candidates[i]) in Places(candidates[..i])
    ensures forall targets :: !FillsGrid(candidates, nodes, targets)
  {
    assert candidates[i] in candidates;
    if TargetBound(candidates[i]) {
      var j :| 0 <= j < i && Places(candidates[..i])[j] == PlaceOf(candidates[i]);
      assert Places(candidates)[j] == Places(candidates)[i];
    }
  }

  /** `validate_adaptive_target_matrix`. */
  method MatrixCovered(candidates: seq<Candidate>, nodes: seq<Option<string>>, targetsByNode: map<string, set<string>>)
    returns (accepted: bool)
    requires forall c :: c in candidates ==> WellFormed(c) && TargetBound(c)
    requires Distinct(Places(candidates))
    requires targetsByNode.Keys == set c | c in candidates :: c.node
    requires forall n :: n in targetsByNode ==> targetsByNode[n] == TargetsAt(candidates, n)
    ensures accepted <==> exists targets :: FillsGrid(candidates, nodes, targets)
  {
    var ids := NodeIds(nodes);
    forall targets | FillsGrid(candidates, nodes, targets)
      ensures ids == targetsByNode.Keys && forall n :: n in ids ==> targetsByNode[n] == targets
    {
      GridRows(candidates, nodes, targets);
    }
    if ids == {} || ids != targetsByNode.Keys {
      return false;
    }
    var first :| first in ids;
    var inventory := targetsByNode[first];
    accepted := inventory != {} && forall n :: n in ids ==> targetsByNode[n] == inventory;
    if accepted {
      RowsFillGrid(candidates, nodes, inventory);
    }
  }

  lemma GridRows(candidates: seq<Candidate>, nodes: seq<Option<string>>, targets: set<string>)
    requires FillsGrid(candidates, nodes, targets)
    ensures NodeIds(nodes) == set c | c in candidates :: c.node
    ensures forall n :: n in NodeIds(nodes) ==> TargetsAt(candidates, n) == targets
  {
    PlaceMembers(candidates);
    var ids, places := NodeIds(nodes), Places(candidates);
    var t0 :| t0 in targets;
    forall n | n in ids ensures exists c :: c in candidates && c.node == n {
      assert Place(n, t0) in Grid(ids, targets);
      assert Place(n, t0) in places;
    }
    forall c | c in candidates ensures c.node in ids && c.target.value in targets {
      assert PlaceOf(c) in places;
      assert PlaceOf(c) in Grid(ids, targets);
    }
    forall n, t | n in ids && t in targets ensures t in TargetsAt(candidates, n) {
      assert Place(n, t) in Grid(ids, targets);
      assert Place(n, t) in places;
      var c :| c in candidates && PlaceOf(c) == Place(n, t);
    }
  }

  lemma RowsFillGrid(candidates: seq<Candidate>, nodes: seq<Option<string>>, targets: set<string>)
    requires forall c :: c in candidates ==> WellFormed(c) && TargetBound(c)
    requires Distinct(Places(candidates)) && targets != {}
    requires NodeIds(nodes) != {} && NodeIds(nodes) == set c | c in candidates :: c.node
    requires forall n :: n in NodeIds(nodes) ==> TargetsAt(candidates, n) == targets
    ensures FillsGrid(candidates, nodes, targets)
  {
    PlaceMembers(candidates);
    var ids, places := NodeIds(nodes), Places(candidates);
    forall p ensures p in places <==> p in Grid(ids, targets) {
      if p in places {
        var c :| c in candidates && PlaceOf(c) == p;
        assert c.node in ids && c.target.value in TargetsAt(candidates, c.node);
      }
      if p in Grid(ids, targets) {
        assert p.target in TargetsAt(candidates, p.node);
        var c :| c in candidates && c.node == p.node && c.target == Some(p.target);
        assert PlaceOf(c) == p;
      }
    }
  }

  lemma PlaceMembers(candidates: seq<Candidate>)
    ensures forall p :: p in Places(candidates) <==> exists c :: c in candidates && PlaceOf(c) == p
  {
    forall p | p in Places(candidates) ensures exists c :: c in candidates && PlaceOf(c) == p {
      var i :| 0 <= i < |candidates| && Places(candidates)[i] == p;
      assert candidates[i] in candidates;
    }
    forall c | c in candidates ensures PlaceOf(c) in Places(candidates) {
      var i :| 0 <= i < |candidates| && candidates[i] == c;
      assert Places(candidates)[i] == PlaceOf(c);
    }
  }

  lemma {:induction false} GridSize(ids: set<string>, targets: set<string>)
    ensures |Grid(ids, targets)| == |ids| * |targets|
    decreases ids
  {
    if ids == {} {
      assert Grid(ids, targets) == {};
    } else {
      var n :| n in ids;
      var rest := ids - {n};
      GridSize(rest, targets);
      RowSize(n, targets);
      GridSplit(ids, n, targets);
      hide Grid;
      assert |ids| == |rest| + 1;
      assert |Grid(ids, targets)| == |rest| * |targets| + |targets|;
    }
  }

  lemma GridSplit(ids: set<string>, n: string, targets: set<string>)
    requires n in ids
    ensures |Grid(ids, targets)| == |Grid(ids - {n}, targets)| + |Grid({n}, targets)|
  {
    var rest, row := Grid(ids - {n}, targets), Grid({n}, targets);
    assert Grid(ids, targets) == rest + row;
    assert rest !! row;
  }

  lemma {:induction false} RowSize(n: string, targets: set<string>)
    ensures |Grid({n}, targets)| == |targets|
    decreases targets
  {
    if targets == {} {
      assert Grid({n}, targets) == {};
    } else {
      var t :| t in targets;
      RowSize(n, targets - {t});
      assert Grid({n}, targets) == Grid({n}, targets - {t}) + {Place(n, t)};
    }
  }

  /** Accepted candidates are counted by nodes times targets, and every cell has exactly one. */
  lemma AcceptedCandidatesAreTheGrid(candidates: seq<Candidate>, nodes: seq<Option<string>>, targets: set<string>)
    requires FillsGrid(candidates, nodes, targets)
    ensures |candidates| == |NodeIds(nodes)| * |targets|
    ensures forall n, t :: n in NodeIds(nodes) && t in targets ==>
              exists i :: 0 <= i < |candidates| && PlaceOf(candidates[i]) == Place(n, t)
                          && forall j :: 0 <= j < |candidates| && PlaceOf(candidates[j]) == Place(n, t) ==> j == i
  {
    var places := Places(candidates);
    DistinctSize(places);
    GridSize(NodeIds(nodes), targets);
    forall n, t | n in NodeIds(nodes) && t in targets
      ensures exists i :: 0 <= i < |candidates| && PlaceOf(candidates[i]) == Place(n, t)
                          && forall j :: 0 <= j < |candidates| && PlaceOf(candidates[j]) == Place(n, t) ==> j == i
    {
      assert Place(n, t) in Grid(NodeIds(nodes), targets);
      assert Place(n, t) in places;
      var i :| 0 <= i < |places| && places[i] == Place(n, t);
      assert PlaceOf(candidates[i]) == Place(n, t);
      forall j | 0 <= j < |candidates| && PlaceOf(candidates[j]) == Place(n, t) ensures j == i {
        assert places[j] == places[i];
      }
    }
  }

  // ---------------------------------------------------------------- selection

  /** What is recorded for a node: nothing, a candidate id, or some other value. */
  datatype Choice = Nothing | Id(id: string) | NotAnId

  datatype Selected = Scalar(choice: Choice) | ByNode(choices: map<string, Choice>)

  datatype Evaluation = Evaluation(
    candidates: seq<Candidate>,
    nodes: seq<Option<string>>,
    selected: Selected,
    graphValid: bool,
    graphFailures: bool)

  datatype Identity = Identity(node: string, id: string)

  function IdentityOf(c: Candidate): Identity {
    Identity(c.node, c.id)
  }

  predicate ValidNodes(nodes: seq<Option<string>>) {
    forall n :: n in nodes ==> n.Some? && n.value != ""
  }

  /** The choices by node, for a recorded selection that has the right shape. */
  function Choices(e: Evaluation): Option<map<string, Choice>> {
    match e.selected
    case ByNode(choices) => if choices.Keys == NodeIds(e.nodes) then Some(choices) else None
    case Scalar(choice) =>
      if |e.nodes| == 1 && ValidNodes(e.nodes) then Some(map[e.nodes[0].value := choice]) else None
  }

  /** The choice for a node names a candidate of that node, eligible if the graph is valid. */
  ghost predicate Chosen(e: Evaluation, node: string, choice: Choice) {
    match choice
    case Nothing => !e.graphValid
    case NotAnId => false
    case Id(id) => exists c :: c in e.candidates && c.node == node && c.id == id && (e.graphValid ==> c.eligible)
  }

  ghost predicate SelectionValid(e: Evaluation) {
    && ValidNodes(e.nodes) && Distinct(e.nodes)
    && Distinct(MapSeq(IdentityOf, e.candidates))
    && Choices(e).Some?
    && !(e.graphValid && e.graphFailures)
    && forall n :: n in NodeIds(e.nodes) ==> Chosen(e, n, Choices(e).value[n])
  }

  /** The dictionary of candidates by identity; `None` when an identity repeats. */
  method ByIdentity(candidates: seq<Candidate>) returns (table: Option<map<Identity, Candidate>>)
    ensures table.Some? <==> Distinct(MapSeq(IdentityOf, candidates))
    ensures table.Some? ==> table.value.Keys == set c | c in candidates :: IdentityOf(c)
    ensures table.Some? ==> forall c :: c in candidates ==> table.value[IdentityOf(c)] == c
  {
    var entries: map<Identity, Candidate> := map[];
    for i := 0 to |candidates|
      invariant Distinct(MapSeq(IdentityOf, candidates[..i]))
      invariant entries.Keys == set c | c in candidates[..i] :: IdentityOf(c)
      invariant forall c :: c in candidates[..i] ==> entries[IdentityOf(c)] == c
    {
      hide Distinct;
      var c := candidates[i];
      assert candidates[..i + 1] == candidates[..i] + [c];
      if IdentityOf(c) in entries {
        RepeatedIdentity(candidates, i);
        return None;
      }
      IdentitiesGrow(candidates[..i], c);
      entries := entries[IdentityOf(c) := c];
    }
    assert candidates[..|candidates|] == candidates;
    return Some(entries);
  }

  lemma RepeatedIdentity(candidates: seq<Candidate>, i: nat)
    requires i < |candidates| && exists d :: d in candidates[..i] && IdentityOf(d) == IdentityOf(candidates[i])
    ensures !Distinct(MapSeq(IdentityOf, candidates))
  {
    var identities := MapSeq(IdentityOf, candidates);
    var j :| 0 <= j < i && IdentityOf(candidates[..i][j]) == IdentityOf(candidates[i]);
    assert identities[j] == identities[i];
  }

  lemma IdentitiesGrow(candidates: seq<Candidate>, c: Candidate)
    requires Distinct(MapSeq(IdentityOf, candidates))
    requires forall d :: d in candidates ==> IdentityOf(d) != IdentityOf(c)
    ensures Distinct(MapSeq(IdentityOf, candidates + [c]))
    ensures forall d :: d in candidates + [c] <==> d in candidates || d == c
  {
    var before, after := MapSeq(IdentityOf, candidates), MapSeq(IdentityOf, candidates + [c]);
    assert after == before + [IdentityOf(c)];
    forall j | 0 <= j < |candidates| ensures before[j] != IdentityOf(c) {
      assert candidates[j] in candidates;
    }
  }

  method ValidateSelection(e: Evaluation) returns (accepted: bool)
    ensures accepted <==> SelectionValid(e)
  {
    var distinct := AllDistinct(e.nodes);
    if !ValidNodes(e.nodes) || !distinct {
      return false;
    }
    var table := ByIdentity(e.candidates);
    var choices := Choices(e);
    if table.None? || choices.None? || (e.graphValid && e.graphFailures) {
      return false;
    }
    for i := 0 to |e.nodes|
      invariant forall k :: 0 <= k < i ==> Chosen(e, e.nodes[k].value, choices.value[e.nodes[k].value])
    {
      assert e.nodes[i] in e.nodes;
      var node := e.nodes[i].value;
      assert node in NodeIds(e.nodes);
      match choices.value[node]
      case Nothing =>
        if e.graphValid {
          return false;
        }
      case NotAnId =>
        return false;
      case Id(id) =>
        if Identity(node, id) !in table.value.Keys {
          return false;
        }
        var c := table.value[Identity(node, id)];
        var d :| d in e.candidates && IdentityOf(d) == Identity(node, id);
        assert c == d;
        if e.graphValid && !c.eligible {
          return false;
        }
    }
    return true;
  }

  /** A valid selection on a valid graph is a total map from the nodes to eligible candidates of those nodes. */
  lemma ValidGraphSelectsEveryNode(e: Evaluation, node: string)
    requires SelectionValid(e) && e.graphValid && node in NodeIds(e.nodes)
    ensures Choices(e).value[node].Id?
    ensures exists i :: 0 <= i < |e.candidates|
              && e.candidates[i].node == node && e.candidates[i].id == Choices(e).value[node].id && e.candidates[i].eligible
              && (forall j :: (0 <= j < |e.candidates| && e.candidates[j].node == node
                               && e.candidates[j].id == Choices(e).value[node].id) ==> j == i)
  {
    var choice := Choices(e).value[node];
    assert Chosen(e, node, choice);
    var c :| c in e.candidates && c.node == node && c.id == choice.id && c.eligible;
    var i :| 0 <= i < |e.candidates| && e.candidates[i] == c;
    var identities := MapSeq(IdentityOf, e.candidates);
    forall j | 0 <= j < |e.candidates| && e.candidates[j].node == node && e.candidates[j].id == choice.id ensures j == i {
      assert identities[j] == identities[i];
    }
  }

  /** For a single node, the bare choice and the one-entry dictionary get the same verdict. */
  lemma ScalarMeansSingleton(e: Evaluation, node: string, choice: Choice)
    requires e.nodes == [Some(node)]
    ensures SelectionValid(e.(selected := Scalar(choice))) <==> SelectionValid(e.(selected := ByNode(map[node := choice])))
  {
    var scalar, dict := e.(selected := Scalar(choice)), e.(selected := ByNode(map[node := choice]));
    if node != "" {
      assert NodeIds(e.nodes) == {node};
      assert Choices(scalar) == Choices(dict) == Some(map[node := choice]);
      assert Chosen(scalar, node, choice) <==> Chosen(dict, node, choice);
    } else {
      assert Some(node) in e.nodes;
    }
  }

  /** All three checks together: every node's choice is one of the grid's cells in that node's row. */
  lemma SelectionStaysOnTheGrid(e: Evaluation, targets: set<string>, node: string)
    requires FillsGrid(e.candidates, e.nodes, targets) && SelectionValid(e) && e.graphValid && node in NodeIds(e.nodes)
    ensures exists c :: c in e.candidates && c.node == node && c.id == Choices(e).value[node].id
                        && c.eligible && c.score.Some? && PlaceOf(c) in Grid(NodeIds(e.nodes), targets)
  {
    ValidGraphSelectsEveryNode(e, node);
    var i :| 0 <= i < |e.candidates|
             && e.candidates[i].node == node && e.candidates[i].id == Choices(e).value[node].id && e.candidates[i].eligible;
    var c := e.candidates[i];
    assert c in e.candidates;
    assert Places(e.candidates)[i] == PlaceOf(c);
    assert PlaceOf(c) in Places(e.candidates);
    assert PlaceOf(c) in Grid(NodeIds(e.nodes), targets);
  }

  /** `main` demands two nodes, so it only lets dictionaries through, over as many candidates as nodes times targets. */
  lemma SeveralNodesNeedADictionary(e: Evaluation, targets: set<string>)
    requires |e.nodes| >= 2 && FillsGrid(e.candidates, e.nodes, targets) && SelectionValid(e)
    ensures e.selected.ByNode? && e.selected.choices.Keys == NodeIds(e.nodes) && |NodeIds(e.nodes)| == |e.nodes|
    ensures |e.candidates| == |e.nodes| * |targets| && |e.candidates| >= 2
  {
    NodeCount(e.nodes);
    AcceptedCandidatesAreTheGrid(e.candidates, e.nodes, targets);
    assert |targets| > 0;
  }

  lemma NodeCount(nodes: seq<Option<string>>)
    requires ValidNodes(nodes) && Distinct(nodes)
    ensures |NodeIds(nodes)| == |nodes|
  {
    var ids := MapSeq((n: Option<string>) => n.GetOr(""), nodes);
    forall i, j | 0 <= i < j < |ids| ensures ids[i] != ids[j] {
      assert nodes[i] in nodes && nodes[j] in nodes;
    }
    DistinctSize(ids);
    forall id ensures id in ids <==> id in NodeIds(nodes) {
      if id in ids {
        var i :| 0 <= i < |ids| && ids[i] == id;
        assert nodes[i] in nodes;
      }
      if id in NodeIds(nodes) {
        var i :| 0 <= i < |nodes| && nodes[i] == Some(id);
        assert ids[i] == id;
      }
    }
    assert NodeIds(nodes) == set id | id in ids;
  }
}
