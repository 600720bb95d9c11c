/**
 What the schema walk emits, without reference to how it walks: derivations through the
 reference graph, the effect of `seen`, and plain unfolding on acyclic graphs.
 */
module SchemaDerivations {
  import opened PyText
  import opened Json
  import opened Sorting
  import opened SchemaFields

  /** One move of a derivation: follow the reference at hand, or enter one nested schema. */
  datatype Step = Follow | Enter(index: nat)

  /** Where a derivation ends, the segments it passed and the components it followed. */
  datatype Arrival = Arrival(schema: Json, segments: seq<Segment>, followed: seq<string>)

  /** Plain navigation, with no memory of what was followed before. */
  function Reach(schema: Json, components: seq<Member>, steps: seq<Step>): Option<Arrival>
    decreases |steps|
  {
    if steps == [] then Some(Arrival(schema, [], []))
    else
      match (steps[0], FollowedRef(schema))
      case (Follow, Some(name)) =>
        (match Reach(Component(components, name), components, steps[1..])
         case None => None
         case Some(a) => Some(Arrival(a.schema, a.segments, [name] + a.followed)))
      case (Enter(index), None) =>
        if index < |Actions(schema)| && Actions(schema)[index].Descend? then
          var action := Actions(schema)[index];
          match Reach(action.schema, components, steps[1..])
          case None => None
          case Some(a) => Some(Arrival(a.schema, [action.segment] + a.segments, a.followed))
        else None
      case _ => None
  }

  /** A derivation of an item: a navigation that follows each component at most once and none of `seen`. */
  ghost predicate DerivedBy(schema: Json, components: seq<Member>, prefix: string, seen: set<string>,
                            steps: seq<Step>, index: nat, item: Item)
  {
    match Reach(schema, components, steps)
    case None => false
    case Some(a) =>
      && Distinct(a.followed) && (forall n :: n in a.followed ==> n !in seen)
      && FollowedRef(a.schema).None? && index < |Actions(a.schema)|
      && item in Own(Actions(a.schema)[index], Prefix(prefix, a.segments))
  }

  ghost predicate Derived(schema: Json, components: seq<Member>, prefix: string, seen: set<string>, item: Item) {
    exists steps, index :: DerivedBy(schema, components, prefix, seen, steps, index, item)
  }

  /** What one action contributes to the walk of its schema. */
  function Part(action: Action, components: seq<Member>, prefix: string, seen: set<string>): seq<Item> {
    if action.Descend? then Walk(action.schema, components, ChildPrefix(prefix, action.segment), seen)
    else Own(action, prefix)
  }

  lemma {:induction false} WalkAllMembers(actions: seq<Action>, bound: nat, components: seq<Member>,
                                          prefix: string, seen: set<string>, item: Item)
    requires Below(actions, bound)
    ensures item in WalkAll(actions, bound, components, prefix, seen) <==>
              exists k :: 0 <= k < |actions| && item in Part(actions[k], components, prefix, seen)
  {
    hide Walk, Own;
    if actions != [] {
      assert actions[0] in actions && actions == [actions[0]] + actions[1..];
      BelowSplit([actions[0]], actions[1..], bound);
      WalkAllMembers(actions[1..], bound, components, prefix, seen, item);
      assert WalkOne(actions[0], bound, components, prefix, seen) == Part(actions[0], components, prefix, seen);
      if item in WalkAll(actions[1..], bound, components, prefix, seen) {
        var k :| 0 <= k < |actions[1..]| && item in Part(actions[1..][k], components, prefix, seen);
        assert item in Part(actions[k + 1], components, prefix, seen);
      }
      if k :| 0 <= k < |actions| && item in Part(actions[k], components, prefix, seen) {
        if k > 0 {
          assert item in Part(actions[1..][k - 1], components, prefix, seen);
        }
      }
    }
  }

  lemma WalkMembers(schema: Json, components: seq<Member>, prefix: string, seen: set<string>, item: Item)
    requires FollowedRef(schema).None?
    ensures item in Walk(schema, components, prefix, seen) <==>
              exists k :: 0 <= k < |Actions(schema)| && item in Part(Actions(schema)[k], components, prefix, seen)
  {
    hide Actions, Part, WalkAll;
    ActionsBelow(schema);
    WalkAllMembers(Actions(schema), Size(schema), components, prefix, seen, item);
  }

  /** Every item of the walk has a derivation. */
  lemma {:induction false} WalkIsDerived(schema: Json, components: seq<Member>, prefix: string, seen: set<string>, item: Item)
    returns (steps: seq<Step>, index: nat)
    requires item in Walk(schema, components, prefix, seen)
    ensures DerivedBy(schema, components, prefix, seen, steps, index, item)
    decreases |Names(components) - seen|, Size(schema)
  {
    hide Actions, WalkAll;
    match FollowedRef(schema)
    case Some(name) =>
      RefShrinks(schema, components, seen, name);
      var rest, k := WalkIsDerived(Component(components, name), components, prefix, seen + {name}, item);
      FollowFirst(schema, components, prefix, seen, name, rest, k, item);
      return [Follow] + rest, k;
    case None =>
      WalkMembers(schema, components, prefix, seen, item);
      var k :| 0 <= k < |Actions(schema)| && item in Part(Actions(schema)[k], components, prefix, seen);
      var action := Actions(schema)[k];
      if action.Descend? {
        ActionsBelow(schema);
        assert action in Actions(schema);
        var rest, i := WalkIsDerived(action.schema, components, ChildPrefix(prefix, action.segment), seen, item);
        EnterFirst(schema, components, prefix, seen, k, rest, i, item);
        return [Enter(k)] + rest, i;
      } else {
        return [], k;
      }
  }

  lemma DistinctCons<T>(x: T, s: seq<T>)
    ensures Distinct([x] + s) <==> Distinct(s) && x !in s
  {
    var t := [x] + s;
    assert forall k :: 1 <= k < |t| ==> t[k] == s[k - 1];
    if Distinct(t) {
      forall i, j | 0 <= i < j < |s| ensures s[i] != s[j] {
        assert t[i + 1] != t[j + 1];
      }
      forall i | 0 <= i < |s| ensures s[i] != x {
        assert t[0] != t[i + 1];
      }
    }
  }

  lemma FollowFirst(schema: Json, components: seq<Member>, prefix: string, seen: set<string>, name: string,
                    rest: seq<Step>, index: nat, item: Item)
    requires FollowedRef(schema) == Some(name)
    ensures DerivedBy(schema, components, prefix, seen, [Follow] + rest, index, item) <==>
              name !in seen && DerivedBy(Component(components, name), components, prefix, seen + {name}, rest, index, item)
  {
    hide Actions, Own, Component;
    var steps := [Follow] + rest;
    assert steps[0] == Follow && steps[1..] == rest;
    match Reach(Component(components, name), components, rest)
    case None =>
    case Some(a) =>
      var followed := [name] + a.followed;
      assert Reach(schema, components, steps) == Some(Arrival(a.schema, a.segments, followed));
      DistinctCons(name, a.followed);
      assert forall n :: n in followed <==> n == name || n in a.followed;
  }

  lemma EnterFirst(schema: Json, components: seq<Member>, prefix: string, seen: set<string>, k: nat,
                   rest: seq<Step>, index: nat, item: Item)
    requires FollowedRef(schema).None? && k < |Actions(schema)| && Actions(schema)[k].Descend?
    ensures var action := Actions(schema)[k];
            DerivedBy(schema, components, prefix, seen, [Enter(k)] + rest, index, item) <==>
              DerivedBy(action.schema, components, ChildPrefix(prefix, action.segment), seen, rest, index, item)
  {
    hide Actions, Own;
    var steps := [Enter(k)] + rest;
    var action := Actions(schema)[k];
    assert steps[0] == Enter(k) && steps[1..] == rest;
    match Reach(action.schema, components, rest)
    case None =>
    case Some(a) =>
      var segments := [action.segment] + a.segments;
      assert Reach(schema, components, steps) == Some(Arrival(a.schema, segments, a.followed));
      assert segments[1..] == a.segments;
      assert Prefix(prefix, segments) == Prefix(ChildPrefix(prefix, action.segment), a.segments);
  }

  /** Every derivation's item is in the walk. */
  lemma {:induction false} DerivedIsWalked(schema: Json, components: seq<Member>, prefix: string, seen: set<string>,
                                           steps: seq<Step>, index: nat, item: Item)
    requires DerivedBy(schema, components, prefix, seen, steps, index, item)
    ensures item in Walk(schema, components, prefix, seen)
    decreases |steps|
  {
    hide Actions, WalkAll;
    if steps == [] {
      WalkMembers(schema, components, prefix, seen, item);
      assert item in Part(Actions(schema)[index], components, prefix, seen);
    } else {
      var rest := steps[1..];
      assert steps == [steps[0]] + rest;
      match (steps[0], FollowedRef(schema))
      case (Follow, Some(name)) =>
        FollowFirst(schema, components, prefix, seen, name, rest, index, item);
        DerivedIsWalked(Component(components, name), components, prefix, seen + {name}, rest, index, item);
      case (Enter(k), None) =>
        var action := Actions(schema)[k];
        EnterFirst(schema, components, prefix, seen, k, rest, index, item);
        DerivedIsWalked(action.schema, components, ChildPrefix(prefix, action.segment), seen, rest, index, item);
        WalkMembers(schema, components, prefix, seen, item);
        assert item in Part(action, components, prefix, seen);
    }
  }

  /** A field is emitted exactly when a derivation reaches it that follows no component twice. */
  lemma EmittedExactlyWhenDerived(schema: Json, components: seq<Member>, prefix: string, seen: set<string>, item: Item)
    ensures item in Walk(schema, components, prefix, seen) <==> Derived(schema, components, prefix, seen, item)
  {
    if item in Walk(schema, components, prefix, seen) {
      var steps, index := WalkIsDerived(schema, components, prefix, seen, item);
    }
    if Derived(schema, components, prefix, seen, item) {
      var steps, index :| DerivedBy(schema, components, prefix, seen, steps, index, item);
      DerivedIsWalked(schema, components, prefix, seen, steps, index, item);
    }
  }

  // ---------------------------------------------------------------- every derivation once

  /** A derivation without its item: the steps, and the action at their end. */
  datatype Origin = Origin(steps: seq<Step>, index: nat)

  function Led(step: Step, origins: seq<Origin>): (r: seq<Origin>)
    ensures |r| == |origins| && forall i :: 0 <= i < |r| ==> r[i] == Origin([step] + origins[i].steps, origins[i].index)
  {
    seq(|origins|, i requires 0 <= i < |origins| => Origin([step] + origins[i].steps, origins[i].index))
  }

  /** The derivations of a schema, in the order the walk meets their items. */
  function Origins(schema: Json, components: seq<Member>, seen: set<string>): seq<Origin>
    decreases |Names(components) - seen|, Size(schema), 1, 0
  {
    match FollowedRef(schema)
    case Some(name) =>
      if name in seen then []
      else
        RefShrinks(schema, components, seen, name);
        Led(Follow, Origins(Component(components, name), components, seen + {name}))
    case None =>
      ActionsBelow(schema);
      OriginsFrom(Actions(schema), 0, Size(schema), components, seen)
  }

  function OriginsFrom(actions: seq<Action>, k: nat, bound: nat, components: seq<Member>, seen: set<string>): seq<Origin>
    requires Below(actions, bound) && k <= |actions|
    decreases |Names(components) - seen|, bound, 0, |actions| - k
  {
    if k == |actions| then []
    else
      assert actions[k] in actions;
      (if actions[k].Descend? then Led(Enter(k), Origins(actions[k].schema, components, seen)) else [Origin([], k)])
      + OriginsFrom(actions, k + 1, bound, components, seen)
  }

  /** Origin by origin and item by item, the walk is its derivations. */
  ghost predicate Matched(schema: Json, components: seq<Member>, prefix: string, seen: set<string>, origins: seq<Origin>,
                          items: seq<Item>)
  {
    && |origins| == |items|
    && forall i :: 0 <= i < |items| ==> DerivedBy(schema, components, prefix, seen, origins[i].steps, origins[i].index, items[i])
  }

  lemma MatchedConcat(schema: Json, components: seq<Member>, prefix: string, seen: set<string>, a: seq<Origin>, x: seq<Item>,
                      b: seq<Origin>, y: seq<Item>)
    requires Matched(schema, components, prefix, seen, a, x) && Matched(schema, components, prefix, seen, b, y)
    ensures Matched(schema, components, prefix, seen, a + b, x + y)
  {
    hide DerivedBy;
  }

  lemma {:induction false} OriginsMatch(schema: Json, components: seq<Member>, prefix: string, seen: set<string>)
    ensures Matched(schema, components, prefix, seen, Origins(schema, components, seen), Walk(schema, components, prefix, seen))
    decreases |Names(components) - seen|, Size(schema), 1, 0
  {
    hide Actions, WalkAll, DerivedBy, OriginsFrom;
    match FollowedRef(schema)
    case Some(name) =>
      if name !in seen {
        RefShrinks(schema, components, seen, name);
        var target := Component(components, name);
        OriginsMatch(target, components, prefix, seen + {name});
        var origins, items := Origins(target, components, seen + {name}), Walk(target, components, prefix, seen + {name});
        forall i | 0 <= i < |items|
          ensures DerivedBy(schema, components, prefix, seen, [Follow] + origins[i].steps, origins[i].index, items[i])
        {
          FollowFirst(schema, components, prefix, seen, name, origins[i].steps, origins[i].index, items[i]);
        }
      }
    case None =>
      ActionsBelow(schema);
      OriginsFromMatch(schema, 0, components, prefix, seen);
      assert Actions(schema)[0..] == Actions(schema);
  }

  lemma {:induction false} OriginsFromMatch(schema: Json, k: nat, components: seq<Member>, prefix: string, seen: set<string>)
    requires FollowedRef(schema).None? && k <= |Actions(schema)|
    ensures Below(Actions(schema), Size(schema)) && Below(Actions(schema)[k..], Size(schema))
    ensures Matched(schema, components, prefix, seen, OriginsFrom(Actions(schema), k, Size(schema), components, seen),
                    WalkAll(Actions(schema)[k..], Size(schema), components, prefix, seen))
    decreases |Names(components) - seen|, Size(schema), 0, |Actions(schema)| - k
  {
    hide DerivedBy, Walk, Origins, Own;
    ActionsBelow(schema);
    hide Actions;
    var actions, bound := Actions(schema), Size(schema);
    BelowFrom(actions, k, bound);
    if k < |actions| {
      var action := actions[k];
      assert action in actions;
      OriginsFromMatch(schema, k + 1, components, prefix, seen);
      assert actions[k..][0] == action && actions[k..][1..] == actions[k + 1..];
      var first := if action.Descend? then Led(Enter(k), Origins(action.schema, components, seen)) else [Origin([], k)];
      assert Matched(schema, components, prefix, seen, first, WalkOne(action, bound, components, prefix, seen)) by {
        if action.Descend? {
          OriginsMatch(action.schema, components, ChildPrefix(prefix, action.segment), seen);
          EnterMatch(schema, k, components, prefix, seen);
        } else {
          OwnMatch(schema, k, components, prefix, seen);
        }
      }
      MatchedConcat(schema, components, prefix, seen, first, WalkOne(action, bound, components, prefix, seen),
                    OriginsFrom(actions, k + 1, bound, components, seen),
                    WalkAll(actions[k + 1..], bound, components, prefix, seen));
    }
  }

  lemma BelowFrom(actions: seq<Action>, k: nat, bound: nat)
    requires Below(actions, bound) && k <= |actions|
    ensures Below(actions[k..], bound)
  {
  }

  lemma EnterMatch(schema: Json, k: nat, components: seq<Member>, prefix: string, seen: set<string>)
    requires FollowedRef(schema).None? && k < |Actions(schema)| && Actions(schema)[k].Descend?
    requires var action, child := Actions(schema)[k], ChildPrefix(prefix, Actions(schema)[k].segment);
             Matched(action.schema, components, child, seen, Origins(action.schema, components, seen),
                     Walk(action.schema, components, child, seen))
    ensures var action, child := Actions(schema)[k], ChildPrefix(prefix, Actions(schema)[k].segment);
            Matched(schema, components, prefix, seen, Led(Enter(k), Origins(action.schema, components, seen)),
                    Walk(action.schema, components, child, seen))
  {
    hide DerivedBy, Walk, Origins, Actions;
    var action, child := Actions(schema)[k], ChildPrefix(prefix, Actions(schema)[k].segment);
    var origins, items := Origins(action.schema, components, seen), Walk(action.schema, components, child, seen);
    forall i | 0 <= i < |items|
      ensures DerivedBy(schema, components, prefix, seen, [Enter(k)] + origins[i].steps, origins[i].index, items[i])
    {
      EnterFirst(schema, components, prefix, seen, k, origins[i].steps, origins[i].index, items[i]);
    }
  }

  lemma OwnMatch(schema: Json, k: nat, components: seq<Member>, prefix: string, seen: set<string>)
    requires FollowedRef(schema).None? && k < |Actions(schema)| && !Actions(schema)[k].Descend?
    ensures Matched(schema, components, prefix, seen, [Origin([], k)], Own(Actions(schema)[k], prefix))
  {
    hide Actions;
    assert Reach(schema, components, []) == Some(Arrival(schema, [], []));
  }

  /** The numbers of a derivation's steps and of its action. */
  function Key(origin: Origin): seq<nat> {
    seq(|origin.steps|, i requires 0 <= i < |origin.steps| => StepNumber(origin.steps[i])) + [origin.index]
  }

  function StepNumber(step: Step): nat {
    match step case Follow => 0 case Enter(index) => index
  }

  predicate LexLess(a: seq<nat>, b: seq<nat>) {
    a != [] && b != [] && (a[0] < b[0] || (a[0] == b[0] && LexLess(a[1..], b[1..])))
  }

  lemma {:induction false} LexIrreflexive(a: seq<nat>)
    ensures !LexLess(a, a)
  {
    if a != [] {
      LexIrreflexive(a[1..]);
    }
  }

  ghost predicate Ascending(origins: seq<Origin>) {
    forall i, j :: 0 <= i < j < |origins| ==> LexLess(Key(origins[i]), Key(origins[j]))
  }

  lemma LedKey(step: Step, o: Origin)
    ensures Key(Origin([step] + o.steps, o.index)) == [StepNumber(step)] + Key(o)
  {
  }

  lemma LedAscends(step: Step, origins: seq<Origin>)
    requires Ascending(origins)
    ensures Ascending(Led(step, origins))
    ensures forall o :: o in Led(step, origins) ==> Key(o) != [] && Key(o)[0] == StepNumber(step)
  {
    hide Key, StepNumber;
    var led := Led(step, origins);
    forall i | 0 <= i < |led| ensures Key(led[i]) == [StepNumber(step)] + Key(origins[i]) {
      LedKey(step, origins[i]);
    }
    forall i, j | 0 <= i < j < |led| ensures LexLess(Key(led[i]), Key(led[j])) {
      assert Key(led[i])[1..] == Key(origins[i]) && Key(led[j])[1..] == Key(origins[j]);
    }
  }

  lemma {:induction false} OriginsAscend(schema: Json, components: seq<Member>, seen: set<string>)
    ensures Ascending(Origins(schema, components, seen))
    decreases |Names(components) - seen|, Size(schema), 1, 0
  {
    hide Ascending, Actions, OriginsFrom;
    match FollowedRef(schema)
    case Some(name) =>
      if name in seen {
        NoneAscend();
      } else {
        RefShrinks(schema, components, seen, name);
        OriginsAscend(Component(components, name), components, seen + {name});
        LedAscends(Follow, Origins(Component(components, name), components, seen + {name}));
      }
    case None =>
      ActionsBelow(schema);
      OriginsFromAscend(schema, 0, components, seen);
  }

  lemma NoneAscend()
    ensures Ascending([])
  {
  }

  lemma {:induction false} OriginsFromAscend(schema: Json, k: nat, components: seq<Member>, seen: set<string>)
    requires k <= |Actions(schema)|
    ensures Below(Actions(schema), Size(schema))
    ensures var origins := OriginsFrom(Actions(schema), k, Size(schema), components, seen);
            Ascending(origins) && forall o :: o in origins ==> Key(o) != [] && Key(o)[0] >= k
    decreases |Names(components) - seen|, Size(schema), 0, |Actions(schema)| - k
  {
    hide Ascending, Origins, Key, LexLess;
    ActionsBelow(schema);
    hide Actions;
    var actions, bound := Actions(schema), Size(schema);
    if k == |actions| {
      NoneAscend();
    } else {
      var action := actions[k];
      assert action in actions;
      OriginsFromAscend(schema, k + 1, components, seen);
      var rest := OriginsFrom(actions, k + 1, bound, components, seen);
      var first := if action.Descend? then Led(Enter(k), Origins(action.schema, components, seen)) else [Origin([], k)];
      if action.Descend? {
        OriginsAscend(action.schema, components, seen);
        LedAscends(Enter(k), Origins(action.schema, components, seen));
      } else {
        OneAscends(k);
      }
      AscendingConcat(first, rest, k);
    }
  }

  lemma OneAscends(k: nat)
    ensures Ascending([Origin([], k)]) && Key(Origin([], k)) == [k]
  {
  }

  lemma AscendingConcat(a: seq<Origin>, b: seq<Origin>, k: nat)
    requires Ascending(a) && Ascending(b)
    requires (forall o :: o in a ==> Key(o) != [] && Key(o)[0] == k) && forall o :: o in b ==> Key(o) != [] && Key(o)[0] >= k + 1
    ensures Ascending(a + b) && forall o :: o in a + b ==> Key(o) != [] && Key(o)[0] >= k
  {
    hide Key;
    var c := a + b;
    forall i, j | 0 <= i < j < |c| ensures LexLess(Key(c[i]), Key(c[j])) {
      if i < |a| <= j {
        assert a[i] in a && b[j - |a|] in b && c[i] == a[i] && c[j] == b[j - |a|];
      } else if j < |a| {
        assert c[i] == a[i] && c[j] == a[j];
      } else {
        assert c[i] == b[i - |a|] && c[j] == b[j - |a|];
      }
    }
  }

  /** Every derivation is listed. */
  lemma {:induction false} DerivationIsListed(schema: Json, components: seq<Member>, prefix: string, seen: set<string>,
                                              steps: seq<Step>, index: nat, item: Item)
    requires DerivedBy(schema, components, prefix, seen, steps, index, item)
    ensures Origin(steps, index) in Origins(schema, components, seen)
    decreases |steps|
  {
    hide Actions, OriginsFrom;
    if steps == [] {
      ListedAt(schema, index, components, seen, Origin([], index));
    } else {
      var rest := steps[1..];
      assert steps == [steps[0]] + rest;
      match (steps[0], FollowedRef(schema))
      case (Follow, Some(name)) =>
        FollowFirst(schema, components, prefix, seen, name, rest, index, item);
        DerivationIsListed(Component(components, name), components, prefix, seen + {name}, rest, index, item);
        LedHas(Follow, Origins(Component(components, name), components, seen + {name}), rest, index);
      case (Enter(k), None) =>
        var action := Actions(schema)[k];
        EnterFirst(schema, components, prefix, seen, k, rest, index, item);
        DerivationIsListed(action.schema, components, ChildPrefix(prefix, action.segment), seen, rest, index, item);
        LedHas(Enter(k), Origins(action.schema, components, seen), rest, index);
        ListedAt(schema, k, components, seen, Origin(steps, index));
    }
  }

  lemma LedHas(step: Step, origins: seq<Origin>, steps: seq<Step>, index: nat)
    requires Origin(steps, index) in origins
    ensures Origin([step] + steps, index) in Led(step, origins)
  {
    var i :| 0 <= i < |origins| && origins[i] == Origin(steps, index);
    assert Led(step, origins)[i] == Origin([step] + steps, index);
  }

  /** What the action at `k` contributes is listed. */
  lemma ListedAt(schema: Json, k: nat, components: seq<Member>, seen: set<string>, o: Origin)
    requires FollowedRef(schema).None? && k < |Actions(schema)|
    requires var action := Actions(schema)[k];
             if action.Descend? then o in Led(Enter(k), Origins(action.schema, components, seen)) else o == Origin([], k)
    ensures o in Origins(schema, components, seen)
  {
    hide Actions;
    ActionsBelow(schema);
    ListedFrom(Actions(schema), k, Size(schema), components, seen, o, 0);
  }

  lemma {:induction false} ListedFrom(actions: seq<Action>, k: nat, bound: nat, components: seq<Member>, seen: set<string>,
                                      o: Origin, from: nat)
    requires Below(actions, bound) && from <= k < |actions|
    requires if actions[k].Descend? then o in Led(Enter(k), Origins(actions[k].schema, components, seen)) else o == Origin([], k)
    ensures o in OriginsFrom(actions, from, bound, components, seen)
    decreases k - from
  {
    hide Origins;
    assert actions[from] in actions;
    if from < k {
      ListedFrom(actions, k, bound, components, seen, o, from + 1);
    }
  }

  /**
   The walk holds exactly one position for each derivation, in the order of their steps: equal items of different
   derivations are emitted once each.
   */
  lemma EachDerivationOnce(schema: Json, components: seq<Member>, prefix: string, seen: set<string>)
    ensures var origins, items := Origins(schema, components, seen), Walk(schema, components, prefix, seen);
            && |origins| == |items| && Ascending(origins) && Distinct(origins)
            && (forall i :: 0 <= i < |items| ==>
                  DerivedBy(schema, components, prefix, seen, origins[i].steps, origins[i].index, items[i]))
            && (forall steps, index, item :: DerivedBy(schema, components, prefix, seen, steps, index, item) ==>
                  Origin(steps, index) in origins)
  {
    hide DerivedBy, Origins, Walk, Key, LexLess;
    OriginsMatch(schema, components, prefix, seen);
    OriginsAscend(schema, components, seen);
    var origins := Origins(schema, components, seen);
    forall i, j | 0 <= i < j < |origins| ensures origins[i] != origins[j] {
      LexIrreflexive(Key(origins[i]));
      assert LexLess(Key(origins[i]), Key(origins[j]));
    }
    forall steps, index, item | DerivedBy(schema, components, prefix, seen, steps, index, item)
      ensures Origin(steps, index) in origins
    {
      DerivationIsListed(schema, components, prefix, seen, steps, index, item);
    }
  }

  // ---------------------------------------------------------------- the effect of `seen`

  /** `a` is `b` with some entries dropped. */
  predicate Subsequence<T(==)>(a: seq<T>, b: seq<T>) {
    a == [] || (b != [] && ((a[0] == b[0] && Subsequence(a[1..], b[1..])) || Subsequence(a, b[1..])))
  }

  lemma {:induction false} SubsequenceSelf<T>(a: seq<T>)
    ensures Subsequence(a, a)
  {
    if a != [] {
      SubsequenceSelf(a[1..]);
    }
  }

  lemma {:induction false} SubsequenceDrop<T>(a: seq<T>, x: seq<T>, b: seq<T>)
    requires Subsequence(a, b)
    ensures Subsequence(a, x + b)
  {
    if x == [] {
      assert x + b == b;
    } else {
      SubsequenceDrop(a, x[1..], b);
      assert (x + b)[1..] == x[1..] + b;
    }
  }

  lemma {:induction false} SubsequenceConcat<T>(a: seq<T>, b: seq<T>, c: seq<T>, d: seq<T>)
    requires Subsequence(a, b) && Subsequence(c, d)
    ensures Subsequence(a + c, b + d)
    decreases |b|
  {
    if a == [] {
      assert a + c == c;
      SubsequenceDrop(c, b, d);
    } else {
      assert (b + d)[1..] == b[1..] + d && (a + c)[1..] == a[1..] + c;
      if a[0] == b[0] && Subsequence(a[1..], b[1..]) {
        SubsequenceConcat(a[1..], b[1..], c, d);
      } else {
        SubsequenceConcat(a, b[1..], c, d);
      }
    }
  }

  /** A larger `seen` only drops fields, and keeps the order of the others. */
  lemma {:induction false} SeenOnlyDrops(schema: Json, components: seq<Member>, prefix: string,
                                         seen: set<string>, more: set<string>)
    requires seen <= more
    ensures Subsequence(Walk(schema, components, prefix, more), Walk(schema, components, prefix, seen))
    decreases |Names(components) - seen|, Size(schema), 1, 0
  {
    hide Subsequence, WalkAll, Actions, FollowedRef;
    match FollowedRef(schema)
    case Some(name) =>
      if name in more {
        NothingDrops(Walk(schema, components, prefix, seen));
      } else {
        RefShrinks(schema, components, seen, name);
        SeenOnlyDrops(Component(components, name), components, prefix, seen + {name}, more + {name});
      }
    case None =>
      ActionsBelow(schema);
      SeenOnlyDropsAll(Actions(schema), Size(schema), components, prefix, seen, more);
  }

  lemma NothingDrops<T>(b: seq<T>)
    ensures Subsequence([], b)
  {
  }

  lemma {:induction false} SeenOnlyDropsAll(actions: seq<Action>, bound: nat, components: seq<Member>, prefix: string,
                                            seen: set<string>, more: set<string>)
    requires seen <= more && Below(actions, bound)
    ensures Subsequence(WalkAll(actions, bound, components, prefix, more), WalkAll(actions, bound, components, prefix, seen))
    decreases |Names(components) - seen|, bound, 0, |actions|
  {
    hide Subsequence, Walk, Own;
    if actions == [] {
      NothingDrops<Item>([]);
    } else {
      assert actions[0] in actions && forall a :: a in actions[1..] ==> a in actions;
      SeenOnlyDropsAll(actions[1..], bound, components, prefix, seen, more);
      var action := actions[0];
      if action.Descend? {
        SeenOnlyDrops(action.schema, components, ChildPrefix(prefix, action.segment), seen, more);
      } else {
        SubsequenceSelf(Own(action, prefix));
      }
      SubsequenceConcat(WalkOne(action, bound, components, prefix, more), WalkOne(action, bound, components, prefix, seen),
                        WalkAll(actions[1..], bound, components, prefix, more),
                        WalkAll(actions[1..], bound, components, prefix, seen));
    }
  }

  // ---------------------------------------------------------------- acyclic graphs

  /** The component references the walk meets inside a schema before following any. */
  function RefsIn(schema: Json): set<string>
    decreases Size(schema), 1, 0
  {
    match FollowedRef(schema)
    case Some(name) => {name}
    case None =>
      ActionsBelow(schema);
      RefsOf(Actions(schema), Size(schema))
  }

  function RefsOf(actions: seq<Action>, bound: nat): set<string>
    requires Below(actions, bound)
    decreases bound, 0, |actions|
  {
    if actions == [] then {}
    else
      assert actions[0] in actions && forall a :: a in actions[1..] ==> a in actions;
      (if actions[0].Descend? then RefsIn(actions[0].schema) else {}) + RefsOf(actions[1..], bound)
  }

  /** An acyclic component graph: every reference inside a component leads to a lower rank. */
  ghost predicate Acyclic(components: seq<Member>, rank: string -> nat) {
    forall n :: Get(components, n).Some? ==> RanksBelow(RefsIn(Component(components, n)), rank, rank(n))
  }

  ghost predicate RanksBelow(refs: set<string>, rank: string -> nat, limit: nat) {
    forall r :: r in refs ==> rank(r) < limit
  }

  /** Plain unfolding: every reference is replaced by its component, with no `seen` at all. */
  function Unfold(schema: Json, components: seq<Member>, prefix: string, rank: string -> nat, ghost limit: nat): seq<Item>
    requires Acyclic(components, rank) && RanksBelow(RefsIn(schema), rank, limit)
    decreases limit, Size(schema), 1, 0
  {
    match FollowedRef(schema)
    case Some(name) =>
      MissingHasNoRefs(components, name);
      Unfold(Component(components, name), components, prefix, rank, rank(name))
    case None =>
      ActionsBelow(schema);
      UnfoldAll(Actions(schema), Size(schema), components, prefix, rank, limit)
  }

  function UnfoldAll(actions: seq<Action>, bound: nat, components: seq<Member>, prefix: string,
                     rank: string -> nat, ghost limit: nat): seq<Item>
    requires Acyclic(components, rank) && Below(actions, bound) && RanksBelow(RefsOf(actions, bound), rank, limit)
    decreases limit, bound, 0, |actions|
  {
    if actions == [] then []
    else
      assert actions[0] in actions && forall a :: a in actions[1..] ==> a in actions;
      (if actions[0].Descend? then
         Unfold(actions[0].schema, components, ChildPrefix(prefix, actions[0].segment), rank, limit)
       else Own(actions[0], prefix))
      + UnfoldAll(actions[1..], bound, components, prefix, rank, limit)
  }

  lemma MissingHasNoRefs(components: seq<Member>, name: string)
    ensures Get(components, name).None? ==> RefsIn(Component(components, name)) == {}
  {
    if Get(components, name).None? {
      var empty := Object([]);
      assert Actions(empty) == [];
    }
  }

  /** On an acyclic graph the `seen` cut never fires: the walk is plain unfolding. */
  lemma {:induction false} AcyclicWalkUnfolds(schema: Json, components: seq<Member>, prefix: string, seen: set<string>,
                                              rank: string -> nat, limit: nat)
    requires Acyclic(components, rank) && RanksBelow(RefsIn(schema), rank, limit)
    requires forall n :: n in seen ==> rank(n) >= limit
    ensures Walk(schema, components, prefix, seen) == Unfold(schema, components, prefix, rank, limit)
    decreases limit, Size(schema), 1, 0
  {
    hide WalkAll, Actions;
    match FollowedRef(schema)
    case Some(name) =>
      assert name in RefsIn(schema);
      MissingHasNoRefs(components, name);
      AcyclicWalkUnfolds(Component(components, name), components, prefix, seen + {name}, rank, rank(name));
    case None =>
      ActionsBelow(schema);
      AcyclicWalkUnfoldsAll(Actions(schema), Size(schema), components, prefix, seen, rank, limit);
  }

  lemma {:induction false} AcyclicWalkUnfoldsAll(actions: seq<Action>, bound: nat, components: seq<Member>, prefix: string,
                                                 seen: set<string>, rank: string -> nat, limit: nat)
    requires Acyclic(components, rank) && Below(actions, bound) && RanksBelow(RefsOf(actions, bound), rank, limit)
    requires forall n :: n in seen ==> rank(n) >= limit
    ensures WalkAll(actions, bound, components, prefix, seen) == UnfoldAll(actions, bound, components, prefix, rank, limit)
    decreases limit, bound, 0, |actions|
  {
    hide Acyclic, Walk, Unfold, RefsIn, Own;
    if actions != [] {
      assert actions[0] in actions && forall a :: a in actions[1..] ==> a in actions;
      AcyclicWalkUnfoldsAll(actions[1..], bound, components, prefix, seen, rank, limit);
      if actions[0].Descend? {
        AcyclicWalkUnfolds(actions[0].schema, components, ChildPrefix(prefix, actions[0].segment), seen, rank, limit);
      }
    }
  }
}
