/**
 The control-coverage inventory's schema walk: from an OpenAPI schema to its flat field list,
 following component references over a graph that may be cyclic, with a path-local `seen` set.

 Where Python raises (a schema that is not an object, an unhashable `required` entry) the walk
 yields a `Fault`; a walk with a fault in it is an exception, any other one is its field list.
 */
module SchemaFields {
  import opened PyText
  import opened Json
  import opened Sorting

  const COMPONENT_PREFIX := "#/components/schemas/"

  datatype Segment = Variant(key: string, index: nat) | Property(name: string) | Items | Additional

  datatype Field = Field(path: string, required: bool, kind: Json)

  datatype Item = Emitted(field: Field) | Fault

  /** What a schema asks the walk to do, in order. */
  datatype Action =
    | Raise
    | Emit(segment: Segment, required: bool, kind: Json)
    | Descend(segment: Segment, schema: Json)

  // ---------------------------------------------------------------- rendering

  /** The path of a field below `prefix`. */
  function FieldPath(prefix: string, segment: Segment): string {
    match segment
    case Property(name) => if prefix == "" then name else prefix + "." + name
    case Additional => if prefix == "" then "*" else prefix + ".*"
    case _ => prefix
  }

  /** The prefix handed to the walk of a nested schema. */
  function ChildPrefix(prefix: string, segment: Segment): string {
    match segment
    case Variant(key, index) => prefix + "<" + key + ":" + Decimal(index) + ">"
    case Property(_) => FieldPath(prefix, segment)
    case Items => prefix + "[]"
    case Additional => prefix + ".*"
  }

  /** The left fold of a path's segments. */
  function Prefix(prefix: string, segments: seq<Segment>): string
    decreases segments
  {
    if segments == [] then prefix else Prefix(ChildPrefix(prefix, segments[0]), segments[1..])
  }

  /** What an action contributes by itself, below `prefix`. */
  function Own(action: Action, prefix: string): seq<Item> {
    match action
    case Raise => [Fault]
    case Emit(segment, required, kind) => [Emitted(Field(FieldPath(prefix, segment), required, kind))]
    case Descend(_, _) => []
  }

  // ---------------------------------------------------------------- one schema

  /** The component a schema stands for, if it is a component reference. */
  function FollowedRef(schema: Json): Option<string> {
    if !schema.Object? then None
    else
      match Get(schema.members, "$ref")
      case Some(String(r)) => if StartsWith(r, COMPONENT_PREFIX) then Some(LastPart(r)) else None
      case _ => None
  }

  /** `s.rsplit("/", 1)[-1]`. */
  function LastPart(s: string): string {
    var parts := Split(s, '/');
    parts[|parts| - 1]
  }

  function VariantActions(key: string, items: seq<Json>, index: nat): seq<Action>
    requires index <= |items|
    decreases |items| - index
  {
    if index == |items| then []
    else
      var variant := AsMapping(Some(items[index]));
      (if variant == [] then [] else [Descend(Variant(key, index), Object(variant))])
      + VariantActions(key, items, index + 1)
  }

  function KindOf(prop: seq<Member>): Json {
    match Get(prop, "type")
    case Some(kind) => kind
    case None => String(if Get(prop, "$ref").Some? then "ref" else "object")
  }

  function PropertyActions(properties: seq<Member>, required: seq<Json>): seq<Action> {
    if properties == [] then []
    else
      var prop := AsMapping(Some(properties[0].value));
      var segment := Property(properties[0].key);
      [Emit(segment, String(properties[0].key) in required, KindOf(prop)), Descend(segment, Object(prop))]
      + PropertyActions(properties[1..], required)
  }

  predicate Hashable(j: Json) {
    !j.Array? && !j.Object?
  }

  /** Properties if there are any, otherwise the item schema. */
  function BodyActions(members: seq<Member>, required: seq<Json>): seq<Action> {
    var properties := AsMapping(Get(members, "properties"));
    if properties != [] then PropertyActions(properties, required)
    else
      match Get(members, "items")
      case None => []
      case Some(Null) => []
      case Some(items) => [Descend(Items, Object(AsMapping(Some(items))))]
  }

  function AdditionalActions(members: seq<Member>): seq<Action> {
    var additional := AsMapping(Get(members, "additionalProperties"));
    if additional == [] then []
    else [Emit(Additional, false, String("dynamic-map-value")), Descend(Additional, Object(additional))]
  }

  function AllVariants(members: seq<Member>): seq<Action> {
    VariantActions("allOf", AsList(Get(members, "allOf")), 0)
    + VariantActions("anyOf", AsList(Get(members, "anyOf")), 0)
    + VariantActions("oneOf", AsList(Get(members, "oneOf")), 0)
  }

  /** Everything a schema that is not a component reference asks for, in source order. */
  function Actions(schema: Json): seq<Action> {
    if !schema.Object? then [Raise]
    else
      var required := AsList(Get(schema.members, "required"));
      AllVariants(schema.members) +
      if exists j :: j in required && !Hashable(j) then [Raise]
      else BodyActions(schema.members, required) + AdditionalActions(schema.members)
  }

  ghost predicate Below(actions: seq<Action>, bound: nat) {
    forall a :: a in actions && a.Descend? ==> Size(a.schema) < bound
  }

  lemma {:induction false} VariantsBelow(key: string, items: seq<Json>, index: nat)
    requires index <= |items|
    ensures Below(VariantActions(key, items, index), SizeOfItems(items) + 1)
    decreases |items| - index
  {
    if index < |items| {
      ItemIsSmaller(items, index);
      VariantsBelow(key, items, index + 1);
    }
  }

  lemma {:induction false} PropertiesBelow(properties: seq<Member>, required: seq<Json>)
    ensures Below(PropertyActions(properties, required), SizeOfMembers(properties) + 2)
  {
    if properties != [] {
      SizeIsPositive(properties[0].value);
      PropertiesBelow(properties[1..], required);
    }
  }

  lemma MemberBelow(members: seq<Member>, key: string)
    requires Get(members, key).Some?
    ensures Size(Get(members, key).value) < Size(Object(members))
  {
    MemberIsSmaller(members, Member(key, Get(members, key).value));
  }

  lemma KeyVariantsBelow(members: seq<Member>, key: string)
    ensures Below(VariantActions(key, AsList(Get(members, key)), 0), Size(Object(members)))
  {
    var items := AsList(Get(members, key));
    VariantsBelow(key, items, 0);
    if items != [] {
      MemberBelow(members, key);
    }
  }

  lemma BodyBelow(members: seq<Member>, required: seq<Json>)
    ensures Below(BodyActions(members, required), Size(Object(members)))
  {
    var properties := AsMapping(Get(members, "properties"));
    PropertiesBelow(properties, required);
    if properties != [] {
      MemberBelow(members, "properties");
    } else if Get(members, "items").Some? {
      MemberBelow(members, "items");
      SizeIsPositive(Get(members, "items").value);
    }
  }

  lemma AdditionalBelow(members: seq<Member>)
    ensures Below(AdditionalActions(members), Size(Object(members)))
  {
    if AsMapping(Get(members, "additionalProperties")) != [] {
      MemberBelow(members, "additionalProperties");
    }
  }

  lemma BelowConcat(a: seq<Action>, b: seq<Action>, bound: nat)
    requires Below(a, bound) && Below(b, bound)
    ensures Below(a + b, bound)
  {
  }

  /** Nested schemas are strictly smaller. */
  lemma ActionsBelow(schema: Json)
    ensures Below(Actions(schema), Size(schema))
  {
    hide VariantActions, BodyActions, AdditionalActions, Size, Below, Hashable;
    if schema.Object? {
      var members := schema.members;
      var required := AsList(Get(members, "required"));
      var all := VariantActions("allOf", AsList(Get(members, "allOf")), 0);
      var any := VariantActions("anyOf", AsList(Get(members, "anyOf")), 0);
      var one := VariantActions("oneOf", AsList(Get(members, "oneOf")), 0);
      KeyVariantsBelow(members, "allOf");
      KeyVariantsBelow(members, "anyOf");
      KeyVariantsBelow(members, "oneOf");
      BelowConcat(all, any, Size(schema));
      BelowConcat(all + any, one, Size(schema));
      BodyBelow(members, required);
      AdditionalBelow(members);
      BelowConcat(BodyActions(members, required), AdditionalActions(members), Size(schema));
      BelowConcat(AllVariants(members), BodyActions(members, required) + AdditionalActions(members), Size(schema));
      RaiseBelow(Size(schema));
      BelowConcat(AllVariants(members), [Raise], Size(schema));
    } else {
      RaiseBelow(Size(schema));
    }
  }

  lemma RaiseBelow(bound: nat)
    ensures Below([Raise], bound)
  {
  }

  // ---------------------------------------------------------------- the walk

  function Names(components: seq<Member>): set<string> {
    set m | m in components :: m.key
  }

  /** `components.get(name, {})`. */
  function Component(components: seq<Member>, name: string): Json {
    match Get(components, name)
    case Some(schema) => schema
    case None => Object([])
  }

  lemma RefShrinks(schema: Json, components: seq<Member>, seen: set<string>, name: string)
    requires FollowedRef(schema) == Some(name) && name !in seen
    ensures Names(components) - (seen + {name}) <= Names(components) - seen
    ensures |Names(components) - (seen + {name})| <= |Names(components) - seen|
    ensures Get(components, name).Some? ==> |Names(components) - (seen + {name})| < |Names(components) - seen|
    ensures Get(components, name).None? ==> Size(Component(components, name)) < Size(schema)
  {
    hide FollowedRef, Size;
    var before, after := Names(components) - seen, Names(components) - (seen + {name});
    if Get(components, name).Some? {
      assert Member(name, Get(components, name).value) in components;
      assert before == after + {name};
    } else {
      assert before == after;
      RefIsLarge(schema, name);
    }
  }

  lemma RefIsLarge(schema: Json, name: string)
    requires FollowedRef(schema) == Some(name)
    ensures Size(Object([])) < Size(schema)
  {
    hide LastPart, StartsWith;
    MemberBelow(schema.members, "$ref");
    SizeIsPositive(Get(schema.members, "$ref").value);
    assert Size(Object([])) == 1;
  }

  /** The items of a walk, in order. Terminates: component names not yet seen, then schema size. */
  function Walk(schema: Json, components: seq<Member>, prefix: string, seen: set<string>): seq<Item>
    decreases |Names(components) - seen|, Size(schema), 1, 0
  {
    match FollowedRef(schema)
    case Some(name) =>
      if name in seen then []
      else
        RefShrinks(schema, components, seen, name);
        Walk(Component(components, name), components, prefix, seen + {name})
    case None =>
      ActionsBelow(schema);
      WalkAll(Actions(schema), Size(schema), components, prefix, seen)
  }

  function WalkAll(actions: seq<Action>, bound: nat, components: seq<Member>, prefix: string, seen: set<string>): seq<Item>
    requires Below(actions, bound)
    decreases |Names(components) - seen|, bound, 0, |actions|
  {
    if actions == [] then []
    else
      assert actions[0] in actions && forall a :: a in actions[1..] ==> a in actions;
      WalkOne(actions[0], bound, components, prefix, seen)
      + WalkAll(actions[1..], bound, components, prefix, seen)
  }

  function WalkOne(action: Action, bound: nat, components: seq<Member>, prefix: string, seen: set<string>): seq<Item>
    requires action.Descend? ==> Size(action.schema) < bound
    decreases |Names(components) - seen|, bound, 0, 0
  {
    match action
    case Descend(segment, schema) => Walk(schema, components, ChildPrefix(prefix, segment), seen)
    case _ => Own(action, prefix)
  }

  lemma {:induction false} WalkConcat(a: seq<Action>, b: seq<Action>, bound: nat,
                                      components: seq<Member>, prefix: string, seen: set<string>)
    requires Below(a, bound) && Below(b, bound)
    ensures Below(a + b, bound)
    ensures WalkAll(a + b, bound, components, prefix, seen)
            == WalkAll(a, bound, components, prefix, seen) + WalkAll(b, bound, components, prefix, seen)
  {
    hide WalkOne;
    BelowConcat(a, b, bound);
    if a == [] {
      assert a + b == b;
    } else {
      assert (a + b)[0] == a[0] && (a + b)[1..] == a[1..] + b;
      assert Below(a[1..], bound);
      WalkConcat(a[1..], b, bound, components, prefix, seen);
    }
  }

  // ---------------------------------------------------------------- the implementation

  /** Python's view of a walk: an exception, or the list of fields. */
  function Outcome(items: seq<Item>): Result<seq<Field>> {
    if items == [] then Ok([])
    else
      match items[0]
      case Fault => Raised("schema is malformed")
      case Emitted(field) => Prepend([field], Outcome(items[1..]))
  }

  function Both(a: Result<seq<Field>>, b: Result<seq<Field>>): Result<seq<Field>> {
    match a
    case Raised(e) => Raised(e)
    case Ok(fields) => Prepend(fields, b)
  }

  lemma {:induction false} OutcomeConcat(a: seq<Item>, b: seq<Item>)
    ensures Outcome(a + b) == Both(Outcome(a), Outcome(b))
  {
    if a == [] {
      assert a + b == b;
      PrependNothing(Outcome(b));
    } else {
      assert (a + b)[0] == a[0] && (a + b)[1..] == a[1..] + b;
      OutcomeConcat(a[1..], b);
      if a[0].Emitted? && Outcome(a[1..]).Ok? {
        PrependMore([a[0].field], Outcome(a[1..]).value, Outcome(b));
      }
    }
  }

  /** The outcome of walking some actions of one schema. */
  function Gathered(actions: seq<Action>, bound: nat, components: seq<Member>, prefix: string,
                    seen: set<string>): Result<seq<Field>>
    requires Below(actions, bound)
  {
    Outcome(WalkAll(actions, bound, components, prefix, seen))
  }

  lemma GatheredConcat(a: seq<Action>, b: seq<Action>, bound: nat, components: seq<Member>, prefix: string, seen: set<string>)
    requires Below(a, bound) && Below(b, bound)
    ensures Below(a + b, bound)
    ensures Gathered(a + b, bound, components, prefix, seen)
            == Both(Gathered(a, bound, components, prefix, seen), Gathered(b, bound, components, prefix, seen))
  {
    WalkConcat(a, b, bound, components, prefix, seen);
    OutcomeConcat(WalkAll(a, bound, components, prefix, seen), WalkAll(b, bound, components, prefix, seen));
  }

  lemma GatheredOne(action: Action, bound: nat, components: seq<Member>, prefix: string, seen: set<string>)
    requires Below([action], bound) && (action.Descend? ==> Size(action.schema) < bound)
    ensures action.Raise? ==> Gathered([action], bound, components, prefix, seen) == Raised("schema is malformed")
    ensures action.Emit? ==> Gathered([action], bound, components, prefix, seen)
                             == Ok([Field(FieldPath(prefix, action.segment), action.required, action.kind)])
    ensures action.Descend? ==> Gathered([action], bound, components, prefix, seen)
                                == Outcome(Walk(action.schema, components, ChildPrefix(prefix, action.segment), seen))
  {
    var items := WalkOne(action, bound, components, prefix, seen);
    assert WalkAll([action], bound, components, prefix, seen) == items + [];
    assert items + [] == items;
    if action.Emit? {
      var field := Field(FieldPath(prefix, action.segment), action.required, action.kind);
      assert items == [Emitted(field)] && items[1..] == [] && Outcome([]) == Ok([]);
      assert [field] + [] == [field];
    }
  }

  lemma BothMore(a: seq<Field>, b: seq<Field>, rest: Result<seq<Field>>)
    ensures Both(Ok(a), Both(Ok(b), rest)) == Both(Ok(a + b), rest)
    ensures Both(Ok([]), rest) == rest && Both(Ok(a), Ok([])) == Ok(a)
  {
    PrependMore(a, b, rest);
    PrependNothing(rest);
    assert a + [] == a;
  }

  /** The loop over one variant list. */
  method CollectVariants(key: string, items: seq<Json>, bound: nat, components: seq<Member>, prefix: string, seen: set<string>)
    returns (r: Result<seq<Field>>)
    requires Below(VariantActions(key, items, 0), bound)
    ensures r == Gathered(VariantActions(key, items, 0), bound, components, prefix, seen)
    decreases |Names(components) - seen|, bound, 1
  {
    hide Walk, WalkAll, Outcome, Gathered, ChildPrefix;
    var fields: seq<Field> := [];
    BothMore([], [], Gathered(VariantActions(key, items, 0), bound, components, prefix, seen));
    for index := 0 to |items|
      invariant Below(VariantActions(key, items, index), bound)
      invariant Gathered(VariantActions(key, items, 0), bound, components, prefix, seen)
                == Both(Ok(fields), Gathered(VariantActions(key, items, index), bound, components, prefix, seen))
    {
      var variant := AsMapping(Some(items[index]));
      if variant != [] {
        var action := Descend(Variant(key, index), Object(variant));
        var rest := VariantActions(key, items, index + 1);
        assert VariantActions(key, items, index) == [action] + rest;
        BelowSplit([action], rest, bound);
        GatheredConcat([action], rest, bound, components, prefix, seen);
        assert action in [action];
        GatheredOne(action, bound, components, prefix, seen);
        var part := Collect(Object(variant), components, ChildPrefix(prefix, Variant(key, index)), seen);
        if part.Raised? {
          return part;
        }
        BothMore(fields, part.value, Gathered(rest, bound, components, prefix, seen));
        fields := fields + part.value;
      } else {
        assert VariantActions(key, items, index) == [] + VariantActions(key, items, index + 1)
               == VariantActions(key, items, index + 1);
      }
    }
    GatheredNothing(bound, components, prefix, seen);
    BothMore(fields, [], Ok([]));
    return Ok(fields);
  }

  lemma GatheredNothing(bound: nat, components: seq<Member>, prefix: string, seen: set<string>)
    ensures Below([], bound) && Gathered([], bound, components, prefix, seen) == Ok([])
  {
  }

  lemma BelowSplit(a: seq<Action>, b: seq<Action>, bound: nat)
    requires Below(a + b, bound)
    ensures Below(a, bound) && Below(b, bound)
  {
    assert forall x :: x in a || x in b ==> x in a + b;
  }

  /** The loop over the properties: a field, then whatever its schema holds. */
  method CollectProperties(properties: seq<Member>, required: seq<Json>, bound: nat,
                           components: seq<Member>, prefix: string, seen: set<string>)
    returns (r: Result<seq<Field>>)
    requires Below(PropertyActions(properties, required), bound)
    ensures r == Gathered(PropertyActions(properties, required), bound, components, prefix, seen)
    decreases |Names(components) - seen|, bound, 1
  {
    hide Walk, WalkAll, Outcome, Gathered, FieldPath, KindOf;
    var fields: seq<Field> := [];
    assert properties[0..] == properties;
    BothMore([], [], Gathered(PropertyActions(properties, required), bound, components, prefix, seen));
    for i := 0 to |properties|
      invariant Below(PropertyActions(properties[i..], required), bound)
      invariant Gathered(PropertyActions(properties, required), bound, components, prefix, seen)
                == Both(Ok(fields), Gathered(PropertyActions(properties[i..], required), bound, components, prefix, seen))
    {
      assert properties[i..][0] == properties[i] && properties[i..][1..] == properties[i + 1..];
      var name := properties[i].key;
      var prop := AsMapping(Some(properties[i].value));
      var path := FieldPath(prefix, Property(name));
      var field := Field(path, String(name) in required, KindOf(prop));
      var emit := Emit(Property(name), field.required, field.kind);
      var descend := Descend(Property(name), Object(prop));
      var rest := PropertyActions(properties[i + 1..], required);
      GatheredPair(emit, descend, rest, bound, components, prefix, seen);
      var part := Collect(Object(prop), components, path, seen);
      if part.Raised? {
        return part;
      }
      BothMore(fields, [field], Both(part, Gathered(rest, bound, components, prefix, seen)));
      BothMore(fields + [field], part.value, Gathered(rest, bound, components, prefix, seen));
      fields := fields + [field] + part.value;
    }
    GatheredNothing(bound, components, prefix, seen);
    BothMore(fields, [], Ok([]));
    return Ok(fields);
  }

  lemma GatheredPair(emit: Action, descend: Action, rest: seq<Action>, bound: nat,
                     components: seq<Member>, prefix: string, seen: set<string>)
    requires emit.Emit? && descend.Descend? && Below([emit, descend] + rest, bound)
    ensures Size(descend.schema) < bound && Below(rest, bound)
    ensures Gathered([emit, descend] + rest, bound, components, prefix, seen)
            == Both(Ok([Field(FieldPath(prefix, emit.segment), emit.required, emit.kind)]),
                    Both(Outcome(Walk(descend.schema, components, ChildPrefix(prefix, descend.segment), seen)),
                         Gathered(rest, bound, components, prefix, seen)))
  {
    hide Walk, WalkAll, Outcome, Gathered, FieldPath, ChildPrefix;
    assert [emit, descend] + rest == [emit] + ([descend] + rest);
    BelowSplit([emit], [descend] + rest, bound);
    BelowSplit([descend], rest, bound);
    assert descend in [descend];
    GatheredConcat([emit], [descend] + rest, bound, components, prefix, seen);
    GatheredConcat([descend], rest, bound, components, prefix, seen);
    GatheredOne(emit, bound, components, prefix, seen);
    GatheredOne(descend, bound, components, prefix, seen);
  }

  /** Properties, or the item schema. */
  method CollectBody(members: seq<Member>, required: seq<Json>, components: seq<Member>, prefix: string, seen: set<string>)
    returns (r: Result<seq<Field>>)
    requires Below(BodyActions(members, required), Size(Object(members)))
    ensures r == Gathered(BodyActions(members, required), Size(Object(members)), components, prefix, seen)
    decreases |Names(components) - seen|, Size(Object(members)), 2
  {
    hide Walk, WalkAll, Outcome, Gathered, PropertyActions, ChildPrefix;
    var bound := Size(Object(members));
    var properties := AsMapping(Get(members, "properties"));
    if properties != [] {
      r := CollectProperties(properties, required, bound, components, prefix, seen);
      return;
    }
    var items := Get(members, "items");
    if items.None? || items.value == Null {
      GatheredNothing(bound, components, prefix, seen);
      return Ok([]);
    }
    var action := Descend(Items, Object(AsMapping(Some(items.value))));
    assert action in BodyActions(members, required);
    GatheredOne(action, bound, components, prefix, seen);
    r := Collect(Object(AsMapping(Some(items.value))), components, ChildPrefix(prefix, Items), seen);
  }

  /** The dynamic-map value and its schema. */
  method CollectAdditional(members: seq<Member>, components: seq<Member>, prefix: string, seen: set<string>)
    returns (r: Result<seq<Field>>)
    requires Below(AdditionalActions(members), Size(Object(members)))
    ensures r == Gathered(AdditionalActions(members), Size(Object(members)), components, prefix, seen)
    decreases |Names(components) - seen|, Size(Object(members)), 2
  {
    hide Walk, WalkAll, Outcome, Gathered, FieldPath, ChildPrefix;
    var bound := Size(Object(members));
    var additional := AsMapping(Get(members, "additionalProperties"));
    if additional == [] {
      GatheredNothing(bound, components, prefix, seen);
      return Ok([]);
    }
    var field := Field(FieldPath(prefix, Additional), false, String("dynamic-map-value"));
    var emit := Emit(Additional, field.required, field.kind);
    var descend := Descend(Additional, Object(additional));
    assert AdditionalActions(members) == [emit, descend] + [];
    GatheredPair(emit, descend, [], bound, components, prefix, seen);
    GatheredNothing(bound, components, prefix, seen);
    var part := Collect(Object(additional), components, ChildPrefix(prefix, Additional), seen);
    if part.Raised? {
      return part;
    }
    BothMore([field], [], Ok([]));
    BothMore(part.value, [], Ok([]));
    return Ok([field] + part.value);
  }

  /** `_schema_fields`: recursion that appends to and extends a local list. */
  method Collect(schema: Json, components: seq<Member>, prefix: string, seen: set<string>)
    returns (r: Result<seq<Field>>)
    ensures r == Outcome(Walk(schema, components, prefix, seen))
    decreases |Names(components) - seen|, Size(schema), 3
  {
    hide WalkAll, Outcome, Gathered, AllVariants, BodyActions, AdditionalActions, FollowedRef, VariantActions, Below;
    ActionsBelow(schema);
    var bound := Size(schema);
    var reference := FollowedRef(schema);
    if reference.Some? {
      if reference.value in seen {
        OutcomeNothing();
        return Ok([]);
      }
      RefShrinks(schema, components, seen, reference.value);
      r := Collect(Component(components, reference.value), components, prefix, seen + {reference.value});
      return;
    }
    assert Outcome(Walk(schema, components, prefix, seen)) == Gathered(Actions(schema), bound, components, prefix, seen) by {
      WalkIsGathered(schema, components, prefix, seen);
    }
    if !schema.Object? {
      GatheredOne(Raise, bound, components, prefix, seen);
      return Raised("schema is malformed");
    }
    var members := schema.members;
    var required := AsList(Get(members, "required"));
    ActionsGathered(members, components, prefix, seen);
    var fields: seq<Field> := [];
    var rest := Gathered(Remainder(members), bound, components, prefix, seen);
    var all := CollectVariants("allOf", AsList(Get(members, "allOf")), bound, components, prefix, seen);
    if all.Raised? { return all; }
    var any := CollectVariants("anyOf", AsList(Get(members, "anyOf")), bound, components, prefix, seen);
    if any.Raised? { return any; }
    var one := CollectVariants("oneOf", AsList(Get(members, "oneOf")), bound, components, prefix, seen);
    if one.Raised? { return one; }
    fields := all.value + any.value + one.value;
    BothMore(all.value, any.value, Both(one, rest));
    BothMore(all.value + any.value, one.value, rest);
    if exists j :: j in required && !Hashable(j) {
      GatheredOne(Raise, bound, components, prefix, seen);
      return Raised("schema is malformed");
    }
    var body := CollectBody(members, required, components, prefix, seen);
    if body.Raised? { return body; }
    var additional := CollectAdditional(members, components, prefix, seen);
    if additional.Raised? { return additional; }
    return Ok(fields + (body.value + additional.value));
  }

  /** What a schema asks for behind its variants. */
  function Remainder(members: seq<Member>): seq<Action> {
    var required := AsList(Get(members, "required"));
    if exists j :: j in required && !Hashable(j) then [Raise]
    else BodyActions(members, required) + AdditionalActions(members)
  }

  lemma ActionsGathered(members: seq<Member>, components: seq<Member>, prefix: string, seen: set<string>)
    ensures var bound := Size(Object(members));
            var all := VariantActions("allOf", AsList(Get(members, "allOf")), 0);
            var any := VariantActions("anyOf", AsList(Get(members, "anyOf")), 0);
            var one := VariantActions("oneOf", AsList(Get(members, "oneOf")), 0);
            var required := AsList(Get(members, "required"));
            && Below(all, bound) && Below(any, bound) && Below(one, bound) && Below(Remainder(members), bound)
            && Below(BodyActions(members, required), bound) && Below(AdditionalActions(members), bound)
            && Below(Actions(Object(members)), bound)
            && Gathered(Actions(Object(members)), bound, components, prefix, seen) ==
               Both(Gathered(all, bound, components, prefix, seen),
                    Both(Gathered(any, bound, components, prefix, seen),
                         Both(Gathered(one, bound, components, prefix, seen),
                              Gathered(Remainder(members), bound, components, prefix, seen))))
            && ((forall j :: j in required ==> Hashable(j)) ==>
                  Gathered(Remainder(members), bound, components, prefix, seen) ==
                  Both(Gathered(BodyActions(members, required), bound, components, prefix, seen),
                       Gathered(AdditionalActions(members), bound, components, prefix, seen)))
  {
    hide VariantActions, BodyActions, AdditionalActions, Size, Below, Hashable, Gathered;
    var bound := Size(Object(members));
    var required := AsList(Get(members, "required"));
    var all := VariantActions("allOf", AsList(Get(members, "allOf")), 0);
    var any := VariantActions("anyOf", AsList(Get(members, "anyOf")), 0);
    var one := VariantActions("oneOf", AsList(Get(members, "oneOf")), 0);
    KeyVariantsBelow(members, "allOf");
    KeyVariantsBelow(members, "anyOf");
    KeyVariantsBelow(members, "oneOf");
    BodyBelow(members, required);
    AdditionalBelow(members);
    RaiseBelow(bound);
    GatheredConcat(BodyActions(members, required), AdditionalActions(members), bound, components, prefix, seen);
    GatheredConcat(one, Remainder(members), bound, components, prefix, seen);
    GatheredConcat(any, one + Remainder(members), bound, components, prefix, seen);
    GatheredConcat(all, any + (one + Remainder(members)), bound, components, prefix, seen);
    assert Actions(Object(members)) == all + any + one + Remainder(members);
    assert all + any + one + Remainder(members) == all + (any + (one + Remainder(members)));
  }

  lemma OutcomeNothing()
    ensures Outcome([]) == Ok([])
  {
  }

  lemma WalkIsGathered(schema: Json, components: seq<Member>, prefix: string, seen: set<string>)
    requires FollowedRef(schema).None?
    ensures Below(Actions(schema), Size(schema))
    ensures Outcome(Walk(schema, components, prefix, seen)) == Gathered(Actions(schema), Size(schema), components, prefix, seen)
  {
    hide WalkAll;
    ActionsBelow(schema);
  }
}
