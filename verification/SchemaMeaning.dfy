/**
 What the schema walk emits, read off the JSON document: for every schema, which fields come from its properties, items,
 variants and additional properties, with which path, required flag and type, in which order.
 */
module SchemaMeaning {
  import opened PyText
  import opened Json
  import opened Sorting
  import opened SchemaFields

  // ---------------------------------------------------------------- reading the document

  /** The array at a key; anything else counts as empty. */
  function ArrayAt(members: seq<Member>, key: string): seq<Json> {
    if Get(members, key).Some? && Get(members, key).value.Array? then Get(members, key).value.items else []
  }

  function ObjectAt(members: seq<Member>, key: string): seq<Member> {
    if Get(members, key).Some? && Get(members, key).value.Object? then Get(members, key).value.members else []
  }

  /** The schema names this component, in a `$ref` below `#/components/schemas/`. */
  ghost predicate RefersTo(schema: Json, name: string) {
    && schema.Object? && '/' !in name
    && exists front :: Get(schema.members, "$ref") == Some(String(front + "/" + name))
                       && "#/components/schemas/" <= front + "/" + name
  }

  /** An unhashable entry in `required`. */
  predicate Malformed(members: seq<Member>) {
    exists j :: j in ArrayAt(members, "required") && (j.Array? || j.Object?)
  }

  function Dotted(prefix: string, name: string): string {
    if prefix == "" then name else prefix + "." + name
  }

  /** `prop.get("type", "ref" if "$ref" in prop else "object")`. */
  function TypeOf(property: Json): Json {
    if property.Object? && Get(property.members, "type").Some? then Get(property.members, "type").value
    else if property.Object? && Get(property.members, "$ref").Some? then String("ref")
    else String("object")
  }

  /** The field of one property. */
  function PropertyField(members: seq<Member>, prefix: string, property: Member): Field {
    Field(Dotted(prefix, property.key), String(property.key) in ArrayAt(members, "required"), TypeOf(property.value))
  }

  // ---------------------------------------------------------------- the parts of a walk

  function Flat(parts: seq<seq<Item>>): seq<Item> {
    if parts == [] then [] else parts[0] + Flat(parts[1..])
  }

  /** The walk of a nested schema, which may be no object or an empty one. */
  function Nested(schema: Json, components: seq<Member>, prefix: string, seen: set<string>): seq<Item> {
    if schema.Object? && schema.members != [] then Walk(schema, components, prefix, seen) else []
  }

  function VariantParts(members: seq<Member>, key: string, components: seq<Member>, prefix: string,
                        seen: set<string>): seq<seq<Item>> {
    var items := ArrayAt(members, key);
    seq(|items|, i requires 0 <= i < |items| => Nested(items[i], components, prefix + "<" + key + ":" + Decimal(i) + ">", seen))
  }

  /** Each property's field, in front of the fields of its schema. */
  function PropertyParts(members: seq<Member>, components: seq<Member>, prefix: string, seen: set<string>): seq<seq<Item>> {
    var properties := ObjectAt(members, "properties");
    seq(|properties|, i requires 0 <= i < |properties| =>
      [Emitted(PropertyField(members, prefix, properties[i]))]
      + Nested(properties[i].value, components, Dotted(prefix, properties[i].key), seen))
  }

  function ItemsPart(members: seq<Member>, components: seq<Member>, prefix: string, seen: set<string>): seq<Item> {
    if ObjectAt(members, "properties") == [] && Get(members, "items").Some?
    then Nested(Get(members, "items").value, components, prefix + "[]", seen)
    else []
  }

  function AdditionalPart(members: seq<Member>, components: seq<Member>, prefix: string, seen: set<string>): seq<Item> {
    var additional := ObjectAt(members, "additionalProperties");
    if additional == [] then []
    else
      [Emitted(Field(if prefix == "" then "*" else prefix + ".*", false, String("dynamic-map-value")))]
      + Walk(Object(additional), components, prefix + ".*", seen)
  }

  // ---------------------------------------------------------------- the walk in these terms

  lemma EmptySchema(components: seq<Member>, prefix: string, seen: set<string>)
    ensures Walk(Object([]), components, prefix, seen) == []
  {
    assert Actions(Object([])) == [];
  }

  /** What a descent into an object, or into anything else, contributes. */
  lemma DescendIsNested(schema: Json, segment: Segment, bound: nat, components: seq<Member>, prefix: string, seen: set<string>)
    requires Size(Object(AsMapping(Some(schema)))) < bound
    ensures WalkOne(Descend(segment, Object(AsMapping(Some(schema)))), bound, components, prefix, seen)
            == Nested(schema, components, ChildPrefix(prefix, segment), seen)
  {
    hide Walk;
    EmptySchema(components, ChildPrefix(prefix, segment), seen);
  }

  lemma TwoActions(a: Action, b: Action, rest: seq<Action>, bound: nat, components: seq<Member>, prefix: string,
                   seen: set<string>)
    requires Below([a, b] + rest, bound)
    ensures Below(rest, bound) && (a.Descend? ==> Size(a.schema) < bound) && (b.Descend? ==> Size(b.schema) < bound)
    ensures WalkAll([a, b] + rest, bound, components, prefix, seen)
            == WalkOne(a, bound, components, prefix, seen) + WalkOne(b, bound, components, prefix, seen)
               + WalkAll(rest, bound, components, prefix, seen)
  {
    hide WalkOne;
    assert [a, b] + rest == [a] + ([b] + rest);
    assert a in [a, b] + rest && b in [a, b] + rest && forall x :: x in rest ==> x in [a, b] + rest;
    FirstAction(a, [b] + rest, bound, components, prefix, seen);
    FirstAction(b, rest, bound, components, prefix, seen);
    ConcatAssociative(WalkOne(a, bound, components, prefix, seen), WalkOne(b, bound, components, prefix, seen),
                      WalkAll(rest, bound, components, prefix, seen), []);
  }

  lemma FirstAction(a: Action, rest: seq<Action>, bound: nat, components: seq<Member>, prefix: string, seen: set<string>)
    requires Below([a] + rest, bound) && Below(rest, bound) && (a.Descend? ==> Size(a.schema) < bound)
    ensures WalkAll([a] + rest, bound, components, prefix, seen)
            == WalkOne(a, bound, components, prefix, seen) + WalkAll(rest, bound, components, prefix, seen)
  {
    hide WalkOne;
    assert ([a] + rest)[1..] == rest;
  }

  lemma {:induction false} VariantsSpelledOut(members: seq<Member>, key: string, index: nat, bound: nat, components: seq<Member>,
                                              prefix: string, seen: set<string>)
    requires index <= |ArrayAt(members, key)| && Below(VariantActions(key, ArrayAt(members, key), index), bound)
    ensures WalkAll(VariantActions(key, ArrayAt(members, key), index), bound, components, prefix, seen)
            == Flat(VariantParts(members, key, components, prefix, seen)[index..])
    decreases |ArrayAt(members, key)| - index
  {
    hide Walk, WalkOne, ArrayAt, Nested;
    var items, parts := ArrayAt(members, key), VariantParts(members, key, components, prefix, seen);
    if index < |items| {
      var variant, rest := AsMapping(Some(items[index])), VariantActions(key, items, index + 1);
      assert parts[index..][1..] == parts[index + 1..];
      if variant == [] {
        assert [] + rest == rest;
        VariantsSpelledOut(members, key, index + 1, bound, components, prefix, seen);
        NothingNested(items[index], components, prefix + "<" + key + ":" + Decimal(index) + ">", seen);
      } else {
        var action := Descend(Variant(key, index), Object(variant));
        assert action in [action] + rest && forall x :: x in rest ==> x in [action] + rest;
        FirstAction(action, rest, bound, components, prefix, seen);
        DescendIsNested(items[index], Variant(key, index), bound, components, prefix, seen);
        VariantsSpelledOut(members, key, index + 1, bound, components, prefix, seen);
      }
    }
  }

  lemma NothingNested(schema: Json, components: seq<Member>, prefix: string, seen: set<string>)
    requires AsMapping(Some(schema)) == []
    ensures Nested(schema, components, prefix, seen) == []
  {
  }

  lemma {:induction false} PropertiesSpelledOut(members: seq<Member>, index: nat, bound: nat, components: seq<Member>,
                                                prefix: string, seen: set<string>)
    requires index <= |ObjectAt(members, "properties")|
    requires var actions := PropertyActions(ObjectAt(members, "properties")[index..], ArrayAt(members, "required"));
             Below(actions, bound)
    ensures WalkAll(PropertyActions(ObjectAt(members, "properties")[index..], ArrayAt(members, "required")), bound, components,
                    prefix, seen)
            == Flat(PropertyParts(members, components, prefix, seen)[index..])
    decreases |ObjectAt(members, "properties")| - index
  {
    hide Walk, WalkOne, ArrayAt, ObjectAt, Nested, Dotted;
    var properties, required := ObjectAt(members, "properties"), ArrayAt(members, "required");
    var parts := PropertyParts(members, components, prefix, seen);
    if index < |properties| {
      var p := properties[index];
      assert properties[index..][0] == p && properties[index..][1..] == properties[index + 1..];
      assert parts[index..][1..] == parts[index + 1..];
      var prop := AsMapping(Some(p.value));
      var emit := Emit(Property(p.key), String(p.key) in required, KindOf(prop));
      var descend := Descend(Property(p.key), Object(prop));
      var rest := PropertyActions(properties[index + 1..], required);
      TwoActions(emit, descend, rest, bound, components, prefix, seen);
      OneProperty(members, p, bound, components, prefix, seen);
      PropertiesSpelledOut(members, index + 1, bound, components, prefix, seen);
    }
  }

  lemma OneProperty(members: seq<Member>, p: Member, bound: nat, components: seq<Member>, prefix: string, seen: set<string>)
    requires Size(Object(AsMapping(Some(p.value)))) < bound
    ensures var prop := AsMapping(Some(p.value));
            && WalkOne(Emit(Property(p.key), String(p.key) in ArrayAt(members, "required"), KindOf(prop)), bound,
                components, prefix,
                       seen) == [Emitted(PropertyField(members, prefix, p))]
            && WalkOne(Descend(Property(p.key), Object(prop)), bound, components, prefix, seen)
               == Nested(p.value, components, Dotted(prefix, p.key), seen)
  {
    hide Walk, Nested;
    DescendIsNested(p.value, Property(p.key), bound, components, prefix, seen);
  }

  lemma ItemsSpelledOut(members: seq<Member>, components: seq<Member>, prefix: string, seen: set<string>)
    requires Below(BodyActions(members, ArrayAt(members, "required")), Size(Object(members)))
    ensures WalkAll(BodyActions(members, ArrayAt(members, "required")), Size(Object(members)), components, prefix, seen)
            == Flat(PropertyParts(members, components, prefix, seen)) + ItemsPart(members, components, prefix, seen)
  {
    hide Walk, WalkOne, Nested, Size, PropertyActions;
    var bound, required := Size(Object(members)), ArrayAt(members, "required");
    var parts := PropertyParts(members, components, prefix, seen);
    assert AsMapping(Get(members, "properties")) == ObjectAt(members, "properties");
    assert parts[0..] == parts && ObjectAt(members, "properties")[0..] == ObjectAt(members, "properties");
    if ObjectAt(members, "properties") != [] {
      PropertiesSpelledOut(members, 0, bound, components, prefix, seen);
      assert Flat(parts) + [] == Flat(parts);
    } else if Get(members, "items").Some? && Get(members, "items").value != Null {
      var items := Get(members, "items").value;
      var action := Descend(Items, Object(AsMapping(Some(items))));
      assert action in BodyActions(members, required);
      assert [action] + [] == [action];
      FirstAction(action, [], bound, components, prefix, seen);
      DescendIsNested(items, Items, bound, components, prefix, seen);
    } else if Get(members, "items").Some? {
      NothingNested(Null, components, prefix + "[]", seen);
    }
  }

  lemma AdditionalSpelledOut(members: seq<Member>, components: seq<Member>, prefix: string, seen: set<string>)
    requires Below(AdditionalActions(members), Size(Object(members)))
    ensures WalkAll(AdditionalActions(members), Size(Object(members)), components, prefix, seen)
            == AdditionalPart(members, components, prefix, seen)
  {
    hide Walk, Size;
    var additional := ObjectAt(members, "additionalProperties");
    assert AsMapping(Get(members, "additionalProperties")) == additional;
    if additional != [] {
      var emit, descend := Emit(Additional, false, String("dynamic-map-value")), Descend(Additional, Object(additional));
      assert [emit, descend] + [] == [emit, descend];
      TwoActions(emit, descend, [], Size(Object(members)), components, prefix, seen);
    }
  }

  /** A schema that names no component: its variants, and behind them its properties or items and its additional properties. */
  lemma WalkSpelledOut(members: seq<Member>, components: seq<Member>, prefix: string, seen: set<string>)
    requires forall name :: !RefersTo(Object(members), name)
    ensures Walk(Object(members), components, prefix, seen)
            == Flat(VariantParts(members, "allOf", components, prefix, seen))
               + Flat(VariantParts(members, "anyOf", components, prefix, seen))
               + Flat(VariantParts(members, "oneOf", components, prefix, seen))
               + if Malformed(members) then [Fault]
                 else Flat(PropertyParts(members, components, prefix, seen)) + ItemsPart(members, components, prefix, seen)
                      + AdditionalPart(members, components, prefix, seen)
  {
    hide VariantActions, BodyActions, AdditionalActions, Size, Below, WalkAll, VariantParts, PropertyParts, ItemsPart,
         AdditionalPart, Flat;
    FollowsExactly(Object(members));
    var bound, required := Size(Object(members)), ArrayAt(members, "required");
    KeySpelledOut(members, "allOf", components, prefix, seen);
    KeySpelledOut(members, "anyOf", components, prefix, seen);
    KeySpelledOut(members, "oneOf", components, prefix, seen);
    BodyBelow(members, required);
    AdditionalBelow(members);
    ItemsSpelledOut(members, components, prefix, seen);
    AdditionalSpelledOut(members, components, prefix, seen);
    RaiseSpelledOut(bound, components, prefix, seen);
    ActionsBelow(Object(members));
    var all, any, one := VariantActions("allOf", ArrayAt(members, "allOf"), 0), VariantActions("anyOf", ArrayAt(members,
        "anyOf"), 0),
                         VariantActions("oneOf", ArrayAt(members, "oneOf"), 0);
    var behind := if Malformed(members) then [Raise] else BodyActions(members, required) + AdditionalActions(members);
    WalkConcat(BodyActions(members, required), AdditionalActions(members), bound, components, prefix, seen);
    assert Actions(Object(members)) == all + any + one + behind;
    WalkConcat(all, any, bound, components, prefix, seen);
    WalkConcat(all + any, one, bound, components, prefix, seen);
    WalkConcat(all + any + one, behind, bound, components, prefix, seen);
  }

  lemma KeySpelledOut(members: seq<Member>, key: string, components: seq<Member>, prefix: string, seen: set<string>)
    ensures AsList(Get(members, key)) == ArrayAt(members, key)
    ensures var actions := VariantActions(key, ArrayAt(members, key), 0);
            && Below(actions, Size(Object(members)))
            && WalkAll(actions, Size(Object(members)), components, prefix, seen)
               == Flat(VariantParts(members, key, components, prefix, seen))
  {
    hide Walk, WalkAll, VariantActions, Flat, VariantParts;
    KeyVariantsBelow(members, key);
    var parts := VariantParts(members, key, components, prefix, seen);
    VariantsSpelledOut(members, key, 0, Size(Object(members)), components, prefix, seen);
    assert parts[0..] == parts;
  }

  lemma RaiseSpelledOut(bound: nat, components: seq<Member>, prefix: string, seen: set<string>)
    ensures Below([Raise], bound) && WalkAll([Raise], bound, components, prefix, seen) == [Fault]
  {
    assert [Raise][1..] == [];
    assert WalkAll([], bound, components, prefix, seen) == [];
  }

  // ---------------------------------------------------------------- references

  /** `rsplit`: the last part is the name behind the last slash. */
  lemma LastPartIs(front: string, name: string)
    requires '/' !in name
    ensures LastPart(front + "/" + name) == name
  {
    hide Split;
    var s := front + "/" + name;
    SplitLast(front, '/', name);
  }

  lemma FollowsExactly(schema: Json)
    ensures FollowedRef(schema).Some? ==> RefersTo(schema, FollowedRef(schema).value)
    ensures forall name :: RefersTo(schema, name) ==> FollowedRef(schema) == Some(name)
  {
    hide LastPart;
    if FollowedRef(schema).Some? {
      var r := Get(schema.members, "$ref").value.text;
      assert r[|COMPONENT_PREFIX| - 1] == COMPONENT_PREFIX[|COMPONENT_PREFIX| - 1] == '/';
      var front, name := CutLast(r);
      LastPartIs(front, name);
    }
    forall name | RefersTo(schema, name) ensures FollowedRef(schema) == Some(name) {
      var front :| Get(schema.members, "$ref") == Some(String(front + "/" + name)) && COMPONENT_PREFIX <= front + "/" + name;
      LastPartIs(front, name);
    }
  }

  lemma {:induction false} CutLast(s: string) returns (front: string, name: string)
    requires '/' in s
    ensures s == front + "/" + name && '/' !in name
  {
    var n := |s| - 1;
    if s[n] == '/' {
      front, name := s[..n], "";
    } else {
      assert s == s[..n] + [s[n]];
      front, name := CutLast(s[..n]);
      name := name + [s[n]];
    }
  }

  /** A component reference stands for the component, under the same prefix, unless it is being followed already. */
  lemma ReferenceSpelledOut(schema: Json, name: string, components: seq<Member>, prefix: string, seen: set<string>)
    requires RefersTo(schema, name)
    ensures Walk(schema, components, prefix, seen)
            == if name in seen then []
               else if Get(components, name).Some? then Walk(Get(components, name).value, components, prefix, seen + {name})
               else []
  {
    FollowsExactly(schema);
    EmptySchema(components, prefix, seen + {name});
    hide RefersTo, FollowedRef;
    if name !in seen {
      RefShrinks(schema, components, seen, name);
    }
  }

  /** What is no object makes the walk fail. */
  lemma NoObjectFails(schema: Json, components: seq<Member>, prefix: string, seen: set<string>)
    requires !schema.Object?
    ensures Walk(schema, components, prefix, seen) == [Fault]
  {
    RaiseSpelledOut(Size(schema), components, prefix, seen);
    assert Actions(schema) == [Raise];
  }

  // ---------------------------------------------------------------- the fields

  lemma {:induction false} InFlat(parts: seq<seq<Item>>, i: nat, item: Item)
    requires i < |parts| && item in parts[i]
    ensures item in Flat(parts)
  {
    if i > 0 {
      InFlat(parts[1..], i - 1, item);
    }
  }

  /**
   Every property yields its field: at its name below the prefix, required exactly when `required` lists it, and typed by
   its `type`, else `ref` when it has a reference, else `object`.
   */
  lemma PropertyIsEmitted(members: seq<Member>, components: seq<Member>, prefix: string, seen: set<string>, p: Member)
    requires (forall name :: !RefersTo(Object(members), name)) && !Malformed(members)
    requires p in ObjectAt(members, "properties")
    ensures exists f: Field :: Emitted(f) in Walk(Object(members), components, prefix, seen)
              && f.path == (if prefix == "" then p.key else prefix + "." + p.key)
              && (f.required <==> exists names :: Get(members, "required") == Some(Array(names)) && String(p.key) in names)
              && (p.value.Object? && Get(p.value.members, "type").Some? ==> f.kind == Get(p.value.members, "type").value)
              && (p.value.Object? && Get(p.value.members, "type").None? && Get(p.value.members, "$ref").Some? ==>
                    f.kind == String("ref"))
              && (!p.value.Object? || (Get(p.value.members, "type").None? && Get(p.value.members, "$ref").None?) ==>
                    f.kind == String("object"))
  {
    hide Walk, RefersTo, VariantParts, ItemsPart, AdditionalPart, Nested;
    WalkSpelledOut(members, components, prefix, seen);
    var properties, parts := ObjectAt(members, "properties"), PropertyParts(members, components, prefix, seen);
    var i :| 0 <= i < |properties| && properties[i] == p;
    var f := PropertyField(members, prefix, p);
    assert Emitted(f) in parts[i];
    hide Flat, PropertyParts;
    InFlat(parts, i, Emitted(f));
    assert Emitted(f) in Walk(Object(members), components, prefix, seen);
  }

  /** The walk's field list is its items, in order; one fault among them is an exception. */
  lemma {:induction false} OutcomeExactly(items: seq<Item>)
    ensures Outcome(items).Ok? <==> Fault !in items
    ensures Outcome(items).Ok? ==> MapSeq((f: Field) => Emitted(f), Outcome(items).value) == items
  {
    if items != [] {
      var rest := items[1..];
      OutcomeExactly(rest);
      assert items == [items[0]] + rest;
      if Outcome(items).Ok? {
        assert Outcome(items).value == [items[0].field] + Outcome(rest).value;
      }
    }
  }
}
