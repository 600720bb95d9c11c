/**
 The package qualification's reference check: collect every `$ref` of a document and resolve it
 as a JSON Pointer (RFC 6901), and what its acceptance means for the coverage walk.
 */
module SchemaReferences {
  import opened PyText
  import opened Json
  import opened Sorting
  import SF = SchemaFields

  // ---------------------------------------------------------------- collecting

  function Children(value: Json): (children: seq<Json>)
    ensures forall c :: c in children ==> Size(c) < Size(value)
  {
    match value
    case Object(members) =>
      var children := seq(|members|, i requires 0 <= i < |members| => members[i].value);
      assert forall c :: c in children ==> Size(c) < Size(value) by {
        forall c | c in children ensures Size(c) < Size(value) {
          var i :| 0 <= i < |members| && children[i] == c;
          MemberIsSmaller(members, members[i]);
        }
      }
      children
    case Array(items) =>
      assert forall c :: c in items ==> Size(c) < Size(value) by {
        forall c | c in items ensures Size(c) < Size(value) {
          var i :| 0 <= i < |items| && items[i] == c;
          ItemIsSmaller(items, i);
        }
      }
      items
    case _ => []
  }

  /** The reference a value carries itself. */
  function OwnRef(value: Json): Option<string> {
    if !value.Object? then None
    else
      match Get(value.members, "$ref")
      case Some(String(r)) => Some(r)
      case _ => None
  }

  /** `visit`: the references of a value, parents before children. */
  function Visit(value: Json): seq<string>
    decreases Size(value), 1, 0
  {
    (match OwnRef(value) case Some(r) => [r] case None => []) + VisitAll(Children(value), Size(value))
  }

  function VisitAll(children: seq<Json>, bound: nat): seq<string>
    requires forall c :: c in children ==> Size(c) < bound
    decreases bound, 0, |children|
  {
    if children == [] then [] else Visit(children[0]) + VisitAll(children[1..], bound)
  }

  method VisitInto(value: Json, references: seq<string>) returns (result: seq<string>)
    ensures result == references + Visit(value)
    decreases Size(value)
  {
    hide Visit, OwnRef;
    VisitUnfold(value);
    result := references;
    var own := OwnRef(value);
    if own.Some? {
      result := result + [own.value];
    }
    var children := Children(value);
    ghost var before := result;
    assert children[0..] == children;
    for i := 0 to |children|
      invariant before + VisitAll(children, Size(value)) == result + VisitAll(children[i..], Size(value))
    {
      assert children[i..][0] == children[i] && children[i..][1..] == children[i + 1..];
      assert children[i] in children;
      var next := VisitInto(children[i], result);
      ConcatAssociative(result, Visit(children[i]), VisitAll(children[i + 1..], Size(value)), []);
      result := next;
    }
    assert result + [] == result;
    ConcatAssociative(references, if own.Some? then [own.value] else [], VisitAll(children, Size(value)), []);
  }

  lemma VisitUnfold(value: Json)
    ensures Visit(value) == (if OwnRef(value).Some? then [OwnRef(value).value] else []) + VisitAll(Children(value), Size(value))
  {
  }

  // ---------------------------------------------------------------- positions

  /** The value at a position: a list of child indices. */
  function At(value: Json, position: seq<nat>): Option<Json>
    decreases |position|
  {
    if position == [] then Some(value)
    else if position[0] < |Children(value)| then At(Children(value)[position[0]], position[1..])
    else None
  }

  function RefAt(value: Json, position: seq<nat>): Option<string> {
    match At(value, position)
    case Some(v) => OwnRef(v)
    case None => None
  }

  function Under(index: nat, positions: seq<seq<nat>>): (r: seq<seq<nat>>)
    ensures |r| == |positions|
    ensures forall i :: 0 <= i < |r| ==> r[i] == [index] + positions[i]
  {
    seq(|positions|, i requires 0 <= i < |positions| => [index] + positions[i])
  }

  /** The positions of all references, in the order `visit` meets them. */
  function RefPositions(value: Json): seq<seq<nat>>
    decreases Size(value), 1, 0
  {
    (if OwnRef(value).Some? then [[]] else []) + PositionsFrom(value, 0)
  }

  function PositionsFrom(value: Json, index: nat): seq<seq<nat>>
    decreases Size(value), 0, |Children(value)| - index
  {
    if index >= |Children(value)| then []
    else
      assert Children(value)[index] in Children(value);
      Under(index, RefPositions(Children(value)[index])) + PositionsFrom(value, index + 1)
  }

  /** Every position with a reference is listed, and nothing else is. */
  lemma {:induction false} PositionsComplete(value: Json, position: seq<nat>)
    ensures position in RefPositions(value) <==> RefAt(value, position).Some?
    decreases |position|
  {
    hide OwnRef;
    PositionsFromComplete(value, 0, position);
    if position != [] && position[0] < |Children(value)| {
      PositionsComplete(Children(value)[position[0]], position[1..]);
    }
  }

  lemma {:induction false} PositionsFromComplete(value: Json, index: nat, position: seq<nat>)
    ensures position in PositionsFrom(value, index) <==>
              && position != [] && index <= position[0] < |Children(value)|
              && position[1..] in RefPositions(Children(value)[position[0]])
    decreases |Children(value)| - index
  {
    hide RefPositions, Children;
    if index < |Children(value)| {
      PositionsFromComplete(value, index + 1, position);
      var here := RefPositions(Children(value)[index]);
      if position != [] && position[0] == index && position[1..] in here {
        var i :| 0 <= i < |here| && here[i] == position[1..];
        assert position == [index] + position[1..];
        assert Under(index, here)[i] == position;
      }
    }
  }

  /** No position is listed twice. */
  lemma {:induction false} PositionsDistinct(value: Json)
    ensures Distinct(RefPositions(value))
    decreases Size(value), 1, 0
  {
    hide OwnRef, Children;
    PositionsFromDistinct(value, 0);
    PositionsFromComplete(value, 0, []);
    var positions := PositionsFrom(value, 0);
    assert forall i :: 0 <= i < |positions| ==> positions[i] in positions;
  }

  lemma {:induction false} PositionsFromDistinct(value: Json, index: nat)
    ensures Distinct(PositionsFrom(value, index))
    decreases Size(value), 0, |Children(value)| - index
  {
    hide RefPositions;
    if index < |Children(value)| {
      var child := Children(value)[index];
      assert child in Children(value);
      PositionsDistinct(child);
      PositionsFromDistinct(value, index + 1);
      var here, later := Under(index, RefPositions(child)), PositionsFrom(value, index + 1);
      forall i, j | 0 <= i < j < |here| ensures here[i] != here[j] {
        assert here[i][1..] == RefPositions(child)[i] && here[j][1..] == RefPositions(child)[j];
      }
      forall i, j | 0 <= i < |here| && 0 <= j < |later| ensures here[i] != later[j] {
        PositionsFromComplete(value, index + 1, later[j]);
        assert later[j] in later;
      }
    }
  }

  function RefsAt(value: Json, positions: seq<seq<nat>>): seq<string>
    requires forall p :: p in positions ==> RefAt(value, p).Some?
  {
    seq(|positions|, i requires 0 <= i < |positions| => RefAt(value, positions[i]).value)
  }

  /** `visit` collects the reference at every position that has one, exactly once and in document order. */
  lemma VisitCollectsEachOnce(value: Json)
    ensures Distinct(RefPositions(value))
    ensures forall p :: p in RefPositions(value) <==> RefAt(value, p).Some?
    ensures Visit(value) == RefsAt(value, RefPositions(value))
  {
    PositionsDistinct(value);
    forall p ensures p in RefPositions(value) <==> RefAt(value, p).Some? {
      PositionsComplete(value, p);
    }
    VisitInOrder(value);
  }

  lemma {:induction false} VisitInOrder(value: Json)
    ensures |Visit(value)| == |RefPositions(value)|
    ensures forall i :: 0 <= i < |Visit(value)| ==> RefAt(value, RefPositions(value)[i]) == Some(Visit(value)[i])
    decreases Size(value), 1, 0
  {
    hide OwnRef, Children;
    VisitFromInOrder(value, 0);
    assert Children(value)[0..] == Children(value);
    assert At(value, []) == Some(value);
  }

  lemma {:induction false} VisitFromInOrder(value: Json, index: nat)
    requires index <= |Children(value)|
    ensures var visited := VisitAll(Children(value)[index..], Size(value));
            var positions := PositionsFrom(value, index);
            |visited| == |positions| && forall i :: 0 <= i < |visited| ==> RefAt(value, positions[i]) == Some(visited[i])
    decreases Size(value), 0, |Children(value)| - index
  {
    hide RefPositions, Visit, OwnRef;
    var children := Children(value);
    if index < |children| {
      assert children[index] in children;
      VisitInOrder(children[index]);
      VisitFromInOrder(value, index + 1);
      assert children[index..][1..] == children[index + 1..];
      var here := RefPositions(children[index]);
      forall i | 0 <= i < |here| ensures RefAt(value, Under(index, here)[i]) == RefAt(children[index], here[i]) {
        assert ([index] + here[i])[1..] == here[i];
      }
    }
  }

  // ---------------------------------------------------------------- pointers

  /** `s.replace(ab, c)` for a two-character pattern. */
  function ReplacePair(s: string, a: char, b: char, c: char): string {
    if s == "" then ""
    else if |s| > 1 && s[0] == a && s[1] == b then [c] + ReplacePair(s[2..], a, b, c)
    else [s[0]] + ReplacePair(s[1..], a, b, c)
  }

  /** Section 4 of RFC 6901: first `~1`, then `~0`. */
  function Unescape(part: string): string {
    ReplacePair(ReplacePair(part, '~', '1', '/'), '~', '0', '~')
  }

  /** Section 3 of RFC 6901. */
  function Escape(key: string): (part: string)
    ensures '/' !in part
  {
    if key == "" then ""
    else (if key[0] == '~' then "~0" else if key[0] == '/' then "~1" else [key[0]]) + Escape(key[1..])
  }

  function EscapeTilde(key: string): string {
    if key == "" then ""
    else (if key[0] == '~' then "~0" else [key[0]]) + EscapeTilde(key[1..])
  }

  lemma {:induction false} UnescapeSlash(key: string)
    ensures ReplacePair(Escape(key), '~', '1', '/') == EscapeTilde(key)
  {
    if key != "" {
      var rest := Escape(key[1..]);
      UnescapeSlash(key[1..]);
      if key[0] == '~' {
        assert Escape(key)[1..] == "0" + rest && ("0" + rest)[1..] == rest;
        assert ReplacePair("0" + rest, '~', '1', '/') == "0" + ReplacePair(rest, '~', '1', '/');
      } else if key[0] == '/' {
        assert Escape(key)[2..] == rest;
      } else {
        assert Escape(key)[1..] == rest;
      }
    }
  }

  lemma {:induction false} UnescapeTilde(key: string)
    ensures ReplacePair(EscapeTilde(key), '~', '0', '~') == key
  {
    if key != "" {
      var rest := EscapeTilde(key[1..]);
      UnescapeTilde(key[1..]);
      if key[0] == '~' {
        assert EscapeTilde(key)[2..] == rest;
      } else {
        assert EscapeTilde(key)[1..] == rest;
      }
    }
  }

  /** Unescaping undoes escaping. */
  lemma UnescapeEscape(key: string)
    ensures Unescape(Escape(key)) == key
  {
    UnescapeSlash(key);
    UnescapeTilde(key);
  }

  function Mapped(parts: seq<string>, f: string -> string): (r: seq<string>)
    ensures |r| == |parts| && forall i :: 0 <= i < |r| ==> r[i] == f(parts[i])
  {
    seq(|parts|, i requires 0 <= i < |parts| => f(parts[i]))
  }

  function Navigate(target: Json, keys: seq<string>): Option<Json>
    decreases |keys|
  {
    if keys == [] then Some(target)
    else if !target.Object? then None
    else
      match Get(target.members, keys[0])
      case None => None
      case Some(next) => Navigate(next, keys[1..])
  }

  /** The subtree a reference leads to; `None` where the check raises. */
  function Resolve(document: Json, reference: string): Option<Json> {
    if !StartsWith(reference, "#/") then None
    else Navigate(document, Mapped(Split(reference[2..], '/'), Unescape))
  }

  /** The reference that names a list of keys. */
  function Pointer(keys: seq<string>): string {
    "#/" + Join(Mapped(keys, Escape), "/")
  }

  /** Only references into the document itself resolve. */
  lemma OnlyLocalReferencesResolve(document: Json, reference: string)
    ensures Resolve(document, reference).Some? ==> |reference| >= 2 && reference[0] == '#' && reference[1] == '/'
  {
  }

  /** Any non-empty list of keys, whatever characters they hold, is reached by its pointer. */
  lemma PointerResolves(document: Json, keys: seq<string>)
    requires keys != []
    ensures Resolve(document, Pointer(keys)) == Navigate(document, keys)
  {
    var parts := Mapped(keys, Escape);
    forall p | p in parts ensures '/' !in p {
      var i :| 0 <= i < |parts| && parts[i] == p;
    }
    SplitJoin(parts, '/');
    assert Pointer(keys)[2..] == Join(parts, "/");
    assert Mapped(parts, Unescape) == keys by {
      forall i | 0 <= i < |keys| ensures Mapped(parts, Unescape)[i] == keys[i] {
        UnescapeEscape(keys[i]);
      }
    }
  }

  /** `_validate_schema_references`: accepts exactly the documents all of whose references resolve, and counts them. */
  method ValidateSchemaReferences(document: Json) returns (r: Result<nat>)
    ensures r.Ok? <==> forall reference :: reference in Visit(document) ==> Resolve(document, reference).Some?
    ensures r.Ok? ==> r.value == |Visit(document)|
  {
    hide Visit, Resolve;
    var references := VisitInto(document, []);
    assert references == Visit(document);
    for i := 0 to |references|
      invariant forall k :: 0 <= k < i ==> Resolve(document, references[k]).Some?
    {
      assert references[i] in Visit(document);
      var found := Resolves(document, references[i]);
      if !found {
        return Raised("OpenAPI schema reference is not local or does not resolve");
      }
    }
    return Ok(|references|);
  }

  /** The navigation loop for one reference. */
  method Resolves(document: Json, reference: string) returns (found: bool)
    ensures found <==> Resolve(document, reference).Some?
  {
    if !StartsWith(reference, "#/") {
      return false;
    }
    hide Split, Unescape;
    var target := document;
    var keys := Mapped(Split(reference[2..], '/'), Unescape);
    assert keys[0..] == keys;
    for k := 0 to |keys|
      invariant Navigate(document, keys) == Navigate(target, keys[k..])
    {
      assert keys[k..][0] == keys[k] && keys[k..][1..] == keys[k + 1..];
      if !target.Object? {
        return false;
      }
      var next := Get(target.members, keys[k]);
      if next.None? {
        return false;
      }
      target := next.value;
    }
    return true;
  }

  // ---------------------------------------------------------------- the coverage walk

  /** No `~0` and no `~1`. */
  predicate Plain(name: string) {
    forall i :: 0 <= i < |name| - 1 && name[i] == '~' ==> name[i + 1] != '0' && name[i + 1] != '1'
  }

  lemma {:induction false} ReplacePairFixed(s: string, b: char, c: char)
    ensures |ReplacePair(s, '~', b, c)| <= |s|
    ensures ReplacePair(s, '~', b, c) == s <==> forall i :: 0 <= i < |s| - 1 && s[i] == '~' ==> s[i + 1] != b
    ensures ReplacePair(s, '~', b, c) != s ==> |ReplacePair(s, '~', b, c)| < |s|
  {
    if s == "" {
    } else if |s| > 1 && s[0] == '~' && s[1] == b {
      ReplacePairFixed(s[2..], b, c);
    } else {
      ReplacePairFixed(s[1..], b, c);
      assert s == [s[0]] + s[1..];
      assert forall i :: 1 <= i < |s| ==> s[i] == s[1..][i - 1];
    }
  }

  /** A name is its own unescaped form exactly when it holds no escape sequence. */
  lemma UnescapeFixed(name: string)
    ensures Unescape(name) == name <==> Plain(name)
  {
    var once := ReplacePair(name, '~', '1', '/');
    ReplacePairFixed(name, '1', '/');
    ReplacePairFixed(once, '0', '~');
  }

  /** A document with the given component schemas. */
  function WithComponents(components: seq<Member>): Json {
    Object([Member("components", Object([Member("schemas", Object(components))]))])
  }

  lemma SplitFour(a: string, b: string, c: string, d: string)
    requires '/' !in a && '/' !in b && '/' !in c && '/' !in d
    ensures Split(b + "/" + c + "/" + d, '/') == [b, c, d]
    ensures Split(a + "/" + b + "/" + c + "/" + d, '/') == [a, b, c, d]
  {
    hide Split;
    SplitNone(d, '/');
    SplitPrefix(c, '/', d);
    assert b + "/" + c + "/" + d == b + ['/'] + (c + ['/'] + d);
    SplitPrefix(b, '/', c + ['/'] + d);
    assert a + "/" + b + "/" + c + "/" + d == a + ['/'] + (b + ['/'] + (c + ['/'] + d));
    SplitPrefix(a, '/', b + ['/'] + (c + ['/'] + d));
  }

  lemma ComponentParts(name: string)
    requires '/' !in name
    ensures SF.LastPart(SF.COMPONENT_PREFIX + name) == name
    ensures StartsWith(SF.COMPONENT_PREFIX + name, "#/")
    ensures Split((SF.COMPONENT_PREFIX + name)[2..], '/') == ["components", "schemas", name]
  {
    hide Split;
    SplitFour("#", "components", "schemas", name);
    PrefixText(name);
  }

  lemma PrefixText(name: string)
    ensures SF.COMPONENT_PREFIX + name == "#" + "/" + "components" + "/" + "schemas" + "/" + name
    ensures (SF.COMPONENT_PREFIX + name)[2..] == "components" + "/" + "schemas" + "/" + name
  {
    assert SF.COMPONENT_PREFIX == "#" + "/" + "components" + "/" + "schemas" + "/";
  }

  /** Where a one-name component reference leads, by pointer. */
  lemma ComponentTarget(document: Json, components: seq<Member>, name: string)
    requires '/' !in name && Navigate(document, ["components", "schemas"]) == Some(Object(components))
    ensures Resolve(document, SF.COMPONENT_PREFIX + name) == Get(components, Unescape(name))
  {
    hide Split, Unescape, Navigate;
    ComponentParts(name);
    PlainLiteral("components");
    PlainLiteral("schemas");
    var keys := ["components", "schemas", Unescape(name)];
    assert Mapped(["components", "schemas", name], Unescape) == keys;
    NavigateThree(document, components, Unescape(name));
  }

  lemma PlainLiteral(word: string)
    requires '~' !in word
    ensures Unescape(word) == word
  {
    assert forall i :: 0 <= i < |word| ==> word[i] in word;
    UnescapeFixed(word);
  }

  lemma NavigateThree(document: Json, components: seq<Member>, key: string)
    requires Navigate(document, ["components", "schemas"]) == Some(Object(components))
    ensures Navigate(document, ["components", "schemas", key]) == Get(components, key)
  {
    var two, three := ["components", "schemas"], ["components", "schemas", key];
    NavigateStep(document, "components", ["schemas"]);
    NavigateStep(document, "components", ["schemas", key]);
    assert two == ["components"] + ["schemas"] && three == ["components"] + ["schemas", key];
    var inner := Get(document.members, "components").value;
    NavigateStep(inner, "schemas", []);
    NavigateStep(inner, "schemas", [key]);
    assert ["schemas"] == ["schemas"] + [] && ["schemas", key] == ["schemas"] + [key];
    NavigateStep(Object(components), key, []);
    assert [key] == [key] + [];
  }

  lemma NavigateStep(target: Json, key: string, rest: seq<string>)
    ensures Navigate(target, [key] + rest) ==
            if target.Object? && Get(target.members, key).Some? then Navigate(Get(target.members, key).value, rest) else None
  {
    assert ([key] + rest)[1..] == rest;
  }

  /**
   In an accepted document no plain one-name component reference falls to the walk's empty
   default: the component exists and is the schema its JSON Pointer names.
   */
  lemma PlainRefsHaveComponents(document: Json, components: seq<Member>, name: string)
    requires forall reference :: reference in Visit(document) ==> Resolve(document, reference).Some?
    requires Navigate(document, ["components", "schemas"]) == Some(Object(components))
    requires SF.COMPONENT_PREFIX + name in Visit(document) && '/' !in name && Plain(name)
    ensures Get(components, name).Some?
    ensures Resolve(document, SF.COMPONENT_PREFIX + name) == Some(SF.Component(components,
            SF.LastPart(SF.COMPONENT_PREFIX + name)))
  {
    ComponentParts(name);
    ComponentTarget(document, components, name);
    UnescapeFixed(name);
  }

  /** One member that is not itself a reference passes its references on. */
  lemma VisitThrough(key: string, value: Json)
    requires !value.String?
    ensures Visit(Object([Member(key, value)])) == Visit(value)
  {
    var parent := Object([Member(key, value)]);
    assert Children(parent) == [value];
    assert OwnRef(parent).None?;
    assert VisitAll([value], Size(parent)) == Visit(value) + VisitAll([], Size(parent));
  }

  lemma VisitReference(reference: string)
    ensures Visit(Object([Member("$ref", String(reference))])) == [reference]
  {
    var value := Object([Member("$ref", String(reference))]);
    assert Children(value) == [String(reference)];
    assert Visit(String(reference)) == [];
    assert VisitAll([String(reference)], Size(value)) == [] + VisitAll([], Size(value));
  }

  /** A document whose one component refers to itself by this name; the name is a pointer's way of writing the key. */
  function SelfReferring(name: string): seq<Member> {
    [Member(Unescape(name), Object([Member("$ref", String(SF.COMPONENT_PREFIX + name))]))]
  }

  lemma SelfReferringIsAccepted(name: string)
    requires '/' !in name
    ensures var document := WithComponents(SelfReferring(name));
            && Visit(document) == [SF.COMPONENT_PREFIX + name]
            && Resolve(document, SF.COMPONENT_PREFIX + name).Some?
    ensures Get(SelfReferring(name), name).Some? <==> Plain(name)
  {
    hide Visit, Resolve, Unescape, Navigate;
    var components := SelfReferring(name);
    var reference := SF.COMPONENT_PREFIX + name;
    VisitReference(reference);
    VisitThrough(Unescape(name), Object([Member("$ref", String(reference))]));
    VisitThrough("schemas", Object(components));
    VisitThrough("components", Object([Member("schemas", Object(components))]));
    WithComponentsNavigates(components);
    ComponentTarget(WithComponents(components), components, name);
    UnescapeFixed(name);
  }

  /** In this document the check is passed, and where it holds this reference the walk finds the component. */
  ghost predicate WalkFinds(document: Json, components: seq<Member>, name: string) {
    && Navigate(document, ["components", "schemas"]) == Some(Object(components))
    && (forall reference :: reference in Visit(document) ==> Resolve(document, reference).Some?)
    && SF.COMPONENT_PREFIX + name in Visit(document)
    ==> Get(components, name).Some?
  }

  /**
   No accepted document lets a one-name component reference fall to the walk's empty default if and only if the name holds
   no escape sequence.
   */
  lemma ReferencesHaveComponentsExactly(name: string)
    requires '/' !in name
    ensures (forall document, components :: WalkFinds(document, components, name)) <==> Plain(name)
  {
    hide Visit, Resolve, Navigate, SelfReferring;
    if Plain(name) {
      forall document, components ensures WalkFinds(document, components, name) {
        PlainReferenceFound(document, components, name);
      }
    } else {
      var components := SelfReferring(name);
      SelfReferringIsAccepted(name);
      WithComponentsNavigates(components);
      assert !WalkFinds(WithComponents(components), components, name);
    }
  }

  lemma PlainReferenceFound(document: Json, components: seq<Member>, name: string)
    requires '/' !in name && Plain(name)
    ensures WalkFinds(document, components, name)
  {
    hide Visit, Resolve, Navigate;
    if && Navigate(document, ["components", "schemas"]) == Some(Object(components))
       && (forall reference :: reference in Visit(document) ==> Resolve(document, reference).Some?)
       && SF.COMPONENT_PREFIX + name in Visit(document)
    {
      PlainRefsHaveComponents(document, components, name);
    }
  }

  /**
   For a one-name component reference, walk and pointer agree on every document exactly when the
   name holds no escape sequence: the walk does not unescape.
   */
  lemma WalkAgreesWithPointerExactly(name: string)
    requires '/' !in name
    ensures (forall components: seq<Member> ::
               Resolve(WithComponents(components), SF.COMPONENT_PREFIX + name)
               == Get(components, SF.LastPart(SF.COMPONENT_PREFIX + name)))
            <==> Plain(name)
  {
    UnescapeFixed(name);
    ComponentParts(name);
    forall components: seq<Member>
      ensures Resolve(WithComponents(components), SF.COMPONENT_PREFIX + name) == Get(components, Unescape(name))
    {
      WithComponentsNavigates(components);
      ComponentTarget(WithComponents(components), components, name);
    }
    if !Plain(name) {
      var components := [Member(Unescape(name), Null)];
      assert Get(components, Unescape(name)) == Some(Null);
      assert Get(components, name) == None;
      assert Resolve(WithComponents(components), SF.COMPONENT_PREFIX + name) == Some(Null);
    }
  }

  lemma WithComponentsNavigates(components: seq<Member>)
    ensures Navigate(WithComponents(components), ["components", "schemas"]) == Some(Object(components))
  {
    var inner := Object([Member("schemas", Object(components))]);
    NavigateStep(WithComponents(components), "components", ["schemas"]);
    NavigateStep(inner, "schemas", []);
    assert ["components", "schemas"] == ["components"] + ["schemas"] && ["schemas"] == ["schemas"] + [];
  }
}
