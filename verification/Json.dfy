/** JSON values as `json.loads` builds them: objects keep their members in document order. */
module Json {
  import opened PyText
  import opened Sorting

  datatype Member = Member(key: string, value: Json)

  datatype Json =
    | Null
    | Bool(truth: bool)
    | Number(number: int)
    | String(text: string)
    | Array(items: seq<Json>)
    | Object(members: seq<Member>)

  /** `mapping.get(key)`. */
  function Get(members: seq<Member>, key: string): (r: Option<Json>)
    ensures r.Some? ==> Member(key, r.value) in members
    ensures r.None? <==> forall m :: m in members ==> m.key != key
  {
    if members == [] then None
    else if members[0].key == key then Some(members[0].value)
    else
      assert members == [members[0]] + members[1..];
      Get(members[1..], key)
  }

  /** `mapping[key] = value` on a mapping in key order: replaces the value, or inserts the key in its place. */
  function Put(members: seq<Member>, key: string, value: Json): seq<Member> {
    if members == [] then [Member(key, value)]
    else if members[0].key == key then [Member(key, value)] + members[1..]
    else if StringLe(key, members[0].key) then [Member(key, value)] + members
    else [members[0]] + Put(members[1..], key, value)
  }

  lemma {:induction false} GetPut(members: seq<Member>, key: string, value: Json, other: string)
    ensures Get(Put(members, key, value), other) == if other == key then Some(value) else Get(members, other)
  {
    hide StringLe;
    if members == [] {
    } else if members[0].key == key {
      assert Put(members, key, value)[1..] == members[1..];
    } else if StringLe(key, members[0].key) {
      assert Put(members, key, value)[1..] == members;
    } else {
      GetPut(members[1..], key, value, other);
      assert Put(members, key, value)[1..] == Put(members[1..], key, value);
    }
  }

  /** A mapping as `sort_keys` writes it: each key once, in code-point order. */
  predicate KeyOrdered(members: seq<Member>) {
    forall i, j :: 0 <= i < j < |members| ==> members[i].key != members[j].key && StringLe(members[i].key, members[j].key)
  }

  lemma {:induction false} PutMembers(members: seq<Member>, key: string, value: Json)
    ensures forall m :: m in Put(members, key, value) ==> m == Member(key, value) || m in members
  {
    hide StringLe;
    if members != [] {
      assert members == [members[0]] + members[1..];
      if members[0].key != key && !StringLe(key, members[0].key) {
        PutMembers(members[1..], key, value);
      }
    }
  }

  /** Assigning a key keeps the order, so the file written is the mapping held. */
  lemma {:induction false} PutKeepsOrder(members: seq<Member>, key: string, value: Json)
    requires KeyOrdered(members)
    ensures KeyOrdered(Put(members, key, value))
  {
    if members != [] {
      var head, rest := members[0], members[1..];
      StringOrder();
      hide StringLe;
      assert members == [head] + rest;
      if head.key == key {
        var out := Put(members, key, value);
        assert forall i :: 0 <= i < |members| ==> out[i].key == members[i].key;
      } else if StringLe(key, head.key) {
        forall j | 0 <= j < |members| ensures key != members[j].key && StringLe(key, members[j].key) {
          assert j > 0 ==> StringLe(head.key, members[j].key) && head.key != members[j].key;
        }
        OrderedCons(Member(key, value), members);
      } else {
        PutKeepsOrder(rest, key, value);
        PutMembers(rest, key, value);
        var tail := Put(rest, key, value);
        forall j | 0 <= j < |tail| ensures head.key != tail[j].key && StringLe(head.key, tail[j].key) {
          assert tail[j] in tail;
          if tail[j] != Member(key, value) {
            var k :| 0 <= k < |rest| && rest[k] == tail[j];
            assert members[k + 1] == rest[k];
          }
        }
        OrderedCons(head, tail);
      }
    }
  }

  lemma OrderedCons(head: Member, tail: seq<Member>)
    requires KeyOrdered(tail) && forall j :: 0 <= j < |tail| ==> head.key != tail[j].key && StringLe(head.key, tail[j].key)
    ensures KeyOrdered([head] + tail)
  {
    hide StringLe;
    var out := [head] + tail;
    assert forall j :: 1 <= j < |out| ==> out[j] == tail[j - 1];
  }

  /** In key order, equal mappings are equal lists. */
  lemma {:induction false} OrderedMappingsAreEqual(a: seq<Member>, b: seq<Member>)
    requires KeyOrdered(a) && KeyOrdered(b) && forall key :: Get(a, key) == Get(b, key)
    ensures a == b
  {
    assert a != [] ==> Get(a, a[0].key).Some?;
    assert b != [] ==> Get(b, b[0].key).Some?;
    if a != [] && b != [] {
      StringOrder();
      hide StringLe;
      FirstKey(a, b);
      FirstKey(b, a);
      var key := a[0].key;
      assert Get(a, key) == Get(b, key) && a[0] == b[0];
      forall other ensures Get(a[1..], other) == Get(b[1..], other) {
        assert Get(a, other) == Get(b, other);
        if other == key {
          NotBehind(a);
          NotBehind(b);
        }
      }
      OrderedMappingsAreEqual(a[1..], b[1..]);
    }
  }

  lemma FirstKey(a: seq<Member>, b: seq<Member>)
    requires a != [] && b != [] && KeyOrdered(b) && forall key :: Get(a, key) == Get(b, key)
    requires forall x :: StringLe(x, x)
    ensures StringLe(b[0].key, a[0].key)
  {
    hide StringLe;
    assert Get(b, a[0].key) == Get(a, a[0].key) && Get(a, a[0].key).Some?;
    var j :| 0 <= j < |b| && b[j].key == a[0].key;
  }

  lemma NotBehind(a: seq<Member>)
    requires a != [] && KeyOrdered(a)
    ensures Get(a[1..], a[0].key) == None
  {
    hide StringLe;
    forall m | m in a[1..] ensures m.key != a[0].key {
      var k :| 0 <= k < |a[1..]| && a[1..][k] == m;
      assert a[k + 1] == m;
    }
  }

  function Size(j: Json): nat
    decreases j, 0
  {
    match j
    case Array(items) => 1 + SizeOfItems(items)
    case Object(members) => 1 + SizeOfMembers(members)
    case _ => 1
  }

  function SizeOfItems(items: seq<Json>): nat
    decreases items, 1
  {
    if items == [] then 0 else Size(items[0]) + SizeOfItems(items[1..])
  }

  function SizeOfMembers(members: seq<Member>): nat
    decreases members, 1
  {
    if members == [] then 0 else Size(members[0].value) + SizeOfMembers(members[1..])
  }

  lemma {:induction false} MemberIsSmaller(members: seq<Member>, m: Member)
    requires m in members
    ensures Size(m.value) <= SizeOfMembers(members)
  {
    if m != members[0] {
      MemberIsSmaller(members[1..], m);
    }
  }

  lemma {:induction false} ItemIsSmaller(items: seq<Json>, i: nat)
    requires i < |items|
    ensures Size(items[i]) <= SizeOfItems(items)
  {
    if i > 0 {
      ItemIsSmaller(items[1..], i - 1);
    }
  }

  lemma SizeIsPositive(j: Json)
    ensures Size(j) >= 1
  {
  }

  /** `_as_mapping` and `_as_list`: anything else counts as empty. */
  function AsMapping(j: Option<Json>): (members: seq<Member>)
    ensures members != [] ==> j == Some(Object(members))
  {
    match j
    case Some(Object(members)) => members
    case _ => []
  }

  function AsList(j: Option<Json>): (items: seq<Json>)
    ensures items != [] ==> j == Some(Array(items))
  {
    match j
    case Some(Array(items)) => items
    case _ => []
  }
}
