/** The node model of `GraphNode`: node values, the attribute dictionary, the outgoing
    edges (`get_related`), the compact pointer (`ref`) and the flat record (`serialize`).
    Nodes live in an arena (see module Heap); a `Handle` is a node's position there and
    stands for the Python object's identity. */
module Nodes {

  type Handle = nat

  datatype Option<T> = None | Some(value: T)

  /** The scalar attribute values the formatters store: strings read from the input,
      the boolean `is_deleted`, the integer `order_cited`, and Python's `None`. */
  datatype Scalar = Str(s: string) | Bool(b: bool) | Int(i: int) | Null

  /** An attribute value: a scalar, a single node, or a list of nodes. */
  datatype Value = Scalar(sc: Scalar) | Node(h: Handle) | List(hs: seq<Handle>)

  /** A Python `dict` of attributes, as its items in insertion order. */
  type Attrs = seq<(string, Value)>

  /** One `GraphNode`: its identifier, its (lower-cased) type and its attributes. */
  datatype NodeData = NodeData(id: string, kind: string, attrs: Attrs)

  /** A value in a serialized record: a scalar copied verbatim, or the
      `{'@id': id, '@type': type}` pointer to another node. */
  datatype Field = Lit(sc: Scalar) | Pointer(id: string, kind: string)

  /** A serialized record, a `dict` from field names to fields. */
  type Record = map<string, Field>

  const IdKey := "@id"
  const TypeKey := "@type"

  // ----- the attribute dictionary -----

  function Keys(attrs: Attrs): set<string> {
    set i | 0 <= i < |attrs| :: attrs[i].0
  }

  lemma KeysCons(x: (string, Value), rest: Attrs)
    ensures Keys([x] + rest) == {x.0} + Keys(rest)
  {
    var a := [x] + rest;
    forall k | k in Keys(rest) ensures k in Keys(a) {
      var i :| 0 <= i < |rest| && rest[i].0 == k;
      assert a[i + 1] == rest[i];
    }
    assert a[0] == x;
  }

  lemma KeysSnoc(rest: Attrs, x: (string, Value))
    ensures Keys(rest + [x]) == Keys(rest) + {x.0}
  {
    var a := rest + [x];
    forall k | k in Keys(rest) ensures k in Keys(a) {
      var i :| 0 <= i < |rest| && rest[i].0 == k;
      assert a[i] == rest[i];
    }
    assert a[|rest|] == x;
  }

  /** Dictionary keys are unique. */
  predicate UniqueKeys(attrs: Attrs) {
    forall i, j :: 0 <= i < j < |attrs| ==> attrs[i].0 != attrs[j].0
  }

  /** `attrs.get(key)`. */
  function Get(attrs: Attrs, key: string): (r: Option<Value>)
    ensures r.Some? <==> key in Keys(attrs)
    ensures r.Some? ==> exists i :: 0 <= i < |attrs| && attrs[i] == (key, r.value)
  {
    if |attrs| == 0 then None
    else if attrs[0].0 == key then Some(attrs[0].1)
    else
      var r := Get(attrs[1..], key);
      assert attrs == [attrs[0]] + attrs[1..];
      KeysCons(attrs[0], attrs[1..]);
      assert r.Some? ==> exists i :: 0 <= i < |attrs[1..]| && attrs[1..][i] == (key, r.value);
      r
  }

  /** With unique keys, `Get` finds the one entry holding the key. */
  lemma {:induction false} GetUnique(attrs: Attrs, i: nat)
    requires UniqueKeys(attrs) && i < |attrs|
    ensures Get(attrs, attrs[i].0) == Some(attrs[i].1)
  {
    if i > 0 {
      assert attrs[1..][i - 1] == attrs[i];
      GetUnique(attrs[1..], i - 1);
    }
  }

  /** `attrs[key] = v`: an existing key keeps its position and takes the new value, a
      new key is appended; every other entry is kept. */
  function Put(attrs: Attrs, key: string, v: Value): (r: Attrs)
    ensures Keys(r) == Keys(attrs) + {key}
    ensures key in Keys(attrs) ==> |r| == |attrs|
    ensures key !in Keys(attrs) ==> r == attrs + [(key, v)]
  {
    if |attrs| == 0 then
      KeysCons((key, v), []);
      assert [(key, v)] + [] == [(key, v)];
      [(key, v)]
    else if attrs[0].0 == key then
      assert attrs == [attrs[0]] + attrs[1..];
      KeysCons(attrs[0], attrs[1..]);
      KeysCons((key, v), attrs[1..]);
      [(key, v)] + attrs[1..]
    else
      var tail := Put(attrs[1..], key, v);
      assert attrs == [attrs[0]] + attrs[1..];
      KeysCons(attrs[0], attrs[1..]);
      KeysCons(attrs[0], tail);
      [attrs[0]] + tail
  }

  /** With unique keys, `attrs[key] = v` leaves every entry in its position: the one
      holding `key` takes `v`, the others are kept. */
  lemma {:induction false} PutInPlace(attrs: Attrs, key: string, v: Value)
    requires UniqueKeys(attrs)
    ensures var r := Put(attrs, key, v);
      forall i :: 0 <= i < |attrs| ==> r[i] == (if attrs[i].0 == key then (key, v) else attrs[i])
  {
    var r := Put(attrs, key, v);
    if |attrs| > 0 && attrs[0].0 != key {
      forall i, j | 0 <= i < j < |attrs[1..]| ensures attrs[1..][i].0 != attrs[1..][j].0 {
        assert attrs[1..][i] == attrs[i + 1] && attrs[1..][j] == attrs[j + 1];
      }
      PutInPlace(attrs[1..], key, v);
      forall i | 0 < i < |attrs| ensures r[i] == (if attrs[i].0 == key then (key, v) else attrs[i]) {
        assert r[i] == Put(attrs[1..], key, v)[i - 1] && attrs[i] == attrs[1..][i - 1];
      }
    }
  }

  /** After `attrs[key] = v`, looking up `key` gives `v` and every other lookup is as
      before. */
  lemma {:induction false} PutGet(attrs: Attrs, key: string, v: Value)
    ensures Get(Put(attrs, key, v), key) == Some(v)
    ensures forall k :: k != key ==> Get(Put(attrs, key, v), k) == Get(attrs, k)
  {
    var r := Put(attrs, key, v);
    if |attrs| > 0 {
      if attrs[0].0 == key {
        assert r[0] == (key, v) && r[1..] == attrs[1..];
      } else {
        PutGet(attrs[1..], key, v);
        assert r[0] == attrs[0] && r[1..] == Put(attrs[1..], key, v);
      }
    }
  }

  /** `attrs[key] = v` keeps the keys unique. */
  lemma {:induction false} PutUnique(attrs: Attrs, key: string, v: Value)
    requires UniqueKeys(attrs)
    ensures UniqueKeys(Put(attrs, key, v))
  {
    var r := Put(attrs, key, v);
    if |attrs| > 0 {
      if attrs[0].0 == key {
        assert r[0] == (key, v) && r[1..] == attrs[1..];
        forall i, j | 0 <= i < j < |r| ensures r[i].0 != r[j].0 {
          assert r[j] == attrs[j];
          if i > 0 { assert r[i] == attrs[i]; }
        }
      } else {
        var tail := Put(attrs[1..], key, v);
        PutUnique(attrs[1..], key, v);
        assert r[0] == attrs[0] && r[1..] == tail;
        forall j | 0 <= j < |attrs[1..]| ensures attrs[1..][j].0 != attrs[0].0 {
          assert attrs[1..][j] == attrs[j + 1];
        }
        assert attrs[0].0 !in Keys(attrs[1..]);
        assert attrs[0].0 !in Keys(tail);
        forall i, j | 0 <= i < j < |r| ensures r[i].0 != r[j].0 {
          if i == 0 {
            assert r[j] == tail[j - 1];
            assert r[j].0 in Keys(tail);
          } else {
            assert r[i] == tail[i - 1] && r[j] == tail[j - 1];
          }
        }
      }
    }
  }

  // ----- get_related -----

  /** The nodes one attribute value contributes to `get_related`. */
  function Yielded(v: Value): seq<Handle> {
    match v
    case Node(h) => [h]
    case List(hs) => hs
    case Scalar(_) => []
  }

  /** `get_related()`: for each attribute in order, the node it holds or every node of
      the list it holds. */
  function RelatedOf(attrs: Attrs): seq<Handle> {
    if |attrs| == 0 then [] else Yielded(attrs[0].1) + RelatedOf(attrs[1..])
  }

  /** `get_related` yields exactly the node-valued attributes and the elements of the
      list-valued ones; scalar attributes contribute nothing. */
  lemma {:induction false} RelatedOfMembers(attrs: Attrs)
    ensures forall x :: x in RelatedOf(attrs) <==>
      exists i :: 0 <= i < |attrs| && (attrs[i].1 == Node(x) || (attrs[i].1.List? && x in attrs[i].1.hs))
  {
    if |attrs| > 0 {
      RelatedOfMembers(attrs[1..]);
      forall x ensures x in RelatedOf(attrs) <==>
        exists i :: 0 <= i < |attrs| && (attrs[i].1 == Node(x) || (attrs[i].1.List? && x in attrs[i].1.hs))
      {
        if x in RelatedOf(attrs[1..]) {
          var i :| 0 <= i < |attrs[1..]| && (attrs[1..][i].1 == Node(x) || (attrs[1..][i].1.List? && x in attrs[1..][i].1.hs));
          assert attrs[i + 1] == attrs[1..][i];
        }
        if exists i :: 0 <= i < |attrs| && (attrs[i].1 == Node(x) || (attrs[i].1.List? && x in attrs[i].1.hs)) {
          var i :| 0 <= i < |attrs| && (attrs[i].1 == Node(x) || (attrs[i].1.List? && x in attrs[i].1.hs));
          if i > 0 { assert attrs[1..][i - 1] == attrs[i]; }
        }
      }
    }
  }

  /** The edges of a whole dictionary are those of its parts, in order. */
  lemma {:induction false} RelatedOfAppend(a: Attrs, b: Attrs)
    ensures RelatedOf(a + b) == RelatedOf(a) + RelatedOf(b)
  {
    if |a| == 0 {
      assert a + b == b;
    } else {
      assert (a + b)[0] == a[0];
      assert (a + b)[1..] == a[1..] + b;
      RelatedOfAppend(a[1..], b);
    }
  }

  // ----- bounds on the handles a node holds -----

  /** Every node an attribute value refers to lies in `[lo, hi)`. */
  predicate ValueWithin(v: Value, lo: nat, hi: nat) {
    forall k :: 0 <= k < |Yielded(v)| ==> lo <= Yielded(v)[k] < hi
  }

  predicate AttrsWithin(attrs: Attrs, lo: nat, hi: nat) {
    forall i :: 0 <= i < |attrs| ==> ValueWithin(attrs[i].1, lo, hi)
  }

  /** The edges of a dictionary whose values lie in `[lo, hi)` lie there too. */
  lemma RelatedWithin(attrs: Attrs, lo: nat, hi: nat)
    requires AttrsWithin(attrs, lo, hi)
    ensures forall x :: x in RelatedOf(attrs) ==> lo <= x < hi
  {
    RelatedOfMembers(attrs);
    forall x | x in RelatedOf(attrs) ensures lo <= x < hi {
      var i :| 0 <= i < |attrs| && (attrs[i].1 == Node(x) || (attrs[i].1.List? && x in attrs[i].1.hs));
      assert ValueWithin(attrs[i].1, lo, hi);
      var k :| 0 <= k < |Yielded(attrs[i].1)| && Yielded(attrs[i].1)[k] == x;
    }
  }

  /** A graph in which every node refers only to nodes of the graph. */
  predicate Closed(g: seq<NodeData>) {
    forall h :: 0 <= h < |g| ==> AttrsWithin(g[h].attrs, 0, |g|)
  }

  /** `get_related()` of the node at `h`. */
  function Related(g: seq<NodeData>, h: Handle): seq<Handle>
    requires h < |g|
  {
    RelatedOf(g[h].attrs)
  }

  // ----- ref and serialize -----

  /** `ref`: a pointer `{'@id': id, '@type': type}` naming a node. */
  function Ref(n: NodeData): (r: Field)
    ensures r.Pointer? && r.id == n.id && r.kind == n.kind
  {
    Pointer(n.id, n.kind)
  }

  /** `ref` spelt out as the two leading entries of `serialize`'s record. */
  function RefRecord(n: NodeData): Record {
    map[IdKey := Lit(Str(n.id)), TypeKey := Lit(Str(n.kind))]
  }

  /** What `serialize` stores for one attribute value: a node becomes its pointer; a
      list, `None` and `''` are left out; every other scalar is kept verbatim. */
  function Emit(g: seq<NodeData>, v: Value): (f: Option<Field>)
    requires ValueWithin(v, 0, |g|)
  {
    match v
    case Node(x) =>
      assert Yielded(v)[0] == x;
      Some(Ref(g[x]))
    case List(_) => None
    case Scalar(sc) => if sc == Null || sc == Str("") then None else Some(Lit(sc))
  }

  /** The attribute part of `serialize`'s record. */
  function SerializedAttrs(g: seq<NodeData>, attrs: Attrs): Record
    requires AttrsWithin(attrs, 0, |g|)
  {
    map k | k in Keys(attrs) && Emit(g, Get(attrs, k).value).Some? :: Emit(g, Get(attrs, k).value).value
  }

  /** `serialize()`: `dict(self.ref, **ser)`, so an attribute entry would override the
      `@id`/`@type` entries if a node had attributes of those names. */
  function Serialized(g: seq<NodeData>, n: NodeData): Record
    requires AttrsWithin(n.attrs, 0, |g|)
  {
    RefRecord(n) + SerializedAttrs(g, n.attrs)
  }

  /** No attribute is named `@id` or `@type`, so none overrides the `ref` entries. */
  predicate NoReservedKeys(attrs: Attrs) {
    forall i :: 0 <= i < |attrs| ==> attrs[i].0 != IdKey && attrs[i].0 != TypeKey
  }

  /** Storing any key other than `@id` and `@type` keeps the reserved keys out. */
  lemma PutNoReserved(attrs: Attrs, key: string, v: Value)
    requires NoReservedKeys(attrs) && key != IdKey && key != TypeKey
    ensures NoReservedKeys(Put(attrs, key, v))
  {
    var r := Put(attrs, key, v);
    forall i | 0 <= i < |r| ensures r[i].0 != IdKey && r[i].0 != TypeKey {
      assert r[i].0 in Keys(r);
      if r[i].0 != key {
        var j :| 0 <= j < |attrs| && attrs[j].0 == r[i].0;
      }
    }
  }

  /** `serialize()` as the source writes it, a loop over the attribute items that
      fills `ser` and then puts `ref` in front of it. */
  method Serialize(g: seq<NodeData>, h: Handle) returns (rec: Record)
    requires h < |g| && Closed(g) && UniqueKeys(g[h].attrs)
    ensures rec == Serialized(g, g[h])
  {
    var attrs := g[h].attrs;
    var ser: Record := map[];
    for i := 0 to |attrs|
      invariant AttrsWithin(attrs[..i], 0, |g|)
      invariant ser == SerializedAttrs(g, attrs[..i])
    {
      var key := attrs[i].0;
      var value := attrs[i].1;
      assert ValueWithin(value, 0, |g|);
      SerializeStep(g, attrs, i);
      match value {
        case Node(x) =>
          assert Yielded(value)[0] == x;
          ser := ser[key := Ref(g[x])];
        case List(_) =>
        case Scalar(sc) =>
          if sc != Null && sc != Str("") {
            ser := ser[key := Lit(sc)];
          }
      }
    }
    assert attrs[..|attrs|] == attrs;
    rec := RefRecord(g[h]) + ser;
  }

  /** One iteration of `serialize`'s loop: the record of a longer prefix of the items
      is that of the shorter one plus the entry of the next item, if it has one. */
  lemma SerializeStep(g: seq<NodeData>, attrs: Attrs, i: nat)
    requires i < |attrs| && UniqueKeys(attrs) && AttrsWithin(attrs, 0, |g|)
    ensures AttrsWithin(attrs[..i], 0, |g|) && AttrsWithin(attrs[..i + 1], 0, |g|)
    ensures var prev := SerializedAttrs(g, attrs[..i]);
            var e := Emit(g, attrs[i].1);
            SerializedAttrs(g, attrs[..i + 1]) == if e.Some? then prev[attrs[i].0 := e.value] else prev
  {
    var a := attrs[..i];
    var b := attrs[..i + 1];
    assert b == a + [attrs[i]];
    var key := attrs[i].0;
    KeysSnoc(a, attrs[i]);
    forall j | 0 <= j < |a| ensures a[j].0 != key {
      assert a[j] == attrs[j];
    }
    PrefixGet(attrs, i);
    var prev := SerializedAttrs(g, a);
    var next := SerializedAttrs(g, b);
    var e := Emit(g, attrs[i].1);
    var target := if e.Some? then prev[key := e.value] else prev;
    assert key !in Keys(a);
    forall k ensures (k in next <==> k in target) && (k in next ==> next[k] == target[k]) {
      if k != key && k in Keys(a) {
        assert Get(b, k) == Get(a, k);
      }
    }
    assert next == target;
  }

  /** Extending a prefix of a dictionary with unique keys by its next item adds that
      item's key and leaves every other lookup as it was. */
  lemma PrefixGet(attrs: Attrs, i: nat)
    requires i < |attrs| && UniqueKeys(attrs)
    ensures Get(attrs[..i + 1], attrs[i].0) == Some(attrs[i].1)
    ensures forall k :: k in Keys(attrs[..i]) ==> Get(attrs[..i + 1], k) == Get(attrs[..i], k)
  {
    var a := attrs[..i];
    var b := attrs[..i + 1];
    assert UniqueKeys(b);
    assert UniqueKeys(a);
    assert b[i] == attrs[i];
    GetUnique(b, i);
    forall k | k in Keys(a) ensures Get(b, k) == Get(a, k) {
      var j :| 0 <= j < |a| && a[j].0 == k;
      assert b[j] == a[j];
      GetUnique(a, j);
      GetUnique(b, j);
    }
  }

  /** The record `serialize` gives, field by field: it holds `@id` and `@type`, every
      node-valued attribute as that node's `ref`, and every scalar other than `None`
      and `''` verbatim; list-valued, `None` and `''` attributes are absent, and there
      is nothing else. */
  lemma SerializedFields(g: seq<NodeData>, n: NodeData)
    requires AttrsWithin(n.attrs, 0, |g|) && UniqueKeys(n.attrs) && NoReservedKeys(n.attrs)
    ensures var r := Serialized(g, n);
      && r[IdKey] == Lit(Str(n.id)) && r[TypeKey] == Lit(Str(n.kind))
      && (forall k :: k in r ==> k == IdKey || k == TypeKey || k in Keys(n.attrs))
      && (forall i :: 0 <= i < |n.attrs| ==> FieldOf(g, n, i))
  {
    forall i | 0 <= i < |n.attrs| ensures FieldOf(g, n, i) {
      SerializedField(g, n, i);
    }
    assert IdKey !in Keys(n.attrs) && TypeKey !in Keys(n.attrs);
  }

  /** What `serialize` does with the `i`-th attribute of `n`. */
  predicate FieldOf(g: seq<NodeData>, n: NodeData, i: nat)
    requires AttrsWithin(n.attrs, 0, |g|) && i < |n.attrs|
  {
    var r := Serialized(g, n);
    var (key, v) := n.attrs[i];
    match v
    case Node(x) => x < |g| && key in r && r[key] == Ref(g[x])
    case List(_) => key !in r
    case Scalar(sc) =>
      if sc == Null || sc == Str("") then key !in r
      else key in r && r[key] == Lit(sc)
  }

  lemma SerializedField(g: seq<NodeData>, n: NodeData, i: nat)
    requires AttrsWithin(n.attrs, 0, |g|) && UniqueKeys(n.attrs) && NoReservedKeys(n.attrs)
    requires i < |n.attrs|
    ensures FieldOf(g, n, i)
  {
    GetUnique(n.attrs, i);
    assert ValueWithin(n.attrs[i].1, 0, |g|);
    if n.attrs[i].1.Node? { assert Yielded(n.attrs[i].1)[0] == n.attrs[i].1.h; }
  }

  /** No serialized field holds `None` or `''` (apart from an empty `@type`, which is
      the node's own type), and no field holds a list. */
  lemma NoEmptyFields(g: seq<NodeData>, n: NodeData)
    requires AttrsWithin(n.attrs, 0, |g|)
    ensures forall k :: k in Serialized(g, n) && k != IdKey && k != TypeKey ==>
      Serialized(g, n)[k] != Lit(Null) && Serialized(g, n)[k] != Lit(Str(""))
  {
  }
}
