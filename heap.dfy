/** The arena in which `GraphNode` objects live. A node is created by appending it;
    its handle is its position and never changes, and the attribute updates the
    formatters perform after construction rewrite one node in place. */
module Heap {
  import opened PyStrings
  import opened Nodes

  /** The identifier supply stands for `uuid.uuid4()`: distinct calls give distinct
      values. */
  ghost predicate Injective(uuid: nat -> string) {
    forall i, j :: i != j ==> uuid(i) != uuid(j)
  }

  /** The `h`-th node allocated: identifier `'_:' + uuid`, the given type, the keyword
      arguments as its attributes. */
  function NewNodeData(uuid: nat -> string, h: Handle, kind: string, attrs: Attrs): NodeData {
    NodeData("_:" + uuid(h), kind, attrs)
  }

  /** Distinct handles carry distinct identifiers, so a `ref` names one node. */
  predicate DistinctIds(g: seq<NodeData>) {
    forall i, j :: 0 <= i < j < |g| ==> g[i].id != g[j].id
  }

  class Arena {
    var nodes: seq<NodeData>
    const uuid: nat -> string

    /** Each node's identifier comes from the supply at its own position; every node
        refers only to nodes of the arena; every attribute dictionary has unique keys,
        none of them `@id` or `@type`. */
    ghost predicate Valid()
      reads this
    {
      && Injective(uuid)
      && (forall h :: 0 <= h < |nodes| ==> nodes[h].id == "_:" + uuid(h))
      && Closed(nodes)
      && (forall h :: 0 <= h < |nodes| ==> UniqueKeys(nodes[h].attrs) && NoReservedKeys(nodes[h].attrs))
    }

    constructor (uuid: nat -> string)
      requires Injective(uuid)
      ensures Valid() && nodes == [] && this.uuid == uuid
    {
      this.uuid := uuid;
      nodes := [];
    }

    /** `GraphNode.__init__`: a new node with a fresh identifier, the lower-cased type
        and the given attributes; every existing node is left as it was. */
    method NewNode(kind: string, attrs: Attrs) returns (h: Handle)
      requires Valid() && UniqueKeys(attrs) && NoReservedKeys(attrs) && AttrsWithin(attrs, 0, |nodes|)
      modifies this
      ensures Valid()
      ensures h == |old(nodes)| && nodes == old(nodes) + [NewNodeData(uuid, h, Lower(kind), attrs)]
      ensures nodes[h].kind == Lower(kind) && nodes[h].attrs == attrs
      ensures forall k :: 0 <= k < h ==> nodes[k].id != nodes[h].id
    {
      h := |nodes|;
      var n := NewNodeData(uuid, h, Lower(kind), attrs);
      assert AttrsWithin(attrs, 0, h + 1);
      nodes := nodes + [n];
      forall k | 0 <= k < h ensures nodes[k].id != nodes[h].id {
        IdPrefix(uuid(k), uuid(h));
      }
      forall k | 0 <= k < |nodes| ensures AttrsWithin(nodes[k].attrs, 0, |nodes|) {
        if k < h { assert AttrsWithin(old(nodes)[k].attrs, 0, h); }
      }
    }

    /** `node.attrs[key] = v` for the node at `h`, which nothing else changes. */
    method SetAttr(h: Handle, key: string, v: Value)
      requires Valid() && h < |nodes| && ValueWithin(v, 0, |nodes|) && key != IdKey && key != TypeKey
      modifies this
      ensures Valid()
      ensures nodes == old(nodes)[h := old(nodes)[h].(attrs := Put(old(nodes)[h].attrs, key, v))]
    {
      var n := nodes[h];
      var attrs := Put(n.attrs, key, v);
      PutUnique(n.attrs, key, v);
      PutNoReserved(n.attrs, key, v);
      PutWithin(n.attrs, key, v, 0, |nodes|);
      nodes := nodes[h := n.(attrs := attrs)];
    }

    /** `node.attrs[key].extend(hs)` for the list held by the `i`-th entry of the node
        at `h`: the list grows in place, so the entry keeps its position and nothing
        else changes. */
    method ExtendList(h: Handle, i: nat, hs: seq<Handle>)
      requires Valid() && h < |nodes| && i < |nodes[h].attrs| && nodes[h].attrs[i].1.List?
      requires forall k :: 0 <= k < |hs| ==> hs[k] < |nodes|
      modifies this
      ensures Valid()
      ensures var n := old(nodes)[h];
              var (key, v) := n.attrs[i];
              nodes == old(nodes)[h := n.(attrs := n.attrs[i := (key, List(v.hs + hs))])]
    {
      var n := nodes[h];
      var (key, v) := n.attrs[i];
      var attrs := n.attrs[i := (key, List(v.hs + hs))];
      assert ValueWithin(v, 0, |nodes|);
      assert ValueWithin(List(v.hs + hs), 0, |nodes|) by {
        forall k | 0 <= k < |v.hs + hs| ensures (v.hs + hs)[k] < |nodes| {
          if k < |v.hs| { assert Yielded(v)[k] == v.hs[k]; }
        }
      }
      assert forall j :: 0 <= j < |attrs| ==> attrs[j].0 == n.attrs[j].0;
      nodes := nodes[h := n.(attrs := attrs)];
    }
  }

  /** An update whose value lies in `[lo, hi)` keeps the whole dictionary there. */
  lemma {:induction false} PutWithin(attrs: Attrs, key: string, v: Value, lo: nat, hi: nat)
    requires AttrsWithin(attrs, lo, hi) && ValueWithin(v, lo, hi)
    ensures AttrsWithin(Put(attrs, key, v), lo, hi)
  {
    var r := Put(attrs, key, v);
    if |attrs| > 0 {
      if attrs[0].0 == key {
        assert r[0] == (key, v);
        forall i | 1 <= i < |r| ensures r[i] == attrs[i] { }
      } else {
        PutWithin(attrs[1..], key, v, lo, hi);
        var tail := Put(attrs[1..], key, v);
        assert r[0] == attrs[0];
        forall i | 1 <= i < |r| ensures r[i] == tail[i - 1] { }
      }
    }
  }

  /** The identifiers of a valid arena are distinct, so a pointer identifies one node. */
  lemma ValidDistinctIds(g: seq<NodeData>, uuid: nat -> string)
    requires Injective(uuid)
    requires forall h :: 0 <= h < |g| ==> g[h].id == "_:" + uuid(h)
    ensures DistinctIds(g)
  {
    forall i, j | 0 <= i < j < |g| ensures g[i].id != g[j].id {
      IdPrefix(uuid(i), uuid(j));
    }
  }

  /** Prefixing `'_:'` keeps distinct identifiers distinct. */
  lemma IdPrefix(a: string, b: string)
    ensures ("_:" + a == "_:" + b) == (a == b)
  {
    if "_:" + a == "_:" + b {
      assert ("_:" + a)[2..] == a;
      assert ("_:" + b)[2..] == b;
    }
  }
}
