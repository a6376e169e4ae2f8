/** The flattener at the end of `format_creativework`: a FIFO worklist sweep with a
    visited set, then one serialized record per visited node. */
module Flattener {
  import opened Nodes

  function Elements(s: seq<Handle>): set<Handle> {
    set i | 0 <= i < |s| :: s[i]
  }

  /** `p` is a walk along `get_related` edges that starts at a seed. */
  ghost predicate IsPath(g: seq<NodeData>, seeds: seq<Handle>, p: seq<Handle>) {
    && |p| > 0
    && p[0] in seeds
    && (forall i :: 0 <= i < |p| ==> p[i] < |g|)
    && (forall i :: 0 <= i < |p| - 1 ==> p[i + 1] in Related(g, p[i]))
  }

  /** `h` can be reached from a seed by following `get_related` edges. */
  ghost predicate Reachable(g: seq<NodeData>, seeds: seq<Handle>, h: Handle) {
    exists p :: IsPath(g, seeds, p) && p[|p| - 1] == h
  }

  /** A set of nodes of `g` that contains the edges of each of its members. */
  predicate ClosedSet(g: seq<NodeData>, s: set<Handle>) {
    && (forall h :: h in s ==> h < |g|)
    && (forall h, x :: h in s && h < |g| && x in Related(g, h) ==> x in s)
  }

  lemma SeedReachable(g: seq<NodeData>, seeds: seq<Handle>, h: Handle)
    requires h in seeds && h < |g|
    ensures Reachable(g, seeds, h)
  {
    assert IsPath(g, seeds, [h]);
  }

  /** Following one more edge from a reachable node reaches a node. */
  lemma ReachStep(g: seq<NodeData>, seeds: seq<Handle>, h: Handle, x: Handle)
    requires Closed(g) && h < |g| && Reachable(g, seeds, h) && x in Related(g, h)
    ensures Reachable(g, seeds, x)
  {
    var p :| IsPath(g, seeds, p) && p[|p| - 1] == h;
    RelatedWithin(g[h].attrs, 0, |g|);
    var q := p + [x];
    assert q[0] == p[0];
    assert forall i :: 0 <= i < |q| ==> q[i] < |g| by {
      forall i | 0 <= i < |q| ensures q[i] < |g| {
        if i < |p| { assert q[i] == p[i]; }
      }
    }
    forall i | 0 <= i < |q| - 1 ensures q[i + 1] in Related(g, q[i]) {
      if i < |p| - 1 {
        assert q[i] == p[i] && q[i + 1] == p[i + 1];
      } else {
        assert q[i] == h && q[i + 1] == x;
      }
    }
    assert IsPath(g, seeds, q);
    assert q[|q| - 1] == x;
  }

  /** A closed set that contains the seeds contains every node reachable from them. */
  lemma {:induction false} ClosedHoldsPath(g: seq<NodeData>, seeds: seq<Handle>, s: set<Handle>, p: seq<Handle>)
    requires ClosedSet(g, s) && Elements(seeds) <= s && IsPath(g, seeds, p)
    ensures p[|p| - 1] in s
    decreases |p|
  {
    if |p| == 1 {
      assert p[0] in Elements(seeds);
    } else {
      var q := p[..|p| - 1];
      assert IsPath(g, seeds, q);
      ClosedHoldsPath(g, seeds, s, q);
      assert p[|p| - 1] in Related(g, q[|q| - 1]);
    }
  }

  lemma ClosedHoldsReachable(g: seq<NodeData>, seeds: seq<Handle>, s: set<Handle>)
    requires ClosedSet(g, s) && Elements(seeds) <= s
    ensures forall h :: Reachable(g, seeds, h) ==> h in s
  {
    forall h | Reachable(g, seeds, h) ensures h in s {
      var p :| IsPath(g, seeds, p) && p[|p| - 1] == h;
      ClosedHoldsPath(g, seeds, s, p);
    }
  }

  predicate Below(s: set<Handle>, n: nat) {
    forall h :: h in s ==> h < n
  }

  /** A set of handles below `n` has at most `n` elements. */
  lemma {:induction false} BelowCard(s: set<Handle>, n: nat)
    requires Below(s, n)
    ensures |s| <= n
  {
    if n > 0 {
      BelowCard(s - {n - 1}, n - 1);
    } else {
      assert s == {};
    }
  }

  /** The invariant of the worklist loop: every visited or queued node is reachable;
      every seed, and every edge of a visited node, is visited or queued. */
  ghost predicate SweepInv(g: seq<NodeData>, seeds: seq<Handle>, visited: set<Handle>, worklist: seq<Handle>) {
    && Closed(g)
    && (forall i :: 0 <= i < |worklist| ==> worklist[i] < |g|)
    && Below(visited, |g|)
    && (forall h :: h in visited ==> Reachable(g, seeds, h))
    && (forall i :: 0 <= i < |worklist| ==> Reachable(g, seeds, worklist[i]))
    && Elements(seeds) <= visited + Elements(worklist)
    && (forall h, x :: h in visited && x in Related(g, h) ==> x in visited + Elements(worklist))
  }

  lemma SweepInit(g: seq<NodeData>, seeds: seq<Handle>)
    requires Closed(g) && forall i :: 0 <= i < |seeds| ==> seeds[i] < |g|
    ensures SweepInv(g, seeds, {}, seeds)
  {
    forall i | 0 <= i < |seeds| ensures Reachable(g, seeds, seeds[i]) {
      SeedReachable(g, seeds, seeds[i]);
    }
  }

  /** Popping a node that was already visited keeps the invariant. */
  lemma SweepSkip(g: seq<NodeData>, seeds: seq<Handle>, visited: set<Handle>, worklist: seq<Handle>)
    requires SweepInv(g, seeds, visited, worklist) && worklist != [] && worklist[0] in visited
    ensures SweepInv(g, seeds, visited, worklist[1..])
  {
    PopFront(worklist);
    assert visited + Elements(worklist) == visited + Elements(worklist[1..]);
    forall i | 0 <= i < |worklist[1..]| ensures worklist[1..][i] == worklist[i + 1] { }
  }

  /** Visiting a new node and queueing its edges keeps the invariant, and leaves fewer
      nodes to visit. */
  lemma SweepVisit(g: seq<NodeData>, seeds: seq<Handle>, visited: set<Handle>, worklist: seq<Handle>)
    requires SweepInv(g, seeds, visited, worklist) && worklist != [] && worklist[0] !in visited
    ensures SweepInv(g, seeds, visited + {worklist[0]}, worklist[1..] + Related(g, worklist[0]))
    ensures |visited| < |visited + {worklist[0]}| <= |g|
  {
    var n := worklist[0];
    var rest := worklist[1..];
    var related := Related(g, n);
    var next := rest + related;
    RelatedWithin(g[n].attrs, 0, |g|);
    forall i | 0 <= i < |next| ensures next[i] < |g| && Reachable(g, seeds, next[i]) {
      if i < |rest| {
        assert next[i] == worklist[i + 1];
      } else {
        assert next[i] == related[i - |rest|];
        ReachStep(g, seeds, n, next[i]);
      }
    }
    VisitStep(g, visited, worklist, n);
    BelowCard(visited + {n}, |g|);
  }

  /** When the worklist is empty, the visited set is closed and holds the seeds, so it
      is exactly the set of reachable nodes. */
  lemma SweepDone(g: seq<NodeData>, seeds: seq<Handle>, visited: set<Handle>)
    requires SweepInv(g, seeds, visited, [])
    ensures forall h :: h in visited <==> Reachable(g, seeds, h)
    ensures ClosedSet(g, visited) && Elements(seeds) <= visited
  {
    assert Elements([]) == {};
    assert ClosedSet(g, visited);
    ClosedHoldsReachable(g, seeds, visited);
  }

  /** The `while True` loop of `format_creativework`: pop the front of the worklist;
      skip it if already visited, otherwise mark it visited and append its edges. The
      result is exactly the set of nodes reachable from the seeds. */
  method Flatten(g: seq<NodeData>, seeds: seq<Handle>) returns (visited: set<Handle>)
    requires Closed(g)
    requires forall i :: 0 <= i < |seeds| ==> seeds[i] < |g|
    ensures forall h :: h in visited <==> Reachable(g, seeds, h)
    ensures ClosedSet(g, visited) && Elements(seeds) <= visited
  {
    var worklist: seq<Handle> := seeds;
    visited := {};
    SweepInit(g, seeds);
    while worklist != []
      invariant SweepInv(g, seeds, visited, worklist)
      invariant |visited| <= |g|
      decreases |g| - |visited|, |worklist|
    {
      var n := worklist[0];
      if n in visited {
        SweepSkip(g, seeds, visited, worklist);
        worklist := worklist[1..];
      } else {
        SweepVisit(g, seeds, visited, worklist);
        visited := visited + {n};
        worklist := worklist[1..] + Related(g, n);
      }
    }
    SweepDone(g, seeds, visited);
  }

  /** `rec` is what `serialize` gives for the node at `h`. */
  predicate IsRecordOf(g: seq<NodeData>, h: Handle, rec: Record) {
    h < |g| && AttrsWithin(g[h].attrs, 0, |g|) && rec == Serialized(g, g[h])
  }

  /** The output so far: distinct visited nodes in the order they were taken, each
      with its record, and the nodes still to take. */
  ghost predicate OutputInv(g: seq<NodeData>, visited: set<Handle>, left: set<Handle>, records: seq<Record>, order: seq<Handle>) {
    && left <= visited
    && |order| == |records| && |order| + |left| == |visited|
    && Elements(order) == visited - left
    && (forall i, j :: 0 <= i < j < |order| ==> order[i] != order[j])
    && (forall i :: 0 <= i < |order| ==> IsRecordOf(g, order[i], records[i]))
  }

  lemma OutputStep(g: seq<NodeData>, visited: set<Handle>, left: set<Handle>, records: seq<Record>, order: seq<Handle>, n: Handle, rec: Record)
    requires OutputInv(g, visited, left, records, order) && n in left && IsRecordOf(g, n, rec)
    ensures OutputInv(g, visited, left - {n}, records + [rec], order + [n])
  {
    var order' := order + [n];
    var records' := records + [rec];
    ElementsSnoc(order, n);
    forall i, j | 0 <= i < j < |order'| ensures order'[i] != order'[j] {
      if j == |order| { assert order[i] in Elements(order); }
    }
    forall i | 0 <= i < |order'| ensures IsRecordOf(g, order'[i], records'[i]) {
      if i < |order| { assert order'[i] == order[i] && records'[i] == records[i]; }
    }
  }

  /** `[node.serialize() for node in visited]`: one record per visited node, taken in
      the set's iteration order `order`, which the model leaves unspecified. */
  method SerializeAll(g: seq<NodeData>, visited: set<Handle>) returns (records: seq<Record>, order: seq<Handle>)
    requires Closed(g) && Below(visited, |g|)
    requires forall h :: h in visited ==> UniqueKeys(g[h].attrs)
    ensures |order| == |records| == |visited|
    ensures Elements(order) == visited
    ensures forall i, j :: 0 <= i < j < |order| ==> order[i] != order[j]
    ensures forall i :: 0 <= i < |order| ==> IsRecordOf(g, order[i], records[i])
  {
    var left := visited;
    records, order := [], [];
    while left != {}
      invariant OutputInv(g, visited, left, records, order)
      decreases |left|
    {
      var n :| n in left;
      var rec := Serialize(g, n);
      OutputStep(g, visited, left, records, order, n, rec);
      records, order := records + [rec], order + [n];
      left := left - {n};
    }
  }

  lemma PopFront(worklist: seq<Handle>)
    requires worklist != []
    ensures Elements(worklist) == {worklist[0]} + Elements(worklist[1..])
  {
    assert worklist == [worklist[0]] + worklist[1..];
    ElementsAppend([worklist[0]], worklist[1..]);
    assert Elements([worklist[0]]) == {worklist[0]};
  }

  /** Visiting the front `n` of the worklist loses no queued node and keeps every edge
      of a visited node either visited or still queued. */
  lemma VisitStep(g: seq<NodeData>, visited: set<Handle>, worklist: seq<Handle>, n: Handle)
    requires worklist != [] && worklist[0] == n && n < |g| && Below(visited, |g|)
    requires forall h, x :: h in visited && x in Related(g, h) ==> x in visited + Elements(worklist)
    ensures visited + Elements(worklist) <= (visited + {n}) + Elements(worklist[1..] + Related(g, n))
    ensures forall h, x :: h in visited + {n} && x in Related(g, h) ==>
      x in (visited + {n}) + Elements(worklist[1..] + Related(g, n))
  {
    var rest := worklist[1..];
    var related := Related(g, n);
    ElementsAppend(rest, related);
    PopFront(worklist);
    forall h, x | h in visited + {n} && x in Related(g, h)
      ensures x in (visited + {n}) + Elements(rest + related)
    {
      if h == n {
        assert x in Elements(related);
      } else {
        assert x in visited + Elements(worklist);
      }
    }
  }

  lemma ElementsAppend(s: seq<Handle>, t: seq<Handle>)
    ensures Elements(s + t) == Elements(s) + Elements(t)
  {
    var u := s + t;
    forall x | x in Elements(u) ensures x in Elements(s) + Elements(t) {
      var i :| 0 <= i < |u| && u[i] == x;
      if i >= |s| { assert t[i - |s|] == x; } else { assert s[i] == x; }
    }
    forall x | x in Elements(s) ensures x in Elements(u) {
      var i :| 0 <= i < |s| && s[i] == x;
      assert u[i] == x;
    }
    forall x | x in Elements(t) ensures x in Elements(u) {
      var i :| 0 <= i < |t| && t[i] == x;
      assert u[|s| + i] == x;
    }
  }

  lemma ElementsSnoc(s: seq<Handle>, x: Handle)
    ensures Elements(s + [x]) == Elements(s) + {x}
  {
    var t := s + [x];
    forall y | y in Elements(t) ensures y in Elements(s) + {x} {
      var i :| 0 <= i < |t| && t[i] == y;
      if i < |s| { assert s[i] == y; }
    }
    forall y | y in Elements(s) ensures y in Elements(t) {
      var i :| 0 <= i < |s| && s[i] == y;
      assert t[i] == y;
    }
    assert t[|s|] == x;
  }

  /** No dangling pointers: every `{'@id', '@type'}` pointer in a record of the output
      names a node whose own record, with that `@id` and `@type`, is also in the
      output. */
  lemma PointersResolve(g: seq<NodeData>, visited: set<Handle>, records: seq<Record>, order: seq<Handle>)
    requires Closed(g) && ClosedSet(g, visited)
    requires forall h :: h in visited ==> UniqueKeys(g[h].attrs) && NoReservedKeys(g[h].attrs)
    requires |order| == |records| && Elements(order) == visited
    requires forall i :: 0 <= i < |order| ==> IsRecordOf(g, order[i], records[i])
    ensures forall i, k :: 0 <= i < |records| && k in records[i] && records[i][k].Pointer? ==>
      Names(records, records[i][k])
  {
    forall i, k | 0 <= i < |records| && k in records[i] && records[i][k].Pointer?
      ensures Names(records, records[i][k])
    {
      PointerTarget(g, visited, records, order, i, k);
    }
  }

  /** Some record of `records` has the `@id` and `@type` that pointer `p` names. */
  ghost predicate Names(records: seq<Record>, p: Field)
    requires p.Pointer?
  {
    exists j :: 0 <= j < |records| && IdKey in records[j] && TypeKey in records[j]
                && records[j][IdKey] == Lit(Str(p.id)) && records[j][TypeKey] == Lit(Str(p.kind))
  }

  lemma PointerTarget(g: seq<NodeData>, visited: set<Handle>, records: seq<Record>, order: seq<Handle>, i: nat, k: string)
    requires Closed(g) && ClosedSet(g, visited)
    requires forall h :: h in visited ==> UniqueKeys(g[h].attrs) && NoReservedKeys(g[h].attrs)
    requires |order| == |records| && Elements(order) == visited
    requires forall i :: 0 <= i < |order| ==> IsRecordOf(g, order[i], records[i])
    requires i < |records| && k in records[i] && records[i][k].Pointer?
    ensures Names(records, records[i][k])
  {
    var h := order[i];
    var n := g[h];
    assert h in visited;
    SerializedFields(g, n);
    assert k != IdKey && k != TypeKey;
    var a :| 0 <= a < |n.attrs| && n.attrs[a].0 == k;
    assert FieldOf(g, n, a);
    assert n.attrs[a].1.Node?;
    var x := n.attrs[a].1.h;
    assert records[i][k] == Ref(g[x]);
    RelatedOfMembers(n.attrs);
    assert x in Related(g, h);
    assert x in visited;
    var j :| 0 <= j < |order| && order[j] == x;
    SerializedFields(g, g[x]);
    assert records[j][IdKey] == Lit(Str(g[x].id));
  }
}
