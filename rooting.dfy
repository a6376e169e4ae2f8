/** Which nodes the flattener of `format_creativework` collects: exactly the nodes the
    call created. They refer only to one another, and each of them can be reached
    from the initial worklist along `get_related` edges. */
module Rooting {
  import opened PyStrings
  import opened Nodes
  import opened Heap
  import opened Blocks
  import opened Shapes
  import opened WorkShapes
  import opened Flattener

  /** Every node of `ns` refers only to handles in `[lo, hi)`. */
  predicate NodesWithin(ns: seq<NodeData>, lo: nat, hi: nat) {
    forall i :: 0 <= i < |ns| ==> AttrsWithin(ns[i].attrs, lo, hi)
  }

  lemma WithinWiden(ns: seq<NodeData>, lo: nat, hi: nat, lo': nat, hi': nat)
    requires NodesWithin(ns, lo, hi) && lo' <= lo && hi <= hi'
    ensures NodesWithin(ns, lo', hi')
  {
    forall i | 0 <= i < |ns| ensures AttrsWithin(ns[i].attrs, lo', hi') {
      var a := ns[i].attrs;
      assert AttrsWithin(a, lo, hi);
      forall j | 0 <= j < |a| ensures ValueWithin(a[j].1, lo', hi') {
        assert ValueWithin(a[j].1, lo, hi);
      }
    }
  }

  lemma WithinAppend(xs: seq<NodeData>, ys: seq<NodeData>, lo: nat, hi: nat)
    requires NodesWithin(xs, lo, hi) && NodesWithin(ys, lo, hi)
    ensures NodesWithin(xs + ys, lo, hi)
  {
    forall i | 0 <= i < |xs + ys| ensures AttrsWithin((xs + ys)[i].attrs, lo, hi) {
      if i < |xs| { assert (xs + ys)[i] == xs[i]; } else { assert (xs + ys)[i] == ys[i - |xs|]; }
    }
  }

  /** A node whose attributes refer to the handles `hs` only, each in `[lo, hi)`. */
  lemma PairWithin(n: NodeData, lo: nat, hi: nat)
    requires |n.attrs| == 2
    requires forall j :: 0 <= j < 2 ==> n.attrs[j].1.Scalar? || (n.attrs[j].1.Node? && lo <= n.attrs[j].1.h < hi)
    ensures AttrsWithin(n.attrs, lo, hi)
  {
    forall j | 0 <= j < 2 ensures ValueWithin(n.attrs[j].1, lo, hi) {
      if n.attrs[j].1.Node? { assert Yielded(n.attrs[j].1) == [n.attrs[j].1.h]; }
    }
  }

  /** The affiliation pair refers to the person and to the affiliation node. */
  lemma AffiliationWithin(uuid: nat -> string, person: Handle, at: Handle, kind: string, name: string, lo: nat, hi: nat)
    requires name != "" ==> lo <= person < hi && lo <= at < hi
    ensures NodesWithin(Affiliation(uuid, person, at, kind, name), lo, hi)
  {
    var ns := Affiliation(uuid, person, at, kind, name);
    if name != "" {
      assert Yielded(ns[0].attrs[0].1) == [];
      assert AttrsWithin(ns[0].attrs, lo, hi);
      PairWithin(ns[1], lo, hi);
    }
  }

  /** `format_agent`'s nodes refer only to one another. */
  lemma AgentWithin(uuid: nat -> string, p: Handle, agent: Row)
    requires AgentBlock(uuid, p, agent).Ok?
    ensures NodesWithin(AgentBlock(uuid, p, agent).value, p, p + |AgentBlock(uuid, p, agent).value|)
  {
    var ns := AgentBlock(uuid, p, agent).value;
    var hi := p + |ns|;
    var a := AffSize(agent, "affiliation");
    var aff := Affiliation(uuid, p, p + 1, "institution", agent["affiliation"]);
    var dep := Affiliation(uuid, p, p + 1 + a, "department", agent["department"]);
    var person := ns[0];
    assert ns == [person] + aff + dep;
    var es := AgentEdges(p, agent);
    assert person.attrs == [("name", Scalar(Str(agent["name"]))), ("related_agents", List(es))];
    assert ValueWithin(person.attrs[1].1, p, hi) by {
      assert Yielded(person.attrs[1].1) == es;
    }
    assert Yielded(person.attrs[0].1) == [];
    assert AttrsWithin(person.attrs, p, hi);
    AffiliationWithin(uuid, p, p + 1, "institution", agent["affiliation"], p, hi);
    AffiliationWithin(uuid, p, p + 1 + a, "department", agent["department"], p, hi);
    WithinAppend([person], aff, p, hi);
    WithinAppend([person] + aff, dep, p, hi);
  }

  /** `format_contributor`'s nodes refer to one another and to the work. */
  lemma ContributorWithin(uuid: nat -> string, p: Handle, work: Handle, agent: Row, i: nat)
    requires work <= p && ContributorBlock(uuid, p, work, agent, true, i).Ok?
    ensures NodesWithin(ContributorBlock(uuid, p, work, agent, true, i).value, work,
                        p + |ContributorBlock(uuid, p, work, agent, true, i).value|)
  {
    var blk := ContributorBlock(uuid, p, work, agent, true, i).value;
    var ag := AgentBlock(uuid, p, agent).value;
    var hi := p + |blk|;
    AgentWithin(uuid, p, agent);
    WithinWiden(ag, p, p + |ag|, work, hi);
    var c := blk[|blk| - 1];
    CreatorWithin(p, work, agent["name"], true, i, work, hi);
    assert blk == ag + [c];
    WithinAppend(ag, [c], work, hi);
  }

  /** The contributors' nodes refer to one another and to the work. */
  lemma {:induction false} ContributorsWithin(uuid: nat -> string, b: Handle, work: Handle, keys: seq<string>, data: Data)
    requires work <= b
    ensures var r := Contributors(uuid, b, work, keys, data);
      r.Done? ==> NodesWithin(r.built.nodes, work, b + |r.built.nodes|)
    decreases |keys|
  {
    if keys != [] {
      var n := |keys|;
      ContributorsWithin(uuid, b, work, keys[..n - 1], data);
      StepWithin(uuid, b, work, keys[n - 1], n - 1, data, Contributors(uuid, b, work, keys[..n - 1], data));
    }
  }

  /** One step of the generator keeps its nodes referring to one another and to the
      work. */
  lemma StepWithin(uuid: nat -> string, b: Handle, work: Handle, key: string, i: nat, data: Data, before: Outcome)
    requires work <= b && (before.Done? ==> NodesWithin(before.built.nodes, work, b + |before.built.nodes|))
    ensures var r := ContributorStep(uuid, b, work, key, i, data, before);
      r.Done? ==> NodesWithin(r.built.nodes, work, b + |r.built.nodes|)
  {
    ContributorStepSpec(uuid, b, work, key, i, data, before);
    if before.Done? && PieceOk(data, key) {
      var prev := before.built;
      var p := b + |prev.nodes|;
      var blk := ContributorBlock(uuid, p, work, data["contributors"][key], true, i).value;
      ContributorStepDone(uuid, b, work, key, i, data, prev, blk);
      ContributorWithin(uuid, p, work, data["contributors"][key], i);
      WithinWiden(prev.nodes, work, p, work, p + |blk|);
      WithinAppend(prev.nodes, blk, work, p + |blk|);
    }
  }

  /** The tag pairs refer to the work and to their own tags. */
  lemma {:induction false} TagsWithin(uuid: nat -> string, t: Handle, work: Handle, names: seq<string>)
    requires work < t
    ensures NodesWithin(TagNodes(uuid, t, work, names), work, t + 2 * |names|)
    decreases |names|
  {
    if names != [] {
      var n := |names|;
      var prev := TagNodes(uuid, t, work, names[..n - 1]);
      TagsWithin(uuid, t, work, names[..n - 1]);
      var hi := t + 2 * n;
      var s := t + |prev|;
      var x := NewNodeData(uuid, s, "tag", [("name", Scalar(Str(names[n - 1])))]);
      var y := NewNodeData(uuid, s + 1, "throughtags", [("creative_work", Node(work)), ("tag", Node(s))]);
      assert Yielded(x.attrs[0].1) == [];
      assert AttrsWithin(x.attrs, work, hi);
      PairWithin(y, work, hi);
      assert NodesWithin([x, y], work, hi) by {
        assert [x, y][0] == x && [x, y][1] == y;
      }
      WithinWiden(prev, work, t + 2 * (n - 1), work, hi);
      WithinAppend(prev, [x, y], work, hi);
    }
  }

  /** A successful `WorkGraph`, taken apart: the head, then the contributors. */
  lemma WorkGraphDone(uuid: nat -> string, b: Handle, work: Row, data: Data)
    requires WorkGraph(uuid, b, work, data).Done?
    ensures HasAll(WorkColumns, work)
    ensures "type" in work && "title" in work && "description" in work && "url" in work && "tags" in work
    ensures "contributors" in work && WorkContributors(uuid, b, work, data).Done?
    ensures var cons := WorkContributors(uuid, b, work, data).built;
      WorkGraph(uuid, b, work, data).built
      == Built(WorkHead(uuid, b, work) + cons.nodes, Worklist(b, cons.handles, WorkTags(b, work)))
  {
    WorkErrors(uuid, b, work, data);
    HasWorkColumns(work);
  }

  /** The work's head refers to the work, to its tag pairs, and to nothing else. */
  lemma HeadWithin(uuid: nat -> string, b: Handle, work: Row)
    requires "type" in work && "title" in work && "description" in work && "url" in work && "tags" in work
    ensures NodesWithin(WorkHead(uuid, b, work), b, b + |WorkHead(uuid, b, work)|)
  {
    var head := WorkHead(uuid, b, work);
    var n := |TagNames(work)|;
    WorkHeadShape(uuid, b, work);
    var hi := b + 2 + 2 * n;
    var tts := WorkTags(b, work);
    ThroughHandlesAt(b + 2, n);
    var w := head[0];
    assert AttrsWithin(w.attrs, b, hi) by {
      forall j | 0 <= j < |w.attrs| ensures ValueWithin(w.attrs[j].1, b, hi) {
        if j == 3 { assert Yielded(w.attrs[j].1) == tts; } else { assert Yielded(w.attrs[j].1) == []; }
      }
    }
    PairWithin(head[1], b, hi);
    assert NodesWithin([w, head[1]], b, hi) by {
      assert [w, head[1]][0] == w && [w, head[1]][1] == head[1];
    }
    var tags := TagNodes(uuid, b + 2, b, TagNames(work));
    TagsWithin(uuid, b + 2, b, TagNames(work));
    assert head == [w, head[1]] + tags;
    WithinAppend([w, head[1]], tags, b, hi);
  }

  /** The contributors part refers to the work and to itself, and the `creator`
      handles it yields lie within it. */
  lemma ConsWithin(uuid: nat -> string, b: Handle, work: Row, data: Data)
    requires "tags" in work && "contributors" in work && WorkContributors(uuid, b, work, data).Done?
    ensures var b' := b + 2 + 2 * |TagNames(work)|;
      var cons := WorkContributors(uuid, b, work, data).built;
      && NodesWithin(cons.nodes, b, b' + |cons.nodes|)
      && forall k :: 0 <= k < |cons.handles| ==> b' <= cons.handles[k] < b' + |cons.nodes|
  {
    var b' := b + 2 + 2 * |TagNames(work)|;
    var cons := WorkContributors(uuid, b, work, data).built;
    if work["contributors"] != "" {
      var keys := ContributorKeys(work);
      ContributorsWithin(uuid, b', b, keys, data);
      ContributorsShape(uuid, b', b, keys, data);
      forall k | 0 <= k < |cons.handles| ensures b' <= cons.handles[k] < b' + |cons.nodes| {
        assert PieceAt(uuid, b', b, keys, data, cons, k);
      }
    }
  }

  /** The initial worklist lies within `[b, hi)` when its parts do. */
  lemma WorklistWithin(b: Handle, cs: seq<Handle>, tts: seq<Handle>, hi: nat)
    requires b + 1 < hi
    requires forall k :: 0 <= k < |cs| ==> b <= cs[k] < hi
    requires forall k :: 0 <= k < |tts| ==> b <= tts[k] < hi
    ensures var seeds := Worklist(b, cs, tts); forall k :: 0 <= k < |seeds| ==> b <= seeds[k] < hi
  {
    var seeds := Worklist(b, cs, tts);
    forall k | 0 <= k < |seeds| ensures b <= seeds[k] < hi {
      if 2 <= k < 2 + |cs| { assert seeds[k] == cs[k - 2]; }
      if 2 + |cs| <= k { assert seeds[k] == tts[k - 2 - |cs|]; }
    }
  }

  /** All `format_creativework` creates refers only to what it creates, and so does the
      initial worklist. */
  lemma WorkWithin(uuid: nat -> string, b: Handle, work: Row, data: Data)
    requires WorkGraph(uuid, b, work, data).Done?
    ensures var built := WorkGraph(uuid, b, work, data).built;
      && NodesWithin(built.nodes, b, b + |built.nodes|)
      && forall k :: 0 <= k < |built.handles| ==> b <= built.handles[k] < b + |built.nodes|
  {
    WorkGraphDone(uuid, b, work, data);
    var head := WorkHead(uuid, b, work);
    var cons := WorkContributors(uuid, b, work, data).built;
    var hi := b + |head| + |cons.nodes|;
    var b' := b + |head|;
    WorkHeadShape(uuid, b, work);
    HeadWithin(uuid, b, work);
    WithinWiden(head, b, b', b, hi);
    ConsWithin(uuid, b, work, data);
    WithinAppend(head, cons.nodes, b, hi);
    ThroughHandlesAt(b + 2, |TagNames(work)|);
    WorklistWithin(b, cons.handles, WorkTags(b, work), hi);
  }

  // ----- every node created is reached -----

  /** `vs` holds the seeds and is closed under `get_related`, as the flattener's
      visited set is. */
  ghost predicate Sweeps(g: seq<NodeData>, seeds: seq<Handle>, vs: set<Handle>) {
    ClosedSet(g, vs) && Elements(seeds) <= vs
  }

  /** The node stored under `key` of a member of a closed set is a member. */
  lemma ViaNode(g: seq<NodeData>, vs: set<Handle>, h: Handle, key: string, x: Handle)
    requires ClosedSet(g, vs) && h < |g| && h in vs && Get(g[h].attrs, key) == Some(Node(x))
    ensures x in vs
  {
    var i :| 0 <= i < |g[h].attrs| && g[h].attrs[i] == (key, Node(x));
    RelatedOfMembers(g[h].attrs);
    assert x in Related(g, h);
  }

  /** So is each node of the list stored under `key`. */
  lemma ViaList(g: seq<NodeData>, vs: set<Handle>, h: Handle, key: string, hs: seq<Handle>, x: Handle)
    requires ClosedSet(g, vs) && h < |g| && h in vs && Get(g[h].attrs, key) == Some(List(hs)) && x in hs
    ensures x in vs
  {
    var i :| 0 <= i < |g[h].attrs| && g[h].attrs[i] == (key, List(hs));
    RelatedOfMembers(g[h].attrs);
    assert x in Related(g, h);
  }

  /** `ns` sits in `g` from handle `lo`. */
  ghost predicate Placed(g: seq<NodeData>, lo: nat, ns: seq<NodeData>) {
    lo + |ns| <= |g| && forall i :: 0 <= i < |ns| ==> g[lo + i] == ns[i]
  }

  /** With a person, its `related_agents` and through them the institution and the
      department are collected: the whole of `format_agent`'s block. */
  lemma AgentReach(g: seq<NodeData>, vs: set<Handle>, uuid: nat -> string, p: Handle, agent: Row)
    requires ClosedSet(g, vs) && AgentBlock(uuid, p, agent).Ok? && Placed(g, p, AgentBlock(uuid, p, agent).value)
    requires p in vs
    ensures forall h: Handle :: p <= h < p + |AgentBlock(uuid, p, agent).value| ==> h in vs
  {
    var ns := AgentBlock(uuid, p, agent).value;
    var es := AgentEdges(p, agent);
    var a := AffSize(agent, "affiliation");
    AgentPerson(uuid, p, agent);
    AgentAffiliations(uuid, p, agent);
    var aff := agent["affiliation"] != "";
    var dep := agent["department"] != "";
    assert aff ==> es[0] == p + 2;
    assert dep ==> es[|es| - 1] == p + 2 + a;
    BlockReach(g, vs, p, ns, es, aff, dep, a);
  }

  /** The agent's block, from what `AgentPerson` and `AgentAffiliations` state. */
  lemma BlockReach(g: seq<NodeData>, vs: set<Handle>, p: Handle, ns: seq<NodeData>, es: seq<Handle>,
                   aff: bool, dep: bool, a: nat)
    requires ClosedSet(g, vs) && Placed(g, p, ns) && p in vs && |ns| > 0
    requires a == (if aff then 2 else 0) && |ns| == 1 + a + (if dep then 2 else 0)
    requires |es| == (if aff then 1 else 0) + (if dep then 1 else 0)
    requires Get(ns[0].attrs, "related_agents") == Some(List(es))
    requires aff ==> es[0] == p + 2 && Get(ns[2].attrs, "related") == Some(Node(p + 1))
    requires dep ==> es[|es| - 1] == p + 2 + a && Get(ns[2 + a].attrs, "related") == Some(Node(p + 1 + a))
    ensures forall h: Handle :: p <= h < p + |ns| ==> h in vs
  {
    assert g[p] == ns[0];
    if aff {
      AffReach(g, vs, p, es, p + 2, ns);
    }
    if dep {
      AffReach(g, vs, p, es, p + 2 + a, ns);
    }
    forall h: Handle | p <= h < p + |ns| ensures h in vs {
      AgentCover(p, aff, dep, a, |ns|, h);
    }
  }

  /** The handles of an agent's block: the person, then two per affiliation. */
  lemma AgentCover(p: Handle, aff: bool, dep: bool, a: nat, n: nat, h: Handle)
    requires a == (if aff then 2 else 0) && n == 1 + a + (if dep then 2 else 0) && p <= h < p + n
    ensures h == p || (aff && (h == p + 1 || h == p + 2)) || (dep && (h == p + 1 + a || h == p + 2 + a))
  {
  }

  /** The `isaffiliatedwith` node `e` of the person's `related_agents`, and the node
      it relates the person to, are collected with the person. */
  lemma AffReach(g: seq<NodeData>, vs: set<Handle>, p: Handle, es: seq<Handle>, e: Handle, ns: seq<NodeData>)
    requires ClosedSet(g, vs) && Placed(g, p, ns) && p < e < p + |ns| && e in es && p in vs
    requires Get(g[p].attrs, "related_agents") == Some(List(es))
    requires Get(ns[e - p].attrs, "related") == Some(Node(e - 1))
    ensures e in vs && e - 1 in vs
  {
    ViaList(g, vs, p, "related_agents", es, e);
    assert g[e] == ns[e - p];
    ViaNode(g, vs, e, "related", e - 1);
  }

  /** Some block of the generator holds `h`. */
  lemma {:induction false} FindBlock(b: Handle, hs: seq<Handle>, n: nat, h: Handle)
    requires n <= |hs| && b <= h < BlockStart(b, hs, n)
    ensures exists k :: 0 <= k < n && BlockStart(b, hs, k) <= h <= hs[k]
  {
    if h >= BlockStart(b, hs, n - 1) {
      assert BlockStart(b, hs, n - 1) <= h <= hs[n - 1];
    } else {
      FindBlock(b, hs, n - 1, h);
    }
  }

  /** With its `creator` node, contributor `k`'s person is collected, and with it the
      rest of its block. */
  lemma PieceReach(g: seq<NodeData>, vs: set<Handle>, uuid: nat -> string, b: Handle, work: Handle,
                   keys: seq<string>, data: Data, cons: Built, k: nat)
    requires ClosedSet(g, vs) && PieceAt(uuid, b, work, keys, data, cons, k) && Placed(g, b, cons.nodes)
    requires cons.handles[k] in vs
    ensures forall h: Handle :: BlockStart(b, cons.handles, k) <= h <= cons.handles[k] ==> h in vs
  {
    var row := data["contributors"][keys[k]];
    var p := BlockStart(b, cons.handles, k);
    var c := cons.handles[k];
    var ns := cons.nodes[p - b..c - b];
    PlacedSlice(g, b, cons.nodes, p - b, c - b);
    assert g[c] == cons.nodes[c - b];
    CreatorReach(g, vs, uuid, p, c, row, ns, work, k);
  }

  /** The `creator` node at `c` collects its person at `p`, and with it the agent's
      block `ns` that fills the handles between them. */
  lemma CreatorReach(g: seq<NodeData>, vs: set<Handle>, uuid: nat -> string, p: Handle, c: Handle, row: Row,
                     ns: seq<NodeData>, work: Handle, k: nat)
    requires ClosedSet(g, vs) && c < |g| && c in vs && Placed(g, p, ns) && |ns| == c - p
    requires AgentBlock(uuid, p, row) == Ok(ns) && "name" in row
    requires g[c].attrs == CreatorAttrs(p, work, row["name"], true, k)
    ensures forall h: Handle :: p <= h <= c ==> h in vs
  {
    CreatorFields(p, work, row["name"], true, k);
    ViaNode(g, vs, c, "agent", p);
    AgentReach(g, vs, uuid, p, row);
  }

  /** A slice of placed nodes is placed where it starts. */
  lemma PlacedSlice(g: seq<NodeData>, b: nat, nodes: seq<NodeData>, i: nat, j: nat)
    requires Placed(g, b, nodes) && i <= j <= |nodes|
    ensures Placed(g, b + i, nodes[i..j])
  {
    var ns := nodes[i..j];
    forall t | 0 <= t < |ns| ensures g[b + i + t] == ns[t] {
      assert g[b + (i + t)] == nodes[i + t];
    }
  }

  /** Every node of the contributors part is collected. */
  lemma ContributorsReach(g: seq<NodeData>, vs: set<Handle>, uuid: nat -> string, b: Handle, work: Handle,
                          keys: seq<string>, data: Data, cons: Built)
    requires ClosedSet(g, vs) && Laid(uuid, b, work, keys, data, cons) && Placed(g, b, cons.nodes)
    requires forall k :: 0 <= k < |cons.handles| ==> cons.handles[k] in vs
    ensures forall h: Handle :: b <= h < b + |cons.nodes| ==> h in vs
  {
    forall h: Handle | b <= h < b + |cons.nodes| ensures h in vs {
      FindBlock(b, cons.handles, |keys|, h);
      var k :| 0 <= k < |keys| && BlockStart(b, cons.handles, k) <= h <= cons.handles[k];
      PieceReach(g, vs, uuid, b, work, keys, data, cons, k);
    }
  }

  /** Every tag pair is collected: its `throughtags` node is in the worklist, and its
      `tag` node is that node's `tag`. */
  lemma TagReach(g: seq<NodeData>, vs: set<Handle>, uuid: nat -> string, b: Handle, work: Row)
    requires "type" in work && "title" in work && "description" in work && "url" in work && "tags" in work
    requires ClosedSet(g, vs) && Placed(g, b, WorkHead(uuid, b, work))
    requires forall j :: 0 <= j < |WorkTags(b, work)| ==> WorkTags(b, work)[j] in vs
    ensures forall h: Handle :: b + 2 <= h < b + |WorkHead(uuid, b, work)| ==> h in vs
  {
    WorkTagPairs(uuid, b, work);
    PairsReach(g, vs, b, WorkHead(uuid, b, work), WorkTags(b, work));
  }

  /** The tag pairs of a head, from what `WorkTagPairs` states. */
  lemma PairsReach(g: seq<NodeData>, vs: set<Handle>, b: Handle, head: seq<NodeData>, tts: seq<Handle>)
    requires ClosedSet(g, vs) && Placed(g, b, head) && |head| == 2 + 2 * |tts|
    requires forall j :: 0 <= j < |tts| ==> tts[j] in vs
    requires forall j :: 0 <= j < |tts| ==>
      && tts[j] == b + 3 + 2 * j
      && head[3 + 2 * j].attrs == [("creative_work", Node(b)), ("tag", Node(b + 2 + 2 * j))]
    ensures forall h: Handle :: b + 2 <= h < b + |head| ==> h in vs
  {
    forall h: Handle | b + 2 <= h < b + |head| ensures h in vs {
      var j := (h - b - 2) / 2;
      var t := b + 3 + 2 * j;
      assert tts[j] == t;
      assert g[t] == head[3 + 2 * j];
      GetPair(g[t].attrs);
      ViaNode(g, vs, t, "tag", t - 1);
    }
  }

  /** The flattener collects exactly the nodes `format_creativework` created: the
      nodes reachable from the initial worklist are the handles from `b` up to `|g|`,
      and any set closed under `get_related` that holds the worklist holds them all. */
  lemma WorkReach(uuid: nat -> string, b: Handle, work: Row, data: Data, g: seq<NodeData>)
    requires WorkGraph(uuid, b, work, data).Done?
    requires Closed(g) && |g| == b + |WorkGraph(uuid, b, work, data).built.nodes|
    requires g[b..] == WorkGraph(uuid, b, work, data).built.nodes
    ensures forall h: Handle :: Reachable(g, WorkGraph(uuid, b, work, data).built.handles, h) <==> b <= h < |g|
    ensures forall vs :: Sweeps(g, WorkGraph(uuid, b, work, data).built.handles, vs) ==>
      forall h: Handle :: b <= h < |g| ==> h in vs
  {
    WorkWithin(uuid, b, work, data);
    WorkSwept(uuid, b, work, data, g);
    ReachExactly(g, b, WorkGraph(uuid, b, work, data).built);
  }

  /** Any closed set holding the seeds holds the handles from `b` up to `|g|`. */
  ghost predicate AllSwept(g: seq<NodeData>, b: Handle, seeds: seq<Handle>) {
    forall vs :: Sweeps(g, seeds, vs) ==> forall h: Handle :: b <= h < |g| ==> h in vs
  }

  lemma WorkSwept(uuid: nat -> string, b: Handle, work: Row, data: Data, g: seq<NodeData>)
    requires WorkGraph(uuid, b, work, data).Done?
    requires |g| == b + |WorkGraph(uuid, b, work, data).built.nodes|
    requires g[b..] == WorkGraph(uuid, b, work, data).built.nodes
    ensures AllSwept(g, b, WorkGraph(uuid, b, work, data).built.handles)
  {
    var built := WorkGraph(uuid, b, work, data).built;
    WorkGraphDone(uuid, b, work, data);
    forall vs | Sweeps(g, built.handles, vs) ensures forall h: Handle :: b <= h < |g| ==> h in vs {
      WorkReachAll(uuid, b, work, data, g, built, vs);
    }
  }

  /** When the created nodes refer only to one another and every closed set holding
      the seeds holds them all, they are exactly the reachable nodes. */
  lemma ReachExactly(g: seq<NodeData>, b: Handle, built: Built)
    requires Closed(g) && |g| == b + |built.nodes| && g[b..] == built.nodes
    requires NodesWithin(built.nodes, b, b + |built.nodes|)
    requires forall k :: 0 <= k < |built.handles| ==> b <= built.handles[k] < b + |built.nodes|
    requires AllSwept(g, b, built.handles)
    ensures forall h: Handle :: Reachable(g, built.handles, h) <==> b <= h < |g|
  {
    ReachedWithin(g, b, built);
    var rs := set h: Handle | h < |g| && Reachable(g, built.handles, h);
    ReachableSweeps(g, built.handles, rs);
    forall h: Handle | b <= h < |g| ensures Reachable(g, built.handles, h) {
      assert h in rs;
    }
  }

  /** The nodes reachable from the seeds form a closed set that holds the seeds. */
  lemma ReachableSweeps(g: seq<NodeData>, seeds: seq<Handle>, rs: set<Handle>)
    requires Closed(g) && forall k :: 0 <= k < |seeds| ==> seeds[k] < |g|
    requires rs == set h: Handle | h < |g| && Reachable(g, seeds, h)
    ensures Sweeps(g, seeds, rs)
  {
    forall h, x | h in rs && x in Related(g, h) ensures x in rs {
      ReachStep(g, seeds, h, x);
      RelatedWithin(g[h].attrs, 0, |g|);
    }
    forall x | x in Elements(seeds) ensures x in rs {
      var k :| 0 <= k < |seeds| && seeds[k] == x;
      SeedReachable(g, seeds, x);
    }
  }

  /** Nothing outside the created nodes is reached. */
  lemma ReachedWithin(g: seq<NodeData>, b: Handle, built: Built)
    requires |g| == b + |built.nodes| && g[b..] == built.nodes
    requires NodesWithin(built.nodes, b, |g|)
    requires forall k :: 0 <= k < |built.handles| ==> b <= built.handles[k] < |g|
    ensures forall h: Handle :: Reachable(g, built.handles, h) ==> b <= h < |g|
  {
    var span := seq(|g| - b, i => b + i);
    var s := Elements(span);
    forall h: Handle | b <= h < |g| ensures h in s {
      assert span[h - b] == h;
    }
    forall h, x | h in s && h < |g| && x in Related(g, h) ensures x in s {
      assert g[h] == built.nodes[h - b];
      RelatedWithin(g[h].attrs, b, |g|);
    }
    assert ClosedSet(g, s);
    assert Elements(built.handles) <= s;
    ClosedHoldsReachable(g, built.handles, s);
  }

  /** Every created node is in any closed set that holds the worklist. */
  lemma WorkReachAll(uuid: nat -> string, b: Handle, work: Row, data: Data, g: seq<NodeData>, built: Built,
                     vs: set<Handle>)
    requires "type" in work && "title" in work && "description" in work && "url" in work && "tags" in work
    requires "contributors" in work && WorkContributors(uuid, b, work, data).Done?
    requires var cons := WorkContributors(uuid, b, work, data).built;
      built == Built(WorkHead(uuid, b, work) + cons.nodes, Worklist(b, cons.handles, WorkTags(b, work)))
    requires |g| == b + |built.nodes| && g[b..] == built.nodes
    requires Sweeps(g, built.handles, vs)
    ensures forall h: Handle :: b <= h < |g| ==> h in vs
  {
    var head := WorkHead(uuid, b, work);
    var cons := WorkContributors(uuid, b, work, data).built;
    WorkHeadShape(uuid, b, work);
    PlacedSplit(g, b, head, cons.nodes);
    SeedsIn(b, cons.handles, WorkTags(b, work), vs);
    TagReach(g, vs, uuid, b, work);
    ConsReach(g, vs, uuid, b, work, data);
    forall h: Handle | b <= h < |g| ensures h in vs {
      if h >= b + |head| {
        assert b + 2 + 2 * |TagNames(work)| <= h;
      }
    }
  }

  /** Two parts placed one after the other. */
  lemma PlacedSplit(g: seq<NodeData>, b: Handle, xs: seq<NodeData>, ys: seq<NodeData>)
    requires |g| == b + |xs| + |ys| && g[b..] == xs + ys
    ensures Placed(g, b, xs) && Placed(g, b + |xs|, ys)
  {
    forall i | 0 <= i < |xs| ensures g[b + i] == xs[i] {
      assert g[b + i] == g[b..][i];
    }
    forall i | 0 <= i < |ys| ensures g[b + |xs| + i] == ys[i] {
      assert g[b + |xs| + i] == g[b..][|xs| + i];
    }
  }

  /** The contributors part is collected once its `creator` nodes are. */
  lemma ConsReach(g: seq<NodeData>, vs: set<Handle>, uuid: nat -> string, b: Handle, work: Row, data: Data)
    requires "tags" in work && "contributors" in work && WorkContributors(uuid, b, work, data).Done?
    requires ClosedSet(g, vs)
    requires var cons := WorkContributors(uuid, b, work, data).built;
      && Placed(g, b + 2 + 2 * |TagNames(work)|, cons.nodes)
      && forall k :: 0 <= k < |cons.handles| ==> cons.handles[k] in vs
    ensures var cons := WorkContributors(uuid, b, work, data).built;
      forall h: Handle :: b + 2 + 2 * |TagNames(work)| <= h < b + 2 + 2 * |TagNames(work)| + |cons.nodes| ==> h in vs
  {
    if work["contributors"] != "" {
      var b' := b + 2 + 2 * |TagNames(work)|;
      var keys := ContributorKeys(work);
      ContributorsShape(uuid, b', b, keys, data);
      ContributorsReach(g, vs, uuid, b', b, keys, data, WorkContributors(uuid, b, work, data).built);
    }
  }

  /** A set holding the initial worklist holds each of its parts. */
  lemma SeedsIn(b: Handle, cs: seq<Handle>, tts: seq<Handle>, vs: set<Handle>)
    requires Elements(Worklist(b, cs, tts)) <= vs
    ensures b in vs && b + 1 in vs
    ensures forall k :: 0 <= k < |cs| ==> cs[k] in vs
    ensures forall j :: 0 <= j < |tts| ==> tts[j] in vs
  {
    var seeds := Worklist(b, cs, tts);
    assert seeds[0] == b && seeds[1] == b + 1;
    forall k | 0 <= k < |cs| ensures cs[k] in vs { assert seeds[2 + k] == cs[k]; }
    forall j | 0 <= j < |tts| ensures tts[j] in vs { assert seeds[2 + |cs| + j] == tts[j]; }
  }
}
