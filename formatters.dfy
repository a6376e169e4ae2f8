/** The formatters as the source writes them: statements that create nodes in the
    arena one after another and then update their attribute dictionaries in place.
    Each is proved to append exactly the nodes its block function in `Blocks`
    describes, and to fail with the same `KeyError`. On failure the nodes created
    before the failing lookup stay in the arena, as the Python objects would stay
    allocated; only the untouched prefix is promised then. */
module Formatters {
  import opened PyStrings
  import opened Nodes
  import opened Heap
  import opened Blocks
  import opened Shapes

  /** The arena only grew: everything it held before is still there, unchanged. */
  ghost predicate Grown(before: seq<NodeData>, after: seq<NodeData>) {
    |before| <= |after| && after[..|before|] == before
  }

  /** Setting `related_agents` on a person that has only its `name` appends it. */
  lemma PersonAttrs(name: Value, es: seq<Handle>)
    ensures Put([("name", name)], "related_agents", List(es)) == [("name", name), ("related_agents", List(es))]
  {
    KeysCons(("name", name), []);
    assert [("name", name)] + [] == [("name", name)];
  }

  /** The person at `p` with the `related_agents` list `es`. */
  function Person(uuid: nat -> string, p: Handle, kind: string, name: Value, es: seq<Handle>): NodeData {
    NewNodeData(uuid, p, kind, [("name", name), ("related_agents", List(es))])
  }

  /** Rewriting the node at position `|front|` leaves the nodes around it alone. */
  lemma UpdateAt(front: seq<NodeData>, x: NodeData, y: NodeData, rest: seq<NodeData>)
    ensures (front + [x] + rest)[|front| := y] == front + [y] + rest
  {
    var u := (front + [x] + rest)[|front| := y];
    forall i | 0 <= i < |u| ensures u[i] == (front + [y] + rest)[i] {
      if i < |front| {
        assert u[i] == front[i];
      } else if i > |front| {
        assert u[i] == rest[i - |front| - 1];
      }
    }
  }

  /** One `if agent[col]:` block of `format_agent`: for a non-empty cell, the
      `kind` node named by it and the `isaffiliatedwith` node joining the person at
      `p` to it, the latter appended to the person's `related_agents`. */
  method Affiliate(a: Arena, p: Handle, kind: string, cell: string,
                   ghost front: seq<NodeData>, ghost pkind: string, ghost name: Value, ghost es: seq<Handle>,
                   ghost tail: seq<NodeData>)
    requires a.Valid() && p == |front|
    requires a.nodes == front + [Person(a.uuid, p, pkind, name, es)] + tail
    requires Lower(kind) == kind && kind != "isaffiliatedwith"
    modifies a
    ensures a.Valid()
    ensures a.nodes == front + [Person(a.uuid, p, pkind, name, es + AffiliationEdge(|old(a.nodes)|, cell))]
                       + tail + Affiliation(a.uuid, p, |old(a.nodes)|, kind, cell)
  {
    if cell != "" {
      ghost var at := |a.nodes|;
      var related := a.NewNode(kind, [("name", Scalar(Str(cell)))]);
      var edge := a.NewNode("isaffiliatedwith", [("subject", Node(p)), ("related", Node(related))]);
      LowerKinds();
      ghost var aff := Affiliation(a.uuid, p, at, kind, cell);
      assert a.nodes == front + [Person(a.uuid, p, pkind, name, es)] + (tail + aff);
      assert a.nodes[p] == Person(a.uuid, p, pkind, name, es);
      a.ExtendList(p, 1, [edge]);
      assert [("name", name), ("related_agents", List(es))][1 := ("related_agents", List(es + [edge]))]
             == [("name", name), ("related_agents", List(es + [edge]))];
      UpdateAt(front, Person(a.uuid, p, pkind, name, es), Person(a.uuid, p, pkind, name, es + [edge]), tail + aff);
    } else {
      assert es + [] == es;
      assert tail + [] == tail;
    }
  }

  /** `format_agent(agent)`: the person, then for a non-empty `affiliation` an
      `institution` and the `isaffiliatedwith` joining them, then the same for a
      non-empty `department`; the edges are appended to the person's
      `related_agents`, which is set to `[]` right after the person is created. */
  method FormatAgent(a: Arena, agent: Row) returns (r: Result<Handle>)
    requires a.Valid()
    modifies a
    ensures a.Valid() && Grown(old(a.nodes), a.nodes)
    ensures var blk := AgentBlock(a.uuid, |old(a.nodes)|, agent);
      && (r.Ok? <==> blk.Ok?)
      && (r.Ok? ==> r.value == |old(a.nodes)| && a.nodes == old(a.nodes) + blk.value)
      && (r.Err? ==> r.error == blk.error)
  {
    if "type" !in agent { return Err(KeyError("type")); }
    if "name" !in agent { return Err(KeyError("name")); }
    ghost var g0 := a.nodes;
    var name := Scalar(Str(agent["name"]));
    var person := a.NewNode(agent["type"], [("name", name)]);
    a.SetAttr(person, "related_agents", List([]));
    PersonAttrs(name, []);
    assert a.nodes == g0 + [Person(a.uuid, person, Lower(agent["type"]), name, [])] + [];
    r := AgentAffiliations(a, person, agent, g0);
  }

  /** The rest of `format_agent` once the person exists at `p` with an empty
      `related_agents`: the `affiliation` cell is read, then `department`. */
  method AgentAffiliations(a: Arena, p: Handle, agent: Row, ghost front: seq<NodeData>) returns (r: Result<Handle>)
    requires a.Valid() && p == |front| && "type" in agent && "name" in agent
    requires a.nodes == front + [Person(a.uuid, p, Lower(agent["type"]), Scalar(Str(agent["name"])), [])] + []
    modifies a
    ensures a.Valid() && Grown(front, a.nodes)
    ensures var blk := AgentBlock(a.uuid, p, agent);
      && (r.Ok? <==> blk.Ok?)
      && (r.Ok? ==> r.value == p && a.nodes == front + blk.value)
      && (r.Err? ==> r.error == blk.error)
  {
    if "affiliation" !in agent { return Err(KeyError("affiliation")); }
    LowerOfLower("institution");
    Affiliate(a, p, "institution", agent["affiliation"], front, Lower(agent["type"]), Scalar(Str(agent["name"])), [], []);
    ghost var es := AffiliationEdge(p + 1, agent["affiliation"]);
    ghost var tail := Affiliation(a.uuid, p, p + 1, "institution", agent["affiliation"]);
    assert [] + es == es && [] + tail == tail;
    r := AgentDepartment(a, p, agent, front, tail);
  }

  /** The last part of `format_agent`: the `department` cell, read once the
      `affiliation` nodes `tail` exist. */
  method AgentDepartment(a: Arena, p: Handle, agent: Row, ghost front: seq<NodeData>, ghost tail: seq<NodeData>)
    returns (r: Result<Handle>)
    requires a.Valid() && p == |front| && "type" in agent && "name" in agent && "affiliation" in agent
    requires tail == Affiliation(a.uuid, p, p + 1, "institution", agent["affiliation"])
    requires a.nodes == front + [Person(a.uuid, p, Lower(agent["type"]), Scalar(Str(agent["name"])),
                                        AffiliationEdge(p + 1, agent["affiliation"]))] + tail
    modifies a
    ensures a.Valid() && Grown(front, a.nodes)
    ensures var blk := AgentBlock(a.uuid, p, agent);
      && (r.Ok? <==> blk.Ok?)
      && (r.Ok? ==> r.value == p && a.nodes == front + blk.value)
      && (r.Err? ==> r.error == blk.error)
  {
    if "department" !in agent { return Err(KeyError("department")); }
    ghost var kind := Lower(agent["type"]);
    ghost var name := Scalar(Str(agent["name"]));
    ghost var at := p + 1 + AffSize(agent, "affiliation");
    assert |a.nodes| == at;
    LowerOfLower("department");
    Affiliate(a, p, "department", agent["department"], front, kind, name, AffiliationEdge(p + 1, agent["affiliation"]), tail);
    AgentBlockFrom(a.uuid, p, agent, front, tail, a.nodes);
    return Ok(p);
  }

  /** The arena `format_agent` leaves behind is the one `AgentBlock` describes. */
  lemma AgentBlockFrom(uuid: nat -> string, p: Handle, agent: Row, front: seq<NodeData>, tail: seq<NodeData>,
                       nodes: seq<NodeData>)
    requires "type" in agent && "name" in agent && "affiliation" in agent && "department" in agent
    requires tail == Affiliation(uuid, p, p + 1, "institution", agent["affiliation"])
    requires var at := p + 1 + AffSize(agent, "affiliation");
      nodes == front + [Person(uuid, p, Lower(agent["type"]), Scalar(Str(agent["name"])),
                               AffiliationEdge(p + 1, agent["affiliation"]) + AffiliationEdge(at, agent["department"]))]
               + tail + Affiliation(uuid, p, at, "department", agent["department"])
    ensures AgentBlock(uuid, p, agent).Ok? && nodes == front + AgentBlock(uuid, p, agent).value
  {
    assert HasAll(AgentColumns, agent);
    AgentBlockIs(uuid, p, agent);
  }

  /** The block of a complete agent row, with the person written as `Person`. */
  lemma AgentBlockIs(uuid: nat -> string, b: Handle, agent: Row)
    requires HasAll(AgentColumns, agent)
    ensures "type" in agent && "name" in agent && "affiliation" in agent && "department" in agent
    ensures AgentBlock(uuid, b, agent)
            == Ok([Person(uuid, b, Lower(agent["type"]), Scalar(Str(agent["name"])), AgentEdges(b, agent))]
                  + Affiliation(uuid, b, b + 1, "institution", agent["affiliation"])
                  + Affiliation(uuid, b, b + 1 + AffSize(agent, "affiliation"), "department", agent["department"]))
  {
    assert AgentColumns[0] in agent && AgentColumns[1] in agent && AgentColumns[2] in agent && AgentColumns[3] in agent;
  }

  /** Growing twice is growing. */
  lemma GrownTrans(x: seq<NodeData>, y: seq<NodeData>, z: seq<NodeData>)
    requires Grown(x, y) && Grown(y, z)
    ensures Grown(x, z)
  {
    assert z[..|x|] == z[..|y|][..|x|];
  }

  /** `format_contributor(work, agent, bibliographic, index)`: `format_agent(agent)`
      first, then the `creator` (or `contributor`) node pointing at the person and at
      the work `work`. */
  method FormatContributor(a: Arena, work: Handle, agent: Row, bibliographic: bool, index: int) returns (r: Result<Handle>)
    requires a.Valid() && work < |a.nodes|
    modifies a
    ensures a.Valid() && Grown(old(a.nodes), a.nodes)
    ensures var blk := ContributorBlock(a.uuid, |old(a.nodes)|, work, agent, bibliographic, index);
      && (r.Ok? <==> blk.Ok?)
      && (r.Ok? ==> r.value == |old(a.nodes)| + |blk.value| - 1 && a.nodes == old(a.nodes) + blk.value)
      && (r.Err? ==> r.error == blk.error)
  {
    ghost var g0 := a.nodes;
    var person := FormatAgent(a, agent);
    if person.Err? { return Err(person.error); }
    var attrs := CreatorAttrs(person.value, work, agent["name"], bibliographic, index);
    CreatorFields(person.value, work, agent["name"], bibliographic, index);
    CreatorWithin(person.value, work, agent["name"], bibliographic, index, 0, |a.nodes|);
    ghost var mid := a.nodes;
    var c := a.NewNode(if bibliographic then "creator" else "contributor", attrs);
    LowerKinds();
    ContributorBlockFrom(a.uuid, |g0|, work, agent, bibliographic, index, g0, mid, a.nodes);
    return Ok(c);
  }

  /** The arena `format_contributor` leaves behind is the one `ContributorBlock`
      describes. */
  lemma ContributorBlockFrom(uuid: nat -> string, b: Handle, work: Handle, agent: Row, bibliographic: bool, index: int,
                             front: seq<NodeData>, mid: seq<NodeData>, nodes: seq<NodeData>)
    requires AgentBlock(uuid, b, agent).Ok? && b == |front| && mid == front + AgentBlock(uuid, b, agent).value
    requires nodes == mid + [NewNodeData(uuid, |mid|, if bibliographic then "creator" else "contributor",
                                         CreatorAttrs(b, work, agent["name"], bibliographic, index))]
    ensures ContributorBlock(uuid, b, work, agent, bibliographic, index).Ok?
    ensures nodes == front + ContributorBlock(uuid, b, work, agent, bibliographic, index).value
  {
  }

  /** The list comprehension of the `tags` attribute, over the stripped `|`-pieces
      `names`: for each, a `tag` with that name, then the `throughtags` joining the
      work to it. */
  method FormatTags(a: Arena, work: Handle, names: seq<string>) returns (tts: seq<Handle>)
    requires a.Valid() && work < |a.nodes|
    modifies a
    ensures a.Valid()
    ensures a.nodes == old(a.nodes) + TagNodes(a.uuid, |old(a.nodes)|, work, names)
    ensures tts == ThroughHandles(|old(a.nodes)|, |names|)
  {
    ghost var acc;
    tts, acc := TagRounds(a, work, names);
    PairsAreTagNodes(a.uuid, |old(a.nodes)|, work, names, acc);
  }

  /** The rounds of the comprehension, with what they append in closed form. */
  method TagRounds(a: Arena, work: Handle, names: seq<string>) returns (tts: seq<Handle>, ghost acc: seq<NodeData>)
    requires a.Valid() && work < |a.nodes|
    modifies a
    ensures a.Valid()
    ensures a.nodes == old(a.nodes) + acc && PairsUpTo(a.uuid, |old(a.nodes)|, work, names, acc, |names|)
    ensures tts == ThroughHandles(|old(a.nodes)|, |names|)
  {
    ghost var g0 := a.nodes;
    acc := [];
    tts := [];
    for i := 0 to |names|
      invariant a.Valid() && work < |a.nodes|
      invariant a.nodes == g0 + acc
      invariant PairsUpTo(a.uuid, |g0|, work, names, acc, i)
      invariant |tts| == i && forall j :: 0 <= j < i ==> tts[j] == |g0| + 2 * j + 1
    {
      ghost var t := |g0| + 2 * i;
      ghost var x := NewNodeData(a.uuid, t, "tag", [("name", Scalar(Str(names[i])))]);
      ghost var y := NewNodeData(a.uuid, t + 1, "throughtags", [("creative_work", Node(work)), ("tag", Node(t))]);
      PairsStep(a.uuid, |g0|, work, names, acc, i, x, y);
      SnocPair(g0, acc, x, y);
      var through := AddTag(a, work, names[i]);
      acc := acc + [x, y];
      tts := tts + [through];
    }
    ThroughHandlesAt(|g0|, |names|);
  }

  /** One round of the comprehension: the `tag` node, then the `throughtags` node
      that refers to the work and to it. */
  method AddTag(a: Arena, work: Handle, name: string) returns (through: Handle)
    requires a.Valid() && work < |a.nodes|
    modifies a
    ensures a.Valid()
    ensures var t := |old(a.nodes)|;
      && through == t + 1
      && a.nodes == old(a.nodes) + [NewNodeData(a.uuid, t, "tag", [("name", Scalar(Str(name)))])]
                                 + [NewNodeData(a.uuid, t + 1, "throughtags", [("creative_work", Node(work)), ("tag", Node(t))])]
  {
    LowerKinds();
    var tag := a.NewNode("tag", [("name", Scalar(Str(name)))]);
    through := a.NewNode("throughtags", [("creative_work", Node(work)), ("tag", Node(tag))]);
  }

  /** The first `i` rounds of the comprehension, in closed form. */
  ghost predicate PairsUpTo(uuid: nat -> string, b: Handle, work: Handle, names: seq<string>, acc: seq<NodeData>, i: nat) {
    && i <= |names| && |acc| == 2 * i
    && forall j :: 0 <= j < i ==>
      && acc[2 * j] == NewNodeData(uuid, b + 2 * j, "tag", [("name", Scalar(Str(names[j])))])
      && acc[2 * j + 1] == NewNodeData(uuid, b + 2 * j + 1, "throughtags", [("creative_work", Node(work)), ("tag", Node(b + 2 * j))])
  }

  /** One more round extends the closed form by one pair. */
  lemma PairsStep(uuid: nat -> string, b: Handle, work: Handle, names: seq<string>, acc: seq<NodeData>, i: nat,
                  x: NodeData, y: NodeData)
    requires PairsUpTo(uuid, b, work, names, acc, i) && i < |names|
    requires x == NewNodeData(uuid, b + 2 * i, "tag", [("name", Scalar(Str(names[i])))])
    requires y == NewNodeData(uuid, b + 2 * i + 1, "throughtags", [("creative_work", Node(work)), ("tag", Node(b + 2 * i))])
    ensures PairsUpTo(uuid, b, work, names, acc + [x, y], i + 1)
  {
    var longer := acc + [x, y];
    forall j | 0 <= j < i + 1
      ensures longer[2 * j] == NewNodeData(uuid, b + 2 * j, "tag", [("name", Scalar(Str(names[j])))])
      ensures longer[2 * j + 1]
              == NewNodeData(uuid, b + 2 * j + 1, "throughtags", [("creative_work", Node(work)), ("tag", Node(b + 2 * j))])
    {
      if j < i { assert longer[2 * j] == acc[2 * j] && longer[2 * j + 1] == acc[2 * j + 1]; }
    }
  }

  /** All rounds in closed form are exactly `TagNodes`. */
  lemma PairsAreTagNodes(uuid: nat -> string, b: Handle, work: Handle, names: seq<string>, acc: seq<NodeData>)
    requires PairsUpTo(uuid, b, work, names, acc, |names|)
    ensures acc == TagNodes(uuid, b, work, names)
  {
    var ns := TagNodes(uuid, b, work, names);
    TagShape(uuid, b, work, names);
    forall k | 0 <= k < |acc| ensures acc[k] == ns[k] {
      var j := k / 2;
      if k == 2 * j {
        assert acc[2 * j] == ns[2 * j];
      } else {
        assert k == 2 * j + 1;
        assert acc[2 * j + 1] == ns[2 * j + 1];
      }
    }
  }

  lemma SnocPair(front: seq<NodeData>, acc: seq<NodeData>, x: NodeData, y: NodeData)
    ensures front + acc + [x] + [y] == front + (acc + [x, y])
  {
  }

  /** `Contributors` over a longer list of keys is one more step after the shorter. */
  lemma ContributorsUnfold(uuid: nat -> string, b: Handle, work: Handle, keys: seq<string>, i: nat, data: Data)
    requires i < |keys|
    ensures Contributors(uuid, b, work, keys[..i + 1], data)
            == ContributorStep(uuid, b, work, keys[i], i, data, Contributors(uuid, b, work, keys[..i], data))
  {
    assert keys[..i + 1][..i] == keys[..i];
  }

  /** Once the generator has raised, the later keys are never looked at. */
  lemma {:induction false} ContributorsStuck(uuid: nat -> string, b: Handle, work: Handle, keys: seq<string>, n: nat,
                                             data: Data)
    requires n <= |keys| && Contributors(uuid, b, work, keys[..n], data).Failed?
    ensures Contributors(uuid, b, work, keys, data) == Contributors(uuid, b, work, keys[..n], data)
    decreases |keys|
  {
    if n == |keys| {
      assert keys[..n] == keys;
    } else {
      var shorter := keys[..|keys| - 1];
      assert shorter[..n] == keys[..n];
      ContributorsStuck(uuid, b, work, shorter, n, data);
    }
  }

  /** The generator of `graph.extend(...)`: for the `i`-th `|`-piece, the row
      `data['contributors'][piece.strip()]` and `format_contributor(work, row, True, i)`,
      yielding the `creator` nodes in order. The first `KeyError` ends it. */
  method FormatContributors(a: Arena, work: Handle, pieces: seq<string>, data: Data) returns (r: Result<seq<Handle>>)
    requires a.Valid() && work < |a.nodes|
    modifies a
    ensures a.Valid() && Grown(old(a.nodes), a.nodes)
    ensures var out := Contributors(a.uuid, |old(a.nodes)|, work, StripEach(pieces), data);
      && (r.Ok? <==> out.Done?)
      && (r.Ok? ==> a.nodes == old(a.nodes) + out.built.nodes && r.value == out.built.handles)
      && (r.Err? ==> r.error == out.error)
  {
    ghost var g0 := a.nodes;
    ghost var b := |g0|;
    ghost var keys := StripEach(pieces);
    ghost var built := Built([], []);
    var creators: seq<Handle> := [];
    for i := 0 to |pieces|
      invariant a.Valid() && work < |a.nodes|
      invariant Contributors(a.uuid, b, work, keys[..i], data) == Done(built)
      invariant a.nodes == g0 + built.nodes && creators == built.handles
    {
      var key := Strip(pieces[i]);
      assert key == keys[i];
      ContributorsUnfold(a.uuid, b, work, keys, i, data);
      ghost var mid := a.nodes;
      ghost var blk;
      var c;
      c, blk := AddContributor(a, work, key, i, data, b, built);
      if c.Err? {
        r := Err(c.error);
        ContributorsStuck(a.uuid, b, work, keys, i + 1, data);
        GrownTrans(g0, mid, a.nodes);
        return;
      }
      AppendAssoc(g0, built.nodes, blk);
      creators := creators + [c.value];
      built := Built(built.nodes + blk, built.handles + [c.value]);
    }
    assert keys[..|pieces|] == keys;
    r := Ok(creators);
  }

  /** One round of the generator, after the rounds that built `prev` from `b`. */
  method AddContributor(a: Arena, work: Handle, key: string, i: nat, data: Data, ghost b: Handle, ghost prev: Built)
    returns (r: Result<Handle>, ghost blk: seq<NodeData>)
    requires a.Valid() && work < |a.nodes| && |a.nodes| == b + |prev.nodes|
    modifies a
    ensures a.Valid() && Grown(old(a.nodes), a.nodes)
    ensures var out := ContributorStep(a.uuid, b, work, key, i, data, Done(prev));
      && (r.Ok? ==> a.nodes == old(a.nodes) + blk && out == Done(Built(prev.nodes + blk, prev.handles + [r.value])))
      && (r.Err? ==> out == Failed(r.error))
  {
    blk := [];
    if "contributors" !in data || key !in data["contributors"] {
      return Err(if "contributors" !in data then KeyError("contributors") else KeyError(key)), blk;
    }
    ghost var mid := a.nodes;
    var c := FormatContributor(a, work, data["contributors"][key], true, i);
    if c.Err? {
      return Err(c.error), blk;
    }
    blk := a.nodes[|mid|..];
    StepAfter(a.uuid, b, work, key, i, data, prev, mid, a.nodes, c.value);
    r := Ok(c.value);
  }

  /** The generator's step for `key`, read off what `format_contributor` appended to
      `mid`. */
  lemma StepAfter(uuid: nat -> string, b: Handle, work: Handle, key: string, i: nat, data: Data, prev: Built,
                  mid: seq<NodeData>, nodes: seq<NodeData>, c: Handle)
    requires Found(data, key) && |mid| == b + |prev.nodes|
    requires var blk := ContributorBlock(uuid, |mid|, work, data["contributors"][key], true, i);
      blk.Ok? && nodes == mid + blk.value && c == |mid| + |blk.value| - 1
    ensures nodes == mid + nodes[|mid|..]
    ensures ContributorStep(uuid, b, work, key, i, data, Done(prev)) == Done(Built(prev.nodes + nodes[|mid|..], prev.handles + [c]))
  {
    var blk := ContributorBlock(uuid, |mid|, work, data["contributors"][key], true, i).value;
    assert nodes[|mid|..] == blk;
    ContributorStepDone(uuid, b, work, key, i, data, prev, blk);
  }

  lemma AppendAssoc(front: seq<NodeData>, mid: seq<NodeData>, blk: seq<NodeData>)
    ensures front + mid + blk == front + (mid + blk)
  {
  }
}
