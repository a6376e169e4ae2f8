/** `format_creativework`: the work, its identifier, its tags and its contributors
    are created in the arena, then the flattener collects and serializes the nodes
    reachable from them. */
module CreativeWork {
  import opened PyStrings
  import opened Nodes
  import opened Heap
  import opened Blocks
  import opened Shapes
  import opened WorkShapes
  import opened Formatters
  import opened Flattener
  import opened Rooting

  /** The work node's keyword arguments: `title`, `description`, `is_deleted=False`. */
  function InitialWorkAttrs(work: Row): Attrs
    requires "title" in work && "description" in work
  {
    [("title", Scalar(Str(work["title"]))), ("description", Scalar(Str(work["description"]))),
     ("is_deleted", Scalar(Bool(false)))]
  }

  /** The keyword arguments are a well-formed dictionary without edges. */
  lemma InitialWork(work: Row, lo: nat, hi: nat)
    requires "title" in work && "description" in work
    ensures var i := InitialWorkAttrs(work);
      UniqueKeys(i) && NoReservedKeys(i) && AttrsWithin(i, lo, hi)
  {
    var i := InitialWorkAttrs(work);
    KeysCons(i[2], []);
    KeysCons(i[1], i[2..]);
    KeysCons(i[0], i[1..]);
    assert i[2..] == [i[2]] && i[1..] == [i[1], i[2]];
    assert Keys(i) == {"title", "description", "is_deleted"};
  }

  /** Setting `tags` on the keyword arguments appends that entry, giving `WorkAttrs`. */
  lemma InitialTagged(work: Row, tts: seq<Handle>)
    requires "title" in work && "description" in work
    ensures Put(InitialWorkAttrs(work), "tags", List(tts)) == WorkAttrs(work, tts)
  {
  }

  /** The identifier's keyword arguments lie within any range holding the work. */
  lemma IdentifierWithin(work: Handle, url: string, lo: nat, hi: nat)
    requires lo <= work < hi
    ensures AttrsWithin(IdentifierAttrs(work, url), lo, hi)
  {
    assert Yielded(Node(work)) == [work];
  }

  /** The columns the work part reads, in the order it reads them. */
  predicate HasHeadColumns(work: Row) {
    "type" in work && "title" in work && "description" in work && "url" in work && "tags" in work
  }

  /** The first of the head's columns missing from `work`, in reading order. */
  function HeadError(work: Row): (e: Error)
    requires !HasHeadColumns(work)
    ensures e.key !in work
  {
    if "type" !in work then KeyError("type")
    else if "title" !in work then KeyError("title")
    else if "description" !in work then KeyError("description")
    else if "url" !in work then KeyError("url")
    else KeyError("tags")
  }

  /** A missing head column is the error `format_creativework` raises. */
  lemma HeadErrorIs(uuid: nat -> string, b: Handle, work: Row, data: Data)
    requires !HasHeadColumns(work)
    ensures WorkGraph(uuid, b, work, data) == Failed(HeadError(work))
  {
  }

  /** `format_creativework` up to the `tags` attribute: the work node, the
      `workidentifier`, then the tag pairs, and `tags` set on the work. A missing
      column raises `KeyError` as soon as it is read. */
  method FormatWorkHead(a: Arena, work: Row) returns (r: Result<(Handle, Handle)>)
    requires a.Valid()
    modifies a
    ensures a.Valid() && Grown(old(a.nodes), a.nodes)
    ensures r.Ok? <==> HasHeadColumns(work)
    ensures r.Ok? ==> HasHeadColumns(work) && r.value == (|old(a.nodes)|, |old(a.nodes)| + 1)
                      && a.nodes == old(a.nodes) + WorkHead(a.uuid, |old(a.nodes)|, work)
    ensures r.Err? ==> !HasHeadColumns(work) && r.error == HeadError(work)
  {
    if "type" !in work { return Err(KeyError("type")); }
    if "title" !in work { return Err(KeyError("title")); }
    if "description" !in work { return Err(KeyError("description")); }
    ghost var g0 := a.nodes;
    InitialWork(work, 0, |a.nodes|);
    var w := a.NewNode(work["type"], InitialWorkAttrs(work));
    var wi := FormatWorkTail(a, w, work, g0);
    if wi.Err? {
      return Err(wi.error);
    }
    r := Ok((w, wi.value));
  }

  /** After the work node at `w`: the `workidentifier` (reading `url`), then the
      tags (reading `tags`). */
  method FormatWorkTail(a: Arena, w: Handle, work: Row, ghost g0: seq<NodeData>) returns (r: Result<Handle>)
    requires a.Valid() && "type" in work && "title" in work && "description" in work && |g0| == w
    requires a.nodes == g0 + [NewNodeData(a.uuid, w, Lower(work["type"]), InitialWorkAttrs(work))]
    modifies a
    ensures a.Valid() && Grown(g0, a.nodes)
    ensures r.Ok? <==> HasHeadColumns(work)
    ensures r.Ok? ==> r.value == w + 1 && a.nodes == g0 + WorkHead(a.uuid, w, work)
    ensures r.Err? ==> r.error == HeadError(work)
  {
    ghost var w0 := a.nodes[w];
    GrownAppend(g0, [w0]);
    if "url" !in work {
      return Err(KeyError("url"));
    }
    IdentifierFields(w, work["url"]);
    IdentifierWithin(w, work["url"], 0, |a.nodes|);
    var wi := a.NewNode("workidentifier", IdentifierAttrs(w, work["url"]));
    LowerKinds();
    GrownTwo(g0, w0, a.nodes[wi]);
    if "tags" !in work {
      return Err(KeyError("tags"));
    }
    SetTags(a, w, work, g0);
    GrownAppend(g0, WorkHead(a.uuid, w, work));
    r := Ok(wi);
  }

  /** The tags comprehension, then `work_graph.attrs['tags'] = ...`, after the work
      at `w` and its identifier. */
  method SetTags(a: Arena, w: Handle, work: Row, ghost g0: seq<NodeData>)
    requires a.Valid() && HasHeadColumns(work) && |g0| == w
    requires a.nodes == g0 + [NewNodeData(a.uuid, w, Lower(work["type"]), InitialWorkAttrs(work))]
                         + [NewNodeData(a.uuid, w + 1, "workidentifier", IdentifierAttrs(w, work["url"]))]
    modifies a
    ensures a.Valid() && a.nodes == g0 + WorkHead(a.uuid, w, work)
  {
    ghost var two := a.nodes;
    var tts := FormatTags(a, w, TagNames(work));
    ghost var mid := a.nodes;
    ThroughListWithin(|two|, |TagNames(work)|, |mid|);
    a.SetAttr(w, "tags", List(tts));
    ghost var w0 := NewNodeData(a.uuid, w, Lower(work["type"]), InitialWorkAttrs(work));
    ghost var i0 := NewNodeData(a.uuid, w + 1, "workidentifier", IdentifierAttrs(w, work["url"]));
    Retagged(g0, w0, i0, two, TagNodes(a.uuid, |two|, w, TagNames(work)), mid, a.nodes, "tags", List(tts));
    InitialTagged(work, tts);
    WorkHeadIs(a.uuid, w, |two|, work, tts);
  }

  /** Setting an attribute on the first of the nodes appended to `front` rewrites that
      node and no other. */
  lemma Retagged(front: seq<NodeData>, x: NodeData, y: NodeData, two: seq<NodeData>, rest: seq<NodeData>,
                 mid: seq<NodeData>, nodes: seq<NodeData>, key: string, v: Value)
    requires two == front + [x] + [y] && mid == two + rest
    requires nodes == mid[|front| := mid[|front|].(attrs := Put(mid[|front|].attrs, key, v))]
    ensures nodes == front + ([x.(attrs := Put(x.attrs, key, v)), y] + rest)
  {
    assert mid[|front|] == x;
    assert nodes == front + [x.(attrs := Put(x.attrs, key, v))] + [y] + rest;
  }

  /** The `throughtags` handles lie below the arena's size. */
  lemma ThroughListWithin(t: Handle, n: nat, hi: nat)
    requires t + 2 * n <= hi
    ensures ValueWithin(List(ThroughHandles(t, n)), 0, hi)
  {
    ThroughHandlesAt(t, n);
  }

  /** `WorkHead` with the `tags` list written out. */
  lemma WorkHeadIs(uuid: nat -> string, b: Handle, t: Handle, work: Row, tts: seq<Handle>)
    requires HasHeadColumns(work) && t == b + 2 && tts == ThroughHandles(t, |TagNames(work)|)
    ensures WorkHead(uuid, b, work)
            == [NewNodeData(uuid, b, Lower(work["type"]), WorkAttrs(work, tts)),
                NewNodeData(uuid, b + 1, "workidentifier", IdentifierAttrs(b, work["url"]))]
               + TagNodes(uuid, t, b, TagNames(work))
  {
  }

  /** `format_creativework(work, data)`: creates the work's nodes, then flattens them
      into one serialized record per node that the call created; `order` is the
      iteration order of the visited set. A missing column or contributor raises
      `KeyError`, as `WorkGraph` says. */
  method FormatCreativeWork(a: Arena, work: Row, data: Data) returns (r: Result<seq<Record>>, order: seq<Handle>)
    requires a.Valid()
    modifies a
    ensures a.Valid() && Grown(old(a.nodes), a.nodes)
    ensures var out := WorkGraph(a.uuid, |old(a.nodes)|, work, data);
      && (r.Ok? <==> out.Done?)
      && (r.Err? ==> r.error == out.error)
      && (r.Ok? ==> a.nodes == old(a.nodes) + out.built.nodes)
    ensures r.Ok? ==>
      && |order| == |r.value| == |a.nodes| - |old(a.nodes)|
      && (forall h: Handle :: h in Elements(order) <==> |old(a.nodes)| <= h < |a.nodes|)
      && (forall i, j :: 0 <= i < j < |order| ==> order[i] != order[j])
      && (forall i :: 0 <= i < |order| ==> IsRecordOf(a.nodes, order[i], r.value[i]))
      && (forall i, k :: 0 <= i < |r.value| && k in r.value[i] && r.value[i][k].Pointer? ==>
            Names(r.value, r.value[i][k]))
      && (forall i :: 0 <= i < |r.value| ==> IdKey in r.value[i])
      && (forall i, j :: 0 <= i < j < |r.value| ==> r.value[i][IdKey] != r.value[j][IdKey])
  {
    order := [];
    ghost var b := |a.nodes|;
    var graph := BuildWork(a, work, data);
    if graph.Err? {
      return Err(graph.error), order;
    }
    ghost var built := WorkGraph(a.uuid, b, work, data).built;
    WorkWithin(a.uuid, b, work, data);
    assert a.nodes[b..] == built.nodes;
    WorkReach(a.uuid, b, work, data, a.nodes);
    ValidDistinctIds(a.nodes, a.uuid);
    var records;
    records, order := Collect(a.nodes, b, graph.value);
    r := Ok(records);
  }

  /** The flattener and the final comprehension, for a worklist that reaches exactly the
      nodes from `b` on: one record per such node, none twice, no dangling pointer, and
      no two records with the same `@id`. */
  method Collect(g: seq<NodeData>, ghost b: Handle, seeds: seq<Handle>) returns (records: seq<Record>, order: seq<Handle>)
    requires Closed(g) && DistinctIds(g) && b <= |g| && forall i :: 0 <= i < |seeds| ==> seeds[i] < |g|
    requires forall h :: 0 <= h < |g| ==> UniqueKeys(g[h].attrs) && NoReservedKeys(g[h].attrs)
    requires forall h: Handle :: Reachable(g, seeds, h) <==> b <= h < |g|
    ensures |order| == |records| == |g| - b
    ensures forall h: Handle :: h in Elements(order) <==> b <= h < |g|
    ensures forall i, j :: 0 <= i < j < |order| ==> order[i] != order[j]
    ensures forall i :: 0 <= i < |order| ==> IsRecordOf(g, order[i], records[i])
    ensures forall i, k :: 0 <= i < |records| && k in records[i] && records[i][k].Pointer? ==> Names(records, records[i][k])
    ensures forall i :: 0 <= i < |records| ==> IdKey in records[i]
    ensures forall i, j :: 0 <= i < j < |records| ==> records[i][IdKey] != records[j][IdKey]
  {
    var visited := Flatten(g, seeds);
    assert Below(visited, |g|);
    records, order := SerializeAll(g, visited);
    PointersResolve(g, visited, records, order);
    SpanCard(visited, b, |g| - b);
    RecordIdsDistinct(g, records, order);
  }

  /** Records of distinct nodes of an arena with distinct ids carry distinct `@id`s, so
      a pointer names exactly one record. */
  lemma RecordIdsDistinct(g: seq<NodeData>, records: seq<Record>, order: seq<Handle>)
    requires DistinctIds(g) && |order| == |records|
    requires forall h :: 0 <= h < |g| ==> UniqueKeys(g[h].attrs) && NoReservedKeys(g[h].attrs)
    requires forall i, j :: 0 <= i < j < |order| ==> order[i] != order[j]
    requires forall i :: 0 <= i < |order| ==> IsRecordOf(g, order[i], records[i])
    ensures forall i :: 0 <= i < |records| ==> IdKey in records[i]
    ensures forall i, j :: 0 <= i < j < |records| ==> records[i][IdKey] != records[j][IdKey]
  {
    forall i | 0 <= i < |records|
      ensures IdKey in records[i] && records[i][IdKey] == Lit(Str(g[order[i]].id))
    {
      assert IsRecordOf(g, order[i], records[i]);
      SerializedFields(g, g[order[i]]);
    }
    forall i, j | 0 <= i < j < |records| ensures records[i][IdKey] != records[j][IdKey] {
      assert IsRecordOf(g, order[i], records[i]) && IsRecordOf(g, order[j], records[j]);
      if order[i] < order[j] {
        assert g[order[i]].id != g[order[j]].id;
      } else {
        assert g[order[j]].id != g[order[i]].id;
      }
    }
  }

  /** Everything `format_creativework` does before the flattener: the nodes it
      creates, and its initial worklist `graph` (the work, its identifier, the
      `creator` nodes, then the work's `get_related()`). */
  method BuildWork(a: Arena, work: Row, data: Data) returns (r: Result<seq<Handle>>)
    requires a.Valid()
    modifies a
    ensures a.Valid() && Grown(old(a.nodes), a.nodes)
    ensures var out := WorkGraph(a.uuid, |old(a.nodes)|, work, data);
      && (r.Ok? <==> out.Done?)
      && (r.Err? ==> r.error == out.error)
      && (r.Ok? ==> a.nodes == old(a.nodes) + out.built.nodes && r.value == out.built.handles)
  {
    ghost var g0 := a.nodes;
    var head := FormatWorkHead(a, work);
    if head.Err? {
      HeadErrorIs(a.uuid, |g0|, work, data);
      return Err(head.error);
    }
    var (w, wi) := head.value;
    ghost var mid := a.nodes;
    GrownAppend(g0, WorkHead(a.uuid, |g0|, work));
    if "contributors" !in work {
      return Err(KeyError("contributors"));
    }
    WorkHeadShape(a.uuid, |g0|, work);
    var cs := WorkCreators(a, w, work, data);
    GrownTrans(g0, mid, a.nodes);
    if cs.Err? {
      return Err(cs.error);
    }
    ghost var cons := WorkContributors(a.uuid, |g0|, work, data).built;
    WorkNodeKept(a.uuid, |g0|, work, g0, cons.nodes, a.nodes);
    r := Ok([w, wi] + cs.value + Related(a.nodes, w));
    HeadThenCreators(a.uuid, |g0|, work, data, g0, a.nodes, r.value);
  }

  /** The `creator` nodes: none when the `contributors` cell is empty, otherwise
      `format_contributor` for each `|`-piece, after the work's head. */
  method WorkCreators(a: Arena, w: Handle, work: Row, data: Data) returns (r: Result<seq<Handle>>)
    requires a.Valid() && HasHeadColumns(work) && "contributors" in work
    requires w < |a.nodes| && |a.nodes| == w + 2 + 2 * |TagNames(work)|
    modifies a
    ensures a.Valid() && Grown(old(a.nodes), a.nodes)
    ensures var out := WorkContributors(a.uuid, w, work, data);
      && (r.Ok? <==> out.Done?)
      && (r.Err? ==> r.error == out.error)
      && (r.Ok? ==> a.nodes == old(a.nodes) + out.built.nodes && r.value == out.built.handles)
  {
    if work["contributors"] == "" {
      assert a.nodes == a.nodes + [];
      return Ok([]);
    }
    r := FormatContributors(a, w, Split(work["contributors"], '|'), data);
  }

  /** Gluing the head and the creators back into `WorkGraph`. */
  lemma HeadThenCreators(uuid: nat -> string, b: Handle, work: Row, data: Data, g0: seq<NodeData>, g: seq<NodeData>,
                      graph: seq<Handle>)
    requires HasHeadColumns(work) && "contributors" in work && |g0| == b
    requires WorkContributors(uuid, b, work, data).Done?
    requires g == g0 + WorkHead(uuid, b, work) + WorkContributors(uuid, b, work, data).built.nodes
    requires b < |g| && Related(g, b) == WorkTags(b, work)
    requires graph == [b, b + 1] + WorkContributors(uuid, b, work, data).built.handles + Related(g, b)
    ensures WorkGraph(uuid, b, work, data).Done?
    ensures g == g0 + WorkGraph(uuid, b, work, data).built.nodes && graph == WorkGraph(uuid, b, work, data).built.handles
  {
    AppendAssoc(g0, WorkHead(uuid, b, work), WorkContributors(uuid, b, work, data).built.nodes);
  }

  /** After the contributors, the work node still has its `tags` list as its only
      edges. */
  lemma WorkNodeKept(uuid: nat -> string, b: Handle, work: Row, front: seq<NodeData>, rest: seq<NodeData>,
                     nodes: seq<NodeData>)
    requires HasHeadColumns(work) && b == |front| && nodes == front + WorkHead(uuid, b, work) + rest
    ensures b < |nodes| && Related(nodes, b) == WorkTags(b, work)
  {
    WorkHeadShape(uuid, b, work);
    assert nodes[b] == WorkHead(uuid, b, work)[0];
    WorkRelated(work, WorkTags(b, work));
  }

  lemma GrownTwo(front: seq<NodeData>, x: NodeData, y: NodeData)
    ensures Grown(front, front + [x] + [y])
  {
    assert (front + [x] + [y])[..|front|] == front;
  }

  lemma GrownAppend(front: seq<NodeData>, more: seq<NodeData>)
    ensures Grown(front, front + more)
  {
    assert (front + more)[..|front|] == front;
  }

  /** The handles `[lo, lo + n)` are `n` of them. */
  lemma {:induction false} SpanCard(s: set<Handle>, lo: nat, n: nat)
    requires forall h: Handle :: h in s <==> lo <= h < lo + n
    ensures |s| == n
  {
    if n == 0 {
      assert s == {};
    } else {
      assert lo + n - 1 in s;
      SpanCard(s - {lo + n - 1}, lo, n - 1);
    }
  }
}
