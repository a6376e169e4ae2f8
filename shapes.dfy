/** What the formatters build, node by node, and when they raise `KeyError`. */
module Shapes {
  import opened PyStrings
  import opened Nodes
  import opened Heap
  import opened Blocks

  /** Looking up the key of a two-entry dictionary with distinct keys. */
  lemma GetPair(attrs: Attrs)
    requires |attrs| == 2 && attrs[0].0 != attrs[1].0
    ensures Get(attrs, attrs[0].0) == Some(attrs[0].1) && Get(attrs, attrs[1].0) == Some(attrs[1].1)
  {
    GetUnique(attrs, 0);
    GetUnique(attrs, 1);
  }

  /** `e` is an `isaffiliatedwith` node of the block `ns` allocated at `b`, whose
      subject is the person at `b` and whose related node, a `kind` named `name`, was
      created just before it. */
  predicate AffiliatedWith(ns: seq<NodeData>, b: Handle, e: Handle, kind: string, name: string) {
    && b + 1 < e < b + |ns|
    && ns[e - b].kind == "isaffiliatedwith"
    && Get(ns[e - b].attrs, "subject") == Some(Node(b))
    && Get(ns[e - b].attrs, "related") == Some(Node(e - 1))
    && ns[e - 1 - b].kind == kind
    && Get(ns[e - 1 - b].attrs, "name") == Some(Scalar(Str(name)))
  }

  lemma AffiliationShape(uuid: nat -> string, ns: seq<NodeData>, b: Handle, at: Handle, kind: string, name: string)
    requires name != "" && b < at && at + 2 <= b + |ns| && ns[at - b..at - b + 2] == Affiliation(uuid, b, at, kind, name)
    ensures AffiliatedWith(ns, b, at + 1, kind, name)
  {
    var pair := Affiliation(uuid, b, at, kind, name);
    assert ns[at - b] == pair[0] && ns[at + 1 - b] == pair[1];
    GetPair(pair[1].attrs);
    assert Get(pair[0].attrs, "name") == Some(Scalar(Str(name)));
  }

  /** `format_agent`: the person comes first, with a fresh identifier, the lower-cased
      `type` and the `name` of the row, and its `related_agents` list. */
  lemma AgentPerson(uuid: nat -> string, b: Handle, agent: Row)
    requires AgentBlock(uuid, b, agent).Ok?
    ensures var person := AgentBlock(uuid, b, agent).value[0];
      && person.id == "_:" + uuid(b) && person.kind == Lower(agent["type"])
      && UniqueKeys(person.attrs)
      && Get(person.attrs, "name") == Some(Scalar(Str(agent["name"])))
      && Get(person.attrs, "related_agents") == Some(List(AgentEdges(b, agent)))
  {
    GetPair(AgentBlock(uuid, b, agent).value[0].attrs);
  }

  /** `related_agents` holds one `isaffiliatedwith` node per non-empty `affiliation`
      and `department` cell, in that order, joining the person to an `institution`
      or `department` node named by that cell. */
  lemma AgentAffiliations(uuid: nat -> string, b: Handle, agent: Row)
    requires AgentBlock(uuid, b, agent).Ok?
    ensures var ns := AgentBlock(uuid, b, agent).value;
      var es := AgentEdges(b, agent);
      && |es| == (if agent["affiliation"] == "" then 0 else 1) + (if agent["department"] == "" then 0 else 1)
      && (agent["affiliation"] != "" ==> AffiliatedWith(ns, b, es[0], "institution", agent["affiliation"]))
      && (agent["department"] != "" ==> AffiliatedWith(ns, b, es[|es| - 1], "department", agent["department"]))
  {
    var ns := AgentBlock(uuid, b, agent).value;
    var a := AffSize(agent, "affiliation");
    var aff := Affiliation(uuid, b, b + 1, "institution", agent["affiliation"]);
    var dep := Affiliation(uuid, b, b + 1 + a, "department", agent["department"]);
    assert ns == [ns[0]] + aff + dep;
    if agent["affiliation"] != "" {
      assert ns[1..3] == aff;
      AffiliationShape(uuid, ns, b, b + 1, "institution", agent["affiliation"]);
    }
    if agent["department"] != "" {
      assert ns[1 + a..3 + a] == dep;
      AffiliationShape(uuid, ns, b, b + 1 + a, "department", agent["department"]);
    }
  }

  /** `format_agent` fails exactly when a column it reads is missing, with the first
      missing one in reading order. */
  lemma AgentErrors(uuid: nat -> string, b: Handle, agent: Row)
    ensures AgentBlock(uuid, b, agent).Ok? <==> HasAll(AgentColumns, agent)
    ensures AgentBlock(uuid, b, agent).Err? ==> FirstMissing(AgentColumns, agent, AgentBlock(uuid, b, agent).error.key)
  {
    var r := AgentBlock(uuid, b, agent);
    if r.Err? {
      var i := if "type" !in agent then 0 else if "name" !in agent then 1
               else if "affiliation" !in agent then 2 else 3;
      assert AgentColumns[i] == r.error.key;
    } else {
      assert HasAll(AgentColumns, agent);
    }
  }

  /** The edge of `format_contributor` points at the person and at the work, has
      `order_cited` the index for a bibliographic contributor and `None` otherwise,
      and `cited_as` the agent's name. */
  lemma CreatorFields(person: Handle, work: Handle, name: string, bibliographic: bool, index: int)
    ensures var a := CreatorAttrs(person, work, name, bibliographic, index);
      && UniqueKeys(a) && NoReservedKeys(a)
      && Get(a, "agent") == Some(Node(person))
      && Get(a, "order_cited") == Some(Scalar(if bibliographic then Int(index) else Null))
      && Get(a, "creative_work") == Some(Node(work))
      && Get(a, "cited_as") == Some(Scalar(Str(name)))
  {
    var a := CreatorAttrs(person, work, name, bibliographic, index);
    GetUnique(a, 0);
    GetUnique(a, 1);
    GetUnique(a, 2);
    GetUnique(a, 3);
  }

  /** `format_contributor`: the agent's nodes, then an edge node whose type is
      `creator` exactly when the contributor is bibliographic, pointing at the person
      with the fields of `CreatorFields`. It fails as `format_agent` does. */
  lemma ContributorShape(uuid: nat -> string, b: Handle, work: Handle, agent: Row, bibliographic: bool, index: int)
    ensures var r := ContributorBlock(uuid, b, work, agent, bibliographic, index);
      && (r.Ok? <==> AgentBlock(uuid, b, agent).Ok?)
      && (r.Err? ==> r.error == AgentBlock(uuid, b, agent).error)
    ensures var r := ContributorBlock(uuid, b, work, agent, bibliographic, index);
      r.Ok? ==>
        var ns := r.value;
        var c := ns[|ns| - 1];
        && ns[..|ns| - 1] == AgentBlock(uuid, b, agent).value
        && c.id == "_:" + uuid(b + |ns| - 1)
        && c.kind == (if bibliographic then "creator" else "contributor")
        && c.attrs == CreatorAttrs(b, work, agent["name"], bibliographic, index)
  {
    var r := ContributorBlock(uuid, b, work, agent, bibliographic, index);
    if r.Ok? {
      assert r.value[..|r.value| - 1] == AgentBlock(uuid, b, agent).value;
    }
  }

  /** `format_contributor` fails exactly when `format_agent` does. */
  lemma ContributorErrors(uuid: nat -> string, b: Handle, work: Handle, agent: Row, bibliographic: bool, index: int)
    ensures ContributorBlock(uuid, b, work, agent, bibliographic, index).Ok? <==> HasAll(AgentColumns, agent)
    ensures var r := ContributorBlock(uuid, b, work, agent, bibliographic, index);
      r.Err? ==> FirstMissing(AgentColumns, agent, r.error.key)
  {
    AgentErrors(uuid, b, agent);
  }

  /** When serialized, a bibliographic contributor's edge keeps its `order_cited`, even
      `0`, and a non-bibliographic one's `None` is dropped. */
  lemma OrderCited(g: seq<NodeData>, c: NodeData, work: Handle, person: Handle, bibliographic: bool, index: int, name: string)
    requires c.attrs == CreatorAttrs(person, work, name, bibliographic, index)
    requires person < |g| && work < |g|
    ensures AttrsWithin(c.attrs, 0, |g|)
    ensures ("order_cited" in Serialized(g, c)) <==> bibliographic
    ensures bibliographic ==> Serialized(g, c)["order_cited"] == Lit(Int(index))
  {
    CreatorWithin(person, work, name, bibliographic, index, 0, |g|);
    SerializedField(g, c, 1);
  }

  /** The edge node refers to the person and the work only. */
  lemma CreatorWithin(person: Handle, work: Handle, name: string, bibliographic: bool, index: int, lo: nat, hi: nat)
    requires lo <= person < hi && lo <= work < hi
    ensures AttrsWithin(CreatorAttrs(person, work, name, bibliographic, index), lo, hi)
  {
    var a := CreatorAttrs(person, work, name, bibliographic, index);
    forall i | 0 <= i < |a| ensures ValueWithin(a[i].1, lo, hi) {
      if i == 0 { assert Yielded(a[i].1) == [person]; }
      if i == 2 { assert Yielded(a[i].1) == [work]; }
    }
  }

  /** The tags comprehension, in closed form: name `j` gives the `tag` node at
      `b + 2j`, and right after it the `throughtags` node joining the work to that
      tag. */
  lemma {:induction false} TagShape(uuid: nat -> string, b: Handle, work: Handle, names: seq<string>)
    ensures TagPairs(uuid, b, work, names, TagNodes(uuid, b, work, names))
    decreases |names|
  {
    if names != [] {
      var n := |names|;
      var prefix := names[..n - 1];
      TagShape(uuid, b, work, prefix);
      var prev := TagNodes(uuid, b, work, prefix);
      var ns := TagNodes(uuid, b, work, names);
      var t := b + |prev|;
      assert ns == prev + [NewNodeData(uuid, t, "tag", [("name", Scalar(Str(names[n - 1])))]),
                           NewNodeData(uuid, t + 1, "throughtags", [("creative_work", Node(work)), ("tag", Node(t))])];
      forall j | 0 <= j < n
        ensures ns[2 * j] == NewNodeData(uuid, b + 2 * j, "tag", [("name", Scalar(Str(names[j])))])
        ensures ns[2 * j + 1] == NewNodeData(uuid, b + 2 * j + 1, "throughtags", [("creative_work", Node(work)), ("tag", Node(b + 2 * j))])
      {
        if j < n - 1 {
          assert prefix[j] == names[j];
          assert ns[2 * j] == prev[2 * j] && ns[2 * j + 1] == prev[2 * j + 1];
        } else {
          assert 2 * j == |prev|;
        }
      }
    }
  }

  /** `ns` holds, for name `j`, the `tag` node at `b + 2j` and the `throughtags` node
      joining `work` to it right after. */
  ghost predicate TagPairs(uuid: nat -> string, b: Handle, work: Handle, names: seq<string>, ns: seq<NodeData>) {
    && |ns| == 2 * |names|
    && forall j :: 0 <= j < |names| ==>
      && ns[2 * j] == NewNodeData(uuid, b + 2 * j, "tag", [("name", Scalar(Str(names[j])))])
      && ns[2 * j + 1] == NewNodeData(uuid, b + 2 * j + 1, "throughtags", [("creative_work", Node(work)), ("tag", Node(b + 2 * j))])
  }

  /** The handles `ThroughHandles` lists are those of the `throughtags` nodes. */
  lemma {:induction false} ThroughHandlesAt(b: Handle, n: nat)
    ensures |ThroughHandles(b, n)| == n
    ensures forall j :: 0 <= j < n ==> ThroughHandles(b, n)[j] == b + 2 * j + 1
  {
    if n > 0 {
      ThroughHandlesAt(b, n - 1);
    }
  }

  /** One step of the generator: an earlier error is passed on; otherwise the step
      succeeds exactly when the key's lookups and `format_agent` succeed, and fails
      with the key's error. */
  lemma ContributorStepSpec(uuid: nat -> string, b: Handle, work: Handle, key: string, i: nat, data: Data, before: Outcome)
    ensures before.Failed? ==> ContributorStep(uuid, b, work, key, i, data, before) == before
    ensures before.Done? ==> (ContributorStep(uuid, b, work, key, i, data, before).Done? <==> PieceOk(data, key))
    ensures var r := ContributorStep(uuid, b, work, key, i, data, before);
      before.Done? && r.Failed? ==> PieceError(data, key, r.error)
    ensures before.Done? && PieceOk(data, key) ==>
      ContributorBlock(uuid, b + |before.built.nodes|, work, data["contributors"][key], true, i).Ok?
  {
    if before.Done? && Found(data, key) {
      ContributorErrors(uuid, b + |before.built.nodes|, work, data["contributors"][key], true, i);
    }
  }

  /** A step after a successful one, for a key whose lookups succeed, appends the
      key's block and yields the last node of that block. */
  lemma ContributorStepDone(uuid: nat -> string, b: Handle, work: Handle, key: string, i: nat, data: Data,
                            prev: Built, blk: seq<NodeData>)
    requires Found(data, key)
    requires ContributorBlock(uuid, b + |prev.nodes|, work, data["contributors"][key], true, i) == Ok(blk)
    ensures ContributorStep(uuid, b, work, key, i, data, Done(prev))
            == Done(Built(prev.nodes + blk, prev.handles + [b + |prev.nodes| + |blk| - 1]))
  {
  }

  /** The contributors generator succeeds exactly when every key's lookups and
      `format_agent` succeed; otherwise the error is that of the first failing key. */
  lemma {:induction false} ContributorsErrors(uuid: nat -> string, b: Handle, work: Handle, keys: seq<string>, data: Data)
    ensures Contributors(uuid, b, work, keys, data).Done? <==> forall k :: 0 <= k < |keys| ==> PieceOk(data, keys[k])
    ensures var r := Contributors(uuid, b, work, keys, data);
      r.Failed? ==> exists k :: FirstFailing(data, keys, k, r.error)
    decreases |keys|
  {
    if keys != [] {
      var n := |keys|;
      var prefix := keys[..n - 1];
      ContributorsErrors(uuid, b, work, prefix, data);
      var before := Contributors(uuid, b, work, prefix, data);
      ContributorStepSpec(uuid, b, work, keys[n - 1], n - 1, data, before);
      ErrorsStep(data, prefix, keys, before, Contributors(uuid, b, work, keys, data));
    }
  }

  /** The step of `ContributorsErrors`, from what the earlier keys gave (`before`) and
      what one more step gives (`r`). */
  lemma ErrorsStep(data: Data, prefix: seq<string>, keys: seq<string>, before: Outcome, r: Outcome)
    requires keys != [] && prefix == keys[..|keys| - 1]
    requires before.Done? <==> forall k :: 0 <= k < |prefix| ==> PieceOk(data, prefix[k])
    requires before.Failed? ==> exists k :: FirstFailing(data, prefix, k, before.error)
    requires before.Failed? ==> r == before
    requires before.Done? ==> (r.Done? <==> PieceOk(data, keys[|keys| - 1]))
    requires before.Done? && r.Failed? ==> PieceError(data, keys[|keys| - 1], r.error)
    ensures r.Done? <==> forall k :: 0 <= k < |keys| ==> PieceOk(data, keys[k])
    ensures r.Failed? ==> exists k :: FirstFailing(data, keys, k, r.error)
  {
    var n := |keys|;
    if before.Failed? {
      var k :| FirstFailing(data, prefix, k, before.error);
      FirstFailingExtends(data, prefix, keys, k, before.error);
      assert !PieceOk(data, keys[k]);
    } else if r.Done? {
      forall k | 0 <= k < n ensures PieceOk(data, keys[k]) {
        if k < n - 1 { assert prefix[k] == keys[k]; }
      }
    } else {
      assert FirstFailing(data, keys, n - 1, r.error) by {
        forall k | 0 <= k < n - 1 ensures PieceOk(data, keys[k]) {
          assert prefix[k] == keys[k];
        }
      }
    }
  }

  /** Key `k` is the first whose lookups fail, and it fails with `e`. */
  ghost predicate FirstFailing(data: Data, keys: seq<string>, k: int, e: Error) {
    && 0 <= k < |keys| && !PieceOk(data, keys[k]) && PieceError(data, keys[k], e)
    && forall j :: 0 <= j < k ==> PieceOk(data, keys[j])
  }

  lemma FirstFailingExtends(data: Data, keys: seq<string>, more: seq<string>, k: int, e: Error)
    requires FirstFailing(data, keys, k, e) && keys <= more
    ensures FirstFailing(data, more, k, e)
  {
    assert forall j :: 0 <= j <= k ==> more[j] == keys[j];
  }

  /** Where the block of contributor `k` starts: right after the `creator` node of
      contributor `k - 1`. */
  function BlockStart(b: Handle, hs: seq<Handle>, k: nat): Handle
    requires k <= |hs|
  {
    if k == 0 then b else hs[k - 1] + 1
  }

  /** The nodes of contributor `k` in `built` are `format_agent`'s for the row of key
      `k`, followed by that key's `creator` node, with `order_cited` equal to `k`. */
  ghost predicate PieceAt(uuid: nat -> string, b: Handle, work: Handle, keys: seq<string>, data: Data, built: Built, k: nat) {
    && k < |keys| == |built.handles|
    && PieceOk(data, keys[k])
    && var row := data["contributors"][keys[k]];
       var p := BlockStart(b, built.handles, k);
       var c := built.handles[k];
       && b <= p && c == p + AgentSize(row) && c < b + |built.nodes|
       && AgentBlock(uuid, p, row) == Ok(built.nodes[p - b..c - b])
       && built.nodes[c - b] == NewNodeData(uuid, c, "creator", CreatorAttrs(p, work, row["name"], true, k))
  }

  /** The contributors generator, piece by piece: the blocks follow one another from
      `b` without gaps, one per key, in order. */
  lemma {:induction false} ContributorsShape(uuid: nat -> string, b: Handle, work: Handle, keys: seq<string>, data: Data)
    requires Contributors(uuid, b, work, keys, data).Done?
    ensures Laid(uuid, b, work, keys, data, Contributors(uuid, b, work, keys, data).built)
    decreases |keys|
  {
    if keys != [] {
      var n := |keys|;
      var prefix := keys[..n - 1];
      var before := Contributors(uuid, b, work, prefix, data);
      ContributorStepSpec(uuid, b, work, keys[n - 1], n - 1, data, before);
      ContributorsShape(uuid, b, work, prefix, data);
      var prev := before.built;
      var blk := ContributorBlock(uuid, b + |prev.nodes|, work, data["contributors"][keys[n - 1]], true, n - 1).value;
      LaidStep(uuid, b, work, keys, data, prev, blk);
      ContributorStepDone(uuid, b, work, keys[n - 1], n - 1, data, prev, blk);
    }
  }

  /** `built` lays out the blocks of all of `keys`, as `ContributorsShape` states. */
  ghost predicate Laid(uuid: nat -> string, b: Handle, work: Handle, keys: seq<string>, data: Data, built: Built) {
    && |built.handles| == |keys|
    && (forall k :: 0 <= k < |keys| ==> PieceAt(uuid, b, work, keys, data, built, k))
    && b + |built.nodes| == BlockStart(b, built.handles, |keys|)
  }

  /** Laying out one more key after the others. */
  lemma LaidStep(uuid: nat -> string, b: Handle, work: Handle, keys: seq<string>, data: Data, prev: Built, blk: seq<NodeData>)
    requires keys != [] && Laid(uuid, b, work, keys[..|keys| - 1], data, prev)
    requires PieceOk(data, keys[|keys| - 1])
    requires var row := data["contributors"][keys[|keys| - 1]];
      ContributorBlock(uuid, b + |prev.nodes|, work, row, true, |keys| - 1) == Ok(blk)
    ensures Laid(uuid, b, work, keys, data, Built(prev.nodes + blk, prev.handles + [b + |prev.nodes| + |blk| - 1]))
  {
    var last := b + |prev.nodes| + |blk| - 1;
    var built := Built(prev.nodes + blk, prev.handles + [last]);
    PieceAtLast(uuid, b, work, keys, data, prev, blk, built);
    SnocGrows(b, prev, blk, last);
    LaidExtend(uuid, b, work, keys, data, prev, built);
  }

  /** Appending a block and its `creator` handle keeps what was there, and the next
      block starts after the new `creator`. */
  lemma SnocGrows(b: Handle, prev: Built, blk: seq<NodeData>, last: Handle)
    ensures prev.nodes <= prev.nodes + blk && prev.handles <= prev.handles + [last]
    ensures BlockStart(b, prev.handles + [last], |prev.handles| + 1) == last + 1
  {
  }

  /** The earlier contributors stay laid out when one more is appended. */
  lemma LaidExtend(uuid: nat -> string, b: Handle, work: Handle, keys: seq<string>, data: Data, prev: Built, next: Built)
    requires keys != [] && Laid(uuid, b, work, keys[..|keys| - 1], data, prev)
    requires PieceAt(uuid, b, work, keys, data, next, |keys| - 1)
    requires prev.nodes <= next.nodes && prev.handles <= next.handles && |next.handles| == |keys|
    requires b + |next.nodes| == BlockStart(b, next.handles, |keys|)
    ensures Laid(uuid, b, work, keys, data, next)
  {
    var n := |keys|;
    forall k | 0 <= k < n ensures PieceAt(uuid, b, work, keys, data, next, k) {
      if k < n - 1 {
        PieceAtExtends(uuid, b, work, keys[..n - 1], keys, data, prev, next, k);
      }
    }
  }

  /** The block the generator appends for the last key. */
  lemma PieceAtLast(uuid: nat -> string, b: Handle, work: Handle, keys: seq<string>, data: Data, prev: Built,
                    blk: seq<NodeData>, next: Built)
    requires |keys| == |prev.handles| + 1 && PieceOk(data, keys[|keys| - 1])
    requires b + |prev.nodes| == BlockStart(b, prev.handles, |prev.handles|)
    requires var row := data["contributors"][keys[|keys| - 1]];
      ContributorBlock(uuid, b + |prev.nodes|, work, row, true, |keys| - 1) == Ok(blk)
    requires next.nodes == prev.nodes + blk && next.handles == prev.handles + [b + |prev.nodes| + |blk| - 1]
    ensures PieceAt(uuid, b, work, keys, data, next, |keys| - 1)
  {
    var k := |keys| - 1;
    var row := data["contributors"][keys[k]];
    var p := b + |prev.nodes|;
    ContributorShape(uuid, p, work, row, true, k);
    var ag := blk[..|blk| - 1];
    assert BlockStart(b, next.handles, k) == p;
    assert next.nodes[p - b..p - b + |ag|] == ag;
    assert next.nodes[p - b + |ag|] == blk[|blk| - 1];
    PieceFromParts(uuid, b, work, keys, data, next, k, p, ag);
  }

  /** Contributor `k` of `next` from its two parts: the agent's nodes from `p`, then
      the `creator` node. */
  lemma PieceFromParts(uuid: nat -> string, b: Handle, work: Handle, keys: seq<string>, data: Data, next: Built,
                       k: nat, p: Handle, ag: seq<NodeData>)
    requires k < |keys| == |next.handles| && PieceOk(data, keys[k])
    requires BlockStart(b, next.handles, k) == p && b <= p && next.handles[k] == p + |ag|
    requires p - b + |ag| < |next.nodes| && next.nodes[p - b..p - b + |ag|] == ag
    requires AgentBlock(uuid, p, data["contributors"][keys[k]]) == Ok(ag)
    requires next.nodes[p - b + |ag|].id == "_:" + uuid(p + |ag|) && next.nodes[p - b + |ag|].kind == "creator"
    requires next.nodes[p - b + |ag|].attrs == CreatorAttrs(p, work, data["contributors"][keys[k]]["name"], true, k)
    ensures PieceAt(uuid, b, work, keys, data, next, k)
  {
  }

  /** Appending more contributors leaves the earlier ones where they were. */
  lemma PieceAtExtends(uuid: nat -> string, b: Handle, work: Handle, keys: seq<string>, more: seq<string>, data: Data,
                       prev: Built, next: Built, k: nat)
    requires PieceAt(uuid, b, work, keys, data, prev, k)
    requires keys <= more && |more| == |next.handles|
    requires prev.nodes <= next.nodes && prev.handles <= next.handles
    ensures PieceAt(uuid, b, work, more, data, next, k)
  {
    assert more[k] == keys[k];
    var row := data["contributors"][keys[k]];
    var p := BlockStart(b, prev.handles, k);
    var c := prev.handles[k];
    assert BlockStart(b, next.handles, k) == p;
    assert next.nodes[p - b..c - b] == prev.nodes[p - b..c - b];
  }
}
