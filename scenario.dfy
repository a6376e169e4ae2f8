/** A worked case of `format_creativework`: two tags and two contributors whose
    agent rows have empty `affiliation` and `department` cells. */
module Scenario {
  import opened PyStrings
  import opened Nodes
  import opened Heap
  import opened Blocks
  import opened Shapes
  import opened WorkShapes
  import opened Formatters

  /** The node types of `ns`, in allocation order. */
  function Kinds(ns: seq<NodeData>): (ks: seq<string>)
    ensures |ks| == |ns| && forall i :: 0 <= i < |ns| ==> ks[i] == ns[i].kind
  {
    if ns == [] then [] else [ns[0].kind] + Kinds(ns[1..])
  }

  /** An agent row with every column and no affiliation or department. */
  predicate BareAgent(row: Row) {
    && "type" in row && "name" in row && "affiliation" in row && "department" in row
    && row["affiliation"] == "" && row["department"] == ""
  }

  /** The work row of the case: every column, `tags = "x|y"`, `contributors = "u1|u2"`. */
  predicate CaseWork(work: Row) {
    && "type" in work && "title" in work && "description" in work && "url" in work
    && "tags" in work && "contributors" in work
    && work["tags"] == "x|y" && work["contributors"] == "u1|u2"
  }

  /** The data of the case: both contributor keys resolve to bare agents. */
  predicate CaseData(data: Data) {
    && "contributors" in data && "u1" in data["contributors"] && "u2" in data["contributors"]
    && BareAgent(data["contributors"]["u1"]) && BareAgent(data["contributors"]["u2"])
  }

  /** Ten nodes: the work, its identifier, a `tag` and a `throughtags` per tag, then a
      person and its `creator` per contributor; the worklist holds the work, the
      identifier, both creators and both `throughtags`. */
  lemma TwoTagsTwoCreators(uuid: nat -> string, b: Handle, work: Row, data: Data)
    requires CaseWork(work) && CaseData(data)
    ensures WorkGraph(uuid, b, work, data).Done?
    ensures var built := WorkGraph(uuid, b, work, data).built;
      && Kinds(built.nodes)
         == [Lower(work["type"]), "workidentifier", "tag", "throughtags", "tag", "throughtags",
             Lower(data["contributors"]["u1"]["type"]), "creator",
             Lower(data["contributors"]["u2"]["type"]), "creator"]
      && built.handles == [b, b + 1, b + 7, b + 9, b + 3, b + 5]
  {
    var head := WorkHead(uuid, b, work);
    var cons := WorkContributors(uuid, b, work, data);
    CaseHead(uuid, b, work);
    CaseCreators(uuid, b, work, data);
    KindsAppend(head, cons.built.nodes);
  }

  /** The head of the case: six nodes, and the `tags` list holds both `throughtags`. */
  lemma CaseHead(uuid: nat -> string, b: Handle, work: Row)
    requires CaseWork(work)
    ensures Kinds(WorkHead(uuid, b, work)) == [Lower(work["type"]), "workidentifier", "tag", "throughtags", "tag", "throughtags"]
    ensures WorkTags(b, work) == [b + 3, b + 5]
    ensures |TagNames(work)| == 2
  {
    CaseTagNames(work);
    WorkHeadShape(uuid, b, work);
    WorkTagPairs(uuid, b, work);
    var head := WorkHead(uuid, b, work);
    var tts := WorkTags(b, work);
    assert head[2 + 2 * 0].kind == "tag" && head[3 + 2 * 0].kind == "throughtags";
    assert head[2 + 2 * 1].kind == "tag" && head[3 + 2 * 1].kind == "throughtags";
    assert tts[0] == b + 3 + 2 * 0 && tts[1] == b + 3 + 2 * 1;
    SixKinds(head, Lower(work["type"]));
    assert tts == [b + 3, b + 5];
  }

  lemma SixKinds(head: seq<NodeData>, k: string)
    requires |head| == 6 && head[0].kind == k && head[1].kind == "workidentifier"
    requires head[2].kind == "tag" && head[3].kind == "throughtags" && head[4].kind == "tag" && head[5].kind == "throughtags"
    ensures Kinds(head) == [k, "workidentifier", "tag", "throughtags", "tag", "throughtags"]
  {
  }

  lemma CaseTagNames(work: Row)
    requires CaseWork(work)
    ensures TagNames(work) == ["x", "y"]
  {
    assert "x|y" == "x" + ['|'] + "y";
    SplitPair("x", "y", '|');
    StripUnchanged("x");
    StripUnchanged("y");
  }

  lemma CaseKeys(work: Row)
    requires CaseWork(work)
    ensures ContributorKeys(work) == ["u1", "u2"]
  {
    assert "u1|u2" == "u1" + ['|'] + "u2";
    SplitPair("u1", "u2", '|');
    StripUnchanged("u1");
    StripUnchanged("u2");
  }

  /** The creators of the case: a person and its `creator` per key, from `b + 6`. */
  lemma CaseCreators(uuid: nat -> string, b: Handle, work: Row, data: Data)
    requires CaseWork(work) && CaseData(data) && |TagNames(work)| == 2
    ensures var cons := WorkContributors(uuid, b, work, data);
      && cons.Done? && cons.built.handles == [b + 7, b + 9]
      && Kinds(cons.built.nodes)
         == [Lower(data["contributors"]["u1"]["type"]), "creator", Lower(data["contributors"]["u2"]["type"]), "creator"]
  {
    CaseKeys(work);
    var keys := ["u1", "u2"];
    BareCreators(uuid, b + 6, b, keys, data);
  }

  /** Two keys resolving to bare agents: one person and one `creator` each. */
  lemma BareCreators(uuid: nat -> string, b: Handle, work: Handle, keys: seq<string>, data: Data)
    requires |keys| == 2 && Found(data, keys[0]) && Found(data, keys[1])
    requires BareAgent(data["contributors"][keys[0]]) && BareAgent(data["contributors"][keys[1]])
    ensures var r := Contributors(uuid, b, work, keys, data);
      && r.Done? && r.built.handles == [b + 1, b + 3]
      && Kinds(r.built.nodes)
         == [Lower(data["contributors"][keys[0]]["type"]), "creator", Lower(data["contributors"][keys[1]]["type"]), "creator"]
  {
    BareOk(data, keys[0]);
    BareOk(data, keys[1]);
    ContributorsErrors(uuid, b, work, keys, data);
    ContributorsShape(uuid, b, work, keys, data);
    BareLaid(uuid, b, work, keys, data, Contributors(uuid, b, work, keys, data).built);
  }

  lemma BareLaid(uuid: nat -> string, b: Handle, work: Handle, keys: seq<string>, data: Data, built: Built)
    requires |keys| == 2 && Found(data, keys[0]) && Found(data, keys[1])
    requires BareAgent(data["contributors"][keys[0]]) && BareAgent(data["contributors"][keys[1]])
    requires Laid(uuid, b, work, keys, data, built)
    ensures built.handles == [b + 1, b + 3]
    ensures Kinds(built.nodes)
            == [Lower(data["contributors"][keys[0]]["type"]), "creator", Lower(data["contributors"][keys[1]]["type"]), "creator"]
  {
    assert PieceAt(uuid, b, work, keys, data, built, 0) && PieceAt(uuid, b, work, keys, data, built, 1);
    BarePiece(uuid, b, work, keys, data, built, 0);
    BarePiece(uuid, b, work, keys, data, built, 1);
    assert b + |built.nodes| == BlockStart(b, built.handles, 2);
    FourKinds(built.nodes, Lower(data["contributors"][keys[0]]["type"]), Lower(data["contributors"][keys[1]]["type"]));
  }

  lemma BareOk(data: Data, key: string)
    requires Found(data, key) && BareAgent(data["contributors"][key])
    ensures PieceOk(data, key)
  {
    var row := data["contributors"][key];
    assert forall i :: 0 <= i < |AgentColumns| ==> AgentColumns[i] in row;
  }

  /** A bare agent's block is the person alone, and its `creator` follows. */
  lemma BarePiece(uuid: nat -> string, b: Handle, work: Handle, keys: seq<string>, data: Data, built: Built, k: nat)
    requires PieceAt(uuid, b, work, keys, data, built, k) && BareAgent(data["contributors"][keys[k]])
    ensures var p := BlockStart(b, built.handles, k);
      && built.handles[k] == p + 1 && p + 1 < b + |built.nodes|
      && built.nodes[p - b].kind == Lower(data["contributors"][keys[k]]["type"])
      && built.nodes[p + 1 - b].kind == "creator"
  {
    var row := data["contributors"][keys[k]];
    var p := BlockStart(b, built.handles, k);
    assert AgentSize(row) == 1;
    var blk := AgentBlock(uuid, p, row).value;
    assert blk == built.nodes[p - b..p + 1 - b];
    assert blk[0] == built.nodes[p - b];
  }

  lemma FourKinds(ns: seq<NodeData>, k1: string, k2: string)
    requires |ns| == 4 && ns[0].kind == k1 && ns[1].kind == "creator" && ns[2].kind == k2 && ns[3].kind == "creator"
    ensures Kinds(ns) == [k1, "creator", k2, "creator"]
  {
  }

  lemma KindsAppend(xs: seq<NodeData>, ys: seq<NodeData>)
    ensures Kinds(xs + ys) == Kinds(xs) + Kinds(ys)
  {
    assert forall i :: 0 <= i < |xs + ys| ==> Kinds(xs + ys)[i] == (Kinds(xs) + Kinds(ys))[i];
  }
}
