/** What `format_creativework` builds before flattening, and when it raises
    `KeyError`. */
module WorkShapes {
  import opened PyStrings
  import opened Nodes
  import opened Heap
  import opened Blocks
  import opened Shapes

  /** The work row has every column `format_creativework` reads. */
  lemma HasWorkColumns(work: Row)
    requires HasAll(WorkColumns, work)
    ensures "type" in work && "title" in work && "description" in work
    ensures "url" in work && "tags" in work && "contributors" in work
  {
    assert WorkColumns[0] in work && WorkColumns[1] in work && WorkColumns[2] in work;
    assert WorkColumns[3] in work && WorkColumns[4] in work && WorkColumns[5] in work;
  }

  /** Every contributor key's lookups and `format_agent` succeed. */
  predicate AllPiecesOk(data: Data, keys: seq<string>) {
    forall k :: 0 <= k < |keys| ==> PieceOk(data, keys[k])
  }

  /** `format_creativework` succeeds exactly when the work row has all its columns and,
      when the `contributors` cell is non-empty, every contributor key resolves to a
      complete agent row. A missing work column is reported first, in reading order;
      otherwise the error is that of the first failing contributor. */
  lemma WorkErrors(uuid: nat -> string, b: Handle, work: Row, data: Data)
    ensures WorkGraph(uuid, b, work, data).Done? <==>
      && HasAll(WorkColumns, work)
      && ("contributors" in work && work["contributors"] != "" ==> AllPiecesOk(data, ContributorKeys(work)))
    ensures WorkGraph(uuid, b, work, data).Failed? && !HasAll(WorkColumns, work) ==>
      FirstMissing(WorkColumns, work, WorkGraph(uuid, b, work, data).error.key)
    ensures var r := WorkGraph(uuid, b, work, data);
      r.Failed? && HasAll(WorkColumns, work) ==>
        && "contributors" in work && work["contributors"] != ""
        && exists k :: FirstFailing(data, ContributorKeys(work), k, r.error)
  {
    if !HasAll(WorkColumns, work) {
      WorkMissing(uuid, b, work, data);
    } else {
      HasWorkColumns(work);
      WorkPresent(uuid, b, work, data);
      CreatorsErrors(uuid, b, work, data);
    }
  }

  /** A missing work column is the first error. */
  lemma WorkMissing(uuid: nat -> string, b: Handle, work: Row, data: Data)
    requires !HasAll(WorkColumns, work)
    ensures WorkGraph(uuid, b, work, data).Failed?
    ensures FirstMissing(WorkColumns, work, WorkGraph(uuid, b, work, data).error.key)
  {
    var r := WorkGraph(uuid, b, work, data);
    var i := if "type" !in work then 0 else if "title" !in work then 1
             else if "description" !in work then 2 else if "url" !in work then 3
             else if "tags" !in work then 4 else 5;
    assert WorkColumns[i] == r.error.key;
  }

  /** With every column present, the outcome is that of the contributors part. */
  lemma WorkPresent(uuid: nat -> string, b: Handle, work: Row, data: Data)
    requires "type" in work && "title" in work && "description" in work && "url" in work
    requires "tags" in work && "contributors" in work
    ensures WorkGraph(uuid, b, work, data).Done? <==> WorkContributors(uuid, b, work, data).Done?
    ensures WorkGraph(uuid, b, work, data).Failed? ==>
      WorkGraph(uuid, b, work, data).error == WorkContributors(uuid, b, work, data).error
  {
  }

  /** The contributors part succeeds when the cell is empty, and otherwise exactly
      when every key resolves; a failure is that of the first failing key. */
  lemma CreatorsErrors(uuid: nat -> string, b: Handle, work: Row, data: Data)
    requires "tags" in work && "contributors" in work
    ensures WorkContributors(uuid, b, work, data).Done? <==>
      (work["contributors"] != "" ==> AllPiecesOk(data, ContributorKeys(work)))
    ensures var r := WorkContributors(uuid, b, work, data);
      r.Failed? ==> work["contributors"] != "" && exists k :: FirstFailing(data, ContributorKeys(work), k, r.error)
  {
    if work["contributors"] != "" {
      ContributorsErrors(uuid, b + 2 + 2 * |TagNames(work)|, b, ContributorKeys(work), data);
    }
  }

  /** The work node's dictionary: `title` and `description` from the row,
      `is_deleted=False`, and the `tags` list; `get_related()` yields exactly the
      `tags` list. */
  lemma WorkFields(work: Row, tts: seq<Handle>)
    requires "title" in work && "description" in work
    ensures var a := WorkAttrs(work, tts);
      && UniqueKeys(a) && NoReservedKeys(a)
      && Get(a, "title") == Some(Scalar(Str(work["title"])))
      && Get(a, "description") == Some(Scalar(Str(work["description"])))
      && Get(a, "is_deleted") == Some(Scalar(Bool(false)))
      && Get(a, "tags") == Some(List(tts))
      && RelatedOf(a) == tts
  {
    var a := WorkAttrs(work, tts);
    GetUnique(a, 0);
    GetUnique(a, 1);
    GetUnique(a, 2);
    GetUnique(a, 3);
    WorkRelated(work, tts);
  }

  /** The `workidentifier` refers to the work through `creative_work` and has the
      work's `url` as `uri`; its only edge is the work. */
  lemma IdentifierFields(work: Handle, url: string)
    ensures var a := IdentifierAttrs(work, url);
      && UniqueKeys(a) && NoReservedKeys(a)
      && Get(a, "creative_work") == Some(Node(work))
      && Get(a, "uri") == Some(Scalar(Str(url)))
      && RelatedOf(a) == [work]
  {
    var a := IdentifierAttrs(work, url);
    GetPair(a);
    assert RelatedOf(a[1..]) == [] + RelatedOf(a[1..][1..]);
  }

  /** The part of `format_creativework` before the contributors: the work at `b`, the
      `workidentifier` at `b + 1`, then two nodes per `|`-piece of `tags` (there is
      always at least one piece), and the work's `tags` list holds one handle per
      piece. */
  lemma WorkHeadShape(uuid: nat -> string, b: Handle, work: Row)
    requires "type" in work && "title" in work && "description" in work && "url" in work && "tags" in work
    ensures var pieces := Split(work["tags"], '|');
      && |pieces| >= 1
      && |TagNames(work)| == |pieces|
      && |WorkHead(uuid, b, work)| == 2 + 2 * |pieces|
      && |WorkTags(b, work)| == |pieces|
    ensures var head := WorkHead(uuid, b, work);
      && head[0].id == "_:" + uuid(b) && head[0].kind == Lower(work["type"])
      && head[0].attrs == WorkAttrs(work, WorkTags(b, work))
      && head[1].id == "_:" + uuid(b + 1) && head[1].kind == "workidentifier"
      && head[1].attrs == IdentifierAttrs(b, work["url"])
  {
    ThroughHandlesAt(b + 2, |TagNames(work)|);
  }

  /** Tag `j`: a `tag` named by the `j`-th stripped piece at `b + 2 + 2j`, and the
      `throughtags` joining the work to it at `b + 3 + 2j`, which is entry `j` of the
      work's `tags` list. */
  lemma WorkTagPairs(uuid: nat -> string, b: Handle, work: Row)
    requires "type" in work && "title" in work && "description" in work && "url" in work && "tags" in work
    ensures |WorkTags(b, work)| == |TagNames(work)| && |WorkHead(uuid, b, work)| == 2 + 2 * |TagNames(work)|
    ensures var head := WorkHead(uuid, b, work);
      var names := TagNames(work);
      forall j :: 0 <= j < |names| ==>
        && WorkTags(b, work)[j] == b + 3 + 2 * j
        && head[2 + 2 * j] == NewNodeData(uuid, b + 2 + 2 * j, "tag", [("name", Scalar(Str(names[j])))])
        && head[3 + 2 * j]
           == NewNodeData(uuid, b + 3 + 2 * j, "throughtags", [("creative_work", Node(b)), ("tag", Node(b + 2 + 2 * j))])
  {
    var names := TagNames(work);
    ThroughHandlesAt(b + 2, |names|);
    var head := WorkHead(uuid, b, work);
    PairsAfter(uuid, b, names, head, head[0], head[1]);
  }

  /** The tag pairs of a head `[w, i] + tags`, in closed form. */
  lemma PairsAfter(uuid: nat -> string, b: Handle, names: seq<string>, head: seq<NodeData>, w: NodeData, i: NodeData)
    requires head == [w, i] + TagNodes(uuid, b + 2, b, names)
    ensures |head| == 2 + 2 * |names|
    ensures forall j :: 0 <= j < |names| ==>
        && head[2 + 2 * j] == NewNodeData(uuid, b + 2 + 2 * j, "tag", [("name", Scalar(Str(names[j])))])
        && head[3 + 2 * j]
           == NewNodeData(uuid, b + 3 + 2 * j, "throughtags", [("creative_work", Node(b)), ("tag", Node(b + 2 + 2 * j))])
  {
    var tags := TagNodes(uuid, b + 2, b, names);
    TagShape(uuid, b + 2, b, names);
    PairsShift(uuid, b, b + 2, names, head, tags, w, i);
  }

  /** The closed form of the tag pairs, seen two places further on. */
  lemma PairsShift(uuid: nat -> string, b: Handle, t: Handle, names: seq<string>, head: seq<NodeData>, tags: seq<NodeData>,
                   w: NodeData, i: NodeData)
    requires t == b + 2 && head == [w, i] + tags && TagPairs(uuid, t, b, names, tags)
    ensures |head| == 2 + 2 * |names|
    ensures forall j :: 0 <= j < |names| ==>
        && head[2 + 2 * j] == NewNodeData(uuid, b + 2 + 2 * j, "tag", [("name", Scalar(Str(names[j])))])
        && head[3 + 2 * j]
           == NewNodeData(uuid, b + 3 + 2 * j, "throughtags", [("creative_work", Node(b)), ("tag", Node(b + 2 + 2 * j))])
  {
    forall j | 0 <= j < |names|
      ensures head[2 + 2 * j] == tags[2 * j] && head[3 + 2 * j] == tags[2 * j + 1]
    {
    }
  }
}
