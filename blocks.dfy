/** What the formatters add to the arena, as functions of the handle at which they
    start allocating. Nodes are listed in the order the Python code creates them, which
    is the order of their handles: the arguments of a `GraphNode(...)` call, nested
    `GraphNode` calls included, are evaluated before the node itself is created. A
    missing column is Python's `KeyError`; the key reported is that of the first
    failing lookup in evaluation order. */
module Blocks {
  import opened PyStrings
  import opened Nodes
  import opened Heap

  /** One CSV row: column name to cell. */
  type Row = map<string, string>

  /** The loaded input: collection name, then row key, then the row. */
  type Data = map<string, map<string, Row>>

  datatype Error = KeyError(key: string)

  datatype Result<T> = Ok(value: T) | Err(error: Error)

  datatype Built = Built(nodes: seq<NodeData>, handles: seq<Handle>)
  datatype Outcome = Done(built: Built) | Failed(error: Error)

  /** The columns `format_agent` reads, in the order it reads them. */
  const AgentColumns: seq<string> := ["type", "name", "affiliation", "department"]

  /** The columns `format_creativework` reads from the work row, in order. */
  const WorkColumns: seq<string> := ["type", "title", "description", "url", "tags", "contributors"]

  /** `key` is the first of `cols` missing from `row`. */
  ghost predicate FirstMissing(cols: seq<string>, row: Row, key: string) {
    exists i :: 0 <= i < |cols| && cols[i] == key && key !in row
                && forall j :: 0 <= j < i ==> cols[j] in row
  }

  predicate HasAll(cols: seq<string>, row: Row) {
    forall i :: 0 <= i < |cols| ==> cols[i] in row
  }

  /** The node types the formatters spell in lower case are kept as written by
      `__init__`'s `type_.lower()`. */
  lemma LowerKinds()
    ensures Lower("isaffiliatedwith") == "isaffiliatedwith"
    ensures Lower("institution") == "institution" && Lower("department") == "department"
    ensures Lower("creator") == "creator" && Lower("contributor") == "contributor"
    ensures Lower("tag") == "tag" && Lower("throughtags") == "throughtags"
    ensures Lower("workidentifier") == "workidentifier"
  {
    LowerOfLower("isaffiliatedwith");
    LowerOfLower("institution");
    LowerOfLower("department");
    LowerOfLower("creator");
    LowerOfLower("contributor");
    LowerOfLower("tag");
    LowerOfLower("throughtags");
    LowerOfLower("workidentifier");
  }

  // ----- format_agent -----

  /** The `institution` (or `department`) node named `name` and the `isaffiliatedwith`
      node joining `person` to it, allocated at `at` and `at + 1`; nothing when the
      cell is empty. */
  function Affiliation(uuid: nat -> string, person: Handle, at: Handle, kind: string, name: string): seq<NodeData> {
    if name == "" then []
    else [NewNodeData(uuid, at, kind, [("name", Scalar(Str(name)))]),
          NewNodeData(uuid, at + 1, "isaffiliatedwith", [("subject", Node(person)), ("related", Node(at))])]
  }

  /** The `isaffiliatedwith` handle `Affiliation` adds to `related_agents`. */
  function AffiliationEdge(at: Handle, name: string): seq<Handle> {
    if name == "" then [] else [at + 1]
  }

  /** Two nodes per non-empty affiliation cell. */
  function AffSize(agent: Row, col: string): nat {
    if col in agent && agent[col] != "" then 2 else 0
  }

  function AgentSize(agent: Row): nat {
    1 + AffSize(agent, "affiliation") + AffSize(agent, "department")
  }

  /** The `related_agents` list of the person made from `agent` at `b`. */
  function AgentEdges(b: Handle, agent: Row): seq<Handle>
    requires "affiliation" in agent && "department" in agent
  {
    AffiliationEdge(b + 1, agent["affiliation"]) + AffiliationEdge(b + 1 + AffSize(agent, "affiliation"), agent["department"])
  }

  /** The nodes `format_agent(agent)` creates, the person first. */
  function AgentBlock(uuid: nat -> string, b: Handle, agent: Row): (r: Result<seq<NodeData>>)
    ensures r.Ok? ==> |r.value| == AgentSize(agent)
  {
    if "type" !in agent then Err(KeyError("type"))
    else if "name" !in agent then Err(KeyError("name"))
    else if "affiliation" !in agent then Err(KeyError("affiliation"))
    else if "department" !in agent then Err(KeyError("department"))
    else
      Ok([NewNodeData(uuid, b, Lower(agent["type"]), [("name", Scalar(Str(agent["name"]))), ("related_agents", List(AgentEdges(b, agent)))])]
         + Affiliation(uuid, b, b + 1, "institution", agent["affiliation"])
         + Affiliation(uuid, b, b + 1 + AffSize(agent, "affiliation"), "department", agent["department"]))
  }

  // ----- format_contributor -----

  /** The attributes of the edge node `format_contributor` creates for the person at
      `person`, cited as `name`. */
  function CreatorAttrs(person: Handle, work: Handle, name: string, bibliographic: bool, index: int): Attrs {
    [("agent", Node(person)),
     ("order_cited", Scalar(if bibliographic then Int(index) else Null)),
     ("creative_work", Node(work)),
     ("cited_as", Scalar(Str(name)))]
  }

  /** The nodes `format_contributor(work, agent, bibliographic, index)` creates: the
      agent's nodes, then the `creator` or `contributor` edge node. */
  function ContributorBlock(uuid: nat -> string, b: Handle, work: Handle, agent: Row, bibliographic: bool, index: int)
    : (r: Result<seq<NodeData>>)
    ensures r.Ok? ==> |r.value| == AgentSize(agent) + 1
  {
    match AgentBlock(uuid, b, agent)
    case Err(e) => Err(e)
    case Ok(ag) =>
      Ok(ag + [NewNodeData(uuid, b + |ag|, if bibliographic then "creator" else "contributor",
                           CreatorAttrs(b, work, agent["name"], bibliographic, index))])
  }

  // ----- format_creativework: tags -----

  /** The `tag`/`throughtags` pairs of the tags comprehension, one per (stripped) tag
      name. */
  function TagNodes(uuid: nat -> string, b: Handle, work: Handle, names: seq<string>): (ns: seq<NodeData>)
    ensures |ns| == 2 * |names|
    decreases |names|
  {
    if names == [] then []
    else
      var ns := TagNodes(uuid, b, work, names[..|names| - 1]);
      var t := b + |ns|;
      ns + [NewNodeData(uuid, t, "tag", [("name", Scalar(Str(names[|names| - 1])))]),
            NewNodeData(uuid, t + 1, "throughtags", [("creative_work", Node(work)), ("tag", Node(t))])]
  }

  /** The handles of the `throughtags` nodes `TagNodes` allocates from `b`. */
  function ThroughHandles(b: Handle, n: nat): seq<Handle> {
    if n == 0 then [] else ThroughHandles(b, n - 1) + [b + 2 * (n - 1) + 1]
  }

  // ----- format_creativework: contributors -----

  /** The row `data['contributors'][key]`, when it exists. */
  predicate Found(data: Data, key: string) {
    "contributors" in data && key in data["contributors"]
  }

  /** A contributor key for which the lookups and `format_agent` all succeed. */
  predicate PieceOk(data: Data, key: string) {
    Found(data, key) && HasAll(AgentColumns, data["contributors"][key])
  }

  /** The `KeyError` a failing contributor key raises. */
  ghost predicate PieceError(data: Data, key: string, e: Error) {
    if "contributors" !in data then e == KeyError("contributors")
    else if key !in data["contributors"] then e == KeyError(key)
    else FirstMissing(AgentColumns, data["contributors"][key], e.key)
  }

  /** The nodes the contributors generator creates for the stripped ids `keys`,
      allocated from `b`, and the handles of the `creator` nodes it yields, in order. */
  function Contributors(uuid: nat -> string, b: Handle, work: Handle, keys: seq<string>, data: Data): Outcome
    decreases |keys|
  {
    if keys == [] then Done(Built([], []))
    else ContributorStep(uuid, b, work, keys[|keys| - 1], |keys| - 1, data, Contributors(uuid, b, work, keys[..|keys| - 1], data))
  }

  /** One contributor of the generator: the lookups for `key`, then
      `format_contributor(work_graph, row, True, i)` allocated after what `before`
      allocated. An earlier `KeyError` stops the generator. */
  function ContributorStep(uuid: nat -> string, b: Handle, work: Handle, key: string, i: nat, data: Data, before: Outcome)
    : Outcome
  {
    match before
    case Failed(e) => Failed(e)
    case Done(prev) =>
      if "contributors" !in data then Failed(KeyError("contributors"))
      else if key !in data["contributors"] then Failed(KeyError(key))
      else
        match ContributorBlock(uuid, b + |prev.nodes|, work, data["contributors"][key], true, i)
        case Err(e) => Failed(e)
        case Ok(blk) => Done(Built(prev.nodes + blk, prev.handles + [b + |prev.nodes| + |blk| - 1]))
  }

  // ----- format_creativework -----

  /** The work node's attributes once `tags` has been set. */
  function WorkAttrs(work: Row, tts: seq<Handle>): Attrs
    requires "title" in work && "description" in work
  {
    [("title", Scalar(Str(work["title"]))), ("description", Scalar(Str(work["description"]))),
     ("is_deleted", Scalar(Bool(false))), ("tags", List(tts))]
  }

  /** The `workidentifier` node's attributes. */
  function IdentifierAttrs(work: Handle, url: string): Attrs {
    [("creative_work", Node(work)), ("uri", Scalar(Str(url)))]
  }

  /** The flattener's initial worklist: the work at `b`, its identifier, the creators
      `cs`, then the work's `get_related()`, which is its `tags` list `tts`. */
  function Worklist(b: Handle, cs: seq<Handle>, tts: seq<Handle>): seq<Handle> {
    [b, b + 1] + cs + tts
  }

  /** The stripped `|`-pieces of the `tags` cell: the tag names. */
  function TagNames(work: Row): seq<string>
    requires "tags" in work
  {
    StripEach(Split(work["tags"], '|'))
  }

  /** The stripped `|`-pieces of the `contributors` cell: the keys looked up. */
  function ContributorKeys(work: Row): seq<string>
    requires "contributors" in work
  {
    StripEach(Split(work["contributors"], '|'))
  }

  /** The handles of the work's `tags` list. */
  function WorkTags(b: Handle, work: Row): seq<Handle>
    requires "tags" in work
  {
    ThroughHandles(b + 2, |TagNames(work)|)
  }

  /** The nodes `format_creativework` creates before the contributors: the work at
      `b` (its `tags` already set), the `workidentifier` at `b + 1`, then the tags. */
  function WorkHead(uuid: nat -> string, b: Handle, work: Row): seq<NodeData>
    requires "type" in work && "title" in work && "description" in work && "url" in work && "tags" in work
  {
    [NewNodeData(uuid, b, Lower(work["type"]), WorkAttrs(work, WorkTags(b, work))),
     NewNodeData(uuid, b + 1, "workidentifier", IdentifierAttrs(b, work["url"]))]
    + TagNodes(uuid, b + 2, b, TagNames(work))
  }

  /** The contributors part: nothing when the cell is empty, else the generator over
      its keys, allocated right after the head. */
  function WorkContributors(uuid: nat -> string, b: Handle, work: Row, data: Data): Outcome
    requires "tags" in work && "contributors" in work
  {
    if work["contributors"] == "" then Done(Built([], []))
    else Contributors(uuid, b + 2 + 2 * |TagNames(work)|, b, ContributorKeys(work), data)
  }

  /** The nodes `format_creativework(work, data)` creates, allocated from `b`, and the
      initial worklist of the flattener: the work, its identifier, the creators, and
      then the work's own `get_related()`, which is its `tags` list (`WorkRelated`). */
  function WorkGraph(uuid: nat -> string, b: Handle, work: Row, data: Data): Outcome {
    if "type" !in work then Failed(KeyError("type"))
    else if "title" !in work then Failed(KeyError("title"))
    else if "description" !in work then Failed(KeyError("description"))
    else if "url" !in work then Failed(KeyError("url"))
    else if "tags" !in work then Failed(KeyError("tags"))
    else if "contributors" !in work then Failed(KeyError("contributors"))
    else
      match WorkContributors(uuid, b, work, data)
      case Failed(e) => Failed(e)
      case Done(cons) => Done(Built(WorkHead(uuid, b, work) + cons.nodes, Worklist(b, cons.handles, WorkTags(b, work))))
  }

  /** `work_graph.get_related()` yields exactly the `throughtags` nodes of its `tags`
      list: the other attributes are scalars. */
  lemma WorkRelated(work: Row, tts: seq<Handle>)
    requires "title" in work && "description" in work
    ensures RelatedOf(WorkAttrs(work, tts)) == tts
  {
    var a := WorkAttrs(work, tts);
    assert a[1..][1..][1..][1..] == [];
    assert RelatedOf(a[1..][1..][1..]) == tts + RelatedOf([]);
    assert RelatedOf(a[1..][1..]) == [] + RelatedOf(a[1..][1..][1..]);
    assert RelatedOf(a[1..]) == [] + RelatedOf(a[1..][1..]);
    assert RelatedOf(a) == [] + RelatedOf(a[1..]);
  }
}
