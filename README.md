# sharepush graph construction and flattening, in Dafny

This project models the core of `sharepush/push.py`. That code turns one work record
and the loaded contributor rows into a flat list of SHARE "normalized data" records.
`format_creativework` creates a graph of `GraphNode` objects:
- the work;
- its `workidentifier`;
- one `tag` and one `throughtags` per `|`-piece of `tags`;
- one agent and one `creator` per `|`-piece of `contributors`;
- one `isaffiliatedwith` pair per non-empty `affiliation` or `department`.

A FIFO worklist with a visited set then collects every node reachable through
`get_related`. Each collected node is flattened by `serialize`, so node references
become `{'@id', '@type'}` pointers.

## How the model is built

- **Nodes (`nodes.dfy`)**:
  - A node is a `NodeData(id, kind, attrs)`.
  - Its attribute dictionary is an association list in insertion order, with unique keys.
  - A value is a scalar, one node or a list of nodes.
  - `ref`, `get_related` (`Related`) and `serialize` are written against that value.
  - `serialize` is also written as the source's loop (`Nodes.Serialize`), proved equal to the function.
- **Heap (`heap.dfy`)**: nodes live in an arena (`Heap.Arena`).
  - A node's handle is its position in the arena. The handle stands for Python object identity, so cycles such as work → throughtags → work are ordinary handles.
  - `GraphNode.__init__` is `Arena.NewNode`. It appends a node with id `'_:' + uuid(h)` and the lower-cased type.
  - The in-place updates (`attrs[key] = ...`, `list.extend`) are `Arena.SetAttr` and `Arena.ExtendList`.
  - `uuid4()` is an injective identifier supply, which is a parameter of the arena.
- **Blocks (`blocks.dfy`)**: pure functions state, for each formatter, the nodes it appends and the `KeyError` it raises. They assume allocation starts at handle `b`.
  - The functions are `AgentBlock`, `ContributorBlock`, `TagNodes`, `Contributors`, `WorkHead` and `WorkGraph`.
  - The order of nodes is Python's evaluation order: a nested `GraphNode(...)` argument is created before the node that receives it.
- **Shapes and work shapes (`shapes.dfy`, `works.dfy`)**: what the blocks contain and when they fail.
- **Formatters and creative work (`formatters.dfy`, `creativework.dfy`)**: `format_agent`, `format_contributor` and `format_creativework` are imperative methods over the arena. Each is proved to append exactly its block function's nodes, or to fail with the same error.
- **Flattener (`flatten.dfy`)**: the `while True` loop is `Flattener.Flatten`, proved to collect exactly the nodes reachable from the seeds. The final list comprehension is `Flattener.SerializeAll`.
- **Rooting (`rooting.dfy`)**: the lemmas that the nodes `format_creativework` creates are exactly the nodes its worklist reaches. As a result, the output has one record per created node, and every pointer names a record of the output.
- **Scenario (`scenario.dfy`)**: the worked case of two tags `x|y` and two contributors `u1|u2` whose agents have no affiliation or department. It gives ten nodes, as listed there.

Some behaviours of the code are easy to miss; the model follows the code:
- **Tags**: an empty `tags` cell gives one `tag` named `''`, because `''.split('|') == ['']`. Pieces are stripped but empty pieces are kept.
- **Missing columns**: a missing column is a `KeyError`, not "no child nodes".
- **Affiliation and department**: these cells are not split on `|`. Each gives at most one affiliation.
- **Empty scalars**: an empty `title` or `description` is stored in `attrs` and only dropped by `serialize`.
- **Empty type**: a node's `@type` is emitted even when it is empty.
- **Record order**: the output order is the iteration order of a Python `set`, which is not specified.

## Model

| member | source | states |
|---|---|---|
| Heap.Arena.constructor | sharepush/push.py:45-48 | the empty arena is valid for an injective identifier supply |
| Heap.Arena.NewNode | sharepush/push.py:45-48 | `GraphNode(type_, **attrs)` appends one node with id `'_:' + uuid(h)`, the lower-cased type and the given attributes; its id differs from every existing node's id; existing nodes are unchanged |
| Heap.Arena.SetAttr | sharepush/push.py:76 | `node.attrs[key] = v` rewrites only that node's dictionary, keeping every arena invariant |
| Heap.Arena.ExtendList | sharepush/push.py:79-94 | `attrs[key].extend(hs)` grows that one list in place; nothing else changes |
| Heap.ValidDistinctIds | sharepush/push.py:46 | fresh identifiers make all node ids pairwise distinct, so a pointer names one node |
| Heap.IdPrefix | sharepush/push.py:46 | the `'_:'` prefix keeps distinct uuids distinct |
| Nodes.Ref | sharepush/push.py:41-43 | `ref` is a pointer carrying exactly the node's id and type |
| Nodes.Get | sharepush/push.py:48 | a lookup succeeds exactly when the key is in the dictionary, and returns a stored entry |
| Nodes.Put | sharepush/push.py:76 | assignment adds the key; a new key is appended at the end, an existing one leaves the length unchanged |
| Nodes.PutInPlace | sharepush/push.py:76 | with unique keys, assignment keeps every entry in its position: the entry holding the key takes `v`, every other entry is kept |
| Nodes.PutGet | sharepush/push.py:76 | after `attrs[key] = v` the key reads `v` and every other key reads as before |
| Nodes.PutUnique | sharepush/push.py:76 | assignment keeps the dictionary's keys unique |
| Nodes.GetUnique | sharepush/push.py:48 | with unique keys each entry is what a lookup of its key returns |
| Nodes.RelatedOfMembers | sharepush/push.py:50-56 | `get_related` yields exactly the node-valued attributes and the elements of list-valued ones, and nothing from scalars |
| Nodes.RelatedOfAppend | sharepush/push.py:50-56 | the edges of a dictionary are those of its parts, in order |
| Nodes.RelatedWithin | sharepush/push.py:50-56 | the edges of a dictionary whose values lie in a range lie in it too |
| Nodes.Serialize | sharepush/push.py:58-68 | the loop over `attrs.items()` builds exactly the record `Serialized` describes |
| Nodes.SerializeStep | sharepush/push.py:60-66 | one iteration adds the entry's pointer or scalar, or skips a list, `None` or `''` |
| Nodes.SerializedFields | sharepush/push.py:58-68 | the record has `@id` and `@type` from `ref`, only attribute keys besides them, and each attribute handled as `FieldOf` says |
| Nodes.SerializedField | sharepush/push.py:61-66 | a node value becomes that node's `ref`; a list, `None` and `''` are absent; any other scalar (including `False` and `0`) is copied verbatim |
| Nodes.NoEmptyFields | sharepush/push.py:63-64 | no field other than `@id`/`@type` of a record holds `None` or `''` |
| Nodes.PutNoReserved | sharepush/push.py:68 | storing a key other than `@id`/`@type` keeps the `ref` entries from being overridden |
| PyStrings.Split | sharepush/push.py:155 | `str.split(sep)` gives at least one piece, none containing the separator |
| PyStrings.JoinSplit | sharepush/push.py:155 | joining the pieces with the separator gives back the string |
| PyStrings.SplitJoin | sharepush/push.py:155 | splitting a join of separator-free pieces gives back the pieces |
| PyStrings.SplitCount | sharepush/push.py:155 | there is one more piece than separators, so an empty cell gives one empty piece |
| PyStrings.MultiValueExample | sharepush/push.py:155 | splitting `a`, `b `, ` c` joined by the bar keeps the whitespace around the pieces, and stripping each piece then gives `a`, `b`, `c` |
| PyStrings.StripLeftSpec | sharepush/push.py:154 | `lstrip` keeps a suffix, removes only whitespace and stops at a non-space |
| PyStrings.StripRightSpec | sharepush/push.py:154 | `rstrip` keeps a prefix, removes only whitespace and stops at a non-space |
| PyStrings.StripSlice | sharepush/push.py:154 | `strip()` is a slice of its argument |
| PyStrings.StripEnds | sharepush/push.py:154 | a non-empty `strip()` neither starts nor ends with whitespace |
| PyStrings.StripRemoves | sharepush/push.py:154 | `strip()` drops only whitespace, at both ends |
| PyStrings.StripIdempotent | sharepush/push.py:154 | stripping twice is stripping once |
| PyStrings.StripUnchanged | sharepush/push.py:154 | a string without outer whitespace is its own `strip()` |
| PyStrings.StripEach | sharepush/push.py:160 | stripping each piece keeps the number of pieces |
| PyStrings.Lower | sharepush/push.py:47 | `lower()` keeps the length |
| PyStrings.LowerCharSpec | sharepush/push.py:47 | a lower-cased character is not upper case, and only upper-case letters change |
| PyStrings.LowerIdempotent | sharepush/push.py:47 | lower-casing twice is lower-casing once |
| PyStrings.LowerOfLower | sharepush/push.py:47 | a string without upper-case letters is its own `lower()` |
| Blocks.LowerKinds | sharepush/push.py:47 | the literal type names the formatters pass are already lower case |
| Blocks.AgentBlock | sharepush/push.py:71-96 | `format_agent` creates one node plus two per non-empty affiliation cell |
| Blocks.ContributorBlock | sharepush/push.py:99-106 | `format_contributor` creates the agent's nodes plus one edge node |
| Blocks.TagNodes | sharepush/push.py:150-156 | the comprehension creates two nodes per tag name |
| Blocks.WorkRelated | sharepush/push.py:50-56 | the work node's `get_related()` is exactly its `tags` list |
| Formatters.FormatAgent | sharepush/push.py:71-96 | `format_agent` appends exactly `AgentBlock`'s nodes and returns the person, or raises `AgentBlock`'s `KeyError` |
| Formatters.AgentAffiliations | sharepush/push.py:76-94 | after the person is created, the two `if` blocks complete exactly `AgentBlock` |
| Formatters.AgentDepartment | sharepush/push.py:87-94 | the `department` branch completes `AgentBlock` once the `affiliation` branch has run |
| Formatters.Affiliate | sharepush/push.py:78-94 | a non-empty cell appends the named node and its `isaffiliatedwith`, whose handle is added to the person's `related_agents`; an empty cell changes nothing |
| Formatters.AgentBlockFrom | sharepush/push.py:71-96 | the arena the statements leave is the person followed by `AgentBlock`'s affiliation pairs |
| Formatters.AgentBlockIs | sharepush/push.py:71-96 | a complete agent row's block is the person with its `related_agents`, then the institution pair, then the department pair |
| Formatters.PersonAttrs | sharepush/push.py:72-76 | `related_agents` is appended after `name` |
| Formatters.FormatContributor | sharepush/push.py:99-106 | `format_contributor` appends exactly `ContributorBlock`'s nodes and returns the edge node, or raises the agent's `KeyError` |
| Formatters.ContributorBlockFrom | sharepush/push.py:99-106 | the agent's nodes followed by the edge node are `ContributorBlock` |
| Formatters.FormatTags | sharepush/push.py:150-156 | the comprehension appends exactly `TagNodes`, and the list it returns holds the `throughtags` handles |
| Formatters.TagRounds | sharepush/push.py:150-156 | each round appends the `tag` then its `throughtags`, in closed form |
| Formatters.AddTag | sharepush/push.py:151-155 | one round: the `tag` named by the piece, then the `throughtags` joining the work to it |
| Formatters.PairsStep | sharepush/push.py:150-156 | one more round extends the closed form by one pair |
| Formatters.PairsAreTagNodes | sharepush/push.py:150-156 | all rounds in closed form are `TagNodes` |
| Formatters.FormatContributors | sharepush/push.py:158-161 | the generator appends exactly `Contributors`' nodes and yields the `creator` handles in order, or raises the first failing key's `KeyError` |
| Formatters.AddContributor | sharepush/push.py:160 | one round of the generator is one more `ContributorStep` |
| Formatters.ContributorsUnfold | sharepush/push.py:160 | the generator over one more key is one more step |
| Formatters.ContributorsStuck | sharepush/push.py:160 | once a lookup has raised, later keys are never looked at |
| Formatters.StepAfter | sharepush/push.py:160 | a successful round extends the built nodes by the block and the handles by the edge |
| Formatters.GrownTrans | sharepush/push.py:133-161 | an arena that grew twice grew |
| Shapes.AgentPerson | sharepush/push.py:72-76 | the person has id `'_:' + uuid`, type `agent['type'].lower()`, `name = agent['name']` and the `related_agents` list |
| Shapes.AgentAffiliations | sharepush/push.py:76-94 | `related_agents` has one entry per non-empty `affiliation` and `department`, in that order, each an `isaffiliatedwith` whose `subject` is the person and whose `related` is the `institution` or `department` named by the cell |
| Shapes.AffiliationShape | sharepush/push.py:79-85 | a non-empty cell gives the named node followed by its `isaffiliatedwith` pair |
| Shapes.AgentErrors | sharepush/push.py:72-92 | `format_agent` succeeds exactly when the row has all four columns; otherwise it raises for the first missing one in reading order |
| Shapes.ContributorShape | sharepush/push.py:99-106 | the edge node follows the agent's nodes, is `creator` exactly when bibliographic, and carries `agent`, `order_cited`, `creative_work` and `cited_as` |
| Shapes.ContributorErrors | sharepush/push.py:99-106 | `format_contributor` succeeds exactly when the agent row is complete |
| Shapes.CreatorFields | sharepush/push.py:100-106 | the edge's `agent` is the person, `order_cited` is `index` when bibliographic and `None` otherwise, `creative_work` is the work and `cited_as` the agent's name |
| Shapes.OrderCited | sharepush/push.py:103 | the serialized edge has `order_cited` exactly when bibliographic, and then it is `index` |
| Shapes.CreatorWithin | sharepush/push.py:100-106 | the edge node refers to the person and the work only |
| Shapes.TagShape | sharepush/push.py:150-156 | tag `j` is the `tag` named by piece `j` followed by the `throughtags` joining the work to it |
| Shapes.ThroughHandlesAt | sharepush/push.py:150-156 | the `tags` list holds the handle of the `j`-th `throughtags` at position `j` |
| Shapes.ContributorStepSpec | sharepush/push.py:160 | a round after a failure changes nothing; otherwise it succeeds exactly when the key resolves to a complete row, and a failure is that key's error |
| Shapes.ContributorStepDone | sharepush/push.py:160 | a successful round appends the contributor's block and its `creator` handle |
| Shapes.ContributorsErrors | sharepush/push.py:158-161 | the generator succeeds exactly when every key resolves to a complete agent row; a failure is the first failing key's error |
| Shapes.FirstFailingExtends | sharepush/push.py:160 | a first failing key stays first when more keys follow |
| Shapes.ContributorsShape | sharepush/push.py:158-161 | each key gets its agent's block followed by its `creator`, with `order_cited` its zero-based position, the blocks laid out one after the other in key order |
| Shapes.LaidStep | sharepush/push.py:160 | laying out one more key keeps the earlier blocks in place |
| WorkShapes.WorkErrors | sharepush/push.py:132-161 | `format_creativework` succeeds exactly when the work row has all six columns and, for a non-empty `contributors` cell, every key resolves; otherwise the first missing work column in reading order, or the first failing key, is the error |
| WorkShapes.WorkMissing | sharepush/push.py:132-158 | a missing work column is the first error |
| WorkShapes.CreatorsErrors | sharepush/push.py:158-161 | an empty `contributors` cell adds nothing and cannot fail; otherwise the outcome is that of every key |
| WorkShapes.WorkFields | sharepush/push.py:133-150 | the work node has `title`, `description`, `is_deleted=False` and the `tags` list, and its edges are the `tags` list |
| WorkShapes.IdentifierFields | sharepush/push.py:143-147 | the `workidentifier` refers to the work by `creative_work` and has `uri = work['url']` |
| WorkShapes.WorkHeadShape | sharepush/push.py:132-156 | the work, then its identifier, then two nodes per bar-separated piece of `tags` (always at least one), and one `tags` entry per piece |
| WorkShapes.WorkTagPairs | sharepush/push.py:150-156 | entry `j` of `tags` is the `throughtags` joining the work to the `tag` named by the `j`-th stripped piece |
| CreativeWork.HeadError | sharepush/push.py:132-150 | the reported column is one missing from the row |
| CreativeWork.HeadErrorIs | sharepush/push.py:132-150 | a missing `type`, `title`, `description`, `url` or `tags` column is the error `format_creativework` raises |
| CreativeWork.InitialWork | sharepush/push.py:133-139 | the work's keyword arguments form a well-formed dictionary without edges |
| CreativeWork.InitialTagged | sharepush/push.py:150 | setting `tags` appends it after the keyword arguments |
| CreativeWork.WorkHeadIs | sharepush/push.py:133-156 | the head is the work with its `tags` list, its identifier, then the tag pairs |
| CreativeWork.FormatWorkHead | sharepush/push.py:132-156 | the statements before the contributors append exactly `WorkHead` and return the work and identifier handles, or raise the first missing column |
| CreativeWork.FormatWorkTail | sharepush/push.py:141-156 | `url` is read after the work node is created, and `tags` after the identifier |
| CreativeWork.SetTags | sharepush/push.py:150-156 | `work_graph.attrs['tags'] = [...]` completes `WorkHead` |
| CreativeWork.WorkCreators | sharepush/push.py:158-161 | an empty `contributors` cell adds nothing; otherwise the generator over its stripped pieces runs |
| CreativeWork.BuildWork | sharepush/push.py:132-171 | the graph-building part appends exactly `WorkGraph`'s nodes and returns its initial worklist, or fails with its error |
| CreativeWork.HeadThenCreators | sharepush/push.py:141-171 | the head, the contributors and the worklist seeded with `get_related()` of the work are `WorkGraph` |
| CreativeWork.WorkNodeKept | sharepush/push.py:171 | the work's `get_related()`, read after the contributors, is still its `tags` list |
| CreativeWork.FormatCreativeWork | sharepush/push.py:109-182 | `format_creativework` succeeds exactly when `WorkGraph` does, failing with its `KeyError`; on success it outputs one record per created node, each the node's `serialize()`, with no node twice, no two records sharing an `@id`, and every pointer names a record of the output |
| CreativeWork.Collect | sharepush/push.py:170-182 | for a worklist that reaches exactly the created nodes, the loop and the comprehension give one record per created node, each its `serialize()`, none twice, no two with the same `@id`, with every pointer naming an output record |
| CreativeWork.RecordIdsDistinct | sharepush/push.py:182 | records of distinct nodes carry distinct `@id`s, so a pointer names exactly one record |
| CreativeWork.SpanCard | sharepush/push.py:182 | the created nodes `[lo, lo + n)` are `n` records |
| Flattener.Flatten | sharepush/push.py:170-181 | the loop ends, and the visited set is exactly the nodes reachable from the worklist through `get_related`; it is closed under `get_related` and holds the seeds |
| Flattener.SweepVisit | sharepush/push.py:176-180 | visiting a new node keeps the loop invariant and grows the visited set |
| Flattener.SweepSkip | sharepush/push.py:177-178 | popping a visited node keeps the loop invariant |
| Flattener.SweepDone | sharepush/push.py:174-175 | an empty worklist means the visited set is exactly the reachable nodes |
| Flattener.ReachStep | sharepush/push.py:180 | following an edge from a reachable node reaches a node |
| Flattener.ClosedHoldsReachable | sharepush/push.py:170-181 | a closed set holding the seeds holds every reachable node |
| Flattener.BelowCard | sharepush/push.py:173-181 | the visited set is bounded by the arena, so the loop ends |
| Flattener.SerializeAll | sharepush/push.py:182 | one record per visited node, each its `serialize()`, in some order of the set without repeats |
| Flattener.OutputStep | sharepush/push.py:182 | serializing one more node of the set extends the output by its record |
| Flattener.PointersResolve | sharepush/push.py:170-182 | every pointer in the output names the `@id` and `@type` of some output record |
| Flattener.PointerTarget | sharepush/push.py:58-182 | the target of a pointer is visited, so its record is in the output |
| Rooting.WorkReach | sharepush/push.py:133-181 | the nodes reachable from the worklist are exactly the nodes `format_creativework` created |
| Rooting.WorkWithin | sharepush/push.py:133-161 | the created nodes refer only to one another, and the worklist holds only created nodes |
| Rooting.WorkGraphDone | sharepush/push.py:132-171 | a successful `WorkGraph` has all six columns, a successful contributors part, and is the head then the contributors |
| Rooting.AgentWithin | sharepush/push.py:71-96 | `format_agent`'s nodes refer only to one another |
| Rooting.ContributorWithin | sharepush/push.py:99-106 | `format_contributor`'s nodes refer to one another and to the work |
| Rooting.ContributorsWithin | sharepush/push.py:158-161 | the contributors' nodes refer to one another and to the work |
| Rooting.TagsWithin | sharepush/push.py:150-156 | the tag pairs refer to the work and to their own tags |
| Rooting.HeadWithin | sharepush/push.py:133-156 | the head refers to the work, its tag pairs and nothing else |
| Rooting.AgentReach | sharepush/push.py:76-180 | the whole agent block is collected once its person is, through `related_agents` and `related` |
| Rooting.ContributorsReach | sharepush/push.py:158-180 | every node of the contributors part is collected once their `creator`s are |
| Rooting.PieceReach | sharepush/push.py:102-180 | a contributor's agent block is collected through its `agent` edge |
| Rooting.TagReach | sharepush/push.py:150-180 | every `tag` is collected through its `throughtags` |
| Rooting.ReachExactly | sharepush/push.py:170-181 | closed created nodes, all swept from the worklist, are exactly what is reachable |
| Rooting.ReachedWithin | sharepush/push.py:170-181 | nothing outside the created nodes is reached |
| Rooting.ReachableSweeps | sharepush/push.py:170-181 | the reachable nodes form a closed set holding the worklist |
| Scenario.TwoTagsTwoCreators | sharepush/push.py:109-161 | tags `x` and `y` and contributors `u1` and `u2` (each cell joined by the bar) without affiliations give ten nodes: the work, its identifier, `tag`/`throughtags` twice, then person/`creator` twice; the worklist is the work, the identifier, both creators and both `throughtags` |
| Scenario.CaseTagNames | sharepush/push.py:155 | the `tags` cell of the case splits into the tag names `x` and `y` |
| Scenario.CaseKeys | sharepush/push.py:160 | the `contributors` cell of the case splits into the keys `u1` and `u2` |
| Scenario.BareCreators | sharepush/push.py:158-161 | two bare agents give a person and a `creator` each |

## Left out

- `load_data` and `push_normalizeddata` (sharepush/push.py:12-36) are not modelled: they are the HTTP POST, `print` and the access-token check, all I/O.
- `sharepush/data.py` (CSV loading) is not part of this model. Its output is the parameter `data: Data`, a map from collection to key to column to string.
- `sharepush/settings` is not part of this model; it is configuration only.
- `uuid.uuid4()` is a parameter of the arena, an injective function from handle to string. The UUID format is not modelled.
- `PyStrings.Lower`: lower-cases the ASCII letters only, because Python's full Unicode case mapping is not modelled.
- `Flattener.SerializeAll`: the record order is an arbitrary enumeration `order` of the visited set, returned beside the records, because Python's set iteration order is unspecified. No particular order is promised.
- `CreativeWork.FormatCreativeWork`: on a `KeyError` the contract promises only `Grown` (earlier nodes unchanged). It does not say which nodes were created before the raise, because Python discards them with the exception.
- `CreativeWork.BuildWork`: on error, like `FormatCreativeWork`, only `Grown` is promised.
- `CreativeWork.FormatWorkHead`: on error, only `Grown` is promised about the nodes created before the failing lookup.
- `Formatters.FormatContributors`: on error, only `Grown` is promised about the blocks of earlier keys.
- `Formatters.FormatAgent`: on error, only `Grown` is promised.
- `Formatters.FormatContributor`: on error, only `Grown` is promised.
- `format_contributor` with `bibliographic=False` is modelled (`Shapes.CreatorFields`, `Shapes.OrderCited`), but `format_creativework` always passes `True`. So `Formatters.FormatContributor` is proved for either value, and the generator only for `True`.
- The related-works block (sharepush/push.py:163-168) is commented out in the source and is not modelled.
- A Python `dict` is modelled as an association list in insertion order. Hash-table behaviour and the `**kwargs` mechanics are not modelled.
- Only the value shapes the formatters store are modelled: strings, `False`, an integer index and `None`. Other Python values are not.
