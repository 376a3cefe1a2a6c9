# Medical knowledge graph: a Dafny model

This project models the data path of a small medical knowledge-graph system:

- **Extraction** (`gemini.py`). Text files are split into chunks of 1000 words. Each chunk goes to a language model. The fenced JSON reply is unwrapped and parsed. The entities and relationships of every reply are merged into one document. An item is dropped when its key tuple was already seen; the entity key is `(id, name, type)` and the relationship key is `(head, tail, type, evidence)`. Key parts compare as Python compares them, so `true` and `1` are the same part.
- **Import** (`generate_graph.py`). The combined document is loaded into Neo4j. The graph is reset, then every entity is merged as a node labelled by its `type`, and every relationship becomes an edge between the nodes of its `head` and `tail`. The edge's `evidence` property is a log merged by a Cypher `CASE`. As written, a relationship with a null `evidence` erases that log (see Findings). The model's store uses the corrected merge, under which the log only grows; `GraphStore.ApplyEdgeAsWritten` keeps the statement as written.
- **Ingest** (`ingest_kg.py`). Loosely shaped JSON files are turned into canonical rows for batched upserts. This covers the label map and title-casing, sanitised relationship types, cleaned property maps, `a or b or c` field fallbacks, the `head|TYPE|tail|md5` relationship key and batching in groups of 500.
- **Display** (`app.py`). Neo4j records are shaped into the nodes and edges the browser shows. This covers node ids, types and texts, the first-record-wins de-duplication, edge captions, the neighbourhood subgraph of one node, the connection list of a selected node, and the two-words-per-line caption split.

Modules, one per file:

- `Wrappers`: `Option`, `Result`, `Traverse`, `FilterMap`.
- `Errors`: the Python exceptions and Neo4j client errors.
- `Text`: ASCII case, whitespace, `split`, `join`, `strip`, `in`.
- `Json`: JSON values, truthiness, dict lookup, `str()`, iteration.
- `Deduplication`: the seen-set filter.
- `Batches`: fixed-size groups.
- `Evidence`: the evidence log.
- `GraphStore`: `generate_graph.py`.
- `GraphExample`: a worked import.
- `Extraction`: `gemini.py`.
- `Ingest`: `ingest_kg.py`.
- `Display`: `app.py`.

Python exceptions become `Err` values, so every operation whose source can raise returns `Result`; the others return plain values. A Neo4j store is two maps: node key to properties, and edge key to evidence log.

Several things outside the code become parameters:

- the language model's replies (`respond`);
- `json.loads` (`parse`, which returns `None` on a decode error);
- `hashlib.md5` (`md5`).

Database reads become the records a query returns.

The labels that `ingest_kg.py` writes and the `NODE_TYPES` list in `app.py` disagree, and the model follows both as written. `ingest_kg.py` assigns labels such as `Medication` or `Entitytype`, but `app.py` only accepts the lower-case names in `NODE_TYPES`. Every ingested node is therefore shown with the default type `medical_condition` (`Display.IngestedLabelsShowDefault`).

## Model

| member | source | states |
|---|---|---|
| Evidence.Merge | generate_graph.py:50-58 | the stored log is always a prefix of the merged log; merged non-null evidence is contained in the log; a non-null log stays non-null; null or empty evidence leaves the log unchanged |
| Evidence.MergeAgreesOnStrings | generate_graph.py:52-58 | for every non-null incoming evidence the corrected merge equals the CASE expression as written |
| Evidence.MergeCases | generate_graph.py:53-57 | the four WHEN/ELSE branches: empty evidence keeps the log, an empty log takes the evidence, contained evidence keeps the log, otherwise the evidence is appended after a newline |
| Evidence.MergeCovered | generate_graph.py:54-56 | evidence the log already covers leaves it unchanged |
| Evidence.MergeKeepsCovering | generate_graph.py:52-58 | after a merge the log covers the merged evidence and everything it covered before |
| Evidence.MergeIdempotent | generate_graph.py:52-58 | merging the same evidence twice is the same as merging it once |
| Evidence.MergeExamples | generate_graph.py:56-57 | "X" merged with "Y" gives "X\nY", and "X" merged with "X" stays "X" |
| Evidence.MergeAsWrittenErasesLog | generate_graph.py:55-57 | as written, a null incoming evidence turns the stored log "X" into null, so the log is not append-only |
| GraphStore.ResetGraph | generate_graph.py:62-63 | the reset store has no node and no edge, and is well formed |
| GraphStore.SetPropsAt | generate_graph.py:25 | after `SET n += {...}` a listed key holds its last listed value, or is absent when that value is null; an unlisted key keeps its old value |
| GraphStore.SetPropsIdempotent | generate_graph.py:25 | applying the same `SET n += map` twice equals applying it once |
| GraphStore.SetPropsConcat | generate_graph.py:25 | setting `a + b` equals setting `a` then `b` |
| GraphStore.PrepareEntity | generate_graph.py:20-26 | the statement for one entity succeeds exactly when it is a dict with a `type` that is an identifier, no `self` or `query` field (each clashes with a parameter of `tx.run` itself), integers that fit in signed 64 bits (the driver refuses others), identifier keys, a non-null `id` and property values Neo4j can store; the node key is (type, id), and its properties hold the id and no `type` |
| GraphStore.PrepareEntityUnstorable | generate_graph.py:20-26 | an entity that passes every other check but holds a value Neo4j cannot store, such as a map, is refused with a Cypher type error |
| GraphStore.PrepareEntityOk | generate_graph.py:22-26 | the concrete node upsert for an entity that meets those conditions |
| GraphStore.PrepareEntities | generate_graph.py:21-26 | succeeds exactly when every entity's statement does, one upsert per entity in order |
| GraphStore.ApplyUpserts | generate_graph.py:25 | after the MERGEs a node exists exactly when it existed before or some upsert targets its key |
| GraphStore.ApplyUpsertsUntargeted | generate_graph.py:25 | a node no upsert targets keeps its properties |
| GraphStore.ApplyUpsertsTargeted | generate_graph.py:25 | a targeted node holds its old properties updated by every targeting upsert in order |
| GraphStore.ApplyUpsertsIdempotent | generate_graph.py:21-26 | re-running the entity MERGEs changes nothing |
| GraphStore.InsertEntities | generate_graph.py:20-26 | succeeds exactly when every entity prepares; the edges are untouched |
| GraphStore.InsertEntitiesNodes | generate_graph.py:20-26 | afterwards a node exists exactly when it existed before or some entity's key names it |
| GraphStore.InsertEntitiesIdempotent | generate_graph.py:20-26 | running `insert_entities` twice with the same input equals running it once |
| GraphStore.DictEntryOk | generate_graph.py:30 | an `ent_dict` entry exists exactly for a dict with `id`, `type` and `text` and a hashable id, and maps the id to (type, text) |
| GraphStore.MapOf | generate_graph.py:30 | every key of the pair list is in the dict comprehension's map, and a key's last pair gives its value |
| GraphStore.MapOfFrom | generate_graph.py:30 | every map entry comes from some pair |
| GraphStore.BuildEntDict | generate_graph.py:30 | succeeds exactly when every entity has an entry; every id is a key, bound to its last entity's type and text |
| GraphStore.BuildEntDictFrom | generate_graph.py:30 | every `ent_dict` entry comes from some entity |
| GraphStore.LookupEntity | generate_graph.py:37-38 | `ent_dict[id]` succeeds exactly for a hashable id that is a key, and returns its entry |
| GraphStore.PrepareRelationship | generate_graph.py:31-38 | a relationship is prepared exactly when it is a dict with `head`, `tail` and a string `type`, both endpoints are hashable ids in `ent_dict` whose labels are identifiers, the upper-cased type is an identifier, and the evidence (`""` when absent) is a string or null; its edge key joins (head type, head) and (tail type, tail) under the upper-cased type, which has no lower-case letter; the statement carries the string evidence, or none for null |
| GraphStore.PrepareRelationshipOk | generate_graph.py:32-38 | the concrete edge statement for a relationship whose endpoints and type are valid |
| GraphStore.ApplyEdgeAgreesOnStrings | generate_graph.py:46-60 | the statement as written and the corrected one leave the same store whenever the evidence is a string |
| GraphStore.ApplyEdgeAsWrittenErasesLog | generate_graph.py:52-58 | as written, a null evidence sets a matched edge's log to null, so evidence "X" recorded before is no longer recorded |
| GraphStore.ApplyEdgeEffect | generate_graph.py:46-58 | without both endpoint nodes nothing changes; a new edge gets the incoming evidence; an existing edge's log is merged; nodes and every other edge are unchanged |
| GraphStore.ApplyEdges | generate_graph.py:31-60 | the nodes are untouched, and an edge exists afterwards exactly when it existed or some statement found its endpoints |
| GraphStore.ApplyEdgeKeepsRecorded | generate_graph.py:52-58 | an edge whose log covers some evidence still covers it after any further statement |
| GraphStore.ApplyEdgesRecords | generate_graph.py:46-60 | every statement whose endpoints exist leaves an edge whose log covers its evidence |
| GraphStore.ApplyEdgesRecorded | generate_graph.py:46-60 | statements whose evidence is already recorded change nothing |
| GraphStore.ApplyEdgesIdempotent | generate_graph.py:46-60 | replaying the edge statements changes nothing |
| GraphStore.SameTripleSameEdge | generate_graph.py:32-48 | relationships with the same head, tail and type up to case address the same edge |
| GraphStore.InsertRelationships | generate_graph.py:29-60 | succeeds exactly when `ent_dict` can be built and every relationship prepares; nodes are untouched |
| GraphStore.InsertRelationshipsEdges | generate_graph.py:29-60 | afterwards an edge exists exactly when it existed before or some relationship created it |
| GraphStore.InsertRelationshipsIdempotent | generate_graph.py:29-60 | running `insert_relationships` twice with the same input equals running it once |
| GraphStore.PropsForId | generate_graph.py:23-25 | the merged properties of a targeted node carry the node's non-null id |
| GraphStore.ApplyUpsertsCarryIds | generate_graph.py:25 | entity MERGEs keep every node's `id` property equal to its key's id |
| GraphStore.InsertEntitiesWellFormed | generate_graph.py:20-26 | `insert_entities` keeps the store well formed |
| GraphStore.InsertRelationshipsWellFormed | generate_graph.py:29-60 | `insert_relationships` keeps the store well formed |
| GraphStore.Subscript | generate_graph.py:13-14 | `data[k]` succeeds exactly on a dict holding `k` and gives its value; a non-dict raises `TypeError`, a missing key `KeyError` |
| GraphStore.Rows | generate_graph.py:13-21 | the rows a transaction loops over exist exactly when the subscript succeeds and its value is iterable |
| GraphStore.ImportGraph | generate_graph.py:13-69 | the script ends without an exception exactly when all three transactions succeed; a failing subscript leaves the store unchanged; entities that are not iterable fail after the reset, leaving an empty graph; relationships that are not iterable leave the committed entities |
| GraphStore.ImportForgetsOldGraph | generate_graph.py:62-69 | once both subscripts succeed, the outcome does not depend on the previous database |
| GraphStore.ImportWellFormed | generate_graph.py:66-69 | whatever step fails, the store left behind is well formed |
| GraphStore.EntDictNodesExist | generate_graph.py:30-38 | every `ent_dict` id names a node that `insert_entities` created |
| GraphStore.ImportSteps | generate_graph.py:66-69 | a run without exception executed every step, and its store is the edge statements applied to the entity statements' store |
| GraphStore.ImportNodes | generate_graph.py:66-68 | after a clean run the nodes are exactly the entities' keys |
| GraphStore.ImportRecordsEveryRelationship | generate_graph.py:66-69 | after a clean run every relationship's edge exists and its log covers that relationship's evidence |
| GraphStore.EdgesOfMatchedOps | generate_graph.py:46-60 | edge statements that all find their endpoints, run on a store without edges, leave exactly their own edges |
| GraphStore.ImportEdges | generate_graph.py:66-69 | after a clean run the edges are exactly the relationships' keys |
| GraphStore.EdgeOpsMatch | generate_graph.py:37-48 | after the entities are in, every prepared relationship finds both endpoint nodes |
| GraphExample.MapValueRefused | generate_graph.py:20-26 | an entity with a map-valued property is refused with a Cypher type error |
| GraphExample.QueryFieldRefused | generate_graph.py:26 | an entity with a `query` field makes `tx.run` raise a TypeError |
| GraphExample.SelfFieldRefused | generate_graph.py:26 | an entity with a `self` field makes `tx.run` raise a TypeError |
| GraphExample.LargeIdRefused | generate_graph.py:26 | an id of 2^63 is refused by the driver with an OverflowError |
| GraphExample.DuplicateTripleAccumulates | generate_graph.py:46-58 | on a worked file, two relationships on the same triple give one edge whose log holds both evidences |
| GraphExample.EdgesApplied | generate_graph.py:46-58 | two statements for the same edge between existing nodes, with evidence "X" then "Y", leave one edge whose log is "X\nY" |
| Extraction.ChunkText | gemini.py:22-27 | `chunck_text`: a chunk size of 0 raises, a negative size gives no chunk; otherwise every chunk holds 1..size words, every chunk but the last holds exactly size words, there are ceil(words/size) chunks, and re-splitting the chunks gives back the words of the text |
| Extraction.JoinRuns | gemini.py:25-26 | the loop produces the space-joined groups of `size` words |
| Extraction.ChunksOfWords | gemini.py:22-27 | the chunks of any word list re-split to the words, with the size bounds and count above |
| Extraction.ChunksSplitBack | gemini.py:26 | splitting each space-joined chunk gives back its group of words |
| Extraction.GroupsAllWords | gemini.py:23-26 | every group of `text.split()` words holds only words |
| Extraction.StripFences | gemini.py:50-54 | the unwrapped reply has no surrounding whitespace, and a reply without fences is only stripped |
| Extraction.OpenFence | gemini.py:51-52 | dropping a leading fence keeps the text stripped, and text without it is unchanged |
| Extraction.CloseFence | gemini.py:53-54 | dropping a trailing fence keeps the text stripped, and text without it is unchanged |
| Extraction.FenceRoundTrip | gemini.py:50-54 | a stripped payload wrapped in a json fence with any whitespace comes back unchanged |
| Extraction.BareFenceKept | gemini.py:51-54 | a reply opened by a bare fence without `json` keeps its fence |
| Extraction.OneOpeningFenceDropped | gemini.py:51-52 | only one leading json fence is removed |
| Extraction.CheckEntity | gemini.py:61-63 | an entity is accepted exactly when it is a dict whose key tuple is hashable |
| Extraction.CheckRelationship | gemini.py:67-69 | a relationship is accepted exactly when it is a dict whose key tuple is hashable |
| Extraction.Items | gemini.py:61 | `data.get(k, [])` needs a dict, and a missing key gives no items |
| Extraction.Merge | gemini.py:60-71 | the seen-sets grow by every offered key, and only unseen items are appended |
| Extraction.CheckReply | gemini.py:61-71 | a parsed reply's items are accepted exactly when both lists can be read and every entity and relationship has a hashable key tuple; it then yields the two lists |
| Extraction.AddResponse | gemini.py:50-75 | an unparsable reply only appends its text to `raw_responses`; a parsed reply succeeds exactly when its items are accepted, and then merges its entities and relationships |
| Extraction.AddResponseAccepted | gemini.py:57-75 | a parsed reply fails exactly when a list cannot be read or some entity or relationship has no hashable key |
| Extraction.AddResponseValid | gemini.py:60-71 | each reply keeps the seen-sets equal to the keys of the combined lists, with no key twice |
| Extraction.AddResponseEntities | gemini.py:60-65 | one reply appends exactly its entities with unseen keys, first of each key, and records their keys |
| Extraction.AddResponseRelationships | gemini.py:66-71 | one reply appends exactly its relationships with unseen keys, first of each key, and records their keys |
| Extraction.AddResponsesUnfold | gemini.py:37-75 | the replies are processed in order, each on the state the previous one left |
| Extraction.AddResponsesEntities | gemini.py:37-65 | over many replies the entity list is the first item of each unseen key over all replies, in order |
| Extraction.AddResponsesRelationships | gemini.py:37-71 | over many replies the relationship list is the first item of each unseen key over all replies, in order |
| Extraction.AddResponsesValid | gemini.py:37-75 | the combined state stays consistent over any number of replies |
| Extraction.CombineFilesDistinct | gemini.py:30-75 | the saved lists have pairwise distinct keys, and are exactly the first item per key over all replies of all files |
| Extraction.BooleanIdRepeatsInteger | gemini.py:61-65 | an entity with id `true` after one with id `1` is dropped, since Python's set compares `True == 1` |
| Extraction.TextDoesNotDistinguish | gemini.py:62-64 | two entities that differ only in `text` share a key, so the second is dropped |
| Json.HashKeySame | gemini.py:62-64 | two key parts count as the same set member exactly when they are equal or one is a boolean and the other its integer (`True == 1`, `False == 0`) |
| Deduplication.Dedup | gemini.py:61-65 | the kept items have distinct keys not seen before, are a subsequence of the input, and together with the seen-set cover every input key |
| Deduplication.DedupConcat | gemini.py:37-65 | de-duplicating two lists in a row equals de-duplicating their concatenation |
| Deduplication.DedupKeepsFirst | gemini.py:63-65 | the first item with an unseen key is kept |
| Deduplication.DedupOnlyFirst | gemini.py:63-65 | every kept item is the first of its key |
| Ingest.TitleCase | ingest_kg.py:16 | an empty string becomes "EntityType"; otherwise the result has the same length, equals the input ignoring case, has no lower-case first letter and no upper-case letter after it |
| Ingest.TitleCaseUnique | ingest_kg.py:16 | the title-case form is the only string with those properties |
| Ingest.TitleCaseIdempotent | ingest_kg.py:16 | title-casing a non-empty string twice equals doing it once |
| Ingest.DynLabel | ingest_kg.py:38 | a mapped type gets its `LABEL_MAP` label; any other non-empty type gets its title-case form; the label is never empty |
| Ingest.Collapse | ingest_kg.py:20 | the substitution leaves only `[a-zA-Z0-9_]` characters and is empty exactly for an empty input |
| Ingest.CollapseWordPrefix | ingest_kg.py:20 | word characters pass through unchanged |
| Ingest.CollapseRun | ingest_kg.py:20 | a maximal run of other characters becomes one `_` |
| Ingest.CollapseWord | ingest_kg.py:20 | a string of word characters is unchanged |
| Ingest.SanitizeRelType | ingest_kg.py:17-20 | succeeds exactly for a falsy value or a string, whose result is a non-empty upper-case word; another truthy value raises |
| Ingest.SanitizeFalsy | ingest_kg.py:18 | a falsy type becomes "RELATED_TO" |
| Ingest.SanitizeIgnoresCase | ingest_kg.py:19-20 | types that differ only in letter case sanitise alike |
| Ingest.RelTypeFixed | ingest_kg.py:17-20 | an already sanitised type is unchanged |
| Ingest.SanitizeIdempotent | ingest_kg.py:17-20 | sanitising a sanitised type changes nothing |
| Ingest.CleanProps | ingest_kg.py:22-23 | a pair is kept exactly when its key is not `id` and its value is not None, "", [] or {} |
| Ingest.CleanPropsConcat | ingest_kg.py:23 | cleaning distributes over concatenation |
| Ingest.CleanPropsIdempotent | ingest_kg.py:22-23 | cleaning twice equals cleaning once |
| Ingest.CleanPropsLookup | ingest_kg.py:23 | in the cleaned dict a key maps to its value exactly when it is not `id` and the value is not empty |
| Ingest.FallbackFirstTruthy | ingest_kg.py:35-37 | an `a or b or c` chain yields its first truthy operand, or the last one |
| Ingest.FallbackTruthy | ingest_kg.py:37 | a chain ending in a truthy default is truthy |
| Ingest.LoadJsonAnyShape | ingest_kg.py:25-32 | a dict gives its truthy `entities` and `relationships` or empty lists; any other document gives two empty lists |
| Ingest.CanonicalEntity | ingest_kg.py:34-40 | succeeds exactly for a dict whose fallback type is a string; the source id and text are the id/uid/node_id and text/name/label chains; `etype_lower` is the lower-cased type, non-empty, without upper-case letters and equal to the type ignoring case; the label is the dynamic label of that type; the props are the cleaned fields, all of them fields of the entity other than `id` |
| Ingest.CanonicalEntityProperty | ingest_kg.py:34-40 | a property of a canonical entity is the entity's own field, unless the key is `id` or the value is empty |
| Ingest.DefaultEntityLabel | ingest_kg.py:37-38 | an entity without type or category gets type "entitytype" and label "Entitytype" |
| Ingest.DefaultTypeLabel | ingest_kg.py:16 | the default type's label is "Entitytype", not "EntityType" |
| Ingest.CanonicalRel | ingest_kg.py:42-50 | succeeds exactly for a dict whose fallback type is a string; head and tail are the head/source/from and tail/target/to chains; the type is the sanitised type/relation chain; the evidence is the `evidence` field; the raw props are the cleaned fields, all fields other than `id`; the key is `head|TYPE|tail|md5` of those parts |
| Ingest.SplitAtBar | ingest_kg.py:49 | splitting at the first bar is unique when the prefix has no bar |
| Ingest.RelKeyParts | ingest_kg.py:49 | with bar-free endpoints, two keys are equal exactly when head, type, tail and hash are equal |
| Ingest.RelKeyCollision | ingest_kg.py:49 | an endpoint containing a bar can make two different relationships share a key |
| Ingest.CanonicalRelKeysEqual | ingest_kg.py:42-50 | two canonical relationships with the same head and tail text, type and evidence digest share a key |
| Ingest.CanonicalRelKeys | ingest_kg.py:42-50 | two canonical relationships with bar-free endpoints share a key exactly when head, type, tail and evidence hash agree |
| Ingest.CanonicaliseFile | ingest_kg.py:99-101 | succeeds exactly when both lists are iterable and every entity and relationship canonicalises; row `i` of each output list is the canonical form of item `i` |
| Ingest.ConcatAllAppend | ingest_kg.py:98-101 | canonicalising `xs + ys` concatenates the rows of `xs` and of `ys` |
| Ingest.Canonicalise | ingest_kg.py:97-101 | succeeds exactly when every file canonicalises |
| Ingest.BatchLimit | ingest_kg.py:89 | the effective batch size is `size` when positive, otherwise 1 |
| Ingest.Chunked | ingest_kg.py:85-91 | the batches concatenate to the input, each holds 1..limit items, all but the last are full, and there are none exactly for an empty input |
| Ingest.IngestBatchesCover | ingest_kg.py:93-107 | every canonical row is sent exactly once, in order, in batches of at most 500 |
| Batches.GroupsFlatten | ingest_kg.py:85-91 | the groups concatenate back to the input |
| Batches.GroupsCount | gemini.py:25-26 | every group but the last is full, and there are ceil(n/size) groups |
| Batches.GroupsAfterFull | ingest_kg.py:87-90 | full batches emitted so far followed by the grouping of the rest is the grouping of the whole |
| Display.NodeType | app.py:138-141 | the type is the first label when it is in `NODE_TYPES`, otherwise `medical_condition`, and always in `NODE_TYPES` |
| Display.NodeId | app.py:121-128 | the id is `str` of `id`, else of `text`, else the internal id |
| Display.NodeOf | app.py:118-149 | a node's id is its record id and its type is one of `NODE_TYPES` |
| Display.FetchedNodes | app.py:112-133 | the fetched nodes have distinct ids and are no more than the records |
| Display.FetchedNodesFirstWins | app.py:130-133 | the first record of each id is shown |
| Display.FetchedNodesOnlyFirst | app.py:130-133 | every shown node comes from the first record with its id |
| Display.FetchNodes | app.py:101-153 | the loop with its seen-set returns exactly the first node per id, all ids distinct |
| Display.FetchStep | app.py:130-149 | one loop step adds the record's id to the seen-set and appends its node only when the id is new |
| Display.TypeLabel | app.py:178 | the type caption has the type's length, no upper-case letter and no `_` |
| Display.TypeLabelRecoversType | app.py:178 | a sanitised relationship type can be read back from its caption |
| Display.EdgeLabel | app.py:177-185 | a truthy `note` wins; otherwise a string evidence under 50 characters; otherwise the type caption |
| Display.FetchEdges | app.py:155-197 | one edge per record, in order, with its endpoints and caption |
| Display.AddNode | app.py:285-304 | a known id leaves the list unchanged; a new id appends exactly the node built from it; ids stay distinct and the id set grows by exactly that id |
| Display.AddEndpoints | app.py:285-325 | after one record both endpoint ids are present, and no other id was added |
| Display.CollectNodes | app.py:253-325 | the start node comes first, ids are distinct, and every record's endpoints are among the ids |
| Display.CollectedAreEndpoints | app.py:285-325 | every node other than the start is an endpoint of some record |
| Display.Subgraph | app.py:209-350 | a missing start node gives an empty subgraph; otherwise the start node first, distinct node ids, one edge per record, and every edge's endpoints among the nodes |
| Display.FindNode | app.py:616 | no node is found exactly when no node has the id; a found node has it |
| Display.FindNodeFirst | app.py:616 | the first node with the id is found |
| Display.ConnectionOf | app.py:622-640 | an edge is outgoing exactly when it starts at the node and its target is known, incoming exactly when it only ends at the node and its source is known; the connection names the other endpoint |
| Display.ConnectionsConcat | app.py:621-640 | connections distribute over concatenated edge lists |
| Display.ConnectionsMember | app.py:621-640 | a connection is listed exactly when some edge yields it |
| Display.SelfLoopOutgoing | app.py:623-631 | a self-loop is listed once, as outgoing |
| Display.NodeDetails | app.py:614-645 | no details exactly when no node has the id; otherwise that node and at most one connection per edge |
| Display.DisplayLabel | app.py:406-411 | a string caption of at most two words is shown unchanged; a non-string caption raises |
| Display.DisplayLabelLines | app.py:407-409 | a longer caption shows its first two words, a newline and the remaining words |
| Display.DisplayLabelWords | app.py:406-411 | the shown caption has the same words as the caption |
| Display.IngestedLabelsShowDefault | app.py:138-141 | nodes written by the ingest script, labelled `Entity` plus a dynamic label, are always shown as `medical_condition` |

## Left out

- The Cypher in `ingest_kg.py` (`CYPHER_ENTITIES`, `CYPHER_RELS`, `apoc.create.*`, `datetime()`) is left out. The model stops at the batches of canonical rows sent to it, because the APOC procedures are server-side code.
- The Neo4j drivers, sessions and connection settings are left out. Query results are inputs given as records, and a failed transaction is an `Err`.
- The language-model calls and the prompt text are left out. The replies are the `respond` parameter.
- `json.loads` and `json.load` are the `parse` parameter or an already parsed value. File reading, directory globbing, command-line parsing and `json.dump` are left out.
- `hashlib.md5` is the `md5` parameter.
- The Streamlit layout, CSS, colours, pyvis options and session state in `app.py` are left out. Only the data transforms feeding them are modelled.
- The `except Exception` blocks in `app.py` that swallow errors and return partial lists are left out. The model assumes the queries succeed.
- Cypher's `toString(id)` for endpoint ids is an input field of the records. It is not derived from the node properties.
- `Json.Str`: Python `str()` renders lists and dicts with a simplified `repr` that does not escape quotes.
- `Text.Lower` and `Text.Upper`: case mapping covers ASCII letters only, not Unicode case rules.
- `Text.Strip`: whitespace is Python's ASCII whitespace set, not every Unicode space.
- `Ingest.TitleCaseIdempotent` requires a non-empty string. `title_case("")` gives "EntityType", which title-cases to "Entitytype".
- `Extraction.Items` only states the dict and missing-key cases. Other values go through `Iterate`.
- `Display.NodeText` has no contract: it is the nested `get` with its default.
- JSON numbers are integers. Floating-point values are left out.
- `GraphStore.PrepareRelationship` gives an `Unsupported` error for evidence that is neither a string nor null. Cypher's `CONTAINS` and `+` on numbers, lists or maps are not modelled.
- `GraphStore.IsIdentifier` approximates what Neo4j accepts as an unquoted label, type or key: an ASCII letter or `_` followed by letters, digits or `_`. Three kinds of names that Neo4j accepts are treated as syntax errors: names with non-ASCII letters; a `type` holding colon-separated labels such as `A:B`, which `MERGE (n:A:B …)` turns into a node with both labels; and backquoted names such as `` `Drug Class` ``, which Neo4j reads as one label or key.
- GraphStore.ApplyEdgeEffect: states the corrected merge, not the statement as written. As written, a null incoming evidence sets an existing edge's log to null (`ApplyEdgeAsWrittenErasesLog`).
- GraphStore.ApplyEdgeKeepsRecorded: holds for the corrected merge only. As written, a null evidence erases recorded evidence.
- GraphStore.ApplyEdgesRecords: holds for the corrected merge only. As written, a later relationship with null evidence on the same edge erases what was recorded.
- GraphStore.ApplyEdgesRecorded: holds for the corrected merge only. As written, a null evidence on a recorded edge changes its log to null.
- GraphStore.ImportRecordsEveryRelationship: holds for the corrected merge only. As written, a relationship with null evidence erases the log its edge gathered from earlier relationships.
- GraphStore.PrepareEntity: an entity field named `parameters` is passed to `tx.run`'s own `parameters` argument. That case is not modelled. Multi-label and backquoted types are refused (see `GraphStore.IsIdentifier`). The value check allows `[]` and lists of one scalar kind; Neo4j's finer rules for temporal, spatial and byte-array values do not arise from JSON.
- GraphStore.BuildEntDict: `ent_dict` is keyed by the raw JSON id. Python would merge the ids `true` and `1` into one entry, so an id `true` would find the entry of id `1`. The edge statement then matches on `{id: true}`, which Cypher does not equate with `1`.
- GraphStore.LookupEntity: looks up the raw JSON id, so it treats `true` and `1` as different keys, unlike the Python dict (see `GraphStore.BuildEntDict`).
- Printing, progress messages and the final row counts (`total_nodes`, `total_rels`) are left out.

## Findings

| source | as written | input that shows it | evidently intended | confidence | as-written member | corrected member |
|---|---|---|---|---|---|---|
| generate_graph.py:52-58 | a relationship whose `evidence` is JSON null skips every WHEN branch, because null comparisons are null; the ELSE branch `r.evidence + '\n' + null` is null, so the stored log is erased | stored evidence "X", incoming relationship with `"evidence": null` | a missing or null evidence leaves the log unchanged, like an empty one | not executed | Evidence.MergeAsWrittenErasesLog | Evidence.Merge |
| generate_graph.py:46-60 | the same `CASE`, run for an edge that already exists, so the edge's log loses every evidence recorded before | an edge with log "X" and a further relationship between the same nodes with `"evidence": null` | the edge keeps "X" | not executed | GraphStore.ApplyEdgeAsWrittenErasesLog | GraphStore.ApplyEdgeKeepsRecorded |
