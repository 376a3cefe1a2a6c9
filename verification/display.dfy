/** app.py: how the viewer turns Neo4j query results into display nodes and
    edges, collects the neighbourhood of one node, lists a node's connections
    and breaks long labels over two lines. Query results are taken as
    abstract records; the Cypher that produces them is not modelled. */
module Display {
  import opened Wrappers
  import opened Errors
  import opened Text
  import opened Json
  import opened Deduplication
  import Ingest

  // ---------------------------------------------------------------------
  // Nodes

  /** One row of `MATCH (n) RETURN labels(n), properties(n), id(n)`. */
  datatype NodeRecord = NodeRecord(labels: seq<string>, props: map<string, Json>, internalId: int)

  /** A display node: its id, the text shown on it, its type and the raw
      properties. */
  datatype Node = Node(id: string, caption: Json, ntype: string, props: map<string, Json>)

  /** `NODE_TYPES` */
  const NodeTypes: seq<string> :=
    ["medical_condition", "medication", "treatment_type", "outcome", "measure", "patient_group", "study"]

  const DefaultType: string := "medical_condition"

  /** The node's type: its first label when that is one of `NodeTypes`,
      otherwise "medical_condition" (also when it has no label). */
  function NodeType(labels: seq<string>): (t: string)
    ensures t in NodeTypes
    ensures labels != [] && labels[0] in NodeTypes ==> t == labels[0]
    ensures (labels == [] || labels[0] !in NodeTypes) ==> t == DefaultType
  {
    var first := if labels != [] then labels[0] else "Unknown";
    if first in NodeTypes then first else DefaultType
  }

  /** The node's id: the `id` property when not None, else the `text`
      property, else the internal id, as `str()` prints it. */
  function NodeId(props: map<string, Json>, internalId: int): (id: string)
    ensures PropGet(props, "id") != JNull ==> id == Str(props["id"])
    ensures PropGet(props, "id") == JNull && PropGet(props, "text") != JNull ==> id == Str(props["text"])
    ensures PropGet(props, "id") == JNull && PropGet(props, "text") == JNull ==> id == IntToString(internalId)
  {
    var v := PropGet(props, "id");
    var v' := if v == JNull then PropGet(props, "text") else v;
    if v' == JNull then IntToString(internalId) else Str(v')
  }

  /** `props.get("text", props.get("name", f"Node {id}"))`: a key that is
      present wins, whatever its value. */
  function NodeText(props: map<string, Json>, id: string): Json {
    if "text" in props then props["text"]
    else if "name" in props then props["name"]
    else JStr("Node " + id)
  }

  function MakeNode(id: string, labels: seq<string>, props: map<string, Json>): Node {
    Node(id, NodeText(props, id), NodeType(labels), props)
  }

  function RecordId(r: NodeRecord): string {
    NodeId(r.props, r.internalId)
  }

  function NodeOf(r: NodeRecord): (n: Node)
    ensures n.id == RecordId(r) && n.ntype in NodeTypes
  {
    MakeNode(RecordId(r), r.labels, r.props)
  }

  predicate DistinctIds(ns: seq<Node>) {
    forall i, j :: 0 <= i < j < |ns| ==> ns[i].id != ns[j].id
  }

  function Nodes(rs: seq<NodeRecord>): (ns: seq<Node>)
    ensures |ns| == |rs| && forall i :: 0 <= i < |rs| ==> ns[i] == NodeOf(rs[i])
  {
    seq(|rs|, i requires 0 <= i < |rs| => NodeOf(rs[i]))
  }

  /** What `fetch_nodes_from_neo4j` returns: the node of every record whose id
      was not met before. */
  function FetchedNodes(rs: seq<NodeRecord>): (ns: seq<Node>)
    ensures DistinctIds(ns)
    ensures |ns| <= |rs|
  {
    var kept := Dedup({}, rs, RecordId);
    DedupLength({}, rs, RecordId);
    Nodes(kept)
  }

  /** The first record with each id is the one shown, and only those are. */
  lemma FetchedNodesFirstWins(rs: seq<NodeRecord>, i: nat)
    requires i < |rs|
    requires forall j :: 0 <= j < i ==> RecordId(rs[j]) != RecordId(rs[i])
    ensures NodeOf(rs[i]) in FetchedNodes(rs)
  {
    assert FirstOfKey({}, rs, RecordId, i);
    DedupKeepsFirst({}, rs, RecordId, i);
    var kept := Dedup({}, rs, RecordId);
    var k :| 0 <= k < |kept| && kept[k] == rs[i];
    assert FetchedNodes(rs)[k] == NodeOf(rs[i]);
  }

  /** Every node shown comes from the first record with its id. */
  lemma FetchedNodesOnlyFirst(rs: seq<NodeRecord>, k: nat)
    requires k < |FetchedNodes(rs)|
    ensures exists i ::
              0 <= i < |rs| && FetchedNodes(rs)[k] == NodeOf(rs[i]) &&
              forall j :: 0 <= j < i ==> RecordId(rs[j]) != RecordId(rs[i])
  {
    DedupOnlyFirst({}, rs, RecordId, k);
    var i :| 0 <= i < |rs| && FirstOfKey({}, rs, RecordId, i) && rs[i] == Dedup({}, rs, RecordId)[k];
    assert FetchedNodes(rs)[k] == NodeOf(rs[i]);
  }

  /** `fetch_nodes_from_neo4j`: one pass over the records with a set of the
      ids met so far. */
  method FetchNodes(rs: seq<NodeRecord>) returns (nodes: seq<Node>)
    ensures nodes == FetchedNodes(rs)
    ensures DistinctIds(nodes)
  {
    nodes := [];
    var seen: set<string> := {};
    var i := 0;
    while i < |rs|
      invariant 0 <= i <= |rs|
      invariant seen == KeySet(rs[..i], RecordId)
      invariant nodes == Nodes(Dedup({}, rs[..i], RecordId))
    {
      var id := RecordId(rs[i]);
      FetchStep(rs, i);
      if id !in seen {
        seen := seen + {id};
        nodes := nodes + [NodeOf(rs[i])];
      }
      i := i + 1;
    }
    assert rs[..i] == rs;
  }

  /** One more record extends the kept prefix by that record exactly when its
      id is new. */
  lemma FetchStep(rs: seq<NodeRecord>, i: nat)
    requires i < |rs|
    ensures KeySet(rs[..i + 1], RecordId) == KeySet(rs[..i], RecordId) + {RecordId(rs[i])}
    ensures Nodes(Dedup({}, rs[..i + 1], RecordId)) ==
      Nodes(Dedup({}, rs[..i], RecordId)) +
        (if RecordId(rs[i]) in KeySet(rs[..i], RecordId) then [] else [NodeOf(rs[i])])
  {
    var xs, x := rs[..i], rs[i];
    assert rs[..i + 1] == xs + [x];
    KeySetConcat(xs, [x], RecordId);
    DedupConcat({}, xs, [x], RecordId);
    assert {} + KeySet(xs, RecordId) == KeySet(xs, RecordId);
    assert [x][1..] == [];
  }

  // ---------------------------------------------------------------------
  // Edges

  /** One row of `MATCH (a)-[r]->(b)`: the endpoint ids as the query prints
      them, the relationship type and its properties (`{}` when null). */
  datatype EdgeRecord = EdgeRecord(fromId: string, toId: string, relType: string, relProps: map<string, Json>)

  datatype Edge = Edge(from: string, to: string, caption: Json, relType: string, props: map<string, Json>)

  /** The label of a relationship type: lower case, underscores as spaces. */
  function TypeLabel(relType: string): (l: string)
    ensures |l| == |relType| && HasNoUpper(l) && '_' !in l
  {
    ReplaceChar(Lower(relType), '_', ' ')
  }

  /** An evidence value shown as the label: a nonempty string of fewer than
      50 characters. */
  predicate ShortEvidence(ev: Json) {
    ev.JStr? && 0 < |ev.s| < 50
  }

  /** The edge label rule: a truthy `note` wins; failing that, an `evidence`
      string shorter than 50 characters; failing that, the type label. */
  function EdgeLabel(relType: string, props: map<string, Json>): (l: Json)
    ensures Truthy(PropGet(props, "note")) ==> l == props["note"]
    ensures !Truthy(PropGet(props, "note")) && ShortEvidence(PropGet(props, "evidence")) ==>
              l == props["evidence"]
    ensures !Truthy(PropGet(props, "note")) && !ShortEvidence(PropGet(props, "evidence")) ==>
              l == JStr(TypeLabel(relType))
  {
    var note := PropGet(props, "note");
    var ev := PropGet(props, "evidence");
    if Truthy(note) then note
    else if Truthy(ev) && ev.JStr? && |ev.s| < 50 then ev
    else JStr(TypeLabel(relType))
  }

  /** A sanitised relationship type (ingest_kg.py) can be read back from its
      type label: the label loses nothing but case. */
  lemma TypeLabelRecoversType(relType: string)
    requires Ingest.IsRelType(relType)
    ensures Upper(ReplaceChar(TypeLabel(relType), ' ', '_')) == relType
  {
    var l := TypeLabel(relType);
    forall i | 0 <= i < |relType| ensures Upper(ReplaceChar(l, ' ', '_'))[i] == relType[i] {
      LowerUpperChar(relType[i]);
    }
  }

  function EdgeOf(r: EdgeRecord): (e: Edge)
    ensures e.from == r.fromId && e.to == r.toId && e.relType == r.relType && e.props == r.relProps
  {
    Edge(r.fromId, r.toId, EdgeLabel(r.relType, r.relProps), r.relType, r.relProps)
  }

  /** `fetch_edges_from_neo4j`: one edge per record, in order. */
  function FetchEdges(rs: seq<EdgeRecord>): (es: seq<Edge>)
    ensures |es| == |rs|
    ensures forall i :: 0 <= i < |rs| ==> es[i].from == rs[i].fromId && es[i].to == rs[i].toId
    ensures forall i :: 0 <= i < |rs| ==> es[i].caption == EdgeLabel(rs[i].relType, rs[i].relProps)
  {
    seq(|rs|, i requires 0 <= i < |rs| => EdgeOf(rs[i]))
  }

  // ---------------------------------------------------------------------
  // Subgraph

  /** One row of the neighbourhood query: an edge record with the labels and
      properties of both endpoints. */
  datatype RelRecord = RelRecord(
    edge: EdgeRecord,
    fromLabels: seq<string>, fromProps: map<string, Json>,
    toLabels: seq<string>, toProps: map<string, Json>)

  function IdsOf(ns: seq<Node>): (ids: seq<string>)
    ensures |ids| == |ns| && forall i :: 0 <= i < |ns| ==> ids[i] == ns[i].id
  {
    seq(|ns|, i requires 0 <= i < |ns| => ns[i].id)
  }

  /** Adds a node unless one with that id is already collected. */
  function AddNode(ns: seq<Node>, id: string, labels: seq<string>, props: map<string, Json>): (r: seq<Node>)
    requires DistinctIds(ns)
    ensures DistinctIds(r) && ns <= r && |r| <= |ns| + 1
    ensures id in IdsOf(r)
    ensures forall x :: x in IdsOf(r) <==> x in IdsOf(ns) || x == id
    ensures id in IdsOf(ns) ==> r == ns
    ensures id !in IdsOf(ns) ==> r == ns + [MakeNode(id, labels, props)]
  {
    if id in IdsOf(ns) then ns
    else
      var r := ns + [MakeNode(id, labels, props)];
      assert IdsOf(r) == IdsOf(ns) + [id];
      r
  }

  /** Adds both endpoints of a neighbourhood record, each unless already
      collected. */
  function AddEndpoints(ns: seq<Node>, rec: RelRecord): (r: seq<Node>)
    requires DistinctIds(ns)
    ensures DistinctIds(r) && ns <= r
    ensures rec.edge.fromId in IdsOf(r) && rec.edge.toId in IdsOf(r)
    ensures forall x :: x in IdsOf(r) <==> x in IdsOf(ns) || x == rec.edge.fromId || x == rec.edge.toId
  {
    var ns1 := AddNode(ns, rec.edge.fromId, rec.fromLabels, rec.fromProps);
    AddNode(ns1, rec.edge.toId, rec.toLabels, rec.toProps)
  }

  /** Every record's endpoints are among the ids. */
  predicate EndpointsIn(rels: seq<RelRecord>, ids: seq<string>) {
    forall i :: 0 <= i < |rels| ==> rels[i].edge.fromId in ids && rels[i].edge.toId in ids
  }

  lemma CollectStep(init: seq<RelRecord>, rec: RelRecord, prev: seq<Node>)
    requires DistinctIds(prev) && EndpointsIn(init, IdsOf(prev))
    ensures EndpointsIn(init + [rec], IdsOf(AddEndpoints(prev, rec)))
  {
    var rels := init + [rec];
    var ids := IdsOf(AddEndpoints(prev, rec));
    forall i | 0 <= i < |rels| ensures rels[i].edge.fromId in ids && rels[i].edge.toId in ids {
      if i < |init| {
        assert rels[i] == init[i];
      }
    }
  }

  /** The nodes the loop over the neighbourhood records collects, starting
      from the start node. The edges do not depend on them: the loop adds
      one edge per record whatever it does with the nodes. */
  function CollectNodes(start: Node, rels: seq<RelRecord>): (ns: seq<Node>)
    ensures |ns| >= 1 && ns[0] == start && DistinctIds(ns)
    ensures EndpointsIn(rels, IdsOf(ns))
    decreases |rels|
  {
    if rels == [] then [start]
    else
      var init := rels[..|rels| - 1];
      var prev := CollectNodes(start, init);
      assert init + [rels[|rels| - 1]] == rels;
      CollectStep(init, rels[|rels| - 1], prev);
      AddEndpoints(prev, rels[|rels| - 1])
  }

  /** Every collected node other than the start is an endpoint of a record. */
  lemma {:induction false} CollectedAreEndpoints(start: Node, rels: seq<RelRecord>, id: string)
    requires id in IdsOf(CollectNodes(start, rels)) && id != start.id
    ensures exists i :: 0 <= i < |rels| && (rels[i].edge.fromId == id || rels[i].edge.toId == id)
    decreases |rels|
  {
    var init := rels[..|rels| - 1];
    var rec := rels[|rels| - 1];
    var prev := CollectNodes(start, init);
    var ns := AddEndpoints(prev, rec);
    assert CollectNodes(start, rels) == ns;
    assert id in IdsOf(prev) || id == rec.edge.fromId || id == rec.edge.toId;
    if id in IdsOf(prev) {
      CollectedAreEndpoints(start, init, id);
      var i :| 0 <= i < |init| && (init[i].edge.fromId == id || init[i].edge.toId == id);
      assert rels[i] == init[i];
    } else {
      assert rec.edge.fromId == id || rec.edge.toId == id;
    }
  }

  function EdgeRecords(rels: seq<RelRecord>): (rs: seq<EdgeRecord>)
    ensures |rs| == |rels| && forall i :: 0 <= i < |rels| ==> rs[i] == rels[i].edge
  {
    seq(|rels|, i requires 0 <= i < |rels| => rels[i].edge)
  }

  /** `fetch_subgraph_from_neo4j`: nothing when the start node is not found;
      otherwise the start node first, then each new endpoint of the records,
      and one edge per record. */
  function Subgraph(start: Option<NodeRecord>, rels: seq<RelRecord>): (r: (seq<Node>, seq<Edge>))
    ensures start.None? ==> r == ([], [])
    ensures start.Some? ==> |r.0| >= 1 && r.0[0] == NodeOf(start.value) && |r.1| == |rels|
    ensures DistinctIds(r.0)
    ensures forall i :: 0 <= i < |r.1| ==> r.1[i].from in IdsOf(r.0) && r.1[i].to in IdsOf(r.0)
  {
    match start
    case None => ([], [])
    case Some(rec) => (CollectNodes(NodeOf(rec), rels), FetchEdges(EdgeRecords(rels)))
  }

  // ---------------------------------------------------------------------
  // Node details

  /** `next((n for n in nodes if n["id"] == id), None)` */
  function FindNode(nodes: seq<Node>, id: string): (r: Option<Node>)
    ensures r.None? <==> forall i :: 0 <= i < |nodes| ==> nodes[i].id != id
    ensures r.Some? ==> r.value in nodes && r.value.id == id
    decreases |nodes|
  {
    if nodes == [] then None
    else if nodes[0].id == id then Some(nodes[0])
    else
      assert forall i :: 1 <= i < |nodes| ==> nodes[1..][i - 1] == nodes[i];
      FindNode(nodes[1..], id)
  }

  /** The node found is the first with the id. */
  lemma {:induction false} FindNodeFirst(nodes: seq<Node>, id: string, i: nat)
    requires i < |nodes| && nodes[i].id == id
    requires forall j :: 0 <= j < i ==> nodes[j].id != id
    ensures FindNode(nodes, id) == Some(nodes[i])
    decreases i
  {
    if i > 0 {
      FindNodeFirst(nodes[1..], id, i - 1);
    }
  }

  datatype Direction = Outgoing | Incoming

  datatype Connection = Connection(node: Node, relationship: Json, direction: Direction, relType: string)

  /** What one edge contributes to the details of node `id`: the other
      endpoint when the edge leaves `id` (checked first, so a self-loop is
      outgoing) or enters it, and nothing when that endpoint is not among
      `nodes` or the edge does not touch `id`. */
  function ConnectionOf(id: string, nodes: seq<Node>, e: Edge): (c: Option<Connection>)
    ensures c.Some? && c.value.direction == Outgoing <==> e.from == id && FindNode(nodes, e.to).Some?
    ensures c.Some? && c.value.direction == Incoming <==> e.from != id && e.to == id && FindNode(nodes, e.from).Some?
    ensures c.Some? ==> c.value.node in nodes && c.value.relationship == e.caption && c.value.relType == e.relType
    ensures c.Some? ==> c.value.node.id == (if c.value.direction == Outgoing then e.to else e.from)
  {
    if e.from == id then
      match FindNode(nodes, e.to)
      case None => None
      case Some(n) => Some(Connection(n, e.caption, Outgoing, e.relType))
    else if e.to == id then
      match FindNode(nodes, e.from)
      case None => None
      case Some(n) => Some(Connection(n, e.caption, Incoming, e.relType))
    else None
  }

  /** The connections of node `id`, one per contributing edge, in edge order. */
  function Connections(id: string, nodes: seq<Node>, edges: seq<Edge>): (cs: seq<Connection>)
    ensures |cs| <= |edges|
  {
    FilterMap(edges, e => ConnectionOf(id, nodes, e))
  }

  /** Order follows the edge list: the connections of two runs of edges are
      those of the first run, then those of the second. */
  lemma ConnectionsConcat(id: string, nodes: seq<Node>, a: seq<Edge>, b: seq<Edge>)
    ensures Connections(id, nodes, a + b) == Connections(id, nodes, a) + Connections(id, nodes, b)
  {
    FilterMapConcat(a, b, e => ConnectionOf(id, nodes, e));
  }

  /** A connection is listed exactly when some edge contributes it. */
  lemma ConnectionsMember(id: string, nodes: seq<Node>, edges: seq<Edge>, c: Connection)
    ensures c in Connections(id, nodes, edges) <==>
      exists i :: 0 <= i < |edges| && ConnectionOf(id, nodes, edges[i]) == Some(c)
  {
    FilterMapMember(edges, e => ConnectionOf(id, nodes, e), c);
  }

  /** A self-loop on `id` whose node is listed shows up once, as outgoing. */
  lemma SelfLoopOutgoing(id: string, nodes: seq<Node>, e: Edge)
    requires e.from == id && e.to == id && FindNode(nodes, id).Some?
    ensures Connections(id, nodes, [e]) == [Connection(FindNode(nodes, id).value, e.caption, Outgoing, e.relType)]
  {
    FilterMapOne(e, e => ConnectionOf(id, nodes, e));
  }

  /** `get_node_details`: nothing when no node has the id; otherwise the
      first node with the id and its connections. */
  function NodeDetails(id: string, nodes: seq<Node>, edges: seq<Edge>): (r: Option<(Node, seq<Connection>)>)
    ensures r.None? <==> forall i :: 0 <= i < |nodes| ==> nodes[i].id != id
    ensures r.Some? ==> r.value.0 in nodes && r.value.0.id == id
    ensures r.Some? ==> |r.value.1| <= |edges|
  {
    match FindNode(nodes, id)
    case None => None
    case Some(n) => Some((n, Connections(id, nodes, edges)))
  }

  // ---------------------------------------------------------------------
  // Display labels

  /** The label drawn on a node: with more than two words, the first two
      words, a line break, then the rest joined by spaces; otherwise the text
      as it is. A label that is not a string has no `split`. */
  function DisplayLabel(caption: Json): (r: Result<string, Error>)
    ensures r.Ok? <==> caption.JStr?
    ensures r.Ok? && |Split(caption.s)| <= 2 ==> r.value == caption.s
  {
    match caption
    case JStr(s) =>
      var parts := Split(s);
      if |parts| > 2 then Ok(Join(" ", parts[..2]) + "\n" + Join(" ", parts[2..])) else Ok(s)
    case _ => Err(AttributeError("split"))
  }

  /** Breaking a long label keeps its words: the first line holds the first
      two, the second line the rest. */
  lemma DisplayLabelLines(s: string)
    requires |Split(s)| > 2
    ensures var p := Split(s);
      var first := Join(" ", p[..2]);
      var second := Join(" ", p[2..]);
      DisplayLabel(JStr(s)) == Ok(first + "\n" + second) &&
      Split(first) == p[..2] && Split(second) == p[2..]
  {
    var p := Split(s);
    SplitJoin(' ', p[..2]);
    SplitJoin(' ', p[2..]);
  }

  /** The displayed label has the same words as the label. */
  lemma DisplayLabelWords(s: string)
    ensures DisplayLabel(JStr(s)).Ok? && Split(DisplayLabel(JStr(s)).value) == Split(s)
  {
    var p := Split(s);
    if |p| > 2 {
      DisplayLabelLines(s);
      var first := Join(" ", p[..2]);
      var second := Join(" ", p[2..]);
      SplitAtSpace(first, '\n', second);
      assert first + "\n" + second == first + ['\n'] + second;
      assert p[..2] + p[2..] == p;
    }
  }

  // ---------------------------------------------------------------------
  // Labels written by ingest_kg.py

  /** The labels ingest_kg.py gives its nodes ("Entity" and a capitalised
      label) are not in `NodeTypes`, so such a node is shown as a
      medical condition whatever its extracted type. */
  lemma IngestedLabelsShowDefault(t: string, rest: seq<string>)
    ensures NodeType([Ingest.DynLabel(t)] + rest) == DefaultType
    ensures NodeType(["Entity"] + rest) == DefaultType
  {
    var l := Ingest.DynLabel(t);
    assert !IsLower(l[0]) by {
      if t in Ingest.LabelMap {
        assert forall k :: k in Ingest.LabelMap ==> !IsLower(Ingest.LabelMap[k][0]);
      }
    }
    assert forall k :: 0 <= k < |NodeTypes| ==> IsLower(NodeTypes[k][0]);
    assert ([l] + rest)[0] == l;
    assert (["Entity"] + rest)[0] == "Entity";
  }
}
