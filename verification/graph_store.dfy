/** The Neo4j import of generate_graph.py as operations on an abstract store.
    A node is identified by its label and its `id` property (the `MERGE`
    pattern of `insert_entities`); an edge by its two end nodes and its
    relationship type (the `MERGE` pattern of `insert_relationships`), and it
    carries the evidence log of the `Evidence` module. Every transaction
    function returns `Err` where the script raises, and `execute_write` then
    rolls the transaction back, so a failed step leaves the store as it was. */
module GraphStore {
  import opened Wrappers
  import opened Errors
  import opened Text
  import opened Json
  import Evidence

  /** A label, relationship type or property key that can be spliced into
      Cypher without backquotes. */
  predicate IsIdentifier(s: string) {
    |s| > 0 && (IsLetter(s[0]) || s[0] == '_') && forall i :: 0 <= i < |s| ==> IsWordChar(s[i])
  }

  type Props = map<string, Json>

  datatype NodeKey = NodeKey(nodeLabel: string, id: Json)
  datatype EdgeKey = EdgeKey(head: NodeKey, relType: string, tail: NodeKey)

  /** Node properties per node, and the `evidence` property per edge
      (`None` when the property is null). */
  datatype Store = Store(nodes: map<NodeKey, Props>, edges: map<EdgeKey, Option<string>>)

  /** Every node carries its key's non-null id as its `id` property, and every
      edge joins two nodes of the store. */
  ghost predicate WellFormed(s: Store) {
    && (forall k :: k in s.nodes ==> k.id != JNull && "id" in s.nodes[k] && s.nodes[k]["id"] == k.id)
    && (forall e :: e in s.edges ==> e.head in s.nodes && e.tail in s.nodes)
  }

  /** `reset_graph`: `MATCH (n) DETACH DELETE n` removes every node and edge. */
  function ResetGraph(s: Store): (r: Store)
    ensures WellFormed(r)
    ensures forall k :: k !in r.nodes
    ensures forall e :: e !in r.edges
  {
    Store(map[], map[])
  }

  // ---------------------------------------------------------------------
  // SET n += {...}

  function SetProp(p: Props, kv: (string, Json)): Props {
    if kv.1 == JNull then p - {kv.0} else p[kv.0 := kv.1]
  }

  /** `SET n += {k1: v1, ...}`: each key is overwritten, and a null value
      removes the property. */
  function SetProps(p: Props, fs: Fields): Props
    decreases |fs|
  {
    if fs == [] then p else SetProp(SetProps(p, fs[..|fs| - 1]), fs[|fs| - 1])
  }

  /** After `SET n += m`, a key of `m` holds m's value (absent when null) and
      every other property is untouched. */
  lemma {:induction false} SetPropsAt(p: Props, fs: Fields, k: string)
    ensures HasKey(fs, k) ==>
              (k in SetProps(p, fs) <==> Lookup(fs, k).value != JNull) &&
              (k in SetProps(p, fs) ==> SetProps(p, fs)[k] == Lookup(fs, k).value)
    ensures !HasKey(fs, k) ==>
              (k in SetProps(p, fs) <==> k in p) &&
              (k in p ==> SetProps(p, fs)[k] == p[k])
    decreases |fs|
  {
    if fs != [] {
      var init := fs[..|fs| - 1];
      SetPropsAt(p, init, k);
      assert forall i :: 0 <= i < |init| ==> init[i] == fs[i];
      if fs[|fs| - 1].0 != k {
        assert HasKey(fs, k) ==> HasKey(init, k);
      }
    }
  }

  lemma SetPropsIdempotent(p: Props, fs: Fields)
    ensures SetProps(SetProps(p, fs), fs) == SetProps(p, fs)
  {
    var once := SetProps(p, fs);
    var twice := SetProps(once, fs);
    forall k
      ensures (k in twice <==> k in once) && (k in once ==> twice[k] == once[k])
    {
      SetPropsAt(once, fs, k);
      SetPropsAt(p, fs, k);
    }
    assert twice.Keys == once.Keys;
  }

  lemma {:induction false} SetPropsConcat(p: Props, a: Fields, b: Fields)
    ensures SetProps(p, a + b) == SetProps(SetProps(p, a), b)
    decreases |b|
  {
    if b == [] {
      assert a + b == a;
    } else {
      assert (a + b)[..|a + b| - 1] == a + b[..|b| - 1];
      SetPropsConcat(p, a, b[..|b| - 1]);
    }
  }

  // ---------------------------------------------------------------------
  // insert_entities

  /** One `MERGE (n:<label> {id: $id}) SET n += {...}` statement. */
  datatype NodeUpsert = NodeUpsert(key: NodeKey, props: Fields)

  predicate AllKeysIdentifiers(fs: Fields) {
    forall i :: 0 <= i < |fs| ==> IsIdentifier(fs[i].0)
  }

  /** Two scalars of the same kind: both booleans, both integers or both strings. */
  predicate SameKind(a: Json, b: Json) {
    (a.JBool? && b.JBool?) || (a.JInt? && b.JInt?) || (a.JStr? && b.JStr?)
  }

  /** A value Neo4j stores as a property: a scalar, a null (which `SET +=`
      turns into a removal), or a list of scalars of one kind. */
  predicate Storable(v: Json) {
    match v
    case JObj(_) => false
    case JList(xs) => forall i :: 0 <= i < |xs| ==> SameKind(xs[i], xs[0])
    case _ => true
  }

  predicate AllValuesStorable(fs: Fields) {
    forall i :: 0 <= i < |fs| ==> Storable(fs[i].1)
  }

  const MinInt64: int := -0x8000_0000_0000_0000
  const MaxInt64: int := 0x7FFF_FFFF_FFFF_FFFF

  /** A value the driver can send as a parameter: every integer in it, at
      any depth, fits in a signed 64-bit word. */
  predicate Packable(v: Json) {
    match v
    case JInt(i) => MinInt64 <= i <= MaxInt64
    case JList(xs) => forall i :: 0 <= i < |xs| ==> Packable(xs[i])
    case JObj(fs) => forall i :: 0 <= i < |fs| ==> Packable(fs[i].1)
    case _ => true
  }

  predicate AllValuesPackable(fs: Fields) {
    forall i :: 0 <= i < |fs| ==> Packable(fs[i].1)
  }

  /** `tx.run(query, **props)` is declared `run(self, query, ...)`: a
      property named `self` or `query` binds that argument a second time. */
  predicate ClashesWithRun(fs: Fields) {
    HasKey(fs, "self") || HasKey(fs, "query")
  }

  /** The statement `insert_entities` runs for one entity: the label is the
      entity's `type`, the properties are every other field. Raises on a
      non-dict entity or a missing `type`; `tx.run` raises on a property
      named `self` or `query` (its own parameters) and the driver on an
      integer outside 64 bits; the server refuses a label or key that is not
      an identifier, a missing `$id`, a null id and a value it cannot store. */
  function PrepareEntity(ent: Json): (r: Result<NodeUpsert, Error>)
    ensures r.Ok? <==>
              ent.JObj? && HasKey(ent.fields, "type") && !ClashesWithRun(ent.fields)
              && AllValuesPackable(Without(ent.fields, "type"))
              && IsIdentifier(Str(Lookup(ent.fields, "type").value))
              && AllKeysIdentifiers(Without(ent.fields, "type"))
              && HasKey(ent.fields, "id") && Lookup(ent.fields, "id").value != JNull
              && AllValuesStorable(Without(ent.fields, "type"))
    ensures r.Ok? ==>
              r.value.key == NodeKey(Str(Lookup(ent.fields, "type").value), Lookup(ent.fields, "id").value)
              && Lookup(r.value.props, "id") == Some(r.value.key.id)
              && !HasKey(r.value.props, "type")
  {
    if !ent.JObj? then Err(TypeError("entity is not a dict"))
    else
      match Lookup(ent.fields, "type")
      case None => Err(KeyError("type"))
      case Some(t) =>
        var lbl := Str(t);
        var props := Without(ent.fields, "type");
        LookupWithout(ent.fields, "id", "type");
        WithoutRemoves(ent.fields, "type");
        if ClashesWithRun(ent.fields) then Err(TypeError("run() got multiple values for an argument"))
        else if !AllValuesPackable(props) then Err(OverflowError("int too large to pack"))
        else if !IsIdentifier(lbl) then Err(CypherSyntaxError(lbl))
        else if !AllKeysIdentifiers(props) then Err(CypherSyntaxError("property key"))
        else
          match Lookup(props, "id")
          case None => Err(ParameterMissing("id"))
          case Some(id) =>
            if id == JNull then Err(NullPropertyMerge("id"))
            else if !AllValuesStorable(props) then Err(CypherTypeError("property value"))
            else Ok(NodeUpsert(NodeKey(lbl, id), props))
  }
  /** An entity with an identifier label, identifier property keys, storable
      64-bit values, no `self` or `query` field and a non-null id becomes the
      statement that merges that node and sets every property but `type`. */
  lemma PrepareEntityOk(fs: Fields, ty: Json, id: Json)
    requires Lookup(fs, "type") == Some(ty) && IsIdentifier(Str(ty)) && !ClashesWithRun(fs)
    requires AllKeysIdentifiers(Without(fs, "type")) && AllValuesStorable(Without(fs, "type"))
    requires AllValuesPackable(Without(fs, "type"))
    requires Lookup(fs, "id") == Some(id) && id != JNull
    ensures PrepareEntity(JObj(fs)) == Ok(NodeUpsert(NodeKey(Str(ty), id), Without(fs, "type")))
  {
    LookupWithout(fs, "id", "type");
  }


  /** An entity that passes every other check but holds a value Neo4j
      cannot store is refused by the server's type check. */
  lemma PrepareEntityUnstorable(fs: Fields, ty: Json, id: Json)
    requires Lookup(fs, "type") == Some(ty) && IsIdentifier(Str(ty)) && !ClashesWithRun(fs)
    requires AllKeysIdentifiers(Without(fs, "type")) && AllValuesPackable(Without(fs, "type"))
    requires Lookup(fs, "id") == Some(id) && id != JNull
    requires !AllValuesStorable(Without(fs, "type"))
    ensures PrepareEntity(JObj(fs)) == Err(CypherTypeError("property value"))
  {
    LookupWithout(fs, "id", "type");
  }

  lemma {:induction false} WithoutRemoves(fs: Fields, k: string)
    ensures !HasKey(Without(fs, k), k)
    decreases |fs|
  {
    if fs != [] {
      WithoutRemoves(fs[1..], k);
    }
  }

  /** Prepares every entity; the first one that fails decides the error. */
  function PrepareEntities(ents: seq<Json>): (r: Result<seq<NodeUpsert>, Error>)
    ensures r.Ok? <==> forall i :: 0 <= i < |ents| ==> PrepareEntity(ents[i]).Ok?
    ensures r.Ok? ==> |r.value| == |ents| && forall i :: 0 <= i < |ents| ==> PrepareEntity(ents[i]) == Ok(r.value[i])
  {
    Traverse(ents, PrepareEntity)
  }

  function Base(nodes: map<NodeKey, Props>, k: NodeKey): Props {
    if k in nodes then nodes[k] else map[]
  }

  function Upsert(nodes: map<NodeKey, Props>, u: NodeUpsert): map<NodeKey, Props> {
    nodes[u.key := SetProps(Base(nodes, u.key), u.props)]
  }

  predicate Targets(us: seq<NodeUpsert>, k: NodeKey) {
    exists i :: 0 <= i < |us| && us[i].key == k
  }

  /** Runs the upserts in order. */
  function ApplyUpserts(nodes: map<NodeKey, Props>, us: seq<NodeUpsert>): (r: map<NodeKey, Props>)
    ensures forall k :: k in r <==> k in nodes || Targets(us, k)
    decreases |us|
  {
    if us == [] then nodes
    else
      var init := us[..|us| - 1];
      assert forall k :: Targets(us, k) <==> Targets(init, k) || us[|us| - 1].key == k by {
        forall k ensures Targets(us, k) <==> Targets(init, k) || us[|us| - 1].key == k {
          if Targets(us, k) && us[|us| - 1].key != k {
            var i :| 0 <= i < |us| && us[i].key == k;
            assert init[i].key == k;
          }
          if Targets(init, k) {
            var i :| 0 <= i < |init| && init[i].key == k;
            assert us[i].key == k;
          }
        }
      }
      Upsert(ApplyUpserts(nodes, init), us[|us| - 1])
  }

  /** All properties the upserts set on node `k`, in order. */
  function PropsFor(us: seq<NodeUpsert>, k: NodeKey): Fields
    decreases |us|
  {
    if us == [] then []
    else PropsFor(us[..|us| - 1], k) + (if us[|us| - 1].key == k then us[|us| - 1].props else [])
  }

  lemma {:induction false} PropsForUntargeted(us: seq<NodeUpsert>, k: NodeKey)
    requires !Targets(us, k)
    ensures PropsFor(us, k) == []
    decreases |us|
  {
    if us != [] {
      var init := us[..|us| - 1];
      forall i | 0 <= i < |init|
        ensures init[i].key != k
      {
        assert init[i] == us[i];
      }
      PropsForUntargeted(init, k);
      assert PropsFor(us, k) == PropsFor(init, k) + [];
    }
  }

  /** A node no upsert targets is left as it was. */
  lemma {:induction false} ApplyUpsertsUntargeted(nodes: map<NodeKey, Props>, us: seq<NodeUpsert>, k: NodeKey)
    requires !Targets(us, k)
    ensures Base(ApplyUpserts(nodes, us), k) == Base(nodes, k)
    decreases |us|
  {
    if us != [] {
      var init := us[..|us| - 1];
      forall i | 0 <= i < |init|
        ensures init[i].key != k
      {
        assert init[i] == us[i];
      }
      ApplyUpsertsUntargeted(nodes, init, k);
    }
  }

  /** A targeted node holds the properties of every upsert of it, applied in
      order to what was there before. */
  lemma {:induction false} ApplyUpsertsTargeted(nodes: map<NodeKey, Props>, us: seq<NodeUpsert>, k: NodeKey)
    requires Targets(us, k)
    ensures ApplyUpserts(nodes, us)[k] == SetProps(Base(nodes, k), PropsFor(us, k))
    decreases |us|
  {
    var init := us[..|us| - 1];
    var last := us[|us| - 1];
    var mid := ApplyUpserts(nodes, init);
    if last.key == k {
      assert PropsFor(us, k) == PropsFor(init, k) + last.props;
      if Targets(init, k) {
        ApplyUpsertsTargeted(nodes, init, k);
        assert Base(mid, k) == SetProps(Base(nodes, k), PropsFor(init, k));
        SetPropsConcat(Base(nodes, k), PropsFor(init, k), last.props);
      } else {
        ApplyUpsertsUntargeted(nodes, init, k);
        PropsForUntargeted(init, k);
        assert PropsFor(init, k) + last.props == last.props;
        assert Base(mid, k) == Base(nodes, k);
        assert ApplyUpserts(nodes, us) == Upsert(mid, last);
      }
    } else {
      assert Targets(init, k) by {
        var i :| 0 <= i < |us| && us[i].key == k;
        assert i < |init| && init[i].key == k;
      }
      ApplyUpsertsTargeted(nodes, init, k);
      assert PropsFor(us, k) == PropsFor(init, k) + [];
      assert PropsFor(init, k) + [] == PropsFor(init, k);
      var full := PropsFor(us, k);
      assert full == PropsFor(init, k);
      assert mid[k] == SetProps(Base(nodes, k), full);
      assert ApplyUpserts(nodes, us) == Upsert(mid, last);
      assert Upsert(mid, last)[k] == mid[k];
    }
  }

  /** `insert_entities`: merges one node per entity, keyed by (type, id). */
  function InsertEntities(s: Store, ents: seq<Json>): (r: Result<Store, Error>)
    ensures r.Ok? <==> forall i :: 0 <= i < |ents| ==> PrepareEntity(ents[i]).Ok?
    ensures r.Ok? ==> r.value.edges == s.edges
  {
    match PrepareEntities(ents)
    case Err(e) => Err(e)
    case Ok(us) => Ok(Store(ApplyUpserts(s.nodes, us), s.edges))
  }

  /** After the entity statements a node exists exactly when it existed
      before or some entity merged it. */
  lemma InsertEntitiesNodes(s: Store, ents: seq<Json>)
    requires InsertEntities(s, ents).Ok?
    ensures forall k :: k in InsertEntities(s, ents).value.nodes <==>
              k in s.nodes || exists i :: 0 <= i < |ents| && PrepareEntity(ents[i]).value.key == k
  {
    var us := PrepareEntities(ents).value;
    forall k ensures Targets(us, k) <==> exists i :: 0 <= i < |ents| && PrepareEntity(ents[i]).value.key == k {
      if Targets(us, k) {
        var i :| 0 <= i < |us| && us[i].key == k;
        assert PrepareEntity(ents[i]).value.key == k;
      }
    }
  }


  lemma ApplyUpsertsIdempotent(nodes: map<NodeKey, Props>, us: seq<NodeUpsert>)
    ensures ApplyUpserts(ApplyUpserts(nodes, us), us) == ApplyUpserts(nodes, us)
  {
    var once := ApplyUpserts(nodes, us);
    var twice := ApplyUpserts(once, us);
    forall k | k in once
      ensures twice[k] == once[k]
    {
      if Targets(us, k) {
        ApplyUpsertsTargeted(nodes, us, k);
        ApplyUpsertsTargeted(once, us, k);
        SetPropsIdempotent(Base(nodes, k), PropsFor(us, k));
      } else {
        ApplyUpsertsUntargeted(once, us, k);
      }
    }
    assert twice.Keys == once.Keys;
  }

  /** Upserting the same entities again changes nothing: no node is added and
      every property already has the value being written. */
  lemma InsertEntitiesIdempotent(s: Store, ents: seq<Json>)
    requires InsertEntities(s, ents).Ok?
    ensures InsertEntities(InsertEntities(s, ents).value, ents) == InsertEntities(s, ents)
  {
    ApplyUpsertsIdempotent(s.nodes, PrepareEntities(ents).value);
  }

  // ---------------------------------------------------------------------
  // insert_relationships

  /** The `(type, text)` pair `ent_dict` keeps for an id. */
  datatype EntInfo = EntInfo(etype: Json, text: Json)

  /** One item of `{e['id']: (e['type'], e['text']) for e in entities}`:
      raises on a non-dict entity, a missing field, or an unhashable id. */
  function DictEntry(e: Json): Result<(Json, EntInfo), Error>
  {
    if !e.JObj? then Err(TypeError("entity is not a dict"))
    else
      match Lookup(e.fields, "id")
      case None => Err(KeyError("id"))
      case Some(id) =>
        match Lookup(e.fields, "type")
        case None => Err(KeyError("type"))
        case Some(t) =>
          match Lookup(e.fields, "text")
          case None => Err(KeyError("text"))
          case Some(x) =>
            if !Hashable(id) then Err(TypeError("unhashable id"))
            else Ok((id, EntInfo(t, x)))
  }

  /** An entity enters `ent_dict` exactly when it is a dict with a hashable
      `id`, a `type` and a `text`; its entry maps the id to the type and text. */
  lemma DictEntryOk(e: Json)
    ensures DictEntry(e).Ok? <==>
              e.JObj? && HasKey(e.fields, "id") && HasKey(e.fields, "type") && HasKey(e.fields, "text")
              && Hashable(Lookup(e.fields, "id").value)
    ensures DictEntry(e).Ok? ==>
              DictEntry(e).value == (Lookup(e.fields, "id").value,
                                     EntInfo(Lookup(e.fields, "type").value, Lookup(e.fields, "text").value))
  {
  }

  /** A dict built from key/value pairs in order: a later pair overwrites an
      earlier one with the same key. */
  function MapOf<K, V>(ps: seq<(K, V)>): (m: map<K, V>)
    ensures forall i :: 0 <= i < |ps| ==> ps[i].0 in m
    ensures forall i :: 0 <= i < |ps| && (forall j :: i < j < |ps| ==> ps[j].0 != ps[i].0) ==> m[ps[i].0] == ps[i].1
    decreases |ps|
  {
    if ps == [] then map[]
    else
      var init := ps[..|ps| - 1];
      assert forall i :: 0 <= i < |init| ==> init[i] == ps[i];
      var m := MapOf(init);
      m[ps[|ps| - 1].0 := ps[|ps| - 1].1]
  }
  /** Every entry of the dictionary comes from a pair. */
  lemma {:induction false} MapOfFrom<K, V>(ps: seq<(K, V)>, k: K)
    requires k in MapOf(ps)
    ensures exists i :: 0 <= i < |ps| && ps[i] == (k, MapOf(ps)[k])
    decreases |ps|
  {
    var init := ps[..|ps| - 1];
    if ps[|ps| - 1].0 != k {
      MapOfFrom(init, k);
      var i :| 0 <= i < |init| && init[i] == (k, MapOf(init)[k]);
      assert ps[i] == init[i];
    }
  }


  /** No entity after the `i`th has the same id. */
  predicate LastWithId(ents: seq<Json>, i: nat)
    requires i < |ents| && forall j :: 0 <= j < |ents| ==> DictEntry(ents[j]).Ok?
  {
    forall j :: i < j < |ents| ==> DictEntry(ents[j]).value.0 != DictEntry(ents[i]).value.0
  }

  /** `ent_dict`: one entry per entity id, holding the last entity with that id. */
  function BuildEntDict(ents: seq<Json>): (r: Result<map<Json, EntInfo>, Error>)
    ensures r.Ok? <==> forall i :: 0 <= i < |ents| ==> DictEntry(ents[i]).Ok?
    ensures r.Ok? ==> forall i :: 0 <= i < |ents| ==> DictEntry(ents[i]).value.0 in r.value
    ensures r.Ok? ==> forall i :: 0 <= i < |ents| && LastWithId(ents, i) ==>
              r.value[DictEntry(ents[i]).value.0] == DictEntry(ents[i]).value.1
  {
    match Traverse(ents, DictEntry)
    case Err(e) => Err(e)
    case Ok(ps) =>
      EntDictOfPairs(ents, ps);
      Ok(MapOf(ps))
  }

  /** The map of the checked entries holds every id, bound to the entry of
      the last entity with that id. */
  lemma EntDictOfPairs(ents: seq<Json>, ps: seq<(Json, EntInfo)>)
    requires Traverse(ents, DictEntry) == Ok(ps)
    ensures forall i :: 0 <= i < |ents| ==> DictEntry(ents[i]).value.0 in MapOf(ps)
    ensures forall i :: 0 <= i < |ents| && LastWithId(ents, i) ==>
              MapOf(ps)[DictEntry(ents[i]).value.0] == DictEntry(ents[i]).value.1
  {
    forall i | 0 <= i < |ents|
      ensures DictEntry(ents[i]).value.0 in MapOf(ps)
    {
      assert DictEntry(ents[i]) == Ok(ps[i]);
    }
    forall i | 0 <= i < |ents| && LastWithId(ents, i)
      ensures MapOf(ps)[DictEntry(ents[i]).value.0] == DictEntry(ents[i]).value.1
    {
      EntDictLast(ents, ps, i);
    }
  }

  /** The entry of the last entity with an id is the one the map keeps. */
  lemma EntDictLast(ents: seq<Json>, ps: seq<(Json, EntInfo)>, i: nat)
    requires Traverse(ents, DictEntry) == Ok(ps) && i < |ents| && LastWithId(ents, i)
    ensures DictEntry(ents[i]).value.0 in MapOf(ps)
    ensures MapOf(ps)[DictEntry(ents[i]).value.0] == DictEntry(ents[i]).value.1
  {
    assert DictEntry(ents[i]) == Ok(ps[i]);
    forall j | i < j < |ps|
      ensures ps[j].0 != ps[i].0
    {
      assert DictEntry(ents[j]) == Ok(ps[j]);
    }
  }

  /** Every entry of `ent_dict` comes from an entity with that id. */
  lemma BuildEntDictFrom(ents: seq<Json>, id: Json)
    requires BuildEntDict(ents).Ok? && id in BuildEntDict(ents).value
    ensures exists i :: 0 <= i < |ents| && DictEntry(ents[i]).value == (id, BuildEntDict(ents).value[id])
  {
    var ps := Traverse(ents, DictEntry).value;
    assert forall i :: 0 <= i < |ents| ==> DictEntry(ents[i]).value == ps[i];
    MapOfFrom(ps, id);
  }


  /** One `MATCH (a), (b) MERGE (a)-[r:TYPE]->(b)` statement and the evidence it carries. */
  datatype EdgeOp = EdgeOp(key: EdgeKey, evidence: Option<string>)

  /** `ent_dict[id]`: raises on an id that is unhashable or not an entity id. */
  function LookupEntity(d: map<Json, EntInfo>, id: Json): (r: Result<EntInfo, Error>)
    ensures r.Ok? <==> Hashable(id) && id in d
    ensures r.Ok? ==> r.value == d[id]
  {
    if !Hashable(id) then Err(TypeError("unhashable id"))
    else if id in d then Ok(d[id])
    else Err(KeyError(Str(id)))
  }

  /** Everything `insert_relationships` needs of one relationship: a dict
      with `head`, `tail` and a string `type`, both endpoints entity ids whose
      labels are identifiers, an upper-cased type that is an identifier, and
      evidence (`""` when absent) that is a string or null. */
  predicate RelationshipAccepted(d: map<Json, EntInfo>, rel: Json) {
    && rel.JObj? && HasKey(rel.fields, "head") && HasKey(rel.fields, "tail") && HasKey(rel.fields, "type")
    && Lookup(rel.fields, "type").value.JStr?
    && Hashable(Get(rel.fields, "head")) && Get(rel.fields, "head") in d
    && Hashable(Get(rel.fields, "tail")) && Get(rel.fields, "tail") in d
    && IsIdentifier(Str(d[Get(rel.fields, "head")].etype)) && IsIdentifier(Str(d[Get(rel.fields, "tail")].etype))
    && IsIdentifier(Upper(Lookup(rel.fields, "type").value.s))
    && (GetOr(rel.fields, "evidence", JStr("")).JStr? || GetOr(rel.fields, "evidence", JStr("")).JNull?)
  }

  /** The statement `insert_relationships` runs for one relationship. The end
      nodes are matched under the labels `ent_dict` gives their ids, and the
      relationship type is upper-cased. Raises on a missing `head`, `tail` or
      `type`, a non-string type, and a head or tail that is not an entity id. */
  function PrepareRelationship(d: map<Json, EntInfo>, rel: Json): (r: Result<EdgeOp, Error>)
    ensures r.Ok? ==>
              rel.JObj? && HasKey(rel.fields, "type") && Lookup(rel.fields, "type").value.JStr?
              && Get(rel.fields, "head") in d && Get(rel.fields, "tail") in d
              && r.value.key == EdgeKey(
                   NodeKey(Str(d[Get(rel.fields, "head")].etype), Get(rel.fields, "head")),
                   Upper(Lookup(rel.fields, "type").value.s),
                   NodeKey(Str(d[Get(rel.fields, "tail")].etype), Get(rel.fields, "tail")))
    ensures r.Ok? ==> IsIdentifier(r.value.key.relType) && HasNoLower(r.value.key.relType)
    ensures rel.JObj? && (!HasKey(rel.fields, "head") || !HasKey(rel.fields, "tail")) ==> r.Err?
    ensures r.Ok? <==> RelationshipAccepted(d, rel)
    ensures r.Ok? ==>
              r.value.evidence ==
              (if GetOr(rel.fields, "evidence", JStr("")).JStr? then Some(GetOr(rel.fields, "evidence", JStr("")).s) else None)
  {
    if !rel.JObj? then Err(TypeError("relationship is not a dict"))
    else
      var fs := rel.fields;
      match Lookup(fs, "head")
      case None => Err(KeyError("head"))
      case Some(h) =>
        match Lookup(fs, "tail")
        case None => Err(KeyError("tail"))
        case Some(t) =>
          match Lookup(fs, "type")
          case None => Err(KeyError("type"))
          case Some(ty) =>
            if !ty.JStr? then Err(AttributeError("upper"))
            else
              var relType := Upper(ty.s);
              assert HasNoLower(relType) by {
                forall i | 0 <= i < |relType| ensures !IsLower(relType[i]) {
                  LowerUpperChar(ty.s[i]);
                }
              }
              match LookupEntity(d, h)
              case Err(e) => Err(e)
              case Ok(hi) =>
                match LookupEntity(d, t)
                case Err(e) => Err(e)
                case Ok(ti) =>
                  var hl := Str(hi.etype);
                  var tl := Str(ti.etype);
                  if !IsIdentifier(hl) then Err(CypherSyntaxError(hl))
                  else if !IsIdentifier(tl) then Err(CypherSyntaxError(tl))
                  else if !IsIdentifier(relType) then Err(CypherSyntaxError(relType))
                  else
                    match GetOr(fs, "evidence", JStr(""))
                    case JStr(e) => Ok(EdgeOp(EdgeKey(NodeKey(hl, h), relType, NodeKey(tl, t)), Some(e)))
                    case JNull => Ok(EdgeOp(EdgeKey(NodeKey(hl, h), relType, NodeKey(tl, t)), None))
                    case _ => Err(Unsupported("evidence that is neither a string nor null"))
  }
  /** A relationship whose endpoints are known entities with identifier
      labels, whose type upper-cases to an identifier and whose evidence is a
      string becomes the statement for exactly that edge and evidence. */
  lemma PrepareRelationshipOk(d: map<Json, EntInfo>, fs: Fields, h: Json, t: Json, ty: string, ev: string)
    requires Lookup(fs, "head") == Some(h) && Lookup(fs, "tail") == Some(t)
    requires Lookup(fs, "type") == Some(JStr(ty)) && Lookup(fs, "evidence") == Some(JStr(ev))
    requires Hashable(h) && h in d && Hashable(t) && t in d
    requires IsIdentifier(Str(d[h].etype)) && IsIdentifier(Str(d[t].etype)) && IsIdentifier(Upper(ty))
    ensures PrepareRelationship(d, JObj(fs)) ==
              Ok(EdgeOp(EdgeKey(NodeKey(Str(d[h].etype), h), Upper(ty), NodeKey(Str(d[t].etype), t)), Some(ev)))
  {
  }


  /** Both end nodes exist, so the `MATCH` finds a row and the `MERGE` runs. */
  predicate Matches(s: Store, op: EdgeOp) {
    op.key.head in s.nodes && op.key.tail in s.nodes
  }

  /** `MERGE (a)-[r:TYPE]->(b)` with its `ON CREATE` and `ON MATCH` settings. */
  function ApplyEdge(s: Store, op: EdgeOp): Store {
    if !Matches(s, op) then s
    else if op.key in s.edges then s.(edges := s.edges[op.key := Evidence.Merge(s.edges[op.key], op.evidence)])
    else s.(edges := s.edges[op.key := op.evidence])
  }

  /** `ApplyEdge` with the `CASE` exactly as the script writes it
      (`Evidence.MergeAsWritten`). The rest of this model uses `ApplyEdge`,
      which treats a null incoming evidence like "". */
  function ApplyEdgeAsWritten(s: Store, op: EdgeOp): Store {
    if !Matches(s, op) then s
    else if op.key in s.edges then s.(edges := s.edges[op.key := Evidence.MergeAsWritten(s.edges[op.key], op.evidence)])
    else s.(edges := s.edges[op.key := op.evidence])
  }

  /** The statement as written and the corrected one agree whenever the
      relationship's evidence is a string (present, or defaulted to ""). */
  lemma ApplyEdgeAgreesOnStrings(s: Store, op: EdgeOp)
    requires op.evidence.Some?
    ensures ApplyEdgeAsWritten(s, op) == ApplyEdge(s, op)
  {
    if Matches(s, op) && op.key in s.edges {
      Evidence.MergeAgreesOnStrings(s.edges[op.key], op.evidence.value);
    }
  }

  /** As written, a relationship whose `evidence` is JSON null erases the log
      of the edge it matches, so evidence recorded earlier is no longer
      recorded; `ApplyEdgeKeepsRecorded` is the corrected promise. */
  lemma ApplyEdgeAsWrittenErasesLog(s: Store, op: EdgeOp)
    requires Matches(s, op) && op.key in s.edges && op.evidence == None
    ensures ApplyEdgeAsWritten(s, op).edges[op.key] == None
    ensures s.edges[op.key] == Some("X") ==>
              Recorded(s, EdgeOp(op.key, Some("X"))) && !Recorded(ApplyEdgeAsWritten(s, op), EdgeOp(op.key, Some("X")))
  {
    assert Contains("X", "X") by { assert "X" <= "X"; }
  }

  /** A new edge gets the incoming evidence verbatim, even when it is empty or
      null; an existing edge gets the merged log; no other edge changes, and
      nothing happens when an end node is missing. */
  lemma ApplyEdgeEffect(s: Store, op: EdgeOp)
    ensures !Matches(s, op) ==> ApplyEdge(s, op) == s
    ensures Matches(s, op) && op.key !in s.edges ==> ApplyEdge(s, op).edges[op.key] == op.evidence
    ensures Matches(s, op) && op.key in s.edges ==>
              var r := ApplyEdge(s, op).edges[op.key];
              Evidence.Log(s.edges[op.key]) <= Evidence.Log(r)
              && (op.evidence.Some? ==> Contains(Evidence.Log(r), op.evidence.value))
    ensures ApplyEdge(s, op).nodes == s.nodes
    ensures forall k :: k != op.key ==> (k in ApplyEdge(s, op).edges <==> k in s.edges)
    ensures forall k :: k != op.key && k in s.edges ==> ApplyEdge(s, op).edges[k] == s.edges[k]
  {
  }

  /** Runs the edge statements in order. Nodes never change; an edge exists
      afterwards exactly when it existed before or some statement matched it. */
  function ApplyEdges(s: Store, ops: seq<EdgeOp>): (r: Store)
    ensures r.nodes == s.nodes
    ensures forall k :: k in r.edges <==>
              k in s.edges || exists i :: 0 <= i < |ops| && ops[i].key == k && Matches(s, ops[i])
    decreases |ops|
  {
    if ops == [] then s
    else
      var init := ops[..|ops| - 1];
      assert forall i :: 0 <= i < |init| ==> init[i] == ops[i];
      ApplyEdge(ApplyEdges(s, init), ops[|ops| - 1])
  }

  /** The edge of `op` exists and its log already holds op's evidence. */
  predicate Recorded(s: Store, op: EdgeOp) {
    op.key in s.edges && Evidence.Covers(s.edges[op.key], op.evidence)
  }

  lemma ApplyEdgeKeepsRecorded(s: Store, op: EdgeOp, other: EdgeOp)
    requires Recorded(s, other)
    ensures Recorded(ApplyEdge(s, op), other)
  {
    if Matches(s, op) && op.key in s.edges && op.key == other.key {
      Evidence.MergeKeepsCovering(s.edges[op.key], op.evidence, other.evidence);
    }
  }

  /** After the statements run, every matched statement's evidence is in its edge's log. */
  lemma {:induction false} ApplyEdgesRecords(s: Store, ops: seq<EdgeOp>, i: nat)
    requires i < |ops| && Matches(s, ops[i])
    ensures Recorded(ApplyEdges(s, ops), ops[i])
    decreases |ops|
  {
    var init := ops[..|ops| - 1];
    var last := ops[|ops| - 1];
    var mid := ApplyEdges(s, init);
    if i < |init| {
      assert init[i] == ops[i];
      ApplyEdgesRecords(s, init, i);
      ApplyEdgeKeepsRecorded(mid, last, ops[i]);
    } else if last.key in mid.edges {
      Evidence.MergeKeepsCovering(mid.edges[last.key], last.evidence, last.evidence);
    } else {
      assert Evidence.Covers(last.evidence, last.evidence) by {
        if last.evidence.Some? && last.evidence.value != [] {
          ContainsSuffix([], last.evidence.value);
          assert [] + last.evidence.value == last.evidence.value;
        }
      }
    }
  }

  /** Statements whose evidence is already recorded change nothing. */
  lemma {:induction false} ApplyEdgesRecorded(s: Store, ops: seq<EdgeOp>)
    requires forall i :: 0 <= i < |ops| && Matches(s, ops[i]) ==> Recorded(s, ops[i])
    ensures ApplyEdges(s, ops) == s
    decreases |ops|
  {
    if ops != [] {
      var init := ops[..|ops| - 1];
      var last := ops[|ops| - 1];
      assert forall i :: 0 <= i < |init| ==> init[i] == ops[i];
      ApplyEdgesRecorded(s, init);
      if Matches(s, last) {
        Evidence.MergeCovered(s.edges[last.key], last.evidence);
        assert s.edges[last.key := s.edges[last.key]] == s.edges;
      }
    }
  }

  lemma ApplyEdgesIdempotent(s: Store, ops: seq<EdgeOp>)
    ensures ApplyEdges(ApplyEdges(s, ops), ops) == ApplyEdges(s, ops)
  {
    var once := ApplyEdges(s, ops);
    forall i | 0 <= i < |ops| && Matches(once, ops[i])
      ensures Recorded(once, ops[i])
    {
      ApplyEdgesRecords(s, ops, i);
    }
    ApplyEdgesRecorded(once, ops);
  }

  /** Within one run, relationships with the same head id, the same type up to
      letter case and the same tail id address the same edge, so they can only
      add to its evidence log. */
  lemma SameTripleSameEdge(d: map<Json, EntInfo>, r1: Json, r2: Json)
    requires PrepareRelationship(d, r1).Ok? && PrepareRelationship(d, r2).Ok?
    requires Get(r1.fields, "head") == Get(r2.fields, "head") && Get(r1.fields, "tail") == Get(r2.fields, "tail")
    requires Upper(Lookup(r1.fields, "type").value.s) == Upper(Lookup(r2.fields, "type").value.s)
    ensures PrepareRelationship(d, r1).value.key == PrepareRelationship(d, r2).value.key
  {
  }

  /** The statement for `rel` merges edge `k` into store `s`. */
  predicate Creates(s: Store, d: map<Json, EntInfo>, rel: Json, k: EdgeKey) {
    var op := PrepareRelationship(d, rel);
    op.Ok? && op.value.key == k && Matches(s, op.value)
  }

  /** `insert_relationships`: builds `ent_dict`, then merges one edge per
      relationship; a relationship whose head or tail is not an entity id
      raises, it is not skipped. */
  function InsertRelationships(s: Store, rels: seq<Json>, ents: seq<Json>): (r: Result<Store, Error>)
    ensures r.Ok? ==> BuildEntDict(ents).Ok?
    ensures r.Ok? ==> forall i :: 0 <= i < |rels| ==> PrepareRelationship(BuildEntDict(ents).value, rels[i]).Ok?
    ensures r.Ok? <==>
              (BuildEntDict(ents).Ok? &&
               forall i :: 0 <= i < |rels| ==> PrepareRelationship(BuildEntDict(ents).value, rels[i]).Ok?)
    ensures r.Ok? ==> r.value.nodes == s.nodes
  {
    match BuildEntDict(ents)
    case Err(e) => Err(e)
    case Ok(d) =>
      match Traverse(rels, rel => PrepareRelationship(d, rel))
      case Err(e) => Err(e)
      case Ok(ops) => Ok(ApplyEdges(s, ops))
  }

  /** After the relationship statements an edge exists exactly when it
      existed before or some relationship whose endpoints exist created it. */
  lemma InsertRelationshipsEdges(s: Store, rels: seq<Json>, ents: seq<Json>)
    requires InsertRelationships(s, rels, ents).Ok?
    ensures forall k :: k in InsertRelationships(s, rels, ents).value.edges <==>
              k in s.edges || exists i :: 0 <= i < |rels| && Creates(s, BuildEntDict(ents).value, rels[i], k)
  {
    var d := BuildEntDict(ents).value;
    var ops := Traverse(rels, rel => PrepareRelationship(d, rel)).value;
    assert forall i :: 0 <= i < |rels| ==> PrepareRelationship(d, rels[i]) == Ok(ops[i]);
    assert InsertRelationships(s, rels, ents).value == ApplyEdges(s, ops);
  }

  /** Re-running `insert_relationships` with the same input adds no edge and
      leaves every evidence log as it is. */
  lemma InsertRelationshipsIdempotent(s: Store, rels: seq<Json>, ents: seq<Json>)
    requires InsertRelationships(s, rels, ents).Ok?
    ensures InsertRelationships(InsertRelationships(s, rels, ents).value, rels, ents) ==
            InsertRelationships(s, rels, ents)
  {
    var d := BuildEntDict(ents).value;
    var ops := Traverse(rels, rel => PrepareRelationship(d, rel)).value;
    ApplyEdgesIdempotent(s, ops);
  }

  /** The node property maps keep their key's id as their `id` property. */
  ghost predicate NodesCarryIds(nodes: map<NodeKey, Props>) {
    forall k :: k in nodes ==> k.id != JNull && "id" in nodes[k] && nodes[k]["id"] == k.id
  }

  /** The upsert writes its key's non-null id as the `id` property. */
  predicate WritesId(u: NodeUpsert) {
    u.key.id != JNull && Lookup(u.props, "id") == Some(u.key.id)
  }

  /** Every upsert of node `k` writes `id: k.id`, so their union does too. */
  lemma {:induction false} PropsForId(us: seq<NodeUpsert>, k: NodeKey)
    requires forall i :: 0 <= i < |us| ==> WritesId(us[i])
    requires Targets(us, k)
    ensures k.id != JNull && Lookup(PropsFor(us, k), "id") == Some(k.id)
    decreases |us|
  {
    var init := us[..|us| - 1];
    var last := us[|us| - 1];
    assert forall i :: 0 <= i < |init| ==> init[i] == us[i];
    if last.key == k {
      LookupConcat(PropsFor(init, k), last.props, "id");
    } else {
      var i :| 0 <= i < |us| && us[i].key == k;
      assert init[i].key == k;
      PropsForId(init, k);
      assert PropsFor(us, k) == PropsFor(init, k) + [];
      assert PropsFor(init, k) + [] == PropsFor(init, k);
    }
  }

  lemma ApplyUpsertsCarryIds(nodes: map<NodeKey, Props>, us: seq<NodeUpsert>)
    requires NodesCarryIds(nodes)
    requires forall i :: 0 <= i < |us| ==> WritesId(us[i])
    ensures NodesCarryIds(ApplyUpserts(nodes, us))
  {
    var r := ApplyUpserts(nodes, us);
    forall k | k in r
      ensures k.id != JNull && "id" in r[k] && r[k]["id"] == k.id
    {
      if Targets(us, k) {
        ApplyUpsertsTargeted(nodes, us, k);
        PropsForId(us, k);
        SetPropsAt(Base(nodes, k), PropsFor(us, k), "id");
      } else {
        ApplyUpsertsUntargeted(nodes, us, k);
      }
    }
  }

  /** `insert_entities` keeps the store well formed. */
  lemma InsertEntitiesWellFormed(s: Store, ents: seq<Json>)
    requires WellFormed(s) && InsertEntities(s, ents).Ok?
    ensures WellFormed(InsertEntities(s, ents).value)
  {
    var us := PrepareEntities(ents).value;
    forall i | 0 <= i < |us|
      ensures WritesId(us[i])
    {
      assert PrepareEntity(ents[i]) == Ok(us[i]);
    }
    ApplyUpsertsCarryIds(s.nodes, us);
  }

  lemma InsertRelationshipsWellFormed(s: Store, rels: seq<Json>, ents: seq<Json>)
    requires WellFormed(s) && InsertRelationships(s, rels, ents).Ok?
    ensures WellFormed(InsertRelationships(s, rels, ents).value)
  {
  }

  // ---------------------------------------------------------------------
  // The script: load the file, then three write transactions

  /** Where the script stopped: the store as committed, and the exception
      that ended it, if any. */
  datatype Outcome = Outcome(store: Store, error: Option<Error>)

  /** `data[k]`: the module-level subscripts, evaluated before any
      transaction. */
  function Subscript(data: Json, k: string): (r: Result<Json, Error>)
    ensures r.Ok? <==> data.JObj? && HasKey(data.fields, k)
    ensures r.Ok? ==> r == Ok(Lookup(data.fields, k).value)
    ensures !data.JObj? ==> r.Err? && r.error.TypeError?
    ensures data.JObj? && !HasKey(data.fields, k) ==> r == Err(KeyError(k))
  {
    if !data.JObj? then Err(TypeError("data is not a dict"))
    else
      match Lookup(data.fields, k)
      case None => Err(KeyError(k))
      case Some(v) => Ok(v)
  }

  /** `data[k]`, iterated: the rows a transaction function loops over. */
  function Rows(data: Json, k: string): (r: Result<seq<Json>, Error>)
    ensures r.Ok? <==> Subscript(data, k).Ok? && Iterate(Subscript(data, k).value).Ok?
    ensures r.Ok? ==> data.JObj? && HasKey(data.fields, k)
  {
    match Subscript(data, k)
    case Err(e) => Err(e)
    case Ok(v) => Iterate(v)
  }

  /** The module-level script: subscript `entities` and `relationships`, then
      `reset_graph`, `insert_entities` and `insert_relationships`, each in its
      own transaction. The rows are only iterated inside the transactions, so
      a value that is not iterable fails after the reset has committed. A
      failing transaction is rolled back and ends the script; the ones before
      it stay committed. */
  function ImportGraph(s: Store, data: Json): (r: Outcome)
    ensures r.error == None <==>
              Rows(data, "entities").Ok? && Rows(data, "relationships").Ok?
              && InsertEntities(ResetGraph(s), Rows(data, "entities").value).Ok?
              && InsertRelationships(InsertEntities(ResetGraph(s), Rows(data, "entities").value).value,
                                     Rows(data, "relationships").value, Rows(data, "entities").value).Ok?
    ensures Subscript(data, "entities").Err? || Subscript(data, "relationships").Err? ==> r.store == s
    ensures Subscript(data, "entities").Ok? && Subscript(data, "relationships").Ok? && Rows(data, "entities").Err? ==>
              r == Outcome(ResetGraph(s), Some(Rows(data, "entities").error))
    ensures (Rows(data, "entities").Ok? && InsertEntities(ResetGraph(s), Rows(data, "entities").value).Ok?
             && Subscript(data, "relationships").Ok? && Rows(data, "relationships").Err?) ==>
              r.store == InsertEntities(ResetGraph(s), Rows(data, "entities").value).value
  {
    match Subscript(data, "entities")
    case Err(e) => Outcome(s, Some(e))
    case Ok(entsJ) =>
      match Subscript(data, "relationships")
      case Err(e) => Outcome(s, Some(e))
      case Ok(relsJ) =>
        var s0 := ResetGraph(s);
        match Iterate(entsJ)
        case Err(e) => Outcome(s0, Some(e))
        case Ok(ents) =>
          match InsertEntities(s0, ents)
          case Err(e) => Outcome(s0, Some(e))
          case Ok(s1) =>
            match BuildEntDict(ents)
            case Err(e) => Outcome(s1, Some(e))
            case Ok(_) =>
              match Iterate(relsJ)
              case Err(e) => Outcome(s1, Some(e))
              case Ok(rels) =>
                match InsertRelationships(s1, rels, ents)
                case Err(e) => Outcome(s1, Some(e))
                case Ok(s2) => Outcome(s2, None)
  }

  /** Once both keys have been read, the result does not depend on what the
      database held before: `reset_graph` clears it. */
  lemma ImportForgetsOldGraph(s1: Store, s2: Store, data: Json)
    requires Subscript(data, "entities").Ok? && Subscript(data, "relationships").Ok?
    ensures ImportGraph(s1, data) == ImportGraph(s2, data)
  {
  }

  /** Whatever step fails, the store the script leaves behind is well formed. */
  lemma ImportWellFormed(s: Store, data: Json)
    requires WellFormed(s)
    ensures WellFormed(ImportGraph(s, data).store)
  {
    if Rows(data, "entities").Ok? {
      var ents := Rows(data, "entities").value;
      var s0 := ResetGraph(s);
      if InsertEntities(s0, ents).Ok? {
        InsertEntitiesWellFormed(s0, ents);
        var s1 := InsertEntities(s0, ents).value;
        if Rows(data, "relationships").Ok? && InsertRelationships(s1, Rows(data, "relationships").value, ents).Ok? {
          InsertRelationshipsWellFormed(s1, Rows(data, "relationships").value, ents);
        }
      }
    }
  }

  /** Every entity id names a node: the last entity with a given id wrote the
      node `ent_dict` points at. */
  lemma EntDictNodesExist(s: Store, ents: seq<Json>, id: Json)
    requires InsertEntities(s, ents).Ok? && BuildEntDict(ents).Ok?
    requires id in BuildEntDict(ents).value
    ensures NodeKey(Str(BuildEntDict(ents).value[id].etype), id) in InsertEntities(s, ents).value.nodes
  {
    var d := BuildEntDict(ents).value;
    BuildEntDictFrom(ents, id);
    var i :| 0 <= i < |ents| && DictEntry(ents[i]).value == (id, d[id]);
    DictEntryOk(ents[i]);
    assert PrepareEntity(ents[i]).value.key == NodeKey(Str(d[id].etype), id);
  }

  /** The statements a run without exception executed: every step returned
      `Ok`, and the final store is the edge statements applied to the store
      the entity statements left. */
  lemma ImportSteps(s: Store, data: Json)
    requires ImportGraph(s, data).error == None
    ensures Rows(data, "entities").Ok? && Rows(data, "relationships").Ok?
    ensures InsertEntities(ResetGraph(s), Rows(data, "entities").value).Ok?
    ensures BuildEntDict(Rows(data, "entities").value).Ok?
    ensures Traverse(Rows(data, "relationships").value,
                     rel => PrepareRelationship(BuildEntDict(Rows(data, "entities").value).value, rel)).Ok?
    ensures ImportGraph(s, data).store ==
              ApplyEdges(InsertEntities(ResetGraph(s), Rows(data, "entities").value).value,
                         Traverse(Rows(data, "relationships").value,
                                  rel => PrepareRelationship(BuildEntDict(Rows(data, "entities").value).value, rel)).value)
  {
  }

  /** A run that finishes without an exception leaves exactly one node per
      entity key: the old graph is gone. */
  lemma ImportNodes(s: Store, data: Json)
    requires ImportGraph(s, data).error == None
    ensures var ents := Rows(data, "entities").value;
            forall k :: k in ImportGraph(s, data).store.nodes <==>
              exists i :: 0 <= i < |ents| && PrepareEntity(ents[i]).value.key == k
  {
    ImportSteps(s, data);
    InsertEntitiesNodes(ResetGraph(s), Rows(data, "entities").value);
  }

  /** A run that finishes without an exception leaves an edge for every
      relationship, whose log holds that relationship's evidence. */
  lemma ImportRecordsEveryRelationship(s: Store, data: Json)
    requires ImportGraph(s, data).error == None
    ensures var ents := Rows(data, "entities").value;
            var rels := Rows(data, "relationships").value;
            forall i :: 0 <= i < |rels| ==>
              Recorded(ImportGraph(s, data).store, PrepareRelationship(BuildEntDict(ents).value, rels[i]).value)
  {
    ImportSteps(s, data);
    var ents := Rows(data, "entities").value;
    var rels := Rows(data, "relationships").value;
    var d := BuildEntDict(ents).value;
    var s1 := InsertEntities(ResetGraph(s), ents).value;
    var ops := Traverse(rels, rel => PrepareRelationship(d, rel)).value;
    EdgeOpsMatch(ResetGraph(s), ents, rels, ops);
    forall i | 0 <= i < |rels|
      ensures Recorded(ApplyEdges(s1, ops), PrepareRelationship(d, rels[i]).value)
    {
      ApplyEdgesRecords(s1, ops, i);
    }
  }

  /** A run that finishes without an exception leaves exactly the edges of
      its relationships. */
  lemma ImportEdges(s: Store, data: Json)
    requires ImportGraph(s, data).error == None
    ensures var ents := Rows(data, "entities").value;
            var rels := Rows(data, "relationships").value;
            forall k :: k in ImportGraph(s, data).store.edges <==>
              exists i :: 0 <= i < |rels| && PrepareRelationship(BuildEntDict(ents).value, rels[i]).value.key == k
  {
    ImportSteps(s, data);
    var ents := Rows(data, "entities").value;
    var rels := Rows(data, "relationships").value;
    var d := BuildEntDict(ents).value;
    var ops := Traverse(rels, rel => PrepareRelationship(d, rel)).value;
    var s1 := InsertEntities(ResetGraph(s), ents).value;
    EdgeOpsMatch(ResetGraph(s), ents, rels, ops);
    EdgesOfMatchedOps(s1, ops);
    forall k | k in ImportGraph(s, data).store.edges
      ensures exists i :: 0 <= i < |rels| && PrepareRelationship(d, rels[i]).value.key == k
    {
      var i :| 0 <= i < |ops| && ops[i].key == k;
      assert PrepareRelationship(d, rels[i]).value.key == k;
    }
  }

  /** Statements that all match, run on a store without edges, leave exactly
      their own edges. */
  lemma EdgesOfMatchedOps(s: Store, ops: seq<EdgeOp>)
    requires s.edges == map[] && forall i :: 0 <= i < |ops| ==> Matches(s, ops[i])
    ensures forall k :: k in ApplyEdges(s, ops).edges <==> exists i :: 0 <= i < |ops| && ops[i].key == k
  {
  }

  /** Once the entities are in, every prepared relationship finds both its
      endpoint nodes. */
  lemma EdgeOpsMatch(s0: Store, ents: seq<Json>, rels: seq<Json>, ops: seq<EdgeOp>)
    requires InsertEntities(s0, ents).Ok? && BuildEntDict(ents).Ok?
    requires Traverse(rels, rel => PrepareRelationship(BuildEntDict(ents).value, rel)) == Ok(ops)
    ensures |ops| == |rels|
    ensures forall i :: 0 <= i < |ops| ==>
              Matches(InsertEntities(s0, ents).value, ops[i]) && ops[i] == PrepareRelationship(BuildEntDict(ents).value, rels[i]).value
  {
    var d := BuildEntDict(ents).value;
    forall i | 0 <= i < |ops|
      ensures Matches(InsertEntities(s0, ents).value, ops[i]) && ops[i] == PrepareRelationship(d, rels[i]).value
    {
      assert PrepareRelationship(d, rels[i]) == Ok(ops[i]);
      EntDictNodesExist(s0, ents, Get(rels[i].fields, "head"));
      EntDictNodesExist(s0, ents, Get(rels[i].fields, "tail"));
    }
  }
}
