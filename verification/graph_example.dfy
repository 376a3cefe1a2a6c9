/** A worked import: two entities and two relationships that name the same
    pair of entities with the same type in different letter case. */
module GraphExample {
  import opened Wrappers
  import opened Json
  import opened GraphStore
  import Evidence

  const Aspirin := JObj([("id", JStr("a")), ("type", JStr("Drug")), ("text", JStr("aspirin"))])
  const Pain := JObj([("id", JStr("b")), ("type", JStr("Condition")), ("text", JStr("pain"))])
  const TreatsX := JObj([("head", JStr("a")), ("tail", JStr("b")), ("type", JStr("treats")), ("evidence", JStr("X"))])
  const TreatsY := JObj([("head", JStr("a")), ("tail", JStr("b")), ("type", JStr("TREATS")), ("evidence", JStr("Y"))])
  const Data := JObj([("entities", JList([Aspirin, Pain])), ("relationships", JList([TreatsX, TreatsY]))])

  const DrugA := NodeKey("Drug", JStr("a"))
  const ConditionB := NodeKey("Condition", JStr("b"))
  const Treats := EdgeKey(DrugA, "TREATS", ConditionB)
  const Dict := map[JStr("a") := EntInfo(JStr("Drug"), JStr("aspirin")),
                    JStr("b") := EntInfo(JStr("Condition"), JStr("pain"))]

  lemma RowsOfData()
    ensures Rows(Data, "entities") == Ok([Aspirin, Pain])
    ensures Rows(Data, "relationships") == Ok([TreatsX, TreatsY])
  {
    LookupAt(Data.fields, 0);
    LookupAt(Data.fields, 1);
  }

  lemma AspirinPrepared()
    ensures PrepareEntity(Aspirin) == Ok(NodeUpsert(DrugA, [("id", JStr("a")), ("text", JStr("aspirin"))]))
  {
    LookupAt(Aspirin.fields, 0);
    LookupAt(Aspirin.fields, 1);
    assert Without(Aspirin.fields, "type") == [("id", JStr("a")), ("text", JStr("aspirin"))];
    PropKeys();
    assert Str(JStr("Drug")) == "Drug" && IsIdentifier("Drug");
    PrepareEntityOk(Aspirin.fields, JStr("Drug"), JStr("a"));
  }


  lemma PainPrepared()
    ensures PrepareEntity(Pain) == Ok(NodeUpsert(ConditionB, [("id", JStr("b")), ("text", JStr("pain"))]))
  {
    LookupAt(Pain.fields, 0);
    LookupAt(Pain.fields, 1);
    assert Without(Pain.fields, "type") == [("id", JStr("b")), ("text", JStr("pain"))];
    PropKeys();
    assert Str(JStr("Condition")) == "Condition" && IsIdentifier("Condition");
    PrepareEntityOk(Pain.fields, JStr("Condition"), JStr("b"));
  }


  /** A map property value passes every check up to the server's type
      check, which refuses it. */
  lemma MapValueRefused()
    ensures PrepareEntity(JObj([("id", JStr("a")), ("type", JStr("Drug")), ("dose", JObj([]))]))
              == Err(Errors.CypherTypeError("property value"))
  {
    var fs := [("id", JStr("a")), ("type", JStr("Drug")), ("dose", JObj([]))];
    LookupAt(fs, 0);
    LookupAt(fs, 1);
    var props := Without(fs, "type");
    assert props == [("id", JStr("a")), ("dose", JObj([]))];
    assert Str(JStr("Drug")) == "Drug" && IsIdentifier("Drug");
    assert IsIdentifier("id") && IsIdentifier("dose");
    assert !Storable(props[1].1);
    PrepareEntityUnstorable(fs, JStr("Drug"), JStr("a"));
  }

  /** A field named `query` is refused by `tx.run` before anything reaches
      the server. */
  lemma QueryFieldRefused()
    ensures PrepareEntity(JObj([("id", JStr("a")), ("type", JStr("Drug")), ("query", JStr("q"))])).error.TypeError?
  {
    var fs := [("id", JStr("a")), ("type", JStr("Drug")), ("query", JStr("q"))];
    LookupAt(fs, 1);
    LookupAt(fs, 2);
  }

  /** A field named `self` clashes with `tx.run`'s own first parameter. */
  lemma SelfFieldRefused()
    ensures PrepareEntity(JObj([("type", JStr("Drug")), ("id", JInt(1)), ("self", JInt(2))])).error.TypeError?
  {
    var fs := [("type", JStr("Drug")), ("id", JInt(1)), ("self", JInt(2))];
    LookupAt(fs, 0);
    LookupAt(fs, 2);
  }

  /** An id of 2^63 does not fit the driver's 64-bit integers. */
  lemma LargeIdRefused()
    ensures PrepareEntity(JObj([("type", JStr("Drug")), ("id", JInt(0x8000_0000_0000_0000))]))
              == Err(Errors.OverflowError("int too large to pack"))
  {
    var fs := [("type", JStr("Drug")), ("id", JInt(0x8000_0000_0000_0000))];
    LookupAt(fs, 0);
    assert !ClashesWithRun(fs);
    assert Without(fs, "type") == [("id", JInt(0x8000_0000_0000_0000))];
    assert !Packable(Without(fs, "type")[0].1);
  }

  /** An `entities` value that is not iterable fails inside the second
      transaction, after the reset has committed: the old graph is gone. */
  lemma NonIterableEntitiesAfterReset(s: Store)
    ensures ImportGraph(s, JObj([("entities", JInt(5)), ("relationships", JList([]))]))
              == Outcome(ResetGraph(s), Some(Errors.TypeError("object is not iterable")))
  {
    var fs := [("entities", JInt(5)), ("relationships", JList([]))];
    LookupAt(fs, 0);
    LookupAt(fs, 1);
  }

  lemma PropKeys()
    ensures forall v: Json, w: Json :: AllKeysIdentifiers([("id", v), ("text", w)])
  {
    assert IsIdentifier("id") && IsIdentifier("text");
  }

  lemma EntitiesInserted()
    ensures InsertEntities(ResetGraph(Store(map[], map[])), [Aspirin, Pain]).Ok?
    ensures DrugA in InsertEntities(ResetGraph(Store(map[], map[])), [Aspirin, Pain]).value.nodes
    ensures ConditionB in InsertEntities(ResetGraph(Store(map[], map[])), [Aspirin, Pain]).value.nodes
    ensures InsertEntities(ResetGraph(Store(map[], map[])), [Aspirin, Pain]).value.edges == map[]
  {
    var ua := NodeUpsert(DrugA, [("id", JStr("a")), ("text", JStr("aspirin"))]);
    var ub := NodeUpsert(ConditionB, [("id", JStr("b")), ("text", JStr("pain"))]);
    AspirinPrepared();
    PainPrepared();
    TraversePair(Aspirin, Pain, PrepareEntity, ua, ub);
    assert PrepareEntities([Aspirin, Pain]) == Ok([ua, ub]);
    assert Targets([ua, ub], DrugA) by {
      assert [ua, ub][0].key == DrugA;
    }
    assert Targets([ua, ub], ConditionB) by {
      assert [ua, ub][1].key == ConditionB;
    }
  }

  /** Traversing two elements that both succeed. */
  lemma TraversePair<T, U, E>(x: T, y: T, f: T -> Result<U, E>, u: U, v: U)
    requires f(x) == Ok(u) && f(y) == Ok(v)
    ensures Traverse([x, y], f) == Ok([u, v])
  {
    var r := Traverse([x, y], f);
    assert [x, y][0] == x && [x, y][1] == y;
    assert r.value[0] == u && r.value[1] == v;
    assert r.value == [u, v];
  }

  lemma AspirinEntry()
    ensures DictEntry(Aspirin) == Ok((JStr("a"), Dict[JStr("a")]))
  {
    LookupAt(Aspirin.fields, 0);
    LookupAt(Aspirin.fields, 1);
    LookupAt(Aspirin.fields, 2);
  }

  lemma PainEntry()
    ensures DictEntry(Pain) == Ok((JStr("b"), Dict[JStr("b")]))
  {
    LookupAt(Pain.fields, 0);
    LookupAt(Pain.fields, 1);
    LookupAt(Pain.fields, 2);
  }

  lemma DictOfPairs(px: (Json, EntInfo), py: (Json, EntInfo))
    requires px == (JStr("a"), Dict[JStr("a")]) && py == (JStr("b"), Dict[JStr("b")])
    ensures MapOf([px, py]) == Dict
  {
    assert [px, py][..1] == [px];
    assert [px][..0] == [px][1..];
    assert MapOf([px][..0]) == map[];
    assert MapOf([px]) == map[px.0 := px.1];
    assert MapOf([px, py]) == map[px.0 := px.1, py.0 := py.1];
  }

  lemma DictOfEntities()
    ensures BuildEntDict([Aspirin, Pain]) == Ok(Dict)
  {
    AspirinEntry();
    PainEntry();
    var px := (JStr("a"), Dict[JStr("a")]);
    var py := (JStr("b"), Dict[JStr("b")]);
    TraversePair(Aspirin, Pain, DictEntry, px, py);
    DictOfPairs(px, py);
  }

  lemma TreatsXPrepared()
    ensures PrepareRelationship(Dict, TreatsX) == Ok(EdgeOp(Treats, Some("X")))
  {
    LookupAt(TreatsX.fields, 0);
    LookupAt(TreatsX.fields, 1);
    LookupAt(TreatsX.fields, 2);
    LookupAt(TreatsX.fields, 3);
    UpperTreats();
    Labels();
    PrepareRelationshipOk(Dict, TreatsX.fields, JStr("a"), JStr("b"), "treats", "X");
  }

  lemma TreatsYPrepared()
    ensures PrepareRelationship(Dict, TreatsY) == Ok(EdgeOp(Treats, Some("Y")))
  {
    LookupAt(TreatsY.fields, 0);
    LookupAt(TreatsY.fields, 1);
    LookupAt(TreatsY.fields, 2);
    LookupAt(TreatsY.fields, 3);
    UpperTreats();
    Labels();
    PrepareRelationshipOk(Dict, TreatsY.fields, JStr("a"), JStr("b"), "TREATS", "Y");
  }

  lemma UpperTreats()
    ensures Text.Upper("treats") == "TREATS" && Text.Upper("TREATS") == "TREATS"
  {
  }

  lemma Labels()
    ensures Str(Dict[JStr("a")].etype) == "Drug" && Str(Dict[JStr("b")].etype) == "Condition"
    ensures IsIdentifier("Drug") && IsIdentifier("Condition") && IsIdentifier("TREATS")
    ensures Hashable(JStr("a")) && Hashable(JStr("b"))
  {
  }

  lemma EdgesApplied(s: Store)
    requires DrugA in s.nodes && ConditionB in s.nodes && s.edges == map[]
    ensures ApplyEdges(s, [EdgeOp(Treats, Some("X")), EdgeOp(Treats, Some("Y"))]).edges == map[Treats := Some("X\nY")]
  {
    var ops := [EdgeOp(Treats, Some("X")), EdgeOp(Treats, Some("Y"))];
    assert ops[..1] == [ops[0]] && [ops[0]][..0] == [ops[0]][1..];
    Evidence.MergeExamples();
  }

  /** The two relationships become one `TREATS` edge whose log holds both
      pieces of evidence, one per line. */
  lemma DuplicateTripleAccumulates()
    ensures ImportGraph(Store(map[], map[]), Data).error == None
    ensures ImportGraph(Store(map[], map[]), Data).store.edges == map[Treats := Some("X\nY")]
  {
    RowsOfData();
    EntitiesInserted();
    DictOfEntities();
    TreatsXPrepared();
    TreatsYPrepared();
    TraversePair(TreatsX, TreatsY, rel => PrepareRelationship(Dict, rel), EdgeOp(Treats, Some("X")), EdgeOp(Treats, Some("Y")));
    EdgesApplied(InsertEntities(ResetGraph(Store(map[], map[])), [Aspirin, Pain]).value);
  }
}
