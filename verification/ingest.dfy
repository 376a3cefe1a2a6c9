/** ingest_kg.py: the canonical form of extracted entities and relationships
    before they are written to Neo4j, and the batches the writes are cut
    into. The Cypher statements themselves run APOC procedures and are not
    part of this model. */
module Ingest {
  import opened Wrappers
  import opened Errors
  import opened Text
  import opened Json
  import opened Deduplication
  import opened Batches

  // ---------------------------------------------------------------------
  // Labels

  /** `LABEL_MAP`: the node label of each known lower-case entity type. */
  const LabelMap: map<string, string> := map[
    "medical_condition" := "MedicalCondition",
    "medication" := "Medication",
    "treatment_type" := "Treatment",
    "outcome" := "Outcome",
    "measure" := "Measure",
    "patient_group" := "PatientGroup",
    "study" := "Study"
  ]

  /** `title_case`: the first character upper-cased and the rest lower-cased;
      the empty string becomes "EntityType". */
  function TitleCase(s: string): (r: string)
    ensures s == [] ==> r == "EntityType"
    ensures s != [] ==> |r| == |s| && SameIgnoringCase(r, s) && !IsLower(r[0]) && HasNoUpper(r[1..])
  {
    if s == [] then "EntityType" else [UpperChar(s[0])] + Lower(s[1..])
  }

  /** Title case is the only spelling of `s` with a capital first letter and
      no other capitals. */
  lemma TitleCaseUnique(t: string, s: string)
    requires t != [] && SameIgnoringCase(t, s)
    requires !IsLower(t[0]) && HasNoUpper(t[1..])
    ensures t == TitleCase(s)
  {
    assert |Lower(t)| == |Lower(s)|;
    var r := TitleCase(s);
    assert Lower(t)[0] == Lower(s)[0];
    LowerUpperChar(t[0]);
    LowerUpperChar(s[0]);
    forall i | 1 <= i < |t| ensures t[i] == r[i] {
      assert t[1..][i - 1] == t[i];
      assert Lower(t)[i] == Lower(s)[i];
    }
  }

  /** Title-casing twice is title-casing once, for nonempty text. The empty
      string is the exception: its stand-in "EntityType" title-cases to
      "Entitytype". */
  lemma TitleCaseIdempotent(s: string)
    requires s != []
    ensures TitleCase(TitleCase(s)) == TitleCase(s)
  {
    var t := TitleCase(s);
    TitleCaseUnique(t, t);
  }

  /** `LABEL_MAP.get(t) or title_case(t)`: the mapped label of a known type,
      otherwise the type in title case. */
  function DynLabel(t: string): (r: string)
    ensures r != []
    ensures t in LabelMap ==> r == LabelMap[t]
    ensures t !in LabelMap && t != [] ==> SameIgnoringCase(r, t) && !IsLower(r[0]) && HasNoUpper(r[1..])
  {
    if t in LabelMap then LabelMap[t] else TitleCase(t)
  }

  // ---------------------------------------------------------------------
  // Relationship types

  /** `re.sub(r"[^a-zA-Z0-9_]+", "_", s)`: every maximal run of characters
      outside `[a-zA-Z0-9_]` becomes one underscore. A character outside the
      class produces the underscore only when it ends its run. */
  function Collapse(s: string): (r: string)
    ensures forall i :: 0 <= i < |r| ==> IsWordChar(r[i])
    ensures r == [] <==> s == []
    decreases |s|
  {
    if s == [] then []
    else if IsWordChar(s[0]) then [s[0]] + Collapse(s[1..])
    else if |s| > 1 && !IsWordChar(s[1]) then Collapse(s[1..])
    else "_" + Collapse(s[1..])
  }

  predicate AllWordChars(s: string) {
    forall i :: 0 <= i < |s| ==> IsWordChar(s[i])
  }

  /** Characters inside the class are copied. */
  lemma {:induction false} CollapseWordPrefix(w: string, t: string)
    requires AllWordChars(w)
    ensures Collapse(w + t) == w + Collapse(t)
    decreases |w|
  {
    if w == [] {
      assert w + t == t;
    } else {
      assert (w + t)[1..] == w[1..] + t;
      CollapseWordPrefix(w[1..], t);
      assert [w[0]] + (w[1..] + Collapse(t)) == w + Collapse(t);
    }
  }

  /** A whole run of characters outside the class becomes one underscore. */
  lemma {:induction false} CollapseRun(run: string, rest: string)
    requires run != [] && forall i :: 0 <= i < |run| ==> !IsWordChar(run[i])
    requires rest == [] || IsWordChar(rest[0])
    ensures Collapse(run + rest) == "_" + Collapse(rest)
    decreases |run|
  {
    var s := run + rest;
    assert s[1..] == run[1..] + rest;
    if |run| == 1 {
      assert s[1..] == rest;
    } else {
      assert s[1] == run[1];
      CollapseRun(run[1..], rest);
    }
  }

  /** Text already inside the class is left as it is. */
  lemma CollapseWord(s: string)
    requires AllWordChars(s)
    ensures Collapse(s) == s
  {
    CollapseWordPrefix(s, []);
    assert s + [] == s;
  }

  /** The shape of a sanitised relationship type: nonempty, upper-case
      letters, digits and underscores only. */
  predicate IsRelType(t: string) {
    t != [] && forall i :: 0 <= i < |t| ==> IsUpper(t[i]) || IsDigit(t[i]) || t[i] == '_'
  }

  /** `sanitize_rel_type`: a falsy value becomes "related_to"; the text is
      lower-cased, spaces become underscores, runs outside `[a-zA-Z0-9_]`
      collapse to one underscore, and the result is upper-cased. A truthy
      value that is not a string has no `lower` method. */
  function SanitizeRelType(raw: Json): (r: Result<string, Error>)
    ensures r.Ok? <==> !Truthy(raw) || raw.JStr?
    ensures r.Ok? ==> IsRelType(r.value)
  {
    var v := if Truthy(raw) then raw else JStr("related_to");
    match v
    case JStr(s) =>
      var c := Collapse(ReplaceChar(Lower(s), ' ', '_'));
      assert forall i :: 0 <= i < |c| ==> IsWordChar(c[i]);
      Ok(Upper(c))
    case _ => Err(AttributeError("lower"))
  }

  /** None, "", 0, False, [] and {} all become RELATED_TO. */
  lemma SanitizeFalsy(raw: Json)
    requires !Truthy(raw)
    ensures SanitizeRelType(raw) == Ok("RELATED_TO")
  {
    assert SanitizeRelType(raw) == SanitizeRelType(JStr("related_to"));
    assert IsRelType("RELATED_TO");
    assert Lower("RELATED_TO") == "related_to";
    LowerNoUpper("related_to");
    SanitizeIgnoresCase("related_to", "RELATED_TO");
    RelTypeFixed("RELATED_TO");
  }

  /** Only the lower-cased text matters. */
  lemma SanitizeIgnoresCase(a: string, b: string)
    requires SameIgnoringCase(a, b)
    ensures SanitizeRelType(JStr(a)) == SanitizeRelType(JStr(b))
  {
    assert |a| == |Lower(a)| == |Lower(b)| == |b|;
  }

  /** A sanitised type sanitises to itself. */
  lemma RelTypeFixed(t: string)
    requires IsRelType(t)
    ensures SanitizeRelType(JStr(t)) == Ok(t)
  {
    var l := Lower(t);
    assert ReplaceChar(l, ' ', '_') == l;
    CollapseWord(l);
    forall i | 0 <= i < |t| ensures Upper(l)[i] == t[i] {
      LowerUpperChar(t[i]);
    }
    assert Upper(l) == t;
  }

  /** Sanitising twice is sanitising once. */
  lemma SanitizeIdempotent(raw: Json)
    requires SanitizeRelType(raw).Ok?
    ensures SanitizeRelType(JStr(SanitizeRelType(raw).value)) == SanitizeRelType(raw)
  {
    RelTypeFixed(SanitizeRelType(raw).value);
  }

  // ---------------------------------------------------------------------
  // Properties

  /** The values `clean_props` drops: None, "", [] and {}. */
  predicate IsEmptyValue(v: Json) {
    v == JNull || v == JStr("") || v == JList([]) || v == JObj([])
  }

  predicate Kept(p: (string, Json)) {
    p.0 != "id" && !IsEmptyValue(p.1)
  }

  function KeyOf(p: (string, Json)): string {
    p.0
  }

  /** `clean_props`: the pairs whose key is not "id" and whose value is not
      empty, in their order. */
  function CleanProps(fs: Fields): (r: Fields)
    ensures forall p :: p in r <==> p in fs && Kept(p)
    decreases |fs|
  {
    if fs == [] then []
    else
      var last := fs[|fs| - 1];
      assert fs == fs[..|fs| - 1] + [last];
      var init := CleanProps(fs[..|fs| - 1]);
      if Kept(last) then init + [last] else init
  }

  /** Cleaning is a filter: it distributes over concatenation, so the kept
      pairs keep their relative order. */
  lemma {:induction false} CleanPropsConcat(a: Fields, b: Fields)
    ensures CleanProps(a + b) == CleanProps(a) + CleanProps(b)
    decreases |b|
  {
    if b == [] {
      assert a + b == a;
    } else {
      var b' := b[..|b| - 1];
      assert (a + b)[..|a + b| - 1] == a + b';
      CleanPropsConcat(a, b');
    }
  }

  lemma {:induction false} CleanPropsIdempotent(fs: Fields)
    ensures CleanProps(CleanProps(fs)) == CleanProps(fs)
    decreases |fs|
  {
    if fs != [] {
      var init := fs[..|fs| - 1];
      var last := fs[|fs| - 1];
      CleanPropsIdempotent(init);
      if Kept(last) {
        CleanPropsConcat(CleanProps(init), [last]);
        assert CleanProps([last]) == [] + [last] by {
          assert [last][..0] == [];
        }
      }
    }
  }

  /** In a dict (distinct keys) the cleaned dict answers a lookup with the
      original value when that value is kept, and not at all otherwise. */
  lemma {:induction false} CleanPropsLookup(fs: Fields, k: string)
    requires DistinctKeys(fs, KeyOf)
    ensures Lookup(CleanProps(fs), k) ==
      if k != "id" && Lookup(fs, k).Some? && !IsEmptyValue(Lookup(fs, k).value) then Lookup(fs, k) else None
    decreases |fs|
  {
    if fs != [] {
      var init := fs[..|fs| - 1];
      var last := fs[|fs| - 1];
      assert DistinctKeys(init, KeyOf) by {
        forall i, j | 0 <= i < j < |init| ensures KeyOf(init[i]) != KeyOf(init[j]) {
          assert init[i] == fs[i] && init[j] == fs[j];
        }
      }
      CleanPropsLookup(init, k);
      var ci := CleanProps(init);
      if Kept(last) {
        assert (ci + [last])[..|ci + [last]| - 1] == ci;
      }
      if last.0 == k {
        assert !HasKey(init, k) by {
          forall i | 0 <= i < |init| ensures init[i].0 != k {
            assert KeyOf(fs[i]) != KeyOf(fs[|fs| - 1]);
          }
        }
      }
    }
  }

  // ---------------------------------------------------------------------
  // Field fallback

  /** Python's `v0 or v1 or ... or vn`: the first truthy value, or the last
      value when none is truthy. */
  function Fallback(vs: seq<Json>): Json
    requires vs != []
    decreases |vs|
  {
    if |vs| == 1 then vs[0] else Or(vs[0], Fallback(vs[1..]))
  }

  /** The chain picks the `i`th value exactly when the values before it are
      falsy and it is truthy or the last. */
  lemma {:induction false} FallbackFirstTruthy(vs: seq<Json>, i: nat)
    requires i < |vs|
    requires forall j :: 0 <= j < i ==> !Truthy(vs[j])
    requires Truthy(vs[i]) || i == |vs| - 1
    ensures Fallback(vs) == vs[i]
    decreases |vs|
  {
    if i > 0 {
      assert !Truthy(vs[0]);
      FallbackFirstTruthy(vs[1..], i - 1);
    }
  }

  /** A chain ending in a truthy default yields a truthy value. */
  lemma {:induction false} FallbackTruthy(vs: seq<Json>)
    requires vs != [] && Truthy(vs[|vs| - 1])
    ensures Truthy(Fallback(vs))
    decreases |vs|
  {
    if |vs| > 1 {
      FallbackTruthy(vs[1..]);
    }
  }

  /** `load_json_any_shape` after `json.load`: the entity and relationship
      values of a dict, each replaced by `[]` when falsy or missing; a
      document that is not a dict has neither. */
  function LoadJsonAnyShape(data: Json): (r: (Json, Json))
    ensures Truthy(r.0) || r.0 == JList([])
    ensures Truthy(r.1) || r.1 == JList([])
    ensures data.JObj? && Truthy(Get(data.fields, "entities")) ==> r.0 == Get(data.fields, "entities")
    ensures data.JObj? && Truthy(Get(data.fields, "relationships")) ==> r.1 == Get(data.fields, "relationships")
    ensures !data.JObj? ==> r == (JList([]), JList([]))
  {
    match data
    case JObj(fs) => (Or(Get(fs, "entities"), JList([])), Or(Get(fs, "relationships"), JList([])))
    case _ => (JList([]), JList([]))
  }

  // ---------------------------------------------------------------------
  // Canonical entities

  datatype CanonEntity = CanonEntity(
    sourceId: Json,
    text: Json,
    etypeLower: string,
    dynLabel: string,
    props: Fields)

  function SourceIdOf(fs: Fields): Json {
    Fallback([Get(fs, "id"), Get(fs, "uid"), Get(fs, "node_id")])
  }

  function TextOf(fs: Fields): Json {
    Fallback([Get(fs, "text"), Get(fs, "name"), Get(fs, "label")])
  }

  function EntityTypeOf(fs: Fields): Json {
    Fallback([Get(fs, "type"), Get(fs, "category"), JStr("entitytype")])
  }

  /** `canonical_entity`: id from id/uid/node_id and text from
      text/name/label, each the first truthy one; the type from
      type/category, lower-cased, "entitytype" when both are falsy; the label
      from the type; the cleaned properties. */
  function CanonicalEntity(e: Json): (r: Result<CanonEntity, Error>)
    ensures r.Ok? <==> e.JObj? && EntityTypeOf(e.fields).JStr?
    ensures r.Ok? ==> r.value.etypeLower != [] && HasNoUpper(r.value.etypeLower)
    ensures r.Ok? ==> SameIgnoringCase(r.value.etypeLower, EntityTypeOf(e.fields).s)
    ensures r.Ok? ==> forall p :: p in r.value.props ==> p in e.fields && p.0 != "id"
    ensures r.Ok? ==> r.value.sourceId == SourceIdOf(e.fields) && r.value.text == TextOf(e.fields)
    ensures r.Ok? ==> r.value.etypeLower == Lower(EntityTypeOf(e.fields).s)
    ensures r.Ok? ==> r.value.dynLabel == DynLabel(r.value.etypeLower)
    ensures r.Ok? ==> r.value.props == CleanProps(e.fields)
  {
    match e
    case JObj(fs) =>
      var ty := EntityTypeOf(fs);
      if !ty.JStr? then Err(AttributeError("lower"))
      else
        assert ty.s != [] by {
          FallbackTruthy([Get(fs, "type"), Get(fs, "category"), JStr("entitytype")]);
        }
        var t := Lower(ty.s);
        forall i | 0 <= i < |t| ensures LowerChar(t[i]) == LowerChar(ty.s[i]) {
          LowerUpperChar(ty.s[i]);
        }
        Ok(CanonEntity(SourceIdOf(fs), TextOf(fs), t, DynLabel(t), CleanProps(fs)))
    case _ => Err(AttributeError("get"))
  }

  /** A property of a canonical entity is the entity's own field, unless that
      field is `id` or an empty value; keys are read as the dict read them. */
  lemma CanonicalEntityProperty(fs: Fields, k: string)
    requires DistinctKeys(fs, KeyOf)
    ensures CanonicalEntity(JObj(fs)).Ok? ==>
              Lookup(CanonicalEntity(JObj(fs)).value.props, k) ==
                if k != "id" && Lookup(fs, k).Some? && !IsEmptyValue(Lookup(fs, k).value) then Lookup(fs, k) else None
  {
    CleanPropsLookup(fs, k);
  }

  /** An entity without a truthy type or category gets the type
      "entitytype" and the label "Entitytype": the "EntityType" branch of
      `title_case` is never reached from here. */
  lemma DefaultEntityLabel(fs: Fields)
    requires !Truthy(Get(fs, "type")) && !Truthy(Get(fs, "category"))
    ensures CanonicalEntity(JObj(fs)).Ok?
    ensures CanonicalEntity(JObj(fs)).value.etypeLower == "entitytype"
    ensures CanonicalEntity(JObj(fs)).value.dynLabel == "Entitytype"
  {
    FallbackFirstTruthy([Get(fs, "type"), Get(fs, "category"), JStr("entitytype")], 2);
    LowerNoUpper("entitytype");
    DefaultTypeLabel();
  }

  lemma DefaultTypeLabel()
    ensures DynLabel("entitytype") == "Entitytype"
  {
    assert "entitytype" !in LabelMap;
    LowerNoUpper("ntitytype");
    assert "entitytype"[1..] == "ntitytype";
  }

  // ---------------------------------------------------------------------
  // Canonical relationships

  datatype CanonRel = CanonRel(
    head: Json,
    tail: Json,
    relType: string,
    evidence: Json,
    raw: Fields,
    relKey: string)

  function HeadOf(fs: Fields): Json {
    Fallback([Get(fs, "head"), Get(fs, "source"), Get(fs, "from")])
  }

  function TailOf(fs: Fields): Json {
    Fallback([Get(fs, "tail"), Get(fs, "target"), Get(fs, "to")])
  }

  function RelTypeOf(fs: Fields): Json {
    Fallback([Get(fs, "type"), Get(fs, "relation"), JStr("related_to")])
  }

  /** The text whose digest goes into the key: `str(ev)` when truthy, else "". */
  function EvidenceText(ev: Json): string {
    if Truthy(ev) then Str(ev) else ""
  }

  /** `f"{head}|{rel_type}|{tail}|{ev_hash}"` */
  function RelKey(head: string, relType: string, tail: string, hash: string): string {
    head + "|" + relType + "|" + tail + "|" + hash
  }

  /** `canonical_rel` with `md5(...).hexdigest()` as the parameter `md5`. */
  function CanonicalRel(r: Json, md5: string -> string): (c: Result<CanonRel, Error>)
    ensures c.Ok? <==> r.JObj? && RelTypeOf(r.fields).JStr?
    ensures c.Ok? ==> IsRelType(c.value.relType)
    ensures c.Ok? ==> forall p :: p in c.value.raw ==> p in r.fields && p.0 != "id"
    ensures c.Ok? ==> c.value.head == HeadOf(r.fields) && c.value.tail == TailOf(r.fields)
    ensures c.Ok? ==> c.value.relType == SanitizeRelType(RelTypeOf(r.fields)).value
    ensures c.Ok? ==> c.value.evidence == Get(r.fields, "evidence") && c.value.raw == CleanProps(r.fields)
    ensures c.Ok? ==> c.value.relKey == RelKey(Str(c.value.head), c.value.relType, Str(c.value.tail),
                                               md5(EvidenceText(c.value.evidence)))
  {
    match r
    case JObj(fs) =>
      var rtype := RelTypeOf(fs);
      assert Truthy(rtype) by {
        FallbackTruthy([Get(fs, "type"), Get(fs, "relation"), JStr("related_to")]);
      }
      var sanitized := SanitizeRelType(rtype);
      if sanitized.Err? then Err(sanitized.error)
      else
        var relType := sanitized.value;
        var head := HeadOf(fs);
        var tail := TailOf(fs);
        var ev := Get(fs, "evidence");
        Ok(CanonRel(head, tail, relType, ev, CleanProps(fs),
                    RelKey(Str(head), relType, Str(tail), md5(EvidenceText(ev)))))
    case _ => Err(AttributeError("get"))
  }

  /** The position of the first `|`, or the length when there is none. */
  function BarIndex(x: string): (i: nat)
    ensures i <= |x|
  {
    if x == [] || x[0] == '|' then 0 else 1 + BarIndex(x[1..])
  }

  lemma {:induction false} BarIndexAfter(a: string, b: string)
    requires '|' !in a
    ensures BarIndex(a + "|" + b) == |a|
  {
    if a != [] {
      assert (a + "|" + b)[1..] == a[1..] + "|" + b;
      assert a[0] in a;
      BarIndexAfter(a[1..], b);
    }
  }

  /** Two `|`-separated texts split the same way when the first parts hold no `|`. */
  lemma SplitAtBar(a: string, b: string, c: string, d: string)
    requires '|' !in a && '|' !in c
    requires a + "|" + b == c + "|" + d
    ensures a == c && b == d
  {
    var x := a + "|" + b;
    BarIndexAfter(a, b);
    BarIndexAfter(c, d);
    assert a == x[..|a|] && c == x[..|c|];
    assert b == x[|a| + 1..] && d == x[|c| + 1..];
  }

  /** A key determines its parts when neither endpoint's text holds a `|`. */
  lemma RelKeyParts(h1: string, t1: string, ty1: string, x1: string,
                    h2: string, t2: string, ty2: string, x2: string)
    requires IsRelType(ty1) && IsRelType(ty2)
    requires '|' !in h1 && '|' !in t1 && '|' !in h2 && '|' !in t2
    ensures RelKey(h1, ty1, t1, x1) == RelKey(h2, ty2, t2, x2) <==>
            h1 == h2 && ty1 == ty2 && t1 == t2 && x1 == x2
  {
    if RelKey(h1, ty1, t1, x1) == RelKey(h2, ty2, t2, x2) {
      assert '|' !in ty1 && '|' !in ty2;
      assert RelKey(h1, ty1, t1, x1) == h1 + "|" + (ty1 + "|" + t1 + "|" + x1);
      assert RelKey(h2, ty2, t2, x2) == h2 + "|" + (ty2 + "|" + t2 + "|" + x2);
      SplitAtBar(h1, ty1 + "|" + t1 + "|" + x1, h2, ty2 + "|" + t2 + "|" + x2);
      assert ty1 + "|" + t1 + "|" + x1 == ty1 + "|" + (t1 + "|" + x1);
      assert ty2 + "|" + t2 + "|" + x2 == ty2 + "|" + (t2 + "|" + x2);
      SplitAtBar(ty1, t1 + "|" + x1, ty2, t2 + "|" + x2);
      SplitAtBar(t1, x1, t2, x2);
    }
  }

  /** Without the condition on `|` two different relationships can share a
      key: head "a|X", type Y, tail "b" and head "a", type X, tail "Y|b". */
  lemma RelKeyCollision(hash: string)
    ensures RelKey("a|X", "Y", "b", hash) == RelKey("a", "X", "Y|b", hash)
  {
  }

  /** Two canonical relationships with the same head and tail text, type and
      evidence digest share a key, whatever their endpoints print as. */
  lemma CanonicalRelKeysEqual(r1: Json, r2: Json, md5: string -> string)
    requires CanonicalRel(r1, md5).Ok? && CanonicalRel(r2, md5).Ok?
    ensures var c1, c2 := CanonicalRel(r1, md5).value, CanonicalRel(r2, md5).value;
      Str(c1.head) == Str(c2.head) && c1.relType == c2.relType && Str(c1.tail) == Str(c2.tail) &&
      md5(EvidenceText(c1.evidence)) == md5(EvidenceText(c2.evidence)) ==>
        c1.relKey == c2.relKey
  {
  }

  /** Two canonical relationships whose endpoints print without `|` share a
      key exactly when they share head, type, tail and evidence digest. */
  lemma CanonicalRelKeys(r1: Json, r2: Json, md5: string -> string)
    requires CanonicalRel(r1, md5).Ok? && CanonicalRel(r2, md5).Ok?
    requires '|' !in Str(HeadOf(r1.fields)) && '|' !in Str(TailOf(r1.fields))
    requires '|' !in Str(HeadOf(r2.fields)) && '|' !in Str(TailOf(r2.fields))
    ensures var c1, c2 := CanonicalRel(r1, md5).value, CanonicalRel(r2, md5).value;
      c1.relKey == c2.relKey <==>
        Str(c1.head) == Str(c2.head) && c1.relType == c2.relType && Str(c1.tail) == Str(c2.tail) &&
        md5(EvidenceText(c1.evidence)) == md5(EvidenceText(c2.evidence))
  {
    var c1, c2 := CanonicalRel(r1, md5).value, CanonicalRel(r2, md5).value;
    RelKeyParts(Str(c1.head), Str(c1.tail), c1.relType, md5(EvidenceText(c1.evidence)),
                Str(c2.head), Str(c2.tail), c2.relType, md5(EvidenceText(c2.evidence)));
  }

  // ---------------------------------------------------------------------
  // Files and batches

  /** The canonical entities and relationships of one loaded document;
      iterating a value that is not a list, dict or string raises. */
  function CanonicaliseFile(data: Json, md5: string -> string): (r: Result<(seq<CanonEntity>, seq<CanonRel>), Error>)
    ensures r.Ok? ==> Iterate(LoadJsonAnyShape(data).0).Ok? && Iterate(LoadJsonAnyShape(data).1).Ok?
    ensures r.Ok? ==> |r.value.0| == |Iterate(LoadJsonAnyShape(data).0).value|
    ensures r.Ok? ==> |r.value.1| == |Iterate(LoadJsonAnyShape(data).1).value|
    ensures r.Ok? <==>
              Iterate(LoadJsonAnyShape(data).0).Ok? && Iterate(LoadJsonAnyShape(data).1).Ok?
              && (forall i :: 0 <= i < |Iterate(LoadJsonAnyShape(data).0).value| ==>
                    CanonicalEntity(Iterate(LoadJsonAnyShape(data).0).value[i]).Ok?)
              && (forall i :: 0 <= i < |Iterate(LoadJsonAnyShape(data).1).value| ==>
                    CanonicalRel(Iterate(LoadJsonAnyShape(data).1).value[i], md5).Ok?)
    ensures r.Ok? ==> forall i :: 0 <= i < |r.value.0| ==>
              Ok(r.value.0[i]) == CanonicalEntity(Iterate(LoadJsonAnyShape(data).0).value[i])
    ensures r.Ok? ==> forall i :: 0 <= i < |r.value.1| ==>
              Ok(r.value.1[i]) == CanonicalRel(Iterate(LoadJsonAnyShape(data).1).value[i], md5)
  {
    var (ents, rels) := LoadJsonAnyShape(data);
    match Iterate(ents)
    case Err(e) => Err(e)
    case Ok(es) =>
      match Traverse(es, CanonicalEntity)
      case Err(e) => Err(e)
      case Ok(ce) =>
        match Iterate(rels)
        case Err(e) => Err(e)
        case Ok(rs) =>
          match Traverse(rs, r => CanonicalRel(r, md5))
          case Err(e) => Err(e)
          case Ok(cr) => Ok((ce, cr))
  }

  /** One document after another: the lists of all of them, concatenated in
      order; the first document that raises ends the run. */
  function ConcatAll<X, A, B>(xs: seq<X>, f: X -> Result<(seq<A>, seq<B>), Error>): (r: Result<(seq<A>, seq<B>), Error>)
    ensures r.Ok? <==> forall i :: 0 <= i < |xs| ==> f(xs[i]).Ok?
    decreases |xs|
  {
    if xs == [] then Ok(([], []))
    else
      assert forall i :: 1 <= i < |xs| ==> xs[1..][i - 1] == xs[i];
      var first := f(xs[0]);
      var rest := ConcatAll(xs[1..], f);
      if first.Err? then first
      else if rest.Err? then rest
      else Ok((first.value.0 + rest.value.0, first.value.1 + rest.value.1))
  }

  /** Running over two groups of documents is running over each and
      concatenating the lists. */
  lemma {:induction false} ConcatAllAppend<X, A, B>(xs: seq<X>, ys: seq<X>, f: X -> Result<(seq<A>, seq<B>), Error>)
    requires ConcatAll(xs + ys, f).Ok?
    ensures ConcatAll(xs, f).Ok? && ConcatAll(ys, f).Ok?
    ensures ConcatAll(xs + ys, f).value ==
      (ConcatAll(xs, f).value.0 + ConcatAll(ys, f).value.0,
       ConcatAll(xs, f).value.1 + ConcatAll(ys, f).value.1)
    decreases |xs|
  {
    if xs == [] {
      assert xs + ys == ys;
      var t := ConcatAll(ys, f).value;
      assert [] + t.0 == t.0 && [] + t.1 == t.1;
    } else {
      var zs := xs + ys;
      assert zs != [] && zs[0] == xs[0] && zs[1..] == xs[1..] + ys;
      assert f(xs[0]).Ok? && ConcatAll(zs[1..], f).Ok?;
      ConcatAllAppend(xs[1..], ys, f);
      var first := f(xs[0]).value;
      var mid, tail := ConcatAll(xs[1..], f).value, ConcatAll(ys, f).value;
      assert ConcatAll(xs + ys, f).value == (first.0 + (mid.0 + tail.0), first.1 + (mid.1 + tail.1));
      assert ConcatAll(xs, f).value == (first.0 + mid.0, first.1 + mid.1);
      assert first.0 + (mid.0 + tail.0) == (first.0 + mid.0) + tail.0;
      assert first.1 + (mid.1 + tail.1) == (first.1 + mid.1) + tail.1;
    }
  }

  /** The loop over files in `ingest`. */
  function Canonicalise(files: seq<Json>, md5: string -> string): (r: Result<(seq<CanonEntity>, seq<CanonRel>), Error>)
    ensures r.Ok? <==> forall i :: 0 <= i < |files| ==> CanonicaliseFile(files[i], md5).Ok?
  {
    ConcatAll(files, data => CanonicaliseFile(data, md5))
  }

  /** `chunked(it, size)`'s effective batch length: a size below 1 still
      closes a batch after every item. */
  function BatchLimit(size: int): (n: nat)
    ensures n >= 1 && (size >= 1 ==> n == size)
  {
    if size < 1 then 1 else size
  }

  /** `chunked`: fills a buffer item by item, emits it once it reaches `size`
      and emits the rest, if any, at the end. */
  method Chunked<T>(xs: seq<T>, size: int) returns (batches: seq<seq<T>>)
    ensures batches == Groups(xs, BatchLimit(size))
    ensures forall i :: 0 <= i < |batches| ==> 0 < |batches[i]| <= BatchLimit(size)
    ensures forall i :: 0 <= i < |batches| - 1 ==> |batches[i]| == BatchLimit(size)
    ensures Flatten(batches) == xs
    ensures batches == [] <==> xs == []
  {
    var n := BatchLimit(size);
    var buf: seq<T> := [];
    batches := [];
    var i := 0;
    while i < |xs|
      invariant 0 <= i <= |xs|
      invariant |buf| < n
      invariant forall j :: 0 <= j < |batches| ==> |batches[j]| == n
      invariant Flatten(batches) + buf == xs[..i]
    {
      assert xs[..i + 1] == xs[..i] + [xs[i]];
      buf := buf + [xs[i]];
      if |buf| >= size {
        FlattenSnoc(batches, buf);
        batches := batches + [buf];
        buf := [];
      }
      i := i + 1;
    }
    assert xs[..i] == xs;
    GroupsAfterFull(batches, buf, n);
    if buf != [] {
      FlattenSnoc(batches, buf);
      batches := batches + [buf];
    } else {
      assert batches + [] == batches;
    }
    GroupsFlatten(xs, n);
    GroupsCount(xs, n);
  }

  /** `ingest` writes 500 rows per statement. */
  const BatchSize := 500

  /** What `ingest` sends: the canonical entities, then the canonical
      relationships, in batches of `BatchSize`. */
  function IngestBatches(files: seq<Json>, md5: string -> string): Result<(seq<seq<CanonEntity>>, seq<seq<CanonRel>>), Error> {
    match Canonicalise(files, md5)
    case Err(e) => Err(e)
    case Ok(all) => Ok((Groups(all.0, BatchSize), Groups(all.1, BatchSize)))
  }

  /** Every canonical row is sent exactly once, in order, in batches of at
      most `BatchSize` rows. */
  lemma IngestBatchesCover(files: seq<Json>, md5: string -> string)
    requires IngestBatches(files, md5).Ok?
    ensures Canonicalise(files, md5).Ok?
    ensures Flatten(IngestBatches(files, md5).value.0) == Canonicalise(files, md5).value.0
    ensures Flatten(IngestBatches(files, md5).value.1) == Canonicalise(files, md5).value.1
    ensures forall b :: b in IngestBatches(files, md5).value.0 ==> 0 < |b| <= BatchSize
    ensures forall b :: b in IngestBatches(files, md5).value.1 ==> 0 < |b| <= BatchSize
  {
    var all := Canonicalise(files, md5).value;
    GroupsFlatten(all.0, BatchSize);
    GroupsFlatten(all.1, BatchSize);
  }
}
