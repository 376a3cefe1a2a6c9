/** The extraction script gemini.py without its model calls: the input text
    is cut into chunks of words, each model response is unwrapped from its
    code fence and parsed, and the entities and relationships of all chunks
    of all files are merged, keeping the first item with each key. */
module Extraction {
  import opened Wrappers
  import opened Errors
  import opened Text
  import opened Json
  import opened Deduplication
  import opened Batches

  // ---------------------------------------------------------------------
  // chunck_text

  /** The default `chunck_size`. */
  const ChunkSize := 1000

  /** Groups of words are lists of words. */
  lemma {:induction false} GroupsAllWords(ws: seq<string>, n: nat)
    requires n > 0 && AllWords(ws)
    ensures forall i :: 0 <= i < |Groups(ws, n)| ==> AllWords(Groups(ws, n)[i])
    decreases |ws|
  {
    if |ws| > n {
      assert AllWords(ws[n..]) by {
        forall i | 0 <= i < |ws| - n ensures IsWord(ws[n..][i]) {
          assert ws[n..][i] == ws[n + i];
        }
      }
      assert AllWords(ws[..n]) by {
        forall i | 0 <= i < n ensures IsWord(ws[..n][i]) {
          assert ws[..n][i] == ws[i];
        }
      }
      GroupsAllWords(ws[n..], n);
      var rest := Groups(ws[n..], n);
      var gs := Groups(ws, n);
      assert forall i :: 1 <= i < |gs| ==> gs[i] == rest[i - 1];
    }
  }

  /** `' '.join(g)` for each group. */
  function JoinEach(gs: seq<seq<string>>): (cs: seq<string>)
    ensures |cs| == |gs|
    ensures forall i :: 0 <= i < |gs| ==> cs[i] == Join(" ", gs[i])
  {
    if gs == [] then [] else [Join(" ", gs[0])] + JoinEach(gs[1..])
  }

  /** `c.split()` for each chunk. */
  function SplitEach(cs: seq<string>): (ws: seq<seq<string>>)
    ensures |ws| == |cs|
    ensures forall i :: 0 <= i < |cs| ==> ws[i] == Split(cs[i])
  {
    if cs == [] then [] else [Split(cs[0])] + SplitEach(cs[1..])
  }

  /** `chunck_text(text, size)`. A step of zero raises `ValueError` in
      `range`; a negative step yields no chunk. Otherwise every chunk holds
      between one and `size` words, all but the last exactly `size`, their
      number is the word count divided by `size` rounded up, and splitting the
      chunks again gives back the words of `text` in order. */
  method ChunkText(text: string, size: int) returns (r: Result<seq<string>, Error>)
    ensures r.Err? <==> size == 0
    ensures size < 0 ==> r == Ok([])
    ensures size > 0 ==> r.Ok? && r.value == JoinEach(Groups(Split(text), size))
    ensures size > 0 ==> Flatten(SplitEach(r.value)) == Split(text)
    ensures size > 0 ==> forall k :: 0 <= k < |r.value| ==> 0 < |Split(r.value[k])| <= size
    ensures size > 0 ==> forall k :: 0 <= k < |r.value| - 1 ==> |Split(r.value[k])| == size
    ensures size > 0 ==> |r.value| == (|Split(text)| + size - 1) / size
  {
    if size == 0 {
      return Err(ValueError("range() arg 3 must not be zero"));
    }
    var words := Split(text);
    if size < 0 {
      return Ok([]);
    }
    var chunks := JoinRuns(words, size);
    ChunksOfWords(words, size);
    return Ok(chunks);
  }

  /** The loop of `chunck_text`: `' '.join(words[i:i + n])` for `i` in
      `range(0, len(words), n)`. */
  method JoinRuns(words: seq<string>, n: nat) returns (chunks: seq<string>)
    requires n > 0
    ensures chunks == JoinEach(Groups(words, n))
  {
    chunks := [];
    var i: nat := 0;
    ChunksFromStart(words, n);
    while i < |words|
      invariant chunks + ChunksFrom(words, i, n) == JoinEach(Groups(words, n))
      decreases |words| - i
    {
      var end := if i + n <= |words| then i + n else |words|;
      var chunk := Join(" ", words[i..end]);
      ChunkStep(words, i, end, n, chunks, chunk);
      chunks := chunks + [chunk];
      i := i + n;
    }
    ChunksFromEnd(words, i, n, chunks);
  }

  /** The chunks the loop still has to produce from word `i` on. */
  function ChunksFrom(words: seq<string>, i: nat, n: nat): seq<string>
    requires n > 0
  {
    if i >= |words| then [] else JoinEach(Groups(words[i..], n))
  }

  lemma ChunksFromStart(words: seq<string>, n: nat)
    requires n > 0
    ensures [] + ChunksFrom(words, 0, n) == JoinEach(Groups(words, n))
  {
    assert words[0..] == words;
  }

  lemma ChunksFromEnd(words: seq<string>, i: nat, n: nat, done: seq<string>)
    requires n > 0 && i >= |words|
    ensures done + ChunksFrom(words, i, n) == done
  {
  }

  /** One turn of the loop takes the next group. */
  lemma ChunkStep(words: seq<string>, i: nat, end: nat, n: nat, done: seq<string>, chunk: string)
    requires n > 0 && i < |words| && end == (if i + n <= |words| then i + n else |words|)
    requires chunk == Join(" ", words[i..end])
    requires done + ChunksFrom(words, i, n) == JoinEach(Groups(words, n))
    ensures (done + [chunk]) + ChunksFrom(words, i + n, n) == JoinEach(Groups(words, n))
  {
    ChunkNext(words, i, n);
    assert done + ([chunk] + ChunksFrom(words, i + n, n)) == (done + [chunk]) + ChunksFrom(words, i + n, n);
  }

  lemma ChunkNext(words: seq<string>, i: nat, n: nat)
    requires n > 0 && i < |words|
    ensures ChunksFrom(words, i, n) ==
              [Join(" ", words[i..if i + n <= |words| then i + n else |words|])] + ChunksFrom(words, i + n, n)
  {
    var rest := words[i..];
    if |rest| <= n {
      assert Groups(rest, n) == [rest];
      assert JoinEach([rest]) == [Join(" ", rest)];
      assert words[i..if i + n <= |words| then i + n else |words|] == rest;
      assert ChunksFrom(words, i + n, n) == [] by {
        if i + n == |words| {
          assert Groups(words[i + n..], n) == [];
        }
      }
    } else {
      GroupsCons(rest, n);
      assert rest[..n] == words[i..i + n];
      assert rest[n..] == words[i + n..];
      assert ([rest[..n]] + Groups(rest[n..], n))[1..] == Groups(rest[n..], n);
    }
  }

  /** The chunk properties, stated on the groups of the words. */
  lemma ChunksOfWords(words: seq<string>, size: nat)
    requires size > 0 && AllWords(words)
    ensures var cs := JoinEach(Groups(words, size));
            && Flatten(SplitEach(cs)) == words
            && (forall k :: 0 <= k < |cs| ==> 0 < |Split(cs[k])| <= size)
            && (forall k :: 0 <= k < |cs| - 1 ==> |Split(cs[k])| == size)
            && |cs| == (|words| + size - 1) / size
  {
    GroupsFlatten(words, size);
    GroupsCount(words, size);
    ChunksSplitBack(words, size);
  }

  /** Each chunk splits back into its group, because the group's words hold no
      whitespace. */
  lemma ChunksSplitBack(words: seq<string>, size: nat)
    requires size > 0 && AllWords(words)
    ensures SplitEach(JoinEach(Groups(words, size))) == Groups(words, size)
  {
    var gs := Groups(words, size);
    GroupsAllWords(words, size);
    forall i | 0 <= i < |gs| ensures Split(Join(" ", gs[i])) == gs[i] {
      SplitJoin(' ', gs[i]);
    }
  }

  // ---------------------------------------------------------------------
  // Unwrapping a response

  const JsonFence := "```json"
  const Fence := "```"

  /** Drops one leading "```json" and strips again. */
  function OpenFence(s: string): (r: string)
    requires IsStripped(s)
    ensures IsStripped(r)
    ensures !StartsWith(s, JsonFence) ==> r == s
  {
    if StartsWith(s, JsonFence) then Strip(s[|JsonFence|..]) else s
  }

  /** Drops one trailing "```" and strips again. */
  function CloseFence(s: string): (r: string)
    requires IsStripped(s)
    ensures IsStripped(r)
    ensures !EndsWith(s, Fence) ==> r == s
  {
    if EndsWith(s, Fence) then Strip(s[..|s| - |Fence|]) else s
  }

  /** The unwrapping of `response.text`: strip, drop one leading "```json" and
      strip, drop one trailing "```" and strip. The result never has
      whitespace at either end, and a reply without fences is only stripped. */
  function StripFences(response: string): (r: string)
    ensures IsStripped(r)
    ensures !StartsWith(Strip(response), JsonFence) && !EndsWith(Strip(response), Fence) ==> r == Strip(response)
  {
    CloseFence(OpenFence(Strip(response)))
  }

  lemma OpenFenceOf(b: string, x: string, c: string)
    requires IsStripped(x) && AllSpace(b) && AllSpace(c)
    ensures OpenFence(JsonFence + b + x + c + Fence) == if x == [] then Fence else x + c + Fence
  {
    var core := JsonFence + b + x + c + Fence;
    assert JsonFence <= core;
    assert core[|JsonFence|..] == b + x + (c + Fence);
    if x == [] {
      assert b + x + (c + Fence) == (b + c) + Fence + [];
      StripPadded(b + c, Fence, []);
    } else {
      assert b + x + (c + Fence) == b + (x + c + Fence) + [];
      StripPadded(b, x + c + Fence, []);
    }
  }

  lemma CloseFenceOf(x: string, c: string)
    requires IsStripped(x) && AllSpace(c)
    ensures CloseFence(if x == [] then Fence else x + c + Fence) == x
  {
    if x == [] {
      StripPadded([], [], []);
    } else {
      var s := x + c + Fence;
      assert s[..|s| - |Fence|] == [] + x + c;
      StripPadded([], x, c);
    }
  }

  /** A fenced reply, with any whitespace around and inside the fences, is
      unwrapped to exactly its stripped content. */
  lemma FenceRoundTrip(x: string, a: string, b: string, c: string, d: string)
    requires IsStripped(x) && AllSpace(a) && AllSpace(b) && AllSpace(c) && AllSpace(d)
    ensures StripFences(a + JsonFence + b + x + c + Fence + d) == x
  {
    var core := JsonFence + b + x + c + Fence;
    assert a + JsonFence + b + x + c + Fence + d == a + core + d;
    StripPadded(a, core, d);
    OpenFenceOf(b, x, c);
    CloseFenceOf(x, c);
  }

  /** A leading "```" without "json" is kept. */
  lemma {:induction false} BareFenceKept(x: string)
    requires x != [] && IsStripped(x) && x[|x| - 1] != '`'
    ensures StripFences(Fence + "\n" + x) == Fence + "\n" + x
  {
    var s := Fence + "\n" + x;
    assert !StartsWith(s, JsonFence) by {
      assert s[3] == '\n' && JsonFence[3] == 'j';
    }
    assert !EndsWith(s, Fence) by {
      assert s[|s| - 1] != Fence[2];
    }
    assert s[0] == '`' && s[|s| - 1] == x[|x| - 1];
    assert [] + s + [] == s;
    StripPadded([], s, []);
  }

  /** Only one opening "```json" is removed. */
  lemma {:induction false} OneOpeningFenceDropped(x: string)
    requires x != [] && IsStripped(x) && x[|x| - 1] != '`'
    ensures StripFences(JsonFence + " " + JsonFence + " " + x) == JsonFence + " " + x
  {
    var t := JsonFence + " " + x;
    var s := JsonFence + " " + t;
    assert JsonFence + " " + JsonFence + " " + x == s;
    assert !EndsWith(t, Fence) by {
      assert t[|t| - 1] != Fence[2];
    }
    assert IsStripped(s) && IsStripped(t) by {
      assert s[0] == '`' && s[|s| - 1] == x[|x| - 1] && t[0] == '`' && t[|t| - 1] == x[|x| - 1];
    }
    assert JsonFence <= s;
    assert s[|JsonFence|..] == " " + t + [];
    assert [] + s + [] == s;
    assert AllSpace(" ") by {
      assert forall i :: 0 <= i < |" "| ==> " "[i] == ' ';
    }
    StripPadded([], s, []);
    StripPadded(" ", t, []);
  }

  // ---------------------------------------------------------------------
  // Merging the parsed responses

  type EntityKey = (Json, Json, Json)
  type RelationshipKey = (Json, Json, Json, Json)

  /** `(entity.get("id"), entity.get("name"), entity.get("type"))`, each part
      as the set compares it (`HashKey`). */
  function EntityKeyOf(e: Json): EntityKey {
    if e.JObj? then (HashKey(Get(e.fields, "id")), HashKey(Get(e.fields, "name")), HashKey(Get(e.fields, "type")))
    else (JNull, JNull, JNull)
  }

  /** `(rel.get("head"), rel.get("tail"), rel.get("type"), rel.get("evidence"))`,
      each part as the set compares it (`HashKey`). */
  function RelationshipKeyOf(r: Json): RelationshipKey {
    if r.JObj? then
      (HashKey(Get(r.fields, "head")), HashKey(Get(r.fields, "tail")),
       HashKey(Get(r.fields, "type")), HashKey(Get(r.fields, "evidence")))
    else (JNull, JNull, JNull, JNull)
  }

  /** Computing the key of an item and looking it up in the seen-set raises
      on an item that is not a dict and on a key with a list or dict part. */
  function CheckEntity(e: Json): (r: Result<Json, Error>)
    ensures r.Ok? <==> e.JObj? && Hashable(EntityKeyOf(e).0) && Hashable(EntityKeyOf(e).1) && Hashable(EntityKeyOf(e).2)
  {
    if !e.JObj? then Err(AttributeError("get"))
    else
      var k := EntityKeyOf(e);
      if Hashable(k.0) && Hashable(k.1) && Hashable(k.2) then Ok(e) else Err(TypeError("unhashable type"))
  }

  function CheckRelationship(rel: Json): (r: Result<Json, Error>)
    ensures r.Ok? <==> rel.JObj? && Hashable(RelationshipKeyOf(rel).0) && Hashable(RelationshipKeyOf(rel).1)
                       && Hashable(RelationshipKeyOf(rel).2) && Hashable(RelationshipKeyOf(rel).3)
  {
    if !rel.JObj? then Err(AttributeError("get"))
    else
      var k := RelationshipKeyOf(rel);
      if Hashable(k.0) && Hashable(k.1) && Hashable(k.2) && Hashable(k.3) then Ok(rel) else Err(TypeError("unhashable type"))
  }

  /** `data.get(k, [])`, iterated; `data` must be a dict. */
  function Items(data: Json, k: string): (r: Result<seq<Json>, Error>)
    ensures r.Ok? ==> data.JObj?
    ensures data.JObj? && !HasKey(data.fields, k) ==> r == Ok([])
  {
    if !data.JObj? then Err(AttributeError("get")) else Iterate(GetOr(data.fields, k, JList([])))
  }

  /** A parsed reply the merge loops get through without raising: both
      `data.get(k, [])` values iterate, and every item is a dict whose key
      tuple is hashable. */
  predicate ReplyAccepted(data: Json) {
    && Items(data, "entities").Ok?
    && (forall i :: 0 <= i < |Items(data, "entities").value| ==> CheckEntity(Items(data, "entities").value[i]).Ok?)
    && Items(data, "relationships").Ok?
    && (forall i :: 0 <= i < |Items(data, "relationships").value| ==>
          CheckRelationship(Items(data, "relationships").value[i]).Ok?)
  }

  /** The two merge loops of one parsed reply, up to the first exception:
      the entities are checked, then the relationships. */
  function CheckReply(data: Json): (r: Result<(seq<Json>, seq<Json>), Error>)
    ensures r.Ok? <==> ReplyAccepted(data)
    ensures r.Ok? ==> r.value == (Items(data, "entities").value, Items(data, "relationships").value)
  {
    match Items(data, "entities")
    case Err(e) => Err(e)
    case Ok(ents) =>
      match Traverse(ents, CheckEntity)
      case Err(e) => Err(e)
      case Ok(_) =>
        match Items(data, "relationships")
        case Err(e) => Err(e)
        case Ok(rels) =>
          match Traverse(rels, CheckRelationship)
          case Err(e) => Err(e)
          case Ok(_) => Ok((ents, rels))
  }

  /** The `combined` dict and the two seen-sets of the script. The
      `raw_responses` list is absent until a response fails to parse. */
  datatype Combined = Combined(
    entities: seq<Json>,
    relationships: seq<Json>,
    seenEntities: set<EntityKey>,
    seenRelationships: set<RelationshipKey>,
    rawResponses: Option<seq<string>>)

  const Initial := Combined([], [], {}, {}, None)

  /** The seen-sets hold exactly the keys of the combined lists, and no key
      occurs twice in a list. */
  predicate Valid(c: Combined) {
    && DistinctKeys(c.entities, EntityKeyOf)
    && DistinctKeys(c.relationships, RelationshipKeyOf)
    && c.seenEntities == KeySet(c.entities, EntityKeyOf)
    && c.seenRelationships == KeySet(c.relationships, RelationshipKeyOf)
  }

  /** The items of kind `k` in a response that parses; none otherwise. */
  function ParsedItems(response: string, parse: string -> Option<Json>, k: string): seq<Json> {
    match parse(StripFences(response))
    case None => []
    case Some(data) => if Items(data, k).Ok? then Items(data, k).value else []
  }

  /** Append the entities, then the relationships, whose key is not yet in
      the seen-sets, and record every key offered. */
  function Merge(c: Combined, ents: seq<Json>, rels: seq<Json>): (r: Combined)
    ensures r.entities == c.entities + Dedup(c.seenEntities, ents, EntityKeyOf)
    ensures r.relationships == c.relationships + Dedup(c.seenRelationships, rels, RelationshipKeyOf)
    ensures r.seenEntities == c.seenEntities + KeySet(ents, EntityKeyOf)
    ensures r.seenRelationships == c.seenRelationships + KeySet(rels, RelationshipKeyOf)
    ensures r.rawResponses == c.rawResponses
  {
    var newEntities := Dedup(c.seenEntities, ents, EntityKeyOf);
    var newRelationships := Dedup(c.seenRelationships, rels, RelationshipKeyOf);
    Combined(
      c.entities + newEntities,
      c.relationships + newRelationships,
      c.seenEntities + KeySet(newEntities, EntityKeyOf),
      c.seenRelationships + KeySet(newRelationships, RelationshipKeyOf),
      c.rawResponses)
  }

  /** One response: unwrap it; when it does not parse, keep its text under
      `raw_responses`; otherwise merge its entities and relationships. */
  function AddResponse(c: Combined, response: string, parse: string -> Option<Json>): (r: Result<Combined, Error>)
    ensures parse(StripFences(response)).None? ==>
              r.Ok? && r.value.entities == c.entities && r.value.relationships == c.relationships
              && r.value.seenEntities == c.seenEntities && r.value.seenRelationships == c.seenRelationships
              && r.value.rawResponses == Some(c.rawResponses.GetOr([]) + [StripFences(response)])
    ensures parse(StripFences(response)).Some? ==>
              (r.Ok? <==> CheckReply(parse(StripFences(response)).value).Ok?)
    ensures r.Ok? && parse(StripFences(response)).Some? ==>
              var items := CheckReply(parse(StripFences(response)).value).value;
              r.value == Merge(c, items.0, items.1)
  {
    var cleaned := StripFences(response);
    match parse(cleaned)
    case None => Ok(c.(rawResponses := Some(c.rawResponses.GetOr([]) + [cleaned])))
    case Some(data) =>
      match CheckReply(data)
      case Err(e) => Err(e)
      case Ok(items) => Ok(Merge(c, items.0, items.1))
  }

  /** The items of an accepted reply are the ones the merge loops went through. */
  lemma ParsedItemsAccepted(response: string, parse: string -> Option<Json>)
    requires parse(StripFences(response)).Some? && CheckReply(parse(StripFences(response)).value).Ok?
    ensures var items := CheckReply(parse(StripFences(response)).value).value;
            ParsedItems(response, parse, "entities") == items.0
            && ParsedItems(response, parse, "relationships") == items.1
  {
  }

  /** A parsed reply is merged exactly when the merge loops get through it
      without raising. */
  lemma AddResponseAccepted(c: Combined, response: string, parse: string -> Option<Json>)
    requires parse(StripFences(response)).Some?
    ensures AddResponse(c, response, parse).Ok? <==> ReplyAccepted(parse(StripFences(response)).value)
  {
  }

  lemma {:induction false} DistinctAppend<T, K>(xs: seq<T>, ys: seq<T>, key: T -> K)
    requires DistinctKeys(xs, key) && DistinctKeys(ys, key)
    requires forall j :: 0 <= j < |ys| ==> key(ys[j]) !in KeySet(xs, key)
    ensures DistinctKeys(xs + ys, key)
  {
    var zs := xs + ys;
    forall i, j | 0 <= i < j < |zs| ensures key(zs[i]) != key(zs[j]) {
      if j >= |xs| && i < |xs| {
        assert zs[j] == ys[j - |xs|];
        assert key(zs[i]) in KeySet(xs, key);
      } else if i >= |xs| {
        assert zs[i] == ys[i - |xs|] && zs[j] == ys[j - |xs|];
      }
    }
  }

  /** Every response keeps the combined lists free of repeated keys. */
  lemma AddResponseValid(c: Combined, response: string, parse: string -> Option<Json>)
    requires Valid(c) && AddResponse(c, response, parse).Ok?
    ensures Valid(AddResponse(c, response, parse).value)
  {
    var r := AddResponse(c, response, parse).value;
    if parse(StripFences(response)).Some? {
      ParsedItemsAccepted(response, parse);
      var ne := Dedup(c.seenEntities, ParsedItems(response, parse, "entities"), EntityKeyOf);
      var nr := Dedup(c.seenRelationships, ParsedItems(response, parse, "relationships"), RelationshipKeyOf);
      DistinctAppend(c.entities, ne, EntityKeyOf);
      DistinctAppend(c.relationships, nr, RelationshipKeyOf);
      KeySetConcat(c.entities, ne, EntityKeyOf);
      KeySetConcat(c.relationships, nr, RelationshipKeyOf);
    }
  }

  /** A reply that does not parse offers no item. */
  lemma UnparsedAddsNothing(response: string, parse: string -> Option<Json>)
    requires parse(StripFences(response)).None?
    ensures ParsedItems(response, parse, "entities") == [] && ParsedItems(response, parse, "relationships") == []
  {
  }

  /** An accepted reply that parses is merged item for item. */
  lemma ParsedMerges(c: Combined, response: string, parse: string -> Option<Json>)
    requires parse(StripFences(response)).Some? && AddResponse(c, response, parse).Ok?
    ensures AddResponse(c, response, parse).value ==
              Merge(c, ParsedItems(response, parse, "entities"), ParsedItems(response, parse, "relationships"))
  {
    ParsedItemsAccepted(response, parse);
  }

  /** Merging no items changes nothing. */
  lemma MergeNothing(c: Combined)
    ensures Merge(c, [], []) == c
  {
    DedupEmpty(c.seenEntities, EntityKeyOf);
    DedupEmpty(c.seenRelationships, RelationshipKeyOf);
    assert c.entities + [] == c.entities && c.relationships + [] == c.relationships;
  }

  /** A reply that does not parse leaves the lists and seen-sets as merging
      no items would. */
  lemma UnparsedMerges(c: Combined, response: string, parse: string -> Option<Json>)
    requires parse(StripFences(response)).None?
    ensures var r := AddResponse(c, response, parse).value;
            var m := Merge(c, ParsedItems(response, parse, "entities"), ParsedItems(response, parse, "relationships"));
            r.entities == m.entities && r.relationships == m.relationships
            && r.seenEntities == m.seenEntities && r.seenRelationships == m.seenRelationships
  {
    UnparsedAddsNothing(response, parse);
    MergeNothing(c);
  }

  /** Every accepted reply changes the lists and seen-sets as merging its
      parsed items does. */
  lemma AddResponseMerges(c: Combined, response: string, parse: string -> Option<Json>)
    requires AddResponse(c, response, parse).Ok?
    ensures var r := AddResponse(c, response, parse).value;
            var m := Merge(c, ParsedItems(response, parse, "entities"), ParsedItems(response, parse, "relationships"));
            r.entities == m.entities && r.relationships == m.relationships
            && r.seenEntities == m.seenEntities && r.seenRelationships == m.seenRelationships
  {
    if parse(StripFences(response)).None? {
      UnparsedMerges(c, response, parse);
    } else {
      ParsedMerges(c, response, parse);
    }
  }

  /** What one response adds to the entity list and its seen-set. */
  lemma AddResponseEntities(c: Combined, response: string, parse: string -> Option<Json>)
    requires AddResponse(c, response, parse).Ok?
    ensures AddResponse(c, response, parse).value.entities ==
              c.entities + Dedup(c.seenEntities, ParsedItems(response, parse, "entities"), EntityKeyOf)
    ensures AddResponse(c, response, parse).value.seenEntities ==
              c.seenEntities + KeySet(ParsedItems(response, parse, "entities"), EntityKeyOf)
  {
    AddResponseMerges(c, response, parse);
  }

  /** What one response adds to the relationship list and its seen-set. */
  lemma AddResponseRelationships(c: Combined, response: string, parse: string -> Option<Json>)
    requires AddResponse(c, response, parse).Ok?
    ensures AddResponse(c, response, parse).value.relationships ==
              c.relationships + Dedup(c.seenRelationships, ParsedItems(response, parse, "relationships"), RelationshipKeyOf)
    ensures AddResponse(c, response, parse).value.seenRelationships ==
              c.seenRelationships + KeySet(ParsedItems(response, parse, "relationships"), RelationshipKeyOf)
  {
    AddResponseMerges(c, response, parse);
  }

  /** The responses in order; the first exception ends the script. */
  function AddResponses(c: Combined, responses: seq<string>, parse: string -> Option<Json>): Result<Combined, Error>
    decreases |responses|
  {
    if responses == [] then Ok(c)
    else
      match AddResponse(c, responses[0], parse)
      case Err(e) => Err(e)
      case Ok(c1) => AddResponses(c1, responses[1..], parse)
  }

  /** All items of kind `k` of the responses, in order. */
  function AllParsedItems(responses: seq<string>, parse: string -> Option<Json>, k: string): seq<Json>
    decreases |responses|
  {
    if responses == [] then [] else ParsedItems(responses[0], parse, k) + AllParsedItems(responses[1..], parse, k)
  }

  /** One step of the fold over the responses. */
  lemma AddResponsesUnfold(c: Combined, responses: seq<string>, parse: string -> Option<Json>, k: string)
    requires responses != [] && AddResponses(c, responses, parse).Ok?
    ensures AddResponse(c, responses[0], parse).Ok?
    ensures AddResponses(c, responses, parse) == AddResponses(AddResponse(c, responses[0], parse).value, responses[1..], parse)
    ensures AllParsedItems(responses, parse, k) == ParsedItems(responses[0], parse, k) + AllParsedItems(responses[1..], parse, k)
  {
  }

  /** Appending the new items of `xs`, then those of `ys`, is appending the
      new items of `xs + ys`. */
  lemma DedupAfter<K>(a: seq<Json>, seen: set<K>, xs: seq<Json>, ys: seq<Json>, key: Json -> K)
    ensures (a + Dedup(seen, xs, key)) + Dedup(seen + KeySet(xs, key), ys, key) == a + Dedup(seen, xs + ys, key)
  {
    DedupConcat(seen, xs, ys, key);
  }

  /** Merging response after response with the shared seen-set is one
      deduplication over the entities of every response: the first entity
      with each key is kept, in order, across all chunks and files. */
  lemma {:induction false} AddResponsesEntities(c: Combined, responses: seq<string>, parse: string -> Option<Json>)
    requires AddResponses(c, responses, parse).Ok?
    ensures AddResponses(c, responses, parse).value.entities ==
              c.entities + Dedup(c.seenEntities, AllParsedItems(responses, parse, "entities"), EntityKeyOf)
    decreases |responses|
  {
    if responses != [] {
      AddResponsesUnfold(c, responses, parse, "entities");
      var c1 := AddResponse(c, responses[0], parse).value;
      AddResponsesEntities(c1, responses[1..], parse);
      AddResponseEntities(c, responses[0], parse);
      DedupAfter(c.entities, c.seenEntities, ParsedItems(responses[0], parse, "entities"),
                 AllParsedItems(responses[1..], parse, "entities"), EntityKeyOf);
    }
  }

  /** The same for relationships. */
  lemma {:induction false} AddResponsesRelationships(c: Combined, responses: seq<string>, parse: string -> Option<Json>)
    requires AddResponses(c, responses, parse).Ok?
    ensures AddResponses(c, responses, parse).value.relationships ==
              c.relationships + Dedup(c.seenRelationships, AllParsedItems(responses, parse, "relationships"), RelationshipKeyOf)
    decreases |responses|
  {
    if responses != [] {
      AddResponsesUnfold(c, responses, parse, "relationships");
      var c1 := AddResponse(c, responses[0], parse).value;
      AddResponsesRelationships(c1, responses[1..], parse);
      AddResponseRelationships(c, responses[0], parse);
      DedupAfter(c.relationships, c.seenRelationships, ParsedItems(responses[0], parse, "relationships"),
                 AllParsedItems(responses[1..], parse, "relationships"), RelationshipKeyOf);
    }
  }

  lemma {:induction false} AddResponsesValid(c: Combined, responses: seq<string>, parse: string -> Option<Json>)
    requires Valid(c) && AddResponses(c, responses, parse).Ok?
    ensures Valid(AddResponses(c, responses, parse).value)
    decreases |responses|
  {
    if responses != [] {
      AddResponseValid(c, responses[0], parse);
      AddResponsesValid(AddResponse(c, responses[0], parse).value, responses[1..], parse);
    }
  }

  /** The model's reply to chunk `j` of file `i` (both counted from 1); the
      prompt around the chunk is fixed text. */
  type Respond = (nat, nat, string) -> string

  /** The responses to every chunk of the files from number `i` on. */
  function Responses(texts: seq<string>, respond: Respond, i: nat): seq<string>
    decreases |texts|
  {
    if texts == [] then []
    else
      var chunks := JoinEach(Groups(Split(texts[0]), ChunkSize));
      seq(|chunks|, j requires 0 <= j < |chunks| => respond(i, j + 1, chunks[j])) + Responses(texts[1..], respond, i + 1)
  }

  /** The script: every chunk of every file is sent to the model and its
      response merged into `combined`. */
  function CombineFiles(texts: seq<string>, respond: Respond, parse: string -> Option<Json>): Result<Combined, Error> {
    AddResponses(Initial, Responses(texts, respond, 1), parse)
  }

  /** The combined lists have pairwise distinct keys, and they are exactly the
      first item with each key over all responses, in order. */
  lemma CombineFilesDistinct(texts: seq<string>, respond: Respond, parse: string -> Option<Json>)
    requires CombineFiles(texts, respond, parse).Ok?
    ensures DistinctKeys(CombineFiles(texts, respond, parse).value.entities, EntityKeyOf)
    ensures DistinctKeys(CombineFiles(texts, respond, parse).value.relationships, RelationshipKeyOf)
    ensures CombineFiles(texts, respond, parse).value.entities ==
              Dedup({}, AllParsedItems(Responses(texts, respond, 1), parse, "entities"), EntityKeyOf)
    ensures CombineFiles(texts, respond, parse).value.relationships ==
              Dedup({}, AllParsedItems(Responses(texts, respond, 1), parse, "relationships"), RelationshipKeyOf)
  {
    var rs := Responses(texts, respond, 1);
    assert Valid(Initial);
    AddResponsesValid(Initial, rs, parse);
    AddResponsesEntities(Initial, rs, parse);
    AddResponsesRelationships(Initial, rs, parse);
  }

  /** Two entities that differ only in their `text` have the same key, so the
      second is dropped. */
  lemma TextDoesNotDistinguish(fs: Fields, t1: Json, t2: Json)
    requires !HasKey(fs, "text")
    ensures EntityKeyOf(JObj(fs + [("text", t1)])) == EntityKeyOf(JObj(fs + [("text", t2)]))
    ensures Dedup({}, [JObj(fs + [("text", t1)]), JObj(fs + [("text", t2)])], EntityKeyOf) == [JObj(fs + [("text", t1)])]
  {
    LookupConcat(fs, [("text", t1)], "id");
    LookupConcat(fs, [("text", t2)], "id");
    LookupConcat(fs, [("text", t1)], "name");
    LookupConcat(fs, [("text", t2)], "name");
    LookupConcat(fs, [("text", t1)], "type");
    LookupConcat(fs, [("text", t2)], "type");
    var xs := [JObj(fs + [("text", t1)]), JObj(fs + [("text", t2)])];
    assert xs[1..] == [xs[1]] && [xs[1]][1..] == [];
  }

  /** An entity with id `true` repeats one with id `1`: the set compares
      them as equal, so the second is dropped. */
  lemma BooleanIdRepeatsInteger()
    ensures Dedup({}, [JObj([("id", JInt(1))]), JObj([("id", JBool(true))])], EntityKeyOf) == [JObj([("id", JInt(1))])]
  {
    var xs := [JObj([("id", JInt(1))]), JObj([("id", JBool(true))])];
    LookupAt(xs[0].fields, 0);
    LookupAt(xs[1].fields, 0);
    assert EntityKeyOf(xs[0]) == EntityKeyOf(xs[1]);
    assert xs[1..] == [xs[1]] && [xs[1]][1..] == [];
  }
}
