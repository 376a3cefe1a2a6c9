/** JSON values as the Python scripts see them after `json.loads`, together
    with the handful of Python operations the scripts apply to them:
    truthiness, `dict.get`, the `a or b` fallback, hashability and `str()`. */
module Json {
  import opened Wrappers
  import opened Text
  import opened Errors

  /** A JSON object is an association list in insertion order, as a Python
      dict built by `json.loads` is. A dict holds each key once (`json.loads`
      keeps the last duplicate); `Lookup` reads the last binding of a key, as
      that dict would, but `Without` and the property lists built from a
      field list keep every binding, so a field list with a repeated key
      stands for more than one Python dict entry there. */
  datatype Json =
    | JNull
    | JBool(b: bool)
    | JInt(i: int)
    | JStr(s: string)
    | JList(items: seq<Json>)
    | JObj(fields: seq<(string, Json)>)

  type Fields = seq<(string, Json)>

  /** Python truthiness: None, False, 0, "", [] and {} are false. */
  predicate Truthy(j: Json) {
    match j
    case JNull => false
    case JBool(b) => b
    case JInt(i) => i != 0
    case JStr(s) => s != []
    case JList(xs) => xs != []
    case JObj(fs) => fs != []
  }

  /** Python `a or b`: `a` when truthy, otherwise `b` (whatever `b` is). */
  function Or(a: Json, b: Json): Json {
    if Truthy(a) then a else b
  }

  predicate HasKey(fs: Fields, k: string) {
    exists i :: 0 <= i < |fs| && fs[i].0 == k
  }

  /** The value stored under `k`. When a key repeats, the last pair wins, as
      it does for `json.loads` and for a Cypher map literal. */
  function Lookup(fs: Fields, k: string): (r: Option<Json>)
    ensures r.Some? <==> HasKey(fs, k)
  {
    if fs == [] then None
    else if fs[|fs| - 1].0 == k then Some(fs[|fs| - 1].1)
    else
      var init := fs[..|fs| - 1];
      assert forall i :: 0 <= i < |init| ==> init[i] == fs[i];
      Lookup(init, k)
  }

  /** A value found under `k` is the value of a pair with key `k`. */
  lemma {:induction false} LookupFound(fs: Fields, k: string)
    requires Lookup(fs, k).Some?
    ensures exists i :: 0 <= i < |fs| && fs[i] == (k, Lookup(fs, k).value)
  {
    if fs[|fs| - 1].0 != k {
      var init := fs[..|fs| - 1];
      LookupFound(init, k);
      var i :| 0 <= i < |init| && init[i] == (k, Lookup(init, k).value);
      assert fs[i] == init[i];
    }
  }

  /** When only the `i`th pair has its key, that pair's value is found. */
  lemma LookupAt(fs: Fields, i: nat)
    requires i < |fs|
    requires forall j :: 0 <= j < |fs| && j != i ==> fs[j].0 != fs[i].0
    ensures Lookup(fs, fs[i].0) == Some(fs[i].1)
  {
  }

  lemma {:induction false} LookupConcat(a: Fields, b: Fields, k: string)
    ensures Lookup(a + b, k) == if HasKey(b, k) then Lookup(b, k) else Lookup(a, k)
    decreases |b|
  {
    if b == [] {
      assert a + b == a;
    } else {
      assert (a + b)[..|a + b| - 1] == a + b[..|b| - 1];
      LookupConcat(a, b[..|b| - 1], k);
    }
  }

  lemma {:induction false} LookupWithout(fs: Fields, k: string, other: string)
    requires k != other
    ensures Lookup(Without(fs, other), k) == Lookup(fs, k)
    decreases |fs|
  {
    if fs == [] {
    } else {
      LookupWithout(fs[1..], k, other);
      assert fs == [fs[0]] + fs[1..];
      LookupConcat([fs[0]], fs[1..], k);
      if fs[0].0 != other {
        LookupConcat([fs[0]], Without(fs[1..], other), k);
      }
    }
  }

  /** `d.get(k)` */
  function Get(fs: Fields, k: string): Json {
    Lookup(fs, k).GetOr(JNull)
  }

  /** `d.get(k, default)` */
  function GetOr(fs: Fields, k: string, default: Json): Json {
    Lookup(fs, k).GetOr(default)
  }

  /** `{k2: v for k2, v in d.items() if k2 != k}` */
  function Without(fs: Fields, k: string): Fields {
    if fs == [] then []
    else if fs[0].0 == k then Without(fs[1..], k)
    else [fs[0]] + Without(fs[1..], k)
  }

  /** `m.get(k)` on a Neo4j property map. */
  function PropGet(m: map<string, Json>, k: string): Json {
    if k in m then m[k] else JNull
  }

  /** `for x in j`: a list yields its items, a dict its keys and a string its
      characters; anything else is not iterable. */
  function Iterate(j: Json): (r: Result<seq<Json>, Error>)
    ensures j.JList? ==> r == Ok(j.items)
    ensures r.Ok? <==> j.JList? || j.JObj? || j.JStr?
    ensures j.JObj? ==> r.Ok? && |r.value| == |j.fields| && forall i :: 0 <= i < |j.fields| ==> r.value[i] == JStr(j.fields[i].0)
    ensures j.JStr? ==> r.Ok? && |r.value| == |j.s| && forall i :: 0 <= i < |j.s| ==> r.value[i] == JStr([j.s[i]])
  {
    match j
    case JList(xs) => Ok(xs)
    case JObj(fs) => Ok(seq(|fs|, i requires 0 <= i < |fs| => JStr(fs[i].0)))
    case JStr(s) => Ok(seq(|s|, i requires 0 <= i < |s| => JStr([s[i]])))
    case _ => Err(TypeError("object is not iterable"))
  }

  /** Lists and dicts cannot be dict keys or set members. */
  predicate Hashable(j: Json) {
    !j.JList? && !j.JObj?
  }

  /** The value a hashable dict key or set member stands for: Python has
      `True == 1` and `False == 0` with equal hashes, so a dict or a set
      cannot tell a boolean from its integer. */
  function HashKey(j: Json): (r: Json)
    ensures !r.JBool? && r.JList? == j.JList? && r.JObj? == j.JObj?
  {
    match j
    case JBool(b) => JInt(if b then 1 else 0)
    case _ => j
  }

  /** Two values are the same key exactly when they are equal or one is a
      boolean and the other its integer. */
  lemma HashKeySame(a: Json, b: Json)
    ensures HashKey(a) == HashKey(b) <==>
              a == b
              || (a.JBool? && b == JInt(if a.b then 1 else 0))
              || (b.JBool? && a == JInt(if b.b then 1 else 0))
  {
  }

  function DigitChar(d: nat): char
    requires d < 10
  {
    "0123456789"[d]
  }

  function NatToString(n: nat): string
    decreases n
  {
    if n < 10 then [DigitChar(n)] else NatToString(n / 10) + [DigitChar(n % 10)]
  }

  function IntToString(i: int): string {
    if i < 0 then "-" + NatToString(-i) else NatToString(i)
  }

  /** Python `str(j)` (or `repr(j)` when `quoted`, for items inside a list or dict). */
  function Render(j: Json, quoted: bool): string
    decreases j
  {
    match j
    case JNull => "None"
    case JBool(b) => if b then "True" else "False"
    case JInt(i) => IntToString(i)
    case JStr(s) => if quoted then "'" + s + "'" else s
    case JList(xs) =>
      "[" + Join(", ", seq(|xs|, k requires 0 <= k < |xs| => Render(xs[k], true))) + "]"
    case JObj(fs) =>
      "{" + Join(", ", seq(|fs|, k requires 0 <= k < |fs| =>
                             "'" + fs[k].0 + "': " + Render(fs[k].1, true))) + "}"
  }

  /** Python `str(j)`. */
  function Str(j: Json): string {
    Render(j, false)
  }
}
