/** The values `JSON.parse` produces, property reads on them, and the one
    kind of write the script makes (`parts[0] = rewritten`). Parsing and
    printing themselves are not modelled here: callers receive them as
    function parameters. */
module Json {
  import opened Wrappers
  import opened Decimal

  /** A parsed JSON value. An object's entries are listed in JavaScript's
      property enumeration order (the order `Object.entries` reports), with
      distinct keys. A number is kept as the decimal text that denotes it. */
  datatype Json =
    | JNull
    | JBool(b: bool)
    | JNumber(literal: string)
    | JString(s: string)
    | JArray(items: seq<Json>)
    | JObject(entries: seq<Entry>)

  datatype Entry = Entry(key: string, value: Json)

  /** `typeof v === 'object' && v !== null`: an object or an array. */
  predicate IsObject(v: Json) {
    v.JObject? || v.JArray?
  }

  /** The value of the first entry with key `key`. */
  function Field(es: seq<Entry>, key: string): (r: Option<Json>)
    ensures r.Some? <==> exists i :: 0 <= i < |es| && es[i].key == key
  {
    if es == [] then None
    else if es[0].key == key then Some(es[0].value)
    else Field(es[1..], key)
  }

  /** The property read `v[key]` (also `v.key`), with `undefined` as None.
      Objects answer their own entries, arrays and strings their canonical
      indices (a string gives the one-character string at that index). Reads
      of `length` and of inherited members also give None: none of those is
      a string, nor an array, nor has a property the script goes on to read. */
  function Get(v: Json, key: string): (r: Option<Json>)
    ensures r.Some? && ParseIndex(key).None? ==> v.JObject?
    ensures r.Some? && v.JString? ==> r.value.JString? && |r.value.s| == 1
  {
    match v
    case JObject(es) => Field(es, key)
    case JArray(items) =>
      (match ParseIndex(key)
       case Some(k) => if k < |items| then Some(items[k]) else None
       case None => None)
    case JString(s) =>
      (match ParseIndex(key)
       case Some(k) => if k < |s| then Some(JString([s[k]])) else None
       case None => None)
    case _ => None
  }

  /** The entries with the first entry keyed `key` given the value `x`, or
      with a new entry appended when there is none. */
  function SetField(es: seq<Entry>, key: string, x: Json): seq<Entry>
  {
    if es == [] then [Entry(key, x)]
    else if es[0].key == key then [Entry(key, x)] + es[1..]
    else [es[0]] + SetField(es[1..], key, x)
  }

  /** The assignment `v[key] = x` on an object, or on an existing element of
      an array. Other assignments leave `v` as it is: the script makes none. */
  function Set(v: Json, key: string, x: Json): Json
  {
    match v
    case JObject(es) => JObject(SetField(es, key, x))
    case JArray(items) =>
      (match ParseIndex(key)
       case Some(k) => if k < |items| then JArray(items[k := x]) else v
       case None => v)
    case _ => v
  }

  /** The optional chain `v?.[path[0]]?.[path[1]]...`. */
  function Lookup(v: Json, path: seq<string>): Option<Json>
    decreases |path|
  {
    if path == [] then Some(v)
    else
      match Get(v, path[0])
      case None => None
      case Some(c) => Lookup(c, path[1..])
  }

  /** Reading along `p + q` is reading along `p` and then along `q` from
      there; a chain that fails part-way stays failed. */
  lemma {:induction false} LookupAppend(v: Json, p: seq<string>, q: seq<string>)
    ensures Lookup(v, p + q) == (match Lookup(v, p) case None => None case Some(c) => Lookup(c, q))
    decreases |p|
  {
    if p == [] {
      assert p + q == q;
    } else {
      assert (p + q)[0] == p[0] && (p + q)[1..] == p[1..] + q;
      match Get(v, p[0])
      case None =>
      case Some(c) => LookupAppend(c, p[1..], q);
    }
  }

  /** The value at the end of `path` replaced by `x`, each object or array
      along the path updated in place. */
  function Update(v: Json, path: seq<string>, x: Json): Json
    decreases |path|
  {
    if path == [] then x
    else
      match Get(v, path[0])
      case None => v
      case Some(c) => Set(v, path[0], Update(c, path[1..], x))
  }

  /** Every step of `path` reads a property that exists, of an object or an
      array. */
  predicate ObjectsAlong(v: Json, path: seq<string>)
    decreases |path|
  {
    path == [] || (IsObject(v) && Get(v, path[0]).Some? && ObjectsAlong(Get(v, path[0]).value, path[1..]))
  }

  /** Two paths that part ways: neither is a prefix of the other. */
  predicate Diverge(p: seq<string>, q: seq<string>)
    decreases |p|
  {
    |p| > 0 && |q| > 0 && (p[0] != q[0] || Diverge(p[1..], q[1..]))
  }

  lemma {:induction false} SetFieldReads(es: seq<Entry>, key: string, x: Json, k: string)
    ensures Field(SetField(es, key, x), k) == if k == key then Some(x) else Field(es, k)
    decreases |es|
  {
    if es != [] && es[0].key != key {
      SetFieldReads(es[1..], key, x, k);
    }
  }

  /** After `v[key] = x` on an object, or on an existing array element,
      `v[key]` is `x` and every other property reads as before. */
  lemma SetReads(v: Json, key: string, x: Json, k: string)
    requires IsObject(v) && Get(v, key).Some?
    ensures Get(Set(v, key, x), k) == if k == key then Some(x) else Get(v, k)
  {
    match v
    case JObject(es) => SetFieldReads(es, key, x, k);
    case JArray(items) =>
      if k != key && ParseIndex(k).Some? && ParseIndex(k) == ParseIndex(key) {
        NatToStringParse(k);
        NatToStringParse(key);
      }
  }

  /** After an update, the updated place holds the new value. */
  lemma {:induction false} UpdateReadsBack(v: Json, path: seq<string>, x: Json)
    requires ObjectsAlong(v, path)
    ensures Lookup(Update(v, path, x), path) == Some(x)
    decreases |path|
  {
    if path != [] {
      var c := Get(v, path[0]).value;
      UpdateReadsBack(c, path[1..], x);
      SetReads(v, path[0], Update(c, path[1..], x), path[0]);
    }
  }

  /** An update changes nothing that lies off its path: every path that
      parts ways with it reads as before. */
  lemma {:induction false} UpdateFrame(v: Json, path: seq<string>, x: Json, q: seq<string>)
    requires ObjectsAlong(v, path)
    requires Diverge(path, q)
    ensures Lookup(Update(v, path, x), q) == Lookup(v, q)
    decreases |path|
  {
    var c := Get(v, path[0]).value;
    var c' := Update(c, path[1..], x);
    SetReads(v, path[0], c', q[0]);
    if path[0] == q[0] {
      UpdateFrame(c, path[1..], x, q[1..]);
    }
  }

  /** Along the path, each object or array becomes its own update. */
  lemma {:induction false} UpdateAlongPrefix(v: Json, p: seq<string>, r: seq<string>, x: Json)
    requires ObjectsAlong(v, p + r)
    ensures Lookup(v, p).Some?
    ensures Lookup(Update(v, p + r, x), p) == Some(Update(Lookup(v, p).value, r, x))
    decreases |p|
  {
    if p != [] {
      var c := Get(v, p[0]).value;
      assert (p + r)[0] == p[0] && (p + r)[1..] == p[1..] + r;
      UpdateAlongPrefix(c, p[1..], r, x);
      SetReads(v, p[0], Update(c, p[1..] + r, x), p[0]);
    } else {
      assert p + r == r;
    }
  }

  /** `Object.entries(v)` for an object or an array: an array's entries are
      keyed by its indices. */
  function Entries(v: Json): (es: seq<Entry>)
    ensures v.JObject? ==> es == v.entries
    ensures v.JArray? ==> |es| == |v.items|
    ensures v.JArray? ==> forall i :: 0 <= i < |es| ==> es[i] == Entry(NatToString(i), v.items[i])
    ensures !IsObject(v) ==> es == []
  {
    match v
    case JObject(es) => es
    case JArray(items) => seq(|items|, i requires 0 <= i < |items| => Entry(NatToString(i), items[i]))
    case _ => []
  }

  lemma {:induction false} FieldIsEntry(es: seq<Entry>, key: string)
    requires Field(es, key).Some?
    ensures exists i :: 0 <= i < |es| && es[i] == Entry(key, Field(es, key).value)
    decreases |es|
  {
    if es[0].key != key {
      FieldIsEntry(es[1..], key);
      var i :| 0 <= i < |es[1..]| && es[1..][i] == Entry(key, Field(es, key).value);
      assert es[i + 1] == es[1..][i];
    }
  }

  /** A property that reads as present on an object or an array is one of
      the entries `Object.entries` lists. */
  lemma GetIsEntry(v: Json, key: string)
    requires IsObject(v) && Get(v, key).Some?
    ensures exists i :: 0 <= i < |Entries(v)| && Entries(v)[i] == Entry(key, Get(v, key).value)
  {
    match v
    case JObject(es) =>
      FieldIsEntry(es, key);
      assert Entries(v) == es;
    case JArray(items) =>
      var k := ParseIndex(key).value;
      NatToStringParse(key);
      assert Entries(v)[k] == Entry(key, items[k]);
  }
}
