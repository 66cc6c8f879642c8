/**
 * Shared result types, the JSON value model, and the bounded integers of the source together with the few
 * facts about them that more than one module needs.
 */
module Common {

  datatype Option<+T> = None | Some(value: T)

  datatype Result<+T, +E> = Ok(value: T) | Err(error: E) {
    predicate IsFailure() {
      Err?
    }

    function PropagateFailure<U>(): Result<U, E>
      requires Err?
    {
      Err(error)
    }

    function Extract(): T
      requires Ok?
    {
      value
    }
  }

  const U32_MAX: nat := 0xFFFF_FFFF
  const U64_MAX: nat := 0xFFFF_FFFF_FFFF_FFFF

  type u32 = n: nat | n <= U32_MAX

  function Min(a: nat, b: nat): nat {
    if a <= b then a else b
  }

  function Max(a: nat, b: nat): nat {
    if a <= b then b else a
  }

  function CharBytes(c: char): nat {
    if (c as int) < 0x80 then 1
    else if (c as int) < 0x800 then 2
    else if (c as int) < 0x10000 then 3
    else 4
  }

  /** `str::len`: the UTF-8 bytes of a string. */
  function ByteLength(s: string): (n: nat)
    ensures n >= |s|
  {
    if s == "" then 0 else CharBytes(s[0]) + ByteLength(s[1..])
  }

  ghost predicate Distinct<T>(s: seq<T>) {
    forall i, j :: 0 <= i < j < |s| ==> s[i] != s[j]
  }

  lemma SubsetSmaller<T>(a: set<T>, b: set<T>)
    requires a <= b
    ensures |a| <= |b|
  {
    assert b == a + (b - a);
  }
}

/** `serde_json::Value`. An object keeps its entries in iteration order; its keys are unique. */
module JsonModel {
  import opened Common

  datatype Entry = Entry(key: string, value: Json)

  datatype Json =
    | JNull
    | JBool(b: bool)
    | JNumber(n: real)
    | JString(s: string)
    | JArray(items: seq<Json>)
    | JObject(entries: seq<Entry>)

  function Keys(entries: seq<Entry>): seq<string> {
    seq(|entries|, i requires 0 <= i < |entries| => entries[i].key)
  }

  /** What `serde_json::Map` guarantees at every depth of a value. */
  ghost predicate UniqueKeys(v: Json) {
    match v
    case JArray(items) => forall i :: 0 <= i < |items| ==> UniqueKeys(items[i])
    case JObject(entries) =>
      && (forall i, j :: 0 <= i < j < |entries| ==> entries[i].key != entries[j].key)
      && (forall i :: 0 <= i < |entries| ==> UniqueKeys(entries[i].value))
    case _ => true
  }

  function Get(entries: seq<Entry>, key: string): Option<Json> {
    if entries == [] then None
    else if entries[0].key == key then Some(entries[0].value)
    else Get(entries[1..], key)
  }

  /** A JSON scalar in the disclosure checker's sense: null, boolean, number or string. */
  predicate IsLeaf(v: Json) {
    !v.JArray? && !v.JObject?
  }

  lemma {:induction false} GetIsAnEntry(entries: seq<Entry>, key: string)
    ensures Get(entries, key).Some? ==>
      exists i :: 0 <= i < |entries| && entries[i] == Entry(key, Get(entries, key).value)
    ensures Get(entries, key).None? ==> forall i :: 0 <= i < |entries| ==> entries[i].key != key
  {
    if entries != [] && entries[0].key != key {
      GetIsAnEntry(entries[1..], key);
      assert forall i :: 1 <= i < |entries| ==> entries[i] == entries[1..][i - 1];
      if Get(entries, key).Some? {
        var i :| 0 <= i < |entries[1..]| && entries[1..][i] == Entry(key, Get(entries, key).value);
        assert entries[i + 1] == Entry(key, Get(entries, key).value);
      }
    }
  }
}
