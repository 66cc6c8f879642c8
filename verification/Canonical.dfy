/** Canonical JSON: object entries in key order, at every depth. */
module Canonical {
  import opened JsonModel
  import opened Ordering

  ghost predicate HasKey(entries: seq<Entry>, key: string) {
    exists i :: 0 <= i < |entries| && entries[i].key == key
  }

  /** The two objects bind the same keys. */
  ghost predicate SameKeys(x: seq<Entry>, y: seq<Entry>) {
    && (forall i :: 0 <= i < |x| ==> HasKey(y, x[i].key))
    && (forall j :: 0 <= j < |y| ==> HasKey(x, y[j].key))
  }

  /** Reference: the same value but for the order of object entries, at any depth. */
  ghost predicate Same(a: Json, b: Json)
    decreases a
  {
    match a
    case JArray(x) =>
      b.JArray? && |x| == |b.items| && forall i :: 0 <= i < |x| ==> Same(x[i], b.items[i])
    case JObject(x) =>
      && b.JObject? && SameKeys(x, b.entries)
      && (forall i, j :: 0 <= i < |x| && 0 <= j < |b.entries| && x[i].key == b.entries[j].key
                         ==> Same(x[i].value, b.entries[j].value))
    case _ => a == b
  }

  ghost predicate Ascending(entries: seq<Entry>) {
    forall i, j :: 0 <= i < j < |entries| ==> Less(entries[i].key, entries[j].key)
  }

  /** Every object of the value has its entries in strictly ascending key order. */
  ghost predicate InOrder(v: Json) {
    match v
    case JArray(items) => forall i :: 0 <= i < |items| ==> InOrder(items[i])
    case JObject(entries) => Ascending(entries) && forall i :: 0 <= i < |entries| ==> InOrder(entries[i].value)
    case _ => true
  }

  ghost predicate IsCanonicalFormOf(r: Json, v: Json) {
    InOrder(r) && Same(v, r)
  }

  // ---------------------------------------------------------------- the relation

  lemma {:induction false} SameReflexive(v: Json)
    requires UniqueKeys(v)
    ensures Same(v, v)
  {
    match v
    case JArray(items) =>
      forall i | 0 <= i < |items| { SameReflexive(items[i]); }
    case JObject(entries) =>
      forall i | 0 <= i < |entries| { SameReflexive(entries[i].value); }
    case _ =>
  }

  lemma {:induction false} SameSymmetric(a: Json, b: Json)
    requires Same(a, b)
    ensures Same(b, a)
  {
    match a
    case JArray(x) =>
      forall i | 0 <= i < |x| { SameSymmetric(x[i], b.items[i]); }
    case JObject(x) =>
      forall i, j | 0 <= i < |x| && 0 <= j < |b.entries| && x[i].key == b.entries[j].key {
        SameSymmetric(x[i].value, b.entries[j].value);
      }
    case _ =>
  }

  lemma {:induction false} SameTransitive(a: Json, b: Json, c: Json)
    requires Same(a, b) && Same(b, c)
    ensures Same(a, c)
  {
    match a
    case JArray(x) =>
      forall i | 0 <= i < |x| { SameTransitive(x[i], b.items[i], c.items[i]); }
    case JObject(x) =>
      var y, z := b.entries, c.entries;
      assert SameKeys(x, z) by {
        forall i | 0 <= i < |x| ensures HasKey(z, x[i].key) {
          var j :| 0 <= j < |y| && y[j].key == x[i].key;
        }
        forall k | 0 <= k < |z| ensures HasKey(x, z[k].key) {
          var j :| 0 <= j < |y| && y[j].key == z[k].key;
        }
      }
      forall i, k | 0 <= i < |x| && 0 <= k < |z| && x[i].key == z[k].key
        ensures Same(x[i].value, z[k].value)
      {
        assert HasKey(y, x[i].key);
        var j :| 0 <= j < |y| && y[j].key == x[i].key;
        SameTransitive(x[i].value, y[j].value, z[k].value);
      }
    case _ =>
  }

  // ---------------------------------------------------------------- one canonical form

  lemma FirstKey(x: seq<Entry>, y: seq<Entry>)
    requires Ascending(x) && Ascending(y) && SameKeys(x, y) && x != []
    ensures y != [] && x[0].key == y[0].key && SameKeys(x[1..], y[1..])
  {
    assert HasKey(y, x[0].key) && HasKey(x, y[0].key);
    LessIrreflexive(x[0].key);
    if Less(x[0].key, y[0].key) && Less(y[0].key, x[0].key) {
      LessTransitive(x[0].key, y[0].key, x[0].key);
    }
    LaterKeys(x, y);
    LaterKeys(y, x);
  }

  lemma LaterKeys(x: seq<Entry>, y: seq<Entry>)
    requires Ascending(x) && SameKeys(x, y) && x != [] && y != [] && x[0].key == y[0].key
    ensures forall i :: 0 <= i < |x[1..]| ==> HasKey(y[1..], x[1..][i].key)
  {
    LessIrreflexive(x[0].key);
    forall i | 0 <= i < |x[1..]| ensures HasKey(y[1..], x[1..][i].key) {
      assert HasKey(y, x[i + 1].key);
      var j :| 0 <= j < |y| && y[j].key == x[i + 1].key;
      assert y[1..][j - 1].key == x[1..][i].key;
    }
  }

  lemma NoKeys(x: seq<Entry>, y: seq<Entry>)
    requires SameKeys(x, y)
    ensures y != [] ==> x != []
  {
    if y != [] {
      assert HasKey(x, y[0].key);
    }
  }

  lemma {:induction false} AscendingKeysAgree(x: seq<Entry>, y: seq<Entry>)
    requires Ascending(x) && Ascending(y) && SameKeys(x, y)
    ensures |x| == |y| && forall i :: 0 <= i < |x| ==> x[i].key == y[i].key
    decreases |x|
  {
    NoKeys(x, y);
    if x != [] {
      FirstKey(x, y);
      AscendingKeysAgree(x[1..], y[1..]);
      forall i | 1 <= i < |x| ensures x[i].key == y[i].key {
        assert x[1..][i - 1].key == y[1..][i - 1].key;
      }
    }
  }

  /** Two ordered values that are the same up to entry order are equal. */
  lemma {:induction false} OrderedSameIsEqual(a: Json, b: Json)
    requires InOrder(a) && InOrder(b) && Same(a, b)
    ensures a == b
  {
    match a
    case JArray(x) =>
      forall i | 0 <= i < |x| { OrderedSameIsEqual(x[i], b.items[i]); }
    case JObject(x) =>
      AscendingKeysAgree(x, b.entries);
      forall i | 0 <= i < |x| { OrderedSameIsEqual(x[i].value, b.entries[i].value); }
    case _ =>
  }

  /** The canonical forms of two values are equal exactly when the values differ only in entry order. */
  lemma CanonicalFormsDecideSameness(a: Json, ca: Json, b: Json, cb: Json)
    requires IsCanonicalFormOf(ca, a) && IsCanonicalFormOf(cb, b)
    ensures ca == cb <==> Same(a, b)
  {
    SameSymmetric(a, ca);
    SameSymmetric(b, cb);
    if Same(a, b) {
      SameTransitive(ca, a, b);
      SameTransitive(ca, b, cb);
      OrderedSameIsEqual(ca, cb);
    } else if ca == cb {
      SameTransitive(a, ca, b);
    }
  }

  /** Canonicalising a canonical form gives it back. */
  lemma CanonicalFormIsFixed(v: Json, c: Json, again: Json)
    requires IsCanonicalFormOf(c, v) && IsCanonicalFormOf(again, c)
    ensures again == c
  {
    OrderedSameIsEqual(c, again);
  }

  lemma GetFinds(entries: seq<Entry>, key: string)
    ensures Get(entries, key).Some? <==> HasKey(entries, key)
  {
    GetIsAnEntry(entries, key);
  }

  /** Every lookup survives: the same keys are present and hold the canonical form of what they held. */
  lemma CanonicalFormKeepsLookups(entries: seq<Entry>, canonical: seq<Entry>, key: string)
    requires IsCanonicalFormOf(JObject(canonical), JObject(entries))
    ensures Get(entries, key).Some? <==> Get(canonical, key).Some?
    ensures Get(entries, key).Some? ==> IsCanonicalFormOf(Get(canonical, key).value, Get(entries, key).value)
  {
    GetFinds(entries, key);
    GetFinds(canonical, key);
    GetIsAnEntry(entries, key);
    GetIsAnEntry(canonical, key);
    assert HasKey(entries, key) <==> HasKey(canonical, key);
    if Get(entries, key).Some? {
      var i :| 0 <= i < |entries| && entries[i] == Entry(key, Get(entries, key).value);
      var j :| 0 <= j < |canonical| && canonical[j] == Entry(key, Get(canonical, key).value);
      assert InOrder(JObject(canonical)) && InOrder(canonical[j].value);
    }
  }

  // ---------------------------------------------------------------- the program

  method SortByKey(entries: seq<Entry>) returns (sorted: seq<Entry>)
    requires forall i, j :: 0 <= i < j < |entries| ==> entries[i].key != entries[j].key
    ensures Ascending(sorted) && multiset(sorted) == multiset(entries)
  {
    sorted := [];
    for n := 0 to |entries|
      invariant Ascending(sorted) && multiset(sorted) == multiset(entries[..n])
    {
      var e := entries[n];
      assert entries[..n + 1] == entries[..n] + [e];
      forall k | 0 <= k < |sorted| ensures sorted[k].key != e.key {
        assert sorted[k] in multiset(sorted);
        assert sorted[k] in entries[..n];
      }
      sorted := InsertByKey(sorted, e);
    }
    assert entries[..|entries|] == entries;
  }

  method InsertByKey(sorted: seq<Entry>, e: Entry) returns (out: seq<Entry>)
    requires Ascending(sorted) && forall k :: 0 <= k < |sorted| ==> sorted[k].key != e.key
    ensures Ascending(out) && multiset(out) == multiset(sorted) + multiset{e}
  {
    var at := 0;
    while at < |sorted| && Less(sorted[at].key, e.key)
      invariant at <= |sorted|
      invariant forall k :: 0 <= k < at ==> Less(sorted[k].key, e.key)
    {
      at := at + 1;
    }
    forall k | at <= k < |sorted| ensures Less(e.key, sorted[k].key) {
      LessTotal(e.key, sorted[at].key);
      if k > at {
        LessTransitive(e.key, sorted[at].key, sorted[k].key);
      }
    }
    out := sorted[..at] + [e] + sorted[at..];
    assert sorted == sorted[..at] + sorted[at..];
  }

  /** `canonical_json_value`. */
  method CanonicalJsonValue(v: Json) returns (r: Json)
    requires UniqueKeys(v)
    ensures IsCanonicalFormOf(r, v)
    decreases v
  {
    hide IsCanonicalFormOf, Ascending;
    match v
    case JObject(members) =>
      var entries := SortByKey(members);
      var canonical: seq<Entry> := [];
      for n := 0 to |entries|
        invariant CanonicalEntries(canonical, entries[..n])
      {
        ghost var m := Source(entries, members, n);
        var value := CanonicalJsonValue(entries[n].value);
        assert entries[..n + 1] == entries[..n] + [entries[n]];
        canonical := canonical + [Entry(entries[n].key, value)];
      }
      assert entries[..|entries|] == entries;
      ObjectIsCanonical(members, entries, canonical);
      r := JObject(canonical);
    case JArray(values) =>
      var items: seq<Json> := [];
      for n := 0 to |values|
        invariant |items| == n
        invariant forall k :: 0 <= k < n ==> IsCanonicalFormOf(items[k], values[k])
      {
        var item := CanonicalJsonValue(values[n]);
        items := items + [item];
      }
      ArrayIsCanonical(values, items);
      r := JArray(items);
    case _ =>
      r := v;
      LeafIsCanonical(v);
  }

  ghost predicate CanonicalEntries(canonical: seq<Entry>, entries: seq<Entry>) {
    && |canonical| == |entries|
    && forall k :: 0 <= k < |entries| ==>
         canonical[k].key == entries[k].key && IsCanonicalFormOf(canonical[k].value, entries[k].value)
  }

  lemma Source(sorted: seq<Entry>, members: seq<Entry>, n: nat) returns (m: nat)
    requires multiset(sorted) == multiset(members) && n < |sorted|
    ensures m < |members| && members[m] == sorted[n]
  {
    assert sorted[n] in multiset(members);
    m :| m < |members| && members[m] == sorted[n];
  }

  lemma ArrayIsCanonical(values: seq<Json>, items: seq<Json>)
    requires |items| == |values| && forall k :: 0 <= k < |items| ==> IsCanonicalFormOf(items[k], values[k])
    ensures IsCanonicalFormOf(JArray(items), JArray(values))
  {
  }

  lemma LeafIsCanonical(v: Json)
    requires IsLeaf(v)
    ensures IsCanonicalFormOf(v, v)
  {
  }

  lemma SortedKeys(members: seq<Entry>, sorted: seq<Entry>, canonical: seq<Entry>)
    requires Ascending(sorted) && multiset(sorted) == multiset(members) && CanonicalEntries(canonical, sorted)
    ensures SameKeys(members, canonical) && Ascending(canonical)
  {
    hide IsCanonicalFormOf;
    forall i | 0 <= i < |members| ensures HasKey(canonical, members[i].key) {
      var k := Source(members, sorted, i);
      assert canonical[k].key == members[i].key;
    }
    forall k | 0 <= k < |canonical| ensures HasKey(members, canonical[k].key) {
      var m := Source(sorted, members, k);
      assert members[m].key == canonical[k].key;
    }
  }

  lemma ObjectIsCanonical(members: seq<Entry>, sorted: seq<Entry>, canonical: seq<Entry>)
    requires UniqueKeys(JObject(members)) && Ascending(sorted) && multiset(sorted) == multiset(members)
    requires CanonicalEntries(canonical, sorted)
    ensures IsCanonicalFormOf(JObject(canonical), JObject(members))
  {
    hide HasKey, SameKeys, Ascending, CanonicalEntries;
    SortedKeys(members, sorted, canonical);
    forall i, k | 0 <= i < |members| && 0 <= k < |canonical| && members[i].key == canonical[k].key
      ensures Same(members[i].value, canonical[k].value)
    {
      EntryAt(members, sorted, canonical, i, k);
    }
    forall k | 0 <= k < |canonical| ensures InOrder(canonical[k].value) {
      EntryInOrder(sorted, canonical, k);
    }
  }

  lemma EntryAt(members: seq<Entry>, sorted: seq<Entry>, canonical: seq<Entry>, i: nat, k: nat)
    requires UniqueKeys(JObject(members)) && multiset(sorted) == multiset(members)
    requires CanonicalEntries(canonical, sorted)
    requires i < |members| && k < |canonical| && members[i].key == canonical[k].key
    ensures Same(members[i].value, canonical[k].value)
  {
    var m := Source(sorted, members, k);
    assert i == m;
    assert IsCanonicalFormOf(canonical[k].value, sorted[k].value);
  }

  lemma EntryInOrder(sorted: seq<Entry>, canonical: seq<Entry>, k: nat)
    requires CanonicalEntries(canonical, sorted) && k < |canonical|
    ensures InOrder(canonical[k].value)
  {
    assert IsCanonicalFormOf(canonical[k].value, sorted[k].value);
  }
}
