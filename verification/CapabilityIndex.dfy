/** Ranked search over one capability index, and over a federated set of them. */
module CapabilityIndex {
  import opened Common
  import opened Ordering

  /** `SearchRank`, ordered field by field. */
  datatype Rank = Rank(rootSemantics: nat, nestedSemantics: nat, shape: nat) {
    predicate Below(other: Rank) {
      || rootSemantics < other.rootSemantics
      || (rootSemantics == other.rootSemantics
          && (|| nestedSemantics < other.nestedSemantics
              || (nestedSemantics == other.nestedSemantics && shape < other.shape)))
    }
  }

  /** An index entry: its identifier, the size of its canonical encoding, and everything else. */
  datatype IndexEntry = IndexEntry(id: string, bytes: nat, body: string)

  datatype Ranked = Ranked(rank: Rank, entry: IndexEntry)

  /** The order of results: better rank first, then smaller identifier. */
  predicate Before(a: Ranked, b: Ranked) {
    b.rank.Below(a.rank) || (a.rank == b.rank && Less(a.entry.id, b.entry.id))
  }

  lemma BeforeIsStrict(a: Ranked, b: Ranked, c: Ranked)
    ensures !Before(a, a)
    ensures Before(a, b) && Before(b, c) ==> Before(a, c)
    ensures a.entry.id != b.entry.id ==> Before(a, b) || Before(b, a)
  {
    LessIrreflexive(a.entry.id);
    LessTotal(a.entry.id, b.entry.id);
    if Less(a.entry.id, b.entry.id) && Less(b.entry.id, c.entry.id) {
      LessTransitive(a.entry.id, b.entry.id, c.entry.id);
    }
  }

  ghost predicate UniqueIds(s: set<Ranked>) {
    forall a, b :: a in s && b in s && a.entry.id == b.entry.id ==> a == b
  }

  // ---------------------------------------------------------------- the best k of a set

  ghost function Ahead(s: set<Ranked>, x: Ranked): set<Ranked> {
    set y | y in s && Before(y, x)
  }

  /** Reference: the members with fewer than `k` members ahead of them. */
  ghost function Best(k: nat, s: set<Ranked>): set<Ranked> {
    set x | x in s && |Ahead(s, x)| < k
  }

  /** A non-empty set has a last member, with everything else ahead of it. */
  lemma {:induction false} LastOf(s: set<Ranked>) returns (m: Ranked)
    requires s != {} && UniqueIds(s)
    ensures m in s && Ahead(s, m) == s - {m}
    decreases s
  {
    var first :| first in s;
    m := first;
    BeforeIsStrict(first, first, first);
    if s != {first} {
      var n := LastOf(s - {first});
      BeforeIsStrict(first, n, first);
      BeforeIsStrict(n, first, n);
      forall y | y in s ensures Before(y, n) ==> Before(n, first) ==> Before(y, first) {
        BeforeIsStrict(y, n, first);
      }
      if Before(first, n) {
        m := n;
        assert Ahead(s, n) == Ahead(s - {first}, n) + {first};
      } else {
        assert forall y :: y in s && y != first && y != n ==> y in Ahead(s - {first}, n);
      }
    }
  }

  lemma {:induction false} BestSize(k: nat, s: set<Ranked>)
    requires UniqueIds(s)
    ensures |Best(k, s)| == Min(k, |s|)
    decreases s
  {
    hide Before;
    if s != {} {
      var m := LastOf(s);
      var rest := s - {m};
      BestSize(k, rest);
      forall x | x in rest ensures Ahead(s, x) == Ahead(rest, x) {
        BeforeIsStrict(m, x, m);
        assert x in Ahead(s, m);
      }
      if |rest| < k {
        assert Best(k, s) == Best(k, rest) + {m};
      } else {
        assert Best(k, s) == Best(k, rest);
      }
    } else {
      assert Best(k, s) == {};
    }
  }

  /** A member that is not among the best has `k` of the best ahead of it. */
  lemma OvertakenByBest(k: nat, s: set<Ranked>, y: Ranked)
    requires UniqueIds(s) && y in s && y !in Best(k, s)
    ensures k <= |Ahead(Best(k, s), y)|
  {
    var p := Ahead(s, y);
    BestSize(k, p);
    forall z | z in Best(k, p) ensures z in Ahead(Best(k, s), y) {
      forall u | u in Ahead(s, z) ensures u in Ahead(p, z) {
        BeforeIsStrict(u, z, y);
      }
      assert Ahead(s, z) == Ahead(p, z);
    }
    SubsetSmaller(Best(k, p), Ahead(Best(k, s), y));
  }

  /** Cutting one part down to its own best k does not change the best k of the whole. */
  lemma BestOfPart(k: nat, a: set<Ranked>, b: set<Ranked>)
    requires UniqueIds(a + b)
    ensures Best(k, Best(k, a) + b) == Best(k, a + b)
  {
    var whole, cut := a + b, Best(k, a) + b;
    forall x | x in Best(k, whole) ensures x in Best(k, cut) {
      SubsetSmaller(Ahead(a, x), Ahead(whole, x));
      SubsetSmaller(Ahead(cut, x), Ahead(whole, x));
    }
    forall x | x in Best(k, cut) ensures x in Best(k, whole) {
      forall y | y in Ahead(whole, x) ensures y in Ahead(cut, x) {
        if y !in cut {
          OvertakenByBest(k, a, y);
          forall z | z in Ahead(Best(k, a), y) ensures z in Ahead(cut, x) {
            BeforeIsStrict(z, y, x);
          }
          SubsetSmaller(Ahead(Best(k, a), y), Ahead(cut, x));
        }
      }
      assert Ahead(whole, x) == Ahead(cut, x);
    }
  }

  // ---------------------------------------------------------------- ranked lists

  ghost predicate Sorted(r: seq<Ranked>) {
    forall i, j :: 0 <= i < j < |r| ==> Before(r[i], r[j])
  }

  ghost function Elements(r: seq<Ranked>): set<Ranked> {
    set x | x in r
  }

  /** `r` lists the set `s` in result order. */
  ghost predicate Lists(r: seq<Ranked>, s: set<Ranked>) {
    Sorted(r) && Elements(r) == s
  }

  /** Which entries come first, and in which order, is a matter of the set alone. */
  lemma {:induction false} ListingIsUnique(a: seq<Ranked>, b: seq<Ranked>, s: set<Ranked>)
    requires Lists(a, s) && Lists(b, s)
    ensures a == b
    decreases |a|
  {
    ListsEmpty(a, s);
    ListsEmpty(b, s);
    if a != [] {
      assert a[0] in Elements(b) && b[0] in Elements(a);
      var i :| 0 <= i < |b| && b[i] == a[0];
      var j :| 0 <= j < |a| && a[j] == b[0];
      BeforeIsStrict(a[0], b[0], a[0]);
      assert a[0] == b[0];
      TailLists(a, s);
      TailLists(b, s);
      ListingIsUnique(a[1..], b[1..], s - {a[0]});
      assert a == [a[0]] + a[1..] && b == [b[0]] + b[1..];
    }
  }

  lemma ListsEmpty(a: seq<Ranked>, s: set<Ranked>)
    requires Lists(a, s)
    ensures a == [] <==> s == {}
  {
    if a != [] {
      assert a[0] in Elements(a);
    }
  }

  lemma TailLists(a: seq<Ranked>, s: set<Ranked>)
    requires Lists(a, s) && a != []
    ensures Lists(a[1..], s - {a[0]})
  {
    BeforeIsStrict(a[0], a[0], a[0]);
    forall x | x in s - {a[0]} ensures x in a[1..] {
      var i :| 0 <= i < |a| && a[i] == x;
      assert a[1..][i - 1] == x;
    }
  }

  /** Truncating a full listing keeps exactly the best `k`, still listed in order. */
  lemma TruncationIsBest(r: seq<Ranked>, s: set<Ranked>, k: nat)
    requires Lists(r, s)
    ensures Lists(r[..Min(k, |r|)], Best(k, s))
  {
    var cut := r[..Min(k, |r|)];
    forall i | 0 <= i < |r| ensures |Ahead(s, r[i])| == i {
      forall j | 0 <= j < |r| ensures Before(r[j], r[i]) <==> j < i {
        BeforeIsStrict(r[i], r[j], r[i]);
        BeforeIsStrict(r[i], r[i], r[i]);
      }
      assert Ahead(s, r[i]) == Elements(r[..i]);
      ElementCount(r[..i]);
    }
    forall x | x in Best(k, s) ensures x in cut {
      var i :| 0 <= i < |r| && r[i] == x;
      assert cut[i] == x;
    }
  }

  lemma {:induction false} ElementCount(r: seq<Ranked>)
    requires Sorted(r)
    ensures |Elements(r)| == |r|
  {
    if r != [] {
      var n := |r| - 1;
      ElementCount(r[..n]);
      BeforeIsStrict(r[n], r[n], r[n]);
      assert Elements(r) == Elements(r[..n]) + {r[n]};
    }
  }

  // ---------------------------------------------------------------- indexes and queries

  /** One compiled index; its entries are the values of an ordered map keyed by identifier. */
  datatype Index = Index(target: string, entries: seq<IndexEntry>, fingerprintValid: bool, maximumSearchResults: nat)

  ghost predicate ValidIndex(x: Index) {
    forall i, j :: 0 <= i < j < |x.entries| ==> x.entries[i].id != x.entries[j].id
  }

  /** A query: what its filters admit, how entries score, and how many results it wants. */
  datatype Query = Query(textValid: bool, matches: IndexEntry -> bool, score: (string, IndexEntry) -> Rank,
                         maximumResults: nat)

  predicate HasSemanticMatch(rank: Rank) {
    rank.rootSemantics > 0 || rank.nestedSemantics > 0
  }

  predicate Admits(q: Query, target: string, e: IndexEntry) {
    q.matches(e) && HasSemanticMatch(q.score(target, e))
  }

  /** Every admitted entry of one index, with its score. */
  ghost function Candidates(x: Index, q: Query): set<Ranked> {
    set e | e in x.entries && Admits(q, x.target, e) :: Ranked(q.score(x.target, e), e)
  }

  /** `AiCapabilitySearchQuery::validate`. */
  predicate ValidQuery(q: Query, ceiling: nat) {
    q.textValid && 0 < q.maximumResults <= ceiling
  }

  method Insert(r: seq<Ranked>, x: Ranked) returns (out: seq<Ranked>)
    requires Sorted(r) && forall y :: y in r ==> y.entry.id != x.entry.id
    ensures Lists(out, Elements(r) + {x})
  {
    var at := 0;
    while at < |r| && Before(r[at], x)
      invariant at <= |r|
      invariant forall i :: 0 <= i < at ==> Before(r[i], x)
    {
      at := at + 1;
    }
    forall i | at <= i < |r| ensures Before(x, r[i]) {
      BeforeIsStrict(x, r[at], r[i]);
      BeforeIsStrict(x, r[i], x);
    }
    out := r[..at] + [x] + r[at..];
    assert r == r[..at] + r[at..];
  }

  /** `rank_entries` for one index, added to what other indexes contributed. */
  method RankEntries(x: Index, q: Query, seed: seq<Ranked>) returns (ranked: seq<Ranked>)
    requires ValidIndex(x) && Sorted(seed)
    requires forall y, e :: y in seed && e in x.entries ==> y.entry.id != e.id
    ensures Lists(ranked, Elements(seed) + Candidates(x, q))
  {
    ranked := seed;
    ghost var taken: set<Ranked> := {};
    for i := 0 to |x.entries|
      invariant taken == set e | e in x.entries[..i] && Admits(q, x.target, e) :: Ranked(q.score(x.target, e), e)
      invariant Lists(ranked, Elements(seed) + taken)
    {
      var e := x.entries[i];
      assert x.entries[..i + 1] == x.entries[..i] + [e];
      if Admits(q, x.target, e) {
        forall y | y in ranked ensures y.entry.id != e.id {
          assert y in Elements(ranked);
        }
        taken := taken + {Ranked(q.score(x.target, e), e)};
        ranked := Insert(ranked, Ranked(q.score(x.target, e), e));
      }
    }
    assert x.entries[..|x.entries|] == x.entries;
  }

  /** `AiCapabilityIndex::search`: the best entries of the index, best first. */
  method Search(x: Index, q: Query) returns (r: Result<seq<Ranked>, SetError>)
    requires ValidIndex(x)
    ensures r.Ok? <==> ValidQuery(q, x.maximumSearchResults)
    ensures r.Err? ==> r.error == InvalidQuery
    ensures r.Ok? ==> Lists(r.value, Best(q.maximumResults, Candidates(x, q)))
  {
    if !ValidQuery(q, x.maximumSearchResults) {
      return Err(InvalidQuery);
    }
    var ranked := RankEntries(x, q, []);
    TruncationIsBest(ranked, Candidates(x, q), q.maximumResults);
    r := Ok(ranked[..Min(q.maximumResults, |ranked|)]);
  }

  // ---------------------------------------------------------------- the federated set

  datatype SetError =
    | InvalidQuery
    | InvalidLimits
    | InvalidFingerprint
    | DuplicateTarget
    | DuplicateCapability
    | ByteOverflow
    | TooManyTargets
    | TooManyEntries
    | TooManyBytes
    | EmptySet

  datatype SetLimits = SetLimits(indexes: nat, entries: nat, bytes: nat, searchResults: nat) {
    predicate Valid() {
      && 1 <= indexes <= 1_024
      && 1 <= entries <= 1_048_576
      && 1_024 <= bytes <= 4 * 1_024 * 1_024 * 1_024
      && 1 <= searchResults <= 128
    }
  }

  datatype IndexSet = IndexSet(indexes: map<string, Index>, owners: map<string, string>, maximumSearchResults: nat)

  ghost function Ids(entries: seq<IndexEntry>): set<string> {
    set e | e in entries :: e.id
  }

  ghost predicate Owns(x: Index, id: string) {
    id in Ids(x.entries)
  }

  /** The owner map once `x` has claimed all its identifiers. */
  ghost function Claim(owners: map<string, string>, x: Index): map<string, string> {
    map id | id in owners.Keys + Ids(x.entries) :: if id in owners then owners[id] else x.target
  }

  ghost predicate Apart(x: Index, y: Index) {
    x.target != y.target && forall id :: Owns(x, id) ==> !Owns(y, id)
  }

  /** No two members share a target or a capability identifier. */
  ghost predicate Separate(members: seq<Index>) {
    forall i, j :: 0 <= i < j < |members| ==> Apart(members[i], members[j])
  }

  function EntryBytes(entries: seq<IndexEntry>): nat {
    if entries == [] then 0 else EntryBytes(entries[..|entries| - 1]) + entries[|entries| - 1].bytes
  }

  function Bytes(members: seq<Index>): nat {
    if members == [] then 0 else Bytes(members[..|members| - 1]) + EntryBytes(members[|members| - 1].entries)
  }

  function Entries(members: seq<Index>): nat {
    if members == [] then 0 else Entries(members[..|members| - 1]) + |members[|members| - 1].entries|
  }

  /** When a list of members makes a set, said without any order of arrival. */
  ghost predicate Admissible(members: seq<Index>, limits: SetLimits) {
    && limits.Valid()
    && 1 <= |members| <= limits.indexes
    && (forall x :: x in members ==> x.fingerprintValid)
    && Separate(members)
    && Entries(members) <= limits.entries
    && Bytes(members) <= limits.bytes
  }

  ghost predicate HoldsMembers(indexes: map<string, Index>, members: seq<Index>) {
    && (forall x :: x in members ==> x.target in indexes && indexes[x.target] == x)
    && (forall t :: t in indexes ==> indexes[t] in members && indexes[t].target == t)
  }

  ghost predicate HoldsOwners(owners: map<string, string>, members: seq<Index>) {
    && (forall x, id :: x in members && Owns(x, id) ==> id in owners && owners[id] == x.target)
    && (forall id :: id in owners ==> exists x :: x in members && Owns(x, id))
  }

  ghost predicate IsLeastCeiling(least: nat, members: seq<Index>, ceiling: nat) {
    && least <= ceiling
    && (forall x :: x in members ==> least <= x.maximumSearchResults)
    && (least == ceiling || exists x :: x in members && least == x.maximumSearchResults)
  }

  /** What the built set holds: every member under its target, every identifier under its one owner. */
  ghost predicate Federates(s: IndexSet, members: seq<Index>, ceiling: nat) {
    && HoldsMembers(s.indexes, members)
    && HoldsOwners(s.owners, members)
    && IsLeastCeiling(s.maximumSearchResults, members, ceiling)
  }

  /** An identifier is owned by a target exactly when the member of that target holds it. */
  ghost predicate OwnersPartition(s: IndexSet) {
    forall id, target ::
      id in s.owners && s.owners[id] == target <==> target in s.indexes && Owns(s.indexes[target], id)
  }

  lemma FederatedOwnersPartition(s: IndexSet, members: seq<Index>, ceiling: nat)
    requires Federates(s, members, ceiling)
    ensures OwnersPartition(s)
  {
    forall id, target
      ensures id in s.owners && s.owners[id] == target <==> target in s.indexes && Owns(s.indexes[target], id)
    {
      if id in s.owners {
        var x :| x in members && Owns(x, id);
        assert s.indexes[s.owners[id]] == x;
      }
    }
  }

  lemma OneOwner(s: IndexSet, members: seq<Index>, ceiling: nat, id: string, t: string, u: string)
    requires Federates(s, members, ceiling) && t in s.indexes && u in s.indexes
    ensures Owns(s.indexes[t], id) && Owns(s.indexes[u], id) ==> t == u
  {
    FederatedOwnersPartition(s, members, ceiling);
  }

  ghost function Joining(s: IndexSet, x: Index): IndexSet {
    IndexSet(s.indexes[x.target := x], Claim(s.owners, x), Min(s.maximumSearchResults, x.maximumSearchResults))
  }

  /** What the loop of `compile_with_limits` has established after `i` members. */
  ghost predicate SoFar(s: IndexSet, total: nat, members: seq<Index>, i: nat, limits: SetLimits) {
    && i <= |members| && i <= limits.indexes
    && Entries(members[..i]) <= limits.entries
    && total == Bytes(members[..i]) <= limits.bytes
    && (forall x :: x in members[..i] ==> x.fingerprintValid)
    && Separate(members[..i])
    && Federates(s, members[..i], limits.searchResults)
    && |s.indexes| == i && |s.owners| == Entries(members[..i])
  }

  lemma Start(members: seq<Index>, limits: SetLimits)
    ensures SoFar(IndexSet(map[], map[], limits.searchResults), 0, members, 0, limits)
  {
    assert members[..0] == [];
  }

  lemma Finish(s: IndexSet, total: nat, members: seq<Index>, limits: SetLimits)
    requires limits.Valid() && SoFar(s, total, members, |members|, limits)
    ensures Admissible(members, limits) <==> s.indexes != map[]
    ensures Federates(s, members, limits.searchResults)
  {
    assert members[..|members|] == members;
  }

  /** What one pass of the loop demands of the next member. */
  ghost predicate Joinable(s: IndexSet, total: nat, x: Index, limits: SetLimits) {
    && x.fingerprintValid
    && x.target !in s.indexes
    && s.owners.Keys !! Ids(x.entries)
    && total + EntryBytes(x.entries) <= limits.bytes
    && |s.indexes| + 1 <= limits.indexes
    && |s.owners| + |x.entries| <= limits.entries
  }

  /** Every rejection inside the loop is one of inadmissible members, whatever follows. */
  lemma NoFalseRejection(s: IndexSet, total: nat, members: seq<Index>, i: nat, limits: SetLimits)
    requires SoFar(s, total, members, i, limits) && i < |members| && Admissible(members, limits)
    ensures Joinable(s, total, members[i], limits)
  {
    hide Federates, Separate, Ids;
    assert members[..i + 1][..i] == members[..i];
    PrefixTotals(members, i + 1);
    NewcomerIsNew(s, members, i, limits.searchResults);
  }

  lemma NewcomerIsNew(s: IndexSet, members: seq<Index>, i: nat, ceiling: nat)
    requires i < |members| && Federates(s, members[..i], ceiling) && Separate(members)
    ensures members[i].target !in s.indexes && s.owners.Keys !! Ids(members[i].entries)
  {
    forall x | x in members[..i] ensures Apart(x, members[i]) {
      var j :| 0 <= j < i && members[j] == x;
    }
    if !(s.owners.Keys !! Ids(members[i].entries)) {
      OwnedTwice(s, members, i, ceiling);
    }
  }

  lemma Advance(s: IndexSet, t: IndexSet, total: nat, members: seq<Index>, i: nat, limits: SetLimits)
    requires SoFar(s, total, members, i, limits) && i < |members| && Joinable(s, total, members[i], limits)
    requires t == Joining(s, members[i]) && |t.owners| == |s.owners| + |members[i].entries|
    ensures SoFar(t, total + EntryBytes(members[i].entries), members, i + 1, limits)
  {
    hide Federates, Separate, Claim, Ids;
    var next := members[..i + 1];
    assert next == members[..i] + [members[i]];
    assert next[..i] == members[..i];
    Joined(s, members[..i], members[i], limits.searchResults);
    MapGrows(s.indexes, members[i].target, members[i]);
  }

  /** One pass of the loop of `compile_with_limits`. */
  method AddMember(s: IndexSet, total: nat, x: Index, limits: SetLimits) returns (r: Result<(IndexSet, nat), SetError>)
    requires ValidIndex(x) && total <= U64_MAX && limits.bytes <= U64_MAX
    ensures r.Ok? <==> Joinable(s, total, x, limits)
    ensures r.Ok? ==> r.value == (Joining(s, x), total + EntryBytes(x.entries))
    ensures r.Ok? ==> |r.value.0.owners| == |s.owners| + |x.entries|
  {
    hide Ids, Claim, EntryBytes;
    if !x.fingerprintValid {
      return Err(InvalidFingerprint);
    }
    if x.target in s.indexes {
      return Err(DuplicateTarget);
    }
    var owners := InsertOwners(s.owners, x);
    if owners.None? {
      return Err(DuplicateCapability);
    }
    var bytes := AddBytes(total, x.entries);
    if bytes.None? {
      return Err(ByteOverflow);
    }
    var next := IndexSet(s.indexes[x.target := x], owners.value, Min(s.maximumSearchResults, x.maximumSearchResults));
    MapGrows(s.indexes, x.target, x);
    if |next.indexes| > limits.indexes {
      return Err(TooManyTargets);
    }
    if |next.owners| > limits.entries {
      return Err(TooManyEntries);
    }
    if bytes.value > limits.bytes {
      return Err(TooManyBytes);
    }
    r := Ok((next, bytes.value));
  }

  /** `compile_with_limits`. */
  method CompileWithLimits(members: seq<Index>, limits: SetLimits) returns (r: Result<IndexSet, SetError>)
    requires forall x :: x in members ==> ValidIndex(x)
    ensures r.Ok? <==> Admissible(members, limits)
    ensures r.Ok? ==> Federates(r.value, members, limits.searchResults) && OwnersPartition(r.value)
  {
    hide *;
    ValidLimits(members, limits);
    if !limits.Valid() {
      return Err(InvalidLimits);
    }
    var s := IndexSet(map[], map[], limits.searchResults);
    var total: nat := 0;
    Start(members, limits);
    for i := 0 to |members|
      invariant SoFar(s, total, members, i, limits) && total <= limits.bytes
    {
      if Admissible(members, limits) {
        NoFalseRejection(s, total, members, i, limits);
      }
      var next := AddMember(s, total, members[i], limits);
      if next.Err? {
        return Err(next.error);
      }
      Advance(s, next.value.0, total, members, i, limits);
      s, total := next.value.0, next.value.1;
      WithinBytes(s, total, members, i + 1, limits);
    }
    Finish(s, total, members, limits);
    if s.indexes == map[] {
      return Err(EmptySet);
    }
    FederatedOwnersPartition(s, members, limits.searchResults);
    r := Ok(s);
  }

  lemma ValidLimits(members: seq<Index>, limits: SetLimits)
    ensures limits.Valid() ==> 0 < limits.bytes <= U64_MAX
    ensures Admissible(members, limits) ==> limits.Valid()
  {
  }

  lemma WithinBytes(s: IndexSet, total: nat, members: seq<Index>, i: nat, limits: SetLimits)
    requires SoFar(s, total, members, i, limits)
    ensures total <= limits.bytes
  {
  }

  lemma {:induction false} PrefixTotals(members: seq<Index>, n: nat)
    requires n <= |members|
    ensures Entries(members[..n]) <= Entries(members) && Bytes(members[..n]) <= Bytes(members)
    decreases |members|
  {
    if n < |members| {
      PrefixTotals(members[..|members| - 1], n);
      assert members[..|members| - 1][..n] == members[..n];
    } else {
      assert members[..n] == members;
    }
  }

  lemma OwnedTwice(s: IndexSet, members: seq<Index>, i: nat, ceiling: nat)
    requires i < |members| && Federates(s, members[..i], ceiling)
    requires !(s.owners.Keys !! Ids(members[i].entries))
    ensures !Separate(members)
  {
    var id :| id in s.owners && id in Ids(members[i].entries);
    var x :| x in members[..i] && Owns(x, id);
    var j :| 0 <= j < i && members[j] == x;
    assert Owns(members[i], id);
    assert !Apart(members[j], members[i]);
  }

  /** Adding one more member, when its target and identifiers are new, keeps the contract. */
  lemma Joined(s: IndexSet, members: seq<Index>, x: Index, ceiling: nat)
    requires Federates(s, members, ceiling) && Separate(members)
    requires x.target !in s.indexes && s.owners.Keys !! Ids(x.entries)
    ensures Federates(Joining(s, x), members + [x], ceiling) && Separate(members + [x])
  {
    var t := Joining(s, x);
    var all := members + [x];
    forall y | y in members ensures y in all && Apart(y, x) {
    }
    assert forall y :: y in all <==> y == x || y in members;
    assert Separate(all) by {
      forall i, j | 0 <= i < j < |all| ensures Apart(all[i], all[j]) {
        assert all[i] == members[i];
        assert all[j] == if j < |members| then members[j] else x;
      }
    }
    assert HoldsMembers(t.indexes, all);
    assert HoldsOwners(t.owners, all);
  }

  /** The first inner loop: claim every identifier of one member, unless one is taken. */
  method InsertOwners(owners: map<string, string>, x: Index) returns (r: Option<map<string, string>>)
    requires ValidIndex(x)
    ensures r.Some? <==> owners.Keys !! Ids(x.entries)
    ensures r.Some? ==> r.value == Claim(owners, x) && |r.value| == |owners| + |x.entries|
  {
    hide Claim, Ids;
    var out := owners;
    NothingClaimed(owners, x);
    for i := 0 to |x.entries|
      invariant Claimed(out, owners, x, i)
    {
      var id := x.entries[i].id;
      ClaimGrows(out, owners, x, i);
      if id in out {
        return None;
      }
      out := out[id := x.target];
    }
    assert x.entries[..|x.entries|] == x.entries;
    r := Some(out);
  }

  ghost predicate Claimed(out: map<string, string>, owners: map<string, string>, x: Index, i: nat) {
    && i <= |x.entries|
    && |out| == |owners| + i
    && owners.Keys !! Ids(x.entries[..i])
    && out == Claim(owners, x.(entries := x.entries[..i]))
  }

  lemma NothingClaimed(owners: map<string, string>, x: Index)
    ensures Claimed(owners, owners, x, 0)
  {
    assert Ids(x.entries[..0]) == {};
  }

  lemma ClaimGrows(out: map<string, string>, owners: map<string, string>, x: Index, i: nat)
    requires ValidIndex(x) && i < |x.entries| && Claimed(out, owners, x, i)
    ensures x.entries[i].id in out ==> !(owners.Keys !! Ids(x.entries))
    ensures x.entries[i].id !in out ==> Claimed(out[x.entries[i].id := x.target], owners, x, i + 1)
  {
    hide Ids, ValidIndex, Claim;
    IdsGrow(x, i);
    ClaimKeys(owners, x.(entries := x.entries[..i]));
    if x.entries[i].id !in out {
      ClaimOne(out, owners, x, i);
      MapGrows(out, x.entries[i].id, x.target);
    }
  }

  lemma ClaimKeys(owners: map<string, string>, x: Index)
    ensures Claim(owners, x).Keys == owners.Keys + Ids(x.entries)
  {
  }

  lemma MapGrows<T>(m: map<string, T>, key: string, value: T)
    requires key !in m
    ensures |m[key := value]| == |m| + 1
  {
    assert m[key := value].Keys == m.Keys + {key};
  }

  lemma ClaimOne(out: map<string, string>, owners: map<string, string>, x: Index, i: nat)
    requires ValidIndex(x) && i < |x.entries| && x.entries[i].id !in owners
    requires out == Claim(owners, x.(entries := x.entries[..i]))
    ensures out[x.entries[i].id := x.target] == Claim(owners, x.(entries := x.entries[..i + 1]))
  {
    IdsGrow(x, i);
    hide Ids, ValidIndex;
  }

  lemma IdsGrow(x: Index, i: nat)
    requires ValidIndex(x) && i < |x.entries|
    ensures x.entries[i].id !in Ids(x.entries[..i])
    ensures Ids(x.entries[..i + 1]) == Ids(x.entries[..i]) + {x.entries[i].id}
    ensures x.entries[i].id in Ids(x.entries) && Ids(x.entries[..i]) <= Ids(x.entries)
  {
    assert x.entries[..i + 1] == x.entries[..i] + [x.entries[i]];
  }

  /** The second inner loop: a checked sum, which fails only past any admissible limit. */
  method AddBytes(total: nat, entries: seq<IndexEntry>) returns (r: Option<nat>)
    requires total <= U64_MAX
    ensures r == if total + EntryBytes(entries) <= U64_MAX then Some(total + EntryBytes(entries)) else None
  {
    var sum := total;
    for i := 0 to |entries|
      invariant sum == total + EntryBytes(entries[..i]) <= U64_MAX
    {
      assert entries[..i + 1][..i] == entries[..i];
      PrefixBytes(entries, i + 1);
      if sum + entries[i].bytes > U64_MAX {
        return None;
      }
      sum := sum + entries[i].bytes;
    }
    assert entries[..|entries|] == entries;
    r := Some(sum);
  }

  lemma {:induction false} PrefixBytes(entries: seq<IndexEntry>, n: nat)
    requires n <= |entries|
    ensures EntryBytes(entries[..n]) <= EntryBytes(entries)
    decreases |entries|
  {
    if n < |entries| {
      PrefixBytes(entries[..|entries| - 1], n);
      assert entries[..|entries| - 1][..n] == entries[..n];
    } else {
      assert entries[..n] == entries;
    }
  }

  // ---------------------------------------------------------------- input order

  function Without(s: seq<Index>, p: nat): seq<Index>
    requires p < |s|
  {
    s[..p] + s[p + 1..]
  }

  lemma WithoutOne(s: seq<Index>, p: nat)
    requires p < |s|
    ensures multiset(Without(s, p)) == multiset(s) - multiset{s[p]}
    ensures s[p] in multiset(s) && |Without(s, p)| == |s| - 1
  {
    assert s == s[..p] + [s[p]] + s[p + 1..];
  }

  lemma IndexOf(s: seq<Index>, x: Index) returns (p: nat)
    requires x in multiset(s)
    ensures p < |s| && s[p] == x
  {
    assert x in s;
    p :| p < |s| && s[p] == x;
  }

  lemma {:induction false} TotalsPermute(a: seq<Index>, b: seq<Index>)
    requires multiset(a) == multiset(b)
    ensures Entries(a) == Entries(b) && Bytes(a) == Bytes(b) && |a| == |b|
    decreases |a|
  {
    assert |a| == |multiset(a)| == |b|;
    if a != [] {
      var n := |a| - 1;
      WithoutOne(a, n);
      assert Without(a, n) == a[..n];
      var p := IndexOf(b, a[n]);
      WithoutOne(b, p);
      TotalsPermute(a[..n], Without(b, p));
      TotalsSplit(b, p);
    }
  }

  lemma {:induction false} TotalsSplit(b: seq<Index>, p: nat)
    requires p < |b|
    ensures Entries(b) == Entries(b[..p] + b[p + 1..]) + |b[p].entries|
    ensures Bytes(b) == Bytes(b[..p] + b[p + 1..]) + EntryBytes(b[p].entries)
    decreases |b|
  {
    var n := |b| - 1;
    var rest := b[..p] + b[p + 1..];
    if p < n {
      TotalsSplit(b[..n], p);
      assert rest[..n - 1] == b[..n][..p] + b[..n][p + 1..];
    } else {
      assert rest == b[..n];
    }
  }

  lemma ApartSymmetric(x: Index, y: Index)
    ensures Apart(x, y) ==> Apart(y, x)
  {
  }

  lemma SeparatePermutes(a: seq<Index>, b: seq<Index>)
    requires multiset(a) == multiset(b) && Separate(a)
    ensures Separate(b)
  {
    forall i, j | 0 <= i < j < |b| ensures Apart(b[i], b[j]) {
      hide Apart;
      WithoutOne(b, i);
      var p := IndexOf(a, b[i]);
      WithoutOne(a, p);
      assert Without(b, i)[j - 1] == b[j];
      assert b[j] in multiset(Without(b, i));
      var q := IndexOf(Without(a, p), b[j]);
      var u := if q < p then q else q + 1;
      assert a[u] == b[j];
      ApartSymmetric(a[p], a[u]);
      ApartSymmetric(a[u], a[p]);
    }
  }

  /** Input order affects neither acceptance nor the set that is built, of which there is only one. */
  lemma OrderIsIrrelevant(a: seq<Index>, b: seq<Index>, limits: SetLimits, s: IndexSet, t: IndexSet)
    requires multiset(a) == multiset(b)
    ensures Admissible(a, limits) <==> Admissible(b, limits)
    ensures Federates(s, a, limits.searchResults) <==> Federates(s, b, limits.searchResults)
    ensures Federates(s, a, limits.searchResults) && Federates(t, b, limits.searchResults) ==> s == t
  {
    hide IsLeastCeiling, Admissible;
    SamePermuted(a, b, limits);
    SameMembers(a, b, s, limits.searchResults);
    SameMembers(b, a, s, limits.searchResults);
    SameMembers(b, a, t, limits.searchResults);
    if Federates(s, a, limits.searchResults) && Federates(t, a, limits.searchResults) {
      assert s.indexes == t.indexes;
      assert s.owners == t.owners;
      OneLeast(s.maximumSearchResults, t.maximumSearchResults, a, limits.searchResults);
    }
  }

  lemma OneLeast(m: nat, n: nat, members: seq<Index>, ceiling: nat)
    requires IsLeastCeiling(m, members, ceiling) && IsLeastCeiling(n, members, ceiling)
    ensures m == n
  {
  }

  lemma SamePermuted(a: seq<Index>, b: seq<Index>, limits: SetLimits)
    requires multiset(a) == multiset(b)
    ensures Admissible(a, limits) <==> Admissible(b, limits)
    ensures forall x :: x in a <==> x in b
  {
    TotalsPermute(a, b);
    if Separate(a) {
      SeparatePermutes(a, b);
    }
    if Separate(b) {
      SeparatePermutes(b, a);
    }
    forall x ensures x in a <==> x in b {
      assert x in a <==> x in multiset(a);
      assert x in b <==> x in multiset(b);
    }
  }

  lemma SameMembers(a: seq<Index>, b: seq<Index>, s: IndexSet, ceiling: nat)
    requires forall x :: x in a <==> x in b
    ensures Federates(s, a, ceiling) ==> Federates(s, b, ceiling)
  {
  }

  // ---------------------------------------------------------------- searching the set

  /** The candidates of every member, as one flat namespace. */
  ghost function Union(members: seq<Index>, q: Query): set<Ranked> {
    if members == [] then {} else Union(members[..|members| - 1], q) + Candidates(members[|members| - 1], q)
  }

  /** The same, with every member first cut down to its own best `k`. */
  ghost function UnionOfBest(k: nat, members: seq<Index>, q: Query): set<Ranked> {
    if members == [] then {}
    else UnionOfBest(k, members[..|members| - 1], q) + Best(k, Candidates(members[|members| - 1], q))
  }

  lemma {:induction false} UnionMembers(members: seq<Index>, q: Query)
    ensures Union(members, q) == set x, c | x in members && c in Candidates(x, q) :: c
    decreases |members|
  {
    if members != [] {
      var n := |members| - 1;
      UnionMembers(members[..n], q);
      assert members == members[..n] + [members[n]];
    }
  }

  lemma UnionHasUniqueIds(members: seq<Index>, q: Query)
    requires Separate(members) && forall x :: x in members ==> ValidIndex(x)
    ensures UniqueIds(Union(members, q))
  {
    UnionMembers(members, q);
    forall a, b | a in Union(members, q) && b in Union(members, q) && a.entry.id == b.entry.id
      ensures a == b
    {
      var x :| x in members && a in Candidates(x, q);
      var y :| y in members && b in Candidates(y, q);
      assert Owns(x, a.entry.id) && Owns(y, a.entry.id);
      var i, j :| 0 <= i < |members| && 0 <= j < |members| && members[i] == x && members[j] == y;
      assert i == j;
    }
  }

  lemma UniqueIdsShrink(s: set<Ranked>, t: set<Ranked>)
    requires UniqueIds(s) && t <= s
    ensures UniqueIds(t)
  {
  }

  /** Federation loses nothing: the best of the union is the best of the members' own best. */
  lemma {:induction false} BestOfUnion(k: nat, members: seq<Index>, q: Query, more: set<Ranked>)
    requires UniqueIds(Union(members, q) + more)
    ensures Best(k, UnionOfBest(k, members, q) + more) == Best(k, Union(members, q) + more)
    decreases |members|
  {
    if members != [] {
      var n := |members| - 1;
      var last := Candidates(members[n], q);
      var init, cut := Union(members[..n], q), UnionOfBest(k, members[..n], q);
      assert Union(members, q) + more == init + (last + more);
      assert UnionOfBest(k, members, q) + more == cut + (Best(k, last) + more);
      UniqueIdsShrink(Union(members, q) + more, init + (Best(k, last) + more));
      BestOfUnion(k, members[..n], q, Best(k, last) + more);
      assert last + (init + more) == Union(members, q) + more;
      BestOfPart(k, last, init + more);
      assert init + (Best(k, last) + more) == Best(k, last) + (init + more);
    }
  }

  /** `AiCapabilityIndexSet::search` over the members in any order. */
  method SearchSet(s: IndexSet, q: Query, ghost members: seq<Index>, ghost ceiling: nat)
    returns (r: Result<seq<Ranked>, SetError>)
    requires Federates(s, members, ceiling) && Separate(members) && forall x :: x in members ==> ValidIndex(x)
    ensures r.Ok? <==> ValidQuery(q, s.maximumSearchResults)
    ensures r.Err? ==> r.error == InvalidQuery
    ensures r.Ok? ==> Lists(r.value, Best(q.maximumResults, Union(members, q)))
  {
    if !ValidQuery(q, s.maximumSearchResults) {
      return Err(InvalidQuery);
    }
    var ranked: seq<Ranked> := [];
    var left := s.indexes.Keys;
    while left != {}
      invariant left <= s.indexes.Keys
      invariant Lists(ranked, set t, c | t in s.indexes.Keys - left && c in Candidates(s.indexes[t], q) :: c)
    {
      var t :| t in left;
      var x := s.indexes[t];
      forall y, e | y in ranked && e in x.entries ensures y.entry.id != e.id {
        assert y in Elements(ranked);
        var u :| u in s.indexes.Keys - left && y in Candidates(s.indexes[u], q);
        assert Owns(s.indexes[u], y.entry.id) && Owns(x, e.id);
        OneOwner(s, members, ceiling, e.id, t, u);
      }
      ranked := RankEntries(x, q, ranked);
      left := left - {t};
    }
    UnionMembers(members, q);
    assert Elements(ranked) == Union(members, q);
    TruncationIsBest(ranked, Union(members, q), q.maximumResults);
    r := Ok(ranked[..Min(q.maximumResults, |ranked|)]);
  }

  /** Two result lists as one. */
  method Merge(a: seq<Ranked>, b: seq<Ranked>) returns (r: seq<Ranked>)
    requires Sorted(a) && UniqueIds(Elements(b)) && Sorted(b)
    requires forall x, y :: x in a && y in b ==> x.entry.id != y.entry.id
    ensures Lists(r, Elements(a) + Elements(b))
  {
    r := a;
    for i := 0 to |b|
      invariant Lists(r, Elements(a) + Elements(b[..i]))
    {
      assert b[..i + 1] == b[..i] + [b[i]];
      assert Elements(b[..i + 1]) == Elements(b[..i]) + {b[i]};
      forall y | y in r ensures y.entry.id != b[i].entry.id {
        assert y in Elements(r);
        BeforeIsStrict(b[i], b[i], b[i]);
      }
      r := Insert(r, b[i]);
    }
    assert b[..|b|] == b;
  }

  /** What a caller would do without the set: search every member, merge the answers and cut. */
  method SearchMembers(members: seq<Index>, q: Query, ceiling: nat) returns (r: Result<seq<Ranked>, SetError>)
    requires Separate(members) && forall x :: x in members ==> ValidIndex(x) && ceiling <= x.maximumSearchResults
    ensures r.Ok? <==> ValidQuery(q, ceiling)
    ensures r.Err? ==> r.error == InvalidQuery
    ensures r.Ok? ==> Lists(r.value, Best(q.maximumResults, Union(members, q)))
  {
    hide Best, ValidIndex, Candidates, Separate;
    if !ValidQuery(q, ceiling) {
      return Err(InvalidQuery);
    }
    var k := q.maximumResults;
    var merged: seq<Ranked> := [];
    UnionHasUniqueIds(members, q);
    for i := 0 to |members|
      invariant Lists(merged, UnionOfBest(k, members[..i], q))
    {
      assert members[..i + 1][..i] == members[..i];
      var own := Search(members[i], q);
      AnswersAreApart(k, members, q, i);
      merged := Merge(merged, own.value);
    }
    assert members[..|members|] == members;
    TruncationIsBest(merged, UnionOfBest(k, members, q), k);
    assert Union(members, q) + {} == Union(members, q);
    assert UnionOfBest(k, members, q) + {} == UnionOfBest(k, members, q);
    BestOfUnion(k, members, q, {});
    r := Ok(merged[..Min(k, |merged|)]);
  }

  /** Answers of different members share no identifier, and neither does one answer with itself. */
  lemma AnswersAreApart(k: nat, members: seq<Index>, q: Query, i: nat)
    requires UniqueIds(Union(members, q)) && Separate(members) && i < |members|
    ensures UniqueIds(Best(k, Candidates(members[i], q)))
    ensures forall x, y :: x in UnionOfBest(k, members[..i], q) && y in Best(k, Candidates(members[i], q)) ==>
              x.entry.id != y.entry.id
  {
    UnionMembers(members, q);
    forall y | y in Best(k, Candidates(members[i], q)) ensures y in Union(members, q) {
    }
    forall x, y | x in UnionOfBest(k, members[..i], q) && y in Best(k, Candidates(members[i], q))
      ensures x.entry.id != y.entry.id
    {
      var j := AnswerOf(k, members[..i], q, x);
      assert Apart(members[j], members[i]);
      assert Owns(members[j], x.entry.id) && Owns(members[i], y.entry.id);
    }
  }

  lemma {:induction false} AnswerOf(k: nat, members: seq<Index>, q: Query, x: Ranked) returns (j: nat)
    requires x in UnionOfBest(k, members, q)
    ensures j < |members| && x in Candidates(members[j], q)
    decreases |members|
  {
    var n := |members| - 1;
    if x in Best(k, Candidates(members[n], q)) {
      j := n;
    } else {
      j := AnswerOf(k, members[..n], q, x);
    }
  }

  /** Searching the set and merging the searches of its members are the same, answer for answer. */
  method FederatedSearchIsMerge(s: IndexSet, members: seq<Index>, q: Query, ghost ceiling: nat)
    returns (federated: Result<seq<Ranked>, SetError>, merged: Result<seq<Ranked>, SetError>)
    requires Federates(s, members, ceiling) && Separate(members) && forall x :: x in members ==> ValidIndex(x)
    ensures federated == merged
    ensures federated.Ok? <==> ValidQuery(q, s.maximumSearchResults)
  {
    hide Best, ValidIndex, Candidates, Separate, Lists, Union;
    federated := SearchSet(s, q, members, ceiling);
    merged := SearchMembers(members, q, s.maximumSearchResults);
    if federated.Ok? {
      ListingIsUnique(federated.value, merged.value, Best(q.maximumResults, Union(members, q)));
    }
  }
}
