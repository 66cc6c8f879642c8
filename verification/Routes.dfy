/** The breadth-first searches for the route from a result type to a semantic entity. */
module Routes {
  import opened Common
  import opened TypeText
  import opened Schema

  datatype Segment = Segment(fieldName: string, isList: bool)

  type Route = seq<Segment>

  datatype Arrival = Arrival(typeName: string, route: Route)

  // ---------------------------------------------------------------- reference: one level at a time

  function ChildrenFrom(types: Types, fields: seq<SchemaField>, route: Route): seq<Arrival> {
    if fields == [] then []
    else
      var base := fields[0].ty.Base();
      (if IsObject(types, base) then [Arrival(base, route + [Segment(fields[0].name, fields[0].ty.ListOf?)])] else [])
      + ChildrenFrom(types, fields[1..], route)
  }

  /** Arrivals one field further on; an arrival at a stop or at a non-object has none. */
  function Children(types: Types, stops: set<string>, a: Arrival): seq<Arrival> {
    if a.typeName in stops || !IsObject(types, a.typeName) then []
    else ChildrenFrom(types, types[a.typeName].fields, a.route)
  }

  function Next(types: Types, stops: set<string>, level: seq<Arrival>): seq<Arrival> {
    if level == [] then [] else Children(types, stops, level[0]) + Next(types, stops, level[1..])
  }

  function Level(types: Types, stops: set<string>, start: string, k: nat): seq<Arrival> {
    if k == 0 then [Arrival(start, [])] else Next(types, stops, Level(types, stops, start, k - 1))
  }

  function Hits(stops: set<string>, level: seq<Arrival>): seq<Arrival> {
    if level == [] then []
    else (if level[0].typeName in stops then [level[0]] else []) + Hits(stops, level[1..])
  }

  /** All arrivals at stops after fewer than `k` segments, shorter routes first. */
  function HitsBelow(types: Types, stops: set<string>, start: string, k: nat): seq<Arrival> {
    if k == 0 then [] else HitsBelow(types, stops, start, k - 1) + Hits(stops, Level(types, stops, start, k - 1))
  }

  lemma {:induction false} NextSplit(types: Types, stops: set<string>, a: seq<Arrival>, b: seq<Arrival>)
    ensures Next(types, stops, a + b) == Next(types, stops, a) + Next(types, stops, b)
  {
    if a == [] {
      assert a + b == b;
    } else {
      assert (a + b)[1..] == a[1..] + b;
      NextSplit(types, stops, a[1..], b);
    }
  }

  lemma {:induction false} HitsSplit(stops: set<string>, a: seq<Arrival>, b: seq<Arrival>)
    ensures Hits(stops, a + b) == Hits(stops, a) + Hits(stops, b)
  {
    if a == [] {
      assert a + b == b;
    } else {
      assert (a + b)[1..] == a[1..] + b;
      HitsSplit(stops, a[1..], b);
    }
  }

  lemma {:induction false} ChildrenLength(types: Types, fields: seq<SchemaField>, route: Route)
    ensures forall a :: a in ChildrenFrom(types, fields, route) ==>
              |a.route| == |route| + 1 && a.route[..|route|] == route
  {
    if fields != [] {
      ChildrenLength(types, fields[1..], route);
      assert forall seg: Segment :: (route + [seg])[..|route|] == route;
    }
  }

  lemma {:induction false} NextLength(types: Types, stops: set<string>, level: seq<Arrival>, k: nat)
    requires forall a :: a in level ==> |a.route| == k
    ensures forall a :: a in Next(types, stops, level) ==> |a.route| == k + 1
  {
    if level != [] {
      NextLength(types, stops, level[1..], k);
      if IsObject(types, level[0].typeName) {
        ChildrenLength(types, types[level[0].typeName].fields, level[0].route);
      }
    }
  }

  lemma {:induction false} LevelLength(types: Types, stops: set<string>, start: string, k: nat)
    ensures forall a :: a in Level(types, stops, start, k) ==> |a.route| == k
  {
    if k > 0 {
      LevelLength(types, stops, start, k - 1);
      NextLength(types, stops, Level(types, stops, start, k - 1), k - 1);
    }
  }

  lemma {:induction false} NothingBeyondEmpty(types: Types, stops: set<string>, start: string, k: nat, m: nat)
    requires Level(types, stops, start, k) == [] && k <= m
    ensures HitsBelow(types, stops, start, m) == HitsBelow(types, stops, start, k)
    ensures Level(types, stops, start, m) == []
    decreases m
  {
    if k < m {
      NothingBeyondEmpty(types, stops, start, k, m - 1);
    }
  }

  // ---------------------------------------------------------------- the queue search

  /** What the queue and the results hold while level `k` is being drained, `done` before `todo`. */
  ghost predicate Draining(types: Types, stops: set<string>, start: string, maximumDepth: nat, k: nat,
                           done: seq<Arrival>, todo: seq<Arrival>, queue: seq<Arrival>, results: seq<Arrival>)
  {
    && k <= maximumDepth + 1
    && Level(types, stops, start, k) == done + todo
    && queue == todo + (if k <= maximumDepth then Next(types, stops, done) else [])
    && results == HitsBelow(types, stops, start, k) + (if k <= maximumDepth then Hits(stops, done) else [])
  }

  lemma TodoIsOnLevel(types: Types, stops: set<string>, start: string, k: nat, done: seq<Arrival>, todo: seq<Arrival>)
    requires Level(types, stops, start, k) == done + todo && todo != []
    ensures |todo[0].route| == k
    ensures Level(types, stops, start, k) == (done + [todo[0]]) + todo[1..]
  {
    LevelLength(types, stops, start, k);
    assert (done + todo)[|done|] == todo[0];
    assert done + todo == (done + [todo[0]]) + todo[1..];
  }

  lemma DrainOne(types: Types, stops: set<string>, start: string, maximumDepth: nat, k: nat,
                 done: seq<Arrival>, todo: seq<Arrival>, queue: seq<Arrival>, results: seq<Arrival>)
    requires Draining(types, stops, start, maximumDepth, k, done, todo, queue, results) && todo != []
      && k <= maximumDepth
    ensures Draining(types, stops, start, maximumDepth, k, done + [todo[0]], todo[1..],
                     queue[1..] + Children(types, stops, todo[0]), results + Hits(stops, [todo[0]]))
  {
    TodoIsOnLevel(types, stops, start, k, done, todo);
    NextOfOne(types, stops, done, todo[0]);
    HitsSplit(stops, done, [todo[0]]);
    PopThenAppend(todo, Next(types, stops, done), Children(types, stops, todo[0]));
    Regroup(HitsBelow(types, stops, start, k), Hits(stops, done), Hits(stops, [todo[0]]));
  }

  lemma PopThenAppend(todo: seq<Arrival>, next: seq<Arrival>, children: seq<Arrival>)
    requires todo != []
    ensures (todo + next)[1..] + children == todo[1..] + (next + children)
  {
  }

  lemma Regroup(a: seq<Arrival>, b: seq<Arrival>, c: seq<Arrival>)
    ensures (a + b) + c == a + (b + c)
  {
  }

  lemma NextOfOne(types: Types, stops: set<string>, done: seq<Arrival>, a: Arrival)
    ensures Next(types, stops, done + [a]) == Next(types, stops, done) + Children(types, stops, a)
  {
    NextSplit(types, stops, done, [a]);
    assert [a][1..] == [];
    assert Next(types, stops, [a]) == Children(types, stops, a) + [];
  }

  lemma DrainNextLevel(types: Types, stops: set<string>, start: string, maximumDepth: nat, k: nat,
                       done: seq<Arrival>, queue: seq<Arrival>, results: seq<Arrival>)
    requires Draining(types, stops, start, maximumDepth, k, done, [], queue, results) && k <= maximumDepth
    ensures Draining(types, stops, start, maximumDepth, k + 1, [], queue, queue, results)
  {
    assert done + [] == done;
    assert Level(types, stops, start, k + 1) == queue == [] + queue;
    assert HitsBelow(types, stops, start, k + 1) == results;
    assert queue + Next(types, stops, []) == queue;
    assert results + Hits(stops, []) == results;
  }

  method Enqueue(
    types: Types, fields: seq<SchemaField>, route: Route, pending: seq<Arrival>) returns (queue: seq<Arrival>)
    ensures queue == pending + ChildrenFrom(types, fields, route)
  {
    queue := pending;
    var i := 0;
    while i < |fields|
      invariant i <= |fields|
      invariant queue + ChildrenFrom(types, fields[i..], route) == pending + ChildrenFrom(types, fields, route)
    {
      var base := fields[i].ty.Base();
      assert fields[i..][1..] == fields[i + 1..];
      if IsObject(types, base) {
        queue := queue + [Arrival(base, route + [Segment(fields[i].name, fields[i].ty.ListOf?)])];
      }
      i := i + 1;
    }
  }

  /**
   * The search shared by `unique_entity_route` and `resolve_specific_entity_route`. There is no visited
   * set: on a cyclic type graph it terminates because every queued route is on one of finitely many levels.
   */
  method SearchRoutes(
    types: Types, stops: set<string>, start: string, maximumDepth: nat) returns (results: seq<Arrival>)
    ensures results == HitsBelow(types, stops, start, maximumDepth + 1)
  {
    hide Draining, Hits, HitsBelow, Level, Next, ChildrenFrom;
    var queue := [Arrival(start, [])];
    results := [];
    ghost var k, done, todo := 0, [], queue;
    StartDraining(types, stops, start, maximumDepth);
    while queue != []
      invariant Draining(types, stops, start, maximumDepth, k, done, todo, queue, results)
      invariant k <= maximumDepth + 1
      invariant todo == [] ==> queue == [] && (done == [] || k == maximumDepth + 1)
      decreases maximumDepth + 1 - k, |todo|
    {
      DrainedSoFar(types, stops, start, maximumDepth, k, done, todo, queue, results);
      if k <= maximumDepth {
        DrainOne(types, stops, start, maximumDepth, k, done, todo, queue, results);
      } else {
        DrainBeyond(types, stops, start, maximumDepth, k, done, todo, queue, results);
      }
      var current := queue[0];
      queue := queue[1..];
      if |current.route| <= maximumDepth {
        HitsOfOne(types, stops, current);
        assert queue + [] == queue && results + [] == results;
        if current.typeName in stops {
          results := results + [current];
        } else if IsObject(types, current.typeName) {
          queue := Enqueue(types, types[current.typeName].fields, current.route, queue);
        }
      }
      done, todo := done + [current], todo[1..];
      if todo == [] && k <= maximumDepth {
        DrainNextLevel(types, stops, start, maximumDepth, k, done, queue, results);
        k, done, todo := k + 1, [], queue;
      }
    }
    DrainedAll(types, stops, start, maximumDepth, k, done, todo, queue, results);
  }

  lemma StartDraining(types: Types, stops: set<string>, start: string, maximumDepth: nat)
    ensures Draining(types, stops, start, maximumDepth, 0, [], [Arrival(start, [])], [Arrival(start, [])], [])
  {
  }

  lemma DrainedSoFar(types: Types, stops: set<string>, start: string, maximumDepth: nat, k: nat,
                     done: seq<Arrival>, todo: seq<Arrival>, queue: seq<Arrival>, results: seq<Arrival>)
    requires Draining(types, stops, start, maximumDepth, k, done, todo, queue, results) && todo != []
    ensures queue != [] && queue[0] == todo[0] && |todo[0].route| == k
  {
    TodoIsOnLevel(types, stops, start, k, done, todo);
  }

  /** Past the depth limit the queue is only emptied. */
  lemma DrainBeyond(types: Types, stops: set<string>, start: string, maximumDepth: nat, k: nat,
                    done: seq<Arrival>, todo: seq<Arrival>, queue: seq<Arrival>, results: seq<Arrival>)
    requires Draining(types, stops, start, maximumDepth, k, done, todo, queue, results) && todo != []
      && k > maximumDepth
    ensures Draining(types, stops, start, maximumDepth, k, done + [todo[0]], todo[1..], queue[1..], results)
  {
    TodoIsOnLevel(types, stops, start, k, done, todo);
    assert queue == todo + [] == todo;
    assert queue[1..] == todo[1..] + [];
  }

  lemma HitsOfOne(types: Types, stops: set<string>, a: Arrival)
    ensures Hits(stops, [a]) == if a.typeName in stops then [a] else []
    ensures a.typeName in stops || !IsObject(types, a.typeName) ==> Children(types, stops, a) == []
  {
  }

  lemma DrainedAll(types: Types, stops: set<string>, start: string, maximumDepth: nat, k: nat,
                   done: seq<Arrival>, todo: seq<Arrival>, queue: seq<Arrival>, results: seq<Arrival>)
    requires Draining(types, stops, start, maximumDepth, k, done, todo, queue, results) && queue == []
    requires todo == [] ==> done == [] || k == maximumDepth + 1
    ensures results == HitsBelow(types, stops, start, maximumDepth + 1)
  {
    if k <= maximumDepth {
      NothingBeyondEmpty(types, stops, start, k, maximumDepth + 1);
    }
  }

  // ---------------------------------------------------------------- routes as walks

  /** Following one segment from an object type leads to another object type. */
  ghost predicate Step(types: Types, from: string, segment: Segment, to: string) {
    var f := ObjectField(types, from, segment.fieldName);
    f.Some? && f.value.ty.Base() == to && IsObject(types, to) && segment.isList == f.value.ty.ListOf?
  }

  /** A walk whose interior types are not stops. */
  ghost predicate Walk(types: Types, stops: set<string>, start: string, route: Route, dest: string) {
    if route == [] then dest == start
    else exists mid ::
      mid !in stops && Walk(types, stops, start, route[..|route| - 1], mid)
        && Step(types, mid, route[|route| - 1], dest)
  }

  lemma WalkNowhere(types: Types, stops: set<string>, start: string)
    ensures Walk(types, stops, start, [], start)
  {
  }

  lemma WalkSnoc(types: Types, stops: set<string>, start: string, route: Route, mid: string, s: Segment, dest: string)
    requires mid !in stops && Walk(types, stops, start, route, mid) && Step(types, mid, s, dest)
    ensures Walk(types, stops, start, route + [s], dest)
  {
    hide Step;
    var longer := route + [s];
    assert longer[..|longer| - 1] == route && longer[|longer| - 1] == s;
  }

  lemma {:induction false} ChildrenAreSteps(types: Types, fields: seq<SchemaField>, route: Route, a: Arrival)
    ensures a in ChildrenFrom(types, fields, route) <==>
            exists f :: f in fields && IsObject(types, a.typeName) && f.ty.Base() == a.typeName
                        && a.route == route + [Segment(f.name, f.ty.ListOf?)]
  {
    if fields != [] {
      ChildrenAreSteps(types, fields[1..], route, a);
      assert fields == [fields[0]] + fields[1..];
    }
  }

  lemma {:induction false} NextMembers(types: Types, stops: set<string>, level: seq<Arrival>, a: Arrival)
    ensures a in Next(types, stops, level) <==> exists p :: p in level && a in Children(types, stops, p)
  {
    if level != [] {
      NextMembers(types, stops, level[1..], a);
      assert level == [level[0]] + level[1..];
    }
  }

  lemma ChildIsStep(types: Types, stops: set<string>, p: Arrival, a: Arrival)
    requires WellFormedTypes(types)
    ensures a in Children(types, stops, p) <==>
            && p.typeName !in stops && |a.route| == |p.route| + 1 && a.route[..|p.route|] == p.route
            && Step(types, p.typeName, a.route[|p.route|], a.typeName)
  {
    if p.typeName !in stops && IsObject(types, p.typeName) {
      var fields, n := types[p.typeName].fields, |p.route|;
      ChildrenAreSteps(types, fields, p.route, a);
      if a in Children(types, stops, p) {
        var f :| f in fields && f.ty.Base() == a.typeName && a.route == p.route + [Segment(f.name, f.ty.ListOf?)];
        FieldIsFound(types, p.typeName, f);
      }
      if |a.route| == n + 1 && a.route[..n] == p.route && Step(types, p.typeName, a.route[n], a.typeName) {
        var f := ObjectField(types, p.typeName, a.route[n].fieldName).value;
        assert a.route == p.route + [Segment(f.name, f.ty.ListOf?)];
      }
    }
  }

  /** A walk of positive length extends a shorter one by a child of its end. */
  lemma WalkExtends(types: Types, stops: set<string>, start: string, p: Arrival, a: Arrival)
    requires WellFormedTypes(types)
    requires a in Children(types, stops, p) && Walk(types, stops, start, p.route, p.typeName)
    ensures |a.route| == |p.route| + 1 && Walk(types, stops, start, a.route, a.typeName)
  {
    ChildIsStep(types, stops, p, a);
  }

  lemma WalkParent(types: Types, stops: set<string>, start: string, a: Arrival) returns (p: Arrival)
    requires WellFormedTypes(types) && a.route != [] && Walk(types, stops, start, a.route, a.typeName)
    ensures |p.route| == |a.route| - 1 && Walk(types, stops, start, p.route, p.typeName)
    ensures a in Children(types, stops, p)
  {
    var n := |a.route| - 1;
    var mid :| mid !in stops && Walk(types, stops, start, a.route[..n], mid)
      && Step(types, mid, a.route[n], a.typeName);
    p := Arrival(mid, a.route[..n]);
    ChildIsStep(types, stops, p, a);
  }

  lemma LevelParent(types: Types, stops: set<string>, start: string, k: nat, a: Arrival) returns (p: Arrival)
    requires k > 0 && a in Level(types, stops, start, k)
    ensures p in Level(types, stops, start, k - 1) && a in Children(types, stops, p)
  {
    var previous := Level(types, stops, start, k - 1);
    NextMembers(types, stops, previous, a);
    p :| p in previous && a in Children(types, stops, p);
  }

  lemma {:induction false} LevelHoldsWalks(types: Types, stops: set<string>, start: string, k: nat, a: Arrival)
    requires WellFormedTypes(types) && a in Level(types, stops, start, k)
    ensures |a.route| == k && Walk(types, stops, start, a.route, a.typeName)
  {
    hide Next, Children, Step;
    if k > 0 {
      var p := LevelParent(types, stops, start, k, a);
      LevelHoldsWalks(types, stops, start, k - 1, p);
      WalkExtends(types, stops, start, p, a);
    }
  }

  lemma {:induction false} WalkIsOnLevel(types: Types, stops: set<string>, start: string, k: nat, a: Arrival)
    requires WellFormedTypes(types) && |a.route| == k && Walk(types, stops, start, a.route, a.typeName)
    ensures a in Level(types, stops, start, k)
  {
    if k > 0 {
      var p := WalkParent(types, stops, start, a);
      WalkIsOnLevel(types, stops, start, k - 1, p);
      NextMembers(types, stops, Level(types, stops, start, k - 1), a);
    }
  }

  lemma FieldIsFound(types: Types, typeName: string, f: SchemaField)
    requires WellFormedTypes(types) && IsObject(types, typeName) && f in types[typeName].fields
    ensures ObjectField(types, typeName, f.name) == Some(f)
  {
    var i :| 0 <= i < |types[typeName].fields| && types[typeName].fields[i] == f;
    FindFieldAt(types[typeName].fields, i);
  }

  lemma {:induction false} HitsMembers(stops: set<string>, level: seq<Arrival>, a: Arrival)
    ensures a in Hits(stops, level) <==> a in level && a.typeName in stops
  {
    if level != [] {
      HitsMembers(stops, level[1..], a);
      assert level == [level[0]] + level[1..];
    }
  }

  /** The search finds exactly the stop-free walks to a stop within the bound. */
  lemma {:induction false} SearchIsExact(types: Types, stops: set<string>, start: string, k: nat, a: Arrival)
    requires WellFormedTypes(types)
    ensures a in HitsBelow(types, stops, start, k) <==>
            a.typeName in stops && |a.route| < k && Walk(types, stops, start, a.route, a.typeName)
  {
    if k > 0 {
      SearchIsExact(types, stops, start, k - 1, a);
      HitsMembers(stops, Level(types, stops, start, k - 1), a);
      if a in Level(types, stops, start, k - 1) {
        LevelHoldsWalks(types, stops, start, k - 1, a);
      } else if |a.route| == k - 1 && Walk(types, stops, start, a.route, a.typeName) {
        WalkIsOnLevel(types, stops, start, k - 1, a);
      }
    }
  }

  // ---------------------------------------------------------------- order and uniqueness of hits

  ghost predicate DistinctRoutes(s: seq<Arrival>) {
    forall i, j :: 0 <= i < j < |s| ==> s[i].route != s[j].route
  }

  ghost predicate ByLength(s: seq<Arrival>) {
    forall i, j :: 0 <= i < j < |s| ==> |s[i].route| <= |s[j].route|
  }

  lemma {:induction false} ChildrenDistinct(types: Types, fields: seq<SchemaField>, route: Route)
    requires DistinctFieldNames(fields)
    ensures DistinctRoutes(ChildrenFrom(types, fields, route))
  {
    if fields != [] {
      var rest := ChildrenFrom(types, fields[1..], route);
      ChildrenDistinct(types, fields[1..], route);
      forall a | a in rest ensures a.route != route + [Segment(fields[0].name, fields[0].ty.ListOf?)] {
        ChildrenAreSteps(types, fields[1..], route, a);
        var f :| f in fields[1..] && a.route == route + [Segment(f.name, f.ty.ListOf?)];
        assert a.route[|route|].fieldName != fields[0].name;
      }
    }
  }

  lemma {:induction false} NextDistinct(types: Types, stops: set<string>, level: seq<Arrival>, k: nat)
    requires WellFormedTypes(types) && DistinctRoutes(level)
    requires forall a :: a in level ==> |a.route| == k
    ensures DistinctRoutes(Next(types, stops, level))
    ensures forall a :: a in Next(types, stops, level) ==>
              |a.route| == k + 1 && exists p :: p in level && a.route[..k] == p.route
  {
    if level != [] {
      var children, rest := Children(types, stops, level[0]), Next(types, stops, level[1..]);
      NextDistinct(types, stops, level[1..], k);
      if IsObject(types, level[0].typeName) {
        ChildrenDistinct(types, types[level[0].typeName].fields, level[0].route);
        ChildrenLength(types, types[level[0].typeName].fields, level[0].route);
      }
      forall a, b | a in children && b in rest ensures a.route != b.route {
        var p :| p in level[1..] && b.route[..k] == p.route;
        assert a.route[..k] == level[0].route;
      }
      assert forall p :: p in level[1..] ==> p in level;
    }
  }

  lemma {:induction false} LevelDistinct(types: Types, stops: set<string>, start: string, k: nat)
    requires WellFormedTypes(types)
    ensures DistinctRoutes(Level(types, stops, start, k))
  {
    if k > 0 {
      LevelDistinct(types, stops, start, k - 1);
      LevelLength(types, stops, start, k - 1);
      NextDistinct(types, stops, Level(types, stops, start, k - 1), k - 1);
    }
  }

  lemma {:induction false} HitsDistinct(stops: set<string>, level: seq<Arrival>)
    requires DistinctRoutes(level)
    ensures DistinctRoutes(Hits(stops, level))
  {
    if level != [] {
      HitsDistinct(stops, level[1..]);
      forall a | a in Hits(stops, level[1..]) ensures a.route != level[0].route {
        HitsMembers(stops, level[1..], a);
      }
    }
  }

  lemma ConcatOrdered(a: seq<Arrival>, b: seq<Arrival>, k: nat)
    requires DistinctRoutes(a) && ByLength(a) && (forall i :: 0 <= i < |a| ==> |a[i].route| < k)
    requires DistinctRoutes(b) && (forall i :: 0 <= i < |b| ==> |b[i].route| == k)
    ensures DistinctRoutes(a + b) && ByLength(a + b)
    ensures forall i :: 0 <= i < |a + b| ==> |(a + b)[i].route| < k + 1
  {
  }

  /** Hits come shortest first and never twice. */
  lemma {:induction false} HitsAreOrdered(types: Types, stops: set<string>, start: string, k: nat)
    requires WellFormedTypes(types)
    ensures DistinctRoutes(HitsBelow(types, stops, start, k)) && ByLength(HitsBelow(types, stops, start, k))
    ensures forall i :: 0 <= i < |HitsBelow(types, stops, start, k)| ==>
              |HitsBelow(types, stops, start, k)[i].route| < k
  {
    if k > 0 {
      var level := Level(types, stops, start, k - 1);
      HitsAreOrdered(types, stops, start, k - 1);
      LevelDistinct(types, stops, start, k - 1);
      HitsDistinct(stops, level);
      var hits := Hits(stops, level);
      forall i | 0 <= i < |hits| ensures |hits[i].route| == k - 1 {
        HitsMembers(stops, level, hits[i]);
        LevelLength(types, stops, start, k - 1);
      }
      ConcatOrdered(HitsBelow(types, stops, start, k - 1), hits, k - 1);
    }
  }

  // ---------------------------------------------------------------- unique_entity_route

  datatype RouteError = Unreachable | Ambiguous

  /** Reads the outcome off the hits, which are ordered by length. */
  function UniqueRoute(hits: seq<Arrival>): Result<Arrival, RouteError> {
    if hits == [] then Err(Unreachable)
    else if exists i :: 1 <= i < |hits| && |hits[i].route| == |hits[0].route| then Err(Ambiguous)
    else Ok(hits[0])
  }

  /** `sort_by_key` on the route length: a stable insertion sort. */
  function SortByLength(s: seq<Arrival>): seq<Arrival> {
    if s == [] then [] else InsertByLength(SortByLength(s[..|s| - 1]), s[|s| - 1])
  }

  function InsertByLength(s: seq<Arrival>, a: Arrival): seq<Arrival> {
    if s == [] || |s[|s| - 1].route| <= |a.route| then s + [a]
    else InsertByLength(s[..|s| - 1], a) + [s[|s| - 1]]
  }

  lemma {:induction false} SortKeepsOrdered(s: seq<Arrival>)
    requires ByLength(s)
    ensures SortByLength(s) == s
  {
    if s != [] {
      SortKeepsOrdered(s[..|s| - 1]);
      assert s == s[..|s| - 1] + [s[|s| - 1]];
    }
  }

  method UniqueEntityRoute(types: Types, entities: set<string>, start: string, maximumDepth: nat)
    returns (r: Result<Arrival, RouteError>)
    requires WellFormedTypes(types)
    ensures r == UniqueRoute(HitsBelow(types, entities, start, maximumDepth + 1))
  {
    hide HitsBelow, DistinctRoutes, SortByLength, WellFormedTypes;
    var results := SearchRoutes(types, entities, start, maximumDepth);
    HitsAreOrdered(types, entities, start, maximumDepth + 1);
    SortKeepsOrdered(results);
    results := SortByLength(results);
    if results == [] {
      return Err(Unreachable);
    }
    var i := 1;
    while i < |results|
      invariant 1 <= i <= |results|
      invariant forall j :: 1 <= j < i ==> |results[j].route| != |results[0].route|
    {
      if |results[i].route| == |results[0].route| {
        return Err(Ambiguous);
      }
      i := i + 1;
    }
    r := Ok(results[0]);
  }

  ghost predicate EntityRoute(types: Types, entities: set<string>, start: string, maximumDepth: nat, a: Arrival) {
    a.typeName in entities && |a.route| <= maximumDepth && Walk(types, entities, start, a.route, a.typeName)
  }

  ghost predicate ShortestRoute(types: Types, entities: set<string>, start: string, maximumDepth: nat, a: Arrival) {
    && EntityRoute(types, entities, start, maximumDepth, a)
    && forall b :: EntityRoute(types, entities, start, maximumDepth, b) ==> |a.route| <= |b.route|
  }

  lemma HitsAreEntityRoutes(types: Types, entities: set<string>, start: string, maximumDepth: nat)
    requires WellFormedTypes(types)
    ensures forall a :: a in HitsBelow(types, entities, start, maximumDepth + 1) <==>
                        EntityRoute(types, entities, start, maximumDepth, a)
  {
    forall a ensures a in HitsBelow(types, entities, start, maximumDepth + 1) <==>
                     EntityRoute(types, entities, start, maximumDepth, a)
    {
      SearchIsExact(types, entities, start, maximumDepth + 1, a);
    }
  }

  /** The shortest routes are the hits that are as short as the first one. */
  lemma ShortestAreLeadingHits(
    types: Types, entities: set<string>, start: string, maximumDepth: nat, hits: seq<Arrival>, a: Arrival)
    requires hits != [] && ByLength(hits)
    requires forall b :: b in hits <==> EntityRoute(types, entities, start, maximumDepth, b)
    ensures ShortestRoute(types, entities, start, maximumDepth, a) <==> a in hits && |a.route| == |hits[0].route|
  {
    assert hits[0] in hits;
    forall b | b in hits ensures |hits[0].route| <= |b.route| {
      var i :| 0 <= i < |hits| && hits[i] == b;
    }
  }

  ghost predicate TwoShortest(types: Types, entities: set<string>, start: string, maximumDepth: nat) {
    exists a: Arrival, b: Arrival ::
      && ShortestRoute(types, entities, start, maximumDepth, a)
      && ShortestRoute(types, entities, start, maximumDepth, b)
      && a.route != b.route
  }

  lemma TiesAreTwoShortest(types: Types, entities: set<string>, start: string, maximumDepth: nat, hits: seq<Arrival>)
    requires hits != [] && ByLength(hits) && DistinctRoutes(hits)
    requires forall b :: b in hits <==> EntityRoute(types, entities, start, maximumDepth, b)
    ensures (exists i :: 1 <= i < |hits| && |hits[i].route| == |hits[0].route|)
            <==> TwoShortest(types, entities, start, maximumDepth)
  {
    if i :| 1 <= i < |hits| && |hits[i].route| == |hits[0].route| {
      ShortestAreLeadingHits(types, entities, start, maximumDepth, hits, hits[0]);
      ShortestAreLeadingHits(types, entities, start, maximumDepth, hits, hits[i]);
      assert hits[0] in hits && hits[i] in hits;
    }
    if TwoShortest(types, entities, start, maximumDepth) {
      var a, b :| && ShortestRoute(types, entities, start, maximumDepth, a)
                  && ShortestRoute(types, entities, start, maximumDepth, b)
                  && a.route != b.route;
      ShortestAreLeadingHits(types, entities, start, maximumDepth, hits, a);
      ShortestAreLeadingHits(types, entities, start, maximumDepth, hits, b);
      var i :| 0 <= i < |hits| && hits[i] == a;
      var j :| 0 <= j < |hits| && hits[j] == b;
      assert i > 0 || j > 0;
    }
  }

  /** The outcome decides, for every schema, whether a shortest entity route exists and is the only one. */
  lemma UniqueRouteDecides(types: Types, entities: set<string>, start: string, maximumDepth: nat)
    requires WellFormedTypes(types)
    ensures var r := UniqueRoute(HitsBelow(types, entities, start, maximumDepth + 1));
            && (r.Ok? ==> ShortestRoute(types, entities, start, maximumDepth, r.value))
            && (r == Err(Unreachable) <==> forall b :: !EntityRoute(types, entities, start, maximumDepth, b))
            && (r == Err(Ambiguous) <==> TwoShortest(types, entities, start, maximumDepth))
  {
    var hits := HitsBelow(types, entities, start, maximumDepth + 1);
    HitsAreOrdered(types, entities, start, maximumDepth + 1);
    HitsAreEntityRoutes(types, entities, start, maximumDepth);
    if hits == [] {
      assert forall b :: !EntityRoute(types, entities, start, maximumDepth, b);
    } else {
      assert hits[0] in hits;
      TiesAreTwoShortest(types, entities, start, maximumDepth, hits);
      ShortestAreLeadingHits(types, entities, start, maximumDepth, hits, hits[0]);
    }
  }

  // ---------------------------------------------------------------- resolve_specific_entity_route

  /** `root_list_route`. */
  function RootListRoute(ty: Type): Route {
    if ty.ListOf? then [Segment("", true)] else []
  }

  function SpecificRoute(types: Types, target: string, ty: Type, maximumDepth: nat): Option<Route> {
    if ty.Base() == target then Some(RootListRoute(ty))
    else
      var hits := HitsBelow(types, {target}, ty.Base(), maximumDepth + 1);
      if hits == [] then None else Some(RootListRoute(ty) + hits[0].route)
  }

  method ResolveSpecificEntityRoute(
    types: Types, target: string, ty: Type, maximumDepth: nat) returns (r: Option<Route>)
    requires WellFormedTypes(types)
    ensures r == SpecificRoute(types, target, ty, maximumDepth)
  {
    if ty.Base() == target {
      return Some(RootListRoute(ty));
    }
    var results := SearchRoutes(types, {target}, ty.Base(), maximumDepth);
    HitsAreOrdered(types, {target}, ty.Base(), maximumDepth + 1);
    if results == [] {
      return None;
    }
    MinOfOrdered(results);
    r := Some(RootListRoute(ty) + MinByLength(results).route);
  }

  /** `min_by_key` on the route length: the first of equally short routes. */
  function MinByLength(s: seq<Arrival>): Arrival
    requires s != []
  {
    if |s| == 1 then s[0]
    else
      var rest := MinByLength(s[1..]);
      if |s[0].route| <= |rest.route| then s[0] else rest
  }

  lemma {:induction false} MinOfOrdered(s: seq<Arrival>)
    requires s != [] && ByLength(s)
    ensures MinByLength(s) == s[0]
  {
    if |s| > 1 {
      MinOfOrdered(s[1..]);
    }
  }

  /** A route read from its start: an empty name stands for the list wrapper of the result itself. */
  ghost predicate Leads(types: Types, start: string, route: Route, target: string)
    decreases |route|
  {
    if route == [] then start == target
    else exists next :: Step(types, start, route[0], next) && Leads(types, next, route[1..], target)
  }

  lemma {:induction false} LeadsSnoc(
    types: Types, start: string, route: Route, mid: string, segment: Segment, target: string)
    requires Leads(types, start, route, mid) && Step(types, mid, segment, target)
    ensures Leads(types, start, route + [segment], target)
    decreases |route|
  {
    if route == [] {
      assert ([segment])[1..] == [];
      assert Leads(types, target, [], target);
      assert route + [segment] == [segment];
    } else {
      var next :| Step(types, start, route[0], next) && Leads(types, next, route[1..], mid);
      LeadsSnoc(types, next, route[1..], mid, segment, target);
      assert (route + [segment])[1..] == route[1..] + [segment];
    }
  }

  lemma {:induction false} WalkLeads(types: Types, stops: set<string>, start: string, route: Route, dest: string)
    requires Walk(types, stops, start, route, dest)
    ensures Leads(types, start, route, dest)
    decreases |route|
  {
    if route != [] {
      var n := |route| - 1;
      var mid :| mid !in stops && Walk(types, stops, start, route[..n], mid) && Step(types, mid, route[n], dest);
      WalkLeads(types, stops, start, route[..n], mid);
      LeadsSnoc(types, start, route[..n], mid, route[n], dest);
      assert route == route[..n] + [route[n]];
    }
  }

  /** The resolved route leads to the target, and no admissible route is shorter. */
  lemma SpecificRouteIsShortest(types: Types, target: string, ty: Type, maximumDepth: nat)
    requires WellFormedTypes(types) && SpecificRoute(types, target, ty, maximumDepth).Some?
    ensures var lead, r := RootListRoute(ty), SpecificRoute(types, target, ty, maximumDepth).value;
            && lead <= r
            && Leads(types, ty.Base(), r[|lead|..], target)
            && forall b :: EntityRoute(types, {target}, ty.Base(), maximumDepth, b) ==> |r| <= |lead| + |b.route|
  {
    hide HitsBelow, DistinctRoutes, ByLength, Walk, WellFormedTypes, Step;
    var lead, r := RootListRoute(ty), SpecificRoute(types, target, ty, maximumDepth).value;
    if ty.Base() == target {
      assert r[|lead|..] == [];
    } else {
      var hits := HitsBelow(types, {target}, ty.Base(), maximumDepth + 1);
      HitsAreOrdered(types, {target}, ty.Base(), maximumDepth + 1);
      HitsAreEntityRoutes(types, {target}, ty.Base(), maximumDepth);
      assert hits[0] in hits;
      assert EntityRoute(types, {target}, ty.Base(), maximumDepth, hits[0]);
      WalkLeads(types, {target}, ty.Base(), hits[0].route, target);
      assert r[|lead|..] == hits[0].route;
      ShortestAreLeadingHits(types, {target}, ty.Base(), maximumDepth, hits, hits[0]);
    }
  }

  lemma SpecificRouteFailsIffUnreachable(types: Types, target: string, ty: Type, maximumDepth: nat)
    requires WellFormedTypes(types)
    ensures SpecificRoute(types, target, ty, maximumDepth).None? <==>
            ty.Base() != target && forall b :: !EntityRoute(types, {target}, ty.Base(), maximumDepth, b)
  {
    if ty.Base() != target {
      var hits := HitsBelow(types, {target}, ty.Base(), maximumDepth + 1);
      HitsAreEntityRoutes(types, {target}, ty.Base(), maximumDepth);
      if hits != [] {
        assert hits[0] in hits;
        assert EntityRoute(types, {target}, ty.Base(), maximumDepth, hits[0]);
      }
    }
  }
}
