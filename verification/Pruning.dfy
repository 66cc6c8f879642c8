/**
 * The pruning search: does a related entity lead to anything a provider may select? One queue and one shared
 * visited set, against simple paths that each avoid only their own ancestry.
 */
module Pruning {
  import opened Common
  import opened Disclosure
  import opened Schema
  import opened Arguments

  predicate HasScalar(entity: Entity) {
    exists i :: 0 <= i < |entity.fields| && SelectableScalar(entity.fields[i])
  }

  ghost predicate Edge(catalog: Catalog, from: string, to: string) {
    from in catalog && exists f :: f in catalog[from].fields && Traversable(f) && f.relationship.value.target == to
  }

  predicate Open(catalog: Catalog, name: string) {
    name in catalog && catalog[name].defaultClassification != Secret
  }

  /**
   * Reference: a simple path of entities, none to be avoided and none Secret by default, along traversable
   * relationships to an entity with a selectable scalar, short enough for the depth bound.
   */
  ghost predicate SelectablePath(catalog: Catalog, maximumDepth: nat, path: seq<string>, depth: nat, avoid: set<string>)
    decreases |path|
  {
    && path != [] && path[0] !in avoid && Open(catalog, path[0])
    && if |path| == 1 then HasScalar(catalog[path[0]])
       else
         && depth + 1 < maximumDepth
         && Edge(catalog, path[0], path[1])
         && SelectablePath(catalog, maximumDepth, path[1..], depth + 1, avoid + {path[0]})
  }

  ghost predicate CanSelect(catalog: Catalog, maximumDepth: nat, name: string, depth: nat, avoid: set<string>) {
    exists path: seq<string> :: path != [] && path[0] == name
      && SelectablePath(catalog, maximumDepth, path, depth, avoid)
  }

  /** Relationships lead to catalogued entities only. */
  ghost predicate Closed(catalog: Catalog) {
    forall a, b :: Edge(catalog, a, b) ==> b in catalog
  }

  // ---------------------------------------------------------------- what the search has established

  datatype Pending = Pending(name: string, depth: nat)

  /** A simple trail of open entities that ends where it should. */
  ghost predicate Trail(catalog: Catalog, avoid: set<string>, start: string, path: seq<string>) {
    && path != [] && path[0] == start && Distinct(path)
    && (forall i :: 0 <= i < |path| ==> path[i] !in avoid && Open(catalog, path[i]))
    && (forall i :: 0 <= i < |path| - 1 ==> Edge(catalog, path[i], path[i + 1]))
  }

  ghost predicate HasPending(pending: seq<Pending>, name: string, depth: nat) {
    exists j :: 0 <= j < |pending| && pending[j] == Pending(name, depth)
  }

  /** The queue is in order of depth, spans at most two depths, and holds nothing shallower than what was visited. */
  ghost predicate QueueOrdered(pending: seq<Pending>, dist: map<string, nat>) {
    && (forall v, j :: v in dist && 0 <= j < |pending| ==> dist[v] <= pending[j].depth)
    && (forall i, j :: 0 <= i < j < |pending| ==> pending[i].depth <= pending[j].depth)
    && (forall j :: 0 <= j < |pending| ==> pending[j].depth <= pending[0].depth + 1)
  }

  /** Every visited open entity has had its relationships followed, or queued, one level down. */
  ghost predicate Explored(
    catalog: Catalog, maximumDepth: nat, avoid: set<string>, dist: map<string, nat>, pending: seq<Pending>)
  {
    forall v, b :: v in dist && Open(catalog, v) && dist[v] + 1 < maximumDepth && Edge(catalog, v, b) ==>
      b in avoid || (b in dist && dist[b] <= dist[v] + 1) || HasPending(pending, b, dist[v] + 1)
  }

  ghost predicate Barren(catalog: Catalog, dist: map<string, nat>) {
    forall v :: v in dist ==> v in catalog && (Open(catalog, v) ==> !HasScalar(catalog[v]))
  }

  /** Every visited open entity is the end of a trail of the recorded length. */
  ghost predicate Trailed(
    catalog: Catalog, avoid: set<string>, start: string, depth: nat, dist: map<string, nat>,
    trails: map<string, seq<string>>)
  {
    forall v :: v in dist && Open(catalog, v) ==>
      && v in trails && Trail(catalog, avoid, start, trails[v])
      && trails[v][|trails[v]| - 1] == v && |trails[v]| == dist[v] - depth + 1
      && forall i :: 0 <= i < |trails[v]| ==> trails[v][i] in dist
  }

  /** Every queued entity is the start or one relationship beyond a visited open entity. */
  ghost predicate Justified(
    catalog: Catalog, maximumDepth: nat, start: string, depth: nat, dist: map<string, nat>, pending: seq<Pending>)
  {
    forall j :: 0 <= j < |pending| ==>
      || pending[j] == Pending(start, depth)
      || exists v :: v in dist && Open(catalog, v) && Edge(catalog, v, pending[j].name)
                     && pending[j].depth == dist[v] + 1 < maximumDepth
  }

  // ---------------------------------------------------------------- soundness

  lemma {:induction false} TrailIsSelectable(
    catalog: Catalog, maximumDepth: nat, path: seq<string>, depth: nat, avoid: set<string>)
    requires path != [] && Trail(catalog, avoid, path[0], path) && HasScalar(catalog[path[|path| - 1]])
    requires |path| == 1 || depth + |path| - 1 < maximumDepth
    ensures SelectablePath(catalog, maximumDepth, path, depth, avoid)
    decreases |path|
  {
    if |path| > 1 {
      var rest := path[1..];
      assert forall i :: 0 <= i < |rest| ==> rest[i] == path[i + 1];
      TrailIsSelectable(catalog, maximumDepth, rest, depth + 1, avoid + {path[0]});
    }
  }

  lemma TrailExtends(catalog: Catalog, avoid: set<string>, start: string, path: seq<string>, name: string)
    requires Trail(catalog, avoid, start, path) && Edge(catalog, path[|path| - 1], name)
    requires name !in avoid && Open(catalog, name) && forall i :: 0 <= i < |path| ==> path[i] != name
    ensures Trail(catalog, avoid, start, path + [name])
  {
  }

  // ---------------------------------------------------------------- completeness

  /** Once the queue is empty, no selectable path can start at a visited entity. */
  lemma {:induction false} NoPathFrom(catalog: Catalog, maximumDepth: nat, avoid: set<string>, dist: map<string, nat>,
                                      path: seq<string>, depth: nat, avoided: set<string>)
    requires Explored(catalog, maximumDepth, avoid, dist, []) && Barren(catalog, dist)
    requires avoid <= avoided && path != [] && path[0] in dist && dist[path[0]] <= depth
    ensures !SelectablePath(catalog, maximumDepth, path, depth, avoided)
    decreases |path|
  {
    if |path| > 1 && SelectablePath(catalog, maximumDepth, path, depth, avoided) {
      var rest := path[1..];
      assert SelectablePath(catalog, maximumDepth, rest, depth + 1, avoided + {path[0]});
      assert rest[0] == path[1];
      assert !HasPending([], path[1], dist[path[0]] + 1);
      NoPathFrom(catalog, maximumDepth, avoid, dist, rest, depth + 1, avoided + {path[0]});
    }
  }

  // ---------------------------------------------------------------- the search

  /** Appends the relationship targets of an entity, one level down. */
  method PushTargets(catalog: Catalog, name: string, depth: nat, pending: seq<Pending>) returns (r: seq<Pending>)
    requires name in catalog
    ensures pending <= r
    ensures forall j :: |pending| <= j < |r| ==> r[j].depth == depth && Edge(catalog, name, r[j].name)
    ensures forall b :: Edge(catalog, name, b) ==> HasPending(r, b, depth)
  {
    r := pending;
    var fields := catalog[name].fields;
    for i := 0 to |fields|
      invariant pending <= r
      invariant forall j :: |pending| <= j < |r| ==> r[j].depth == depth && Edge(catalog, name, r[j].name)
      invariant forall k :: 0 <= k < i && Traversable(fields[k]) ==>
                  HasPending(r, fields[k].relationship.value.target, depth)
    {
      var f := fields[i];
      if Traversable(f) {
        var before := r;
        r := r + [Pending(f.relationship.value.target, depth)];
        assert r[|before|] == Pending(f.relationship.value.target, depth);
        assert f in fields;
        forall k | 0 <= k < i && Traversable(fields[k])
          ensures HasPending(r, fields[k].relationship.value.target, depth) {
          PendingStays(before, r, fields[k].relationship.value.target, depth);
        }
      }
    }
  }

  lemma PendingStays(before: seq<Pending>, after: seq<Pending>, name: string, depth: nat)
    requires before <= after && HasPending(before, name, depth)
    ensures HasPending(after, name, depth)
  {
    var j :| 0 <= j < |before| && before[j] == Pending(name, depth);
    assert after[j] == Pending(name, depth);
  }

  // ---------------------------------------------------------------- one step of the search

  ghost predicate Searching(catalog: Catalog, maximumDepth: nat, start: string, depth: nat, avoid: set<string>,
                            dist: map<string, nat>, trails: map<string, seq<string>>, pending: seq<Pending>)
  {
    && avoid !! dist.Keys
    && QueueOrdered(pending, dist) && Barren(catalog, dist)
    && Explored(catalog, maximumDepth, avoid, dist, pending)
    && Trailed(catalog, avoid, start, depth, dist, trails)
    && Justified(catalog, maximumDepth, start, depth, dist, pending)
    && (start in avoid || (start in dist && dist[start] <= depth) || HasPending(pending, start, depth))
  }

  lemma PendingUnlessFirst(pending: seq<Pending>, name: string, depth: nat)
    requires pending != [] && HasPending(pending, name, depth)
    ensures pending[0] == Pending(name, depth) || HasPending(pending[1..], name, depth)
  {
    var j :| 0 <= j < |pending| && pending[j] == Pending(name, depth);
    if j > 0 {
      assert pending[1..][j - 1] == Pending(name, depth);
    }
  }

  /** Skipping an entity that was visited before loses nothing: it was visited no later than now. */
  lemma SkipKeeps(catalog: Catalog, maximumDepth: nat, start: string, depth: nat, avoid: set<string>,
                  dist: map<string, nat>, trails: map<string, seq<string>>, pending: seq<Pending>)
    requires pending != [] && Searching(catalog, maximumDepth, start, depth, avoid, dist, trails, pending)
    requires pending[0].name in avoid || pending[0].name in dist
    ensures Searching(catalog, maximumDepth, start, depth, avoid, dist, trails, pending[1..])
  {
    hide Trailed, Barren;
    var rest := pending[1..];
    assert forall j :: 0 <= j < |rest| ==> rest[j] == pending[j + 1];
    forall v, b | v in dist && Open(catalog, v) && dist[v] + 1 < maximumDepth && Edge(catalog, v, b)
      ensures b in avoid || (b in dist && dist[b] <= dist[v] + 1) || HasPending(rest, b, dist[v] + 1)
    {
      if HasPending(pending, b, dist[v] + 1) {
        PendingUnlessFirst(pending, b, dist[v] + 1);
      }
    }
    if HasPending(pending, start, depth) {
      PendingUnlessFirst(pending, start, depth);
    }
  }

  /** The trail of a newly visited open entity. */
  lemma NewTrail(
    catalog: Catalog, maximumDepth: nat, start: string, depth: nat, avoid: set<string>, dist: map<string, nat>,
    trails: map<string, seq<string>>, pending: seq<Pending>) returns (trail: seq<string>)
    requires pending != [] && Searching(catalog, maximumDepth, start, depth, avoid, dist, trails, pending)
    requires pending[0].name !in avoid && pending[0].name !in dist && Open(catalog, pending[0].name)
    ensures Trail(catalog, avoid, start, trail) && trail[|trail| - 1] == pending[0].name
    ensures |trail| == pending[0].depth - depth + 1
    ensures |trail| == 1 || pending[0].depth < maximumDepth
    ensures forall i :: 0 <= i < |trail| ==> trail[i] == pending[0].name || trail[i] in dist
  {
    if pending[0] == Pending(start, depth) {
      trail := [start];
    } else {
      var v :| v in dist && Open(catalog, v) && Edge(catalog, v, pending[0].name)
               && pending[0].depth == dist[v] + 1 < maximumDepth;
      trail := trails[v] + [pending[0].name];
      TrailExtends(catalog, avoid, start, trails[v], pending[0].name);
    }
  }

  /** Visiting an entity records its distance and queues what it leads to. */
  lemma VisitKeeps(
    catalog: Catalog, maximumDepth: nat, start: string, depth: nat, avoid: set<string>, dist: map<string, nat>,
    trails: map<string, seq<string>>, pending: seq<Pending>, pushed: seq<Pending>, trail: seq<string>)
    requires pending != [] && Searching(catalog, maximumDepth, start, depth, avoid, dist, trails, pending)
    requires var name, d := pending[0].name, pending[0].depth;
             && name !in avoid && name !in dist && name in catalog
             && pending[1..] <= pushed
             && (forall j :: |pending| - 1 <= j < |pushed| ==>
                   pushed[j].depth == d + 1 < maximumDepth && Open(catalog, name)
                     && Edge(catalog, name, pushed[j].name))
             && (Open(catalog, name) && d + 1 < maximumDepth ==> forall b :: Edge(catalog, name, b) ==>
                                                                   HasPending(pushed, b, d + 1))
             && (Open(catalog, name) ==>
                   && !HasScalar(catalog[name]) && Trail(catalog, avoid, start, trail) && trail[|trail| - 1] == name
                   && |trail| == d - depth + 1 && forall i :: 0 <= i < |trail| ==> trail[i] == name || trail[i] in dist)
    ensures Searching(catalog, maximumDepth, start, depth, avoid, dist[pending[0].name := pending[0].depth],
                      trails[pending[0].name := trail], pushed)
  {
    hide QueueOrdered, Barren, Explored, Trailed, Justified;
    VisitExplores(catalog, maximumDepth, avoid, dist, pending, pushed);
    VisitJustifies(catalog, maximumDepth, start, depth, dist, pending, pushed);
    VisitOrders(dist, pending, pushed);
    VisitTrails(catalog, avoid, start, depth, dist, trails, pending[0], trail);
    if HasPending(pending, start, depth) {
      PendingUnlessFirst(pending, start, depth);
      if pending[0] != Pending(start, depth) {
        PendingStays(pending[1..], pushed, start, depth);
      }
    }
  }

  lemma VisitOrders(dist: map<string, nat>, pending: seq<Pending>, pushed: seq<Pending>)
    requires pending != [] && QueueOrdered(pending, dist) && pending[1..] <= pushed
    requires forall j :: |pending| - 1 <= j < |pushed| ==> pushed[j].depth == pending[0].depth + 1
    ensures QueueOrdered(pushed, dist[pending[0].name := pending[0].depth])
  {
    assert forall j :: 0 <= j < |pending| - 1 ==> pushed[j] == pending[j + 1];
  }

  lemma VisitTrails(catalog: Catalog, avoid: set<string>, start: string, depth: nat,
                    dist: map<string, nat>, trails: map<string, seq<string>>, current: Pending, trail: seq<string>)
    requires Trailed(catalog, avoid, start, depth, dist, trails) && Barren(catalog, dist)
    requires current.name !in dist && current.name in catalog
    requires Open(catalog, current.name) ==>
               && !HasScalar(catalog[current.name]) && Trail(catalog, avoid, start, trail)
                 && trail[|trail| - 1] == current.name
               && |trail| == current.depth - depth + 1
               && forall i :: 0 <= i < |trail| ==> trail[i] == current.name || trail[i] in dist
    ensures Trailed(catalog, avoid, start, depth, dist[current.name := current.depth], trails[current.name := trail])
    ensures Barren(catalog, dist[current.name := current.depth])
  {
    hide Trail;
  }

  lemma VisitJustifies(
    catalog: Catalog, maximumDepth: nat, start: string, depth: nat, dist: map<string, nat>, pending: seq<Pending>,
    pushed: seq<Pending>)
    requires pending != [] && Justified(catalog, maximumDepth, start, depth, dist, pending) && pending[0].name !in dist
    requires pending[1..] <= pushed
    requires forall j :: |pending| - 1 <= j < |pushed| ==>
               && pushed[j].depth == pending[0].depth + 1 < maximumDepth
               && Open(catalog, pending[0].name) && Edge(catalog, pending[0].name, pushed[j].name)
    ensures Justified(catalog, maximumDepth, start, depth, dist[pending[0].name := pending[0].depth], pushed)
  {
    hide Edge;
    var name, d := pending[0].name, pending[0].depth;
    var dist' := dist[name := d];
    forall j | 0 <= j < |pushed|
      ensures || pushed[j] == Pending(start, depth)
              || exists v :: v in dist' && Open(catalog, v) && Edge(catalog, v, pushed[j].name)
                   && pushed[j].depth == dist'[v] + 1 < maximumDepth
    {
      if j < |pending| - 1 {
        assert pushed[j] == pending[j + 1];
        if pushed[j] != Pending(start, depth) {
          var v :| v in dist && Open(catalog, v) && Edge(catalog, v, pending[j + 1].name)
            && pending[j + 1].depth == dist[v] + 1 < maximumDepth;
          assert dist'[v] == dist[v];
        }
      } else {
        assert dist'[name] == d;
      }
    }
  }

  lemma VisitExplores(
    catalog: Catalog, maximumDepth: nat, avoid: set<string>, dist: map<string, nat>, pending: seq<Pending>,
    pushed: seq<Pending>)
    requires pending != [] && Explored(catalog, maximumDepth, avoid, dist, pending)
    requires pending[0].name !in dist && pending[1..] <= pushed
    requires Open(catalog, pending[0].name) && pending[0].depth + 1 < maximumDepth ==>
               forall b :: Edge(catalog, pending[0].name, b) ==> HasPending(pushed, b, pending[0].depth + 1)
    ensures Explored(catalog, maximumDepth, avoid, dist[pending[0].name := pending[0].depth], pushed)
  {
    var name, d := pending[0].name, pending[0].depth;
    var dist' := dist[name := d];
    forall v, b | v in dist' && Open(catalog, v) && dist'[v] + 1 < maximumDepth && Edge(catalog, v, b)
      ensures b in avoid || (b in dist' && dist'[b] <= dist'[v] + 1) || HasPending(pushed, b, dist'[v] + 1)
    {
      if v != name && HasPending(pending, b, dist[v] + 1) {
        PendingUnlessFirst(pending, b, dist[v] + 1);
        if pending[0] != Pending(b, dist[v] + 1) {
          PendingStays(pending[1..], pushed, b, dist[v] + 1);
        }
      }
    }
  }

  /** `entity_has_provider_selections`: a queue with one shared visited set, exact for simple paths. */
  method EntityHasProviderSelections(
    catalog: Catalog, entityName: string, maximumDepth: nat, depth: nat, ancestry: set<string>)
    returns (r: Result<bool, CompileError>)
    ensures r.Ok? ==> (r.value <==> CanSelect(catalog, maximumDepth, entityName, depth, ancestry))
    ensures Closed(catalog) && entityName in catalog ==> r.Ok?
    ensures r.Err? ==> r.error == MissingEntity
  {
    var visited := ancestry;
    var pending := [Pending(entityName, depth)];
    ghost var dist: map<string, nat>, trails: map<string, seq<string>> := map[], map[];
    assert pending[0] == Pending(entityName, depth);
    while pending != []
      invariant visited == ancestry + dist.Keys
      invariant Searching(catalog, maximumDepth, entityName, depth, ancestry, dist, trails, pending)
      decreases catalog.Keys - visited, |pending|
    {
      hide Searching;
      ghost var queue := pending;
      var current := pending[0];
      pending := pending[1..];
      if current.name in visited {
        SkipKeeps(catalog, maximumDepth, entityName, depth, ancestry, dist, trails, queue);
      } else {
        visited := visited + {current.name};
        if current.name !in catalog {
          DanglingIsNotClosed(catalog, maximumDepth, entityName, depth, ancestry, dist, trails, queue);
          return Err(MissingEntity);
        }
        var entity := catalog[current.name];
        ghost var trail := [];
        if entity.defaultClassification != Secret {
          trail := NewTrail(catalog, maximumDepth, entityName, depth, ancestry, dist, trails, queue);
          if HasScalar(entity) {
            TrailIsSelectable(catalog, maximumDepth, trail, depth, ancestry);
            return Ok(true);
          }
          if current.depth + 1 < maximumDepth {
            pending := PushTargets(catalog, current.name, current.depth + 1, pending);
          }
        }
        VisitKeeps(catalog, maximumDepth, entityName, depth, ancestry, dist, trails, queue, pending, trail);
        dist, trails := dist[current.name := current.depth], trails[current.name := trail];
      }
    }
    NothingSelectable(catalog, maximumDepth, entityName, depth, ancestry, dist, trails);
    r := Ok(false);
  }

  lemma DanglingIsNotClosed(catalog: Catalog, maximumDepth: nat, start: string, depth: nat, avoid: set<string>,
                            dist: map<string, nat>, trails: map<string, seq<string>>, pending: seq<Pending>)
    requires pending != [] && Searching(catalog, maximumDepth, start, depth, avoid, dist, trails, pending)
    requires pending[0].name !in catalog
    ensures !(Closed(catalog) && start in catalog)
  {
  }

  lemma NothingSelectable(catalog: Catalog, maximumDepth: nat, start: string, depth: nat, avoid: set<string>,
                          dist: map<string, nat>, trails: map<string, seq<string>>)
    requires Searching(catalog, maximumDepth, start, depth, avoid, dist, trails, [])
    ensures !CanSelect(catalog, maximumDepth, start, depth, avoid)
  {
    forall path: seq<string> | path != [] && path[0] == start
      ensures !SelectablePath(catalog, maximumDepth, path, depth, avoid)
    {
      if start in dist {
        NoPathFrom(catalog, maximumDepth, avoid, dist, path, depth, avoid);
      }
    }
  }
}
