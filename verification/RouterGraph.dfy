/** The router registry and its cycle check (`src/engine/router.rs`). */
module RouterGraph {
  import opened Common

  datatype Def = Def(name: string, source: string, dest: string, allowCycle: bool)

  datatype Error = RouterCycle(cycle: seq<string>) | Throttled

  // ---- walks ----------------------------------------------------------------

  type Edges = set<(string, string)>

  /** The topic edges of the routers. */
  function EdgesOf(routers: map<string, Def>): Edges {
    set name | name in routers :: (routers[name].source, routers[name].dest)
  }

  predicate IsWalk(edges: Edges, p: seq<string>) {
    p != [] && forall i :: 0 <= i < |p| - 1 ==> (p[i], p[i + 1]) in edges
  }

  ghost predicate WalkFrom(edges: Edges, a: string, b: string, p: seq<string>) {
    IsWalk(edges, p) && p[0] == a && p[|p| - 1] == b
  }

  ghost predicate Reaches(edges: Edges, a: string, b: string) { exists p :: WalkFrom(edges, a, b, p) }

  /** No walk of at least one edge comes back to where it began. */
  ghost predicate Acyclic(edges: Edges) {
    forall p :: IsWalk(edges, p) && |p| > 1 ==> p[0] != p[|p| - 1]
  }

  lemma ReachesItself(edges: Edges, a: string)
    ensures Reaches(edges, a, a)
  {
    assert WalkFrom(edges, a, a, [a]);
  }

  lemma ReachesNext(edges: Edges, a: string, b: string, c: string)
    requires Reaches(edges, a, b) && (b, c) in edges
    ensures Reaches(edges, a, c)
  {
    var p :| WalkFrom(edges, a, b, p);
    assert WalkFrom(edges, a, c, p + [c]);
  }

  /** Without a walk from `d` to `s`, a new edge from `s` to `d` leads no walk that began
      among what `d` reaches out of it. */
  lemma {:induction false} StaysReached(edges: Edges, s: string, d: string, p: seq<string>, i: nat)
    requires !Reaches(edges, d, s) && IsWalk(edges + {(s, d)}, p) && Reaches(edges, d, p[0]) && i < |p|
    ensures Reaches(edges, d, p[i])
  {
    if i > 0 {
      StaysReached(edges, s, d, p, i - 1);
      assert (p[i - 1], p[i - 1 + 1]) in edges + {(s, d)};
      ReachesNext(edges, d, p[i - 1], p[i]);
    }
  }

  /** Adding an edge keeps the graph acyclic exactly when its head does not reach its tail. */
  lemma NewEdgeKeepsAcyclic(edges: Edges, s: string, d: string)
    requires Acyclic(edges)
    ensures Acyclic(edges + {(s, d)}) <==> !Reaches(edges, d, s)
  {
    var edges1 := edges + {(s, d)};
    if Reaches(edges, d, s) {
      var p :| WalkFrom(edges, d, s, p);
      assert IsWalk(edges1, [s] + p);
    } else {
      forall p | IsWalk(edges1, p) && |p| > 1 ensures p[0] != p[|p| - 1] {
        if p[0] == p[|p| - 1] { ClosedWalkAvoidsEdge(edges, s, d, p); }
      }
    }
  }

  lemma ClosedWalkAvoidsEdge(edges: Edges, s: string, d: string, p: seq<string>)
    requires !Reaches(edges, d, s) && IsWalk(edges + {(s, d)}, p) && |p| > 1 && p[0] == p[|p| - 1]
    ensures IsWalk(edges, p)
  {
    if !IsWalk(edges, p) {
      var i :| 0 <= i < |p| - 1 && (p[i], p[i + 1]) !in edges;
      assert (p[i], p[i + 1]) in edges + {(s, d)};
      assert p[i] == s && p[i + 1] == d;
      var rest, first := p[i + 1..], p[..i + 1];
      forall k | 0 <= k < |rest| - 1
        ensures (rest[k], rest[k + 1]) in edges + {(s, d)}
      { assert (p[i + 1 + k], p[i + 1 + k + 1]) in edges + {(s, d)}; }
      ReachesItself(edges, d);
      StaysReached(edges, s, d, rest, |rest| - 1);
      StaysReached(edges, s, d, first, i);
    }
  }

  lemma FewerEdgesStayAcyclic(edges: Edges, fewer: Edges)
    requires Acyclic(edges) && fewer <= edges
    ensures Acyclic(fewer)
  {
    forall p | IsWalk(fewer, p) && |p| > 1 ensures p[0] != p[|p| - 1] { assert IsWalk(edges, p); }
  }

  // ---- the search -----------------------------------------------------------

  function Neighbors(adj: map<string, seq<string>>, a: string): seq<string> { if a in adj then adj[a] else [] }

  /** `adj` lists exactly the edges. */
  ghost predicate Lists(adj: map<string, seq<string>>, edges: Edges) {
    forall a, b :: (a, b) in edges <==> b in Neighbors(adj, a)
  }

  /** Every edge out of `from` ends in `into`. */
  ghost predicate Closed(edges: Edges, from: set<string>, into: set<string>) {
    forall a, b :: (a, b) in edges && a in from ==> b in into
  }

  /** Depth-first search: a walk to the target appended to `path`, or, if there is none, a
      larger visited set that no edge leaves from its new part. */
  method DfsTo(adj: map<string, seq<string>>, from: string, target: string, visited: set<string>, path: seq<string>,
               ghost edges: Edges, ghost nodes: set<string>)
    returns (found: Option<seq<string>>, visited1: set<string>)
    requires Lists(adj, edges) && from in nodes && from !in visited && visited <= nodes && Closed(edges, nodes, nodes)
    ensures found.Some? ==>
            |path| < |found.value| && found.value[..|path|] == path
                && WalkFrom(edges, from, target, found.value[|path|..])
    ensures found.None? ==>
              && visited + {from} <= visited1 <= nodes && (target in visited1 ==> target in visited)
              && Closed(edges, visited1 - visited, visited1)
    decreases nodes - visited
  {
    var path1 := path + [from];
    if from == target {
      assert path1[|path|..] == [from];
      return Some(path1), visited;
    }
    visited1 := visited + {from};
    var next := Neighbors(adj, from);
    for k := 0 to |next|
      invariant visited + {from} <= visited1 <= nodes && (target in visited1 ==> target in visited)
      invariant forall j :: 0 <= j < k ==> next[j] in visited1
      invariant Closed(edges, visited1 - visited - {from}, visited1)
    {
      var n := next[k];
      if n in visited1 {
        continue;
      }
      assert (from, n) in edges;
      ghost var before := visited1;
      found, visited1 := DfsTo(adj, n, target, visited1, path1, edges, nodes);
      if found.Some? {
        FoundThrough(edges, path, from, n, target, found.value);
        return;
      }
    }
    found := None;
  }

  lemma FoundThrough(edges: Edges, path: seq<string>, from: string, n: string, target: string, found: seq<string>)
    requires |path| + 1 < |found| && found[..|path| + 1] == path + [from] && (from, n) in edges
    requires WalkFrom(edges, n, target, found[|path| + 1..])
    ensures found[..|path|] == path && WalkFrom(edges, from, target, found[|path|..])
  {
    var p, rest := found[|path|..], found[|path| + 1..];
    assert found[..|path| + 1][..|path|] == path && found[|path|] == (path + [from])[|path|] == from;
    assert p == [from] + rest;
    forall i | 0 <= i < |p| - 1 ensures (p[i], p[i + 1]) in edges {
      if i > 0 { assert (rest[i - 1], rest[i]) in edges; }
    }
  }

  /** A set no edge leaves holds everything reachable from it. */
  lemma {:induction false} ClosedIsReached(edges: Edges, v: set<string>, p: seq<string>, i: nat)
    requires Closed(edges, v, v) && IsWalk(edges, p) && p[0] in v && i < |p|
    ensures p[i] in v
  {
    if i > 0 {
      ClosedIsReached(edges, v, p, i - 1);
      assert (p[i - 1], p[i - 1 + 1]) in edges;
    }
  }

  /** The adjacency lists of the routers, one entry a router. */
  method BuildAdjacency(routers: map<string, Def>) returns (adj: map<string, seq<string>>)
    ensures Lists(adj, EdgesOf(routers))
  {
    adj := map[];
    var left := routers.Keys;
    ghost var listed: Edges := {};
    while left != {}
      invariant left <= routers.Keys && Lists(adj, listed)
      invariant forall name :: name in routers && name !in left ==> (routers[name].source, routers[name].dest) in listed
      invariant listed <= EdgesOf(routers)
    {
      var name :| name in left;
      left := left - {name};
      var r := routers[name];
      listed := listed + {(r.source, r.dest)};
      adj := adj[r.source := Neighbors(adj, r.source) + [r.dest]];
    }
    assert listed == EdgesOf(routers);
  }

  // ---- the registry ---------------------------------------------------------

  /** The routers other than `name`. */
  function Others(routers: map<string, Def>, name: string): map<string, Def> { routers - {name} }

  /** What a request to the registry does, and whether it is refused. */
  datatype Request = Upsert(r: Def) | Remove(name: string) | Cascade(topic: string)

  ghost predicate Refuses(routers: map<string, Def>, r: Def) {
    !r.allowCycle && Reaches(EdgesOf(Others(routers, r.name)), r.dest, r.source)
  }

  ghost function After(routers: map<string, Def>, req: Request): map<string, Def> {
    match req
    case Upsert(r) => if Refuses(routers, r) then routers else routers[r.name := r]
    case Remove(name) => routers - {name}
    case Cascade(topic) => routers - Touching(routers, topic)
  }

  function Touching(routers: map<string, Def>, topic: string): set<string> {
    set name | name in routers && (routers[name].source == topic || routers[name].dest == topic)
  }

  ghost function AfterAll(routers: map<string, Def>, reqs: seq<Request>): map<string, Def> {
    if reqs == [] then routers else After(AfterAll(routers, reqs[..|reqs| - 1]), reqs[|reqs| - 1])
  }

  lemma UpsertEdges(routers: map<string, Def>, r: Def)
    ensures EdgesOf(routers[r.name := r]) == EdgesOf(Others(routers, r.name)) + {(r.source, r.dest)}
  {
    var routers1, others := routers[r.name := r], Others(routers, r.name);
    forall e | e in EdgesOf(others) + {(r.source, r.dest)} ensures e in EdgesOf(routers1) {
      if e != (r.source, r.dest) {
        var name :| name in others && e == (others[name].source, others[name].dest);
        assert routers1[name] == others[name];
      } else {
        assert routers1[r.name] == r;
      }
    }
    forall e | e in EdgesOf(routers1) ensures e in EdgesOf(others) + {(r.source, r.dest)} {
      var name :| name in routers1 && e == (routers1[name].source, routers1[name].dest);
      if name != r.name { assert others[name] == routers1[name]; }
    }
  }

  lemma FewerRouters(routers: map<string, Def>, gone: set<string>)
    ensures EdgesOf(routers - gone) <= EdgesOf(routers)
  {
    forall e | e in EdgesOf(routers - gone) ensures e in EdgesOf(routers) {
      var name :| name in routers - gone && e == (routers[name].source, routers[name].dest);
    }
  }

  /** A request without `allow_cycle` is refused exactly when it would close a cycle. */
  lemma RefusedExactlyWhenCyclic(routers: map<string, Def>, r: Def)
    requires Acyclic(EdgesOf(routers)) && !r.allowCycle
    ensures Refuses(routers, r) <==> !Acyclic(EdgesOf(routers[r.name := r]))
  {
    FewerRouters(routers, {r.name});
    FewerEdgesStayAcyclic(EdgesOf(routers), EdgesOf(Others(routers, r.name)));
    UpsertEdges(routers, r);
    NewEdgeKeepsAcyclic(EdgesOf(Others(routers, r.name)), r.source, r.dest);
  }

  /** Every run of upserts without `allow_cycle`, removals and topic cascades keeps the
      topic graph acyclic. */
  lemma {:induction false} StaysAcyclic(routers: map<string, Def>, reqs: seq<Request>)
    requires Acyclic(EdgesOf(routers)) && forall k :: 0 <= k < |reqs| && reqs[k].Upsert? ==> !reqs[k].r.allowCycle
    ensures Acyclic(EdgesOf(AfterAll(routers, reqs)))
  {
    if reqs != [] {
      var n := |reqs| - 1;
      StaysAcyclic(routers, reqs[..n]);
      var was := AfterAll(routers, reqs[..n]);
      match reqs[n]
      case Upsert(r) => RefusedExactlyWhenCyclic(was, r);
      case Remove(name) =>
        FewerRouters(was, {name});
        FewerEdgesStayAcyclic(EdgesOf(was), EdgesOf(was - {name}));
      case Cascade(topic) =>
        FewerRouters(was, Touching(was, topic));
        FewerEdgesStayAcyclic(EdgesOf(was), EdgesOf(was - Touching(was, topic)));
    }
  }

  /** A known router keeps its count, a new one starts at zero, and no other count changes. */
  ghost predicate Counted(counts: map<string, nat>, name: string, counts1: map<string, nat>) {
    && counts1.Keys == counts.Keys + {name}
    && (forall other :: other in counts ==> counts1[other] == counts[other])
    && (name !in counts ==> counts1[name] == 0)
  }

  /** Enter `name` at zero unless it has a count. */
  function OrZero(counts: map<string, nat>, name: string): (r: map<string, nat>)
    ensures Counted(counts, name, r)
  {
    if name in counts then counts else counts[name := 0]
  }

  class Registry {
    var routers: map<string, Def>
    var cursors: map<string, nat>
    var forwardedTotal: map<string, nat>
    var destBase: map<string, nat>

    constructor ()
      ensures routers == map[] && cursors == map[] && forwardedTotal == map[] && destBase == map[]
    {
      routers, cursors, forwardedTotal, destBase := map[], map[], map[], map[];
    }

    /** The cycle a new edge would close over the routers other than `exclude`, if any:
        it starts with the new edge and follows real ones back. */
    method WouldCreateCycle(source: string, dest: string, exclude: string) returns (cycle: Option<seq<string>>)
      ensures var edges := EdgesOf(Others(routers, exclude));
              && (cycle.Some? <==> Reaches(edges, dest, source))
              && (cycle.Some? ==>
                   |cycle.value| > 1 && cycle.value[0] == source && WalkFrom(edges, dest, source, cycle.value[1..]))
    {
      ghost var edges := EdgesOf(Others(routers, exclude));
      if source == dest {
        cycle := Some([source, dest]);
        assert WalkFrom(edges, dest, source, cycle.value[1..]);
        return;
      }
      var adj := BuildAdjacency(Others(routers, exclude));
      ghost var nodes := {dest} + set e | e in edges :: e.1;
      var found, visited := DfsTo(adj, dest, source, {}, [], edges, nodes);
      if found.Some? {
        cycle := Some([source] + found.value);
        assert cycle.value[1..] == found.value == found.value[0..];
        return;
      }
      cycle := None;
      forall p | WalkFrom(edges, dest, source, p) ensures false {
        ClosedIsReached(edges, visited, p, |p| - 1);
      }
    }

    /** Insert or replace a router unless it would close a cycle it does not allow. */
    method Upsert(r: Def) returns (err: Option<Error>, created: bool)
      modifies this
      ensures routers == After(old(routers), Request.Upsert(r)) && (err.Some? <==> Refuses(old(routers), r))
      ensures err.Some? ==> err.value.RouterCycle? && !created
      ensures routers == if err.None? then old(routers)[r.name := r] else old(routers)
      ensures r.allowCycle ==> err.None?
      ensures err.None? ==> created == (r.name !in old(routers))
      ensures if err.None? then Counted(old(cursors), r.name, cursors) else cursors == old(cursors)
      ensures if err.None? then Counted(old(forwardedTotal), r.name, forwardedTotal)
              else forwardedTotal == old(forwardedTotal)
      ensures if err.None? then Counted(old(destBase), r.name, destBase) else destBase == old(destBase)
    {
      err, created := None, false;
      if !r.allowCycle {
        var cycle := WouldCreateCycle(r.source, r.dest, r.name);
        if cycle.Some? {
          return Some(RouterCycle(cycle.value)), false;
        }
      }
      created := r.name !in routers;
      routers := routers[r.name := r];
      cursors, forwardedTotal := OrZero(cursors, r.name), OrZero(forwardedTotal, r.name);
      destBase := OrZero(destBase, r.name);
    }

    /** As `Upsert`, but a new router is refused once the cap is reached (0: no cap); a
        registry within the cap stays within it. */
    method UpsertCapped(r: Def, maxRouters: nat) returns (err: Option<Error>, created: bool)
      modifies this
      ensures err == Some(Throttled) <==> r.name !in old(routers) && maxRouters != 0 && |old(routers)| >= maxRouters
      ensures err == Some(Throttled) ==> routers == old(routers)
      ensures err != Some(Throttled) ==>
              routers == After(old(routers), Request.Upsert(r)) && (err.Some? <==> Refuses(old(routers), r))
      ensures routers == if err.None? then old(routers)[r.name := r] else old(routers)
      ensures r.allowCycle && err.Some? ==> err == Some(Throttled)
      ensures maxRouters != 0 && |old(routers)| <= maxRouters ==> |routers| <= maxRouters
      ensures created == (err.None? && r.name !in old(routers))
      ensures if err.None? then Counted(old(cursors), r.name, cursors) else cursors == old(cursors)
      ensures if err.None? then Counted(old(forwardedTotal), r.name, forwardedTotal)
              else forwardedTotal == old(forwardedTotal)
      ensures if err.None? then Counted(old(destBase), r.name, destBase) else destBase == old(destBase)
    {
      if r.name !in routers && maxRouters != 0 && |routers| >= maxRouters {
        return Some(Throttled), false;
      }
      err, created := Upsert(r);
      assert r.name in old(routers) ==> old(routers)[r.name := r].Keys == old(routers).Keys;
      assert |routers.Keys| == |routers| && |old(routers).Keys| == |old(routers)|;
    }

    method Remove(name: string) returns (existed: bool)
      modifies this
      ensures existed == (name in old(routers)) && routers == After(old(routers), Request.Remove(name))
      ensures cursors == old(cursors) - {name} && forwardedTotal == old(forwardedTotal) - {name}
              && destBase == old(destBase) - {name}
    {
      existed := name in routers;
      routers, cursors, forwardedTotal, destBase := routers - {name}, cursors - {name}, forwardedTotal - {name},
          destBase - {name};
    }

    /** The topic-delete cascade. */
    method RemoveTouchingTopic(topic: string) returns (removed: set<string>)
      modifies this
      ensures removed == Touching(old(routers), topic) && routers == After(old(routers), Cascade(topic))
      ensures cursors == old(cursors) - removed && forwardedTotal == old(forwardedTotal) - removed
              && destBase == old(destBase) - removed
      ensures forall name :: name in old(routers) ==>
                && (name in routers <==> old(routers)[name].source != topic && old(routers)[name].dest != topic)
                && (name in routers ==> routers[name] == old(routers)[name])
      ensures forall name :: name in routers ==> routers[name].source != topic && routers[name].dest != topic
    {
      removed := set name | name in routers && (routers[name].source == topic || routers[name].dest == topic);
      routers, cursors, forwardedTotal, destBase := routers - removed, cursors - removed, forwardedTotal - removed,
          destBase - removed;
    }
  }
}
