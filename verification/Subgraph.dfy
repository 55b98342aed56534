/** The neighbourhood of one node, as cut out for a component page. */
module Subgraph {
  import opened Walks
  import opened Community
  import opened Sequences
  import opened Sets

  // keep after one edge has been looked at, then after the first n edges.
  function Look(e: Edge, keep: set<Id>): set<Id> {
    var k := if e.from in keep then keep + {e.to} else keep;
    if e.to in k then k + {e.from} else k
  }

  ghost function Scan(edges: seq<Edge>, keep: set<Id>, n: nat): set<Id>
    requires n <= |edges|
  {
    if n == 0 then keep else Look(edges[n-1], Scan(edges, keep, n - 1))
  }

  // keep after depth passes over all edges; a non-positive depth makes no pass.
  ghost function Kept(edges: seq<Edge>, focus: Id, depth: int): set<Id>
    decreases if depth <= 0 then 0 else depth
  {
    if depth <= 0 then {focus} else Scan(edges, Kept(edges, focus, depth - 1), |edges|)
  }

  // The number of maximal strictly increasing stretches of p: how often a scan in edge
  // order has to start over to cross the edges of p one after the other.
  function Runs(p: seq<nat>): (r: nat)
    ensures r <= |p|
  {
    if |p| <= 1 then |p|
    else Runs(p[..|p|-1]) + (if p[|p|-2] < p[|p|-1] then 0 else 1)
  }

  // Exactly what componentSubgraph keeps: since keep grows while it is scanned, one pass
  // follows every walk that crosses edges in list order, however long it is.
  lemma KeptIsRunBounded(edges: seq<Edge>, focus: Id, depth: int, v: Id)
    requires depth >= 0
    ensures v in Kept(edges, focus, depth) <==> exists p :: Walk(edges, focus, p, v) && Runs(p) <= depth
  {
    if v in Kept(edges, focus, depth) {
      var p := KeptHasWalk(edges, focus, depth, v);
    }
    if p :| Walk(edges, focus, p, v) && Runs(p) <= depth {
      WalkIsKept(edges, focus, p, v);
      KeptGrows(edges, focus, Runs(p), depth);
    }
  }

  // Some walk of at most depth edges leads from focus to v.
  ghost predicate WithinHops(edges: seq<Edge>, focus: Id, depth: int, v: Id) {
    exists p :: Walk(edges, focus, p, v) && |p| <= depth
  }

  // An id just outside: depth + 1 hops from focus, and no fewer.
  ghost predicate NextShell(edges: seq<Edge>, focus: Id, depth: int, v: Id) {
    WithinHops(edges, focus, depth + 1, v) && !WithinHops(edges, focus, depth, v)
  }

  // So the depth bounds the distance exactly when no id of the next shell ends a walk of at most
  // that many runs: a walk that leads farther passes that shell first.
  lemma DepthBoundsDistanceIff(edges: seq<Edge>, focus: Id, depth: int)
    requires depth >= 0
    ensures (forall v :: v in Kept(edges, focus, depth) ==> WithinHops(edges, focus, depth, v))
       <==> !exists p, v :: Walk(edges, focus, p, v) && Runs(p) <= depth && NextShell(edges, focus, depth, v)
  {
    if p, v :| Walk(edges, focus, p, v) && Runs(p) <= depth && NextShell(edges, focus, depth, v) {
      WalkIsKept(edges, focus, p, v);
      KeptGrows(edges, focus, Runs(p), depth);
      assert v in Kept(edges, focus, depth);
    } else {
      forall v | v in Kept(edges, focus, depth)
        ensures WithinHops(edges, focus, depth, v)
      {
        var p := KeptHasWalk(edges, focus, depth, v);
        if !WithinHops(edges, focus, depth, v) {
          var q, u := PassesShell(edges, focus, depth, p, v);
        }
      }
    }
  }

  // The first id outside that a walk comes to lies in the next shell.
  lemma {:induction false} PassesShell(edges: seq<Edge>, focus: Id, depth: int, p: seq<nat>, v: Id)
    returns (q: seq<nat>, u: Id)
    requires depth >= 0 && Walk(edges, focus, p, v) && !WithinHops(edges, focus, depth, v)
    ensures Walk(edges, focus, q, u) && Runs(q) <= Runs(p) && NextShell(edges, focus, depth, u)
    decreases |p|
  {
    assert |p| <= depth ==> WithinHops(edges, focus, depth, v);
    var last := |p| - 1;
    var e := edges[p[last]];
    var before := if e.to == v && Walk(edges, focus, p[..last], e.from) then e.from else e.to;
    assert Walk(edges, focus, p[..last], before);
    if r :| Walk(edges, focus, r, before) && |r| <= depth {
      WalkOn(edges, focus, r, before, p[last], v);
      q, u := p, v;
    } else {
      q, u := PassesShell(edges, focus, depth, p[..last], before);
    }
  }

  lemma WalkOn(edges: seq<Edge>, focus: Id, r: seq<nat>, before: Id, i: nat, v: Id)
    requires Walk(edges, focus, r, before) && i < |edges| && Joins(edges[i], before, v)
    ensures Walk(edges, focus, r + [i], v)
  {
    assert (r + [i])[..|r|] == r;
  }

  lemma {:induction false} KeptHasWalk(edges: seq<Edge>, focus: Id, depth: nat, v: Id) returns (p: seq<nat>)
    requires v in Kept(edges, focus, depth)
    ensures Walk(edges, focus, p, v) && Runs(p) <= depth
    decreases depth, 1, 0
  {
    if depth == 0 {
      p := [];
    } else {
      p := ScanHasWalk(edges, focus, depth, |edges|, v);
    }
  }

  // A walk whose last run has used none of the edges from position n on.
  lemma {:induction false} ScanHasWalk(edges: seq<Edge>, focus: Id, depth: nat, n: nat, v: Id) returns (p: seq<nat>)
    requires depth > 0 && n <= |edges|
    requires v in Scan(edges, Kept(edges, focus, depth - 1), n)
    ensures Walk(edges, focus, p, v) && Runs(p) <= depth
    ensures Runs(p) == depth ==> p[|p|-1] < n
    decreases depth, 0, n
  {
    var before := Kept(edges, focus, depth - 1);
    if n == 0 {
      p := KeptHasWalk(edges, focus, depth - 1, v);
    } else if v in Scan(edges, before, n - 1) {
      p := ScanHasWalk(edges, focus, depth, n - 1, v);
    } else {
      var e := edges[n-1];
      var u := if e.from in Scan(edges, before, n - 1) then e.from else e.to;
      assert Joins(e, u, v);
      var q := ScanHasWalk(edges, focus, depth, n - 1, u);
      WalkSnoc(edges, focus, q, u, n - 1, v);
      p := q + [n - 1];
      assert p[..|p|-1] == q;
    }
  }

  lemma {:induction false} WalkIsKept(edges: seq<Edge>, focus: Id, p: seq<nat>, v: Id)
    requires Walk(edges, focus, p, v)
    ensures v in Kept(edges, focus, Runs(p))
    decreases |p|, 1
  {
    if p != [] {
      WalkIsScanned(edges, focus, p, v);
      ScanGrows(edges, Kept(edges, focus, Runs(p) - 1), p[|p|-1] + 1, |edges|);
    }
  }

  lemma {:induction false} WalkIsScanned(edges: seq<Edge>, focus: Id, p: seq<nat>, v: Id)
    requires p != [] && Walk(edges, focus, p, v)
    ensures Runs(p) > 0 && p[|p|-1] < |edges|
    ensures v in Scan(edges, Kept(edges, focus, Runs(p) - 1), p[|p|-1] + 1)
    decreases |p|, 0
  {
    var last := |p| - 1;
    var i, q := p[last], p[..last];
    var e := edges[i];
    var u := if e.to == v && Walk(edges, focus, q, e.from) then e.from else e.to;
    RunsPositive(p);
    var before := Kept(edges, focus, Runs(p) - 1);
    if q == [] || !(q[last-1] < i) {
      WalkIsKept(edges, focus, q, u);
      ScanGrows(edges, before, 0, i);
    } else {
      WalkIsScanned(edges, focus, q, u);
      ScanGrows(edges, before, q[last-1] + 1, i);
    }
    assert u in Scan(edges, before, i);
  }

  lemma {:induction false} RunsPositive(p: seq<nat>)
    requires p != []
    ensures Runs(p) > 0
  {
    if |p| > 1 {
      RunsPositive(p[..|p|-1]);
    }
  }

  lemma {:induction false} ScanGrows(edges: seq<Edge>, keep: set<Id>, m: nat, n: nat)
    requires m <= n <= |edges|
    ensures Scan(edges, keep, m) <= Scan(edges, keep, n)
  {
    if m < n {
      ScanGrows(edges, keep, m, n - 1);
    }
  }

  lemma {:induction false} KeptGrows(edges: seq<Edge>, focus: Id, d: nat, d': nat)
    requires d <= d'
    ensures Kept(edges, focus, d) <= Kept(edges, focus, d')
  {
    if d < d' {
      KeptGrows(edges, focus, d, d' - 1);
      ScanGrows(edges, Kept(edges, focus, d' - 1), 0, |edges|);
    }
  }

  // Everything within depth hops is kept, and nothing outside the component of focus.
  lemma KeptBetweenBallAndComponent(edges: seq<Edge>, focus: Id, depth: nat)
    ensures forall p, v :: Walk(edges, focus, p, v) && |p| <= depth ==> v in Kept(edges, focus, depth)
    ensures forall v :: v in Kept(edges, focus, depth) ==> Connected(edges, focus, v)
  {
    forall p, v | Walk(edges, focus, p, v) && |p| <= depth
      ensures v in Kept(edges, focus, depth)
    {
      WalkIsKept(edges, focus, p, v);
      KeptGrows(edges, focus, Runs(p), depth);
    }
    forall v | v in Kept(edges, focus, depth)
      ensures Connected(edges, focus, v)
    {
      var p := KeptHasWalk(edges, focus, depth, v);
    }
  }

  // One pass can keep a node two hops away, so depth does not bound the distance.
  lemma OnePassMayReachTwoHops()
    ensures exists edges: seq<Edge>, focus: Id, v: Id ::
              v in Kept(edges, focus, 1) && forall p :: Walk(edges, focus, p, v) ==> |p| >= 2
  {
    var edges := [Edge("ab", "a", "b"), Edge("bc", "b", "c")];
    assert Kept(edges, "a", 0) == {"a"};
    assert "b" in Scan(edges, {"a"}, 1);
    assert "c" in Scan(edges, {"a"}, 2);
    assert "c" in Kept(edges, "a", 1);
    forall p: seq<nat> | |p| < 2
      ensures !Walk(edges, "a", p, "c")
    {
      assert "a"[0] != "b"[0] && "a"[0] != "c"[0] && "b"[0] != "c"[0];
      if |p| == 1 {
        assert p[..0] == [] && !Walk(edges, "a", [], "b");
      }
    }
    assert forall p :: Walk(edges, "a", p, "c") ==> |p| >= 2;
  }

  // Either the passes have reached a fixpoint, or each has added an id.
  lemma {:induction false} KeptGrowsOrIsClosed(edges: seq<Edge>, focus: Id, depth: nat)
    ensures Closed(edges, Kept(edges, focus, depth)) || |Kept(edges, focus, depth)| > depth
  {
    if depth > 0 {
      var before := Kept(edges, focus, depth - 1);
      var after := Kept(edges, focus, depth);
      KeptGrowsOrIsClosed(edges, focus, depth - 1);
      ScanGrows(edges, before, 0, |edges|);
      if after == before {
        StablePassIsClosed(edges, before);
      } else {
        SubsetSize(before, after);
        if Closed(edges, before) {
          ClosedScanIsStable(edges, before, |edges|);
        }
      }
    }
  }

  lemma StablePassIsClosed(edges: seq<Edge>, keep: set<Id>)
    requires Scan(edges, keep, |edges|) == keep
    ensures Closed(edges, keep)
  {
    forall i | 0 <= i < |edges|
      ensures edges[i].from in keep <==> edges[i].to in keep
    {
      ScanGrows(edges, keep, 0, i);
      ScanGrows(edges, keep, i, i + 1);
      ScanGrows(edges, keep, i + 1, |edges|);
      assert Scan(edges, keep, i) == keep == Scan(edges, keep, i + 1);
    }
  }

  lemma {:induction false} ClosedScanIsStable(edges: seq<Edge>, keep: set<Id>, n: nat)
    requires Closed(edges, keep) && n <= |edges|
    ensures Scan(edges, keep, n) == keep
  {
    if n > 0 {
      ClosedScanIsStable(edges, keep, n - 1);
    }
  }

  // With as many passes as there are other nodes, what is kept is the whole component.
  lemma DeepKeepIsComponent(ids: set<Id>, edges: seq<Edge>, focus: Id, depth: int, v: Id)
    requires focus in ids && Endpoints(edges) <= ids
    requires depth >= |ids| - 1
    ensures v in Kept(edges, focus, depth) <==> Connected(edges, focus, v)
  {
    var keep := Kept(edges, focus, depth);
    assert ids == {focus} + (ids - {focus});
    KeptBetweenBallAndComponent(edges, focus, depth);
    KeptGrowsOrIsClosed(edges, focus, depth);
    KeptWithin(ids, edges, focus, depth);
    if |keep| > depth {
      if keep < ids { SubsetSize(keep, ids); }
      assert keep == ids;
      assert Closed(edges, keep) by {
        assert forall i :: 0 <= i < |edges| ==> edges[i].from in Endpoints(edges) && edges[i].to in Endpoints(edges);
      }
    }
    KeptGrows(edges, focus, 0, depth);
    assert focus in Kept(edges, focus, 0);
    if Connected(edges, focus, v) {
      ClosedSeparates(edges, keep, focus, v);
    }
  }

  lemma {:induction false} KeptWithin(ids: set<Id>, edges: seq<Edge>, focus: Id, depth: nat)
    requires focus in ids && Endpoints(edges) <= ids
    ensures Kept(edges, focus, depth) <= ids
  {
    if depth > 0 {
      KeptWithin(ids, edges, focus, depth - 1);
      ScanWithin(ids, edges, Kept(edges, focus, depth - 1), |edges|);
    }
  }

  lemma {:induction false} ScanWithin(ids: set<Id>, edges: seq<Edge>, keep: set<Id>, n: nat)
    requires keep <= ids && Endpoints(edges) <= ids && n <= |edges|
    ensures Scan(edges, keep, n) <= ids
  {
    if n > 0 {
      ScanWithin(ids, edges, keep, n - 1);
      assert edges[n-1].from in Endpoints(edges) && edges[n-1].to in Endpoints(edges);
    }
  }

  // A node is kept, at that depth, exactly when it has the group of focus.
  lemma DeepKeepIsCommunity(nodes: seq<Id>, edges: seq<Edge>, m: map<Id, nat>, k: nat, focus: Id, depth: int, v: Id)
    requires IsLabelling(nodes, edges, m, k)
    requires focus in nodes && v in nodes
    requires forall i :: 0 <= i < |edges| ==> edges[i].from in nodes && edges[i].to in nodes
    requires depth >= |nodes| - 1
    ensures focus in m && v in m
    ensures v in Kept(edges, focus, depth) <==> m[v] == m[focus]
  {
    NodesAreLabelled(nodes, |nodes|, edges, m, k);
    var ids := set i | 0 <= i < |nodes| :: nodes[i];
    IdCount(nodes, ids);
    DeepKeepIsComponent(ids, edges, focus, depth, v);
    assert m[focus] == m[v] <==> Connected(edges, focus, v);
  }

  lemma {:induction false} IdCount(nodes: seq<Id>, ids: set<Id>)
    requires forall id :: id in ids <==> id in nodes
    ensures |ids| <= |nodes|
  {
    if nodes == [] {
      assert ids == {};
    } else {
      var last := |nodes| - 1;
      var rest := set i | 0 <= i < last :: nodes[i];
      IdCount(nodes[..last], rest);
      assert ids <= rest + {nodes[last]};
      if nodes[last] !in rest { assert ids == rest + {nodes[last]}; } else { assert ids == rest; }
    }
  }

  // Cuts the graph down to what lies around focus. The kept ids include focus even when it
  // is not a node; only nodes of the graph survive in the result.
  method ComponentSubgraph(focus: Id, nodes: seq<Id>, edges: seq<Edge>, communities: map<Id, nat>, depth: int)
    returns (nodes': seq<Id>, edges': seq<Edge>, communities': map<Id, nat>)
    ensures nodes' == Filter((id: Id) => id in Kept(edges, focus, depth), nodes)
    ensures edges' == Filter((e: Edge) => e.from in nodes' && e.to in nodes', edges)
    ensures communities' == map id | id in communities && id in nodes' :: communities[id]
  {
    var keep := {focus};
    var i := 0;
    while i < depth
      invariant 0 <= i && (i <= depth || i == 0)
      invariant keep == Kept(edges, focus, i)
    {
      ghost var before := keep;
      for k := 0 to |edges|
        invariant keep == Scan(edges, before, k)
      {
        var edge := edges[k];
        if edge.from in keep { keep := keep + {edge.to}; }
        if edge.to in keep { keep := keep + {edge.from}; }
      }
      i := i + 1;
    }
    assert keep == Kept(edges, focus, depth);
    nodes' := [];
    for n := 0 to |nodes|
      invariant nodes' == Filter((id: Id) => id in Kept(edges, focus, depth), nodes[..n])
    {
      TakeSnoc(nodes, n);
      if nodes[n] in keep { nodes' := nodes' + [nodes[n]]; }
    }
    assert nodes[..|nodes|] == nodes;
    var nodeIds := set id | id in nodes';
    edges' := [];
    for n := 0 to |edges|
      invariant edges' == Filter((e: Edge) => e.from in nodes' && e.to in nodes', edges[..n])
    {
      TakeSnoc(edges, n);
      if edges[n].from in nodeIds && edges[n].to in nodeIds { edges' := edges' + [edges[n]]; }
    }
    assert edges[..|edges|] == edges;
    communities' := map id | id in communities && id in nodeIds :: communities[id];
  }
}
