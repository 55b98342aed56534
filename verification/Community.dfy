/** Community detection with the native strategy: component labelling by breadth-first search. */
module Community {
  import opened Walks
  import opened Sets

  // What a component labelling is, without reference to how one is computed. Numbers are
  // handed out in the order in which components first appear among the nodes.
  ghost predicate IsLabelling(nodes: seq<Id>, edges: seq<Edge>, m: map<Id, nat>, k: nat) {
    Labels(nodes, |nodes|, edges, m, k)
  }

  // The same for the first n nodes.
  ghost predicate Labels(nodes: seq<Id>, n: nat, edges: seq<Edge>, m: map<Id, nat>, k: nat) {
    && n <= |nodes|
    && (forall id :: id in m <==> Reached(nodes, n, edges, id))
    && GroupsAreComponents(edges, m)
    && GroupsInOrder(nodes, n, m, k)
  }

  // The groups are the numbers below k, each used first after all smaller ones.
  ghost predicate GroupsInOrder(nodes: seq<Id>, n: nat, m: map<Id, nat>, k: nat)
    requires n <= |nodes|
  {
    && (forall id | id in m :: m[id] < k)
    && (forall g: nat :: g < k ==> Appears(nodes, n, m, g))
  }

  ghost predicate Reached(nodes: seq<Id>, n: nat, edges: seq<Edge>, id: Id)
    requires n <= |nodes|
  {
    exists i :: 0 <= i < n && Connected(edges, nodes[i], id)
  }

  ghost predicate GroupsAreComponents(edges: seq<Edge>, m: map<Id, nat>) {
    forall a, b {:trigger Connected(edges, a, b)} | a in m && b in m :: m[a] == m[b] <==> Connected(edges, a, b)
  }

  // Some position carries group g, and every position before it carries a smaller group.
  ghost predicate Appears(nodes: seq<Id>, n: nat, m: map<Id, nat>, g: nat)
    requires n <= |nodes|
  {
    exists i :: FirstOf(nodes, n, m, i, g)
  }

  ghost predicate FirstOf(nodes: seq<Id>, n: nat, m: map<Id, nat>, i: int, g: nat)
    requires n <= |nodes|
  {
    && 0 <= i < n && nodes[i] in m && m[nodes[i]] == g
    && forall j :: 0 <= j < i ==> nodes[j] in m && m[nodes[j]] < g
  }

  // Two labellings of the same graph are the same map: the specification leaves no choice.
  lemma LabellingIsUnique(nodes: seq<Id>, edges: seq<Edge>, m: map<Id, nat>, k: nat, m': map<Id, nat>, k': nat)
    requires IsLabelling(nodes, edges, m, k) && IsLabelling(nodes, edges, m', k')
    ensures m == m' && k == k'
  {
    NodesAreLabelled(nodes, |nodes|, edges, m, k);
    NodesAreLabelled(nodes, |nodes|, edges, m', k');
    LabellingsAgree(nodes, edges, m, k, m', k', |nodes|);
    GroupsAgree(nodes, edges, m, k, m', k');
    GroupsAgree(nodes, edges, m', k', m, k);
    SameKeys(nodes, edges, m, m');
    forall id | id in m
      ensures m[id] == m'[id]
    {
      assert Reached(nodes, |nodes|, edges, id);
      SameLabel(nodes, edges, m, m', id);
    }
  }

  lemma SameKeys(nodes: seq<Id>, edges: seq<Edge>, m: map<Id, nat>, m': map<Id, nat>)
    requires forall id :: id in m <==> Reached(nodes, |nodes|, edges, id)
    requires forall id :: id in m' <==> Reached(nodes, |nodes|, edges, id)
    ensures m.Keys == m'.Keys
  {
    assert forall id :: id in m <==> id in m';
  }

  lemma SameLabel(nodes: seq<Id>, edges: seq<Edge>, m: map<Id, nat>, m': map<Id, nat>, id: Id)
    requires Reached(nodes, |nodes|, edges, id) && id in m && id in m'
    requires GroupsAreComponents(edges, m) && GroupsAreComponents(edges, m')
    requires forall i :: 0 <= i < |nodes| ==> nodes[i] in m && nodes[i] in m' && m[nodes[i]] == m'[nodes[i]]
    ensures m[id] == m'[id]
  {
    var i :| 0 <= i < |nodes| && Connected(edges, nodes[i], id);
    calc {
      m[id];
      m[nodes[i]];
      m'[nodes[i]];
      m'[id];
    }
  }

  lemma GroupsAgree(nodes: seq<Id>, edges: seq<Edge>, m: map<Id, nat>, k: nat, m': map<Id, nat>, k': nat)
    requires forall i :: 0 <= i < |nodes| ==> nodes[i] in m && nodes[i] in m' && m[nodes[i]] == m'[nodes[i]]
    requires forall id | id in m :: m[id] < k
    requires forall g: nat :: g < k' ==> Appears(nodes, |nodes|, m', g)
    ensures k' <= k
  {
    if k' > 0 {
      var g := k' - 1;
      assert Appears(nodes, |nodes|, m', g);
      var i :| FirstOf(nodes, |nodes|, m', i, g);
      assert m[nodes[i]] == g;
    }
  }

  lemma NodesAreLabelled(nodes: seq<Id>, n: nat, edges: seq<Edge>, m: map<Id, nat>, k: nat)
    requires Labels(nodes, n, edges, m, k)
    ensures forall i :: 0 <= i < n ==> nodes[i] in m
  {
    forall i | 0 <= i < n ensures nodes[i] in m {
      ConnectedRefl(edges, nodes[i]);
      assert Reached(nodes, n, edges, nodes[i]);
    }
  }

  lemma {:induction false} LabellingsAgree(nodes: seq<Id>, edges: seq<Edge>, m: map<Id, nat>, k: nat,
                                           m': map<Id, nat>, k': nat, n: nat)
    requires GroupsAreComponents(edges, m) && GroupsAreComponents(edges, m')
    requires GroupsInOrder(nodes, |nodes|, m, k) && GroupsInOrder(nodes, |nodes|, m', k')
    requires n <= |nodes| && forall i :: 0 <= i < |nodes| ==> nodes[i] in m && nodes[i] in m'
    ensures forall i :: 0 <= i < n ==> m[nodes[i]] == m'[nodes[i]]
  {
    if n > 0 {
      var last := n - 1;
      LabellingsAgree(nodes, edges, m, k, m', k', last);
      forall j | 0 <= j < last
        ensures m[nodes[j]] == m[nodes[last]] <==> m'[nodes[j]] == m'[nodes[last]]
      {
        SamePairs(edges, m, m', nodes[j], nodes[last]);
      }
      if forall j :: 0 <= j < last ==> m[nodes[j]] != m[nodes[last]] {
        NewNodeTakesNextGroup(nodes, m, k, last);
        NewNodeTakesNextGroup(nodes, m', k', last);
        SameNextGroup(nodes, m, m', last, m[nodes[last]], m'[nodes[last]]);
        SameNextGroup(nodes, m', m, last, m'[nodes[last]], m[nodes[last]]);
      }
    }
  }

  lemma SamePairs(edges: seq<Edge>, m: map<Id, nat>, m': map<Id, nat>, a: Id, b: Id)
    requires GroupsAreComponents(edges, m) && GroupsAreComponents(edges, m')
    requires a in m && b in m && a in m' && b in m'
    ensures m[a] == m[b] <==> m'[a] == m'[b]
  {
    var c := Connected(edges, a, b);
    assert m[a] == m[b] <==> c;
    assert m'[a] == m'[b] <==> c;
  }

  ghost predicate Used(nodes: seq<Id>, n: nat, m: map<Id, nat>, g: nat)
    requires n <= |nodes|
  {
    exists j :: 0 <= j < n && nodes[j] in m && m[nodes[j]] == g
  }

  lemma SameNextGroup(nodes: seq<Id>, m: map<Id, nat>, m': map<Id, nat>, n: nat, g: nat, g': nat)
    requires n <= |nodes|
    requires forall j :: 0 <= j < n ==> nodes[j] in m && nodes[j] in m' && m[nodes[j]] == m'[nodes[j]] < g
    requires forall h: nat :: h < g' ==> Used(nodes, n, m', h)
    ensures g' <= g
  {
    if g' > 0 {
      var h := g' - 1;
      assert Used(nodes, n, m', h);
    }
  }

  // A node in no earlier node's group takes the least number no earlier node has.
  lemma NewNodeTakesNextGroup(nodes: seq<Id>, m: map<Id, nat>, k: nat, n: nat)
    requires GroupsInOrder(nodes, |nodes|, m, k)
    requires n < |nodes| && forall i :: 0 <= i < |nodes| ==> nodes[i] in m
    requires forall j :: 0 <= j < n ==> m[nodes[j]] != m[nodes[n]]
    ensures forall j :: 0 <= j < n ==> m[nodes[j]] < m[nodes[n]]
    ensures forall g: nat :: g < m[nodes[n]] ==> Used(nodes, n, m, g)
  {
    assert Appears(nodes, |nodes|, m, m[nodes[n]]);
    var i :| FirstOf(nodes, |nodes|, m, i, m[nodes[n]]);
    assert i == n;
    forall g: nat | g < m[nodes[n]]
      ensures Used(nodes, n, m, g)
    {
      assert Appears(nodes, |nodes|, m, g);
    }
  }

  predicate Distinct(s: seq<Id>) {
    forall i, j :: 0 <= i < j < |s| ==> s[i] != s[j]
  }

  // The ids at the other end of an edge at nodeId, each once, in the order a JavaScript Set keeps.
  method Neighbors(nodeId: Id, edges: seq<Edge>) returns (out: seq<Id>)
    ensures Distinct(out)
    ensures forall v :: v in out <==> Adjacent(edges, nodeId, v)
  {
    out := [];
    for k := 0 to |edges|
      invariant Distinct(out)
      invariant forall v :: v in out <==> exists i :: 0 <= i < k && Joins(edges[i], nodeId, v)
    {
      var edge := edges[k];
      if edge.from == nodeId && edge.to !in out { out := out + [edge.to]; }
      if edge.to == nodeId && edge.from !in out { out := out + [edge.from]; }
    }
  }

  ghost predicate Adjacent(edges: seq<Edge>, u: Id, v: Id) {
    exists i :: 0 <= i < |edges| && Joins(edges[i], u, v)
  }

  ghost function Endpoints(edges: seq<Edge>): set<Id> {
    (set i | 0 <= i < |edges| :: edges[i].from) + (set i | 0 <= i < |edges| :: edges[i].to)
  }

  // The edges crossed to discover ids, and the ids they can have discovered.
  ghost predicate IsForest(edges: seq<Edge>, tree: set<nat>, seen: set<Id>, roots: nat) {
    && (forall i | i in tree :: i < |edges| && edges[i].from in seen && edges[i].to in seen)
    && |seen| == roots + |tree|
  }

  lemma ForestBound(edges: seq<Edge>, tree: set<nat>, seen: set<Id>, roots: nat)
    requires IsForest(edges, tree, seen, roots)
    ensures |seen| <= roots + |edges|
  {
    RangeSize(tree, 0, |edges|);
  }

  // State of the search from root: ids in result are settled, ids in queue are discovered only.
  ghost predicate Searching(edges: seq<Edge>, before: map<Id, nat>, root: Id, group: nat,
                            seen: set<Id>, queue: seq<Id>, result: map<Id, nat>) {
    && Extends(before, result, group)
    && Distinct(queue)
    && (forall id :: id in seen <==> id in result || id in queue)
    && (forall id | id in queue :: id !in result)
    && (forall id | id in seen && id !in before :: Connected(edges, root, id))
    && Explored(edges, result.Keys, seen)
  }

  ghost predicate Extends(before: map<Id, nat>, result: map<Id, nat>, group: nat) {
    && (forall id | id in before :: id in result && result[id] == before[id])
    && (forall id | id in result && id !in before :: result[id] == group)
  }

  // Everything next to a settled id has been seen.
  ghost predicate Explored(edges: seq<Edge>, settled: set<Id>, seen: set<Id>) {
    forall i | 0 <= i < |edges| ::
      (edges[i].from in settled ==> edges[i].to in seen) && (edges[i].to in settled ==> edges[i].from in seen)
  }

  // State between two searches: the first n nodes have been scanned.
  ghost predicate Scanned(nodes: seq<Id>, edges: seq<Edge>, n: nat, group: nat, result: map<Id, nat>) {
    && Labels(nodes, n, edges, result, group)
    && Closed(edges, result.Keys)
  }

  lemma SearchDone(nodes: seq<Id>, edges: seq<Edge>, n: nat, before: map<Id, nat>, group: nat,
                   seen: set<Id>, result: map<Id, nat>)
    requires n < |nodes| && Scanned(nodes, edges, n, group, before)
    requires nodes[n] !in before && nodes[n] in seen
    requires Searching(edges, before, nodes[n], group, seen, [], result)
    ensures Scanned(nodes, edges, n + 1, group + 1, result)
  {
    var root := nodes[n];
    assert seen == result.Keys;
    NodesAreLabelled(nodes, n, edges, before, group);
    SearchKeys(nodes, edges, n, before, group, seen, result);
    forall a, b {:trigger Connected(edges, a, b)} | a in result && b in result
      ensures result[a] == result[b] <==> Connected(edges, a, b)
    {
      SearchGroups(edges, before, root, group, seen, result, a, b);
    }
    forall g: nat {:trigger Appears(nodes, n + 1, result, g)} | g < group + 1
      ensures Appears(nodes, n + 1, result, g)
    {
      if g == group {
        assert FirstOf(nodes, n + 1, result, n, g);
      } else {
        assert Appears(nodes, n, before, g);
        StillAppears(nodes, n, before, result, g);
      }
    }
  }

  lemma StillAppears(nodes: seq<Id>, n: nat, before: map<Id, nat>, result: map<Id, nat>, g: nat)
    requires n < |nodes| && Appears(nodes, n, before, g)
    requires forall id | id in before :: id in result && result[id] == before[id]
    ensures Appears(nodes, n + 1, result, g)
  {
    var i :| FirstOf(nodes, n, before, i, g);
    assert FirstOf(nodes, n + 1, result, i, g);
  }

  lemma SearchKeys(nodes: seq<Id>, edges: seq<Edge>, n: nat, before: map<Id, nat>, group: nat,
                   seen: set<Id>, result: map<Id, nat>)
    requires n < |nodes| && nodes[n] in seen
    requires forall id :: id in before <==> Reached(nodes, n, edges, id)
    requires Searching(edges, before, nodes[n], group, seen, [], result)
    ensures Closed(edges, result.Keys)
    ensures forall id :: id in result <==> Reached(nodes, n + 1, edges, id)
  {
    forall id
      ensures id in result <==> Reached(nodes, n + 1, edges, id)
    {
      assert id in before <==> Reached(nodes, n, edges, id);
      KeysAreReached(nodes, edges, n, result, id);
    }
  }

  // Settling one more node keeps the keys equal to what the nodes reach.
  lemma KeysAreReached(nodes: seq<Id>, edges: seq<Edge>, n: nat, result: map<Id, nat>, id: Id)
    requires n < |nodes| && nodes[n] in result && Closed(edges, result.Keys)
    requires Reached(nodes, n, edges, id) ==> id in result
    requires id in result && !Reached(nodes, n, edges, id) ==> Connected(edges, nodes[n], id)
    ensures id in result <==> Reached(nodes, n + 1, edges, id)
  {
    if Reached(nodes, n + 1, edges, id) {
      var i :| 0 <= i < n + 1 && Connected(edges, nodes[i], id);
      if i == n {
        ClosedSeparates(edges, result.Keys, nodes[n], id);
      }
    }
  }

  lemma SearchGroups(edges: seq<Edge>, before: map<Id, nat>, root: Id, group: nat, seen: set<Id>,
                     result: map<Id, nat>, a: Id, b: Id)
    requires Searching(edges, before, root, group, seen, [], result)
    requires Closed(edges, before.Keys)
    requires GroupsAreComponents(edges, before)
    requires forall x | x in before :: before[x] < group
    requires a in result && b in result
    ensures result[a] == result[b] <==> Connected(edges, a, b)
  {
    if (a in before) != (b in before) {
      if Connected(edges, a, b) {
        ClosedSeparates(edges, before.Keys, a, b);
      }
    } else if a !in before {
      ConnectedSym(edges, root, a);
      ConnectedTrans(edges, a, root, b);
    }
  }

  // Queues the neighbours of current that have not been seen yet.
  method Discover(edges: seq<Edge>, root: Id, current: Id, seen0: set<Id>, queue0: seq<Id>,
                  ghost tree0: set<nat>, ghost roots: nat)
    returns (seen: set<Id>, queue: seq<Id>, ghost tree: set<nat>)
    requires current in seen0 && Distinct(queue0) && forall id | id in queue0 :: id in seen0
    requires Connected(edges, root, current) && IsForest(edges, tree0, seen0, roots)
    ensures Distinct(queue) && seen0 <= seen <= seen0 + Endpoints(edges)
    ensures forall id :: id in queue <==> id in queue0 || id in seen - seen0
    ensures forall id :: id in seen - seen0 ==> Connected(edges, root, id)
    ensures Explored(edges, {current}, seen)
    ensures IsForest(edges, tree, seen, roots)
  {
    seen, queue, tree := seen0, queue0, tree0;
    var next := Neighbors(current, edges);
    for k := 0 to |next|
      invariant Distinct(queue) && seen0 <= seen <= seen0 + Endpoints(edges)
      invariant forall id :: id in queue <==> id in queue0 || id in seen - seen0
      invariant forall id :: id in seen - seen0 ==> Connected(edges, root, id)
      invariant forall j :: 0 <= j < k ==> next[j] in seen
      invariant IsForest(edges, tree, seen, roots)
    {
      if next[k] !in seen {
        ghost var i := NewNeighbor(edges, root, current, next[k], tree, seen, roots);
        seen := seen + {next[k]};
        queue := queue + [next[k]];
        tree := tree + {i};
      }
    }
    NeighborsExplored(edges, current, seen);
  }

  lemma NewNeighbor(edges: seq<Edge>, root: Id, current: Id, v: Id, tree: set<nat>, seen: set<Id>, roots: nat)
    returns (i: nat)
    requires Adjacent(edges, current, v) && Connected(edges, root, current)
    requires IsForest(edges, tree, seen, roots) && current in seen && v !in seen
    ensures Connected(edges, root, v) && v in Endpoints(edges)
    ensures IsForest(edges, tree + {i}, seen + {v}, roots)
  {
    i :| 0 <= i < |edges| && Joins(edges[i], current, v);
    ConnectedStep(edges, root, current, i, v);
  }

  lemma NeighborsExplored(edges: seq<Edge>, current: Id, seen: set<Id>)
    requires forall v :: Adjacent(edges, current, v) ==> v in seen
    ensures Explored(edges, {current}, seen)
  {
    forall i | 0 <= i < |edges|
      ensures edges[i].from == current ==> edges[i].to in seen
      ensures edges[i].to == current ==> edges[i].from in seen
    {
      if edges[i].from == current { assert Adjacent(edges, current, edges[i].to); }
      if edges[i].to == current { assert Adjacent(edges, current, edges[i].from); }
    }
  }

  // One pass of the outer loop: labels everything root reaches.
  method Search(edges: seq<Edge>, root: Id, group: nat, seen0: set<Id>, before: map<Id, nat>, ghost tree0: set<nat>)
    returns (seen: set<Id>, result: map<Id, nat>, ghost tree: set<nat>)
    requires seen0 == before.Keys && Closed(edges, before.Keys) && root !in seen0
    requires IsForest(edges, tree0, seen0, group)
    ensures root in seen && seen == result.Keys
    ensures Searching(edges, before, root, group, seen, [], result)
    ensures IsForest(edges, tree, seen, group + 1)
  {
    var queue := [root];
    seen := seen0 + {root};
    result := before;
    tree := tree0;
    ConnectedRefl(edges, root);
    ghost var all := Endpoints(edges) + seen;
    while queue != []
      invariant Searching(edges, before, root, group, seen, queue, result)
      invariant root in seen && seen <= all
      invariant IsForest(edges, tree, seen, group + 1)
      decreases all - result.Keys
    {
      var current := queue[0];
      ghost var queue1, seen1, result1 := queue, seen, result;
      queue := queue[1..];
      Shift(queue1);
      result := result[current := group];
      seen, queue, tree := Discover(edges, root, current, seen, queue, tree, group + 1);
      SearchStep(edges, before, root, group, seen1, queue1, result1, seen, queue);
    }
  }

  lemma Shift(queue: seq<Id>)
    requires queue != [] && Distinct(queue)
    ensures Distinct(queue[1..]) && queue[0] !in queue[1..]
    ensures forall id :: id in queue <==> id == queue[0] || id in queue[1..]
  {
    assert queue == [queue[0]] + queue[1..];
  }

  lemma SearchStep(edges: seq<Edge>, before: map<Id, nat>, root: Id, group: nat, seen: set<Id>, queue: seq<Id>,
                   result: map<Id, nat>, seen': set<Id>, queue': seq<Id>)
    requires queue != [] && Searching(edges, before, root, group, seen, queue, result)
    requires Distinct(queue') && seen <= seen'
    requires forall id :: id in queue' <==> id in queue[1..] || id in seen' - seen
    requires forall id :: id in seen' - seen ==> Connected(edges, root, id)
    requires Explored(edges, {queue[0]}, seen')
    ensures Searching(edges, before, root, group, seen', queue', result[queue[0] := group])
  {
    Shift(queue);
  }

  // Breadth-first labelling. Ids that occur only in edges are labelled when a node reaches them.
  // groups is the final value of the counter; the source returns the map alone.
  method NativeCommunities(nodes: seq<Id>, edges: seq<Edge>) returns (result: map<Id, nat>, groups: nat)
    ensures IsLabelling(nodes, edges, result, groups)
    ensures |result| <= groups + |edges|
  {
    var seen: set<Id> := {};
    result := map[];
    groups := 0;
    ghost var tree: set<nat> := {};
    for n := 0 to |nodes|
      invariant Scanned(nodes, edges, n, groups, result)
      invariant seen == result.Keys
      invariant IsForest(edges, tree, seen, groups)
    {
      if nodes[n] in seen {
        ScanSkips(nodes, edges, n, groups, result);
        continue;
      }
      ghost var before := result;
      seen, result, tree := Search(edges, nodes[n], groups, seen, result, tree);
      SearchDone(nodes, edges, n, before, groups, seen, result);
      groups := groups + 1;
    }
    ForestBound(edges, tree, seen, groups);
    assert |result.Keys| == |result|;
  }

  lemma ScanSkips(nodes: seq<Id>, edges: seq<Edge>, n: nat, group: nat, result: map<Id, nat>)
    requires n < |nodes| && Scanned(nodes, edges, n, group, result) && nodes[n] in result
    ensures Scanned(nodes, edges, n + 1, group, result)
  {
    forall id
      ensures id in result <==> Reached(nodes, n + 1, edges, id)
    {
      assert id in result <==> Reached(nodes, n, edges, id);
      KeysAreReached(nodes, edges, n, result, id);
    }
    forall g: nat {:trigger Appears(nodes, n + 1, result, g)} | g < group
      ensures Appears(nodes, n + 1, result, g)
    {
      assert Appears(nodes, n, result, g);
      StillAppears(nodes, n, result, result, g);
    }
  }
}
