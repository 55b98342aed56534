/** Undirected walks over a list of edges, and the connectivity they define. */
module Walks {

  type Id = string

  // A GraphEdge, reduced to what the algorithms read: its key and its two ends.
  datatype Edge = Edge(id: string, from: Id, to: Id)

  // The edge has v at one end and u at the other, in either direction.
  predicate Joins(e: Edge, u: Id, v: Id) {
    (e.from == u && e.to == v) || (e.from == v && e.to == u)
  }

  // p lists the positions of the edges crossed, in order, on a walk from u to v.
  // Edges may be crossed in either direction.
  ghost predicate Walk(edges: seq<Edge>, u: Id, p: seq<nat>, v: Id)
    decreases |p|
  {
    if p == [] then u == v
    else
      var last := |p| - 1;
      p[last] < |edges| &&
      var e := edges[p[last]];
      || (e.to == v && Walk(edges, u, p[..last], e.from))
      || (e.from == v && Walk(edges, u, p[..last], e.to))
  }

  ghost predicate Connected(edges: seq<Edge>, u: Id, v: Id) {
    exists p :: Walk(edges, u, p, v)
  }

  // No edge leaves S.
  ghost predicate Closed(edges: seq<Edge>, S: set<Id>) {
    forall i :: 0 <= i < |edges| ==> (edges[i].from in S <==> edges[i].to in S)
  }

  lemma WalkSnoc(edges: seq<Edge>, u: Id, p: seq<nat>, w: Id, i: nat, v: Id)
    requires Walk(edges, u, p, w)
    requires i < |edges| && Joins(edges[i], w, v)
    ensures Walk(edges, u, p + [i], v)
  {
    assert (p + [i])[..|p|] == p;
  }

  lemma {:induction false} WalkConcat(edges: seq<Edge>, u: Id, p: seq<nat>, v: Id, q: seq<nat>, w: Id)
    requires Walk(edges, u, p, v) && Walk(edges, v, q, w)
    ensures Walk(edges, u, p + q, w)
    decreases |q|
  {
    if q == [] {
      assert p + q == p;
    } else {
      var last := |q| - 1;
      var e := edges[q[last]];
      var x := if e.to == w && Walk(edges, v, q[..last], e.from) then e.from else e.to;
      WalkConcat(edges, u, p, v, q[..last], x);
      assert p + q == (p + q[..last]) + [q[last]];
      WalkSnoc(edges, u, p + q[..last], x, q[last], w);
    }
  }

  lemma {:induction false} WalkReverse(edges: seq<Edge>, u: Id, p: seq<nat>, v: Id)
    requires Walk(edges, u, p, v)
    ensures exists q :: Walk(edges, v, q, u)
    decreases |p|
  {
    if p == [] {
      assert Walk(edges, v, [], u);
    } else {
      var last := |p| - 1;
      var e := edges[p[last]];
      var x := if e.to == v && Walk(edges, u, p[..last], e.from) then e.from else e.to;
      WalkReverse(edges, u, p[..last], x);
      var q :| Walk(edges, x, q, u);
      assert Walk(edges, v, [], v);
      WalkSnoc(edges, v, [], v, p[last], x);
      WalkConcat(edges, v, [] + [p[last]], x, q, u);
    }
  }

  lemma ConnectedRefl(edges: seq<Edge>, u: Id)
    ensures Connected(edges, u, u)
  {
    assert Walk(edges, u, [], u);
  }

  lemma ConnectedSym(edges: seq<Edge>, u: Id, v: Id)
    requires Connected(edges, u, v)
    ensures Connected(edges, v, u)
  {
    var p :| Walk(edges, u, p, v);
    WalkReverse(edges, u, p, v);
  }

  lemma ConnectedTrans(edges: seq<Edge>, u: Id, v: Id, w: Id)
    requires Connected(edges, u, v) && Connected(edges, v, w)
    ensures Connected(edges, u, w)
  {
    var p :| Walk(edges, u, p, v);
    var q :| Walk(edges, v, q, w);
    WalkConcat(edges, u, p, v, q, w);
  }

  lemma ConnectedStep(edges: seq<Edge>, u: Id, w: Id, i: nat, v: Id)
    requires Connected(edges, u, w)
    requires i < |edges| && Joins(edges[i], w, v)
    ensures Connected(edges, u, v)
  {
    var p :| Walk(edges, u, p, w);
    WalkSnoc(edges, u, p, w, i, v);
  }

  // A walk that starts in a closed set ends in it.
  lemma {:induction false} WalkStaysInClosed(edges: seq<Edge>, S: set<Id>, u: Id, p: seq<nat>, v: Id)
    requires Closed(edges, S) && Walk(edges, u, p, v)
    ensures u in S <==> v in S
    decreases |p|
  {
    if p != [] {
      var last := |p| - 1;
      var e := edges[p[last]];
      if e.to == v && Walk(edges, u, p[..last], e.from) {
        WalkStaysInClosed(edges, S, u, p[..last], e.from);
      } else {
        WalkStaysInClosed(edges, S, u, p[..last], e.to);
      }
    }
  }

  // A closed set is a union of connected components.
  lemma ClosedSeparates(edges: seq<Edge>, S: set<Id>, u: Id, v: Id)
    requires Closed(edges, S) && Connected(edges, u, v)
    ensures u in S <==> v in S
  {
    var p :| Walk(edges, u, p, v);
    WalkStaysInClosed(edges, S, u, p, v);
  }
}
