/** Building the knowledge graph: link resolution, edges, degrees, groups and statistics. */
module GraphBuilder {
  import opened Walks
  import opened Community
  import opened Sets
  import opened Sequences

  // A page as buildGraph sees it: its id and the wikilinks extracted from its text.
  datatype Page = Page(id: Id, links: seq<string>)

  // The string functions of the platform: toLowerCase, path.basename, and stripping ".md"
  // followed by toLowerCase.
  datatype Naming = Naming(lower: string -> string, basename: string -> string, normalize: string -> string) {
    function Stem(id: Id): string { lower(basename(id)) }
  }

  class GraphNode {
    const id: Id
    var group: int
    var value: int

    constructor (id: Id)
      ensures this.id == id && value == 1
    {
      this.id := id;
      group := -1;
      value := 1;
    }
  }

  datatype Stats = Stats(nodeCount: nat, edgeCount: nat, communityCount: nat, orphanCount: nat)

  function EdgeId(from: Id, to: Id): string {
    from + "->" + to + ":EXTRACTED"
  }

  // The last id filed under key, or "" when there is none (an absent entry and an empty id
  // are both falsy in the source).
  function Filed(ids: seq<Id>, f: string -> string, key: string): Id {
    if ids == [] then ""
    else if f(ids[|ids|-1]) == key then ids[|ids|-1]
    else Filed(ids[..|ids|-1], f, key)
  }

  // The page a link points to, or "" when it resolves to none.
  function Target(ids: seq<Id>, naming: Naming, link: string): Id {
    var key := naming.normalize(link);
    var exact := Filed(ids, naming.lower, key);
    if exact != "" then exact else Filed(ids, (id: Id) => naming.Stem(id), naming.basename(key))
  }

  // The edges proposed by one link, by the links of a page, and by all pages, in order.
  function Proposal(from: Id, to: Id): seq<Edge> {
    if to == "" || to == from then [] else [Edge(EdgeId(from, to), from, to)]
  }

  function LinkProposals(ids: seq<Id>, naming: Naming, from: Id, links: seq<string>): seq<Edge> {
    if links == [] then []
    else LinkProposals(ids, naming, from, links[..|links|-1]) + Proposal(from, Target(ids, naming, links[|links|-1]))
  }

  function PageProposals(ids: seq<Id>, naming: Naming, pages: seq<Page>): seq<Edge> {
    if pages == [] then []
    else
      var page := pages[|pages|-1];
      PageProposals(ids, naming, pages[..|pages|-1]) + LinkProposals(ids, naming, page.id, page.links)
  }

  predicate HasKey(edges: seq<Edge>, id: string) {
    exists i :: 0 <= i < |edges| && edges[i].id == id
  }

  // Keeps the first edge under each key.
  function Dedup(edges: seq<Edge>): seq<Edge> {
    if edges == [] then []
    else
      var rest, e := Dedup(edges[..|edges|-1]), edges[|edges|-1];
      if HasKey(rest, e.id) then rest else rest + [e]
  }

  function PageIds(pages: seq<Page>): (ids: seq<Id>)
    ensures |ids| == |pages| && forall i :: 0 <= i < |pages| ==> ids[i] == pages[i].id
  {
    seq(|pages|, i requires 0 <= i < |pages| => pages[i].id)
  }

  // The number of edge ends at id.
  function Degree(edges: seq<Edge>, id: Id): nat {
    if edges == [] then 0
    else
      var e := edges[|edges|-1];
      Degree(edges[..|edges|-1], id) + (if e.from == id then 1 else 0) + (if e.to == id then 1 else 0)
  }

  function DegreeTotal(edges: seq<Edge>, ids: seq<Id>): nat {
    if ids == [] then 0 else DegreeTotal(edges, ids[..|ids|-1]) + Degree(edges, ids[|ids|-1])
  }

  function Orphans(edges: seq<Edge>, ids: seq<Id>): nat {
    if ids == [] then 0
    else Orphans(edges, ids[..|ids|-1]) + (if Degree(edges, ids[|ids|-1]) == 0 then 1 else 0)
  }

  // What every built edge list satisfies.
  ghost predicate Simple(ids: seq<Id>, edges: seq<Edge>) {
    forall i :: 0 <= i < |edges| ==>
      edges[i].from in ids && edges[i].to in ids && edges[i].from != edges[i].to
  }

  // A lookup finds an id filed under the key, and fails only when no non-empty one is last there.
  lemma {:induction false} FiledIsAnId(ids: seq<Id>, f: string -> string, key: string)
    ensures Filed(ids, f, key) == "" || (Filed(ids, f, key) in ids && f(Filed(ids, f, key)) == key)
    ensures "" !in ids && (exists i :: 0 <= i < |ids| && f(ids[i]) == key) ==> Filed(ids, f, key) != ""
  {
    if ids != [] {
      FiledIsAnId(ids[..|ids|-1], f, key);
    }
  }

  lemma {:induction false} LinkProposalsAreSimple(ids: seq<Id>, naming: Naming, from: Id, links: seq<string>)
    requires from in ids
    ensures Simple(ids, LinkProposals(ids, naming, from, links))
  {
    if links != [] {
      LinkProposalsAreSimple(ids, naming, from, links[..|links|-1]);
      var key := naming.normalize(links[|links|-1]);
      FiledIsAnId(ids, naming.lower, key);
      FiledIsAnId(ids, (id: Id) => naming.Stem(id), naming.basename(key));
    }
  }

  lemma {:induction false} ProposalsAreSimple(ids: seq<Id>, naming: Naming, pages: seq<Page>)
    requires forall i :: 0 <= i < |pages| ==> pages[i].id in ids
    ensures Simple(ids, PageProposals(ids, naming, pages))
  {
    if pages != [] {
      ProposalsAreSimple(ids, naming, pages[..|pages|-1]);
      LinkProposalsAreSimple(ids, naming, pages[|pages|-1].id, pages[|pages|-1].links);
    }
  }

  // Deduplication only drops edges, leaves each key once, and loses no key.
  lemma {:induction false} DedupKeys(edges: seq<Edge>)
    ensures forall i :: 0 <= i < |Dedup(edges)| ==> Dedup(edges)[i] in edges
    ensures forall i, j :: 0 <= i < j < |Dedup(edges)| ==> Dedup(edges)[i].id != Dedup(edges)[j].id
    ensures forall i :: 0 <= i < |edges| ==> HasKey(Dedup(edges), edges[i].id)
  {
    if edges != [] {
      var front, e := edges[..|edges|-1], edges[|edges|-1];
      DedupKeys(front);
      assert edges == front + [e];
      var rest := Dedup(front);
      if !HasKey(rest, e.id) {
        assert (rest + [e])[|rest|].id == e.id;
        forall i | 0 <= i < |front|
          ensures HasKey(rest + [e], front[i].id)
        {
          var j :| 0 <= j < |rest| && rest[j].id == front[i].id;
          assert (rest + [e])[j].id == front[i].id;
        }
      }
    }
  }

  lemma BuiltEdgesAreSimple(ids: seq<Id>, naming: Naming, pages: seq<Page>)
    requires ids == PageIds(pages)
    ensures Simple(ids, Dedup(PageProposals(ids, naming, pages)))
  {
    var all := PageProposals(ids, naming, pages);
    forall i | 0 <= i < |pages| ensures pages[i].id in ids { assert ids[i] == pages[i].id; }
    ProposalsAreSimple(ids, naming, pages);
    DedupKeys(all);
  }

  predicate ContainsArrow(s: string) {
    exists i :: 0 <= i < |s| - 1 && s[i] == '-' && s[i+1] == '>'
  }

  // The key tells edges apart when no source id contains the arrow.
  lemma EdgeIdInjective(from: Id, to: Id, from': Id, to': Id)
    requires !ContainsArrow(from) && !ContainsArrow(from')
    requires EdgeId(from, to) == EdgeId(from', to')
    ensures from == from' && to == to'
  {
    if |from| < |from'| {
      var x := KeySplits(from, to, from', to');
    } else if |from'| < |from| {
      var x := KeySplits(from', to', from, to);
    } else {
      SameLengthSameEnds(from, to, from', to');
    }
  }

  lemma SameLengthSameEnds(from: Id, to: Id, from': Id, to': Id)
    requires EdgeId(from, to) == EdgeId(from', to') && |from| == |from'|
    ensures from == from' && to == to'
  {
    var s := EdgeId(from, to);
    assert from == s[..|from|] == from';
    assert to == s[|from|+2..|s|-10] == to';
  }

  // One key read in two ways: the longer source continues the shorter one past an arrow.
  lemma KeySplits(from: Id, to: Id, from': Id, to': Id) returns (x: string)
    requires EdgeId(from, to) == EdgeId(from', to') && |from| < |from'|
    ensures from' == from + "->" + x && to == x + "->" + to' && ContainsArrow(from')
  {
    var s, n := EdgeId(from, to), |from|;
    assert s == from' + "->" + to' + ":EXTRACTED";
    assert s[n] == '-' && s[n+1] == '>';
    assert s[|from'|] == '-';
    assert |from'| >= n + 2;
    x := from'[n+2..];
    assert from == s[..n] == from'[..n];
    assert from'[n] == s[n] && from'[n+1] == s[n+1];
    assert from' == from'[..n] + [from'[n], from'[n+1]] + from'[n+2..];
    assert to == s[n+2..|s|-10];
    assert x == s[n+2..|from'|];
    assert s[|from'|..|s|-10] == "->" + to';
  }

  // `to` is the last of the ids with key under f.
  ghost predicate LastUnder(ids: seq<Id>, f: string -> string, key: string, to: Id) {
    exists i :: 0 <= i < |ids| && ids[i] == to && f(to) == key && forall j :: i < j < |ids| ==> f(ids[j]) != key
  }

  // Where a link leads: to the last page whose id in lower case is the normalized link; when there
  // is none, to the last page whose file name in lower case is that of the normalized link; and
  // otherwise nowhere. An empty id counts as none.
  ghost predicate LeadsTo(ids: seq<Id>, naming: Naming, link: string, to: Id) {
    var key := naming.normalize(link);
    && to != ""
    && (|| LastUnder(ids, naming.lower, key, to)
        || (&& (forall t :: LastUnder(ids, naming.lower, key, t) ==> t == "")
            && LastUnder(ids, (id: Id) => naming.lower(naming.basename(id)), naming.basename(key), to)))
  }

  lemma {:induction false} FiledIsLast(ids: seq<Id>, f: string -> string, key: string)
    ensures Filed(ids, f, key) != "" ==> LastUnder(ids, f, key, Filed(ids, f, key))
    ensures forall t :: LastUnder(ids, f, key, t) ==> t == Filed(ids, f, key)
  {
    if ids != [] {
      var front, last := ids[..|ids|-1], ids[|ids|-1];
      FiledIsLast(front, f, key);
      if f(last) == key {
        assert ids[|ids|-1] == last;
      } else {
        forall t
          ensures LastUnder(ids, f, key, t) <==> LastUnder(front, f, key, t)
        {
          LastUnderSnoc(front, last, f, key, t);
          assert ids == front + [last];
        }
      }
    }
  }

  lemma LastUnderSnoc(front: seq<Id>, last: Id, f: string -> string, key: string, t: Id)
    requires f(last) != key
    ensures LastUnder(front + [last], f, key, t) <==> LastUnder(front, f, key, t)
  {
    var ids := front + [last];
    if i :| 0 <= i < |front| && front[i] == t && f(t) == key && forall j :: i < j < |front| ==> f(front[j]) != key {
      assert ids[i] == t && forall j :: i < j < |ids| ==> f(ids[j]) != key;
    }
    if i :| 0 <= i < |ids| && ids[i] == t && f(t) == key && forall j :: i < j < |ids| ==> f(ids[j]) != key {
      assert front[i] == t && forall j :: i < j < |front| ==> front[j] == ids[j];
    }
  }

  // The lookup in the two maps follows that description.
  lemma TargetLeads(ids: seq<Id>, naming: Naming, link: string, to: Id)
    ensures LeadsTo(ids, naming, link, to) <==> to != "" && to == Target(ids, naming, link)
  {
    var key := naming.normalize(link);
    var stem := (id: Id) => naming.lower(naming.basename(id));
    FiledIsLast(ids, naming.lower, key);
    FiledIsLast(ids, stem, naming.basename(key));
    SameFiled(ids, stem, (id: Id) => naming.Stem(id), naming.basename(key));
  }

  lemma {:induction false} SameFiled(ids: seq<Id>, f: string -> string, g: string -> string, key: string)
    requires forall id :: f(id) == g(id)
    ensures Filed(ids, f, key) == Filed(ids, g, key)
  {
    if ids != [] { SameFiled(ids[..|ids|-1], f, g, key); }
  }

  // Some page with id from has a link that leads to another page, to.
  ghost predicate LinksTo(ids: seq<Id>, naming: Naming, pages: seq<Page>, from: Id, to: Id) {
    exists i, l :: 0 <= i < |pages| && l in pages[i].links && pages[i].id == from
                   && LeadsTo(ids, naming, l, to) && to != from
  }

  lemma {:induction false} LinkProposed(ids: seq<Id>, naming: Naming, from: Id, links: seq<string>, e: Edge)
    ensures e in LinkProposals(ids, naming, from, links) <==>
              e.from == from && e.to != from && e.id == EdgeId(from, e.to)
              && exists l :: l in links && LeadsTo(ids, naming, l, e.to)
  {
    if links != [] {
      var front, link := links[..|links|-1], links[|links|-1];
      assert links == front + [link];
      LinkProposed(ids, naming, from, front, e);
      TargetLeads(ids, naming, link, e.to);
      assert e in Proposal(from, Target(ids, naming, link)) <==>
               e.from == from && e.to != from && e.id == EdgeId(from, e.to) && LeadsTo(ids, naming, link, e.to);
    }
  }

  lemma {:induction false} EdgeProposed(ids: seq<Id>, naming: Naming, pages: seq<Page>, e: Edge)
    ensures e in PageProposals(ids, naming, pages) <==>
              e.id == EdgeId(e.from, e.to) && LinksTo(ids, naming, pages, e.from, e.to)
  {
    if pages != [] {
      var front, page := pages[..|pages|-1], pages[|pages|-1];
      EdgeProposed(ids, naming, front, e);
      LinkProposed(ids, naming, page.id, page.links, e);
      LinksSnoc(ids, naming, front, page, e.from, e.to);
      assert pages == front + [page];
    }
  }

  lemma LinksSnoc(ids: seq<Id>, naming: Naming, front: seq<Page>, page: Page, from: Id, to: Id)
    ensures LinksTo(ids, naming, front + [page], from, to) <==>
              LinksTo(ids, naming, front, from, to)
              || (page.id == from && to != from && exists l :: l in page.links && LeadsTo(ids, naming, l, to))
  {
    var pages := front + [page];
    if LinksTo(ids, naming, front, from, to) {
      var i, l :| 0 <= i < |front| && l in front[i].links && front[i].id == from && LeadsTo(ids, naming, l, to);
      assert pages[i] == front[i];
    }
    if page.id == from && to != from && exists l :: l in page.links && LeadsTo(ids, naming, l, to) {
      var l :| l in page.links && LeadsTo(ids, naming, l, to);
      assert pages[|front|] == page && l in pages[|front|].links;
    }
    if LinksTo(ids, naming, pages, from, to) {
      var i, l :| 0 <= i < |pages| && l in pages[i].links && pages[i].id == from && LeadsTo(ids, naming, l, to);
      if i < |front| { assert front[i] == pages[i]; }
    }
  }

  // A link from u and a link from u->x whose edges have one key.
  ghost predicate Conflict(ids: seq<Id>, naming: Naming, pages: seq<Page>, u: Id, x: string, v: Id) {
    LinksTo(ids, naming, pages, u, x + "->" + v) && LinksTo(ids, naming, pages, u + "->" + x, v)
  }

  // Whatever the page ids, every link keeps its edge if and only if no two links conflict so.
  lemma EveryLinkKeptIff(ids: seq<Id>, naming: Naming, pages: seq<Page>)
    ensures (forall from, to :: LinksTo(ids, naming, pages, from, to) ==>
               Edge(EdgeId(from, to), from, to) in Dedup(PageProposals(ids, naming, pages)))
       <==> !exists u, x, v :: Conflict(ids, naming, pages, u, x, v)
  {
    var edges := Dedup(PageProposals(ids, naming, pages));
    if u, x, v :| Conflict(ids, naming, pages, u, x, v) {
      OneEdgeIsLost(ids, naming, pages, u, x, v);
    } else {
      forall from, to | LinksTo(ids, naming, pages, from, to)
        ensures Edge(EdgeId(from, to), from, to) in edges
      {
        var d := KeptUnder(ids, naming, pages, from, to);
        if |from| < |d.from| {
          var x := KeySplits(from, to, d.from, d.to);
          assert Conflict(ids, naming, pages, from, x, d.to);
        } else if |d.from| < |from| {
          var x := KeySplits(d.from, d.to, from, to);
          assert Conflict(ids, naming, pages, d.from, x, to);
        } else {
          SameLengthSameEnds(from, to, d.from, d.to);
        }
      }
    }
  }

  lemma OneEdgeIsLost(ids: seq<Id>, naming: Naming, pages: seq<Page>, u: Id, x: string, v: Id)
    requires Conflict(ids, naming, pages, u, x, v)
    ensures var edges := Dedup(PageProposals(ids, naming, pages));
            Edge(EdgeId(u, x + "->" + v), u, x + "->" + v) !in edges
            || Edge(EdgeId(u + "->" + x, v), u + "->" + x, v) !in edges
  {
    DedupKeys(PageProposals(ids, naming, pages));
    assert u + "->" + (x + "->" + v) == (u + "->" + x) + "->" + v;
    assert |u| < |u + "->" + x|;
  }

  // The edge kept under the key of a link.
  lemma KeptUnder(ids: seq<Id>, naming: Naming, pages: seq<Page>, from: Id, to: Id) returns (d: Edge)
    requires LinksTo(ids, naming, pages, from, to)
    ensures d in Dedup(PageProposals(ids, naming, pages)) && d.id == EdgeId(from, to) == EdgeId(d.from, d.to)
    ensures LinksTo(ids, naming, pages, d.from, d.to)
  {
    var all, e := PageProposals(ids, naming, pages), Edge(EdgeId(from, to), from, to);
    EdgeProposed(ids, naming, pages, e);
    DedupKeys(all);
    var i :| 0 <= i < |Dedup(all)| && Dedup(all)[i].id == e.id;
    d := Dedup(all)[i];
    EdgeProposed(ids, naming, pages, d);
  }

  // Four pages whose names are in lower case and have no ending; "a" links to "b->c" and "a->b"
  // links to "c". Both edges get one key, and the second is dropped.
  lemma EdgeIdCollides(naming: Naming)
    requires forall s :: s in ["a", "a->b", "b->c", "c"] ==> naming.lower(s) == s && naming.normalize(s) == s
    ensures var pages := [Page("a", ["b->c"]), Page("a->b", ["c"]), Page("b->c", []), Page("c", [])];
            var ids := PageIds(pages);
            && EdgeId("a", "b->c") == EdgeId("a->b", "c")
            && LinksTo(ids, naming, pages, "a->b", "c")
            && Dedup(PageProposals(ids, naming, pages)) == [Edge(EdgeId("a", "b->c"), "a", "b->c")]
  {
    var pages := [Page("a", ["b->c"]), Page("a->b", ["c"]), Page("b->c", []), Page("c", [])];
    assert PageIds(pages) == ["a", "a->b", "b->c", "c"];
    assert |"a"| == 1 && |"a->b"| == 4 && |"b->c"| == 4 && |"c"| == 1;
    assert "a->b"[0] == 'a' && "b->c"[0] == 'b';
    assert "a" + "->" + "b->c" == "a->b->c" == "a->b" + "->" + "c";
    SecondLinkLost(naming, pages, "a", "b->c", "a->b", "c");
  }

  lemma SecondLinkLost(naming: Naming, pages: seq<Page>, u: Id, v: Id, u': Id, v': Id)
    requires pages == [Page(u, [v]), Page(u', [v']), Page(v, []), Page(v', [])]
    requires forall s :: s in [u, u', v, v'] ==> naming.lower(s) == s && naming.normalize(s) == s
    requires u != v && v != v' && u' != v' && v != "" && v' != "" && EdgeId(u, v) == EdgeId(u', v')
    ensures LinksTo(PageIds(pages), naming, pages, u', v')
    ensures Dedup(PageProposals(PageIds(pages), naming, pages)) == [Edge(EdgeId(u, v), u, v)]
  {
    var ids := [u, u', v, v'];
    assert PageIds(pages) == ids;
    Resolves(ids, naming, 2);
    Resolves(ids, naming, 3);
    assert pages[1].links[0] == v';
    TargetLeads(ids, naming, v', v');
    OneLink(ids, naming, pages[0], v);
    OneLink(ids, naming, pages[1], v');
    TwoLinkingPages(ids, naming, pages, Edge(EdgeId(u, v), u, v), Edge(EdgeId(u', v'), u', v'));
    SecondIsDropped(Edge(EdgeId(u, v), u, v), Edge(EdgeId(u', v'), u', v'));
  }

  lemma Resolves(ids: seq<Id>, naming: Naming, i: nat)
    requires i < |ids| && ids[i] != "" && naming.normalize(ids[i]) == ids[i]
    requires forall j :: i <= j < |ids| ==> naming.lower(ids[j]) == ids[j] && (j == i || ids[j] != ids[i])
    ensures Target(ids, naming, ids[i]) == ids[i]
  {
    FiledAt(ids, naming.lower, i);
  }

  lemma {:induction false} FiledAt(ids: seq<Id>, f: string -> string, i: nat)
    requires i < |ids| && forall j :: i < j < |ids| ==> f(ids[j]) != f(ids[i])
    ensures Filed(ids, f, f(ids[i])) == ids[i]
  {
    if i < |ids| - 1 { FiledAt(ids[..|ids|-1], f, i); }
  }

  lemma OneLink(ids: seq<Id>, naming: Naming, page: Page, link: string)
    requires page.links == [link]
    ensures LinkProposals(ids, naming, page.id, page.links) == Proposal(page.id, Target(ids, naming, link))
  {
    assert [link][..0] == [];
  }

  lemma OnePage(ids: seq<Id>, naming: Naming, pages: seq<Page>, e: Edge)
    requires |pages| == 1 && LinkProposals(ids, naming, pages[0].id, pages[0].links) == [e]
    ensures PageProposals(ids, naming, pages) == [e]
  {
    assert pages[..0] == [];
  }

  // The first two pages have a proposal each, and the others no link.
  lemma {:induction false} TwoLinkingPages(ids: seq<Id>, naming: Naming, pages: seq<Page>, e: Edge, e': Edge)
    requires |pages| >= 2 && forall i :: 2 <= i < |pages| ==> pages[i].links == []
    requires LinkProposals(ids, naming, pages[0].id, pages[0].links) == [e]
    requires LinkProposals(ids, naming, pages[1].id, pages[1].links) == [e']
    ensures PageProposals(ids, naming, pages) == [e, e']
  {
    if |pages| == 2 {
      OnePage(ids, naming, pages[..1], e);
    } else {
      TwoLinkingPages(ids, naming, pages[..|pages|-1], e, e');
    }
  }

  lemma SecondIsDropped(e: Edge, e': Edge)
    requires e.id == e'.id
    ensures Dedup([e, e']) == [e]
  {
    assert [e, e'][..1] == [e] && [e][..0] == [];
    assert Dedup([e]) == [e];
  }

  // Link l of page p, and the edge it stands for.
  datatype Place = Place(p: nat, l: nat)

  predicate Before(a: Place, b: Place) { a.p < b.p || (a.p == b.p && a.l < b.l) }

  ghost predicate StandsFor(ids: seq<Id>, naming: Naming, pages: seq<Page>, at: Place, e: Edge) {
    && at.p < |pages| && at.l < |pages[at.p].links|
    && e.from == pages[at.p].id && LeadsTo(ids, naming, pages[at.p].links[at.l], e.to) && e.to != e.from
    && e.id == e.from + "->" + e.to + ":EXTRACTED"
  }

  // places lists all places that stand for an edge, in order, and edges what they stand for.
  ghost predicate Located(ids: seq<Id>, naming: Naming, pages: seq<Page>, edges: seq<Edge>, places: seq<Place>) {
    && |places| == |edges|
    && (forall k :: 0 <= k < |edges| ==> StandsFor(ids, naming, pages, places[k], edges[k]))
    && (forall i, k :: 0 <= i < k < |places| ==> Before(places[i], places[k]))
    && (forall at, e :: StandsFor(ids, naming, pages, at, e) ==> at in places)
  }

  // The edges of a graph: of all links that lead to another page, in order of pages and of the
  // links on them, the first with each key.
  ghost predicate FirstLinks(ids: seq<Id>, naming: Naming, pages: seq<Page>, edges: seq<Edge>, places: seq<Place>) {
    && |places| == |edges|
    && (forall k :: 0 <= k < |edges| ==> StandsFor(ids, naming, pages, places[k], edges[k]))
    && (forall i, k :: 0 <= i < k < |places| ==> Before(places[i], places[k]))
    && (forall at, e :: StandsFor(ids, naming, pages, at, e) ==> Taken(edges, places, at, e.id))
  }

  // An edge with the key stands at that place or before.
  ghost predicate Taken(edges: seq<Edge>, places: seq<Place>, at: Place, key: string)
    requires |places| == |edges|
  {
    exists k :: 0 <= k < |edges| && edges[k].id == key && (at == places[k] || Before(places[k], at))
  }

  lemma ProposalsLocated(ids: seq<Id>, naming: Naming, pages: seq<Page>) returns (places: seq<Place>)
    ensures Located(ids, naming, pages, PageProposals(ids, naming, pages), places)
  {
    places := [];
    if pages != [] {
      var front, page := pages[..|pages|-1], pages[|pages|-1];
      places := ProposalsLocated(ids, naming, front);
      assert pages == front + [page];
      assert PageProposals(ids, naming, pages)
          == PageProposals(ids, naming, front) + LinkProposals(ids, naming, page.id, page.links);
      LocatedInMore(ids, naming, front, page, PageProposals(ids, naming, front), places);
      places := LinksLocated(ids, naming, front, page, PageProposals(ids, naming, front), places, |page.links|);
      assert page.links[..|page.links|] == page.links;
    }
  }

  // Located as far as the pages in front and the first n links of the page after them.
  ghost predicate LocatedTo(ids: seq<Id>, naming: Naming, pages: seq<Page>, edges: seq<Edge>, places: seq<Place>,
                            to: Place) {
    && |places| == |edges|
    && (forall k :: 0 <= k < |edges| ==> StandsFor(ids, naming, pages, places[k], edges[k]))
    && (forall i, k :: 0 <= i < k < |places| ==> Before(places[i], places[k]))
    && (forall k :: 0 <= k < |places| ==> Before(places[k], to))
    && (forall at, e :: StandsFor(ids, naming, pages, at, e) && Before(at, to) ==> at in places)
  }

  lemma LocatedInMore(ids: seq<Id>, naming: Naming, front: seq<Page>, page: Page, edges: seq<Edge>, places: seq<Place>)
    requires Located(ids, naming, front, edges, places)
    ensures LocatedTo(ids, naming, front + [page], edges, places, Place(|front|, 0))
  {
    var pages := front + [page];
    forall at: Place, e: Edge | at.p < |front|
      ensures StandsFor(ids, naming, pages, at, e) <==> StandsFor(ids, naming, front, at, e)
    {
      assert pages[at.p] == front[at.p];
    }
  }

  lemma {:induction false} LinksLocated(ids: seq<Id>, naming: Naming, front: seq<Page>, page: Page, edges: seq<Edge>,
                                        places0: seq<Place>, n: nat) returns (places: seq<Place>)
    requires n <= |page.links| && LocatedTo(ids, naming, front + [page], edges, places0, Place(|front|, 0))
    ensures LocatedTo(ids, naming, front + [page], edges + LinkProposals(ids, naming, page.id, page.links[..n]), places,
                      Place(|front|, n))
    ensures n == |page.links| ==>
              Located(ids, naming, front + [page], edges + LinkProposals(ids, naming, page.id, page.links[..n]), places)
  {
    places := places0;
    if n == 0 {
      assert edges + LinkProposals(ids, naming, page.id, page.links[..0]) == edges;
    } else {
      places := LinksLocated(ids, naming, front, page, edges, places0, n - 1);
      var before := LinkProposals(ids, naming, page.id, page.links[..n-1]);
      var to := Target(ids, naming, page.links[n-1]);
      assert page.links[..n][..n-1] == page.links[..n-1];
      assert edges + (before + Proposal(page.id, to)) == (edges + before) + Proposal(page.id, to);
      places := OneLocated(ids, naming, front, page, edges + before, places, n - 1);
    }
  }

  lemma OneLocated(ids: seq<Id>, naming: Naming, front: seq<Page>, page: Page, edges: seq<Edge>,
                   places0: seq<Place>, n: nat)
    returns (places: seq<Place>)
    requires n < |page.links| && LocatedTo(ids, naming, front + [page], edges, places0, Place(|front|, n))
    ensures LocatedTo(ids, naming, front + [page], edges + Proposal(page.id, Target(ids, naming, page.links[n])),
                      places, Place(|front|, n + 1))
  {
    var pages, here, to := front + [page], Place(|front|, n), Target(ids, naming, page.links[n]);
    assert pages[|front|] == page;
    forall e
      ensures StandsFor(ids, naming, pages, here, e) <==> e in Proposal(page.id, to)
    {
      TargetLeads(ids, naming, page.links[n], e.to);
    }
    places := places0 + if Proposal(page.id, to) == [] then [] else [here];
    forall at: Place
      ensures Before(at, Place(|front|, n + 1)) <==> Before(at, here) || at == here
    {
    }
  }

  // edges are those at the positions kept, in order, and each edge has its key at or before it.
  ghost predicate KeepsFirst(all: seq<Edge>, edges: seq<Edge>, kept: seq<nat>) {
    IsPicked(all, edges, kept) && KeepsKeys(all, edges, kept)
  }

  ghost predicate IsPicked(all: seq<Edge>, edges: seq<Edge>, kept: seq<nat>) {
    && |kept| == |edges|
    && (forall k :: 0 <= k < |kept| ==> kept[k] < |all| && edges[k] == all[kept[k]])
    && (forall i, k :: 0 <= i < k < |kept| ==> kept[i] < kept[k])
  }

  ghost predicate KeepsKeys(all: seq<Edge>, edges: seq<Edge>, kept: seq<nat>)
    requires |kept| == |edges|
  {
    forall m :: 0 <= m < |all| ==> KeyIsKept(edges, kept, m, all[m].id)
  }

  ghost predicate KeyIsKept(edges: seq<Edge>, kept: seq<nat>, m: nat, key: string)
    requires |kept| == |edges|
  {
    exists k :: 0 <= k < |kept| && kept[k] <= m && edges[k].id == key
  }

  // Deduplication keeps the first edge under each key.
  lemma {:induction false} DedupKeepsFirst(all: seq<Edge>) returns (kept: seq<nat>)
    ensures KeepsFirst(all, Dedup(all), kept)
  {
    kept := [];
    if all != [] {
      assert all == all[..|all|-1] + [all[|all|-1]];
      kept := DedupKeepsFirst(all[..|all|-1]);
      kept := KeepsOneMore(all[..|all|-1], all[|all|-1], kept);
    }
  }

  lemma KeepsOneMore(front: seq<Edge>, e: Edge, before: seq<nat>) returns (kept: seq<nat>)
    requires KeepsFirst(front, Dedup(front), before)
    ensures KeepsFirst(front + [e], Dedup(front + [e]), kept)
  {
    DedupSnoc(front, e);
    if HasKey(Dedup(front), e.id) {
      SecondOfKey(front, e, Dedup(front), before);
      kept := before;
    } else {
      FirstOfKey(front, e, Dedup(front), before);
      kept := before + [|front|];
    }
  }

  lemma SecondOfKey(front: seq<Edge>, e: Edge, edges: seq<Edge>, kept: seq<nat>)
    requires KeepsFirst(front, edges, kept) && HasKey(edges, e.id)
    ensures KeepsFirst(front + [e], edges, kept)
  {
    assert IsPicked(front + [e], edges, kept);
    KeyKeptBy(edges, kept, |front|, e.id);
    KeysSnoc(front, e, edges, kept);
  }

  lemma FirstOfKey(front: seq<Edge>, e: Edge, edges: seq<Edge>, kept: seq<nat>)
    requires KeepsFirst(front, edges, kept)
    ensures KeepsFirst(front + [e], edges + [e], kept + [|front|])
  {
    var edges', kept' := edges + [e], kept + [|front|];
    assert IsPicked(front + [e], edges', kept');
    forall m | 0 <= m < |front|
      ensures KeyIsKept(edges', kept', m, front[m].id)
    {
      KeptInMore(edges, kept, e, |front|, m, front[m].id);
    }
    assert kept'[|kept|] == |front| && edges'[|kept|] == e;
    KeysSnoc(front, e, edges', kept');
  }

  lemma KeysSnoc(front: seq<Edge>, e: Edge, edges: seq<Edge>, kept: seq<nat>)
    requires |kept| == |edges| && KeepsKeys(front, edges, kept) && KeyIsKept(edges, kept, |front|, e.id)
    ensures KeepsKeys(front + [e], edges, kept)
  {
    forall m | 0 <= m < |front + [e]|
      ensures KeyIsKept(edges, kept, m, (front + [e])[m].id)
    {
      if m < |front| { assert KeyIsKept(edges, kept, m, front[m].id); }
    }
  }

  lemma KeyKeptBy(edges: seq<Edge>, kept: seq<nat>, m: nat, key: string)
    requires |kept| == |edges| && HasKey(edges, key) && forall k :: 0 <= k < |kept| ==> kept[k] < m
    ensures KeyIsKept(edges, kept, m, key)
  {
  }

  lemma KeptInMore(edges: seq<Edge>, kept: seq<nat>, e: Edge, last: nat, m: nat, key: string)
    requires |kept| == |edges| && KeyIsKept(edges, kept, m, key)
    ensures KeyIsKept(edges + [e], kept + [last], m, key)
  {
    var k :| 0 <= k < |kept| && kept[k] <= m && edges[k].id == key;
    assert (kept + [last])[k] == kept[k] && (edges + [e])[k] == edges[k];
  }

  lemma EdgesAreFirstLinks(ids: seq<Id>, naming: Naming, pages: seq<Page>) returns (places: seq<Place>)
    ensures FirstLinks(ids, naming, pages, Dedup(PageProposals(ids, naming, pages)), places)
  {
    var all := PageProposals(ids, naming, pages);
    var located := ProposalsLocated(ids, naming, pages);
    var kept := DedupKeepsFirst(all);
    places := seq(|kept|, k requires 0 <= k < |kept| => located[kept[k]]);
    FirstOfLocated(ids, naming, pages, all, located, Dedup(all), kept, places);
  }

  lemma FirstOfLocated(ids: seq<Id>, naming: Naming, pages: seq<Page>, all: seq<Edge>, located: seq<Place>,
                       edges: seq<Edge>, kept: seq<nat>, places: seq<Place>)
    requires Located(ids, naming, pages, all, located) && KeepsFirst(all, edges, kept)
    requires |places| == |kept| && forall k :: 0 <= k < |kept| ==> places[k] == located[kept[k]]
    ensures FirstLinks(ids, naming, pages, edges, places)
  {
    forall at, e | StandsFor(ids, naming, pages, at, e)
      ensures Taken(edges, places, at, e.id)
    {
      var m :| 0 <= m < |located| && located[m] == at;
      StandsForOne(ids, naming, pages, at, e, all[m]);
      TakenAt(all, located, edges, kept, places, m);
    }
  }

  lemma TakenAt(all: seq<Edge>, located: seq<Place>, edges: seq<Edge>, kept: seq<nat>, places: seq<Place>, m: nat)
    requires KeepsFirst(all, edges, kept) && |located| == |all| && m < |all|
    requires forall i, k :: 0 <= i < k < |located| ==> Before(located[i], located[k])
    requires |places| == |kept| && forall k :: 0 <= k < |kept| ==> places[k] == located[kept[k]]
    ensures Taken(edges, places, located[m], all[m].id)
  {
    assert KeyIsKept(edges, kept, m, all[m].id);
    var k :| 0 <= k < |kept| && kept[k] <= m && edges[k].id == all[m].id;
    assert kept[k] < m ==> Before(located[kept[k]], located[m]);
  }

  // A link leads to one page only.
  lemma StandsForOne(ids: seq<Id>, naming: Naming, pages: seq<Page>, at: Place, e: Edge, e': Edge)
    requires StandsFor(ids, naming, pages, at, e) && StandsFor(ids, naming, pages, at, e')
    ensures e == e'
  {
    TargetLeads(ids, naming, pages[at.p].links[at.l], e.to);
    TargetLeads(ids, naming, pages[at.p].links[at.l], e'.to);
  }

  // When no page id contains the arrow, there is exactly one edge for each pair of pages that a
  // link joins, and no other.
  lemma EdgesAreLinks(ids: seq<Id>, naming: Naming, pages: seq<Page>, from: Id, to: Id)
    requires ids == PageIds(pages)
    requires forall i :: 0 <= i < |ids| ==> !ContainsArrow(ids[i])
    ensures LinksTo(ids, naming, pages, from, to)
       <==> Edge(EdgeId(from, to), from, to) in Dedup(PageProposals(ids, naming, pages))
    ensures forall i, j :: 0 <= i < j < |Dedup(PageProposals(ids, naming, pages))| ==>
              Dedup(PageProposals(ids, naming, pages))[i].id != Dedup(PageProposals(ids, naming, pages))[j].id
  {
    DedupKeys(PageProposals(ids, naming, pages));
    EdgeProposed(ids, naming, pages, Edge(EdgeId(from, to), from, to));
    EveryLinkKeptIff(ids, naming, pages);
    forall u, x, v
      ensures !Conflict(ids, naming, pages, u, x, v)
    {
      var source := u + "->" + x;
      assert source[|u|] == '-' && source[|u|+1] == '>' && ContainsArrow(source);
      assert forall i :: 0 <= i < |pages| ==> pages[i].id == ids[i];
    }
  }

  // The degree counts the edges from id and the edges to it.
  lemma {:induction false} DegreeCounts(edges: seq<Edge>, id: Id)
    ensures Degree(edges, id)
         == |Filter((e: Edge) => e.from == id, edges)| + |Filter((e: Edge) => e.to == id, edges)|
  {
    if edges != [] { DegreeCounts(edges[..|edges|-1], id); }
  }

  // Handshake law: over distinct node ids, the degrees add up to twice the number of edges.
  lemma {:induction false} DegreesSumToTwiceEdges(ids: seq<Id>, edges: seq<Edge>)
    requires Distinct(ids) && Simple(ids, edges)
    ensures DegreeTotal(edges, ids) == 2 * |edges|
  {
    if edges == [] {
      NoEdges(ids);
    } else {
      var front, e := edges[..|edges|-1], edges[|edges|-1];
      DegreesSumToTwiceEdges(ids, front);
      OneMoreEdge(ids, edges);
      OccursOnce(ids, e.from);
      OccursOnce(ids, e.to);
    }
  }

  lemma {:induction false} NoEdges(ids: seq<Id>)
    ensures DegreeTotal([], ids) == 0
  {
    if ids != [] { NoEdges(ids[..|ids|-1]); }
  }

  function Occurrences(ids: seq<Id>, id: Id): nat {
    if ids == [] then 0 else Occurrences(ids[..|ids|-1], id) + (if ids[|ids|-1] == id then 1 else 0)
  }

  lemma {:induction false} OccursOnce(ids: seq<Id>, id: Id)
    requires Distinct(ids)
    ensures Occurrences(ids, id) == if id in ids then 1 else 0
  {
    if ids != [] {
      OccursOnce(ids[..|ids|-1], id);
      assert ids == ids[..|ids|-1] + [ids[|ids|-1]];
    }
  }

  lemma {:induction false} OneMoreEdge(ids: seq<Id>, edges: seq<Edge>)
    requires edges != []
    ensures DegreeTotal(edges, ids) == DegreeTotal(edges[..|edges|-1], ids)
              + Occurrences(ids, edges[|edges|-1].from) + Occurrences(ids, edges[|edges|-1].to)
  {
    if ids != [] { OneMoreEdge(ids[..|ids|-1], edges); }
  }

  lemma {:induction false} DegreeZero(edges: seq<Edge>, id: Id)
    ensures Degree(edges, id) == 0 <==> forall i :: 0 <= i < |edges| ==> edges[i].from != id && edges[i].to != id
  {
    if edges != [] {
      DegreeZero(edges[..|edges|-1], id);
      assert forall i :: 0 <= i < |edges| ==> i == |edges| - 1 || edges[i] == edges[..|edges|-1][i];
    }
  }

  // id is the only member of its group.
  ghost predicate Alone(m: map<Id, nat>, id: Id)
    requires id in m
  {
    forall id' | id' in m :: m[id'] == m[id] ==> id' == id
  }

  ghost function SingletonGroups(m: map<Id, nat>): set<nat> {
    set id | id in m && Alone(m, id) :: m[id]
  }

  // In a graph without self-links, a node has no edge exactly when it is a community of its own.
  lemma OrphanIffAlone(ids: seq<Id>, edges: seq<Edge>, m: map<Id, nat>, k: nat, id: Id)
    requires IsLabelling(ids, edges, m, k) && Simple(ids, edges)
    requires id in ids
    ensures id in m
    ensures Degree(edges, id) == 0 <==> Alone(m, id)
  {
    NodesAreLabelled(ids, |ids|, edges, m, k);
    DegreeZero(edges, id);
    if Degree(edges, id) == 0 {
      forall id' | id' in m && m[id'] == m[id]
        ensures id' == id
      {
        assert Connected(edges, id, id');
        ClosedSeparates(edges, {id}, id, id');
      }
    } else {
      var i :| 0 <= i < |edges| && (edges[i].from == id || edges[i].to == id);
      var other := if edges[i].from == id then edges[i].to else edges[i].from;
      ConnectedRefl(edges, id);
      ConnectedStep(edges, id, id, i, other);
    }
  }

  // orphan_count is the number of one-member communities.
  lemma OrphansAreSingletons(ids: seq<Id>, edges: seq<Edge>, m: map<Id, nat>, k: nat)
    requires IsLabelling(ids, edges, m, k) && Simple(ids, edges) && Distinct(ids)
    ensures Orphans(edges, ids) == |SingletonGroups(m)|
  {
    LabelledAreNodes(ids, edges, m, k);
    var orphans := set id | id in m && Alone(m, id);
    forall id
      ensures id in orphans <==> id in ids && Degree(edges, id) == 0
    {
      if id in ids { OrphanIffAlone(ids, edges, m, k, id); }
    }
    OrphanSet(ids, edges, orphans);
    assert SingletonGroups(m) == set id | id in orphans :: m[id];
    ImageSize(orphans, m);
  }

  // Edges lead nowhere but to nodes, so every labelled id is a node.
  lemma LabelledAreNodes(ids: seq<Id>, edges: seq<Edge>, m: map<Id, nat>, k: nat)
    requires IsLabelling(ids, edges, m, k) && Simple(ids, edges)
    ensures forall id :: id in m <==> id in ids
  {
    NodesAreLabelled(ids, |ids|, edges, m, k);
    var nodes := set i | 0 <= i < |ids| :: ids[i];
    forall id | id in m
      ensures id in ids
    {
      assert Reached(ids, |ids|, edges, id);
      var i :| 0 <= i < |ids| && Connected(edges, ids[i], id);
      assert ids[i] in nodes;
      ClosedSeparates(edges, nodes, ids[i], id);
    }
  }

  lemma {:induction false} OrphanSet(ids: seq<Id>, edges: seq<Edge>, orphans: set<Id>)
    requires Distinct(ids)
    requires forall id :: id in orphans <==> id in ids && Degree(edges, id) == 0
    ensures Orphans(edges, ids) == |orphans|
  {
    if ids == [] {
      assert orphans == {};
    } else {
      var last := ids[|ids|-1];
      assert ids == ids[..|ids|-1] + [last];
      OrphanSet(ids[..|ids|-1], edges, orphans - {last});
    }
  }

  lemma {:induction false} ImageSize(s: set<Id>, m: map<Id, nat>)
    requires forall id | id in s :: id in m && Alone(m, id)
    ensures |set id | id in s :: m[id]| == |s|
  {
    if s != {} {
      var x :| x in s;
      var rest := s - {x};
      ImageSize(rest, m);
      assert (set id | id in s :: m[id]) == (set id | id in rest :: m[id]) + {m[x]};
    }
  }

  // The groups in use are the numbers below k, so counting distinct values counts communities.
  lemma CountValues(ids: seq<Id>, edges: seq<Edge>, m: map<Id, nat>, k: nat)
    requires IsLabelling(ids, edges, m, k)
    ensures |m.Values| == k
  {
    forall g: nat
      ensures g in m.Values <==> g < k
    {
      if g < k {
        assert Appears(ids, |ids|, m, g);
      }
    }
    RangeSize(m.Values, 0, k);
  }

  method Index(ids: seq<Id>, f: string -> string) returns (m: map<string, Id>)
    ensures forall key :: Filed(ids, f, key) == if key in m then m[key] else ""
  {
    m := map[];
    for n := 0 to |ids|
      invariant forall key :: Filed(ids[..n], f, key) == if key in m then m[key] else ""
    {
      assert ids[..n+1][..n] == ids[..n];
      m := m[f(ids[n]) := ids[n]];
    }
    assert ids[..|ids|] == ids;
  }

  method CollectLinks(ids: seq<Id>, naming: Naming, byId: map<string, Id>, byStem: map<string, Id>,
                      from: Id, links: seq<string>, edges0: seq<Edge>, seen0: set<string>, ghost all: seq<Edge>)
    returns (edges: seq<Edge>, seen: set<string>)
    requires forall key :: Filed(ids, naming.lower, key) == if key in byId then byId[key] else ""
    requires forall key :: Filed(ids, (id: Id) => naming.Stem(id), key) == if key in byStem then byStem[key] else ""
    requires edges0 == Dedup(all)
    requires forall key :: key in seen0 <==> HasKey(edges0, key)
    ensures edges == Dedup(all + LinkProposals(ids, naming, from, links))
    ensures forall key :: key in seen <==> HasKey(edges, key)
  {
    edges, seen := edges0, seen0;
    assert all + [] == all;
    for l := 0 to |links|
      invariant edges == Dedup(all + LinkProposals(ids, naming, from, links[..l]))
      invariant forall key :: key in seen <==> HasKey(edges, key)
    {
      var to := Lookup(ids, naming, byId, byStem, links[l]);
      NextProposal(ids, naming, from, links, l, all, edges);
      edges, seen := AddEdge(from, to, edges, seen);
    }
    assert links[..|links|] == links;
  }

  lemma AddKey(edges: seq<Edge>, e: Edge)
    ensures forall key :: HasKey(edges + [e], key) <==> HasKey(edges, key) || key == e.id
  {
    assert (edges + [e])[|edges|] == e;
    forall key | HasKey(edges, key)
      ensures HasKey(edges + [e], key)
    {
      var i :| 0 <= i < |edges| && edges[i].id == key;
      assert (edges + [e])[i].id == key;
    }
  }

  method AddEdge(from: Id, to: Id, edges0: seq<Edge>, seen0: set<string>) returns (edges: seq<Edge>, seen: set<string>)
    requires forall key :: key in seen0 <==> HasKey(edges0, key)
    ensures forall key :: key in seen <==> HasKey(edges, key)
    ensures var e := Edge(EdgeId(from, to), from, to);
            edges == if to == "" || to == from || HasKey(edges0, e.id) then edges0 else edges0 + [e]
  {
    edges, seen := edges0, seen0;
    if to == "" || to == from { return; }
    var e := Edge(EdgeId(from, to), from, to);
    if e.id in seen { return; }
    AddKey(edges, e);
    seen := seen + {e.id};
    edges := edges + [e];
  }

  lemma NextProposal(ids: seq<Id>, naming: Naming, from: Id, links: seq<string>, l: nat, all: seq<Edge>,
                     edges: seq<Edge>)
    requires l < |links| && edges == Dedup(all + LinkProposals(ids, naming, from, links[..l]))
    ensures var to := Target(ids, naming, links[l]);
            var e := Edge(EdgeId(from, to), from, to);
            Dedup(all + LinkProposals(ids, naming, from, links[..l+1]))
              == if to == "" || to == from || HasKey(edges, e.id) then edges else edges + [e]
  {
    var to := Target(ids, naming, links[l]);
    var before := LinkProposals(ids, naming, from, links[..l]);
    assert links[..l+1][..l] == links[..l];
    assert LinkProposals(ids, naming, from, links[..l+1]) == before + Proposal(from, to);
    DedupProposal(all, before, from, to);
  }

  lemma DedupProposal(all: seq<Edge>, before: seq<Edge>, from: Id, to: Id)
    ensures var e := Edge(EdgeId(from, to), from, to);
            var edges := Dedup(all + before);
            Dedup(all + (before + Proposal(from, to)))
              == if to == "" || to == from || HasKey(edges, e.id) then edges else edges + [e]
  {
    var e := Edge(EdgeId(from, to), from, to);
    if to == "" || to == from {
      assert before + Proposal(from, to) == before;
    } else {
      assert all + (before + [e]) == (all + before) + [e];
      DedupSnoc(all + before, e);
    }
  }

  lemma DedupSnoc(s: seq<Edge>, e: Edge)
    ensures Dedup(s + [e]) == if HasKey(Dedup(s), e.id) then Dedup(s) else Dedup(s) + [e]
  {
    assert (s + [e])[..|s|] == s;
  }

  method Lookup(ids: seq<Id>, naming: Naming, byId: map<string, Id>, byStem: map<string, Id>, link: string)
    returns (to: Id)
    requires forall key :: Filed(ids, naming.lower, key) == if key in byId then byId[key] else ""
    requires forall key :: Filed(ids, (id: Id) => naming.Stem(id), key) == if key in byStem then byStem[key] else ""
    ensures to == Target(ids, naming, link)
  {
    var normalized := naming.normalize(link);
    to := if normalized in byId then byId[normalized] else "";
    if to == "" {
      var base := naming.basename(normalized);
      to := if base in byStem then byStem[base] else "";
    }
  }

  method CollectEdges(pages: seq<Page>, ids: seq<Id>, naming: Naming) returns (edges: seq<Edge>)
    ensures edges == Dedup(PageProposals(ids, naming, pages))
  {
    var byStem := Index(ids, (id: Id) => naming.Stem(id));
    var byId := Index(ids, naming.lower);
    edges := [];
    var seen: set<string> := {};
    for p := 0 to |pages|
      invariant edges == Dedup(PageProposals(ids, naming, pages[..p]))
      invariant forall key :: key in seen <==> HasKey(edges, key)
    {
      assert pages[..p+1][..p] == pages[..p];
      edges, seen := CollectLinks(ids, naming, byId, byStem, pages[p].id, pages[p].links, edges, seen,
                                  PageProposals(ids, naming, pages[..p]));
    }
    assert pages[..|pages|] == pages;
  }

  method CountDegrees(edges: seq<Edge>) returns (degree: map<Id, nat>)
    ensures forall id :: Degree(edges, id) == if id in degree then degree[id] else 0
  {
    degree := map[];
    for n := 0 to |edges|
      invariant forall id :: Degree(edges[..n], id) == if id in degree then degree[id] else 0
    {
      assert edges[..n+1][..n] == edges[..n];
      var e := edges[n];
      degree := degree[e.from := (if e.from in degree then degree[e.from] else 0) + 1];
      degree := degree[e.to := (if e.to in degree then degree[e.to] else 0) + 1];
    }
    assert edges[..|edges|] == edges;
  }

  lemma {:induction false} DistinctCount(ids: seq<Id>, s: set<Id>)
    requires Distinct(ids) && forall id :: id in s <==> id in ids
    ensures |s| == |ids|
  {
    if ids == [] {
      assert s == {};
    } else {
      var last := ids[|ids|-1];
      assert ids == ids[..|ids|-1] + [last];
      DistinctCount(ids[..|ids|-1], s - {last});
    }
  }

  // The counting laws of a built graph.
  lemma CountingLaws(ids: seq<Id>, edges: seq<Edge>, m: map<Id, nat>, k: nat)
    requires Distinct(ids) && Simple(ids, edges)
    requires IsLabelling(ids, edges, m, k) && |m| <= k + |edges|
    ensures DegreeTotal(edges, ids) == 2 * |edges|
    ensures Orphans(edges, ids) == |SingletonGroups(m)|
    ensures k >= |ids| - |edges|
  {
    DegreesSumToTwiceEdges(ids, edges);
    OrphansAreSingletons(ids, edges, m, k);
    LabelledAreNodes(ids, edges, m, k);
    DistinctCount(ids, m.Keys);
    assert |m.Keys| == |m|;
  }

  method CreateNodes(pages: seq<Page>) returns (nodes: seq<GraphNode>)
    ensures |nodes| == |pages| && forall i :: 0 <= i < |nodes| ==> nodes[i].id == pages[i].id && fresh(nodes[i])
    ensures forall i, j :: 0 <= i < j < |nodes| ==> nodes[i] != nodes[j]
  {
    nodes := [];
    for n := 0 to |pages|
      invariant |nodes| == n && forall i :: 0 <= i < n ==> nodes[i].id == pages[i].id && fresh(nodes[i])
      invariant forall i, j :: 0 <= i < j < n ==> nodes[i] != nodes[j]
    {
      var node := new GraphNode(pages[n].id);
      nodes := nodes + [node];
    }
  }

  // Writes group and value into every node, and counts the nodes without an edge.
  method Annotate(nodes: seq<GraphNode>, edges: seq<Edge>, communities: map<Id, nat>, degree: map<Id, nat>,
                  ghost ids: seq<Id>)
    returns (orphanCount: nat)
    requires |ids| == |nodes| && forall i :: 0 <= i < |nodes| ==> nodes[i].id == ids[i] && ids[i] in communities
    requires forall i, j :: 0 <= i < j < |nodes| ==> nodes[i] != nodes[j]
    requires forall id :: Degree(edges, id) == if id in degree then degree[id] else 0
    modifies nodes
    ensures forall i :: 0 <= i < |nodes| ==> nodes[i].group == communities[ids[i]]
    ensures forall i :: 0 <= i < |nodes| ==> nodes[i].value == Degree(edges, ids[i]) + 1
    ensures orphanCount == Orphans(edges, ids)
  {
    for n := 0 to |nodes|
      invariant forall i :: 0 <= i < n ==> nodes[i].group == communities[ids[i]]
      invariant forall i :: 0 <= i < n ==> nodes[i].value == Degree(edges, ids[i]) + 1
    {
      var node := nodes[n];
      node.group := if node.id in communities then communities[node.id] else -1;
      node.value := (if node.id in degree then degree[node.id] else 0) + 1;
    }
    orphanCount := 0;
    for n := 0 to |nodes|
      invariant orphanCount == Orphans(edges, ids[..n])
    {
      assert ids[..n+1][..n] == ids[..n];
      if (if nodes[n].id in degree then degree[nodes[n].id] else 0) == 0 {
        orphanCount := orphanCount + 1;
      }
    }
    assert ids[..|ids|] == ids;
  }

  // What buildGraph returns, timestamps and display fields aside.
  method BuildGraph(pages: seq<Page>, naming: Naming)
    returns (nodes: seq<GraphNode>, edges: seq<Edge>, communities: map<Id, nat>, stats: Stats, ghost places: seq<Place>)
    ensures |nodes| == |pages| && forall i :: 0 <= i < |nodes| ==> nodes[i].id == pages[i].id
    ensures edges == Dedup(PageProposals(PageIds(pages), naming, pages))
    ensures FirstLinks(PageIds(pages), naming, pages, edges, places)
    ensures IsLabelling(PageIds(pages), edges, communities, stats.communityCount)
    ensures forall i :: 0 <= i < |nodes| ==> nodes[i].id in communities && nodes[i].group == communities[nodes[i].id]
    ensures forall i :: 0 <= i < |nodes| ==> nodes[i].value == Degree(edges, nodes[i].id) + 1
    ensures stats.nodeCount == |nodes| && stats.edgeCount == |edges|
    ensures stats.orphanCount == Orphans(edges, PageIds(pages))
    // The counting laws, for page ids read from distinct files.
    ensures Distinct(PageIds(pages)) ==>
              && DegreeTotal(edges, PageIds(pages)) == 2 * stats.edgeCount
              && stats.orphanCount == |SingletonGroups(communities)|
              && stats.communityCount >= stats.nodeCount - stats.edgeCount
  {
    var ids := PageIds(pages);
    nodes := CreateNodes(pages);
    edges := CollectEdges(pages, ids, naming);
    places := EdgesAreFirstLinks(ids, naming, pages);
    var groups: nat;
    communities, groups := NativeCommunities(ids, edges);
    NodesAreLabelled(ids, |ids|, edges, communities, groups);
    var degree := CountDegrees(edges);
    var orphanCount := Annotate(nodes, edges, communities, degree, ids);
    var communitySet := communities.Values;
    CountValues(ids, edges, communities, groups);
    stats := Stats(|nodes|, |edges|, |communitySet|, orphanCount);
    BuiltEdgesAreSimple(ids, naming, pages);
    if Distinct(ids) {
      CountingLaws(ids, edges, communities, groups);
    }
  }
}
