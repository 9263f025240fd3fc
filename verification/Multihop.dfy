/** Neighbourhood questions over derived edges (`partners` and `multihop` in
    benchmarks/agent-tasks/association/truth.py): one pass over the edges, against the
    counting definition the questions are asked in. */
module Multihop {
  import opened EdgeIds
  import opened Derivation

  type Filter = Node -> bool

  /** What `multihop` is asked: edge types, the label of the answers, the two filters. */
  datatype Query = Query(dstLabel: string, want: set<string>, srcFilter: Filter, dstFilter: Filter)

  /** `a` and `b` are joined by an edge of type `t`, either way round. */
  predicate Joined(edges: seq<Edge>, a: string, b: string, t: string) {
    Edge(t, a, b) in edges || Edge(t, b, a) in edges
  }

  predicate Hop(nodes: World, edges: seq<Edge>, q: Query, a: string, b: string, t: string) {
    && t in q.want && Joined(edges, a, b, t)
    && a in nodes && nodes[a].lab == q.dstLabel
    && b in nodes && q.srcFilter(nodes[b])
  }

  /** The distinct sources that reach `a` by all of the wanted types. */
  ghost function Sources(nodes: World, edges: seq<Edge>, q: Query, a: string): (s: set<string>)
    ensures forall b :: b in s <==> b in nodes && forall t <- q.want :: Hop(nodes, edges, q, a, b, t)
  {
    set b | b in nodes && forall t <- q.want :: Hop(nodes, edges, q, a, b, t)
  }

  ghost predicate Reached(nodes: World, edges: seq<Edge>, q: Query, a: string) {
    exists b, t :: Hop(nodes, edges, q, a, b, t)
  }

  ghost predicate Answers(nodes: World, edges: seq<Edge>, q: Query, min: int, a: string) {
    && a in nodes && nodes[a].lab == q.dstLabel && q.dstFilter(nodes[a])
    && |Sources(nodes, edges, q, a)| >= min
  }

  // ---- the one-pass form ---------------------------------------------------

  type Table = map<string, map<string, set<string>>>

  predicate Has(table: Table, a: string, b: string, t: string) {
    a in table && b in table[a] && t in table[a][b]
  }

  /** No empty rows and no empty cells. */
  ghost predicate Dense(table: Table) {
    forall a <- table :: (exists b, t :: Has(table, a, b, t)) && forall b <- table[a] :: exists t :: Has(table, a, b, t)
  }

  function AddHop(table: Table, a: string, b: string, t: string): (r: Table)
    ensures forall x, y, u :: Has(r, x, y, u) <==> Has(table, x, y, u) || (x == a && y == b && u == t)
    ensures r.Keys == table.Keys + {a}
    ensures forall x <- table :: x != a ==> r[x] == table[x]
    ensures r[a].Keys == (if a in table then table[a].Keys else {}) + {b}
  {
    var row := if a in table then table[a] else map[];
    var cell := if b in row then row[b] else {};
    table[a := row[b := cell + {t}]]
  }

  lemma AddHopKeepsDense(table: Table, a: string, b: string, t: string)
    requires Dense(table)
    ensures Dense(AddHop(table, a, b, t))
  {
    var r := AddHop(table, a, b, t);
    assert Has(r, a, b, t);
    forall x | x in r ensures (exists y, u :: Has(r, x, y, u)) && forall y <- r[x] :: exists u :: Has(r, x, y, u) {
      forall y | y in r[x] ensures exists u :: Has(r, x, y, u) {
        if x in table && y in table[x] {
          var u :| Has(table, x, y, u);
          assert Has(r, x, y, u);
        }
      }
      if x in table {
        var y, u :| Has(table, x, y, u);
        assert Has(r, x, y, u);
      }
    }
  }

  /** One orientation of one edge. */
  method Visit(nodes: World, q: Query, table: Table, a: string, b: string, t: string) returns (r: Table)
    requires Dense(table) && t in q.want
    ensures Dense(r)
    ensures forall x, y, u :: Has(r, x, y, u) <==>
              Has(table, x, y, u) || Adds(nodes, q, a, b, t, x, y, u)
  {
    r := table;
    if a !in nodes || nodes[a].lab != q.dstLabel { return; }
    if b !in nodes || !q.srcFilter(nodes[b]) { return; }
    AddHopKeepsDense(table, a, b, t);
    r := AddHop(table, a, b, t);
  }

  lemma OneMoreEdge(edges: seq<Edge>, i: nat)
    requires i < |edges|
    ensures forall a, b, t :: Joined(edges[..i + 1], a, b, t) <==>
              Joined(edges[..i], a, b, t) || edges[i] == Edge(t, a, b) || edges[i] == Edge(t, b, a)
  {
    assert edges[..i + 1] == edges[..i] + [edges[i]];
  }

  /** The row, column and type an edge adds to the table, in one orientation. */
  predicate Adds(nodes: World, q: Query, a: string, b: string, t: string, x: string, y: string, u: string) {
    x == a && y == b && u == t && a in nodes && nodes[a].lab == q.dstLabel && b in nodes && q.srcFilter(nodes[b])
  }

  lemma OneMoreHop(nodes: World, edges: seq<Edge>, q: Query, i: nat, a: string, b: string, t: string)
    requires i < |edges|
    ensures Hop(nodes, edges[..i + 1], q, a, b, t) <==> Hop(nodes, edges[..i], q, a, b, t) || EdgeAdds(nodes, q, edges[i], a, b, t)
  {
    OneMoreEdge(edges, i);
    assert Joined(edges[..i + 1], a, b, t) <==> Joined(edges[..i], a, b, t) || edges[i] == Edge(t, a, b) || edges[i] == Edge(t, b, a);
  }

  /** The table holds exactly the hops of these edges. */
  ghost predicate Tabulates(table: Table, nodes: World, edges: seq<Edge>, q: Query) {
    Dense(table) && forall a, b, t :: Has(table, a, b, t) <==> Hop(nodes, edges, q, a, b, t)
  }

  /** One edge, both ways round. */
  method VisitEdge(nodes: World, q: Query, table: Table, e: Edge) returns (r: Table)
    requires Dense(table)
    ensures Dense(r)
    ensures forall a, b, t :: Has(r, a, b, t) <==> Has(table, a, b, t) || EdgeAdds(nodes, q, e, a, b, t)
  {
    r := table;
    if e.etype in q.want {
      r := Visit(nodes, q, r, e.src, e.dst, e.etype);
      r := Visit(nodes, q, r, e.dst, e.src, e.etype);
    }
  }

  predicate EdgeAdds(nodes: World, q: Query, e: Edge, a: string, b: string, t: string) {
    e.etype in q.want && (Adds(nodes, q, e.src, e.dst, e.etype, a, b, t) || Adds(nodes, q, e.dst, e.src, e.etype, a, b, t))
  }

  lemma TabulatesOneMore(table: Table, r: Table, nodes: World, edges: seq<Edge>, q: Query, i: nat)
    requires i < |edges| && Tabulates(table, nodes, edges[..i], q) && Dense(r)
    requires forall a, b, t :: Has(r, a, b, t) <==> Has(table, a, b, t) || EdgeAdds(nodes, q, edges[i], a, b, t)
    ensures Tabulates(r, nodes, edges[..i + 1], q)
  {
    forall a, b, t ensures Has(r, a, b, t) <==> Hop(nodes, edges[..i + 1], q, a, b, t) {
      OneMoreHop(nodes, edges, q, i, a, b, t);
    }
  }

  method Collect(nodes: World, edges: seq<Edge>, q: Query) returns (table: Table)
    ensures Tabulates(table, nodes, edges, q)
  {
    table := map[];
    for i := 0 to |edges|
      invariant Tabulates(table, nodes, edges[..i], q)
    {
      ghost var before := table;
      table := VisitEdge(nodes, q, table, edges[i]);
      TabulatesOneMore(before, table, nodes, edges, q, i);
    }
    assert edges[..|edges|] == edges;
  }

  /** `multihop`: exactly the counted answers that some wanted edge reaches at all. */
  method Multihop(nodes: World, edges: seq<Edge>, q: Query, min: int) returns (out: set<string>)
    ensures forall a :: a in out <==> Answers(nodes, edges, q, min, a) && Reached(nodes, edges, q, a)
  {
    var table := Collect(nodes, edges, q);
    out := {};
    var left := table.Keys;
    while left != {}
      invariant left <= table.Keys
      invariant forall a :: a in out <==> a in table && a !in left && Answers(nodes, edges, q, min, a)
    {
      var a :| a in left;
      left := left - {a};
      RowIsReached(nodes, edges, q, table, a);
      if !q.dstFilter(nodes[a]) { continue; }
      var full := |set b | b in table[a] && q.want <= table[a][b]|;
      if full >= min {
        out := out + {a};
      }
    }
    forall a ensures a in table <==> Reached(nodes, edges, q, a) {
      if Reached(nodes, edges, q, a) {
        var b, t :| Hop(nodes, edges, q, a, b, t);
        assert Has(table, a, b, t);
      }
      if a in table {
        var b, t :| Has(table, a, b, t);
        assert Hop(nodes, edges, q, a, b, t);
      }
    }
  }

  lemma RowIsReached(nodes: World, edges: seq<Edge>, q: Query, table: Table, a: string)
    requires Tabulates(table, nodes, edges, q) && a in table
    ensures a in nodes && nodes[a].lab == q.dstLabel
    ensures (set b | b in table[a] && q.want <= table[a][b]) == Sources(nodes, edges, q, a)
  {
    var b0, t0 :| Has(table, a, b0, t0);
    assert Hop(nodes, edges, q, a, b0, t0);
    forall b ensures (b in table[a] && q.want <= table[a][b]) <==> b in Sources(nodes, edges, q, a) {
      if b in table[a] && q.want <= table[a][b] {
        forall t | t in q.want ensures Hop(nodes, edges, q, a, b, t) { assert Has(table, a, b, t); }
        assert Hop(nodes, edges, q, a, b, t0);
      }
      if b in Sources(nodes, edges, q, a) {
        assert Hop(nodes, edges, q, a, b, t0);
        assert Has(table, a, b, t0);
        forall t | t in q.want ensures t in table[a][b] { assert Has(table, a, b, t); }
      }
    }
  }

  // ---- against the definition ----------------------------------------------

  /** For at least one type and at least one source, being reached adds nothing: the pass
      computes the counting definition. */
  lemma OnePassIsTheCount(nodes: World, edges: seq<Edge>, q: Query, min: int, a: string)
    requires q.want != {} && min >= 1 && Answers(nodes, edges, q, min, a)
    ensures Reached(nodes, edges, q, a)
  {
    var s := Sources(nodes, edges, q, a);
    assert s != {};
    var b :| b in s;
    var t :| t in q.want;
    assert Hop(nodes, edges, q, a, b, t);
  }

  /** As many nodes as asked, all alike. */
  function Name(n: nat): string { seq(n, _ => 'n') }

  function Crowd(n: nat, node: Node): World {
    if n == 0 then map[] else Crowd(n - 1, node)[Name(n) := node]
  }

  lemma {:induction false} CrowdSize(n: nat, node: Node)
    ensures |Crowd(n, node).Keys| == n
    ensures forall k <- Crowd(n, node) :: |k| <= n && Crowd(n, node)[k] == node
  {
    if n > 0 {
      CrowdSize(n - 1, node);
      assert |Name(n)| == n && Name(n) !in Crowd(n - 1, node);
      assert Crowd(n, node).Keys == Crowd(n - 1, node).Keys + {Name(n)};
    }
  }

  /** In every world the pass computes the counting definition. */
  ghost predicate PassIsTheCount(q: Query, min: int) {
    forall nodes, edges, a :: Answers(nodes, edges, q, min, a) ==> Reached(nodes, edges, q, a)
  }

  /** It does if and only if at least one type and at least one source are asked for, unless
      no node at all could be an answer. */
  lemma PassIsTheCountIff(q: Query, min: int, node: Node)
    requires node.lab == q.dstLabel && q.dstFilter(node)
    ensures PassIsTheCount(q, min) <==> q.want != {} && min >= 1
  {
    if q.want != {} && min >= 1 {
      forall nodes, edges, a | Answers(nodes, edges, q, min, a) ensures Reached(nodes, edges, q, a) {
        OnePassIsTheCount(nodes, edges, q, min, a);
      }
    } else {
      var n := if min >= 1 then min else 1;
      var nodes, a := Crowd(n, node), Name(n);
      CrowdSize(n, node);
      assert q.want == {} ==> Sources(nodes, [], q, a) == nodes.Keys;
      assert Answers(nodes, [], q, min, a) && !Reached(nodes, [], q, a);
    }
  }

  /** The answer does not depend on the order or repetition of the edges. */
  lemma OrderDoesNotMatter(nodes: World, edges: seq<Edge>, other: seq<Edge>, q: Query, min: int, a: string)
    requires forall e :: e in edges <==> e in other
    ensures Answers(nodes, edges, q, min, a) <==> Answers(nodes, other, q, min, a)
    ensures Reached(nodes, edges, q, a) <==> Reached(nodes, other, q, a)
  {
    forall b, t ensures Hop(nodes, edges, q, a, b, t) <==> Hop(nodes, other, q, a, b, t) {}
    assert Sources(nodes, edges, q, a) == Sources(nodes, other, q, a);
  }

  /** The same edges, each either way round. */
  ghost predicate SameUpToDirection(edges: seq<Edge>, other: seq<Edge>) {
    && (forall e <- edges :: e in other || Edge(e.etype, e.dst, e.src) in other)
    && (forall e <- other :: e in edges || Edge(e.etype, e.dst, e.src) in edges)
  }

  /** Nor on the direction in which an edge is stored. */
  lemma DirectionDoesNotMatter(nodes: World, edges: seq<Edge>, other: seq<Edge>, q: Query, min: int, a: string)
    requires SameUpToDirection(edges, other)
    ensures Answers(nodes, edges, q, min, a) <==> Answers(nodes, other, q, min, a)
    ensures Reached(nodes, edges, q, a) <==> Reached(nodes, other, q, a)
  {
    forall b, t ensures Hop(nodes, edges, q, a, b, t) <==> Hop(nodes, other, q, a, b, t) {
      assert Joined(edges, a, b, t) <==> Joined(other, a, b, t);
    }
    assert Sources(nodes, edges, q, a) == Sources(nodes, other, q, a);
  }

  /** A source counts once all the wanted types join it, and not before. */
  lemma SourceNeedsAllTypes(nodes: World, edges: seq<Edge>, q: Query, a: string, b: string)
    requires a in nodes && nodes[a].lab == q.dstLabel && b in nodes && q.want != {}
    ensures b in Sources(nodes, edges, q, a) <==>
            JoinedByAll(nodes, edges, q, a, b)
  {
    if b in Sources(nodes, edges, q, a) {
      var t0 :| t0 in q.want;
      assert Hop(nodes, edges, q, a, b, t0);
      forall t | t in q.want ensures exists e <- edges :: e == Edge(t, a, b) || e == Edge(t, b, a) {
        assert Hop(nodes, edges, q, a, b, t);
        assert Edge(t, a, b) in edges || Edge(t, b, a) in edges;
      }
    }
  }

  /** An answer is a node of the label that passes its filter and has that many distinct nodes,
      each passing theirs, joined to it by every wanted type. */
  lemma AnswerMeans(nodes: World, edges: seq<Edge>, q: Query, min: int, a: string)
    requires q.want != {}
    ensures Answers(nodes, edges, q, min, a) <==>
            && a in nodes && nodes[a].lab == q.dstLabel && q.dstFilter(nodes[a])
            && exists s: set<string> :: |s| >= min && s <= nodes.Keys && forall b <- s :: JoinedByAll(nodes, edges, q, a, b)
  {
    if a in nodes && nodes[a].lab == q.dstLabel {
      forall b | b in nodes ensures b in Sources(nodes, edges, q, a) <==> JoinedByAll(nodes, edges, q, a, b) {
        SourceNeedsAllTypes(nodes, edges, q, a, b);
      }
      var all := Sources(nodes, edges, q, a);
      forall s: set<string> | s <= nodes.Keys && forall b <- s :: JoinedByAll(nodes, edges, q, a, b) ensures |s| <= |all| {
        assert s <= all;
        assert all == s + (all - s);
      }
      assert all <= nodes.Keys;
    }
  }

  ghost predicate JoinedByAll(nodes: World, edges: seq<Edge>, q: Query, a: string, b: string) {
    b in nodes && q.srcFilter(nodes[b]) && forall t <- q.want :: exists e <- edges :: e == Edge(t, a, b) || e == Edge(t, b, a)
  }

  /** Raising the bar only removes answers. */
  lemma RaisingTheBarOnlyRemoves(nodes: World, edges: seq<Edge>, q: Query, low: int, high: int, a: string)
    requires low <= high && Answers(nodes, edges, q, high, a)
    ensures Answers(nodes, edges, q, low, a)
  {
  }

  /** The near-miss pool of a task with this bar: what one source fewer would admit. Every
      key in it has exactly `bar - 1` qualifying sources. From a bar of two on, every such
      node is in it. */
  method NearMisses(nodes: World, edges: seq<Edge>, q: Query, bar: int) returns (answer: set<string>, near: set<string>)
    requires bar >= 1
    ensures forall a :: a in answer <==> Answers(nodes, edges, q, bar, a) && Reached(nodes, edges, q, a)
    ensures forall a <- near :: Answers(nodes, edges, q, bar - 1, a) && |Sources(nodes, edges, q, a)| == bar - 1
    ensures bar >= 2 && q.want != {} ==>
              forall a :: a in near <==> Answers(nodes, edges, q, bar - 1, a) && |Sources(nodes, edges, q, a)| == bar - 1
  {
    answer := Multihop(nodes, edges, q, bar);
    var wider := Multihop(nodes, edges, q, bar - 1);
    near := wider - answer;
    assert answer <= wider;
    if bar >= 2 && q.want != {} {
      forall a | Answers(nodes, edges, q, bar - 1, a) ensures Reached(nodes, edges, q, a) {
        OnePassIsTheCount(nodes, edges, q, bar - 1, a);
      }
    }
  }

  // ---- partners ------------------------------------------------------------

  /** `partners` for named types: everything joined to `key` by all of them, and by
      something at all. */
  method Partners(edges: seq<Edge>, key: string, want: set<string>) returns (out: set<string>)
    ensures forall o :: o in out <==>
              (exists t :: Joined(edges, key, o, t)) && forall t <- want :: Joined(edges, key, o, t)
  {
    var seen: map<string, set<string>> := map[];
    for i := 0 to |edges|
      invariant forall o, t :: (o in seen && t in seen[o]) <==> Joined(edges[..i], key, o, t)
      invariant forall o <- seen :: seen[o] != {}
    {
      var e := edges[i];
      OneMoreEdge(edges, i);
      if e.src == key || e.dst == key {
        var other := if e.src == key then e.dst else e.src;
        seen := seen[other := (if other in seen then seen[other] else {}) + {e.etype}];
      }
    }
    assert edges[..|edges|] == edges;
    out := set o | o in seen && want <= seen[o];
    forall o | o in seen ensures exists t :: Joined(edges, key, o, t) {
      var t :| t in seen[o];
      assert Joined(edges, key, o, t);
    }
  }
}
