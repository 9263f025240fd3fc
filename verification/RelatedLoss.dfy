/** When the canvas loses a `related` edge the server still has (ui/src/store.ts): exactly
    which servers a canvas can agree with on every edge. */
module RelatedLoss {
  import opened Common
  import opened EdgeIds
  import opened Records
  import opened Canvas
  import opened Classify
  import opened LiveView

  // ---- drawing erases ------------------------------------------------------

  /** Drawing a typed edge erases the `related` edges between the same two nodes, whether or
      not the server still has them. */
  lemma TypedMergeErasesRelated(v: View, root: string, etype: string, nbr: string, dir: Dir)
    requires etype != RELATED
    ensures var w := MergeOne(v, root, etype, nbr, dir);
            EdgeId(Edge(RELATED, root, nbr)) !in w.edges && EdgeId(Edge(RELATED, nbr, root)) !in w.edges
  {
  }

  /** No edge of the bucket has this id. */
  ghost predicate Spares(root: string, etype: string, nbrs: seq<string>, dir: Dir, id: string) {
    forall n <- nbrs :: EdgeId(MergedEdge(root, etype, n, dir)) != id
  }

  lemma OneLeavesOut(v: View, root: string, etype: string, nbr: string, dir: Dir, id: string)
    requires id !in v.edges && EdgeId(MergedEdge(root, etype, nbr, dir)) != id
    ensures id !in MergeOne(v, root, etype, nbr, dir).edges
  {
    var e := MergedEdge(root, etype, nbr, dir);
    var w := UpsertEdge(UpsertNode(v, nbr, ""), e);
    assert id !in w.edges;
    assert DropLegacyRelated(w, e.src, e.dst).edges.Keys <= w.edges.Keys;
  }

  lemma {:induction false} BucketLeavesOut(v: View, root: string, etype: string, nbrs: seq<string>, dir: Dir, id: string)
    requires id !in v.edges && Spares(root, etype, nbrs, dir, id)
    ensures id !in MergeBucket(v, root, etype, nbrs, dir).edges
  {
    if nbrs != [] {
      var rest, last := nbrs[..|nbrs| - 1], nbrs[|nbrs| - 1];
      assert last in nbrs;
      BucketLeavesOut(v, root, etype, rest, dir, id);
      OneLeavesOut(MergeBucket(v, root, etype, rest, dir), root, etype, last, dir, id);
    }
  }

  lemma {:induction false} BucketErases(v: View, root: string, etype: string, nbrs: seq<string>, dir: Dir, nbr: string)
    requires etype != RELATED && nbr in nbrs && Spares(root, etype, nbrs, dir, EdgeId(Edge(RELATED, root, nbr)))
    ensures EdgeId(Edge(RELATED, root, nbr)) !in MergeBucket(v, root, etype, nbrs, dir).edges
  {
    var rest, last := nbrs[..|nbrs| - 1], nbrs[|nbrs| - 1];
    assert nbrs == rest + [last] && last in nbrs;
    if last == nbr {
      TypedMergeErasesRelated(MergeBucket(v, root, etype, rest, dir), root, etype, nbr, dir);
    } else {
      BucketErases(v, root, etype, rest, dir, nbr);
      OneLeavesOut(MergeBucket(v, root, etype, rest, dir), root, etype, last, dir, EdgeId(Edge(RELATED, root, nbr)));
    }
  }

  lemma {:induction false} RecordLeavesOut(v: View, root: string, buckets: map<string, seq<string>>, order: seq<string>, dir: Dir, id: string)
    requires forall t <- order :: t in buckets && Spares(root, t, buckets[t], dir, id)
    requires id !in v.edges
    ensures id !in MergeBuckets(v, root, buckets, order, dir).edges
  {
    if order != [] {
      var rest, t := order[..|order| - 1], order[|order| - 1];
      assert t in order;
      RecordLeavesOut(v, root, buckets, rest, dir, id);
      BucketLeavesOut(MergeBuckets(v, root, buckets, rest, dir), root, t, buckets[t], dir, id);
    }
  }

  /** From the typed bucket at `i` on, nothing draws the `related` edge again. */
  lemma {:induction false} RecordErases(v: View, root: string, buckets: map<string, seq<string>>, order: seq<string>, dir: Dir, i: nat, nbr: string)
    requires (forall t <- order :: t in buckets) && i < |order| && order[i] != RELATED && nbr in buckets[order[i]]
    requires forall j :: i <= j < |order| ==> Spares(root, order[j], buckets[order[j]], dir, EdgeId(Edge(RELATED, root, nbr)))
    ensures EdgeId(Edge(RELATED, root, nbr)) !in MergeBuckets(v, root, buckets, order, dir).edges
  {
    var rest, t := order[..|order| - 1], order[|order| - 1];
    var before := MergeBuckets(v, root, buckets, rest, dir);
    if i == |order| - 1 {
      BucketErases(before, root, t, buckets[t], dir, nbr);
    } else {
      RecordErases(v, root, buckets, rest, dir, i, nbr);
      BucketLeavesOut(before, root, t, buckets[t], dir, EdgeId(Edge(RELATED, root, nbr)));
    }
  }

  /** The edges into a root are other edges than one that leaves it. */
  lemma InSpares(s: Server, infos: seq<EdgeInfo>, r: Edge, b: string)
    requires ServerValid(s) && r in s.edges && AnswersTruly(s, r.src, infos) && b in ClassifyAll(r.src, infos).ins.buckets
    ensures Spares(r.src, b, ClassifyAll(r.src, infos).ins.buckets[b], In, EdgeId(r))
  {
    var c := ClassifyAll(r.src, infos);
    ClassificationIsExact(r.src, infos);
    forall n | n in c.ins.buckets[b] ensures EdgeId(MergedEdge(r.src, b, n, In)) != EdgeId(r) {
      assert Listed(c.ins, b, n);
      if EdgeId(MergedEdge(r.src, b, n, In)) == EdgeId(r) { BarFreeIdIsUnique(r, MergedEdge(r.src, b, n, In)); }
    }
  }

  /** A bucket of another type than `related` draws no `related` edge. */
  lemma TypedSpares(s: Server, root: string, record: Record, dir: Dir, etype: string, r: Edge)
    requires ServerValid(s) && RecordOf(s, root, record, dir) && etype in record.buckets && etype != RELATED
    requires r in s.edges && r.etype == RELATED
    ensures Spares(root, etype, record.buckets[etype], dir, EdgeId(r))
  {
    forall n | n in record.buckets[etype] ensures EdgeId(MergedEdge(root, etype, n, dir)) != EdgeId(r) {
      assert Listed(record, etype, n);
      if EdgeId(MergedEdge(root, etype, n, dir)) == EdgeId(r) { BarFreeIdIsUnique(r, MergedEdge(root, etype, n, dir)); }
    }
  }

  /** Where `related` was reported first, an edge that erases it has the last word. */
  lemma MergedLosesRelated(v: View, s: Server, infos: seq<EdgeInfo>, r: Edge, t: Edge)
    requires ServerValid(s) && r in s.edges && t in s.edges && Erases(t, r) && AnswersTruly(s, r.src, infos)
    requires var keys := ClassifyAll(r.src, infos).outs.keys; keys != [] && keys[0] == RELATED
    ensures EdgeId(r) !in Merged(v, r.src, infos).edges
  {
    var root, c := r.src, ClassifyAll(r.src, infos);
    RecordsOfTruth(s, root, infos);
    var v1 := Merge(v, root, c.outs, Out);
    var u2, inOrder := UpsertNode(v1, root, ""), Entries(c.ins.keys);
    forall b | b in inOrder ensures Spares(root, b, c.ins.buckets[b], In, EdgeId(r)) { InSpares(s, infos, r, b); }
    if t.src == root && t.dst == r.dst {
      OutErases(v, s, root, c.outs, r, t);
      RecordLeavesOut(u2, root, c.ins.buckets, inOrder, In, EdgeId(r));
    } else {
      assert Listed(c.ins, t.etype, r.dst);
      var i :| 0 <= i < |inOrder| && inOrder[i] == t.etype;
      RecordErases(u2, root, c.ins.buckets, inOrder, In, i, r.dst);
    }
  }

  lemma OutErases(v: View, s: Server, root: string, record: Record, r: Edge, t: Edge)
    requires ServerValid(s) && RecordOf(s, root, record, Out) && record.keys != [] && record.keys[0] == RELATED
    requires r in s.edges && r.etype == RELATED && r.src == root
    requires t.etype != RELATED && !IsArrayIndex(t.etype) && Listed(record, t.etype, r.dst)
    ensures EdgeId(r) !in Merge(v, root, record, Out).edges
  {
    var order := Entries(record.keys);
    assert !IsArrayIndex(RELATED) by { assert RELATED[0] == 'r'; }
    var i := FirstNameLeads(record.keys, t.etype);
    forall j | i <= j < |order| ensures Spares(root, order[j], record.buckets[order[j]], Out, EdgeId(r)) {
      assert order[j] in order && order[j] == order[i..][j - i];
      TypedSpares(s, root, record, Out, order[j], r);
    }
    RecordErases(UpsertNode(v, root, ""), root, record.buckets, order, Out, i, r.dst);
  }

  // ---- the answers of a server ---------------------------------------------

  /** A truthful answer exists for every root: the server's edges, listed. */
  lemma {:induction false} SomeAnswer(edges: map<Edge, bool>) returns (infos: seq<EdgeInfo>)
    ensures forall info <- infos :: info.edge in edges && edges[info.edge] == info.derived
    ensures forall e <- edges :: Reported(infos, e)
    decreases |edges.Keys|
  {
    if edges.Keys == {} {
      infos := [];
    } else {
      var e :| e in edges;
      assert (edges - {e}).Keys == edges.Keys - {e};
      var rest := SomeAnswer(edges - {e});
      infos := [EdgeInfo(e, edges[e])] + rest;
      forall f | f in edges ensures Reported(infos, f) {
        if f == e {
          assert infos[0].edge == f;
        } else {
          assert Reported(rest, f);
          var info :| info in rest && info.edge == f;
          assert info in infos;
        }
      }
    }
  }

  /** An answer that reports this `related` edge first. */
  lemma RelatedFirst(s: Server, r: Edge) returns (a: Answers)
    requires ServerValid(s) && r in s.edges && r.etype == RELATED
    ensures AnswersTruly(s, r.src, a.infos)
    ensures var keys := ClassifyAll(r.src, a.infos).outs.keys; keys != [] && keys[0] == RELATED
  {
    var rest := SomeAnswer(s.edges);
    var first := EdgeInfo(r, s.edges[r]);
    var infos := [first] + rest;
    a := Answers([], [], infos, map[]);
    forall e | e in s.edges ensures Reported(infos, e) {
      assert Reported(rest, e);
      var info :| info in rest && info.edge == e;
      assert info in infos;
    }
    assert infos[..1] == [first] && [first][..0] == [];
    assert ScanEdges(r.src, [first]) == ScanEdge(NOTHING_SCANNED, r.src, first);
    ScannedKeysGrow(r.src, infos, 1);
  }

  lemma ExpandLoses(v: View, s: Server, a: Answers, r: Edge, t: Edge)
    requires ServerValid(s) && r in s.edges && t in s.edges && Erases(t, r) && AnswersTruly(s, r.src, a.infos)
    requires var keys := ClassifyAll(r.src, a.infos).outs.keys; keys != [] && keys[0] == RELATED
    requires !TripsAt(s, r.src)
    ensures EdgeId(r) !in Expand(v, r.src, a).edges
  {
    var v1 := FromNeighborhood(v, r.src, a.columns, a.rows);
    FromNeighborhoodKeeps(v, r.src, a.columns, a.rows);
    ThrowsIffTrips(s, r.src, a.infos);
    MergedLosesRelated(v1, s, a.infos, r, t);
    SetFlagsEffect(Merged(v1, r.src, a.infos), ClassifyAll(r.src, a.infos).provenance);
  }

  lemma RunTwo(y: System, first: Step, second: Step)
    requires Legal(y, first) && Legal(Next(y, first), second)
    ensures Run(y, [first, second]) == Some(Next(Next(y, first), second))
  {
    var steps := [first, second];
    assert steps[..1] == [first] && [first][..0] == [];
    assert Run(y, []) == Some(y);
    assert Run(y, [first]) == Some(Next(y, first));
  }

  /** Expand one end of the `related` edge and then its source. Both ends are then expanded,
      the server has the edge, and the canvas does not show it. */
  lemma ErasedForGood(s: Server, r: Edge, t: Edge) returns (steps: seq<Step>)
    requires ServerValid(s) && r in s.edges && t in s.edges && Erases(t, r) && !TripsAt(s, r.src) && !TripsAt(s, r.dst)
    ensures |steps| == 2 && steps[0].ExpandRoot? && steps[1].ExpandRoot?
    ensures var y := Run(System(s, EMPTY_VIEW), steps);
            y.Some? && FullyKnown(y.value.view, r) && r in y.value.server.edges && !OnCanvas(y.value.view, r)
  {
    var infos := SomeAnswer(s.edges);
    var a := Answers([], [], infos, map[]);
    var b := RelatedFirst(s, r);
    var y0 := System(s, EMPTY_VIEW);
    var y1 := Next(y0, ExpandRoot(r.dst, a));
    steps := [ExpandRoot(r.dst, a), ExpandRoot(r.src, b)];
    RunTwo(y0, ExpandRoot(r.dst, a), ExpandRoot(r.src, b));
    ExpandSimulates(EMPTY_VIEW, s, r.dst, a, false);
    ExpandSimulates(y1.view, s, r.src, b, false);
    ExpandLoses(y1.view, s, b, r, t);
  }

  // ---- exactly when agreement is total -------------------------------------

  predicate ChangesServer(step: Step) {
    step.InsertNode? || step.InsertEdge? || step.DeleteEdge? || step.DeleteNode?
  }

  ghost predicate MutationFree(steps: seq<Step>) {
    forall step <- steps :: !ChangesServer(step)
  }

  /** No `related` edge whose ends can both be expanded has an edge that erases it. */
  ghost predicate Harmless(s: Server) {
    forall r, t :: r in s.edges && t in s.edges && Erases(t, r) ==> TripsAt(s, r.src) || TripsAt(s, r.dst)
  }

  /** Beside a server that does not change, only nodes that can be expanded are. */
  ghost predicate Expandable(s: Server, ready: set<string>) {
    forall k <- ready :: !TripsAt(s, k)
  }

  lemma StillExpandable(y: System, step: Step)
    requires Inv(y, false) && Legal(y, step) && !ChangesServer(step) && Expandable(y.server, y.view.ready)
    ensures var z := Next(y, step); z.server == y.server && Expandable(y.server, z.view.ready)
  {
    match step
    case ExpandRoot(root, a) => ExpandSimulates(y.view, y.server, root, a, false);
    case RunQuery(columns, rows) => MergeQueryGraphKeeps(y.view, columns, rows);
    case _ =>
  }

  lemma ClearIfHarmless(y: System, step: Step)
    requires Harmless(y.server) && Expandable(y.server, y.view.ready)
    ensures StepClear(y, step)
  {
  }

  lemma {:induction false} QuietRun(s: Server, steps: seq<Step>)
    requires ServerValid(s) && MutationFree(steps)
    ensures var y := Run(System(s, EMPTY_VIEW), steps); y.Some? ==> y.value.server == s && Expandable(s, y.value.view.ready)
    ensures Harmless(s) ==> RunClear(System(s, EMPTY_VIEW), steps)
  {
    if steps != [] {
      var rest, last := steps[..|steps| - 1], steps[|steps| - 1];
      assert last in steps;
      QuietRun(s, rest);
      EveryRunAgrees(s, rest, false);
      var before := Run(System(s, EMPTY_VIEW), rest);
      if before.Some? {
        if Harmless(s) { ClearIfHarmless(before.value, last); }
        if Legal(before.value, last) { StillExpandable(before.value, last); }
      }
    }
  }

  /** These steps end in a canvas that shows, between expanded nodes, exactly the server's
      edges, whatever their type. */
  ghost predicate TotalAfter(s: Server, steps: seq<Step>) {
    var y := Run(System(s, EMPTY_VIEW), steps);
    y.Some? ==> forall e :: FullyKnown(y.value.view, e) ==> (OnCanvas(y.value.view, e) <==> e in y.value.server.edges)
  }

  ghost predicate AlwaysTotal(s: Server) {
    forall steps :: MutationFree(steps) ==> TotalAfter(s, steps)
  }

  lemma HarmlessIsTotal(s: Server, steps: seq<Step>)
    requires ServerValid(s) && Harmless(s) && MutationFree(steps)
    ensures TotalAfter(s, steps)
  {
    QuietRun(s, steps);
    EveryRunAgrees(s, steps, true);
  }

  lemma HarmfulIsNotTotal(s: Server, r: Edge, t: Edge) returns (steps: seq<Step>)
    requires ServerValid(s) && r in s.edges && t in s.edges && Erases(t, r) && !TripsAt(s, r.src) && !TripsAt(s, r.dst)
    ensures MutationFree(steps) && !TotalAfter(s, steps)
  {
    steps := ErasedForGood(s, r, t);
  }

  /** Beside a server that does not change, agreement is total over every run if and only if
      no `related` edge between expandable nodes has an edge that erases it. */
  lemma TotalIffHarmless(s: Server)
    requires ServerValid(s)
    ensures AlwaysTotal(s) <==> Harmless(s)
  {
    if Harmless(s) {
      forall steps | MutationFree(steps) ensures TotalAfter(s, steps) { HarmlessIsTotal(s, steps); }
    } else {
      var r, t :| r in s.edges && t in s.edges && Erases(t, r) && !TripsAt(s, r.src) && !TripsAt(s, r.dst);
      var steps := HarmfulIsNotTotal(s, r, t);
      assert MutationFree(steps) && !TotalAfter(s, steps);
    }
  }
}
