/** The canvas as a replica: a server graph, the events its mutations emit, and the
    expansions that fetch from it (ui/src/live.ts, ui/src/expand.ts). The theorem at the
    end holds over every run in which an event is delivered as it happens and an
    expansion is not interrupted. */
module LiveView {
  import opened Common
  import opened EdgeIds
  import opened Records
  import opened Canvas
  import opened Classify

  /** The server: labelled nodes, and edges with their provenance. */
  datatype Server = Server(nodes: map<string, string>, edges: map<Edge, bool>)

  ghost predicate ServerValid(s: Server) {
    forall e <- s.edges :: BarFree(e) && e.src in s.nodes && e.dst in s.nodes
  }

  datatype System = System(server: Server, view: View)

  datatype Step =
    | InsertNode(key: string, lab: string)
    | InsertEdge(edge: Edge, derived: bool)
    | DeleteEdge(edge: Edge)
    | DeleteNode(key: string)
    | OtherEvent(ev: Event)
    | ExpandRoot(root: string, answers: Answers)
    | RunQuery(columns: seq<string>, rows: seq<seq<Cell>>)
    | FillInfo(key: string, lab: string)
    | Select(selection: Selection)
    | MarkKey(key: string)
    | Lagged

  /** The answer to `GET /node/{root}/edges`: every edge at the root with its flag, in any
      order, possibly repeated. A root the server does not have gets the empty answer. */
  ghost predicate AnswersTruly(s: Server, root: string, infos: seq<EdgeInfo>) {
    && (forall info <- infos :: info.edge in s.edges && s.edges[info.edge] == info.derived)
    && (forall e <- s.edges :: Touches(e, root) ==> Reported(infos, e))
  }

  ghost predicate Legal(y: System, step: Step) {
    match step
    case InsertNode(key, _) => key !in y.server.nodes
    case InsertEdge(e, _) => BarFree(e) && e !in y.server.edges && e.src in y.server.nodes && e.dst in y.server.nodes
    case DeleteEdge(e) => e in y.server.edges
    case DeleteNode(key) => key in y.server.nodes
    case OtherEvent(ev) => !ev.NodeInserted? && !ev.EdgeInserted? && !ev.EdgeDeleted? && !ev.NodeDeleted?
    case ExpandRoot(root, a) => AnswersTruly(y.server, root, a.infos)
    case _ => true
  }

  ghost function Next(y: System, step: Step): System
    requires Legal(y, step)
  {
    var s, v := y.server, y.view;
    match step
    case InsertNode(key, lab) =>
      System(s.(nodes := s.nodes[key := lab]), ApplyLive(v, NodeInserted(lab, key)))
    case InsertEdge(e, derived) =>
      System(s.(edges := s.edges[e := derived]), ApplyLive(v, EdgeInserted(e)))
    case DeleteEdge(e) =>
      System(s.(edges := s.edges - {e}), ApplyLive(v, EdgeDeleted(e)))
    case DeleteNode(key) =>
      System(Server(s.nodes - {key}, map e | e in s.edges && !Touches(e, key) :: s.edges[e]),
             ApplyLive(v, NodeDeleted(key)))
    case OtherEvent(ev) => y.(view := ApplyLive(v, ev))
    case ExpandRoot(root, a) => y.(view := Expand(v, root, a))
    case RunQuery(columns, rows) => y.(view := MergeQueryGraph(v, columns, rows))
    case FillInfo(key, lab) => y.(view := ApplyNodeInfo(v, key, lab))
    case Select(selection) => y.(view := v.(selection := selection))
    case MarkKey(key) => y.(view := MarkDirty(v, key))
    case Lagged => y.(view := MarkAllDirty(v))
  }

  /** The system after a list of steps, if each was legal when it was taken. */
  ghost function Run(y: System, steps: seq<Step>): Option<System> {
    if steps == [] then Some(y) else
    var before := Run(y, steps[..|steps| - 1]);
    if before.Some? && Legal(before.value, steps[|steps| - 1])
    then Some(Next(before.value, steps[|steps| - 1])) else None
  }

  // ---- the theorem's statement ---------------------------------------------

  ghost predicate OnCanvas(v: View, e: Edge) {
    EdgeId(e) in v.edges && v.edges[EdgeId(e)].edge == e
  }

  /** Both ends are drawn and expanded: the pairs the canvas claims to know fully. */
  ghost predicate FullyKnown(v: View, e: Edge) {
    && e.src in v.nodes && !NeedsEdges(v, e.src)
    && e.dst in v.nodes && !NeedsEdges(v, e.dst)
  }

  /** Nothing on the canvas is invented, no known provenance is wrong, and between two
      expanded nodes nothing is missing; unless `full`, edges typed `related` may be. */
  ghost predicate Agrees(y: System, full: bool) {
    && (forall e :: OnCanvas(y.view, e) ==> e in y.server.edges)
    && (forall e :: OnCanvas(y.view, e) ==>
          y.view.edges[EdgeId(e)].derived in {None, Some(y.server.edges[e])})
    && (forall e :: FullyKnown(y.view, e) && (full || e.etype != RELATED) ==> (OnCanvas(y.view, e) <==> e in y.server.edges))
  }

  // ---- the inductive invariant ---------------------------------------------

  ghost predicate Truthful(c: CanvasEdge, s: Server) {
    c.edge in s.edges && (c.derived.None? || c.derived.value == s.edges[c.edge])
  }

  /** A well-formed canvas on which every edge is one the server has. */
  ghost predicate Sound(v: View, s: Server) {
    WellFormed(v) && forall id <- v.edges :: Truthful(v.edges[id], s)
  }

  /** An edge the canvas claims to show: both ends are expanded. */
  predicate Claimed(e: Edge, ready: set<string>, full: bool) {
    (full || e.etype != RELATED) && e.src in ready && e.dst in ready
  }

  ghost predicate Simulates(v: View, s: Server, full: bool) {
    Sound(v, s) && forall e <- s.edges :: Claimed(e, v.ready, full) ==> EdgeId(e) in v.edges
  }

  ghost predicate Inv(y: System, full: bool) {
    ServerValid(y.server) && Simulates(y.view, y.server, full)
  }

  /** Drawing `t` can erase the `related` edge `r` for good: it joins the same two nodes, the
      other way round, or the same way by a type that is no array index. (Array indices are
      enumerated, and so drawn, before `related`.) */
  predicate Erases(t: Edge, r: Edge) {
    && r.etype == RELATED && t.etype != RELATED
    && ((t.src == r.src && t.dst == r.dst && !IsArrayIndex(t.etype)) || (t.src == r.dst && t.dst == r.src && r.src != r.dst))
  }

  /** No `related` edge between the root and the given nodes has an edge that erases it. */
  ghost predicate ClearAt(s: Server, ready: set<string>, root: string) {
    forall r, t :: r in s.edges && t in s.edges && Erases(t, r) && Touches(r, root) ==> r.src !in ready || r.dst !in ready
  }

  lemma InvMeansAgrees(y: System, full: bool)
    requires Inv(y, full)
    ensures Agrees(y, full)
  {
    forall e | OnCanvas(y.view, e)
      ensures e in y.server.edges && y.view.edges[EdgeId(e)].derived in {None, Some(y.server.edges[e])}
    {
      assert Truthful(y.view.edges[EdgeId(e)], y.server);
    }
    forall e | FullyKnown(y.view, e) && (full || e.etype != RELATED) && e in y.server.edges ensures OnCanvas(y.view, e) {
      BarFreeIdIsUnique(e, y.view.edges[EdgeId(e)].edge);
    }
  }

  // ---- merging a root ------------------------------------------------------

  ghost predicate AllBarFree(v: View) {
    forall id <- v.edges :: BarFree(v.edges[id].edge)
  }

  /** `w` is `v` with the edges of `added` drawn and at most `related` ones dropped. */
  ghost predicate Drew(v: View, w: View, added: set<Edge>) {
    && WellFormed(w) && w.ready == v.ready
    && (forall id <- w.edges ::
          (id in v.edges && w.edges[id] == v.edges[id]) || (w.edges[id].edge in added && w.edges[id].derived == None))
    && (forall id <- v.edges :: v.edges[id].edge.etype != RELATED ==> id in w.edges && w.edges[id] == v.edges[id])
    && (forall e <- added :: e.etype != RELATED ==> EdgeId(e) in w.edges)
  }

  lemma TypedIdIsNotRelated(e: Edge, src: string, dst: string)
    requires BarFree(e) && e.etype != RELATED
    ensures EdgeId(e) != EdgeId(Edge(RELATED, src, dst))
  {
    if EdgeId(e) == EdgeId(Edge(RELATED, src, dst)) {
      BarFreeIdIsUnique(e, Edge(RELATED, src, dst));
    }
  }

  lemma DrewNode(v: View, w: View, added: set<Edge>, key: string)
    requires Drew(v, w, added)
    ensures Drew(v, UpsertNode(w, key, ""), added)
  {
    UpsertKeeps(w, key, Edge("", key, key));
  }

  lemma DrewEdge(v: View, w: View, added: set<Edge>, e: Edge)
    requires Drew(v, w, added) && e.src in w.nodes && e.dst in w.nodes
    ensures Drew(v, UpsertEdge(w, e), added + {e})
  {
    UpsertKeeps(w, e.src, e);
  }

  lemma DrewRemove(v: View, w: View, added: set<Edge>, src: string, dst: string)
    requires AllBarFree(v) && (forall e <- added :: BarFree(e)) && Drew(v, w, added)
    ensures Drew(v, RemoveEdge(w, EdgeId(Edge(RELATED, src, dst))), added)
  {
    forall f | BarFree(f) && f.etype != RELATED ensures EdgeId(f) != EdgeId(Edge(RELATED, src, dst)) {
      TypedIdIsNotRelated(f, src, dst);
    }
  }

  lemma DrewOne(v: View, w: View, added: set<Edge>, root: string, etype: string, nbr: string, dir: Dir)
    requires WellFormed(v) && AllBarFree(v) && (forall e <- added :: BarFree(e)) && Drew(v, w, added)
    requires root in w.nodes && BarFree(MergedEdge(root, etype, nbr, dir))
    ensures Drew(v, MergeOne(w, root, etype, nbr, dir), added + {MergedEdge(root, etype, nbr, dir)})
  {
    var e := MergedEdge(root, etype, nbr, dir);
    var w1 := UpsertNode(w, nbr, "");
    var w2 := UpsertEdge(w1, e);
    DrewNode(v, w, added, nbr);
    DrewEdge(v, w1, added, e);
    if etype != RELATED {
      DrewRemove(v, w2, added + {e}, e.src, e.dst);
      DrewRemove(v, RemoveEdge(w2, EdgeId(Edge(RELATED, e.src, e.dst))), added + {e}, e.dst, e.src);
    }
  }

  ghost function BucketEdges(root: string, etype: string, nbrs: seq<string>, dir: Dir): set<Edge> {
    set n | n in nbrs :: MergedEdge(root, etype, n, dir)
  }

  lemma {:induction false} DrewBucket(v: View, w: View, added: set<Edge>, root: string, etype: string, nbrs: seq<string>, dir: Dir)
    requires WellFormed(v) && AllBarFree(v) && (forall e <- added :: BarFree(e)) && Drew(v, w, added)
    requires root in w.nodes && forall e <- BucketEdges(root, etype, nbrs, dir) :: BarFree(e)
    ensures Drew(v, MergeBucket(w, root, etype, nbrs, dir), added + BucketEdges(root, etype, nbrs, dir))
  {
    if nbrs == [] {
      assert added + BucketEdges(root, etype, nbrs, dir) == added;
    } else {
      var rest, n := nbrs[..|nbrs| - 1], nbrs[|nbrs| - 1];
      var e := MergedEdge(root, etype, n, dir);
      assert n in nbrs && e in BucketEdges(root, etype, nbrs, dir);
      assert BucketEdges(root, etype, nbrs, dir) == BucketEdges(root, etype, rest, dir) + {e} by {
        assert nbrs == rest + [n];
      }
      DrewBucket(v, w, added, root, etype, rest, dir);
      MergeBucketKeeps(w, root, etype, rest, dir);
      DrewOne(v, MergeBucket(w, root, etype, rest, dir), added + BucketEdges(root, etype, rest, dir), root, etype, n, dir);
      assert added + BucketEdges(root, etype, nbrs, dir) == added + BucketEdges(root, etype, rest, dir) + {e};
    }
  }

  ghost function RecordEdges(root: string, buckets: map<string, seq<string>>, order: seq<string>, dir: Dir): set<Edge>
    requires forall t <- order :: t in buckets
  {
    set t, n | t in order && n in buckets[t] :: MergedEdge(root, t, n, dir)
  }

  lemma {:induction false} DrewRecord(v: View, w: View, root: string, buckets: map<string, seq<string>>, order: seq<string>, dir: Dir)
    requires WellFormed(v) && AllBarFree(v) && Drew(v, w, {}) && root in w.nodes
    requires (forall t <- order :: t in buckets) && forall e <- RecordEdges(root, buckets, order, dir) :: BarFree(e)
    ensures Drew(v, MergeBuckets(w, root, buckets, order, dir), RecordEdges(root, buckets, order, dir))
  {
    if order != [] {
      var rest, t := order[..|order| - 1], order[|order| - 1];
      assert order == rest + [t];
      var before, bucket := RecordEdges(root, buckets, rest, dir), BucketEdges(root, t, buckets[t], dir);
      assert RecordEdges(root, buckets, order, dir) == before + bucket;
      DrewRecord(v, w, root, buckets, rest, dir);
      MergeBucketsKeeps(w, root, buckets, rest, dir);
      DrewBucket(v, MergeBuckets(w, root, buckets, rest, dir), before, root, t, buckets[t], dir);
    }
  }

  /** The edges a record stands for. */
  ghost function EdgesOf(root: string, record: Record, dir: Dir): set<Edge>
    requires RecordOk(record)
  {
    RecordEdges(root, record.buckets, Entries(record.keys), dir)
  }

  lemma ListedEdges(root: string, record: Record, dir: Dir)
    requires RecordOk(record)
    ensures forall t, n :: Listed(record, t, n) ==> MergedEdge(root, t, n, dir) in EdgesOf(root, record, dir)
    ensures forall e <- EdgesOf(root, record, dir) :: exists t, n :: Listed(record, t, n) && e == MergedEdge(root, t, n, dir)
  {
    var order := Entries(record.keys);
    forall t, n | Listed(record, t, n) ensures MergedEdge(root, t, n, dir) in EdgesOf(root, record, dir) {
      assert t in record.keys && t in order;
    }
    forall e | e in EdgesOf(root, record, dir) ensures exists t, n :: Listed(record, t, n) && e == MergedEdge(root, t, n, dir) {
      var t, n :| t in order && n in record.buckets[t] && e == MergedEdge(root, t, n, dir);
      assert Listed(record, t, n);
    }
  }

  /** One merge draws exactly the record's edges and marks the root expanded. */
  lemma MergeDraws(v: View, root: string, record: Record, dir: Dir)
    requires WellFormed(v) && AllBarFree(v) && RecordOk(record)
    requires forall t, n :: Listed(record, t, n) ==> BarFree(MergedEdge(root, t, n, dir))
    ensures var w := Merge(v, root, record, dir);
            && WellFormed(w) && w.ready == v.ready + {root} && AllBarFree(w)
            && Drew(v, w.(ready := v.ready), EdgesOf(root, record, dir))
  {
    var u := UpsertNode(v, root, "");
    UpsertKeeps(v, root, Edge("", root, root));
    assert Drew(v, u, {});
    ListedEdges(root, record, dir);
    DrewRecord(v, u, root, record.buckets, Entries(record.keys), dir);
    MergeKeeps(v, root, record, dir);
  }

  // ---- which ids survive a merge -------------------------------------------

  /** Drawing this bucket erases no edge of this id. */
  ghost predicate Quiet(root: string, etype: string, nbrs: seq<string>, id: string) {
    etype == RELATED ||
    forall n <- nbrs :: id != EdgeId(Edge(RELATED, root, n)) && id != EdgeId(Edge(RELATED, n, root))
  }

  lemma OneKeepsId(v: View, root: string, etype: string, nbr: string, dir: Dir, id: string)
    requires id in v.edges && Quiet(root, etype, [nbr], id)
    ensures var w := MergeOne(v, root, etype, nbr, dir); id in w.edges && w.edges[id] == v.edges[id]
  {
    assert nbr in [nbr];
  }

  lemma {:induction false} BucketKeepsId(v: View, root: string, etype: string, nbrs: seq<string>, dir: Dir, id: string)
    requires id in v.edges && Quiet(root, etype, nbrs, id)
    ensures var w := MergeBucket(v, root, etype, nbrs, dir); id in w.edges && w.edges[id] == v.edges[id]
  {
    if nbrs != [] {
      var rest, last := nbrs[..|nbrs| - 1], nbrs[|nbrs| - 1];
      assert last in nbrs;
      BucketKeepsId(v, root, etype, rest, dir, id);
      OneKeepsId(MergeBucket(v, root, etype, rest, dir), root, etype, last, dir, id);
    }
  }

  /** A `related` bucket leaves all its edges drawn. */
  lemma {:induction false} RelatedBucketDraws(v: View, root: string, nbrs: seq<string>, dir: Dir, nbr: string)
    requires nbr in nbrs
    ensures EdgeId(MergedEdge(root, RELATED, nbr, dir)) in MergeBucket(v, root, RELATED, nbrs, dir).edges
  {
    var rest, last := nbrs[..|nbrs| - 1], nbrs[|nbrs| - 1];
    if nbr in rest {
      RelatedBucketDraws(v, root, rest, dir, nbr);
      OneKeepsId(MergeBucket(v, root, RELATED, rest, dir), root, RELATED, last, dir, EdgeId(MergedEdge(root, RELATED, nbr, dir)));
    } else {
      assert nbrs == rest + [last];
    }
  }

  /** From position `i` on, no bucket erases this id. */
  ghost predicate QuietFrom(root: string, buckets: map<string, seq<string>>, order: seq<string>, i: nat, id: string)
    requires forall t <- order :: t in buckets
  {
    forall j :: i <= j < |order| ==> Quiet(root, order[j], buckets[order[j]], id)
  }

  lemma {:induction false} BucketsKeepId(v: View, root: string, buckets: map<string, seq<string>>, order: seq<string>, dir: Dir, id: string)
    requires (forall t <- order :: t in buckets) && id in v.edges && QuietFrom(root, buckets, order, 0, id)
    ensures var w := MergeBuckets(v, root, buckets, order, dir); id in w.edges && w.edges[id] == v.edges[id]
  {
    if order != [] {
      var rest, t := order[..|order| - 1], order[|order| - 1];
      BucketsKeepId(v, root, buckets, rest, dir, id);
      BucketKeepsId(MergeBuckets(v, root, buckets, rest, dir), root, t, buckets[t], dir, id);
    }
  }

  lemma {:induction false} BucketsDrawRelated(v: View, root: string, buckets: map<string, seq<string>>, order: seq<string>, dir: Dir, i: nat, nbr: string)
    requires (forall t <- order :: t in buckets) && i < |order| && order[i] == RELATED && nbr in buckets[RELATED]
    requires QuietFrom(root, buckets, order, i + 1, EdgeId(MergedEdge(root, RELATED, nbr, dir)))
    ensures EdgeId(MergedEdge(root, RELATED, nbr, dir)) in MergeBuckets(v, root, buckets, order, dir).edges
  {
    var rest, t, id := order[..|order| - 1], order[|order| - 1], EdgeId(MergedEdge(root, RELATED, nbr, dir));
    var before := MergeBuckets(v, root, buckets, rest, dir);
    if i == |order| - 1 {
      RelatedBucketDraws(before, root, buckets[t], dir, nbr);
    } else {
      BucketsDrawRelated(v, root, buckets, rest, dir, i, nbr);
      BucketKeepsId(before, root, t, buckets[t], dir, id);
    }
  }

  /** What a record of server edges may erase is a pair at the root. */
  ghost predicate RecordOf(s: Server, root: string, record: Record, dir: Dir) {
    RecordOk(record) && forall t, n :: Listed(record, t, n) ==> MergedEdge(root, t, n, dir) in s.edges
  }

  /** The bucket at `j` is quiet for a server edge unless it holds one that joins its ends. */
  lemma QuietUnlessJoined(s: Server, root: string, record: Record, dir: Dir, etype: string, f: Edge)
    requires ServerValid(s) && RecordOf(s, root, record, dir) && etype in record.buckets && BarFree(f)
    requires f.etype == RELATED && etype != RELATED ==>
               forall n :: Listed(record, etype, n) ==> f != Edge(RELATED, root, n) && f != Edge(RELATED, n, root)
    ensures Quiet(root, etype, record.buckets[etype], EdgeId(f))
  {
    if etype != RELATED {
      forall n | n in record.buckets[etype]
        ensures EdgeId(f) != EdgeId(Edge(RELATED, root, n)) && EdgeId(f) != EdgeId(Edge(RELATED, n, root))
      {
        assert Listed(record, etype, n);
        if EdgeId(f) == EdgeId(Edge(RELATED, root, n)) { BarFreeIdIsUnique(f, Edge(RELATED, root, n)); }
        if EdgeId(f) == EdgeId(Edge(RELATED, n, root)) { BarFreeIdIsUnique(f, Edge(RELATED, n, root)); }
      }
    }
  }

  /** A merge keeps every edge that is typed or not at the root. */
  lemma MergeKeepsOthers(v: View, s: Server, root: string, record: Record, dir: Dir, f: Edge)
    requires ServerValid(s) && RecordOf(s, root, record, dir) && BarFree(f) && EdgeId(f) in v.edges
    requires f.etype != RELATED || !Touches(f, root)
    ensures var w := Merge(v, root, record, dir); EdgeId(f) in w.edges && w.edges[EdgeId(f)] == v.edges[EdgeId(f)]
  {
    var order := Entries(record.keys);
    forall j | 0 <= j < |order| ensures Quiet(root, order[j], record.buckets[order[j]], EdgeId(f)) {
      assert order[j] in order;
      QuietUnlessJoined(s, root, record, dir, order[j], f);
    }
    BucketsKeepId(UpsertNode(v, root, ""), root, record.buckets, order, dir, EdgeId(f));
  }

  /** A listed `related` edge is drawn and stays, if no edge of the record from other than an
      array index joins its ends. */
  lemma MergeDrawsRelated(v: View, s: Server, root: string, record: Record, dir: Dir, nbr: string)
    requires ServerValid(s) && RecordOf(s, root, record, dir) && Listed(record, RELATED, nbr)
    requires forall t :: Listed(record, t, nbr) ==> t == RELATED || IsArrayIndex(t)
    ensures EdgeId(MergedEdge(root, RELATED, nbr, dir)) in Merge(v, root, record, dir).edges
  {
    var order, f := Entries(record.keys), MergedEdge(root, RELATED, nbr, dir);
    assert RELATED in record.keys && RELATED in order && f in s.edges;
    assert !IsArrayIndex(RELATED) by { assert RELATED[0] == 'r'; }
    var i :| 0 <= i < |order| && order[i] == RELATED;
    forall j | i < j < |order| ensures Quiet(root, order[j], record.buckets[order[j]], EdgeId(f)) {
      assert order[j] in order;
      IndicesComeFirst(record.keys, i, j);
      if order[j] != RELATED {
        forall n | Listed(record, order[j], n) ensures f != Edge(RELATED, root, n) && f != Edge(RELATED, n, root) {}
        QuietUnlessJoined(s, root, record, dir, order[j], f);
      }
    }
    BucketsDrawRelated(UpsertNode(v, root, ""), root, record.buckets, order, dir, i, nbr);
  }

  /** A `related` edge out of the root survives the merge of the edges into it, unless one of
      them comes from its other end. */
  lemma MergeInKeepsOut(v: View, s: Server, root: string, record: Record, r: Edge)
    requires ServerValid(s) && RecordOf(s, root, record, In) && r in s.edges && r.src == root && EdgeId(r) in v.edges
    requires forall t, n :: Listed(record, t, n) ==> n != root
    requires forall t :: Listed(record, t, r.dst) ==> t == RELATED
    ensures EdgeId(r) in Merge(v, root, record, In).edges
  {
    var order := Entries(record.keys);
    forall j | 0 <= j < |order| ensures Quiet(root, order[j], record.buckets[order[j]], EdgeId(r)) {
      assert order[j] in order;
      QuietUnlessJoined(s, root, record, In, order[j], r);
    }
    BucketsKeepId(UpsertNode(v, root, ""), root, record.buckets, order, In, EdgeId(r));
  }

  // ---- every step keeps the invariant --------------------------------------

  /** Merging one record of edges the server has keeps the canvas sound and draws the typed ones. */
  lemma MergeIsTruthful(v: View, s: Server, root: string, record: Record, dir: Dir)
    requires ServerValid(s) && Sound(v, s) && RecordOf(s, root, record, dir)
    ensures var w := Merge(v, root, record, dir);
            && Sound(w, s) && w.ready == v.ready + {root}
            && (forall t, n :: Listed(record, t, n) && t != RELATED ==> EdgeId(MergedEdge(root, t, n, dir)) in w.edges)
  {
    MergeDraws(v, root, record, dir);
    ListedEdges(root, record, dir);
    assert forall e <- EdgesOf(root, record, dir) :: e in s.edges;
  }

  /** What an answer that is true makes of the two records. */
  lemma RecordsOfTruth(s: Server, root: string, infos: seq<EdgeInfo>)
    requires ServerValid(s) && AnswersTruly(s, root, infos)
    ensures var c := ClassifyAll(root, infos);
            && RecordOf(s, root, c.outs, Out) && RecordOf(s, root, c.ins, In)
            && (forall t, n :: Listed(c.outs, t, n) <==> Edge(t, root, n) in s.edges)
            && (forall t, n :: Listed(c.ins, t, n) <==> n != root && Edge(t, n, root) in s.edges)
  {
    var c := ClassifyAll(root, infos);
    ClassificationIsExact(root, infos);
    ScannedRecordsOk(root, infos);
    forall e | Touches(e, root) ensures Reported(infos, e) <==> e in s.edges {}
    assert forall t, n :: Listed(c.outs, t, n) ==> MergedEdge(root, t, n, Out) == Edge(t, root, n);
    assert forall t, n :: Listed(c.ins, t, n) ==> MergedEdge(root, t, n, In) == Edge(t, n, root);
  }

  /** The two merges of an expansion keep every edge that is not at the root. */
  lemma MergedKeepsOthers(v: View, s: Server, root: string, infos: seq<EdgeInfo>, f: Edge)
    requires ServerValid(s) && AnswersTruly(s, root, infos) && BarFree(f) && EdgeId(f) in v.edges
    requires f.etype != RELATED || !Touches(f, root)
    ensures var w := Merged(v, root, infos); EdgeId(f) in w.edges && w.edges[EdgeId(f)] == v.edges[EdgeId(f)]
  {
    var c := ClassifyAll(root, infos);
    RecordsOfTruth(s, root, infos);
    MergeKeepsOthers(v, s, root, c.outs, Out, f);
    MergeKeepsOthers(Merge(v, root, c.outs, Out), s, root, c.ins, In, f);
  }

  /** They draw every typed edge of the root. */
  lemma MergedDrawsTyped(v: View, s: Server, root: string, infos: seq<EdgeInfo>, e: Edge)
    requires ServerValid(s) && AnswersTruly(s, root, infos) && WellFormed(v) && AllBarFree(v)
    requires e in s.edges && Touches(e, root) && e.etype != RELATED
    ensures EdgeId(e) in Merged(v, root, infos).edges
  {
    var c := ClassifyAll(root, infos);
    RecordsOfTruth(s, root, infos);
    var v1 := Merge(v, root, c.outs, Out);
    MergeDraws(v, root, c.outs, Out);
    MergeDraws(v1, root, c.ins, In);
    if e.src == root {
      ListedEdges(root, c.outs, Out);
      assert Listed(c.outs, e.etype, e.dst) && e == MergedEdge(root, e.etype, e.dst, Out);
      MergeKeepsOthers(v1, s, root, c.ins, In, e);
    } else {
      ListedEdges(root, c.ins, In);
      assert Listed(c.ins, e.etype, e.src) && e == MergedEdge(root, e.etype, e.src, In);
    }
  }

  /** And every `related` edge of the root that no edge of the server erases. */
  lemma MergedDrawsRelated(v: View, s: Server, root: string, infos: seq<EdgeInfo>, r: Edge)
    requires ServerValid(s) && AnswersTruly(s, root, infos)
    requires r in s.edges && Touches(r, root) && r.etype == RELATED && forall t <- s.edges :: !Erases(t, r)
    ensures EdgeId(r) in Merged(v, root, infos).edges
  {
    var c := ClassifyAll(root, infos);
    RecordsOfTruth(s, root, infos);
    var v1 := Merge(v, root, c.outs, Out);
    if r.src == root {
      assert r == MergedEdge(root, RELATED, r.dst, Out);
      forall t | Listed(c.outs, t, r.dst) ensures t == RELATED || IsArrayIndex(t) {
        assert !Erases(Edge(t, root, r.dst), r);
      }
      MergeDrawsRelated(v, s, root, c.outs, Out, r.dst);
      forall t | Listed(c.ins, t, r.dst) ensures t == RELATED {
        assert !Erases(Edge(t, r.dst, root), r);
      }
      MergeInKeepsOut(v1, s, root, c.ins, r);
    } else {
      assert r == MergedEdge(root, RELATED, r.src, In);
      forall t | Listed(c.ins, t, r.src) ensures t == RELATED || IsArrayIndex(t) {
        assert !Erases(Edge(t, r.src, root), r);
      }
      MergeDrawsRelated(v1, s, root, c.ins, In, r.src);
    }
  }

  /** Every claimed edge of the root is drawn with the server's provenance. */
  ghost predicate RootKnown(w: View, s: Server, root: string, ready: set<string>, full: bool) {
    forall e <- s.edges :: Touches(e, root) && (e.etype != RELATED || Claimed(e, ready, full)) ==>
      EdgeId(e) in w.edges && w.edges[EdgeId(e)] == CanvasEdge(e, Some(s.edges[e]))
  }

  lemma MergedIsSound(v: View, s: Server, root: string, infos: seq<EdgeInfo>)
    requires ServerValid(s) && Sound(v, s) && AnswersTruly(s, root, infos)
    ensures var w := Merged(v, root, infos); Sound(w, s) && w.ready == v.ready + {root}
  {
    var c := ClassifyAll(root, infos);
    RecordsOfTruth(s, root, infos);
    MergeIsTruthful(v, s, root, c.outs, Out);
    MergeIsTruthful(Merge(v, root, c.outs, Out), s, root, c.ins, In);
  }

  lemma DrawKnowsRoot(v: View, s: Server, root: string, infos: seq<EdgeInfo>, full: bool)
    requires ServerValid(s) && Sound(v, s) && AnswersTruly(s, root, infos)
    requires full ==> ClearAt(s, v.ready + {root}, root)
    ensures var w := Draw(v, root, infos);
            && Sound(w, s) && w.ready == v.ready + {root} && RootKnown(w, s, root, w.ready, full)
            && (forall e <- s.edges :: !Touches(e, root) && EdgeId(e) in v.edges ==> EdgeId(e) in w.edges)
  {
    var flags := ClassifyAll(root, infos).provenance;
    var u := Merged(v, root, infos);
    var w := SetFlags(u, flags);
    FlagsAreExact(root, infos);
    MergedIsSound(v, s, root, infos);
    FlaggedTruthfully(s, root, infos, flags, u, w);
    SetFlagsEffect(u, flags);
    forall e | e in s.edges && Touches(e, root) && (e.etype != RELATED || Claimed(e, w.ready, full))
      ensures EdgeId(e) in w.edges && w.edges[EdgeId(e)] == CanvasEdge(e, Some(s.edges[e]))
    {
      if e.etype != RELATED { MergedDrawsTyped(v, s, root, infos, e); } else { MergedDrawsRelated(v, s, root, infos, e); }
      BarFreeIdIsUnique(e, u.edges[EdgeId(e)].edge);
      assert Reported(infos, e);
      assert HasFlag(flags, EdgeId(e));
    }
    forall e | e in s.edges && !Touches(e, root) && EdgeId(e) in v.edges ensures EdgeId(e) in w.edges {
      MergedKeepsOthers(v, s, root, infos, e);
    }
  }

  /** Some edge at the root has a type every object inherits: it cannot be expanded. */
  ghost predicate TripsAt(s: Server, root: string) {
    exists e <- s.edges :: Touches(e, root) && e.etype in INHERITED
  }

  lemma ThrowsIffTrips(s: Server, root: string, infos: seq<EdgeInfo>)
    requires ServerValid(s) && AnswersTruly(s, root, infos)
    ensures ScanThrows(root, infos) <==> TripsAt(s, root)
  {
    ThrowsIffInherited(root, infos);
    if TripsAt(s, root) {
      var e :| e in s.edges && Touches(e, root) && e.etype in INHERITED;
      assert Reported(infos, e);
      var info :| info in infos && info.edge == e;
    }
  }

  /** An expansion on a truthful answer: the canvas stays in agreement whether or not it
      completes. It completes, and the root is expanded and known, if and only if no edge at
      the root has an inherited type. */
  lemma ExpandSimulates(v: View, s: Server, root: string, a: Answers, full: bool)
    requires ServerValid(s) && Simulates(v, s, full) && AnswersTruly(s, root, a.infos)
    requires full && !TripsAt(s, root) ==> ClearAt(s, v.ready + {root}, root)
    ensures var w := Expand(v, root, a);
            && Simulates(w, s, full)
            && w.ready == (if TripsAt(s, root) then v.ready - {root} else v.ready + {root})
            && (!TripsAt(s, root) ==> RootKnown(w, s, root, w.ready, full))
  {
    var v1 := FromNeighborhood(v, root, a.columns, a.rows);
    FromNeighborhoodKeeps(v, root, a.columns, a.rows);
    ThrowsIffTrips(s, root, a.infos);
    if !TripsAt(s, root) {
      assert v1.ready + {root} == v.ready + {root};
      DrawKnowsRoot(v1, s, root, a.infos, full);
      var v2 := Draw(v1, root, a.infos);
      forall e | e in s.edges && Claimed(e, v2.ready, full) ensures EdgeId(e) in v2.edges {
        if !Touches(e, root) { assert Claimed(e, v.ready, full); }
      }
      FillKeepsSimulation(v2, s, MissingInfo(v2, root) * a.labels.Keys, a.labels, full);
    }
  }

  lemma FillKeepsSimulation(v: View, s: Server, done: set<string>, labels: map<string, string>, full: bool)
    requires Simulates(v, s, full) && done <= labels.Keys
    ensures var w := Fill(v, done, labels); Simulates(w, s, full) && w.edges == v.edges && w.ready == v.ready
  {
    assert Fill(v, done, labels).nodes.Keys == v.nodes.Keys;
  }

  /** Setting the reported flags leaves every canvas edge truthful. */
  lemma FlaggedTruthfully(s: Server, root: string, infos: seq<EdgeInfo>, flags: seq<Provenance>, v: View, w: View)
    requires ServerValid(s) && AnswersTruly(s, root, infos) && FlagsExact(root, infos, flags)
    requires Sound(v, s) && w == SetFlags(v, flags)
    ensures Sound(w, s) && w.edges.Keys == v.edges.Keys
    ensures forall id <- w.edges :: HasFlag(flags, id) ==>
              w.edges[id].edge in s.edges && w.edges[id].derived == Some(s.edges[w.edges[id].edge])
  {
    SetFlagsEffect(v, flags);
    forall id | id in w.edges && HasFlag(flags, id)
      ensures w.edges[id].derived == Some(s.edges[w.edges[id].edge])
    {
      var p :| p in flags && p.id == id && w.edges[id].derived == Some(p.derived);
      assert Backed(root, infos, p);
      var info :| info in infos && EdgeId(info.edge) == id && info.derived == p.derived;
      BarFreeIdIsUnique(w.edges[id].edge, info.edge);
    }
  }

  /** A new edge on the server, and the event on the canvas: nothing drawn becomes untrue. */
  lemma InsertEdgeSound(v: View, s: Server, e: Edge, derived: bool)
    requires ServerValid(s) && Sound(v, s) && e !in s.edges
    ensures Sound(ApplyLive(v, EdgeInserted(e)), s.(edges := s.edges[e := derived]))
  {
    var w, s' := ApplyLive(v, EdgeInserted(e)), s.(edges := s.edges[e := derived]);
    ApplyKeeps(v, EdgeInserted(e));
    forall id | id in w.edges ensures Truthful(w.edges[id], s') {
      if id in v.edges { assert Truthful(v.edges[id], s); }
    }
  }

  /** And nothing claimed goes missing. */
  lemma InsertEdgeDrawn(v: View, s: Server, e: Edge, derived: bool, full: bool)
    requires Simulates(v, s, full) && e !in s.edges
    ensures var w := ApplyLive(v, EdgeInserted(e));
            forall f <- s.edges[e := derived] :: Claimed(f, w.ready, full) ==> EdgeId(f) in w.edges
  {
    var w := ApplyLive(v, EdgeInserted(e));
    assert w.ready == v.ready && v.edges.Keys <= w.edges.Keys;
    forall f | f in s.edges[e := derived] && Claimed(f, w.ready, full) ensures EdgeId(f) in w.edges {
      if f in s.edges { assert EdgeId(f) in v.edges; }
    }
  }

  lemma InsertEdgeKeepsInv(y: System, e: Edge, derived: bool, full: bool)
    requires Inv(y, full) && Legal(y, InsertEdge(e, derived))
    ensures Inv(Next(y, InsertEdge(e, derived)), full)
  {
    InsertEdgeSound(y.view, y.server, e, derived);
    InsertEdgeDrawn(y.view, y.server, e, derived, full);
  }

  lemma DeleteEdgeKeepsInv(y: System, e: Edge, full: bool)
    requires Inv(y, full) && e in y.server.edges
    ensures Inv(Next(y, DeleteEdge(e)), full)
  {
    var w := Next(y, DeleteEdge(e)).view;
    ApplyKeeps(y.view, EdgeDeleted(e));
    forall id | id in w.edges ensures w.edges[id].edge != e {}
    forall f | f in y.server.edges && f != e && EdgeId(f) in y.view.edges ensures EdgeId(f) in w.edges {
      if EdgeId(f) == EdgeId(e) { BarFreeIdIsUnique(e, f); }
    }
  }

  lemma DeleteNodeKeepsInv(y: System, key: string, full: bool)
    requires Inv(y, full) && key in y.server.nodes
    ensures Inv(Next(y, DeleteNode(key)), full)
  {
    var y' := Next(y, DeleteNode(key));
    ApplyKeeps(y.view, NodeDeleted(key));
    forall e | e in y'.server.edges && Claimed(e, y'.view.ready, full) ensures EdgeId(e) in y'.view.edges {
      assert Claimed(e, y.view.ready, full) && EdgeId(e) in y.view.edges;
      BarFreeIdIsUnique(e, y.view.edges[EdgeId(e)].edge);
    }
  }

  /** A step that leaves edges and roots alone keeps the simulation. */
  lemma SameEdgesSimulate(v: View, w: View, s: Server, full: bool)
    requires Simulates(v, s, full) && WellFormed(w) && w.edges == v.edges && w.ready == v.ready
    ensures Simulates(w, s, full)
  {
  }

  /** Events other than those of edges and deletions leave edges and roots alone. */
  lemma OtherEventSimulates(v: View, s: Server, ev: Event, full: bool)
    requires Simulates(v, s, full) && !ev.EdgeInserted? && !ev.EdgeDeleted? && !ev.NodeDeleted?
    ensures Simulates(ApplyLive(v, ev), s, full)
  {
    ApplyKeeps(v, ev);
    SameEdgesSimulate(v, ApplyLive(v, ev), s, full);
  }

  lemma InsertNodeKeepsInv(y: System, key: string, lab: string, full: bool)
    requires Inv(y, full) && key !in y.server.nodes
    ensures Inv(Next(y, InsertNode(key, lab)), full)
  {
    OtherEventSimulates(y.view, y.server, NodeInserted(lab, key), full);
    var w, s := ApplyLive(y.view, NodeInserted(lab, key)), Next(y, InsertNode(key, lab)).server;
    assert s.edges == y.server.edges && ServerValid(s);
    assert forall id <- w.edges :: Truthful(w.edges[id], y.server);
  }

  /** An expansion that completes meets no `related` edge that another erases. */
  ghost predicate StepClear(y: System, step: Step) {
    step.ExpandRoot? && !TripsAt(y.server, step.root) ==> ClearAt(y.server, y.view.ready + {step.root}, step.root)
  }

  lemma StepKeepsInv(y: System, step: Step, full: bool)
    requires Inv(y, full) && Legal(y, step) && (full ==> StepClear(y, step))
    ensures Inv(Next(y, step), full)
  {
    var v, s := y.view, y.server;
    match step
    case InsertNode(key, lab) => InsertNodeKeepsInv(y, key, lab, full);
    case InsertEdge(e, derived) => InsertEdgeKeepsInv(y, e, derived, full);
    case DeleteEdge(e) => DeleteEdgeKeepsInv(y, e, full);
    case DeleteNode(key) => DeleteNodeKeepsInv(y, key, full);
    case OtherEvent(ev) => OtherEventSimulates(v, s, ev, full);
    case ExpandRoot(root, a) => ExpandSimulates(v, s, root, a, full);
    case RunQuery(columns, rows) =>
      MergeQueryGraphKeeps(v, columns, rows);
      SameEdgesSimulate(v, Next(y, step).view, s, full);
    case _ => SameEdgesSimulate(v, Next(y, step).view, s, full);
  }

  /** So does every expansion of the run. */
  ghost predicate RunClear(y: System, steps: seq<Step>) {
    steps == [] ||
    var before := Run(y, steps[..|steps| - 1]);
    RunClear(y, steps[..|steps| - 1]) && (before.Some? ==> StepClear(before.value, steps[|steps| - 1]))
  }

  /** Over every run from an empty canvas beside any server: the canvas never shows an edge
      the server lacks, never a wrong provenance, and between expanded nodes it shows exactly
      the server's typed edges; and exactly all its edges, if no completed expansion met a
      `related` edge to an expanded node that another edge erases. */
  lemma {:induction false} EveryRunAgrees(server: Server, steps: seq<Step>, full: bool)
    requires ServerValid(server) && (full ==> RunClear(System(server, EMPTY_VIEW), steps))
    ensures var y := Run(System(server, EMPTY_VIEW), steps); y.Some? ==> Inv(y.value, full) && Agrees(y.value, full)
  {
    if steps == [] {
      InvMeansAgrees(System(server, EMPTY_VIEW), full);
    } else {
      EveryRunAgrees(server, steps[..|steps| - 1], full);
      var before := Run(System(server, EMPTY_VIEW), steps[..|steps| - 1]);
      if before.Some? && Legal(before.value, steps[|steps| - 1]) {
        StepKeepsInv(before.value, steps[|steps| - 1], full);
        InvMeansAgrees(Next(before.value, steps[|steps| - 1]), full);
      }
    }
  }

  // ---- an edge that is not drawn leaves its mark ---------------------------

  /** The step clears no mark of this node: it is no expansion, and neither fills in this
      node's details nor deletes it. */
  predicate LeavesMark(step: Step, k: string) {
    !step.ExpandRoot? && !(step.FillInfo? && step.key == k) && !(step.DeleteNode? && step.key == k)
  }

  lemma MarkStays(y: System, step: Step, k: string)
    requires Legal(y, step) && LeavesMark(step, k) && k in y.view.nodes && k in y.view.dirty
    ensures k in Next(y, step).view.nodes && k in Next(y, step).view.dirty
  {
    if step.RunQuery? { MergeQueryGraphKeeps(y.view, step.columns, step.rows); }
  }

  lemma DrawnStays(y: System, step: Step, e: Edge)
    requires Inv(y, false) && Legal(y, step) && BarFree(e) && EdgeId(e) in y.view.edges && step != DeleteEdge(e)
    requires LeavesMark(step, e.src) && LeavesMark(step, e.dst)
    ensures EdgeId(e) in Next(y, step).view.edges
  {
    BarFreeIdIsUnique(e, y.view.edges[EdgeId(e)].edge);
    if step.RunQuery? { MergeQueryGraphKeeps(y.view, step.columns, step.rows); }
    if step.DeleteEdge? && EdgeId(step.edge) == EdgeId(e) { BarFreeIdIsUnique(e, step.edge); }
  }

  /** The edge is on the canvas, or every end that was visible on `v` is and is dirty. */
  ghost predicate Traced(v: View, w: View, e: Edge) {
    EdgeId(e) in w.edges || forall k :: Touches(e, k) && k in v.nodes ==> k in w.nodes && k in w.dirty
  }

  lemma StepKeepsTrace(y: System, step: Step, v: View, e: Edge)
    requires Inv(y, false) && Legal(y, step) && BarFree(e) && Traced(v, y.view, e)
    requires LeavesMark(step, e.src) && LeavesMark(step, e.dst) && step != DeleteEdge(e)
    ensures Traced(v, Next(y, step).view, e)
  {
    if EdgeId(e) in y.view.edges {
      DrawnStays(y, step, e);
    } else {
      forall k | Touches(e, k) && k in v.nodes ensures k in Next(y, step).view.nodes && k in Next(y, step).view.dirty {
        MarkStays(y, step, k);
      }
    }
  }

  /** An edge inserted on the server is drawn, or its visible ends are marked; and so it stays,
      through any steps but an expansion, the details of an end, and the deletion of the edge
      or an end. */
  lemma {:induction false} InsertedEdgeLeavesTrace(y: System, e: Edge, derived: bool, steps: seq<Step>)
    requires Inv(y, false) && Legal(y, InsertEdge(e, derived))
    requires forall step <- steps :: LeavesMark(step, e.src) && LeavesMark(step, e.dst) && step != DeleteEdge(e)
    ensures var r := Run(Next(y, InsertEdge(e, derived)), steps);
            r.Some? ==> Inv(r.value, false) && Traced(y.view, r.value.view, e)
  {
    var y1 := Next(y, InsertEdge(e, derived));
    if steps == [] {
      StepKeepsInv(y, InsertEdge(e, derived), false);
      InsertTraces(y.view, e);
    } else {
      var rest, last := steps[..|steps| - 1], steps[|steps| - 1];
      InsertedEdgeLeavesTrace(y, e, derived, rest);
      assert last in steps;
      var before := Run(y1, rest);
      if before.Some? && Legal(before.value, last) {
        StepKeepsInv(before.value, last, false);
        StepKeepsTrace(before.value, last, y.view, e);
      }
    }
  }

  lemma InsertTraces(v: View, e: Edge)
    requires WellFormed(v)
    ensures Traced(v, ApplyLive(v, EdgeInserted(e)), e)
  {
  }

  /** Fetching a node's details clears its mark without fetching its edges. */
  lemma DetailsClearMark(v: View, k: string, lab: string)
    requires k in v.nodes
    ensures var w := ApplyNodeInfo(v, k, lab);
            && k !in w.dirty && w.edges == v.edges && w.ready == v.ready && w.dirty == v.dirty - {k}
            && w.nodes.Keys == v.nodes.Keys && w.nodes[k] == (if lab != "" then lab else v.nodes[k])
            && forall j <- v.nodes :: j != k ==> w.nodes[j] == v.nodes[j]
  {
  }
}
