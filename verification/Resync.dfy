/** Recovering from changes no event announced (`resyncNeighborhoods`, ui/src/live.ts): every
    visible node is expanded again. The canvas may stand beside any server by then; what a
    resync repairs, and what it cannot, is stated for all of them. */
module Resync {
  import opened Common
  import opened EdgeIds
  import opened Canvas
  import opened Classify
  import opened LiveView

  /** The edge is drawn with the server's provenance. */
  ghost predicate Drawn(v: View, s: Server, e: Edge)
    requires e in s.edges
  {
    EdgeId(e) in v.edges && v.edges[EdgeId(e)] == CanvasEdge(e, Some(s.edges[e]))
  }

  /** A canvas that was in order beside some server. */
  ghost predicate InOrder(v: View) {
    WellFormed(v) && AllBarFree(v)
  }

  /** A typed edge the server lacks is on both canvases or on neither. */
  ghost predicate SameStale(v: View, w: View, s: Server) {
    forall e: Edge :: e.etype != RELATED && e !in s.edges ==> (OnCanvas(w, e) <==> OnCanvas(v, e))
  }

  // ---- one expansion beside any server -------------------------------------

  /** The flag for a server edge is the server's. */
  lemma FlagIsServers(s: Server, root: string, infos: seq<EdgeInfo>, e: Edge, p: Provenance)
    requires ServerValid(s) && AnswersTruly(s, root, infos) && BarFree(e)
    requires p in ClassifyAll(root, infos).provenance && p.id == EdgeId(e)
    ensures Touches(e, root) && e in s.edges && p.derived == s.edges[e]
  {
    FlagsAreExact(root, infos);
    assert Backed(root, infos, p);
    var info :| info in infos && Touches(info.edge, root) && EdgeId(info.edge) == p.id && info.derived == p.derived;
    BarFreeIdIsUnique(e, info.edge);
  }

  /** Two canvases in order agree on what an id means. */
  lemma IdMeansEdge(v: View, e: Edge)
    requires InOrder(v) && EdgeId(e) in v.edges && BarFree(e)
    ensures v.edges[EdgeId(e)].edge == e
  {
    BarFreeIdIsUnique(e, v.edges[EdgeId(e)].edge);
  }

  lemma MergedInOrder(v: View, s: Server, root: string, infos: seq<EdgeInfo>)
    requires ServerValid(s) && AnswersTruly(s, root, infos) && InOrder(v)
    ensures var w := Merged(v, root, infos);
            && InOrder(w) && w.ready == v.ready + {root}
            && (forall id <- w.edges :: (id in v.edges && w.edges[id].edge == v.edges[id].edge) || w.edges[id].edge in s.edges)
  {
    var c := ClassifyAll(root, infos);
    RecordsOfTruth(s, root, infos);
    var v1 := Merge(v, root, c.outs, Out);
    MergeDraws(v, root, c.outs, Out);
    ListedEdges(root, c.outs, Out);
    MergeDraws(v1, root, c.ins, In);
    ListedEdges(root, c.ins, In);
  }

  lemma DrawInOrder(v: View, s: Server, root: string, infos: seq<EdgeInfo>)
    requires ServerValid(s) && AnswersTruly(s, root, infos) && InOrder(v)
    ensures var w := Draw(v, root, infos); InOrder(w) && w.ready == v.ready + {root} && SameStale(v, w, s)
  {
    var u, w := Merged(v, root, infos), Draw(v, root, infos);
    MergedInOrder(v, s, root, infos);
    SetFlagsEffect(u, ClassifyAll(root, infos).provenance);
    forall e: Edge | e.etype != RELATED && e !in s.edges ensures OnCanvas(w, e) <==> OnCanvas(v, e) {
      if OnCanvas(v, e) { MergedKeepsOthers(v, s, root, infos, e); }
    }
  }

  /** Every typed server edge at the root is drawn, and none drawn before is spoilt. */
  lemma DrawDraws(v: View, s: Server, root: string, infos: seq<EdgeInfo>, e: Edge)
    requires ServerValid(s) && AnswersTruly(s, root, infos) && InOrder(v)
    requires e in s.edges && e.etype != RELATED && (Touches(e, root) || Drawn(v, s, e))
    ensures Drawn(Draw(v, root, infos), s, e)
  {
    var id, flags := EdgeId(e), ClassifyAll(root, infos).provenance;
    var u, w := Merged(v, root, infos), Draw(v, root, infos);
    MergedInOrder(v, s, root, infos);
    SetFlagsEffect(u, flags);
    FlagsAreExact(root, infos);
    if Touches(e, root) {
      MergedDrawsTyped(v, s, root, infos, e);
      IdMeansEdge(u, e);
      assert Reported(infos, e) && HasFlag(flags, id);
      var p :| p in flags && p.id == id && w.edges[id].derived == Some(p.derived);
      FlagIsServers(s, root, infos, e, p);
    } else {
      MergedKeepsOthers(v, s, root, infos, e);
      if HasFlag(flags, id) {
        var p :| p in flags && p.id == id;
        FlagIsServers(s, root, infos, e, p);
      }
    }
  }

  lemma ExpandInOrder(v: View, s: Server, root: string, a: Answers)
    requires ServerValid(s) && AnswersTruly(s, root, a.infos) && InOrder(v)
    ensures var w := Expand(v, root, a);
            && InOrder(w) && SameStale(v, w, s)
            && w.ready == (if TripsAt(s, root) then v.ready - {root} else v.ready + {root})
            && w.edges == (if TripsAt(s, root) then v.edges else Draw(FromNeighborhood(v, root, a.columns, a.rows), root, a.infos).edges)
  {
    var v1 := FromNeighborhood(v, root, a.columns, a.rows);
    FromNeighborhoodKeeps(v, root, a.columns, a.rows);
    ThrowsIffTrips(s, root, a.infos);
    ExpandKeeps(v, root, a);
    DrawInOrder(v1, s, root, a.infos);
  }

  lemma ExpandDraws(v: View, s: Server, root: string, a: Answers, e: Edge)
    requires ServerValid(s) && AnswersTruly(s, root, a.infos) && InOrder(v) && e in s.edges && e.etype != RELATED
    requires (Touches(e, root) && !TripsAt(s, root)) || Drawn(v, s, e)
    ensures Drawn(Expand(v, root, a), s, e)
  {
    var v1 := FromNeighborhood(v, root, a.columns, a.rows);
    FromNeighborhoodKeeps(v, root, a.columns, a.rows);
    ExpandInOrder(v, s, root, a);
    if !TripsAt(s, root) { DrawDraws(v1, s, root, a.infos, e); }
  }

  // ---- the whole resync ----------------------------------------------------

  /** The canvas before and after each expansion, in the order in which they happen to finish. */
  ghost predicate Trace(vs: seq<View>, s: Server, roots: seq<string>, answers: seq<Answers>) {
    && |roots| == |answers| && |vs| == |roots| + 1
    && forall i :: 0 <= i < |roots| ==> StepAt(vs[i], vs[i + 1], s, roots[i], answers[i])
  }

  /** One expansion on a truthful answer. */
  ghost predicate StepAt(v: View, w: View, s: Server, root: string, a: Answers) {
    AnswersTruly(s, root, a.infos) && w == Expand(v, root, a)
  }

  lemma {:induction false} TraceInOrder(vs: seq<View>, s: Server, roots: seq<string>, answers: seq<Answers>, n: nat)
    requires ServerValid(s) && Trace(vs, s, roots, answers) && InOrder(vs[0]) && n <= |roots|
    ensures InOrder(vs[n]) && SameStale(vs[0], vs[n], s)
    ensures forall k :: k in vs[n].ready <==> if k in roots[..n] then !TripsAt(s, k) else k in vs[0].ready
  {
    if n > 0 {
      TraceInOrder(vs, s, roots, answers, n - 1);
      assert StepAt(vs[n - 1], vs[n - 1 + 1], s, roots[n - 1], answers[n - 1]);
      assert roots[..n] == roots[..n - 1] + [roots[n - 1]];
      ExpandInOrder(vs[n - 1], s, roots[n - 1], answers[n - 1]);
    }
  }

  /** A typed edge at an expandable root is drawn by its expansion and stays. */
  lemma {:induction false} TraceDraws(vs: seq<View>, s: Server, roots: seq<string>, answers: seq<Answers>, e: Edge, i: nat, n: nat)
    requires ServerValid(s) && Trace(vs, s, roots, answers) && InOrder(vs[0]) && e in s.edges && e.etype != RELATED
    requires i < n <= |roots| && Touches(e, roots[i]) && !TripsAt(s, roots[i])
    ensures Drawn(vs[n], s, e)
  {
    TraceInOrder(vs, s, roots, answers, n - 1);
    if i < n - 1 { TraceDraws(vs, s, roots, answers, e, i, n - 1); }
    assert StepAt(vs[n - 1], vs[n - 1 + 1], s, roots[n - 1], answers[n - 1]);
    ExpandDraws(vs[n - 1], s, roots[n - 1], answers[n - 1], e);
  }

  /** The canvas is right about typed edges: it shows none the server lacks, and every one at
      an expanded node with the server's provenance. */
  ghost predicate TypedRight(w: View, s: Server) {
    && (forall e: Edge :: e.etype != RELATED && OnCanvas(w, e) ==> e in s.edges)
    && (forall e <- s.edges :: e.etype != RELATED && (e.src in w.ready || e.dst in w.ready) ==> Drawn(w, s, e))
  }

  /** Whatever became of the server meanwhile: a resync expands every visible node that can be
      expanded, and draws every typed edge at those nodes with its provenance. It removes no
      typed edge the server lacks, so the canvas is right again if and only if it showed none. */
  lemma ResyncRepairsIffNothingStale(v: View, vs: seq<View>, s: Server, roots: seq<string>, answers: seq<Answers>)
    requires ServerValid(s) && InOrder(v) && Trace(vs, s, roots, answers) && vs[0] == MarkAllDirty(v)
    requires forall k :: k in roots <==> k in v.nodes
    ensures var w := vs[|roots|];
            && (forall k :: k in w.ready <==> k in v.nodes && !TripsAt(s, k))
            && (forall e <- s.edges :: e.etype != RELATED && (e.src in w.ready || e.dst in w.ready) ==> Drawn(w, s, e))
            && SameStale(v, w, s)
            && (TypedRight(w, s) <==> forall e: Edge :: e.etype != RELATED && OnCanvas(v, e) ==> e in s.edges)
  {
    var w := vs[|roots|];
    TraceInOrder(vs, s, roots, answers, |roots|);
    assert roots[..|roots|] == roots;
    forall e | e in s.edges && e.etype != RELATED && (e.src in w.ready || e.dst in w.ready) ensures Drawn(w, s, e) {
      var k := if e.src in w.ready then e.src else e.dst;
      assert k in roots && !TripsAt(s, k);
      var i :| 0 <= i < |roots| && roots[i] == k;
      TraceDraws(vs, s, roots, answers, e, i, |roots|);
    }
    assert SameStale(v, w, s);
  }

  /** Every run leaves a canvas in order, so a resync may follow any of them. */
  lemma RunsAreInOrder(server: Server, steps: seq<Step>)
    requires ServerValid(server)
    ensures var y := Run(System(server, EMPTY_VIEW), steps); y.Some? ==> InOrder(y.value.view)
  {
    EveryRunAgrees(server, steps, false);
  }
}
