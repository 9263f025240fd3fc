/** The explorer canvas as a value: what one `GraphStore` holds (ui/src/store.ts),
    and what each of its operations does to it. The class in Store.dfy is proved
    against these functions; LiveView.dfy runs them against a server. */
module Canvas {
  import opened Common
  import opened EdgeIds
  import opened Records

  /** The bucket older servers collapse untyped edges into. */
  const RELATED := "related"

  /** `derived` is None while the provenance of the edge is unknown. */
  datatype CanvasEdge = CanvasEdge(edge: Edge, derived: Option<bool>)

  datatype Selection = Nothing | SelectedNode(key: string) | SelectedEdge(id: string)

  /** `nodes` maps keys to labels; `ready` holds the expanded roots (`edgesReady`). */
  datatype View = View(
    nodes: map<string, string>,
    edges: map<string, CanvasEdge>,
    dirty: set<string>,
    ready: set<string>,
    selection: Selection)

  datatype Event =
    | NodeInserted(lab: string, key: string)
    | PropSet(key: string, field: string)
    | PropRemoved(key: string, field: string)
    | EdgeInserted(edge: Edge)
    | EdgeDeleted(edge: Edge)
    | NodeDeleted(key: string)
    | RuleCreated(name: string)
    | RuleDeleted(name: string)
    | RuleRebuilt(name: string)
    | BatchApplied(ops: int)
    | Ingested(lab: string, inserted: int)

  /** One cell of a query result. */
  datatype Cell = Text(text: string) | Number(n: int) | Flag(b: bool) | Null

  datatype Dir = Out | In

  // ---- single updates ------------------------------------------------------

  function UpsertNode(v: View, key: string, lab: string): View {
    if key !in v.nodes || lab != "" then v.(nodes := v.nodes[key := lab]) else v
  }

  function UpsertEdge(v: View, e: Edge): View {
    if EdgeId(e) in v.edges then v else v.(edges := v.edges[EdgeId(e) := CanvasEdge(e, None)])
  }

  function RemoveEdge(v: View, id: string): View {
    if id !in v.edges then v else
    v.(edges := v.edges - {id},
       selection := if v.selection == SelectedEdge(id) then Nothing else v.selection)
  }

  function DropLegacyRelated(v: View, src: string, dst: string): View {
    RemoveEdge(RemoveEdge(v, EdgeId(Edge(RELATED, src, dst))), EdgeId(Edge(RELATED, dst, src)))
  }

  function SetDerived(v: View, id: string, derived: bool): View {
    if id !in v.edges then v else
    v.(edges := v.edges[id := v.edges[id].(derived := Some(derived))])
  }

  function ApplyNodeInfo(v: View, key: string, lab: string): View {
    if key !in v.nodes then v else
    v.(nodes := if lab != "" then v.nodes[key := lab] else v.nodes, dirty := v.dirty - {key})
  }

  function MarkDirty(v: View, key: string): View {
    v.(dirty := v.dirty + {key})
  }

  const EMPTY_VIEW := View(map[], map[], {}, {}, Nothing)

  predicate NeedsEdges(v: View, root: string) {
    root in v.nodes && root !in v.ready
  }

  // ---- query results -------------------------------------------------------

  function IndexOf(columns: seq<string>, name: string): (i: nat)
    ensures i <= |columns| && (i < |columns| ==> columns[i] == name)
    ensures name !in columns[..i]
  {
    if columns == [] || columns[0] == name then 0 else 1 + IndexOf(columns[1..], name)
  }

  /** The non-empty string in column `i`, if the row has one. */
  function StringCell(row: seq<Cell>, i: nat): Option<string> {
    if i < |row| && row[i].Text? && row[i].text != "" then Some(row[i].text) else None
  }

  function LabelCell(columns: seq<string>, row: seq<Cell>): string {
    var i := IndexOf(columns, "label");
    if i < |columns| && StringCell(row, i).Some? then StringCell(row, i).value else ""
  }

  function UpsertRow(v: View, columns: seq<string>, row: seq<Cell>): View {
    var key := StringCell(row, IndexOf(columns, "key"));
    if key.None? then v else UpsertNode(v, key.value, LabelCell(columns, row))
  }

  function UpsertRows(v: View, columns: seq<string>, rows: seq<seq<Cell>>): View {
    if rows == [] then v else
    UpsertRow(UpsertRows(v, columns, rows[..|rows| - 1]), columns, rows[|rows| - 1])
  }

  function FromNeighborhood(v: View, root: string, columns: seq<string>, rows: seq<seq<Cell>>): View {
    var v1 := if "key" in columns then UpsertRows(v, columns, rows) else v;
    var v2 := UpsertNode(v1, root, "");
    v2.(ready := v2.ready - {root}, dirty := v2.dirty - {root})
  }

  predicate Harvested(column: string) {
    '.' !in column && column != "label" && column != "depth"
  }

  /** The first `n` cells of a row of a result without a `key` column. */
  function HarvestRow(v: View, columns: seq<string>, row: seq<Cell>, n: nat): View
    requires n <= |columns|
  {
    if n == 0 then v else
    var w := HarvestRow(v, columns, row, n - 1);
    var key := StringCell(row, n - 1);
    if Harvested(columns[n - 1]) && key.Some? then UpsertNode(w, key.value, "") else w
  }

  function HarvestRows(v: View, columns: seq<string>, rows: seq<seq<Cell>>): View {
    if rows == [] then v else
    HarvestRow(HarvestRows(v, columns, rows[..|rows| - 1]), columns, rows[|rows| - 1], |columns|)
  }

  function MergeQueryGraph(v: View, columns: seq<string>, rows: seq<seq<Cell>>): View {
    if "key" in columns then UpsertRows(v, columns, rows) else HarvestRows(v, columns, rows)
  }

  // ---- merging a root's typed neighbours -----------------------------------

  function MergedEdge(root: string, etype: string, nbr: string, dir: Dir): Edge {
    if dir.Out? then Edge(etype, root, nbr) else Edge(etype, nbr, root)
  }

  function MergeOne(v: View, root: string, etype: string, nbr: string, dir: Dir): View {
    var e := MergedEdge(root, etype, nbr, dir);
    var w := UpsertEdge(UpsertNode(v, nbr, ""), e);
    if etype != RELATED then DropLegacyRelated(w, e.src, e.dst) else w
  }

  function MergeBucket(v: View, root: string, etype: string, nbrs: seq<string>, dir: Dir): View {
    if nbrs == [] then v else
    MergeOne(MergeBucket(v, root, etype, nbrs[..|nbrs| - 1], dir), root, etype, nbrs[|nbrs| - 1], dir)
  }

  function MergeBuckets(v: View, root: string, buckets: map<string, seq<string>>, order: seq<string>, dir: Dir): View
    requires forall t <- order :: t in buckets
  {
    if order == [] then v else
    var t := order[|order| - 1];
    MergeBucket(MergeBuckets(v, root, buckets, order[..|order| - 1], dir), root, t, buckets[t], dir)
  }

  /** The buckets of a record, in the order in which it is enumerated. */
  ghost function Merge(v: View, root: string, record: Record, dir: Dir): View
    requires RecordOk(record)
  {
    var w := MergeBuckets(UpsertNode(v, root, ""), root, record.buckets, Entries(record.keys), dir);
    w.(ready := w.ready + {root})
  }

  // ---- events --------------------------------------------------------------

  predicate EdgeReferences(v: View, key: string) {
    exists id <- v.edges :: Touches(v.edges[id].edge, key)
  }

  function OnNodeDeleted(v: View, key: string): View {
    var gone := set id | id in v.edges && Touches(v.edges[id].edge, key);
    View(v.nodes - {key}, v.edges - gone, v.dirty - {key}, v.ready - {key},
         if v.selection == SelectedNode(key) || (v.selection.SelectedEdge? && v.selection.id in gone)
         then Nothing else v.selection)
  }

  function MarkAllDirty(v: View): View {
    v.(dirty := v.dirty + v.nodes.Keys)
  }

  function MarkVisibleDirty(v: View, key: string): View {
    if key in v.nodes then v.(dirty := v.dirty + {key}) else v
  }

  function Apply(v: View, ev: Event): View {
    match ev
    case NodeInserted(lab, key) =>
      if key in v.nodes then UpsertNode(v, key, lab)
      else if key in v.dirty || EdgeReferences(v, key) then v.(nodes := v.nodes[key := lab])
      else v
    case PropSet(key, _) => MarkVisibleDirty(v, key)
    case PropRemoved(key, _) => MarkVisibleDirty(v, key)
    case EdgeInserted(e) => if e.src in v.nodes && e.dst in v.nodes then UpsertEdge(v, e) else v
    case EdgeDeleted(e) => if e.src in v.nodes && e.dst in v.nodes then RemoveEdge(v, EdgeId(e)) else v
    case NodeDeleted(key) => OnNodeDeleted(v, key)
    case RuleCreated(_) => MarkAllDirty(v)
    case RuleDeleted(_) => MarkAllDirty(v)
    case RuleRebuilt(_) => MarkAllDirty(v)
    case BatchApplied(_) => v
    case Ingested(_, _) => v
  }

  /** `applyLiveEvent` (ui/src/live.ts): an edge is drawn only between expanded nodes. */
  function ApplyLive(v: View, ev: Event): View {
    if !ev.EdgeInserted? then Apply(v, ev) else
    var e := ev.edge;
    if e.src in v.nodes && e.dst in v.nodes && !NeedsEdges(v, e.src) && !NeedsEdges(v, e.dst)
    then Apply(v, ev)
    else MarkVisibleDirty(MarkVisibleDirty(v, e.src), e.dst)
  }

  // ---- what every operation keeps ------------------------------------------

  /** Edge ids match their edges, both endpoints are nodes, expanded roots are nodes. */
  ghost predicate WellFormed(v: View) {
    && (forall id <- v.edges ::
          EdgeId(v.edges[id].edge) == id && v.edges[id].edge.src in v.nodes && v.edges[id].edge.dst in v.nodes)
    && v.ready <= v.nodes.Keys
  }

  /** The selection is empty or names something on the canvas. */
  ghost predicate SelectionValid(v: View) {
    match v.selection
    case Nothing => true
    case SelectedNode(key) => key in v.nodes
    case SelectedEdge(id) => id in v.edges
  }

  /** What no operation may break: `w` is well formed if `v` is, and a selection that
      named something either still does or has become empty. */
  ghost predicate Keeps(v: View, w: View) {
    WellFormed(v) ==>
      && WellFormed(w)
      && (SelectionValid(v) ==> SelectionValid(w) && (w.selection == v.selection || w.selection.Nothing?))
  }

  lemma DeleteNodeKeeps(v: View, key: string)
    ensures Keeps(v, OnNodeDeleted(v, key))
  {
  }

  lemma RemoveKeeps(v: View, id: string)
    ensures Keeps(v, RemoveEdge(v, id))
  {
  }

  lemma PlainApplyKeeps(v: View, ev: Event)
    ensures Keeps(v, Apply(v, ev))
  {
    match ev
    case NodeDeleted(key) => DeleteNodeKeeps(v, key);
    case EdgeInserted(e) => UpsertKeeps(v, e.src, e);
    case EdgeDeleted(e) => RemoveKeeps(v, EdgeId(e));
    case _ =>
  }

  lemma ApplyKeeps(v: View, ev: Event)
    ensures Keeps(v, Apply(v, ev)) && Keeps(v, ApplyLive(v, ev))
  {
    PlainApplyKeeps(v, ev);
  }

  lemma {:induction false} UpsertRowsKeeps(v: View, columns: seq<string>, rows: seq<seq<Cell>>)
    ensures Keeps(v, UpsertRows(v, columns, rows))
    ensures UpsertRows(v, columns, rows).nodes.Keys >= v.nodes.Keys
    ensures SameButNodes(v, UpsertRows(v, columns, rows))
  {
    if rows != [] { UpsertRowsKeeps(v, columns, rows[..|rows| - 1]); }
  }

  /** Only the node map differs. */
  predicate SameButNodes(v: View, w: View) {
    w == v.(nodes := w.nodes)
  }

  lemma FromNeighborhoodKeeps(v: View, root: string, columns: seq<string>, rows: seq<seq<Cell>>)
    ensures Keeps(v, FromNeighborhood(v, root, columns, rows))
    ensures var w := FromNeighborhood(v, root, columns, rows);
            w.edges == v.edges && w.ready == v.ready - {root} && root in w.nodes && NeedsEdges(w, root)
  {
    UpsertRowsKeeps(v, columns, rows);
  }

  lemma {:induction false} HarvestRowKeeps(v: View, columns: seq<string>, row: seq<Cell>, n: nat)
    requires n <= |columns|
    ensures Keeps(v, HarvestRow(v, columns, row, n)) && SameButNodes(v, HarvestRow(v, columns, row, n))
    ensures HarvestRow(v, columns, row, n).nodes.Keys >= v.nodes.Keys
  {
    if n > 0 { HarvestRowKeeps(v, columns, row, n - 1); }
  }

  lemma {:induction false} HarvestRowsKeeps(v: View, columns: seq<string>, rows: seq<seq<Cell>>)
    ensures Keeps(v, HarvestRows(v, columns, rows)) && SameButNodes(v, HarvestRows(v, columns, rows))
    ensures HarvestRows(v, columns, rows).nodes.Keys >= v.nodes.Keys
  {
    if rows != [] {
      HarvestRowsKeeps(v, columns, rows[..|rows| - 1]);
      HarvestRowKeeps(HarvestRows(v, columns, rows[..|rows| - 1]), columns, rows[|rows| - 1], |columns|);
    }
  }

  lemma MergeQueryGraphKeeps(v: View, columns: seq<string>, rows: seq<seq<Cell>>)
    ensures Keeps(v, MergeQueryGraph(v, columns, rows)) && SameButNodes(v, MergeQueryGraph(v, columns, rows))
    ensures MergeQueryGraph(v, columns, rows).nodes.Keys >= v.nodes.Keys
  {
    UpsertRowsKeeps(v, columns, rows);
    HarvestRowsKeeps(v, columns, rows);
  }

  lemma KeepsTransitive(u: View, v: View, w: View)
    requires Keeps(u, v) && Keeps(v, w)
    ensures Keeps(u, w)
  {
  }

  lemma UpsertKeeps(v: View, key: string, e: Edge)
    ensures Keeps(v, UpsertNode(v, key, ""))
    ensures e.src in v.nodes && e.dst in v.nodes ==> Keeps(v, UpsertEdge(v, e))
  {
  }

  lemma DropKeeps(v: View, src: string, dst: string)
    ensures Keeps(v, DropLegacyRelated(v, src, dst))
  {
    var id1, id2 := EdgeId(Edge(RELATED, src, dst)), EdgeId(Edge(RELATED, dst, src));
    var w := RemoveEdge(v, id1);
    RemoveKeeps(v, id1);
    RemoveKeeps(w, id2);
    KeepsTransitive(v, w, RemoveEdge(w, id2));
  }

  lemma MergeOneKeeps(v: View, root: string, etype: string, nbr: string, dir: Dir)
    requires root in v.nodes
    ensures Keeps(v, MergeOne(v, root, etype, nbr, dir))
    ensures MergeOne(v, root, etype, nbr, dir).nodes.Keys == v.nodes.Keys + {nbr}
    ensures MergeOne(v, root, etype, nbr, dir).ready == v.ready
    ensures MergeOne(v, root, etype, nbr, dir).dirty == v.dirty
  {
    var e := MergedEdge(root, etype, nbr, dir);
    var v1 := UpsertNode(v, nbr, "");
    var v2 := UpsertEdge(v1, e);
    UpsertKeeps(v, nbr, e);
    UpsertKeeps(v1, nbr, e);
    DropKeeps(v2, e.src, e.dst);
    KeepsTransitive(v, v1, v2);
    if etype != RELATED { KeepsTransitive(v, v2, DropLegacyRelated(v2, e.src, e.dst)); }
  }

  /** No node is lost, and roots and dirty keys stay as they were. */
  predicate Grows(v: View, w: View) {
    v.nodes.Keys <= w.nodes.Keys && w.ready == v.ready && w.dirty == v.dirty
  }

  lemma {:induction false} MergeBucketKeeps(v: View, root: string, etype: string, nbrs: seq<string>, dir: Dir)
    requires root in v.nodes
    ensures var w := MergeBucket(v, root, etype, nbrs, dir); Keeps(v, w) && Grows(v, w)
  {
    if nbrs != [] {
      MergeBucketKeeps(v, root, etype, nbrs[..|nbrs| - 1], dir);
      MergeOneKeeps(MergeBucket(v, root, etype, nbrs[..|nbrs| - 1], dir), root, etype, nbrs[|nbrs| - 1], dir);
    }
  }

  lemma {:induction false} MergeBucketsKeeps(v: View, root: string, buckets: map<string, seq<string>>, order: seq<string>, dir: Dir)
    requires root in v.nodes && forall t <- order :: t in buckets
    ensures var w := MergeBuckets(v, root, buckets, order, dir); Keeps(v, w) && Grows(v, w)
  {
    if order != [] {
      var t := order[|order| - 1];
      MergeBucketsKeeps(v, root, buckets, order[..|order| - 1], dir);
      MergeBucketKeeps(MergeBuckets(v, root, buckets, order[..|order| - 1], dir), root, t, buckets[t], dir);
    }
  }

  lemma ReadyKeeps(v: View, root: string)
    requires root in v.nodes
    ensures Keeps(v, v.(ready := v.ready + {root}))
  {
  }

  lemma MergeKeeps(v: View, root: string, record: Record, dir: Dir)
    requires RecordOk(record)
    ensures var w := Merge(v, root, record, dir);
            Keeps(v, w) && root in w.nodes && Grows(v.(ready := v.ready + {root}), w)
  {
    var u := UpsertNode(v, root, "");
    var w := MergeBuckets(u, root, record.buckets, Entries(record.keys), dir);
    UpsertKeeps(v, root, Edge("", root, root));
    MergeBucketsKeeps(u, root, record.buckets, Entries(record.keys), dir);
    KeepsTransitive(v, u, w);
    ReadyKeeps(w, root);
    KeepsTransitive(v, w, w.(ready := w.ready + {root}));
  }

  // ---- a stream of live events never adds a node ---------------------------

  function ApplyLiveAll(v: View, evs: seq<Event>): View {
    if evs == [] then v else ApplyLive(ApplyLiveAll(v, evs[..|evs| - 1]), evs[|evs| - 1])
  }

  /** From a canvas whose dirty keys are all visible, live events can only remove nodes:
      the `node_inserted` branch that adds one is never taken. */
  lemma {:induction false} LiveEventsNeverAddNodes(v: View, evs: seq<Event>)
    requires WellFormed(v) && v.dirty <= v.nodes.Keys
    ensures var w := ApplyLiveAll(v, evs);
            WellFormed(w) && w.dirty <= w.nodes.Keys && w.nodes.Keys <= v.nodes.Keys
  {
    if evs != [] {
      var u := ApplyLiveAll(v, evs[..|evs| - 1]);
      LiveEventsNeverAddNodes(v, evs[..|evs| - 1]);
      ApplyKeeps(u, evs[|evs| - 1]);
      assert forall key :: key !in u.nodes ==> !EdgeReferences(u, key);
    }
  }

  predicate AddsNoNode(v: View, evs: seq<Event>) {
    ApplyLiveAll(v, evs).nodes.Keys <= v.nodes.Keys
  }

  /** So no stream of live events can ever add a node if and only if no dirty key is hidden. */
  lemma NodesNeverGrowIff(v: View)
    requires WellFormed(v)
    ensures (forall evs :: AddsNoNode(v, evs)) <==> v.dirty <= v.nodes.Keys
  {
    if v.dirty <= v.nodes.Keys {
      forall evs ensures AddsNoNode(v, evs) { LiveEventsNeverAddNodes(v, evs); }
    } else {
      var key :| key in v.dirty && key !in v.nodes;
      var evs := [NodeInserted("", key)];
      assert evs[..0] == [] && ApplyLiveAll(v, evs) == ApplyLive(v, evs[0]);
      StaleDirtyKeyAddsNode(v, key, "");
      assert key in ApplyLiveAll(v, evs).nodes.Keys && key !in v.nodes.Keys;
      assert !AddsNoNode(v, evs);
    }
  }

  /** Without that condition a live event can add a node: a stale dirty key is enough. */
  lemma StaleDirtyKeyAddsNode(v: View, key: string, lab: string)
    requires WellFormed(v) && key !in v.nodes
    ensures key in ApplyLive(v, NodeInserted(lab, key)).nodes <==> key in v.dirty
  {
    assert !EdgeReferences(v, key);
  }

  // ---- every run of the store ----------------------------------------------

  /** The public operations of the store, and the live event built on them. */
  datatype Op =
    | Receive(ev: Event)
    | ReceiveLive(ev: Event)
    | Neighborhood(root: string, columns: seq<string>, rows: seq<seq<Cell>>)
    | MergeRecord(root: string, record: Record, dir: Dir)
    | Query(columns: seq<string>, rows: seq<seq<Cell>>)
    | Derive(id: string, derived: bool)
    | Info(key: string, lab: string)
    | Choose(selection: Selection)
    | Mark(key: string)
    | Lag

  ghost predicate Possible(op: Op) {
    op.MergeRecord? ==> RecordOk(op.record)
  }

  ghost function Do(v: View, op: Op): View
    requires Possible(op)
  {
    match op
    case Receive(ev) => Apply(v, ev)
    case ReceiveLive(ev) => ApplyLive(v, ev)
    case Neighborhood(root, columns, rows) => FromNeighborhood(v, root, columns, rows)
    case MergeRecord(root, record, dir) => Merge(v, root, record, dir)
    case Query(columns, rows) => MergeQueryGraph(v, columns, rows)
    case Derive(id, derived) => SetDerived(v, id, derived)
    case Info(key, lab) => ApplyNodeInfo(v, key, lab)
    case Choose(selection) => v.(selection := selection)
    case Mark(key) => MarkDirty(v, key)
    case Lag => MarkAllDirty(v)
  }

  ghost function DoAll(v: View, ops: seq<Op>): View
    requires forall op <- ops :: Possible(op)
  {
    if ops == [] then v else
    assert ops[|ops| - 1] in ops;
    Do(DoAll(v, ops[..|ops| - 1]), ops[|ops| - 1])
  }

  lemma OpKeeps(v: View, op: Op)
    requires Possible(op) && !op.Choose?
    ensures Keeps(v, Do(v, op))
  {
    match op
    case Receive(ev) => ApplyKeeps(v, ev);
    case ReceiveLive(ev) => ApplyKeeps(v, ev);
    case Neighborhood(root, columns, rows) => FromNeighborhoodKeeps(v, root, columns, rows);
    case MergeRecord(root, record, dir) => MergeKeeps(v, root, record, dir);
    case Query(columns, rows) => MergeQueryGraphKeeps(v, columns, rows);
    case Derive(_, _) =>
    case Info(_, _) =>
    case Mark(_) =>
    case Lag =>
  }

  lemma DoKeepsWellFormed(v: View, op: Op)
    requires WellFormed(v) && Possible(op)
    ensures WellFormed(Do(v, op))
  {
    if !op.Choose? { OpKeeps(v, op); }
  }

  /** Whatever was selected on the way was on the canvas at that moment. */
  ghost predicate ChoicesFit(v: View, ops: seq<Op>)
    requires forall op <- ops :: Possible(op)
  {
    ops == [] ||
    var rest, last := ops[..|ops| - 1], ops[|ops| - 1];
    assert last in ops;
    ChoicesFit(v, rest) && (last.Choose? ==> SelectionValid(Do(DoAll(v, rest), last)))
  }

  /** Over every run of the store, all operations in any order: edge ids match their edges,
      endpoints and expanded roots are nodes, and a selection that named something still
      does or has become empty. */
  lemma {:induction false} EveryRunKeeps(v: View, ops: seq<Op>)
    requires WellFormed(v) && forall op <- ops :: Possible(op)
    ensures WellFormed(DoAll(v, ops))
    ensures SelectionValid(v) && ChoicesFit(v, ops) ==> SelectionValid(DoAll(v, ops))
    ensures (forall op <- ops :: !op.Choose?) ==> Keeps(v, DoAll(v, ops))
  {
    if ops != [] {
      var rest, last := ops[..|ops| - 1], ops[|ops| - 1];
      EveryRunKeeps(v, rest);
      assert last in ops;
      DoKeepsWellFormed(DoAll(v, rest), last);
      if !last.Choose? { OpKeeps(DoAll(v, rest), last); }
    }
  }

  ghost predicate DirtyVisible(v: View) {
    v.dirty <= v.nodes.Keys
  }

  /** The one operation that can make a hidden key dirty is `markDirty` of an absent node. */
  lemma DirtyHiddenIff(v: View, op: Op)
    requires Possible(op) && DirtyVisible(v)
    ensures DirtyVisible(Do(v, op)) <==> (op.Mark? ==> op.key in v.nodes)
  {
    match op
    case Neighborhood(root, columns, rows) => UpsertRowsKeeps(v, columns, rows);
    case MergeRecord(root, record, dir) => MergeKeeps(v, root, record, dir);
    case Query(columns, rows) => MergeQueryGraphKeeps(v, columns, rows);
    case Mark(key) => assert key in MarkDirty(v, key).dirty;
    case _ =>
  }

  /** Every key marked on the way was on the canvas at that moment. */
  ghost predicate MarksFit(v: View, ops: seq<Op>)
    requires forall op <- ops :: Possible(op)
  {
    ops == [] ||
    (MarksFit(v, ops[..|ops| - 1]) && (ops[|ops| - 1].Mark? ==> ops[|ops| - 1].key in DoAll(v, ops[..|ops| - 1]).nodes))
  }

  /** So over every run in which only visible keys are marked, no live event adds a node. */
  lemma {:induction false} RunsKeepDirtyVisible(v: View, ops: seq<Op>)
    requires WellFormed(v) && DirtyVisible(v) && (forall op <- ops :: Possible(op)) && MarksFit(v, ops)
    ensures DirtyVisible(DoAll(v, ops)) && WellFormed(DoAll(v, ops))
    ensures forall evs :: AddsNoNode(DoAll(v, ops), evs)
  {
    EveryRunKeeps(v, ops);
    if ops != [] {
      RunsKeepDirtyVisible(v, ops[..|ops| - 1]);
      assert ops[|ops| - 1] in ops;
      DirtyHiddenIff(DoAll(v, ops[..|ops| - 1]), ops[|ops| - 1]);
    }
    NodesNeverGrowIff(DoAll(v, ops));
  }

  /** Deleting a node and then marking it leaves a dirty key that the next insertion draws. */
  lemma MarkAfterDeleteAddsNode(v: View, key: string, lab: string)
    requires WellFormed(v)
    ensures var w := MarkDirty(ApplyLive(v, NodeDeleted(key)), key);
            WellFormed(w) && key !in w.nodes && key in ApplyLive(w, NodeInserted(lab, key)).nodes
  {
    ApplyKeeps(v, NodeDeleted(key));
    StaleDirtyKeyAddsNode(MarkDirty(ApplyLive(v, NodeDeleted(key)), key), key, lab);
  }

  function DrawByQuery(key: string): Op { Query(["key"], [[Text(key)]]) }

  lemma QueryDraws(key: string)
    requires key != ""
    ensures key in Do(EMPTY_VIEW, DrawByQuery(key)).nodes
  {
    var columns, rows := ["key"], [[Text(key)]];
    assert IndexOf(columns, "key") == 0;
    assert rows[..0] == [] && UpsertRows(EMPTY_VIEW, columns, rows) == UpsertRow(EMPTY_VIEW, columns, rows[0]);
  }

  /** A run the client can take: a query draws the node, an event deletes it while the
      harvest is fetching its degree, and the harvest then marks it. The next insertion event
      adds a node that was not on the canvas. */
  lemma HarvestRaceAddsNode(key: string, lab: string)
    requires key != ""
    ensures var drawn := Do(EMPTY_VIEW, DrawByQuery(key));
            var marked := Do(Do(drawn, ReceiveLive(NodeDeleted(key))), Mark(key));
            && key in drawn.nodes && key !in marked.nodes
            && key in Do(marked, ReceiveLive(NodeInserted(lab, key))).nodes
  {
    QueryDraws(key);
    DoKeepsWellFormed(EMPTY_VIEW, DrawByQuery(key));
    MarkAfterDeleteAddsNode(Do(EMPTY_VIEW, DrawByQuery(key)), key, lab);
  }
}
