/** What the operations of the canvas do, field by field (ui/src/store.ts, ui/src/live.ts):
    which keys become dirty, which nodes are drawn under which label, which edges come and
    go, and what becomes of a selection. */
module CanvasEffects {
  import opened Common
  import opened EdgeIds
  import opened Canvas

  // ---- watch events --------------------------------------------------------

  predicate IsRuleEvent(ev: Event) { ev.RuleCreated? || ev.RuleDeleted? || ev.RuleRebuilt? }

  predicate IsPropEvent(ev: Event, key: string) { (ev.PropSet? || ev.PropRemoved?) && ev.key == key }

  /** A key is dirty after an event exactly if it was and the node was not deleted, or it is
      visible and the event is about its properties or about a rule. */
  lemma EventMarks(v: View, ev: Event, key: string)
    ensures key in Apply(v, ev).dirty <==>
            || (key in v.dirty && ev != NodeDeleted(key))
            || (key in v.nodes && (IsRuleEvent(ev) || IsPropEvent(ev, key)))
  {
  }

  /** A lag marks every visible node. */
  lemma LagMarks(v: View, key: string)
    ensures key in MarkAllDirty(v).dirty <==> key in v.dirty || key in v.nodes
  {
  }

  /** An event removes only a deleted node, and adds only an inserted one that was dirty; it
      changes only the label of an inserted one, and only to a label that is not empty. */
  lemma EventNodes(v: View, ev: Event, key: string)
    requires WellFormed(v)
    ensures key in Apply(v, ev).nodes <==>
            || (key in v.nodes && ev != NodeDeleted(key))
            || (ev.NodeInserted? && ev.key == key && key in v.dirty)
    ensures key in v.nodes && key in Apply(v, ev).nodes ==>
              Apply(v, ev).nodes[key] == if ev.NodeInserted? && ev.key == key && ev.lab != "" then ev.lab else v.nodes[key]
    ensures key !in v.nodes && key in Apply(v, ev).nodes ==> Apply(v, ev).nodes[key] == ev.lab
  {
    if key !in v.nodes { assert !EdgeReferences(v, key); }
  }

  /** An event draws only an inserted edge between visible nodes, of unknown provenance, and
      removes only a deleted one between visible nodes or one at a deleted node. Every other
      edge stays as it is. */
  lemma EventEdges(v: View, ev: Event, id: string)
    ensures id in Apply(v, ev).edges <==>
            || (id in v.edges && !(ev.EdgeDeleted? && EdgeId(ev.edge) == id && ev.edge.src in v.nodes && ev.edge.dst in v.nodes)
                              && !(ev.NodeDeleted? && Touches(v.edges[id].edge, ev.key)))
            || (ev.EdgeInserted? && EdgeId(ev.edge) == id && ev.edge.src in v.nodes && ev.edge.dst in v.nodes)
    ensures id in Apply(v, ev).edges ==>
              Apply(v, ev).edges[id] == if id in v.edges then v.edges[id] else CanvasEdge(ev.edge, None)
  {
  }

  /** Only the deletion of a node makes it unexpanded. */
  lemma EventReady(v: View, ev: Event, key: string)
    ensures key in Apply(v, ev).ready <==> key in v.ready && ev != NodeDeleted(key)
  {
  }

  /** What is selected on `v` is still on the canvas `w`. */
  ghost predicate StillThere(v: View, w: View) {
    SelectionValid(w.(selection := v.selection))
  }

  /** A selection is given up exactly when what it names goes. */
  lemma SelectionFollows(v: View, ev: Event)
    requires SelectionValid(v)
    ensures Apply(v, ev).selection == if StillThere(v, Apply(v, ev)) then v.selection else Nothing
  {
  }

  // ---- live events ---------------------------------------------------------

  /** An inserted edge is drawn exactly between two expanded nodes. Otherwise the edges stay,
      and exactly its visible ends become dirty. Nothing else changes. */
  lemma LiveEdgeIsDrawnOrMarked(v: View, e: Edge)
    requires WellFormed(v)
    ensures var w, both := ApplyLive(v, EdgeInserted(e)), e.src in v.ready && e.dst in v.ready;
            && (forall id :: id in w.edges <==> id in v.edges || (both && id == EdgeId(e)))
            && (forall id <- v.edges :: w.edges[id] == v.edges[id])
            && (forall k :: k in w.dirty <==> k in v.dirty || (!both && Touches(e, k) && k in v.nodes))
            && w.nodes == v.nodes && w.ready == v.ready && w.selection == v.selection
  {
  }

  /** So it is on the canvas, or every end that is visible is marked. */
  lemma LiveEdgeLeavesTrace(v: View, e: Edge)
    requires WellFormed(v)
    ensures var w := ApplyLive(v, EdgeInserted(e));
            EdgeId(e) in w.edges || forall k :: Touches(e, k) && k in v.nodes ==> k in w.dirty
  {
    LiveEdgeIsDrawnOrMarked(v, e);
  }

  /** Any other event is applied as it is. */
  lemma OtherLiveEvents(v: View, ev: Event)
    requires !ev.EdgeInserted?
    ensures ApplyLive(v, ev) == Apply(v, ev)
  {
  }

  // ---- query results -------------------------------------------------------

  /** Column `c` is the first of that name. */
  predicate IsColumn(columns: seq<string>, c: nat, name: string) {
    c < |columns| && columns[c] == name && name !in columns[..c]
  }

  /** The row gives this text, not empty, in the first column of that name. */
  ghost predicate Gives(columns: seq<string>, row: seq<Cell>, name: string, text: string) {
    text != "" && exists c: nat :: IsColumn(columns, c, name) && c < |row| && row[c] == Text(text)
  }

  lemma {:induction false} OneColumn(columns: seq<string>, c: nat, name: string)
    requires IsColumn(columns, c, name)
    ensures IndexOf(columns, name) == c
  {
    if c > 0 {
      assert columns[0] == columns[..c][0] && columns[1..][..c - 1] == columns[..c][1..];
      OneColumn(columns[1..], c - 1, name);
    }
  }

  lemma ReadsColumn(columns: seq<string>, row: seq<Cell>, name: string)
    requires name in columns
    ensures forall text :: Gives(columns, row, name, text) <==> StringCell(row, IndexOf(columns, name)) == Some(text)
  {
    var i := IndexOf(columns, name);
    IndexFound(columns, name);
    forall text ensures Gives(columns, row, name, text) <==> StringCell(row, i) == Some(text) {
      if Gives(columns, row, name, text) {
        var c: nat :| IsColumn(columns, c, name) && c < |row| && row[c] == Text(text);
        OneColumn(columns, c, name);
      }
      if StringCell(row, i) == Some(text) { assert IsColumn(columns, i, name) && row[i] == Text(text); }
    }
  }

  lemma {:induction false} IndexFound(columns: seq<string>, name: string)
    requires name in columns
    ensures IndexOf(columns, name) < |columns|
  {
    if columns[0] != name { IndexFound(columns[1..], name); }
  }

  /** The row's label, or the empty one. */
  lemma RowLabel(columns: seq<string>, row: seq<Cell>)
    ensures forall l :: Gives(columns, row, "label", l) ==> LabelCell(columns, row) == l
    ensures (forall l :: !Gives(columns, row, "label", l)) ==> LabelCell(columns, row) == ""
  {
    if "label" in columns {
      ReadsColumn(columns, row, "label");
      IndexFound(columns, "label");
      var cell := StringCell(row, IndexOf(columns, "label"));
      if cell.Some? { assert Gives(columns, row, "label", cell.value); }
    } else {
      assert IndexOf(columns, "label") == |columns|;
    }
  }

  /** One row with a `key` column: it draws the key it gives, and labels it if it gives a label. */
  lemma KeyRow(v: View, columns: seq<string>, row: seq<Cell>, k: string)
    requires "key" in columns
    ensures var w := UpsertRow(v, columns, row);
            && (k in w.nodes <==> k in v.nodes || Gives(columns, row, "key", k))
            && (forall l :: Gives(columns, row, "key", k) && Gives(columns, row, "label", l) ==> w.nodes[k] == l)
            && (k in w.nodes && (!Gives(columns, row, "key", k) || forall l :: !Gives(columns, row, "label", l)) ==>
                  w.nodes[k] == if k in v.nodes then v.nodes[k] else "")
  {
    ReadsColumn(columns, row, "key");
    RowLabel(columns, row);
  }

  /** A result with a `key` column draws exactly the keys its rows give. */
  lemma {:induction false} KeyRowsDraw(v: View, columns: seq<string>, rows: seq<seq<Cell>>, k: string)
    requires "key" in columns
    ensures k in UpsertRows(v, columns, rows).nodes <==> k in v.nodes || exists row <- rows :: Gives(columns, row, "key", k)
  {
    if rows != [] {
      var rest, last := rows[..|rows| - 1], rows[|rows| - 1];
      assert rows == rest + [last];
      KeyRowsDraw(v, columns, rest, k);
      KeyRow(UpsertRows(v, columns, rest), columns, last, k);
    }
  }

  ghost predicate Labels(columns: seq<string>, row: seq<Cell>, k: string) {
    Gives(columns, row, "key", k) && exists l :: Gives(columns, row, "label", l)
  }

  /** A key ends under the label of the last row that gives one for it. */
  lemma {:induction false} LastLabelWins(v: View, columns: seq<string>, rows: seq<seq<Cell>>, k: string, i: nat, l: string)
    requires "key" in columns && i < |rows| && Gives(columns, rows[i], "key", k) && Gives(columns, rows[i], "label", l)
    requires forall j :: i < j < |rows| ==> !Labels(columns, rows[j], k)
    ensures k in UpsertRows(v, columns, rows).nodes && UpsertRows(v, columns, rows).nodes[k] == l
  {
    var rest, last := rows[..|rows| - 1], rows[|rows| - 1];
    KeyRow(UpsertRows(v, columns, rest), columns, last, k);
    if i < |rows| - 1 {
      LastLabelWins(v, columns, rest, k, i, l);
      assert !Labels(columns, rows[|rows| - 1], k);
    }
  }

  /** Without one, a drawn node keeps its label and a new one has none. */
  lemma {:induction false} NoLabelNoChange(v: View, columns: seq<string>, rows: seq<seq<Cell>>, k: string)
    requires "key" in columns && forall j :: 0 <= j < |rows| ==> !Labels(columns, rows[j], k)
    ensures k in UpsertRows(v, columns, rows).nodes ==>
              UpsertRows(v, columns, rows).nodes[k] == if k in v.nodes then v.nodes[k] else ""
  {
    if rows != [] {
      var rest, last := rows[..|rows| - 1], rows[|rows| - 1];
      NoLabelNoChange(v, columns, rest, k);
      KeyRow(UpsertRows(v, columns, rest), columns, last, k);
      assert !Labels(columns, rows[|rows| - 1], k);
      KeyRowsDraw(v, columns, rest, k);
    }
  }

  /** One of the first `n` cells holds this key, in a column that is harvested: its name has no
      dot and is neither `label` nor `depth`. */
  ghost predicate Holds(columns: seq<string>, row: seq<Cell>, n: nat, k: string) {
    k != "" && exists c: nat :: c < n && c < |columns| && c < |row| && row[c] == Text(k)
                                && '.' !in columns[c] && columns[c] != "label" && columns[c] != "depth"
  }

  lemma {:induction false} HarvestRowDraws(v: View, columns: seq<string>, row: seq<Cell>, n: nat, k: string)
    requires n <= |columns|
    ensures var w := HarvestRow(v, columns, row, n);
            && (k in w.nodes <==> k in v.nodes || Holds(columns, row, n, k))
            && (k in w.nodes ==> w.nodes[k] == if k in v.nodes then v.nodes[k] else "")
  {
    if n > 0 { HarvestRowDraws(v, columns, row, n - 1, k); }
  }

  /** A result without a `key` column draws exactly the keys in harvested cells, and labels none. */
  lemma {:induction false} HarvestDraws(v: View, columns: seq<string>, rows: seq<seq<Cell>>, k: string)
    ensures var w := HarvestRows(v, columns, rows);
            && (k in w.nodes <==> k in v.nodes || exists row <- rows :: Holds(columns, row, |columns|, k))
            && (k in w.nodes ==> w.nodes[k] == if k in v.nodes then v.nodes[k] else "")
  {
    if rows != [] {
      var rest, last := rows[..|rows| - 1], rows[|rows| - 1];
      assert rows == rest + [last];
      HarvestDraws(v, columns, rest, k);
      HarvestRowDraws(HarvestRows(v, columns, rest), columns, last, |columns|, k);
    }
  }

  /** Which of the two readings applies depends on a column named `key`. */
  lemma QueryGraphReading(v: View, columns: seq<string>, rows: seq<seq<Cell>>, k: string)
    ensures k in MergeQueryGraph(v, columns, rows).nodes <==>
            k in v.nodes || exists row <- rows :: if "key" in columns then Gives(columns, row, "key", k) else Holds(columns, row, |columns|, k)
  {
    if "key" in columns { KeyRowsDraw(v, columns, rows, k); } else { HarvestDraws(v, columns, rows, k); }
  }

  /** A neighbourhood draws the root and the keys its rows give; the root is no longer dirty
      and needs edges. */
  lemma NeighborhoodDraws(v: View, root: string, columns: seq<string>, rows: seq<seq<Cell>>, k: string)
    ensures var w := FromNeighborhood(v, root, columns, rows);
            && (k in w.nodes <==> k in v.nodes || k == root || ("key" in columns && exists row <- rows :: Gives(columns, row, "key", k)))
            && (k in w.dirty <==> k in v.dirty && k != root)
            && (k in w.ready <==> k in v.ready && k != root)
  {
    UpsertRowsKeeps(v, columns, rows);
    if "key" in columns { KeyRowsDraw(v, columns, rows, k); }
  }
}
