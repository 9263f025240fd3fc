/** `GraphStore` (ui/src/store.ts) in its own form: an object whose methods change
    its maps and sets in place, each proved against the canvas functions. */
module Store {
  import opened Common
  import opened EdgeIds
  import opened Records
  import opened Canvas
  import C = Canvas

  lemma BucketsGrow(v: View, root: string, buckets: map<string, seq<string>>, order: seq<string>, i: nat, dir: Dir)
    requires i < |order| && forall t <- order :: t in buckets
    ensures MergeBuckets(v, root, buckets, order[..i + 1], dir) ==
            C.MergeBucket(MergeBuckets(v, root, buckets, order[..i], dir), root, order[i], buckets[order[i]], dir)
  {
    assert order[..i + 1][..i] == order[..i];
  }

  /** The canvas without a node, once these of its edges have been removed. */
  ghost function Removed(v: View, key: string, gone: set<string>): View {
    View(v.nodes - {key}, v.edges - gone, v.dirty - {key}, v.ready - {key},
         if v.selection.SelectedEdge? && v.selection.id in gone then Nothing else v.selection)
  }

  ghost function EdgesAt(v: View, key: string): set<string> {
    set id | id in v.edges && Touches(v.edges[id].edge, key)
  }

  /** Coming to one more edge: it is removed if it is one of those that go. */
  lemma RemoveOneMore(v: View, key: string, gone: set<string>, left: set<string>, id: string)
    requires id in v.edges && id in left
    ensures Removed(v, key, gone - (left - {id})) ==
            if id in gone then C.RemoveEdge(Removed(v, key, gone - left), id) else Removed(v, key, gone - left)
  {
    if id in gone {
      assert gone - (left - {id}) == gone - left + {id};
      assert v.edges - (gone - left) - {id} == v.edges - (gone - left + {id});
    } else {
      assert gone - (left - {id}) == gone - left;
    }
  }

  class GraphStore {
    var nodes: map<string, string>
    var edges: map<string, CanvasEdge>
    var dirty: set<string>
    var ready: set<string>
    var selection: Selection

    /** The canvas this store holds. */
    function V(): View
      reads this
    {
      View(nodes, edges, dirty, ready, selection)
    }

    constructor ()
      ensures V() == EMPTY_VIEW
    {
      nodes, edges, dirty, ready, selection := map[], map[], {}, {}, Nothing;
    }

    method UpsertNode(key: string, lab: string)
      modifies this
      ensures V() == C.UpsertNode(old(V()), key, lab)
    {
      if key !in nodes || lab != "" {
        nodes := nodes[key := lab];
      }
    }

    method UpsertEdge(e: Edge)
      modifies this
      ensures V() == C.UpsertEdge(old(V()), e)
    {
      if EdgeId(e) !in edges {
        edges := edges[EdgeId(e) := CanvasEdge(e, None)];
      }
    }

    method RemoveEdge(id: string)
      modifies this
      ensures V() == C.RemoveEdge(old(V()), id)
    {
      if id !in edges { return; }
      edges := edges - {id};
      if selection == SelectedEdge(id) {
        selection := Nothing;
      }
    }

    method FromNeighborhood(root: string, columns: seq<string>, rows: seq<seq<Cell>>)
      modifies this
      ensures V() == C.FromNeighborhood(old(V()), root, columns, rows)
    {
      if "key" in columns {
        UpsertRows(columns, rows);
      }
      UpsertNode(root, "");
      ready := ready - {root};
      dirty := dirty - {root};
    }

    method UpsertRows(columns: seq<string>, rows: seq<seq<Cell>>)
      modifies this
      ensures V() == C.UpsertRows(old(V()), columns, rows)
    {
      for i := 0 to |rows|
        invariant V() == C.UpsertRows(old(V()), columns, rows[..i])
      {
        assert rows[..i + 1][..i] == rows[..i];
        var key := StringCell(rows[i], IndexOf(columns, "key"));
        if key.Some? {
          UpsertNode(key.value, LabelCell(columns, rows[i]));
        }
      }
      assert rows[..|rows|] == rows;
    }

    method MergeQueryGraph(columns: seq<string>, rows: seq<seq<Cell>>)
      modifies this
      ensures V() == C.MergeQueryGraph(old(V()), columns, rows)
    {
      if "key" in columns {
        UpsertRows(columns, rows);
        return;
      }
      for i := 0 to |rows|
        invariant V() == HarvestRows(old(V()), columns, rows[..i])
      {
        assert rows[..i + 1][..i] == rows[..i];
        ghost var before := V();
        for n := 0 to |columns|
          invariant V() == HarvestRow(before, columns, rows[i], n)
        {
          var key := StringCell(rows[i], n);
          if Harvested(columns[n]) && key.Some? {
            UpsertNode(key.value, "");
          }
        }
      }
      assert rows[..|rows|] == rows;
    }

    method MergeNeighborhoodWithEdges(root: string, record: Record, dir: Dir)
      requires RecordOk(record)
      modifies this
      ensures V() == Merge(old(V()), root, record, dir)
    {
      UpsertNode(root, "");
      ghost var start := V();
      var order := Entries(record.keys);
      for i := 0 to |order|
        invariant V() == MergeBuckets(start, root, record.buckets, order[..i], dir)
      {
        assert order[i] in order;
        BucketsGrow(start, root, record.buckets, order, i, dir);
        MergeBucket(root, order[i], record.buckets[order[i]], dir);
      }
      assert order[..|order|] == order;
      ready := ready + {root};
    }

    method MergeBucket(root: string, etype: string, nbrs: seq<string>, dir: Dir)
      modifies this
      ensures V() == C.MergeBucket(old(V()), root, etype, nbrs, dir)
    {
      for i := 0 to |nbrs|
        invariant V() == C.MergeBucket(old(V()), root, etype, nbrs[..i], dir)
      {
        assert nbrs[..i + 1][..i] == nbrs[..i];
        var nbr := nbrs[i];
        UpsertNode(nbr, "");
        var src := if dir.Out? then root else nbr;
        var dst := if dir.Out? then nbr else root;
        UpsertEdge(Edge(etype, src, dst));
        if etype != RELATED {
          RemoveEdge(EdgeId(Edge(RELATED, src, dst)));
          if src != dst {
            RemoveEdge(EdgeId(Edge(RELATED, dst, src)));
          }
        }
      }
      assert nbrs[..|nbrs|] == nbrs;
    }

    method SetDerived(id: string, derived: bool)
      modifies this
      ensures V() == C.SetDerived(old(V()), id, derived)
    {
      if id in edges {
        edges := edges[id := edges[id].(derived := Some(derived))];
      }
    }

    method ApplyNodeInfo(key: string, lab: string)
      modifies this
      ensures V() == C.ApplyNodeInfo(old(V()), key, lab)
    {
      if key !in nodes { return; }
      if lab != "" {
        nodes := nodes[key := lab];
      }
      dirty := dirty - {key};
    }

    method EdgeReferences(key: string) returns (found: bool)
      ensures found == C.EdgeReferences(V(), key)
    {
      var left := edges.Keys;
      while left != {}
        invariant left <= edges.Keys
        invariant forall id :: id in edges && id !in left ==> !Touches(edges[id].edge, key)
      {
        var id :| id in left;
        if Touches(edges[id].edge, key) { return true; }
        left := left - {id};
      }
      return false;
    }

    method OnNodeDeleted(key: string)
      modifies this
      ensures V() == C.OnNodeDeleted(old(V()), key)
    {
      ghost var start := V();
      nodes := nodes - {key};
      dirty := dirty - {key};
      ready := ready - {key};
      assert edges - {} == edges;
      RemoveEdgesAt(key, start);
      if selection == SelectedNode(key) {
        selection := Nothing;
      }
    }

    /** The loop over a copy of the edges. */
    method RemoveEdgesAt(key: string, ghost start: View)
      requires V() == Removed(start, key, {})
      modifies this
      ensures V() == Removed(start, key, EdgesAt(start, key))
    {
      var entries := edges;
      assert entries == start.edges;
      var left := entries.Keys;
      assert EdgesAt(start, key) - left == {};
      while left != {}
        invariant left <= entries.Keys && V() == Removed(start, key, EdgesAt(start, key) - left)
      {
        var id :| id in left;
        RemoveOneMore(start, key, EdgesAt(start, key), left, id);
        left := left - {id};
        if Touches(entries[id].edge, key) {
          RemoveEdge(id);
        }
      }
      assert EdgesAt(start, key) - {} == EdgesAt(start, key);
    }

    method MarkAllDirty()
      modifies this
      ensures V() == C.MarkAllDirty(old(V()))
    {
      var left := nodes.Keys;
      while left != {}
        invariant left <= nodes.Keys
        invariant V() == old(V()).(dirty := old(dirty) + (nodes.Keys - left))
      {
        var key :| key in left;
        left := left - {key};
        dirty := dirty + {key};
      }
    }

    method Select(chosen: Selection)
      modifies this
      ensures V() == old(V()).(selection := chosen)
    {
      selection := chosen;
    }

    method MarkDirty(key: string)
      modifies this
      ensures V() == C.MarkDirty(old(V()), key)
    {
      dirty := dirty + {key};
    }

    method Lagged()
      modifies this
      ensures V() == C.MarkAllDirty(old(V()))
    {
      MarkAllDirty();
    }

    method Apply(ev: Event)
      modifies this
      ensures V() == C.Apply(old(V()), ev)
    {
      match ev
      case NodeInserted(lab, key) =>
        if key in nodes {
          UpsertNode(key, lab);
        } else {
          var referenced := EdgeReferences(key);
          if key in dirty || referenced {
            nodes := nodes[key := lab];
          }
        }
      case PropSet(key, _) => if key in nodes { dirty := dirty + {key}; }
      case PropRemoved(key, _) => if key in nodes { dirty := dirty + {key}; }
      case EdgeInserted(e) => if e.src in nodes && e.dst in nodes { UpsertEdge(e); }
      case EdgeDeleted(e) => if e.src in nodes && e.dst in nodes { RemoveEdge(EdgeId(e)); }
      case NodeDeleted(key) => OnNodeDeleted(key);
      case RuleCreated(_) => MarkAllDirty();
      case RuleDeleted(_) => MarkAllDirty();
      case RuleRebuilt(_) => MarkAllDirty();
      case BatchApplied(_) =>
      case Ingested(_, _) =>
    }
  }

  /** `applyLiveEvent` (ui/src/live.ts). */
  method ApplyLiveEvent(store: GraphStore, ev: Event)
    modifies store
    ensures store.V() == ApplyLive(old(store.V()), ev)
  {
    if !ev.EdgeInserted? {
      store.Apply(ev);
      return;
    }
    var src, dst := ev.edge.src, ev.edge.dst;
    var srcVisible, dstVisible := src in store.nodes, dst in store.nodes;
    if srcVisible && dstVisible && !NeedsEdges(store.V(), src) && !NeedsEdges(store.V(), dst) {
      store.Apply(ev);
      return;
    }
    if srcVisible { store.MarkDirty(src); }
    if dstVisible { store.MarkDirty(dst); }
  }
}
