/** Edge attribution for one expanded root (`classifyFromEdges`, ui/src/classify.ts) and
    the expansion that draws it (`expandNode` at depth 1, ui/src/expand.ts). */
module Classify {
  import opened Common
  import opened EdgeIds
  import opened Records
  import opened Canvas
  import opened Store

  datatype EdgeInfo = EdgeInfo(edge: Edge, derived: bool)
  datatype Provenance = Provenance(id: string, derived: bool)
  datatype Classified = Classified(
    outs: Record,
    ins: Record,
    provenance: seq<Provenance>)

  /** The loop state of `classifyFromEdges`. */
  datatype Scan = Scan(found: Classified, seen: set<string>)

  predicate Listed(r: Record, etype: string, nbr: string) {
    etype in r.buckets && nbr in r.buckets[etype]
  }

  /** The record with one more neighbour, if names were never inherited. */
  function WithNeighbor(rec: Record, etype: string, nbr: string): (r: Record)
    ensures forall t, n :: Listed(r, t, n) <==> Listed(rec, t, n) || (t == etype && n == nbr)
    ensures RecordOk(rec) ==> RecordOk(r)
    ensures rec.keys <= r.keys && r.buckets.Keys == rec.buckets.Keys + {etype}
  {
    if etype !in rec.buckets then Record(rec.keys + [etype], rec.buckets[etype := [nbr]])
    else if nbr in rec.buckets[etype] then rec
    else rec.(buckets := rec.buckets[etype := rec.buckets[etype] + [nbr]])
  }

  /** `addNeighbor`: a name that is inherited and not the record's own is found, and is no
      list; the call throws. */
  function AddNeighbor(rec: Record, etype: string, nbr: string): (r: Option<Record>)
    ensures r.None? <==> etype in INHERITED && etype !in rec.buckets
    ensures r.Some? ==> forall t, n :: Listed(r.value, t, n) <==> Listed(rec, t, n) || (t == etype && n == nbr)
    ensures r.Some? && !Listed(rec, etype, nbr) ==>
              etype in r.value.buckets && r.value.buckets[etype] == (if etype in rec.buckets then rec.buckets[etype] else []) + [nbr]
    ensures r.Some? && Listed(rec, etype, nbr) ==> r.value == rec
  {
    if etype in rec.buckets then Some(WithNeighbor(rec, etype, nbr))
    else if etype in INHERITED then None
    else Some(WithNeighbor(rec, etype, nbr))
  }

  /** One turn of the loop, if names were never inherited. */
  function ScanEdge(s: Scan, root: string, info: EdgeInfo): Scan {
    var e, c := info.edge, s.found;
    if !Touches(e, root) || EdgeId(e) in s.seen then s else
    Scan(
      Classified(
        if e.src == root then WithNeighbor(c.outs, e.etype, e.dst) else c.outs,
        if e.dst == root && e.src != root then WithNeighbor(c.ins, e.etype, e.src) else c.ins,
        c.provenance + [Provenance(EdgeId(e), info.derived)]),
      s.seen + {EdgeId(e)})
  }

  const NOTHING_SCANNED := Scan(Classified(EMPTY, EMPTY, []), {})

  function ScanEdges(root: string, infos: seq<EdgeInfo>): Scan {
    if infos == [] then NOTHING_SCANNED
    else ScanEdge(ScanEdges(root, infos[..|infos| - 1]), root, infos[|infos| - 1])
  }

  /** The turn throws: an unseen edge at the root, of an inherited type not yet a bucket. */
  predicate Trips(s: Scan, root: string, info: EdgeInfo) {
    var e, c := info.edge, s.found;
    && Touches(e, root) && EdgeId(e) !in s.seen && e.etype in INHERITED
    && e.etype !in (if e.src == root then c.outs else c.ins).buckets
  }

  /** The loop throws at some turn. */
  predicate ScanThrows(root: string, infos: seq<EdgeInfo>) {
    infos != [] &&
    var rest := infos[..|infos| - 1];
    ScanThrows(root, rest) || Trips(ScanEdges(root, rest), root, infos[|infos| - 1])
  }

  /** The scan with its provenance sorted by id. */
  function ClassifyAll(root: string, infos: seq<EdgeInfo>): Classified {
    var c := ScanEdges(root, infos).found;
    c.(provenance := SortById(c.provenance))
  }

  lemma {:induction false} ThrownStaysThrown(root: string, infos: seq<EdgeInfo>, i: nat)
    requires i <= |infos| && ScanThrows(root, infos[..i])
    ensures ScanThrows(root, infos)
  {
    if i < |infos| {
      var rest := infos[..|infos| - 1];
      assert rest[..i] == infos[..i];
      ThrownStaysThrown(root, rest, i);
    } else {
      assert infos[..i] == infos;
    }
  }

  /** `classifyFromEdges`: the classification, or None if it throws. */
  method ClassifyFromEdges(root: string, infos: seq<EdgeInfo>) returns (c: Option<Classified>)
    ensures c == if ScanThrows(root, infos) then None else Some(ClassifyAll(root, infos))
    ensures c.Some? ==> Increasing(c.value.provenance)
  {
    var found := Classified(EMPTY, EMPTY, []);
    var seen: set<string> := {};
    for i := 0 to |infos|
      invariant Scan(found, seen) == ScanEdges(root, infos[..i]) && !ScanThrows(root, infos[..i])
    {
      assert infos[..i + 1][..i] == infos[..i];
      var e := infos[i].edge;
      if e.src != root && e.dst != root { continue; }
      var id := EdgeId(e);
      if id in seen { continue; }
      seen := seen + {id};
      var outs, ins := Some(found.outs), Some(found.ins);
      if e.src == root {
        outs := AddNeighbor(found.outs, e.etype, e.dst);
      }
      if e.dst == root && e.src != root {
        ins := AddNeighbor(found.ins, e.etype, e.src);
      }
      if outs.None? || ins.None? {
        ThrownStaysThrown(root, infos, i + 1);
        return None;
      }
      found := Classified(outs.value, ins.value, found.provenance + [Provenance(id, infos[i].derived)]);
    }
    assert infos[..|infos|] == infos;
    ScannedOnce(root, infos);
    SortIncreasing(found.provenance);
    c := Some(found.(provenance := SortById(found.provenance)));
  }

  lemma {:induction false} ScannedRecordsOk(root: string, infos: seq<EdgeInfo>)
    ensures var c := ScanEdges(root, infos).found; RecordOk(c.outs) && RecordOk(c.ins)
  {
    if infos != [] { ScannedRecordsOk(root, infos[..|infos| - 1]); }
  }

  /** Names are only ever added behind. */
  lemma {:induction false} ScannedKeysGrow(root: string, infos: seq<EdgeInfo>, i: nat)
    requires i <= |infos|
    ensures ScanEdges(root, infos[..i]).found.outs.keys <= ScanEdges(root, infos).found.outs.keys
  {
    if i < |infos| {
      var rest := infos[..|infos| - 1];
      assert rest[..i] == infos[..i];
      ScannedKeysGrow(root, rest, i);
    } else {
      assert infos[..i] == infos;
    }
  }

  // ---- the order of the provenance -----------------------------------------

  /** String order, character by character. */
  predicate Before(a: string, b: string) {
    b != "" && (a == "" || a[0] < b[0] || (a[0] == b[0] && Before(a[1..], b[1..])))
  }

  lemma {:induction false} BeforeIsTotal(a: string, b: string)
    ensures a != b ==> (Before(a, b) <==> !Before(b, a))
    ensures !Before(a, a)
  {
    if a != "" && b != "" {
      BeforeIsTotal(a[1..], b[1..]);
      assert a == [a[0]] + a[1..] && b == [b[0]] + b[1..];
    }
    if a != "" { BeforeIsTotal(a[1..], a[1..]); }
  }

  lemma {:induction false} BeforeIsTransitive(a: string, b: string, c: string)
    requires Before(a, b) && Before(b, c)
    ensures Before(a, c)
  {
    if a != "" && a[0] == b[0] == c[0] { BeforeIsTransitive(a[1..], b[1..], c[1..]); }
  }

  function InsertById(p: Provenance, flags: seq<Provenance>): (r: seq<Provenance>)
    ensures multiset(r) == multiset(flags) + multiset{p}
  {
    if flags == [] || Before(p.id, flags[0].id) then [p] + flags
    else
      assert flags == [flags[0]] + flags[1..];
      [flags[0]] + InsertById(p, flags[1..])
  }

  function SortById(flags: seq<Provenance>): (r: seq<Provenance>)
    ensures multiset(r) == multiset(flags)
  {
    if flags == [] then [] else
    assert flags == [flags[0]] + flags[1..];
    InsertById(flags[0], SortById(flags[1..]))
  }

  ghost predicate Increasing(flags: seq<Provenance>) {
    forall i, j :: 0 <= i < j < |flags| ==> Before(flags[i].id, flags[j].id)
  }

  ghost predicate DistinctIds(flags: seq<Provenance>) {
    forall i, j :: 0 <= i < j < |flags| ==> flags[i].id != flags[j].id
  }

  lemma SortKeepsMembers(flags: seq<Provenance>)
    ensures forall p :: p in SortById(flags) <==> p in flags
  {
    forall p ensures p in SortById(flags) <==> p in flags {
      assert p in multiset(SortById(flags)) <==> p in multiset(flags);
    }
  }

  lemma InsertKeepsMembers(p: Provenance, flags: seq<Provenance>)
    ensures forall q :: q in InsertById(p, flags) <==> q == p || q in flags
  {
    forall q ensures q in InsertById(p, flags) <==> q == p || q in flags {
      assert q in multiset(InsertById(p, flags)) <==> q in multiset(flags) + multiset{p};
    }
  }

  lemma {:induction false} InsertIncreasing(p: Provenance, flags: seq<Provenance>)
    requires Increasing(flags) && forall q <- flags :: q.id != p.id
    ensures Increasing(InsertById(p, flags))
  {
    if flags != [] {
      var head, rest := flags[0], flags[1..];
      BeforeIsTotal(p.id, head.id);
      if Before(p.id, head.id) {
        forall q | q in rest ensures Before(p.id, q.id) {
          BeforeIsTransitive(p.id, head.id, q.id);
        }
      } else {
        InsertIncreasing(p, rest);
        InsertKeepsMembers(p, rest);
        var r := InsertById(p, rest);
        forall j | 0 <= j < |r| ensures Before(head.id, r[j].id) {
          assert r[j] in r;
        }
      }
    }
  }

  lemma {:induction false} SortIncreasing(flags: seq<Provenance>)
    requires DistinctIds(flags)
    ensures Increasing(SortById(flags))
  {
    if flags != [] {
      SortIncreasing(flags[1..]);
      SortKeepsMembers(flags[1..]);
      InsertIncreasing(flags[0], SortById(flags[1..]));
    }
  }

  /** Every id is flagged once. */
  lemma {:induction false} ScannedOnce(root: string, infos: seq<EdgeInfo>)
    ensures DistinctIds(ScanEdges(root, infos).found.provenance)
  {
    if infos != [] {
      var rest := infos[..|infos| - 1];
      ScannedOnce(root, rest);
      ScannedFlags(root, rest);
      var flags := ScanEdges(root, rest).found.provenance;
      forall p | p in flags ensures p.id in ScanEdges(root, rest).seen {
        assert HasFlag(flags, p.id);
      }
    }
  }

  // ---- the classification is exact -----------------------------------------

  ghost predicate Reported(infos: seq<EdgeInfo>, e: Edge) {
    exists info <- infos :: info.edge == e
  }

  /** Every bucket entry is a reported edge at the root, and every reported edge at the
      root is in exactly one of the two records. */
  ghost predicate Exact(root: string, infos: seq<EdgeInfo>, c: Classified) {
    && (forall t, n :: Listed(c.outs, t, n) <==> Reported(infos, Edge(t, root, n)))
    && (forall t, n :: Listed(c.ins, t, n) <==> n != root && Reported(infos, Edge(t, n, root)))
  }

  ghost predicate HasFlag(flags: seq<Provenance>, id: string) {
    exists p <- flags :: p.id == id
  }

  /** The flag is one the server reported for that edge at the root. */
  ghost predicate Backed(root: string, infos: seq<EdgeInfo>, p: Provenance) {
    exists info <- infos :: Touches(info.edge, root) && EdgeId(info.edge) == p.id && info.derived == p.derived
  }

  /** Every flag is a reported one, and every reported edge at the root has one. */
  ghost predicate FlagsExact(root: string, infos: seq<EdgeInfo>, flags: seq<Provenance>) {
    && (forall p <- flags :: Backed(root, infos, p))
    && (forall info <- infos :: Touches(info.edge, root) ==> HasFlag(flags, EdgeId(info.edge)))
  }

  /** In the list that is returned, sorted. */
  lemma FlagsAreExact(root: string, infos: seq<EdgeInfo>)
    ensures FlagsExact(root, infos, ClassifyAll(root, infos).provenance)
  {
    ScannedFlags(root, infos);
    var flags, sorted := ScanEdges(root, infos).found.provenance, ClassifyAll(root, infos).provenance;
    SortKeepsMembers(flags);
    forall info | info in infos && Touches(info.edge, root) ensures HasFlag(sorted, EdgeId(info.edge)) {
      var p :| p in flags && p.id == EdgeId(info.edge);
      assert p in sorted;
    }
  }

  lemma {:induction false} ScannedFlags(root: string, infos: seq<EdgeInfo>)
    ensures var s := ScanEdges(root, infos);
            && FlagsExact(root, infos, s.found.provenance)
            && (forall id :: id in s.seen <==> HasFlag(s.found.provenance, id))
  {
    if infos != [] {
      var rest, info := infos[..|infos| - 1], infos[|infos| - 1];
      assert infos == rest + [info];
      ScannedFlags(root, rest);
      var s, r := ScanEdges(root, rest), ScanEdges(root, infos);
      forall p | p in r.found.provenance ensures Backed(root, infos, p) {
        if p in s.found.provenance { assert Backed(root, rest, p); }
      }
      forall id ensures id in r.seen <==> HasFlag(r.found.provenance, id) {
        if r != s {
          assert r.found.provenance[|s.found.provenance|].id == EdgeId(info.edge);
          if HasFlag(s.found.provenance, id) {
            var p :| p in s.found.provenance && p.id == id;
            assert p in r.found.provenance;
          }
        }
      }
    }
  }

  lemma ReportedGrows(rest: seq<EdgeInfo>, info: EdgeInfo)
    ensures forall e :: Reported(rest + [info], e) <==> Reported(rest, e) || e == info.edge
  {
    assert info in rest + [info];
  }

  /** An edge that is not at the root, or was reported before, changes nothing. */
  lemma ExactStays(root: string, rest: seq<EdgeInfo>, info: EdgeInfo, c: Classified)
    requires Exact(root, rest, c) && (!Touches(info.edge, root) || Reported(rest, info.edge))
    ensures Exact(root, rest + [info], c)
  {
    ReportedGrows(rest, info);
  }

  /** A new one is listed where it belongs. */
  lemma ExactGrows(root: string, rest: seq<EdgeInfo>, info: EdgeInfo, s: Scan)
    requires Exact(root, rest, s.found) && Touches(info.edge, root) && EdgeId(info.edge) !in s.seen
    ensures Exact(root, rest + [info], ScanEdge(s, root, info).found)
  {
    ReportedGrows(rest, info);
  }

  lemma {:induction false} ClassificationIsExact(root: string, infos: seq<EdgeInfo>)
    requires forall info <- infos :: BarFree(info.edge)
    ensures Exact(root, infos, ClassifyAll(root, infos))
  {
    if infos != [] {
      var rest, info := infos[..|infos| - 1], infos[|infos| - 1];
      assert infos == rest + [info];
      ClassificationIsExact(root, rest);
      var s := ScanEdges(root, rest);
      if !Touches(info.edge, root) {
        ExactStays(root, rest, info, s.found);
      } else if EdgeId(info.edge) in s.seen {
        ScannedFlags(root, rest);
        SeenMeansReported(root, rest, info, s.found.provenance);
        ExactStays(root, rest, info, s.found);
      } else {
        ExactGrows(root, rest, info, s);
      }
    }
  }

  /** Some reported edge at the root has a type every object inherits. */
  ghost predicate ReportsInherited(root: string, infos: seq<EdgeInfo>) {
    exists info <- infos :: Touches(info.edge, root) && info.edge.etype in INHERITED
  }

  /** With bar-free names the loop completes if and only if no reported edge at the root has
      an inherited type; then it returns the scan. */
  lemma {:induction false} ThrowsIffInherited(root: string, infos: seq<EdgeInfo>)
    requires forall info <- infos :: BarFree(info.edge)
    ensures ScanThrows(root, infos) <==> ReportsInherited(root, infos)
  {
    if infos != [] {
      var rest, info := infos[..|infos| - 1], infos[|infos| - 1];
      assert infos == rest + [info];
      ThrowsIffInherited(root, rest);
      if ReportsInherited(root, rest) {
        var i :| i in rest && Touches(i.edge, root) && i.edge.etype in INHERITED;
        assert i in infos;
      } else {
        NotInheritedYet(root, rest, info);
        assert info in infos;
      }
    }
  }

  /** Before the first such edge it has no bucket, and has not been seen. */
  lemma NotInheritedYet(root: string, rest: seq<EdgeInfo>, info: EdgeInfo)
    requires (forall i <- rest :: BarFree(i.edge)) && BarFree(info.edge) && !ReportsInherited(root, rest)
    ensures Trips(ScanEdges(root, rest), root, info) <==> Touches(info.edge, root) && info.edge.etype in INHERITED
  {
    var s, e := ScanEdges(root, rest), info.edge;
    ClassificationIsExact(root, rest);
    ScannedFlags(root, rest);
    if Touches(e, root) && e.etype in INHERITED {
      if EdgeId(e) in s.seen {
        SeenMeansReported(root, rest, info, s.found.provenance);
      }
      BucketsAreListed(root, rest, e.etype);
    }
  }

  /** A bucket has a neighbour, so its type was reported. */
  lemma {:induction false} BucketsAreListed(root: string, infos: seq<EdgeInfo>, etype: string)
    ensures var c := ScanEdges(root, infos).found;
            etype in c.outs.buckets || etype in c.ins.buckets ==>
              exists info <- infos :: Touches(info.edge, root) && info.edge.etype == etype
  {
    if infos != [] {
      var rest, info := infos[..|infos| - 1], infos[|infos| - 1];
      assert infos == rest + [info];
      BucketsAreListed(root, rest, etype);
      var c := ScanEdges(root, rest).found;
      if etype in c.outs.buckets || etype in c.ins.buckets {
        var i :| i in rest && Touches(i.edge, root) && i.edge.etype == etype;
        assert i in infos;
      } else {
        assert info in infos;
      }
    }
  }

  /** One edge of an inherited type at the root, and the answer cannot be classified. */
  lemma InheritedTypeThrows(root: string, nbr: string, etype: string, derived: bool)
    requires etype in INHERITED
    ensures ScanThrows(root, [EdgeInfo(Edge(etype, root, nbr), derived)])
  {
    var infos := [EdgeInfo(Edge(etype, root, nbr), derived)];
    assert infos[..0] == [];
    assert ScanEdges(root, infos[..0]) == NOTHING_SCANNED;
    assert Trips(NOTHING_SCANNED, root, infos[0]);
  }

  /** With bar-free names an id already seen is an edge already reported. */
  lemma SeenMeansReported(root: string, rest: seq<EdgeInfo>, info: EdgeInfo, flags: seq<Provenance>)
    requires BarFree(info.edge)
    requires FlagsExact(root, rest, flags) && HasFlag(flags, EdgeId(info.edge))
    ensures Reported(rest, info.edge)
  {
    var p :| p in flags && p.id == EdgeId(info.edge);
    assert Backed(root, rest, p);
    var i :| i in rest && EdgeId(i.edge) == p.id;
    BarFreeIdIsUnique(info.edge, i.edge);
  }

  // ---- expansion -----------------------------------------------------------

  function SetFlags(v: View, flags: seq<Provenance>): View {
    if flags == [] then v else
    SetDerived(SetFlags(v, flags[..|flags| - 1]), flags[|flags| - 1].id, flags[|flags| - 1].derived)
  }

  /** The answers one expansion gets: the neighbourhood rows, the root's edges, and the labels
      of the nodes whose details could be fetched. */
  datatype Answers = Answers(
    columns: seq<string>, rows: seq<seq<Cell>>, infos: seq<EdgeInfo>, labels: map<string, string>)

  function Other(e: Edge, root: string): string { if e.src == root then e.dst else e.src }

  /** The edge leads from the root to a drawn node without a label. */
  predicate LeadsToUnlabelled(v: View, root: string, e: Edge) {
    Touches(e, root) && Other(e, root) in v.nodes && v.nodes[Other(e, root)] == ""
  }

  /** The keys `fillMissingNodeInfo` asks about. */
  function MissingInfo(v: View, root: string): set<string> {
    {root} + set id | id in v.edges && LeadsToUnlabelled(v, root, v.edges[id].edge) :: Other(v.edges[id].edge, root)
  }

  /** The canvas with the details of some nodes filled in. */
  function Fill(v: View, done: set<string>, labels: map<string, string>): View
    requires done <= labels.Keys
  {
    v.(nodes := map k | k in v.nodes :: if k in done && labels[k] != "" then labels[k] else v.nodes[k],
       dirty := v.dirty - done * v.nodes.Keys)
  }

  /** The two merges and the flags of an expansion that is not cut short. */
  ghost function Draw(v: View, root: string, infos: seq<EdgeInfo>): View {
    ScannedRecordsOk(root, infos);
    SetFlags(Merged(v, root, infos), ClassifyAll(root, infos).provenance)
  }

  ghost function Merged(v: View, root: string, infos: seq<EdgeInfo>): View {
    ScannedRecordsOk(root, infos);
    var c := ClassifyAll(root, infos);
    Merge(Merge(v, root, c.outs, Out), root, c.ins, In)
  }

  /** An expansion; if the classification throws, it ends after the neighbourhood. */
  ghost function Expand(v: View, root: string, a: Answers): View {
    var v1 := FromNeighborhood(v, root, a.columns, a.rows);
    if NeedsEdges(v1, root) && ScanThrows(root, a.infos) then v1 else
    var v2 := if NeedsEdges(v1, root) then Draw(v1, root, a.infos) else v1;
    Fill(v2, MissingInfo(v2, root) * a.labels.Keys, a.labels)
  }

  /** `attachEdges` and `applyClassified`. */
  method AttachEdges(store: GraphStore, root: string, infos: seq<EdgeInfo>) returns (threw: bool)
    modifies store
    ensures threw <==> NeedsEdges(old(store.V()), root) && ScanThrows(root, infos)
    ensures store.V() == if NeedsEdges(old(store.V()), root) && !threw then Draw(old(store.V()), root, infos) else old(store.V())
  {
    if !NeedsEdges(store.V(), root) { return false; }
    var classified := ClassifyFromEdges(root, infos);
    if classified.None? { return true; }
    var c := classified.value;
    ScannedRecordsOk(root, infos);
    store.MergeNeighborhoodWithEdges(root, c.outs, Out);
    store.MergeNeighborhoodWithEdges(root, c.ins, In);
    ApplyFlags(store, c.provenance);
    return false;
  }

  method ApplyFlags(store: GraphStore, flags: seq<Provenance>)
    modifies store
    ensures store.V() == SetFlags(old(store.V()), flags)
  {
    for i := 0 to |flags|
      invariant store.V() == SetFlags(old(store.V()), flags[..i])
    {
      assert flags[..i + 1][..i] == flags[..i];
      store.SetDerived(flags[i].id, flags[i].derived);
    }
    assert flags[..|flags|] == flags;
  }

  /** `fillMissingNodeInfo`: the calls settle in any order; a key without a label in `labels`
      is one whose call failed. */
  method FillMissingNodeInfo(store: GraphStore, root: string, labels: map<string, string>)
    modifies store
    ensures store.V() == Fill(old(store.V()), MissingInfo(old(store.V()), root) * labels.Keys, labels)
  {
    ghost var start := store.V();
    var keys := {root};
    var left := store.edges.Keys;
    while left != {}
      invariant left <= store.edges.Keys && store.V() == start
      invariant keys == {root} + set id | id in start.edges.Keys - left && LeadsToUnlabelled(start, root, start.edges[id].edge) ::
                                   Other(start.edges[id].edge, root)
    {
      var id :| id in left;
      left := left - {id};
      if LeadsToUnlabelled(store.V(), root, store.edges[id].edge) {
        keys := keys + {Other(store.edges[id].edge, root)};
      }
    }
    assert keys == MissingInfo(start, root);
    var answered := keys * labels.Keys;
    ghost var done: set<string> := {};
    while answered != {}
      invariant answered !! done && done + answered == MissingInfo(start, root) * labels.Keys
      invariant store.V() == Fill(start, done, labels)
    {
      var key :| key in answered;
      FillOneMore(start, done, labels, key);
      store.ApplyNodeInfo(key, labels[key]);
      answered, done := answered - {key}, done + {key};
    }
  }

  lemma FillOneMore(v: View, done: set<string>, labels: map<string, string>, key: string)
    requires done + {key} <= labels.Keys
    ensures ApplyNodeInfo(Fill(v, done, labels), key, labels[key]) == Fill(v, done + {key}, labels)
  {
    var now, next := ApplyNodeInfo(Fill(v, done, labels), key, labels[key]), Fill(v, done + {key}, labels);
    assert now.nodes == next.nodes;
    assert now.dirty == next.dirty;
  }

  /** `expandNode` at depth 1, no event between its awaits. A classification that throws
      leaves the root drawn and still in need of edges. */
  method ExpandNode(store: GraphStore, root: string, a: Answers) returns (threw: bool)
    modifies store
    ensures threw <==> ScanThrows(root, a.infos)
    ensures store.V() == Expand(old(store.V()), root, a)
    ensures threw ==> NeedsEdges(store.V(), root) && store.edges == old(store.edges)
  {
    FromNeighborhoodKeeps(store.V(), root, a.columns, a.rows);
    store.FromNeighborhood(root, a.columns, a.rows);
    threw := AttachEdges(store, root, a.infos);
    if !threw { FillMissingNodeInfo(store, root, a.labels); }
  }

  /** The edge has one of the flags listed for its id. */
  ghost predicate Flagged(c: CanvasEdge, id: string, flags: seq<Provenance>) {
    exists p <- flags :: p.id == id && c.derived == Some(p.derived)
  }

  lemma {:induction false} SetFlagsEffect(v: View, flags: seq<Provenance>)
    ensures var w := SetFlags(v, flags);
            && w == v.(edges := w.edges) && w.edges.Keys == v.edges.Keys
            && (forall id <- v.edges :: w.edges[id].edge == v.edges[id].edge)
            && (forall id <- v.edges ::
                  if HasFlag(flags, id) then Flagged(w.edges[id], id, flags) else w.edges[id] == v.edges[id])
  {
    if flags != [] {
      var rest, last := flags[..|flags| - 1], flags[|flags| - 1];
      assert flags == rest + [last];
      SetFlagsEffect(v, rest);
      var u, w := SetFlags(v, rest), SetFlags(v, flags);
      forall id | id in v.edges
        ensures if HasFlag(flags, id) then Flagged(w.edges[id], id, flags) else w.edges[id] == v.edges[id]
      {
        if id == last.id {
          assert last in flags && w.edges[id].derived == Some(last.derived);
        } else {
          assert HasFlag(flags, id) <==> HasFlag(rest, id);
        }
      }
    }
  }

  lemma DrawKeeps(v: View, root: string, infos: seq<EdgeInfo>)
    ensures Keeps(v, Draw(v, root, infos))
  {
    var c := ClassifyAll(root, infos);
    ScannedRecordsOk(root, infos);
    var v1 := Merge(v, root, c.outs, Out);
    MergeKeeps(v, root, c.outs, Out);
    MergeKeeps(v1, root, c.ins, In);
    SetFlagsEffect(Merge(v1, root, c.ins, In), c.provenance);
  }

  lemma ExpandKeeps(v: View, root: string, a: Answers)
    ensures Keeps(v, Expand(v, root, a))
  {
    var v1 := FromNeighborhood(v, root, a.columns, a.rows);
    FromNeighborhoodKeeps(v, root, a.columns, a.rows);
    DrawKeeps(v1, root, a.infos);
  }

  // ---- the labels an expansion leaves --------------------------------------

  /** Drawn nodes keep their labels, and new ones have none. */
  ghost predicate SameLabels(v: View, w: View) {
    && v.nodes.Keys <= w.nodes.Keys && w.dirty == v.dirty
    && forall k <- w.nodes :: w.nodes[k] == LabelIn(v, k)
  }

  function LabelIn(v: View, k: string): string { if k in v.nodes then v.nodes[k] else "" }

  lemma SameLabelsTransitive(u: View, v: View, w: View)
    requires SameLabels(u, v) && SameLabels(v, w)
    ensures SameLabels(u, w)
  {
  }

  lemma OneLabels(v: View, root: string, etype: string, nbr: string, dir: Dir)
    ensures SameLabels(v, MergeOne(v, root, etype, nbr, dir))
  {
    assert MergeOne(v, root, etype, nbr, dir).nodes == UpsertNode(v, nbr, "").nodes;
  }

  lemma {:induction false} BucketLabels(v: View, root: string, etype: string, nbrs: seq<string>, dir: Dir)
    ensures SameLabels(v, MergeBucket(v, root, etype, nbrs, dir))
  {
    if nbrs != [] {
      var before := MergeBucket(v, root, etype, nbrs[..|nbrs| - 1], dir);
      BucketLabels(v, root, etype, nbrs[..|nbrs| - 1], dir);
      OneLabels(before, root, etype, nbrs[|nbrs| - 1], dir);
      SameLabelsTransitive(v, before, MergeBucket(v, root, etype, nbrs, dir));
    }
  }

  lemma {:induction false} BucketsLabels(v: View, root: string, buckets: map<string, seq<string>>, order: seq<string>, dir: Dir)
    requires forall t <- order :: t in buckets
    ensures SameLabels(v, MergeBuckets(v, root, buckets, order, dir))
  {
    if order != [] {
      var rest, t := order[..|order| - 1], order[|order| - 1];
      BucketsLabels(v, root, buckets, rest, dir);
      BucketLabels(MergeBuckets(v, root, buckets, rest, dir), root, t, buckets[t], dir);
    }
  }

  lemma MergeLabels(v: View, root: string, record: Record, dir: Dir)
    requires RecordOk(record)
    ensures SameLabels(v, Merge(v, root, record, dir))
  {
    BucketsLabels(UpsertNode(v, root, ""), root, record.buckets, Entries(record.keys), dir);
  }

  lemma DrawLabels(v: View, root: string, infos: seq<EdgeInfo>)
    ensures SameLabels(v, Draw(v, root, infos))
  {
    var c := ClassifyAll(root, infos);
    ScannedRecordsOk(root, infos);
    MergeLabels(v, root, c.outs, Out);
    MergeLabels(Merge(v, root, c.outs, Out), root, c.ins, In);
    SetFlagsEffect(Merged(v, root, infos), c.provenance);
  }

  predicate Joins(e: Edge, a: string, b: string) {
    (e.src == a && e.dst == b) || (e.src == b && e.dst == a)
  }

  /** An edge drawn on `w` joins the root and this node. */
  ghost predicate JoinedTo(w: View, root: string, k: string) {
    exists id <- w.edges :: Joins(w.edges[id].edge, root, k)
  }

  /** Whom a completed expansion asks about: the root, and the nodes joined to it that the
      neighbourhood left without a label. */
  ghost predicate AskedAbout(v1: View, w: View, root: string, k: string) {
    k == root || (LabelIn(v1, k) == "" && JoinedTo(w, root, k))
  }

  /** A completed expansion gives exactly those their answered label, if it is not empty, and
      stops their being dirty; every other node keeps the label the neighbourhood left it. */
  lemma ExpandLabels(v: View, root: string, a: Answers, k: string)
    requires WellFormed(v) && !ScanThrows(root, a.infos) && k in Expand(v, root, a).nodes
    ensures var v1, w := FromNeighborhood(v, root, a.columns, a.rows), Expand(v, root, a);
            && w.nodes[k] == (if AskedAbout(v1, w, root, k) && k in a.labels && a.labels[k] != "" then a.labels[k] else LabelIn(v1, k))
            && (k in w.dirty <==> k in v1.dirty && !(AskedAbout(v1, w, root, k) && k in a.labels))
  {
    var v1 := FromNeighborhood(v, root, a.columns, a.rows);
    FromNeighborhoodKeeps(v, root, a.columns, a.rows);
    DrawLabels(v1, root, a.infos);
    DrawKeeps(v1, root, a.infos);
    var v2 := Draw(v1, root, a.infos);
    MissingInfoMeans(v1, v2, root, k);
    assert Expand(v, root, a).edges == v2.edges;
  }

  lemma MissingInfoMeans(v1: View, v2: View, root: string, k: string)
    requires WellFormed(v2) && SameLabels(v1, v2) && k in v2.nodes
    ensures k in MissingInfo(v2, root) <==> AskedAbout(v1, v2, root, k)
  {
    if k != root && JoinedTo(v2, root, k) && LabelIn(v1, k) == "" {
      var id :| id in v2.edges && Joins(v2.edges[id].edge, root, k);
      assert LeadsToUnlabelled(v2, root, v2.edges[id].edge) && Other(v2.edges[id].edge, root) == k;
    }
  }
}
