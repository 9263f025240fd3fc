/** Whole hand-rolled runs (benchmarks/adapters/handrolled.py). The `props` dictionaries
    are objects the run shares with its caller, and the update loop writes into them: a
    second run on the same node list starts where the first one ended. */
module HandRolledRuns {
  import opened HandRolled

  /** A `props` dictionary, reduced to the one field the rule reads. */
  class Dict {
    var specialties: seq<string>

    constructor (specialties: seq<string>)
      ensures this.specialties == specialties
    {
      this.specialties := specialties;
    }
  }

  datatype NodeRec = NodeRec(key: string, lab: string, props: Dict)

  function Dicts(nodes: seq<NodeRec>): (r: set<Dict>)
    ensures forall i :: 0 <= i < |nodes| ==> nodes[i].props in r
  {
    set n | n in nodes :: n.props
  }

  /** What the nodes say now. */
  function View(nodes: seq<NodeRec>): (r: seq<Item>)
    reads Dicts(nodes)
    ensures |r| == |nodes|
    ensures forall i :: 0 <= i < |nodes| ==> r[i] == Item(nodes[i].key, nodes[i].lab, nodes[i].props.specialties)
  {
    if nodes == [] then [] else
    var last := nodes[|nodes| - 1];
    View(nodes[..|nodes| - 1]) + [Item(last.key, last.lab, last.props.specialties)]
  }

  /** Keys are distinct, and no two nodes share a dictionary. */
  ghost predicate Distinct(nodes: seq<NodeRec>) {
    forall i, j :: 0 <= i < j < |nodes| ==> nodes[i].key != nodes[j].key && nodes[i].props != nodes[j].props
  }

  ghost function JoinSet(items: seq<Item>): (r: set<Pair>) {
    set t, c | t in items && c in items && t.lab == TALENT && c.lab == COMPANY && Match(t.specs, c.specs) :: (t.key, c.key)
  }

  /** The join as a set: a set with the pairs of the join is that set, and maintained. */
  lemma JoinSetIsJoin(items: seq<Item>, edges: set<Pair>)
    ensures (forall p: Pair :: p in edges <==> InJoin(items, p)) <==> edges == JoinSet(items)
    ensures Maintained(JoinSet(items), items)
  {
    forall p: Pair ensures p in JoinSet(items) <==> InJoin(items, p) {
    }
  }

  /** `talent_index`: where each talent is in the list, its dictionary shared. */
  method IndexTalents(nodes: seq<NodeRec>) returns (index: map<string, nat>)
    requires Distinct(nodes)
    ensures Indexes(nodes, index)
  {
    index := map[];
    for i := 0 to |nodes|
      invariant forall k <- index :: index[k] < i && nodes[index[k]].key == k && nodes[index[k]].lab == TALENT
      invariant forall j :: 0 <= j < i && nodes[j].lab == TALENT ==> nodes[j].key in index
    {
      if nodes[i].lab == TALENT {
        index := index[nodes[i].key := i];
      }
    }
  }

  ghost predicate Indexes(nodes: seq<NodeRec>, index: map<string, nat>) {
    && (forall k <- index :: index[k] < |nodes| && nodes[index[k]].key == k && nodes[index[k]].lab == TALENT)
    && (forall i :: 0 <= i < |nodes| && nodes[i].lab == TALENT ==> nodes[i].key in index)
  }

  lemma ViewDistinct(nodes: seq<NodeRec>)
    requires Distinct(nodes)
    ensures DistinctKeys(View(nodes))
  {
    forall i, j | 0 <= i < j < |nodes| ensures View(nodes)[i].key != View(nodes)[j].key {
      assert nodes[i].key != nodes[j].key;
    }
  }

  /** `talent_index[key]["specialties"] = new`: the dictionary is written in place. */
  method WriteSpecs(nodes: seq<NodeRec>, index: map<string, nat>, u: Update)
    requires Distinct(nodes) && Indexes(nodes, index)
    modifies Dicts(nodes)
    ensures View(nodes) == SetSpecs(old(View(nodes)), u)
  {
    ghost var before := View(nodes);
    if u.key in index {
      var at := index[u.key];
      var dict := nodes[at].props;
      assert nodes[at] in nodes;
      dict.specialties := u.specs;
      forall i | 0 <= i < |nodes| ensures View(nodes)[i] == SetSpecs(before, u)[i] {
        assert i != at ==> nodes[i].key != u.key && nodes[i].props != dict;
      }
    } else {
      forall i | 0 <= i < |nodes| ensures View(nodes)[i] == SetSpecs(before, u)[i] {
        assert nodes[i].key == u.key ==> nodes[i].lab != TALENT;
      }
    }
  }

  /** One update: the nodes, then the edges of the talent it names. */
  method ApplyUpdate(nodes: seq<NodeRec>, index: map<string, nat>, edges: set<Pair>, companies: seq<Item>, u: Update, batched: bool)
    returns (after: set<Pair>, retracted: nat, added: nat)
    requires Distinct(nodes) && Indexes(nodes, index) && DistinctKeys(companies)
    modifies Dicts(nodes)
    ensures View(nodes) == SetSpecs(old(View(nodes)), u)
    ensures after == AfterUpdate(edges, companies, u)
    ensures retracted == |edges - after| && added == |after - edges|
  {
    WriteSpecs(nodes, index, u);
    if batched {
      after, retracted, added := UpdateBatched(edges, companies, u);
    } else {
      after, retracted, added := UpdateNaive(edges, companies, u);
    }
  }

  lemma OneMoreUpdate(items: seq<Item>, edges: set<Pair>, companies: seq<Item>, us: seq<Update>, i: nat)
    requires i < |us|
    ensures AfterUpdates(items, us[..i + 1]) == SetSpecs(AfterUpdates(items, us[..i]), us[i])
    ensures var t := Maintain(edges, companies, us[..i]);
            var after := AfterUpdate(t.edges, companies, us[i]);
            Maintain(edges, companies, us[..i + 1]) == Tally(after, t.retracted + |t.edges - after|, t.added + |after - t.edges|)
  {
    assert us[..i + 1][..i] == us[..i];
  }

  /** The body of the update loop: what held of the first `i` updates holds of one more. */
  method ApplyNext(nodes: seq<NodeRec>, index: map<string, nat>, companies: seq<Item>, updates: seq<Update>, i: nat,
                   batched: bool, now: Tally, ghost start: seq<Item>, ghost ingested: set<Pair>)
    returns (next: Tally)
    requires i < |updates| && Distinct(nodes) && Indexes(nodes, index) && DistinctKeys(companies)
    requires View(nodes) == AfterUpdates(start, updates[..i])
    requires now == Maintain(ingested, companies, updates[..i])
    modifies Dicts(nodes)
    ensures View(nodes) == AfterUpdates(start, updates[..i + 1])
    ensures next == Maintain(ingested, companies, updates[..i + 1])
  {
    OneMoreUpdate(start, ingested, companies, updates, i);
    var edges, r, a := ApplyUpdate(nodes, index, now.edges, companies, updates[i], batched);
    next := Tally(edges, now.retracted + r, now.added + a);
  }

  /** The update loop. */
  method ApplyUpdates(nodes: seq<NodeRec>, ingested: set<Pair>, companies: seq<Item>, updates: seq<Update>, batched: bool)
    returns (tally: Tally)
    requires Distinct(nodes) && DistinctKeys(companies)
    modifies Dicts(nodes)
    ensures View(nodes) == AfterUpdates(old(View(nodes)), updates)
    ensures tally == Maintain(ingested, companies, updates)
  {
    var index := IndexTalents(nodes);
    tally := Tally(ingested, 0, 0);
    ghost var start := View(nodes);
    for i := 0 to |updates|
      invariant View(nodes) == AfterUpdates(start, updates[..i])
      invariant tally == Maintain(ingested, companies, updates[..i])
    {
      tally := ApplyNext(nodes, index, companies, updates, i, batched, tally, start, ingested);
    }
    assert updates[..|updates|] == updates;
  }

  method IngestAll(items: seq<Item>, chunkSize: nat) returns (edges: set<Pair>)
    requires chunkSize > 0 && DistinctKeys(items)
    ensures edges == JoinSet(items)
  {
    var emitted, _ := Ingest(items, chunkSize);
    edges := set p | p in emitted;
    JoinSetIsJoin(items, edges);
  }

  /** `run_handrolled` and `run_handrolled_naive`: whatever the chunk size and the updates,
      the reported edges are the join of the nodes as the run leaves them, the counters are
      those of the specification, and the caller's nodes carry the updates. */
  method RunHandrolled(nodes: seq<NodeRec>, chunkSize: nat, updates: seq<Update>, batched: bool)
    returns (specEdges: set<Pair>, retracted: nat, added: nat)
    requires chunkSize > 0 && Distinct(nodes)
    modifies Dicts(nodes)
    ensures View(nodes) == AfterUpdates(old(View(nodes)), updates)
    ensures specEdges == JoinSet(View(nodes))
    ensures var t := Maintain(JoinSet(old(View(nodes))), OfLabel(old(View(nodes)), COMPANY), updates);
            retracted == t.retracted && added == t.added
  {
    var start := View(nodes);
    ViewDistinct(nodes);
    var ingested := IngestAll(start, chunkSize);
    OfLabelDistinct(start, COMPANY);
    var tally := ApplyUpdates(nodes, ingested, OfLabel(start, COMPANY), updates, batched);
    specEdges := CollectEdgeSet(View(nodes), tally.edges);
    RunReports(start, updates);
    retracted, added := tally.retracted, tally.added;
  }

  ghost function TalentEdges(items: seq<Item>, edges: set<Pair>): set<Pair> {
    set p | p in edges && IsTalent(items, p.0)
  }

  /** Without the strays, the maintained edges are the join of the updated nodes. */
  lemma RunReports(start: seq<Item>, updates: seq<Update>)
    requires DistinctKeys(start)
    ensures var edges := Maintain(JoinSet(start), OfLabel(start, COMPANY), updates).edges;
            TalentEdges(AfterUpdates(start, updates), edges) == JoinSet(AfterUpdates(start, updates))
  {
    var end := AfterUpdates(start, updates);
    var edges := Maintain(JoinSet(start), OfLabel(start, COMPANY), updates).edges;
    JoinSetIsJoin(start, JoinSet(start));
    UpdatesMaintain(JoinSet(start), start, updates);
    forall p: Pair ensures p in TalentEdges(end, edges) <==> InJoin(end, p) {
      JoinStartsAtTalent(end, p);
    }
    JoinSetIsJoin(end, TalentEdges(end, edges));
  }

  lemma JoinStartsAtTalent(items: seq<Item>, p: Pair)
    ensures InJoin(items, p) ==> IsTalent(items, p.0)
  {
    if InJoin(items, p) {
      var t, c :| t in items && c in items && t.lab == TALENT && c.lab == COMPANY
                  && Match(t.specs, c.specs) && p == (t.key, c.key);
    }
  }

  /** `collect_edge_set`: the stored edges whose source is a talent. */
  method CollectEdgeSet(items: seq<Item>, edges: set<Pair>) returns (out: set<Pair>)
    ensures out == TalentEdges(items, edges)
  {
    out := {};
    for i := 0 to |items|
      invariant out == TalentEdges(items[..i], edges)
    {
      assert items[..i + 1] == items[..i] + [items[i]];
      if items[i].lab == TALENT {
        out := out + set p | p in edges && p.0 == items[i].key;
      }
    }
    assert items[..|items|] == items;
  }

  // ---- two runs on one list of nodes ---------------------------------------

  /** Each talent ends with the specialties of the last update that names it. */
  lemma {:induction false} LastUpdateWins(items: seq<Item>, us: seq<Update>, i: nat, j: nat)
    requires i < |items| && j < |us| && items[i].lab == TALENT && items[i].key == us[j].key
    requires forall k :: j < k < |us| ==> us[k].key != us[j].key
    ensures |AfterUpdates(items, us)| == |items| && AfterUpdates(items, us)[i] == items[i].(specs := us[j].specs)
  {
    AfterUpdatesShape(items, us[..|us| - 1]);
    if j < |us| - 1 {
      LastUpdateWins(items, us[..|us| - 1], i, j);
    }
  }

  lemma {:induction false} AfterUpdatesShape(items: seq<Item>, us: seq<Update>)
    ensures |AfterUpdates(items, us)| == |items|
    ensures forall i :: 0 <= i < |items| ==> AfterUpdates(items, us)[i] == items[i].(specs := AfterUpdates(items, us)[i].specs)
  {
    if us != [] { AfterUpdatesShape(items, us[..|us| - 1]); }
  }

  lemma {:induction false} UntouchedStays(items: seq<Item>, us: seq<Update>, i: nat)
    requires i < |items| && (items[i].lab == TALENT ==> forall k :: 0 <= k < |us| ==> us[k].key != items[i].key)
    ensures |AfterUpdates(items, us)| == |items| && AfterUpdates(items, us)[i] == items[i]
  {
    if us != [] { UntouchedStays(items, us[..|us| - 1], i); }
  }

  /** Applying a list of updates twice is applying it once. */
  lemma UpdatesAreIdempotent(items: seq<Item>, us: seq<Update>)
    ensures AfterUpdates(AfterUpdates(items, us), us) == AfterUpdates(items, us)
  {
    var once := AfterUpdates(items, us);
    AfterUpdatesShape(items, us);
    AfterUpdatesShape(once, us);
    forall i | 0 <= i < |items| ensures AfterUpdates(once, us)[i] == once[i] {
      if items[i].lab == TALENT && exists k :: 0 <= k < |us| && us[k].key == items[i].key {
        var j := LastNaming(us, items[i].key);
        LastUpdateWins(items, us, i, j);
        LastUpdateWins(once, us, i, j);
      } else {
        UntouchedStays(items, us, i);
        UntouchedStays(once, us, i);
      }
    }
  }

  lemma {:induction false} LastNaming(us: seq<Update>, key: string) returns (j: nat)
    requires exists k :: 0 <= k < |us| && us[k].key == key
    ensures j < |us| && us[j].key == key && forall k :: j < k < |us| ==> us[k].key != key
  {
    if us[|us| - 1].key == key {
      j := |us| - 1;
    } else {
      j := LastNaming(us[..|us| - 1], key);
    }
  }

  /** The updates name distinct talents. */
  ghost predicate OneEach(items: seq<Item>, us: seq<Update>) {
    && (forall i, j :: 0 <= i < j < |us| ==> us[i].key != us[j].key)
    && (forall i :: 0 <= i < |us| ==> IsTalent(items, us[i].key))
  }

  /** On nodes that already carry the updates, updates with distinct keys move no edge. */
  lemma {:induction false} SecondPassIsIdle(items: seq<Item>, us: seq<Update>, done: seq<Update>)
    requires DistinctKeys(items) && done <= us && OneEach(items, us)
    ensures var after := AfterUpdates(items, us);
            Maintain(JoinSet(after), OfLabel(after, COMPANY), done) == Tally(JoinSet(after), 0, 0)
  {
    if done != [] {
      var after, u := AfterUpdates(items, us), us[|done| - 1];
      assert IsTalent(items, u.key);
      SecondPassIsIdle(items, us, done[..|done| - 1]);
      AfterUpdatesKeeps(items, us);
      AlreadyApplied(items, us, |done| - 1);
      IdleUpdate(after, u);
    }
  }

  /** An update the nodes already carry moves no edge of the join. */
  lemma IdleUpdate(items: seq<Item>, u: Update)
    requires DistinctKeys(items) && IsTalent(items, u.key) && SetSpecs(items, u) == items
    ensures AfterUpdate(JoinSet(items), OfLabel(items, COMPANY), u) == JoinSet(items)
  {
    var edges, companies := JoinSet(items), OfLabel(items, COMPANY);
    JoinSetIsJoin(items, edges);
    var after := AfterUpdate(edges, companies, u);
    forall p: Pair ensures p in after <==> p in edges {
      if p.0 == u.key {
        JoinAfterUpdate(items, u, p);
        JoinEndsInCompany(items, p);
      }
    }
  }

  lemma JoinEndsInCompany(items: seq<Item>, p: Pair)
    ensures InJoin(items, p) ==> p.1 in Keys(OfLabel(items, COMPANY))
  {
    if InJoin(items, p) {
      var t, c :| t in items && c in items && t.lab == TALENT && c.lab == COMPANY
                  && Match(t.specs, c.specs) && p == (t.key, c.key);
      assert c in OfLabel(items, COMPANY);
    }
  }

  /** With distinct keys, each update is already in the nodes it was applied to. */
  lemma AlreadyApplied(items: seq<Item>, us: seq<Update>, k: nat)
    requires DistinctKeys(items) && k < |us| && forall i, j :: 0 <= i < j < |us| ==> us[i].key != us[j].key
    ensures SetSpecs(AfterUpdates(items, us), us[k]) == AfterUpdates(items, us)
  {
    var after := AfterUpdates(items, us);
    AfterUpdatesShape(items, us);
    forall i | 0 <= i < |after| ensures SetSpecs(after, us[k])[i] == after[i] {
      if after[i].key == us[k].key && after[i].lab == TALENT {
        LastUpdateWins(items, us, i, k);
      }
    }
  }

  /** The benchmark runs the naive variant, then the batched one, on the same node list.
      They report the same edges. But the first run has written the updates into the shared
      dictionaries, so when the update keys are distinct talents, as the benchmark draws
      them, the second run retracts nothing and adds nothing. */
  method NaiveThenBatched(nodes: seq<NodeRec>, chunkSize: nat, updates: seq<Update>)
    returns (naive: set<Pair>, batched: set<Pair>, retracted: nat, added: nat)
    requires chunkSize > 0 && Distinct(nodes)
    modifies Dicts(nodes)
    ensures naive == batched == JoinSet(View(nodes))
    ensures View(nodes) == AfterUpdates(old(View(nodes)), updates)
    ensures OneEach(old(View(nodes)), updates) ==> retracted == 0 && added == 0
  {
    ghost var start := View(nodes);
    ViewDistinct(nodes);
    var r, a;
    naive, r, a := RunHandrolled(nodes, chunkSize, updates, false);
    batched, retracted, added := RunHandrolled(nodes, chunkSize, updates, true);
    UpdatesAreIdempotent(start, updates);
    if OneEach(start, updates) {
      SecondPassIsIdle(start, updates, updates);
    }
  }
}
