/** Hand-rolled edge maintenance (benchmarks/adapters/handrolled.py): edges are kept by
    chunked ingest loops and by retract-and-add updates, and must stay equal to the join
    of talents and companies. */
module HandRolled {
  import opened Predicates

  const TALENT := "Talent"
  const COMPANY := "Company"
  const OVERLAP_MIN := 0.15

  /** What a node says at one moment: its key, label and specialties. */
  datatype Item = Item(key: string, lab: string, specs: seq<string>)
  type Pair = (string, string)
  datatype Update = Update(key: string, specs: seq<string>)

  function AsSet(specs: seq<string>): set<string> { set s | s in specs }

  /** `_jaccard(a, b) >= OVERLAP_MIN`. */
  predicate Match(a: seq<string>, b: seq<string>) {
    Overlaps(AsSet(a), AsSet(b), OVERLAP_MIN)
  }

  /** The loop's test is the rule's predicate on the same lists. */
  lemma MatchIsTheRule(dist: Distance, a: seq<string>, b: seq<string>)
    ensures var list := (specs: seq<string>) => map["specialties" := List(seq(|specs|, i requires 0 <= i < |specs| => Str(specs[i])))];
            Match(a, b) <==> Eval(dist, Overlap("specialties", OVERLAP_MIN), list(a), list(b))
  {
    var la := List(seq(|a|, i requires 0 <= i < |a| => Str(a[i])));
    var lb := List(seq(|b|, i requires 0 <= i < |b| => Str(b[i])));
    TokensOf(a, la);
    TokensOf(b, lb);
    var ta, tb := Tokens(la), Tokens(lb);
    assert ta * tb == StrSet(AsSet(a) * AsSet(b));
    assert ta + tb == StrSet(AsSet(a) + AsSet(b));
    StrSetSize(AsSet(a) * AsSet(b));
    StrSetSize(AsSet(a) + AsSet(b));
  }

  ghost function StrSet(s: set<string>): (r: set<Value>)
    ensures forall v :: v in r <==> v.Str? && v.s in s
  {
    set x | x in s :: Str(x)
  }

  lemma {:induction false} StrSetSize(s: set<string>)
    ensures |StrSet(s)| == |s| && (StrSet(s) == {} <==> s == {})
  {
    if s == {} {
      assert StrSet(s) == {};
    } else {
      var x :| x in s;
      StrSetSize(s - {x});
      assert StrSet(s) == StrSet(s - {x}) + {Str(x)};
    }
  }

  /** Two lists match if, repetitions aside, they share a specialty and at least 15 in 100 of
      all their specialties are shared. */
  lemma MatchMeans(a: seq<string>, b: seq<string>)
    ensures var s, t := AsSet(a), AsSet(b);
            Match(a, b) <==> s * t != {} && 100 * |s * t| >= 15 * (|s * t| + |s - t| + |t - s|)
  {
    var s, t := AsSet(a), AsSet(b);
    if s * t != {} {
      OverlapsMeans(s, t, 0.15);
      FifteenPercent(|s * t|, |s * t| + |s - t| + |t - s|);
    }
  }

  lemma FifteenPercent(m: nat, n: nat)
    ensures m as real >= 0.15 * n as real <==> 100 * m >= 15 * n
  {
    assert 0.15 * n as real * 100.0 == (15 * n) as real;
    assert m as real * 100.0 == (100 * m) as real;
  }

  lemma TokensOf(a: seq<string>, v: Value)
    requires v.List? && |v.items| == |a| && forall i :: 0 <= i < |a| ==> v.items[i] == Str(a[i])
    ensures Tokens(v) == StrSet(AsSet(a))
  {
    forall x | x in StrSet(AsSet(a)) ensures x in Tokens(v) {
      var i :| 0 <= i < |a| && a[i] == x.s;
      assert v.items[i] == x;
    }
  }

  // ---- the join ------------------------------------------------------------

  ghost predicate DistinctKeys(items: seq<Item>) {
    forall i, j :: 0 <= i < j < |items| ==> items[i].key != items[j].key
  }

  ghost predicate InJoin(items: seq<Item>, p: Pair) {
    exists t, c :: t in items && c in items && t.lab == TALENT && c.lab == COMPANY
                   && Match(t.specs, c.specs) && p == (t.key, c.key)
  }

  ghost predicate NoDuplicates<T>(s: seq<T>) {
    forall i, j :: 0 <= i < j < |s| ==> s[i] != s[j]
  }

  function OfLabel(items: seq<Item>, lab: string): (r: seq<Item>)
    ensures forall x :: x in r <==> x in items && x.lab == lab
  {
    if items == [] then [] else
    var rest, last := items[..|items| - 1], items[|items| - 1];
    assert items == rest + [last];
    OfLabel(rest, lab) + if last.lab == lab then [last] else []
  }

  lemma {:induction false} OfLabelDistinct(items: seq<Item>, lab: string)
    requires DistinctKeys(items)
    ensures DistinctKeys(OfLabel(items, lab))
  {
    if items != [] {
      var rest, last := items[..|items| - 1], items[|items| - 1];
      OfLabelDistinct(rest, lab);
      forall x | x in OfLabel(rest, lab) ensures x.key != last.key {
        var i :| 0 <= i < |rest| && rest[i] == x;
        assert items[i] == x;
      }
    }
  }

  lemma {:induction false} OfLabelAppends(a: seq<Item>, b: seq<Item>, lab: string)
    ensures OfLabel(a + b, lab) == OfLabel(a, lab) + OfLabel(b, lab)
  {
    if b == [] {
      assert a + b == a;
    } else {
      assert (a + b)[..|a + b| - 1] == a + b[..|b| - 1];
      OfLabelAppends(a, b[..|b| - 1], lab);
    }
  }

  // ---- ingest --------------------------------------------------------------

  function PairUp(outer: Item, inner: Item, flipped: bool): Pair {
    if flipped then (inner.key, outer.key) else (outer.key, inner.key)
  }

  ghost predicate Crosses(outer: seq<Item>, inner: seq<Item>, flipped: bool, p: Pair) {
    exists o, i :: o in outer && i in inner && Match(o.specs, i.specs) && p == PairUp(o, i, flipped)
  }

  lemma MatchSymmetric(a: seq<string>, b: seq<string>)
    ensures Match(a, b) <==> Match(b, a)
  {
    assert AsSet(a) * AsSet(b) == AsSet(b) * AsSet(a) && AsSet(a) + AsSet(b) == AsSet(b) + AsSet(a);
  }

  /** One double loop: talents against companies, or companies against talents. */
  method Cross(outer: seq<Item>, inner: seq<Item>, flipped: bool) returns (out: seq<Pair>)
    requires DistinctKeys(outer) && DistinctKeys(inner)
    ensures NoDuplicates(out)
    ensures forall p :: p in out <==> Crosses(outer, inner, flipped, p)
  {
    out := [];
    for o := 0 to |outer|
      invariant NoDuplicates(out)
      invariant forall p :: p in out <==> Crosses(outer[..o], inner, flipped, p)
    {
      var before := out;
      for i := 0 to |inner|
        invariant NoDuplicates(out)
        invariant forall p :: p in out <==> p in before || Crosses([outer[o]], inner[..i], flipped, p)
      {
        var p := PairUp(outer[o], inner[i], flipped);
        assert inner[..i + 1] == inner[..i] + [inner[i]];
        assert p !in out;
        if Match(outer[o].specs, inner[i].specs) {
          out := out + [p];
        }
      }
      assert inner[..|inner|] == inner;
      assert outer[..o + 1] == outer[..o] + [outer[o]];
    }
    assert outer[..|outer|] == outer;
  }

  /** What one chunk emits, new talents against every company so far, then new companies
      against the talents of earlier chunks, is what the join gains. */
  lemma ChunkCompletesJoin(old_: seq<Item>, chunk: seq<Item>, p: Pair)
    ensures InJoin(old_ + chunk, p) <==>
              || InJoin(old_, p)
              || Crosses(OfLabel(chunk, TALENT), OfLabel(old_ + chunk, COMPANY), false, p)
              || Crosses(OfLabel(chunk, COMPANY), OfLabel(old_, TALENT), true, p)
  {
    if InJoin(old_ + chunk, p) {
      var t, c :| t in old_ + chunk && c in old_ + chunk && t.lab == TALENT && c.lab == COMPANY
                  && Match(t.specs, c.specs) && p == (t.key, c.key);
      MatchSymmetric(t.specs, c.specs);
      if t in chunk {
        assert t in OfLabel(chunk, TALENT) && c in OfLabel(old_ + chunk, COMPANY) && p == PairUp(t, c, false);
      } else if c in chunk {
        assert c in OfLabel(chunk, COMPANY) && t in OfLabel(old_, TALENT) && p == PairUp(c, t, true);
      } else {
        assert t in old_ && c in old_;
      }
    }
    if Crosses(OfLabel(chunk, TALENT), OfLabel(old_ + chunk, COMPANY), false, p) {
      var o, i :| o in OfLabel(chunk, TALENT) && i in OfLabel(old_ + chunk, COMPANY) && Match(o.specs, i.specs) && p == PairUp(o, i, false);
      assert o in old_ + chunk && i in old_ + chunk;
    }
    if Crosses(OfLabel(chunk, COMPANY), OfLabel(old_, TALENT), true, p) {
      var o, i :| o in OfLabel(chunk, COMPANY) && i in OfLabel(old_, TALENT) && Match(o.specs, i.specs) && p == PairUp(o, i, true);
      MatchSymmetric(o.specs, i.specs);
      assert o in old_ + chunk && i in old_ + chunk;
    }
    if InJoin(old_, p) {
      var t, c :| t in old_ && c in old_ && t.lab == TALENT && c.lab == COMPANY
                  && Match(t.specs, c.specs) && p == (t.key, c.key);
      assert t in old_ + chunk && c in old_ + chunk;
    }
  }

  /** The three sources of edges have no pair in common: a key of the chunk is new. */
  lemma ChunkEmitsNewPairs(old_: seq<Item>, chunk: seq<Item>, p: Pair)
    requires DistinctKeys(old_ + chunk)
    ensures !(InJoin(old_, p) && Crosses(OfLabel(chunk, TALENT), OfLabel(old_ + chunk, COMPANY), false, p))
    ensures !(InJoin(old_, p) && Crosses(OfLabel(chunk, COMPANY), OfLabel(old_, TALENT), true, p))
    ensures !(Crosses(OfLabel(chunk, TALENT), OfLabel(old_ + chunk, COMPANY), false, p) &&
              Crosses(OfLabel(chunk, COMPANY), OfLabel(old_, TALENT), true, p))
  {
    forall x, y | x in old_ && y in chunk ensures x.key != y.key {
      var i :| 0 <= i < |old_| && old_[i] == x;
      var j :| 0 <= j < |chunk| && chunk[j] == y;
      assert (old_ + chunk)[i] == x && (old_ + chunk)[|old_| + j] == y;
    }
  }

  lemma NoDuplicatesAppends<T>(a: seq<T>, b: seq<T>)
    requires NoDuplicates(a) && NoDuplicates(b) && forall x <- a :: x !in b
    ensures NoDuplicates(a + b)
  {
    forall i, j | 0 <= i < j < |a + b| ensures (a + b)[i] != (a + b)[j] {
      if i < |a| <= j { assert a[i] in a && b[j - |a|] in b; }
    }
  }

  /** One chunk: `talents` and `companies` index the nodes of earlier chunks. */
  method IngestChunk(ghost old_: seq<Item>, chunk: seq<Item>, talents: seq<Item>, companies: seq<Item>)
    returns (newEdges: seq<Pair>, talents': seq<Item>, companies': seq<Item>)
    requires DistinctKeys(old_ + chunk)
    requires talents == OfLabel(old_, TALENT) && companies == OfLabel(old_, COMPANY)
    ensures talents' == OfLabel(old_ + chunk, TALENT) && companies' == OfLabel(old_ + chunk, COMPANY)
    ensures NoDuplicates(newEdges) && forall p <- newEdges :: !InJoin(old_, p)
    ensures forall p :: InJoin(old_ + chunk, p) <==> InJoin(old_, p) || p in newEdges
  {
    var newTalents, newCompanies := OfLabel(chunk, TALENT), OfLabel(chunk, COMPANY);
    OfLabelAppends(old_, chunk, TALENT);
    OfLabelAppends(old_, chunk, COMPANY);
    DistinctParts(old_, chunk);
    talents', companies' := talents + newTalents, companies + newCompanies;
    var first := Cross(newTalents, companies', false);
    var second := Cross(newCompanies, talents, true);
    newEdges := first + second;
    forall p
      ensures InJoin(old_ + chunk, p) <==> InJoin(old_, p) || p in newEdges
      ensures !(p in first && p in second) && !(InJoin(old_, p) && p in newEdges)
    {
      ChunkCompletesJoin(old_, chunk, p);
      ChunkEmitsNewPairs(old_, chunk, p);
    }
    NoDuplicatesAppends(first, second);
  }

  lemma DistinctParts(old_: seq<Item>, chunk: seq<Item>)
    requires DistinctKeys(old_ + chunk)
    ensures DistinctKeys(OfLabel(old_, TALENT)) && DistinctKeys(OfLabel(chunk, TALENT))
    ensures DistinctKeys(OfLabel(chunk, COMPANY)) && DistinctKeys(OfLabel(old_ + chunk, COMPANY))
  {
    assert forall i :: 0 <= i < |old_| ==> old_[i] == (old_ + chunk)[i];
    assert forall i :: 0 <= i < |chunk| ==> chunk[i] == (old_ + chunk)[|old_| + i];
    OfLabelDistinct(old_, TALENT);
    OfLabelDistinct(chunk, TALENT);
    OfLabelDistinct(chunk, COMPANY);
    OfLabelDistinct(old_ + chunk, COMPANY);
  }

  /** After each chunk: how many nodes have been read and how many pairs emitted. */
  datatype Progress = Progress(read: nat, emitted: nat)

  /** What has been emitted by then is exactly the join of the nodes read by then. */
  ghost predicate JoinAt(items: seq<Item>, emitted: seq<Pair>, p: Progress) {
    p.read <= |items| && p.emitted <= |emitted| && forall q :: q in emitted[..p.emitted] <==> InJoin(items[..p.read], q)
  }

  /** A whole ingest: from nothing read, chunk by chunk, to everything read. */
  ghost predicate ChunkByChunk(items: seq<Item>, chunkSize: nat, trace: seq<Progress>) {
    && trace != [] && trace[0] == Progress(0, 0)
    && forall k :: 0 < k < |trace| ==>
         trace[k].read == (if trace[k - 1].read + chunkSize < |items| then trace[k - 1].read + chunkSize else |items|)
  }

  /** The ingest phase: for any chunk size, the pairs emitted after every chunk are exactly
      the join of the nodes so far, each pair emitted once over the whole run. */
  method Ingest(items: seq<Item>, chunkSize: nat) returns (emitted: seq<Pair>, ghost trace: seq<Progress>)
    requires chunkSize > 0 && DistinctKeys(items)
    ensures NoDuplicates(emitted)
    ensures forall p :: p in emitted <==> InJoin(items, p)
    ensures ChunkByChunk(items, chunkSize, trace) && trace[|trace| - 1] == Progress(|items|, |emitted|)
    ensures forall k :: 0 <= k < |trace| ==> JoinAt(items, emitted, trace[k])
  {
    emitted, trace := [], [Progress(0, 0)];
    var talents, companies: seq<Item> := [], [];
    var start := 0;
    while start < |items|
      invariant 0 <= start <= |items|
      invariant talents == OfLabel(items[..start], TALENT) && companies == OfLabel(items[..start], COMPANY)
      invariant NoDuplicates(emitted)
      invariant forall p :: p in emitted <==> InJoin(items[..start], p)
      invariant Traced(items, chunkSize, start, emitted, trace)
    {
      var end := if start + chunkSize < |items| then start + chunkSize else |items|;
      assert items[..start] + items[start..end] == items[..end];
      var more;
      more, talents, companies := IngestChunk(items[..start], items[start..end], talents, companies);
      NoDuplicatesAppends(emitted, more);
      TraceGrows(items, chunkSize, start, end, emitted, more, trace);
      emitted := emitted + more;
      trace := trace + [Progress(end, |emitted|)];
      start := end;
    }
    assert items[..|items|] == items;
  }

  ghost predicate Traced(items: seq<Item>, chunkSize: nat, start: nat, emitted: seq<Pair>, trace: seq<Progress>) {
    && ChunkByChunk(items, chunkSize, trace) && trace[|trace| - 1] == Progress(start, |emitted|)
    && forall k :: 0 <= k < |trace| ==> JoinAt(items, emitted, trace[k])
  }

  lemma TraceGrows(items: seq<Item>, chunkSize: nat, start: nat, end: nat, emitted: seq<Pair>, more: seq<Pair>, trace: seq<Progress>)
    requires Traced(items, chunkSize, start, emitted, trace)
    requires end <= |items| && end == if start + chunkSize < |items| then start + chunkSize else |items|
    requires forall p :: p in emitted + more <==> InJoin(items[..end], p)
    ensures Traced(items, chunkSize, end, emitted + more, trace + [Progress(end, |emitted + more|)])
  {
    var all := emitted + more;
    var longer := trace + [Progress(end, |all|)];
    forall k | 0 <= k < |longer| ensures JoinAt(items, all, longer[k]) {
      if k < |trace| {
        assert JoinAt(items, emitted, trace[k]);
        assert all[..trace[k].emitted] == emitted[..trace[k].emitted];
      } else {
        assert all[..|all|] == all;
      }
    }
  }

  // ---- updates -------------------------------------------------------------

  ghost function Keys(companies: seq<Item>): (r: set<string>) {
    set c | c in companies :: c.key
  }

  ghost function MatchingKeys(companies: seq<Item>, specs: seq<string>): (r: set<string>) {
    set c | c in companies && Match(specs, c.specs) :: c.key
  }

  /** The edges with those of one talent to the given companies replaced by `matched`. */
  ghost function Rewire(edges: set<Pair>, key: string, companies: set<string>, matched: set<string>): (r: set<Pair>)
    ensures forall p: Pair :: p in r <==> if p.0 == key && p.1 in companies then p.1 in matched else p in edges
  {
    var kept := set p | p in edges && !(p.0 == key && p.1 in companies);
    kept + set c | c in matched && c in companies :: (key, c)
  }

  /** What one update makes of the stored edges: the talent's edges to companies become
      exactly its new matches, and nothing else moves. */
  ghost function AfterUpdate(edges: set<Pair>, companies: seq<Item>, u: Update): set<Pair> {
    Rewire(edges, u.key, Keys(companies), MatchingKeys(companies, u.specs))
  }

  lemma KeysGrow(companies: seq<Item>, i: nat, specs: seq<string>)
    requires i < |companies| && DistinctKeys(companies)
    ensures var c := companies[i];
            && c.key !in Keys(companies[..i])
            && Keys(companies[..i + 1]) == Keys(companies[..i]) + {c.key}
            && MatchingKeys(companies[..i], specs) <= Keys(companies[..i])
            && MatchingKeys(companies[..i + 1], specs) ==
               MatchingKeys(companies[..i], specs) + if Match(specs, c.specs) then {c.key} else {}
  {
    assert companies[..i + 1] == companies[..i] + [companies[i]];
  }

  lemma RewireGrows(edges: set<Pair>, key: string, companies: set<string>, matched: set<string>, c: string)
    requires c !in companies && matched <= companies
    ensures var now := Rewire(edges, key, companies, matched);
            && ((key, c) in now <==> (key, c) in edges)
            && Rewire(edges, key, companies + {c}, matched + {c}) == now + {(key, c)}
            && Rewire(edges, key, companies + {c}, matched) == now - {(key, c)}
  {
  }

  /** The part of the companies already re-evaluated. */
  lemma OneMoreCompany(edges: set<Pair>, companies: seq<Item>, i: nat, u: Update)
    requires i < |companies| && DistinctKeys(companies)
    ensures var now, next := AfterUpdate(edges, companies[..i], u), AfterUpdate(edges, companies[..i + 1], u);
            var p := (u.key, companies[i].key);
            && (p in now <==> p in edges)
            && next == if Match(u.specs, companies[i].specs) then now + {p} else now - {p}
  {
    KeysGrow(companies, i, u.specs);
    var keys, matched := Keys(companies[..i]), MatchingKeys(companies[..i], u.specs);
    RewireGrows(edges, u.key, keys, matched, companies[i].key);
    assert matched + {} == matched;
  }

  lemma NoCompanyYet(edges: set<Pair>, u: Update)
    ensures AfterUpdate(edges, [], u) == edges
  {
  }

  /** The lists of edges to retract and to add, each without repetition. */
  method CollectChanges(edges: set<Pair>, companies: seq<Item>, u: Update)
    returns (toDelete: seq<Pair>, toInsert: seq<Pair>)
    requires DistinctKeys(companies)
    ensures NoDuplicates(toDelete) && forall p :: p in toDelete <==> p in edges - AfterUpdate(edges, companies, u)
    ensures NoDuplicates(toInsert) && forall p :: p in toInsert <==> p in AfterUpdate(edges, companies, u) - edges
  {
    toDelete, toInsert := [], [];
    NoCompanyYet(edges, u);
    for i := 0 to |companies|
      invariant NoDuplicates(toDelete) && forall p :: p in toDelete <==> p in edges - AfterUpdate(edges, companies[..i], u)
      invariant NoDuplicates(toInsert) && forall p :: p in toInsert <==> p in AfterUpdate(edges, companies[..i], u) - edges
    {
      OneMoreCompany(edges, companies, i, u);
      var p := (u.key, companies[i].key);
      var matches, hadEdge := Match(u.specs, companies[i].specs), p in edges;
      if hadEdge && !matches {
        NoDuplicatesAppends(toDelete, [p]);
        toDelete := toDelete + [p];
      } else if !hadEdge && matches {
        NoDuplicatesAppends(toInsert, [p]);
        toInsert := toInsert + [p];
      }
    }
    assert companies[..|companies|] == companies;
  }

  /** The batched variant commits deletes and inserts together. */
  method UpdateBatched(edges: set<Pair>, companies: seq<Item>, u: Update)
    returns (after: set<Pair>, retracted: nat, added: nat)
    requires DistinctKeys(companies)
    ensures after == AfterUpdate(edges, companies, u)
    ensures retracted == |edges - after| && added == |after - edges|
  {
    var toDelete, toInsert := CollectChanges(edges, companies, u);
    ghost var target := AfterUpdate(edges, companies, u);
    after := edges - (set p | p in toDelete) + (set p | p in toInsert);
    assert after == target;
    SetOfDistinct(toDelete, edges - target);
    SetOfDistinct(toInsert, target - edges);
    retracted, added := |toDelete|, |toInsert|;
  }

  lemma {:induction false} SetOfDistinct<T>(s: seq<T>, r: set<T>)
    requires NoDuplicates(s) && forall x :: x in r <==> x in s
    ensures |r| == |s|
  {
    if s == [] {
      assert r == {};
    } else {
      var rest, last := s[..|s| - 1], s[|s| - 1];
      assert s == rest + [last] && last !in rest;
      SetOfDistinct(rest, r - {last});
    }
  }

  lemma DeleteCounts(edges: set<Pair>, after: set<Pair>, p: Pair)
    requires p in edges && p in after
    ensures |edges - (after - {p})| == |edges - after| + 1 && |after - {p} - edges| == |after - edges|
  {
    assert edges - (after - {p}) == (edges - after) + {p} && after - {p} - edges == after - edges;
  }

  lemma InsertCounts(edges: set<Pair>, after: set<Pair>, p: Pair)
    requires p !in edges && p !in after
    ensures |edges - (after + {p})| == |edges - after| && |after + {p} - edges| == |after - edges| + 1
  {
    assert (after + {p}) - edges == (after - edges) + {p} && edges - (after + {p}) == edges - after;
  }

  /** One company of the naive variant: its edge is deleted, inserted or left. */
  method RedoOne(ghost edges: set<Pair>, before: set<Pair>, r: nat, a: nat, p: Pair, hadEdge: bool, matches: bool)
    returns (after: set<Pair>, retracted: nat, added: nat)
    requires (hadEdge <==> p in edges) && (p in before <==> p in edges) && r == |edges - before| && a == |before - edges|
    ensures after == if matches then before + {p} else before - {p}
    ensures retracted == |edges - after| && added == |after - edges|
  {
    after, retracted, added := before, r, a;
    if hadEdge && !matches {
      DeleteCounts(edges, before, p);
      after, retracted := before - {p}, r + 1;
    } else if !hadEdge && matches {
      InsertCounts(edges, before, p);
      after, added := before + {p}, a + 1;
    } else {
      assert before == if matches then before + {p} else before - {p};
    }
  }

  /** The naive variant deletes and inserts one edge at a time. */
  method UpdateNaive(edges: set<Pair>, companies: seq<Item>, u: Update)
    returns (after: set<Pair>, retracted: nat, added: nat)
    requires DistinctKeys(companies)
    ensures after == AfterUpdate(edges, companies, u)
    ensures retracted == |edges - after| && added == |after - edges|
  {
    var current := set p | p in edges && p.0 == u.key :: p.1;
    after, retracted, added := edges, 0, 0;
    NoCompanyYet(edges, u);
    for i := 0 to |companies|
      invariant after == AfterUpdate(edges, companies[..i], u)
      invariant retracted == |edges - after| && added == |after - edges|
    {
      OneMoreCompany(edges, companies, i, u);
      assert companies[i].key in current <==> (u.key, companies[i].key) in edges;
      after, retracted, added :=
        RedoOne(edges, after, retracted, added, (u.key, companies[i].key), companies[i].key in current, Match(u.specs, companies[i].specs));
    }
    assert companies[..|companies|] == companies;
  }

  // ---- whole runs ----------------------------------------------------------

  /** The nodes with one talent's specialties replaced. */
  function SetSpecs(items: seq<Item>, u: Update): (r: seq<Item>)
    ensures |r| == |items|
    ensures forall i :: 0 <= i < |items| ==>
              r[i] == if items[i].key == u.key && items[i].lab == TALENT then items[i].(specs := u.specs) else items[i]
  {
    seq(|items|, i requires 0 <= i < |items| =>
      if items[i].key == u.key && items[i].lab == TALENT then items[i].(specs := u.specs) else items[i])
  }

  function AfterUpdates(items: seq<Item>, us: seq<Update>): seq<Item> {
    if us == [] then items else SetSpecs(AfterUpdates(items, us[..|us| - 1]), us[|us| - 1])
  }

  /** Stored edges and the two counters, update after update. */
  datatype Tally = Tally(edges: set<Pair>, retracted: nat, added: nat)

  ghost function Maintain(edges: set<Pair>, companies: seq<Item>, us: seq<Update>): Tally {
    if us == [] then Tally(edges, 0, 0) else
    var t := Maintain(edges, companies, us[..|us| - 1]);
    var after := AfterUpdate(t.edges, companies, us[|us| - 1]);
    Tally(after, t.retracted + |t.edges - after|, t.added + |after - t.edges|)
  }

  ghost predicate IsTalent(items: seq<Item>, key: string) {
    exists t <- items :: t.key == key && t.lab == TALENT
  }

  /** Restricted to talents, the stored edges are the join. An update that names no talent
      may leave stray edges; what the run reports leaves them out. */
  ghost predicate Maintained(edges: set<Pair>, items: seq<Item>) {
    forall p: Pair :: IsTalent(items, p.0) ==> (p in edges <==> InJoin(items, p))
  }

  lemma SetSpecsKeeps(items: seq<Item>, u: Update)
    requires DistinctKeys(items)
    ensures DistinctKeys(SetSpecs(items, u))
    ensures OfLabel(SetSpecs(items, u), COMPANY) == OfLabel(items, COMPANY)
    ensures forall k :: IsTalent(SetSpecs(items, u), k) <==> IsTalent(items, k)
  {
    CompaniesStay(items, u);
    var r := SetSpecs(items, u);
    forall k ensures IsTalent(r, k) <==> IsTalent(items, k) {
      if IsTalent(items, k) {
        var i :| 0 <= i < |items| && items[i].key == k && items[i].lab == TALENT;
        assert r[i] in r;
      }
      if IsTalent(r, k) {
        var i :| 0 <= i < |r| && r[i].key == k && r[i].lab == TALENT;
        assert items[i] in items;
      }
    }
  }

  lemma {:induction false} CompaniesStay(items: seq<Item>, u: Update)
    ensures OfLabel(SetSpecs(items, u), COMPANY) == OfLabel(items, COMPANY)
  {
    if items != [] {
      CompaniesStay(items[..|items| - 1], u);
      assert SetSpecs(items, u)[..|items| - 1] == SetSpecs(items[..|items| - 1], u);
    }
  }

  /** A node of the join, looked up by key. */
  lemma KeyNamesOneItem(items: seq<Item>, x: Item, y: Item)
    requires DistinctKeys(items) && x in items && y in items && x.key == y.key
    ensures x == y
  {
    var i :| 0 <= i < |items| && items[i] == x;
    var j :| 0 <= j < |items| && items[j] == y;
  }

  lemma InSetSpecs(items: seq<Item>, u: Update, x: Item)
    requires x in items
    ensures (if x.key == u.key && x.lab == TALENT then x.(specs := u.specs) else x) in SetSpecs(items, u)
  {
    var i :| 0 <= i < |items| && items[i] == x;
    assert SetSpecs(items, u)[i] in SetSpecs(items, u);
  }

  lemma FromSetSpecs(items: seq<Item>, u: Update, y: Item) returns (x: Item)
    requires y in SetSpecs(items, u)
    ensures x in items && y == if x.key == u.key && x.lab == TALENT then x.(specs := u.specs) else x
  {
    var i :| 0 <= i < |items| && SetSpecs(items, u)[i] == y;
    x := items[i];
  }

  /** How an update moves the join: the updated talent's pairs are its matches, the rest
      of the join stands. */
  lemma JoinAfterUpdate(items: seq<Item>, u: Update, p: Pair)
    requires DistinctKeys(items) && IsTalent(items, p.0)
    ensures p.0 == u.key ==> (InJoin(SetSpecs(items, u), p) <==> p.1 in MatchingKeys(OfLabel(items, COMPANY), u.specs))
    ensures p.0 != u.key ==> (InJoin(SetSpecs(items, u), p) <==> InJoin(items, p))
  {
    var items' := SetSpecs(items, u);
    var t0 :| t0 in items && t0.key == p.0 && t0.lab == TALENT;
    InSetSpecs(items, u, t0);
    if InJoin(items', p) {
      var t', c' :| t' in items' && c' in items' && t'.lab == TALENT && c'.lab == COMPANY
                    && Match(t'.specs, c'.specs) && p == (t'.key, c'.key);
      var t := FromSetSpecs(items, u, t');
      var c := FromSetSpecs(items, u, c');
      KeyNamesOneItem(items, t, t0);
      assert c in OfLabel(items, COMPANY);
    }
    if p.0 == u.key && p.1 in MatchingKeys(OfLabel(items, COMPANY), u.specs) {
      var c :| c in OfLabel(items, COMPANY) && Match(u.specs, c.specs) && c.key == p.1;
      InSetSpecs(items, u, c);
      assert t0.(specs := u.specs) in items' && c in items';
    }
    if p.0 != u.key && InJoin(items, p) {
      var t, c :| t in items && c in items && t.lab == TALENT && c.lab == COMPANY
                  && Match(t.specs, c.specs) && p == (t.key, c.key);
      InSetSpecs(items, u, t);
      InSetSpecs(items, u, c);
    }
  }

  lemma UpdateMaintains(edges: set<Pair>, items: seq<Item>, u: Update)
    requires DistinctKeys(items) && Maintained(edges, items)
    ensures Maintained(AfterUpdate(edges, OfLabel(items, COMPANY), u), SetSpecs(items, u))
  {
    var companies := OfLabel(items, COMPANY);
    SetSpecsKeeps(items, u);
    forall p: Pair | IsTalent(SetSpecs(items, u), p.0)
      ensures p in AfterUpdate(edges, companies, u) <==> InJoin(SetSpecs(items, u), p)
    {
      JoinAfterUpdate(items, u, p);
      assert MatchingKeys(companies, u.specs) <= Keys(companies);
      if InJoin(items, p) {
        var t, c :| t in items && c in items && t.lab == TALENT && c.lab == COMPANY
                    && Match(t.specs, c.specs) && p == (t.key, c.key);
        assert c in companies && c.key in Keys(companies);
      }
    }
  }

  lemma {:induction false} AfterUpdatesKeeps(items: seq<Item>, us: seq<Update>)
    requires DistinctKeys(items)
    ensures DistinctKeys(AfterUpdates(items, us)) && OfLabel(AfterUpdates(items, us), COMPANY) == OfLabel(items, COMPANY)
    ensures forall k :: IsTalent(AfterUpdates(items, us), k) <==> IsTalent(items, k)
  {
    if us != [] {
      AfterUpdatesKeeps(items, us[..|us| - 1]);
      SetSpecsKeeps(AfterUpdates(items, us[..|us| - 1]), us[|us| - 1]);
    }
  }

  /** After any list of updates the stored edges are the join of the updated nodes. */
  lemma {:induction false} UpdatesMaintain(edges: set<Pair>, items: seq<Item>, us: seq<Update>)
    requires DistinctKeys(items) && Maintained(edges, items)
    ensures Maintained(Maintain(edges, OfLabel(items, COMPANY), us).edges, AfterUpdates(items, us))
  {
    if us != [] {
      UpdatesMaintain(edges, items, us[..|us| - 1]);
      AfterUpdatesKeeps(items, us[..|us| - 1]);
      UpdateMaintains(Maintain(edges, OfLabel(items, COMPANY), us[..|us| - 1]).edges, AfterUpdates(items, us[..|us| - 1]), us[|us| - 1]);
    }
  }

  /** The counters balance the change in size over the whole run. */
  lemma {:induction false} CountsBalance(edges: set<Pair>, companies: seq<Item>, us: seq<Update>)
    ensures var t := Maintain(edges, companies, us); |t.edges| == |edges| + t.added - t.retracted
  {
    if us != [] {
      CountsBalance(edges, companies, us[..|us| - 1]);
      var before := Maintain(edges, companies, us[..|us| - 1]).edges;
      var after := Maintain(edges, companies, us).edges;
      SplitSize(before, after);
      SplitSize(after, before);
      assert before * after == after * before;
    }
  }

  lemma SplitSize<T>(a: set<T>, b: set<T>)
    ensures |a| == |a - b| + |a * b|
  {
    assert a == (a - b) + a * b;
  }
}
