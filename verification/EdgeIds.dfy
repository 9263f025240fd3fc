/** Edge identity on the explorer canvas (`edgeId` in ui/src/store.ts): three names
    joined by bars. The canvas keys its edges by this string, so everything that
    counts edges depends on when the string names one edge only. */
module EdgeIds {

  datatype Edge = Edge(etype: string, src: string, dst: string)

  const BAR := '|'

  function EdgeId(e: Edge): string {
    e.etype + [BAR] + e.src + [BAR] + e.dst
  }

  predicate Touches(e: Edge, key: string) {
    e.src == key || e.dst == key
  }

  predicate BarFree(e: Edge) {
    BAR !in e.etype && BAR !in e.src && BAR !in e.dst
  }

  /** Type, source and destination, in this order, with a bar between each two. */
  lemma IdSpelled(e: Edge)
    ensures var id, p, q := EdgeId(e), |e.etype|, |e.etype| + 1 + |e.src|;
            && |id| == q + 1 + |e.dst| && id[p] == id[q] == '|'
            && id[..p] == e.etype && id[p + 1..q] == e.src && id[q + 1..] == e.dst
  {
  }

  /** The id names exactly one edge if and only if no name in it contains a bar. */
  lemma IdNamesOneEdge(e: Edge)
    ensures (forall f: Edge :: EdgeId(f) == EdgeId(e) ==> f == e) <==> BarFree(e)
  {
    if BarFree(e) {
      forall f: Edge | EdgeId(f) == EdgeId(e) ensures f == e { BarFreeIdIsUnique(e, f); }
    } else {
      var f := Colliding(e);
      assert EdgeId(f) == EdgeId(e) && f != e;
    }
  }

  lemma BarFreeIdIsUnique(e: Edge, f: Edge)
    requires BarFree(e) && EdgeId(f) == EdgeId(e)
    ensures f == e
  {
    var s := EdgeId(e);
    var p, q := |e.etype|, |e.etype| + 1 + |e.src|;
    var p', q' := |f.etype|, |f.etype| + 1 + |f.src|;
    assert s[p'] == BAR && s[q'] == BAR by { assert s == EdgeId(f); }
    BarsOf(e, p');
    BarsOf(e, q');
    assert p' == p && q' == q;
    assert e.etype == s[..p] == f.etype;
    assert e.src == s[p + 1..q] == f.src;
    assert e.dst == s[q + 1..] == f.dst;
  }

  /** The only bars in a bar-free edge's id are the two separators. */
  lemma BarsOf(e: Edge, i: nat)
    requires BarFree(e) && i < |EdgeId(e)|
    ensures EdgeId(e)[i] == BAR <==> i == |e.etype| || i == |e.etype| + 1 + |e.src|
  {
    var p, q := |e.etype|, |e.etype| + 1 + |e.src|;
    var c := EdgeId(e)[i];
    if i < p {
      assert c == e.etype[i];
    } else if p < i < q {
      assert c == e.src[i - p - 1];
    } else if q < i {
      assert c == e.dst[i - q - 1];
    }
  }

  lemma SplitAtBar(name: string) returns (before: string, after: string)
    requires BAR in name
    ensures name == before + [BAR] + after && |before| < |name|
  {
    var i :| 0 <= i < |name| && name[i] == BAR;
    before, after := name[..i], name[i + 1..];
  }

  /** Another edge with the same id: a bar inside a name becomes a separator. */
  lemma Colliding(e: Edge) returns (f: Edge)
    requires !BarFree(e)
    ensures EdgeId(f) == EdgeId(e) && f != e
  {
    if BAR in e.etype {
      var a, b := SplitAtBar(e.etype);
      f := Edge(a, b, e.src + [BAR] + e.dst);
      assert |f.etype| < |e.etype|;
    } else if BAR in e.src {
      var a, b := SplitAtBar(e.src);
      f := Edge(e.etype + [BAR] + a, b, e.dst);
      assert |f.etype| > |e.etype|;
    } else {
      var a, b := SplitAtBar(e.dst);
      f := Edge(e.etype, e.src + [BAR] + a, b);
      assert |f.src| > |e.src|;
    }
  }
}
