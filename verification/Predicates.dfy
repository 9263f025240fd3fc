/** The rule predicates (`_eval` in benchmarks/agent-tasks/association/truth.py), with
    numbers as exact reals and the great-circle distance left uninterpreted. */
module Predicates {
  import opened Common

  datatype Value = Null | Bool(b: bool) | Int(i: int) | Float(r: real) | Str(s: string) | List(items: seq<Value>) | Dict
  type Props = map<string, Value>

  datatype Predicate =
    | FieldEqual(field: string)
    | Overlap(field: string, min: real)
    | GeoRadius(field: string, km: real)
    | NumericWithin(field: string, tolerance: real)
    | All(parts: seq<Predicate>)
    | Any(parts: seq<Predicate>)

  /** The distance in km between two values, if both are points. */
  type Distance = (Value, Value) -> Option<real>

  function Get(a: Props, field: string): Value {
    if field in a then a[field] else Null
  }

  /** The scalar identity of a value. An integer and a float are never the same key. */
  predicate HasKey(v: Value) {
    v.Bool? || v.Int? || v.Float? || v.Str?
  }

  function Tokens(v: Value): (t: set<Value>)
    requires v.List?
    ensures forall x :: x in t <==> x in v.items && HasKey(x)
  {
    set x | x in v.items && HasKey(x)
  }

  function Finite(v: Value): Option<real> {
    match v
    case Int(i) => Some(i as real)
    case Float(r) => Some(r)
    case _ => None
  }

  function Abs(x: real): real { if x < 0.0 then -x else x }

  /** `|A * B| / |A + B|`, the share of tokens two sets have in common. */
  function Jaccard<T(==)>(a: set<T>, b: set<T>): real {
    if |a + b| == 0 then 0.0 else |a * b| as real / |a + b| as real
  }

  predicate Overlaps<T(==)>(a: set<T>, b: set<T>, min: real) {
    a * b != {} && Jaccard(a, b) >= min
  }

  predicate Eval(dist: Distance, p: Predicate, a: Props, b: Props)
    decreases p
  {
    match p
    case FieldEqual(f) => HasKey(Get(a, f)) && Get(a, f) == Get(b, f)
    case Overlap(f, min) =>
      Get(a, f).List? && Get(b, f).List? && Overlaps(Tokens(Get(a, f)), Tokens(Get(b, f)), min)
    case GeoRadius(f, km) =>
      var d := dist(Get(a, f), Get(b, f));
      km > 0.0 && d.Some? && d.value <= km
    case NumericWithin(f, tol) =>
      var x, y := Finite(Get(a, f)), Finite(Get(b, f));
      tol >= 0.0 && x.Some? && y.Some? && Abs(x.value - y.value) <= tol
    case All(parts) => parts != [] && forall q <- parts :: Eval(dist, q, a, b)
    case Any(parts) => exists q <- parts :: Eval(dist, q, a, b)
  }

  // ---- what the predicates mean --------------------------------------------

  /** Every predicate is symmetric in its two nodes, given a symmetric distance. */
  lemma {:induction false} EvalIsSymmetric(dist: Distance, p: Predicate, a: Props, b: Props)
    requires forall x, y :: dist(x, y) == dist(y, x)
    ensures Eval(dist, p, a, b) == Eval(dist, p, b, a)
    decreases p
  {
    match p
    case Overlap(f, min) =>
      if Get(a, f).List? && Get(b, f).List? {
        var s, t := Tokens(Get(a, f)), Tokens(Get(b, f));
        assert s * t == t * s && s + t == t + s;
      }
    case All(parts) => forall q | q in parts { EvalIsSymmetric(dist, q, a, b); }
    case Any(parts) => forall q | q in parts { EvalIsSymmetric(dist, q, a, b); }
    case _ =>
  }

  /** Fields are equal only as scalars of one type: an integer is no float, a boolean no
      integer, and neither null nor a list nor a dictionary equals anything. */
  lemma FieldEqualMeans(dist: Distance, f: string, a: Props, b: Props)
    ensures Eval(dist, FieldEqual(f), a, b) <==>
            match (Get(a, f), Get(b, f))
            case (Bool(x), Bool(y)) => x == y
            case (Int(x), Int(y)) => x == y
            case (Float(x), Float(y)) => x == y
            case (Str(x), Str(y)) => x == y
            case _ => false
  {
  }

  /** The number a value stands for; a boolean stands for none. */
  lemma FiniteMeans(v: Value)
    ensures Finite(v).Some? <==> v.Int? || v.Float?
    ensures v.Int? ==> Finite(v) == Some(v.i as real)
    ensures v.Float? ==> Finite(v) == Some(v.r)
  {
  }

  /** Within a tolerance: each number lies in the closed interval around the other. */
  lemma NumericWithinMeans(dist: Distance, f: string, tol: real, a: Props, b: Props)
    ensures Eval(dist, NumericWithin(f, tol), a, b) <==>
            && Finite(Get(a, f)).Some? && Finite(Get(b, f)).Some?
            && Finite(Get(a, f)).value - tol <= Finite(Get(b, f)).value <= Finite(Get(a, f)).value + tol
  {
  }

  /** Within a radius: a positive one, both places known, the distance not above it. */
  lemma GeoRadiusMeans(dist: Distance, f: string, km: real, a: Props, b: Props)
    ensures dist(Get(a, f), Get(b, f)).None? ==> !Eval(dist, GeoRadius(f, km), a, b)
    ensures dist(Get(a, f), Get(b, f)).Some? ==>
              var d := dist(Get(a, f), Get(b, f)).value;
              && (Eval(dist, GeoRadius(f, d), a, b) <==> d > 0.0)
              && (d < km && km > 0.0 ==> Eval(dist, GeoRadius(f, km), a, b))
              && (km < d || km <= 0.0 ==> !Eval(dist, GeoRadius(f, km), a, b))
  {
  }

  /** A conjunction holds part by part, and not without a part. */
  lemma AllMeans(dist: Distance, p: Predicate, ps: seq<Predicate>, a: Props, b: Props)
    ensures !Eval(dist, All([]), a, b)
    ensures Eval(dist, All([p] + ps), a, b) <==> Eval(dist, p, a, b) && (ps == [] || Eval(dist, All(ps), a, b))
  {
    var all := [p] + ps;
    assert all[0] == p && forall q <- ps :: q in all;
    forall q | q in all ensures q == p || q in ps {}
  }

  /** A disjunction holds if some part does. */
  lemma AnyMeans(dist: Distance, p: Predicate, ps: seq<Predicate>, a: Props, b: Props)
    ensures !Eval(dist, Any([]), a, b)
    ensures Eval(dist, Any([p] + ps), a, b) <==> Eval(dist, p, a, b) || Eval(dist, Any(ps), a, b)
  {
    var all := [p] + ps;
    assert all[0] == p && forall q <- ps :: q in all;
    forall q | q in all ensures q == p || q in ps {}
  }

  /** Two sets overlap if they meet and at least that share of all their tokens is shared. */
  lemma OverlapsMeans<T>(s: set<T>, t: set<T>, min: real)
    requires s * t != {}
    ensures Overlaps(s, t, min) <==> |s * t| as real >= min * (|s * t| + |s - t| + |t - s|) as real
  {
    JaccardIsShare(s, t);
    assert |s * t| > 0;
    AtLeast(Jaccard(s, t), |s * t| as real, (|s * t| + |s - t| + |t - s|) as real, min);
  }

  lemma AtLeast(x: real, m: real, n: real, min: real)
    requires n > 0.0 && x * n == m
    ensures x >= min <==> m >= min * n
  {
    if x >= min { assert (x - min) * n >= 0.0; } else { assert (min - x) * n > 0.0; }
  }

  /** The rule compares two lists by their scalar members, repetitions aside. */
  lemma OverlapMeans(dist: Distance, f: string, min: real, a: Props, b: Props)
    ensures Eval(dist, Overlap(f, min), a, b) ==> Get(a, f).List? && Get(b, f).List?
    ensures Get(a, f).List? && Get(b, f).List? ==>
              var s, t := Tokens(Get(a, f)), Tokens(Get(b, f));
              && (Eval(dist, Overlap(f, min), a, b) <==> Overlaps(s, t, min))
              && forall x :: x in s * t <==> x in Get(a, f).items && x in Get(b, f).items && (x.Bool? || x.Int? || x.Float? || x.Str?)
  {
  }

  predicate Mentions(p: Predicate, field: string)
    decreases p
  {
    match p
    case FieldEqual(f) => f == field
    case Overlap(f, _) => f == field
    case GeoRadius(f, _) => f == field
    case NumericWithin(f, _) => f == field
    case All(parts) => exists q <- parts :: Mentions(q, field)
    case Any(parts) => exists q <- parts :: Mentions(q, field)
  }

  /** The two sets of properties say the same, but for one field. */
  ghost predicate SameButField(a: Props, b: Props, field: string) {
    forall f :: f != field ==> Get(a, f) == Get(b, f)
  }

  /** A field the predicate does not mention cannot change its truth. */
  lemma {:induction false} EvalReadsMentioned(dist: Distance, p: Predicate, a: Props, b: Props, a': Props, b': Props, field: string)
    requires !Mentions(p, field) && SameButField(a, a', field) && SameButField(b, b', field)
    ensures Eval(dist, p, a, b) == Eval(dist, p, a', b')
    decreases p
  {
    match p
    case All(parts) => forall q | q in parts { EvalReadsMentioned(dist, q, a, b, a', b', field); }
    case Any(parts) => forall q | q in parts { EvalReadsMentioned(dist, q, a, b, a', b', field); }
    case _ =>
  }

  lemma UnionSize<T>(a: set<T>, b: set<T>)
    ensures |a * b| <= |a + b| && (|a * b| == |a + b| <==> a == b)
  {
    assert a + b == a * b + ((a - b) + (b - a));
    assert (a * b) !! ((a - b) + (b - a));
    if a != b {
      assert (a - b) + (b - a) != {};
    } else {
      assert a * b == a + b;
    }
  }

  lemma Ratio(x: nat, y: nat)
    requires 0 < x <= y
    ensures 0.0 < x as real / y as real <= 1.0 && (x as real / y as real == 1.0 <==> x == y)
  {
    var q := x as real / y as real;
    assert q * y as real == x as real;
  }

  /** The index is the share of the tokens of either set that are in both. */
  lemma JaccardIsShare<T>(a: set<T>, b: set<T>)
    ensures Jaccard(a, b) * (|a * b| + |a - b| + |b - a|) as real == |a * b| as real
    ensures |a * b| + |a - b| + |b - a| == 0 ==> Jaccard(a, b) == 0.0
  {
    var meet, rest := a * b, (a - b) + (b - a);
    assert a + b == meet + rest && meet !! rest && (a - b) !! (b - a);
    assert |a + b| == |meet| + |a - b| + |b - a|;
    if |a + b| != 0 { Quotient(|meet|, |a + b|); }
  }

  lemma Quotient(x: nat, y: nat)
    requires y > 0
    ensures (x as real / y as real) * y as real == x as real
  {
  }

  /** Two lists of four with one token in common stay below the threshold of 0.15. */
  lemma OneOfSeven<T>(a: set<T>, b: set<T>)
    requires |a| == |b| == 4 && |a * b| == 1
    ensures Jaccard(a, b) == 1.0 / 7.0 && !Overlaps(a, b, 0.15)
  {
    assert a == (a - b) + a * b && b == (b - a) + a * b;
    assert |a| == |a - b| + |a * b| && |b| == |b - a| + |a * b|;
    JaccardIsShare(a, b);
  }

  /** The index lies between 0 and 1, is 1 only for equal sets, and the rule holds for a
      non-positive minimum exactly when the sets meet. */
  lemma JaccardBounds<T>(a: set<T>, b: set<T>, min: real)
    ensures 0.0 <= Jaccard(a, b) <= 1.0
    ensures a * b != {} ==> (Jaccard(a, b) == 1.0 <==> a == b)
    ensures min <= 0.0 ==> (Overlaps(a, b, min) <==> a * b != {})
    ensures min > 1.0 ==> !Overlaps(a, b, min)
  {
    UnionSize(a, b);
    if a * b == {} {
      assert |a * b| == 0;
    } else {
      assert |a * b| > 0;
      Ratio(|a * b|, |a + b|);
    }
  }
}
