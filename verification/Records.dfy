/** Plain JavaScript objects used as dictionaries (`Record<string, string[]>` in
    ui/src/classify.ts and ui/src/store.ts): names every object inherits are never absent,
    and enumeration puts array indices first. */
module Records {
  import opened Decimals

  /** `keys` lists the own names in the order they were added. */
  datatype Record = Record(keys: seq<string>, buckets: map<string, seq<string>>)

  const EMPTY := Record([], map[])

  ghost predicate NoRepeats(keys: seq<string>) {
    forall i, j :: 0 <= i < j < |keys| ==> keys[i] != keys[j]
  }

  ghost predicate RecordOk(r: Record) {
    NoRepeats(r.keys) && (forall k <- r.keys :: k in r.buckets) && (forall k <- r.buckets :: k in r.keys)
  }

  /** The properties of `Object.prototype`. */
  const INHERITED: set<string> := {
    "constructor", "hasOwnProperty", "isPrototypeOf", "propertyIsEnumerable", "toLocaleString", "toString", "valueOf",
    "__proto__", "__defineGetter__", "__defineSetter__", "__lookupGetter__", "__lookupSetter__" }

  /** Methods, accessors and the constructor are inherited; a name such as `knows` is not. */
  lemma InheritedNames()
    ensures "constructor" in INHERITED && "toString" in INHERITED && "valueOf" in INHERITED && "hasOwnProperty" in INHERITED
    ensures "__proto__" in INHERITED && "related" !in INHERITED && "knows" !in INHERITED && "includes" !in INHERITED
  {
  }

  // ---- the order of `Object.entries` ---------------------------------------

  /** A canonical decimal numeral below 2^32 - 1. */
  predicate IsArrayIndex(s: string) {
    Canonical(s) && NumberOf(s) < 0xFFFF_FFFF
  }

  /** The array indices are the numerals of the numbers 0 to 2^32 - 2. */
  lemma IndicesAreNumerals(s: string)
    ensures IsArrayIndex(s) <==> exists n: nat :: n < 4294967295 && s == Decimal(n)
  {
    if IsArrayIndex(s) {
      CanonicalIsDecimal(s);
      assert s == Decimal(NumberOf(s));
    }
    forall n: nat | n < 4294967295 && s == Decimal(n) ensures IsArrayIndex(s) {
      DecimalIsCanonical(n);
      NumberOfDecimal(n);
    }
  }

  function Names(keys: seq<string>): (r: seq<string>)
    ensures forall k :: k in r <==> k in keys && !IsArrayIndex(k)
  {
    if keys == [] then [] else
    assert keys == [keys[0]] + keys[1..];
    (if IsArrayIndex(keys[0]) then [] else [keys[0]]) + Names(keys[1..])
  }

  function InsertIndex(k: string, sorted: seq<string>): (r: seq<string>)
    ensures forall x :: x in r <==> x == k || x in sorted
    ensures |r| == |sorted| + 1
  {
    if sorted == [] || NumberOf(k) <= NumberOf(sorted[0]) then [k] + sorted else
    assert sorted == [sorted[0]] + sorted[1..];
    [sorted[0]] + InsertIndex(k, sorted[1..])
  }

  function Indices(keys: seq<string>): (r: seq<string>)
    ensures forall k :: k in r <==> k in keys && IsArrayIndex(k)
  {
    if keys == [] then [] else
    assert keys == [keys[0]] + keys[1..];
    if IsArrayIndex(keys[0]) then InsertIndex(keys[0], Indices(keys[1..])) else Indices(keys[1..])
  }

  /** Array indices in ascending order, then the other names as they were added. */
  function Entries(keys: seq<string>): (r: seq<string>)
    ensures forall k :: k in r <==> k in keys
  {
    Indices(keys) + Names(keys)
  }

  ghost predicate Ascending(indices: seq<string>) {
    forall i, j :: 0 <= i < j < |indices| ==> NumberOf(indices[i]) <= NumberOf(indices[j])
  }

  lemma {:induction false} InsertAscending(k: string, sorted: seq<string>)
    requires Ascending(sorted)
    ensures Ascending(InsertIndex(k, sorted))
  {
    if sorted != [] && NumberOf(sorted[0]) < NumberOf(k) {
      InsertAscending(k, sorted[1..]);
      var r := InsertIndex(k, sorted[1..]);
      forall j | 0 <= j < |r| ensures NumberOf(sorted[0]) <= NumberOf(r[j]) {
        assert r[j] in r;
      }
    }
  }

  lemma {:induction false} IndicesAscending(keys: seq<string>)
    ensures Ascending(Indices(keys))
  {
    if keys != [] {
      IndicesAscending(keys[1..]);
      if IsArrayIndex(keys[0]) { InsertAscending(keys[0], Indices(keys[1..])); }
    }
  }

  /** Before an array index, only array indices come. */
  lemma IndicesComeFirst(keys: seq<string>, i: nat, j: nat)
    requires i <= j < |Entries(keys)|
    ensures IsArrayIndex(Entries(keys)[j]) ==> IsArrayIndex(Entries(keys)[i])
  {
    if j < |Indices(keys)| {
      assert Entries(keys)[i] in Indices(keys);
    } else {
      assert Entries(keys)[j] in Names(keys);
    }
  }

  lemma {:induction false} NamesDoNotRepeat(keys: seq<string>)
    requires NoRepeats(keys)
    ensures NoRepeats(Names(keys))
  {
    if keys != [] {
      NamesDoNotRepeat(keys[1..]);
      assert forall k <- Names(keys[1..]) :: k in keys[1..];
    }
  }

  /** The name added first precedes every other name that is no array index. */
  lemma FirstNameLeads(keys: seq<string>, k: string) returns (i: nat)
    requires NoRepeats(keys) && keys != [] && !IsArrayIndex(keys[0]) && k in keys && k != keys[0] && !IsArrayIndex(k)
    ensures i < |Entries(keys)| && Entries(keys)[i] == k && keys[0] !in Entries(keys)[i..]
  {
    var n, names := |Indices(keys)|, Names(keys);
    NamesDoNotRepeat(keys);
    assert names[0] == keys[0];
    var m :| 0 <= m < |names| && names[m] == k;
    i := n + m;
    assert Entries(keys)[i..] == names[m..];
  }
}
