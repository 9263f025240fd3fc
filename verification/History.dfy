/** The association suite's history: how it is generated and stored
    (benchmarks/agent-tasks/association/build.py) and how it is replayed (truth.py). */
module History {
  import opened Decimals
  import opened EdgeIds
  import opened Predicates
  import opened Derivation

  datatype Change =
    | SetProp(day: nat, key: string, field: string, value: Value)
    | DeleteNode(day: nat, key: string)
    | InsertNode(day: nat, key: string, node: Node)

  /** Setting a prop of, or deleting, an absent node does nothing. */
  function Apply(nodes: World, c: Change): World {
    match c
    case SetProp(_, key, field, value) => if key in nodes then WithProp(nodes, key, field, value) else nodes
    case DeleteNode(_, key) => nodes - {key}
    case InsertNode(_, key, node) => nodes[key := node]
  }

  /** What a change leaves: the node it names as it says, every other node as it was. */
  lemma ApplyEffect(nodes: World, c: Change)
    ensures c.DeleteNode? ==> c.key !in Apply(nodes, c)
    ensures c.InsertNode? ==> c.key in Apply(nodes, c) && Apply(nodes, c)[c.key] == c.node
    ensures c.SetProp? ==> (c.key in Apply(nodes, c) <==> c.key in nodes)
    ensures c.SetProp? && c.key in nodes ==>
              var before, after := nodes[c.key], Apply(nodes, c)[c.key];
              && after.lab == before.lab && Get(after.props, c.field) == c.value
              && forall f :: f != c.field ==> Get(after.props, f) == Get(before.props, f)
    ensures forall k :: k != c.key ==> (k in Apply(nodes, c) <==> k in nodes) && (k in nodes ==> Apply(nodes, c)[k] == nodes[k])
  {
  }

  function Replay(nodes: World, cs: seq<Change>): World {
    if cs == [] then nodes else Apply(Replay(nodes, cs[..|cs| - 1]), cs[|cs| - 1])
  }

  lemma {:induction false} ReplayAppends(nodes: World, cs: seq<Change>, more: seq<Change>)
    ensures Replay(nodes, cs + more) == Replay(Replay(nodes, cs), more)
  {
    if more == [] {
      assert cs + more == cs;
    } else {
      assert (cs + more)[..|cs + more| - 1] == cs + more[..|more| - 1];
      ReplayAppends(nodes, cs, more[..|more| - 1]);
    }
  }

  /** Folding one-node deltas over any history gives the derivation of its final state. */
  ghost function FoldDeltas(dist: Distance, rules: seq<Rule>, nodes: World, cs: seq<Change>): set<Edge> {
    if cs == [] then AllDerived(dist, nodes, rules) else
    var rest, c := cs[..|cs| - 1], cs[|cs| - 1];
    var before := Replay(nodes, rest);
    FoldDeltas(dist, rules, nodes, rest) - DerivedAt(dist, before, rules, c.key)
      + DerivedAt(dist, Apply(before, c), rules, c.key)
  }

  lemma {:induction false} FoldedDeltasAreExact(dist: Distance, rules: seq<Rule>, nodes: World, cs: seq<Change>)
    ensures FoldDeltas(dist, rules, nodes, cs) == AllDerived(dist, Replay(nodes, cs), rules)
  {
    if cs != [] {
      var rest, c := cs[..|cs| - 1], cs[|cs| - 1];
      FoldedDeltasAreExact(dist, rules, nodes, rest);
      DeltaIsExact(dist, rules, Replay(nodes, rest), Replay(nodes, cs), c.key);
    }
  }

  // ---- the state on a day --------------------------------------------------

  /** The changes the replay loop applies before its early break. */
  function Taken(cs: seq<Change>, day: nat): seq<Change> {
    if cs == [] || cs[0].day > day then [] else [cs[0]] + Taken(cs[1..], day)
  }

  /** All changes of that day or earlier. */
  function UpTo(cs: seq<Change>, day: nat): seq<Change> {
    if cs == [] then [] else
    (if cs[0].day <= day then [cs[0]] else []) + UpTo(cs[1..], day)
  }

  ghost predicate DayOrder(cs: seq<Change>) {
    forall i, j :: 0 <= i < j < |cs| ==> cs[i].day <= cs[j].day
  }

  lemma {:induction false} TakenIsPrefix(cs: seq<Change>, day: nat)
    ensures |Taken(cs, day)| <= |cs| && Taken(cs, day) == cs[..|Taken(cs, day)|]
    ensures |Taken(cs, day)| < |cs| ==> cs[|Taken(cs, day)|].day > day
    ensures forall i :: 0 <= i < |Taken(cs, day)| ==> cs[i].day <= day
  {
    if cs != [] && cs[0].day <= day { TakenIsPrefix(cs[1..], day); }
  }

  /** `state_at`: replay until a later day is met, then stop. */
  method StateAt(nodes: World, cs: seq<Change>, day: nat) returns (state: World)
    ensures state == Replay(nodes, Taken(cs, day))
    ensures DayOrder(cs) ==> state == Replay(nodes, UpTo(cs, day))
  {
    state := nodes;
    var i := 0;
    TakenIsPrefix(cs, day);
    while i < |cs|
      invariant 0 <= i <= |Taken(cs, day)|
      invariant state == Replay(nodes, cs[..i])
    {
      if cs[i].day > day { break; }
      assert cs[..i + 1][..i] == cs[..i];
      match cs[i] {
        case SetProp(_, key, field, value) =>
          if key in state { state := state[key := state[key].(props := state[key].props[field := value])]; }
        case DeleteNode(_, key) => state := state - {key};
        case InsertNode(_, key, node) => state := state[key := node];
      }
      i := i + 1;
    }
    if DayOrder(cs) { TakenIsUpTo(cs, day); }
  }

  lemma {:induction false} UpToOfLater(cs: seq<Change>, day: nat)
    requires forall i :: 0 <= i < |cs| ==> cs[i].day > day
    ensures UpTo(cs, day) == []
  {
    if cs != [] { UpToOfLater(cs[1..], day); }
  }

  lemma {:induction false} TakenIsUpTo(cs: seq<Change>, day: nat)
    requires DayOrder(cs)
    ensures Taken(cs, day) == UpTo(cs, day)
  {
    if cs != [] {
      if cs[0].day <= day {
        TakenIsUpTo(cs[1..], day);
      } else {
        UpToOfLater(cs, day);
      }
    }
  }

  lemma {:induction false} UpToCounts(cs: seq<Change>, day: nat, j: nat)
    requires j < |cs| && cs[j].day <= day
    ensures cs[j] in UpTo(cs, day)
  {
    if j > 0 { UpToCounts(cs[1..], day, j - 1); }
  }

  /** The early break is right on every day if and only if the log is in day order. */
  lemma BreakIsRightIffInOrder(cs: seq<Change>)
    ensures (forall day: nat :: Taken(cs, day) == UpTo(cs, day)) <==> DayOrder(cs)
  {
    if DayOrder(cs) {
      forall day: nat ensures Taken(cs, day) == UpTo(cs, day) { TakenIsUpTo(cs, day); }
    } else {
      var i, j :| 0 <= i < j < |cs| && cs[i].day > cs[j].day;
      var day := cs[j].day;
      TakenIsPrefix(cs, day);
      TakenMisses(cs, day, i, j);
      assert Taken(cs, day) != UpTo(cs, day);
    }
  }

  lemma TakenMisses(cs: seq<Change>, day: nat, i: nat, j: nat)
    requires i < j < |cs| && cs[j].day <= day < cs[i].day
    ensures |Taken(cs, day)| < |UpTo(cs, day)|
  {
    TakenIsPrefix(cs, day);
    var n := |Taken(cs, day)|;
    assert n <= i;
    assert cs == cs[..n] + cs[n..];
    UpToAppends(cs[..n], cs[n..], day);
    AllUpTo(cs[..n], day);
    UpToCounts(cs[n..], day, j - n);
  }

  lemma {:induction false} UpToAppends(a: seq<Change>, b: seq<Change>, day: nat)
    ensures UpTo(a + b, day) == UpTo(a, day) + UpTo(b, day)
  {
    if a == [] {
      assert a + b == b;
    } else {
      assert (a + b)[1..] == a[1..] + b;
      UpToAppends(a[1..], b, day);
    }
  }

  lemma {:induction false} AllUpTo(cs: seq<Change>, day: nat)
    requires forall i :: 0 <= i < |cs| ==> cs[i].day <= day
    ensures UpTo(cs, day) == cs
  {
    if cs != [] { AllUpTo(cs[1..], day); }
  }

  // ---- keys the generator makes --------------------------------------------

  datatype Kind = Talent | Company | Job

  function Prefix(kind: Kind): string {
    match kind case Talent => "talent-" case Company => "company-" case Job => "job-"
  }

  function Label(kind: Kind): string {
    match kind case Talent => "Talent" case Company => "Company" case Job => "Job"
  }

  /** `{i:06d}`: at least six digits. */
  function Padded(s: string): string
    decreases 6 - |s|
  {
    if |s| < 6 then Padded("0" + s) else s
  }

  function KeyOf(kind: Kind, i: nat): string {
    Prefix(kind) + Padded(Decimal(i))
  }

  lemma {:induction false} PaddedReads(s: string)
    ensures NumberOf(Padded(s)) == NumberOf(s)
    ensures |Padded(s)| == (if |s| < 6 then 6 else |s|)
    ensures AllDigits(s) ==> AllDigits(Padded(s))
    decreases 6 - |s|
  {
    if |s| < 6 {
      PaddedReads("0" + s);
      LeadingZeroIsNothing(s);
    }
  }

  /** What a generated key looks like: the kind's prefix, then the index in digits, six of
      them or, from a million on, as many as it takes. */
  lemma KeyFormat(kind: Kind, i: nat)
    ensures var digits := KeyOf(kind, i)[|Prefix(kind)|..];
            && AllDigits(digits) && NumberOf(digits) == i && |digits| >= 6
            && (|digits| > 6 ==> digits == Decimal(i))
    ensures KeyOf(kind, i)[..|Prefix(kind)|] == Prefix(kind)
  {
    DecimalIsCanonical(i);
    NumberOfDecimal(i);
    PaddedReads(Decimal(i));
    assert KeyOf(kind, i)[|Prefix(kind)|..] == Padded(Decimal(i));
  }

  lemma FirstKeys()
    ensures KeyOf(Talent, 0) == "talent-000000" && KeyOf(Company, 7) == "company-000007" && KeyOf(Job, 42) == "job-000042"
    ensures Label(Talent) == "Talent" && Label(Company) == "Company" && Label(Job) == "Job"
  {
    assert Decimal(0) == "0" && Decimal(7) == "7" && Decimal(42) == "42";
    PadOut("0", "00000");
    PadOut("7", "00000");
    PadOut("42", "0000");
    assert "00000" + "0" == "000000" && "00000" + "7" == "000007" && "0000" + "42" == "000042";
  }

  lemma {:induction false} PadOut(s: string, zeros: string)
    requires |zeros| + |s| == 6 && forall i :: 0 <= i < |zeros| ==> zeros[i] == '0'
    ensures Padded(s) == zeros + s
    decreases |zeros|
  {
    if zeros == "" {
      assert zeros + s == s;
    } else {
      var rest := zeros[..|zeros| - 1];
      assert zeros == rest + "0";
      PadOut("0" + s, rest);
      assert rest + ("0" + s) == zeros + s;
    }
  }

  /** A key determines its kind and its index. */
  lemma KeysAreDistinct(k: Kind, i: nat, l: Kind, j: nat)
    requires KeyOf(k, i) == KeyOf(l, j)
    ensures k == l && i == j
  {
    assert KeyOf(k, i)[0] == Prefix(k)[0] && KeyOf(l, j)[0] == Prefix(l)[0];
    assert k == l;
    assert Padded(Decimal(i)) == KeyOf(k, i)[|Prefix(k)|..] == Padded(Decimal(j));
    PaddedReads(Decimal(i));
    PaddedReads(Decimal(j));
    NumberOfDecimal(i);
    NumberOfDecimal(j);
  }

  // ---- generating the history ----------------------------------------------

  datatype Op = OpSet | OpInsert | OpDelete
  datatype Counters = Counters(talent: nat, company: nat, job: nat)

  function Count(c: Counters, kind: Kind): nat {
    match kind case Talent => c.talent case Company => c.company case Job => c.job
  }

  function Bump(c: Counters, kind: Kind): Counters {
    match kind
    case Talent => c.(talent := c.talent + 1)
    case Company => c.(company := c.company + 1)
    case Job => c.(job := c.job + 1)
  }

  /** Every key ever used has an index below its kind's counter. */
  ghost predicate Below(key: string, c: Counters) {
    exists kind: Kind, i: nat :: i < Count(c, kind) && key == KeyOf(kind, i)
  }

  /** What the generator promises about change `i` of its output. */
  ghost predicate ChangeFits(nodes: World, cs: seq<Change>, i: nat)
    requires i < |cs|
  {
    && (forall j :: 0 <= j < i && cs[j].day == cs[i].day ==> cs[j].key != cs[i].key)
    && (if cs[i].InsertNode? then cs[i].key !in nodes && forall j :: 0 <= j < i ==> cs[j].key != cs[i].key
        else cs[i].key in Replay(nodes, cs[..i]))
  }

  ghost predicate HistoryFits(nodes: World, cs: seq<Change>) {
    forall i :: 0 <= i < |cs| ==> ChangeFits(nodes, cs, i)
  }

  lemma FitsGrows(nodes: World, cs: seq<Change>, c: Change)
    requires HistoryFits(nodes, cs) && ChangeFits(nodes, cs + [c], |cs|)
    ensures HistoryFits(nodes, cs + [c])
  {
    forall i | 0 <= i < |cs| ensures ChangeFits(nodes, cs + [c], i) {
      assert ChangeFits(nodes, cs, i);
      assert (cs + [c])[..i] == cs[..i];
    }
  }

  lemma FreshKeyIsNew(c: Counters, kind: Kind)
    ensures !Below(KeyOf(kind, Count(c, kind)), c)
    ensures Below(KeyOf(kind, Count(c, kind)), Bump(c, kind))
    ensures forall key :: Below(key, c) ==> Below(key, Bump(c, kind))
  {
    var key := KeyOf(kind, Count(c, kind));
    if Below(key, c) {
      var l: Kind, j: nat :| j < Count(c, l) && key == KeyOf(l, j);
      KeysAreDistinct(kind, Count(c, kind), l, j);
    }
    assert Count(c, kind) < Count(Bump(c, kind), kind);
    forall k | Below(k, c) ensures Below(k, Bump(c, kind)) {
      var l: Kind, j: nat :| j < Count(c, l) && k == KeyOf(l, j);
      assert j < Count(Bump(c, kind), l);
    }
  }

  /** The generator's loop state after `cs`: the live map is the replay, `touched` holds
      today's keys, and every key ever used is below its counter. */
  ghost predicate GeneratorOk(nodes: World, cs: seq<Change>, live: World, touched: set<string>, today: nat, next: Counters) {
    HistoryOk(nodes, cs, live, touched, today) && KeysBelow(nodes, cs, live, next)
  }

  ghost predicate HistoryOk(nodes: World, cs: seq<Change>, live: World, touched: set<string>, today: nat) {
    && HistoryFits(nodes, cs)
    && live == Replay(nodes, cs)
    && (forall k :: k in touched <==> ChangedOn(cs, today, k))
  }

  /** The key was changed on that day. */
  ghost predicate ChangedOn(cs: seq<Change>, day: nat, key: string) {
    exists j :: 0 <= j < |cs| && cs[j].day == day && cs[j].key == key
  }

  lemma ChangedOnGrows(cs: seq<Change>, c: Change, key: string)
    ensures ChangedOn(cs + [c], c.day, key) <==> ChangedOn(cs, c.day, key) || key == c.key
  {
    var longer := cs + [c];
    if ChangedOn(cs, c.day, key) {
      var j :| 0 <= j < |cs| && cs[j].day == c.day && cs[j].key == key;
      assert longer[j].day == c.day && longer[j].key == key;
    }
    if key == c.key { assert longer[|cs|].day == c.day; }
  }

  ghost predicate KeysBelow(nodes: World, cs: seq<Change>, live: World, next: Counters) {
    && (forall key <- nodes :: Below(key, next))
    && (forall j :: 0 <= j < |cs| ==> Below(cs[j].key, next))
    && (forall key <- live :: Below(key, next))
  }

  /** A change that fits and whose key was not touched today keeps the history in order. */
  lemma HistoryGrows(nodes: World, cs: seq<Change>, live: World, touched: set<string>, c: Change)
    requires HistoryOk(nodes, cs, live, touched, c.day) && ChangeFits(nodes, cs + [c], |cs|)
    ensures HistoryOk(nodes, cs + [c], Apply(live, c), touched + {c.key}, c.day)
  {
    assert (cs + [c])[..|cs|] == cs;
    FitsGrows(nodes, cs, c);
    forall k ensures k in touched + {c.key} <==> ChangedOn(cs + [c], c.day, k) { ChangedOnGrows(cs, c, k); }
  }

  lemma BelowGrows(nodes: World, cs: seq<Change>, live: World, next: Counters, c: Change)
    requires KeysBelow(nodes, cs, live, next) && Below(c.key, next)
    ensures KeysBelow(nodes, cs + [c], Apply(live, c), next)
  {
    var cs', live' := cs + [c], Apply(live, c);
    assert live'.Keys <= live.Keys + {c.key};
    forall j | 0 <= j < |cs'| ensures Below(cs'[j].key, next) {
      if j < |cs| { assert cs'[j] == cs[j]; }
    }
  }

  /** The change is of the kind that was drawn. */
  predicate OfKind(op: Op, c: Change) {
    match op
    case OpSet => c.SetProp?
    case OpInsert => c.InsertNode?
    case OpDelete => c.DeleteNode?
  }

  /** Every key that is there was changed on that day already. */
  ghost predicate AllChangedOn(nodes: World, cs: seq<Change>, day: nat) {
    forall k <- Replay(nodes, cs) :: ChangedOn(cs, day, k)
  }

  /** After `cs`, a draw of `op` gives its own kind, or an insertion exactly if nothing is left
      to set or delete that day. */
  ghost predicate KindDrawn(nodes: World, cs: seq<Change>, op: Op, c: Change) {
    && (OfKind(op, c) || c.InsertNode?)
    && (OfKind(op, c) <==> op.OpInsert? || !AllChangedOn(nodes, cs, c.day))
  }

  lemma NothingLeft(nodes: World, cs: seq<Change>, live: World, touched: set<string>, day: nat, candidates: set<string>)
    requires HistoryOk(nodes, cs, live, touched, day) && candidates == set k | k in live && k !in touched
    ensures AllChangedOn(nodes, cs, day) <==> candidates == {}
  {
    if candidates == {} {
      forall k | k in Replay(nodes, cs) ensures ChangedOn(cs, day, k) { assert k in live && k !in candidates; }
    } else {
      var k :| k in candidates;
      assert !ChangedOn(cs, day, k);
    }
  }

  /** The inserted node took its kind's next index, and only that counter moved, by one. */
  ghost predicate TookNext(kind: Kind, c: Change, next: Counters, next': Counters) {
    && c.InsertNode? && c.key == KeyOf(kind, Count(next, kind)) && c.node.lab == Label(kind)
    && Count(next', kind) == Count(next, kind) + 1
    && forall other: Kind :: other != kind ==> Count(next', other) == Count(next, other)
  }

  /** `_one_change`, with every random draw an arbitrary choice. A draw to set or delete falls
      back to an insertion exactly when no live key is left untouched today. */
  method OneChange(ghost nodes: World, ghost cs: seq<Change>, op: Op, day: nat, live: World, touched: set<string>, next: Counters)
    returns (c: Change, live': World, next': Counters)
    requires GeneratorOk(nodes, cs, live, touched, day, next)
    ensures c.day == day
    ensures GeneratorOk(nodes, cs + [c], live', touched + {c.key}, day, next')
    ensures KindDrawn(nodes, cs, op, c)
    ensures if c.InsertNode? then exists kind :: TookNext(kind, c, next, next') else next' == next
  {
    var candidates := set k | k in live && k !in touched;
    NothingLeft(nodes, cs, live, touched, day, candidates);
    if op.OpInsert? || candidates == {} {
      var kind: Kind := *;
      var props: Props := *;
      var key := KeyOf(kind, Count(next, kind));
      var node := Node(Label(kind), props);
      next' := Bump(next, kind);
      live' := live[key := node];
      c := InsertNode(day, key, node);
      InsertionFits(nodes, cs, live, touched, next, kind, c);
      assert TookNext(kind, c, next, next');
    } else {
      var key :| key in candidates;
      next' := next;
      if op.OpDelete? {
        live' := live - {key};
        c := DeleteNode(day, key);
      } else {
        var field: string := *;
        var value: Value := *;
        live' := WithProp(live, key, field, value);
        c := SetProp(day, key, field, value);
      }
      ChangeOfLiveFits(nodes, cs, live, touched, next, c);
    }
  }

  lemma InsertionFits(nodes: World, cs: seq<Change>, live: World, touched: set<string>, next: Counters, kind: Kind, c: Change)
    requires c.InsertNode? && c.key == KeyOf(kind, Count(next, kind))
    requires GeneratorOk(nodes, cs, live, touched, c.day, next)
    ensures GeneratorOk(nodes, cs + [c], live[c.key := c.node], touched + {c.key}, c.day, Bump(next, kind))
  {
    FreshKeyIsNew(next, kind);
    assert (cs + [c])[..|cs|] == cs;
    HistoryGrows(nodes, cs, live, touched, c);
    BelowGrows(nodes, cs, live, Bump(next, kind), c);
  }

  lemma ChangeOfLiveFits(nodes: World, cs: seq<Change>, live: World, touched: set<string>, next: Counters, c: Change)
    requires !c.InsertNode? && c.key in live && c.key !in touched
    requires GeneratorOk(nodes, cs, live, touched, c.day, next)
    ensures GeneratorOk(nodes, cs + [c], Apply(live, c), touched + {c.key}, c.day, next)
  {
    assert (cs + [c])[..|cs|] == cs;
    HistoryGrows(nodes, cs, live, touched, c);
    BelowGrows(nodes, cs, live, next, c);
  }

  /** A new day starts with nothing touched. */
  lemma NewDay(nodes: World, cs: seq<Change>, live: World, touched: set<string>, today: nat, day: nat, next: Counters)
    requires GeneratorOk(nodes, cs, live, touched, today, next)
    requires forall j :: 0 <= j < |cs| ==> cs[j].day < day
    ensures GeneratorOk(nodes, cs, live, {}, day, next)
  {
  }

  /** The loop state after the first `|cs|` draws: the days are the drawn ones, `today` is
      the last of them, and the generator is in order. */
  ghost predicate LoopOk(nodes: World, days: seq<nat>, cs: seq<Change>, live: World, touched: set<string>, today: int, next: Counters) {
    && |cs| <= |days| && (forall j :: 0 <= j < |cs| ==> cs[j].day == days[j])
    && today == (if cs == [] then -1 else cs[|cs| - 1].day)
    && GeneratorOk(nodes, cs, live, touched, if today < 0 then 0 else today, next)
  }

  ghost predicate Ascending(days: seq<nat>) {
    forall i, j :: 0 <= i < j < |days| ==> days[i] <= days[j]
  }

  lemma LoopGrows(nodes: World, days: seq<nat>, cs: seq<Change>, c: Change, live: World, touched: set<string>, next: Counters)
    requires |cs| < |days| && (forall j :: 0 <= j < |cs| ==> cs[j].day == days[j]) && c.day == days[|cs|]
    requires GeneratorOk(nodes, cs + [c], live, touched, c.day, next)
    ensures LoopOk(nodes, days, cs + [c], live, touched, c.day, next)
  {
  }

  /** One turn of the loop: a new day forgets what was touched, then one change is drawn. */
  method NextChange(ghost nodes: World, days: seq<nat>, op: Op, cs: seq<Change>, live: World, touched: set<string>, today: int, next: Counters)
    returns (c: Change, live': World, touched': set<string>, next': Counters)
    requires LoopOk(nodes, days, cs, live, touched, today, next) && |cs| < |days| && Ascending(days)
    ensures LoopOk(nodes, days, cs + [c], live', touched', c.day, next')
    ensures KindDrawn(nodes, cs, op, c)
  {
    var day := days[|cs|];
    touched' := touched;
    if day != today {
      NewDay(nodes, cs, live, touched, if today < 0 then 0 else today, day, next);
      touched' := {};
    }
    c, live', next' := OneChange(nodes, cs, op, day, live, touched', next);
    touched' := touched' + {c.key};
    LoopGrows(nodes, days, cs, c, live', touched', next');
  }

  /** Every change is of the kind drawn for it, as far as possible. */
  ghost predicate KindsDrawn(nodes: World, cs: seq<Change>, ops: seq<Op>) {
    |cs| <= |ops| && forall i :: 0 <= i < |cs| ==> KindDrawn(nodes, cs[..i], ops[i], cs[i])
  }

  lemma KindsGrow(nodes: World, cs: seq<Change>, ops: seq<Op>, c: Change)
    requires KindsDrawn(nodes, cs, ops) && |cs| < |ops| && KindDrawn(nodes, cs, ops[|cs|], c)
    ensures KindsDrawn(nodes, cs + [c], ops)
  {
    var longer := cs + [c];
    forall i | 0 <= i < |longer| ensures KindDrawn(nodes, longer[..i], ops[i], longer[i]) {
      assert longer[..i] == cs[..i];
      if i < |cs| { assert KindDrawn(nodes, cs[..i], ops[i], cs[i]); } else { assert cs[..i] == cs; }
    }
  }

  /** `changelog`: whatever the draws, the history is in day order, never touches a key
      twice in a day, never sets or deletes a key that is not there, inserts only keys never
      used before, is of the kinds drawn as far as there is something to set or delete, and
      leaves the live map equal to its own replay. `days` is the sorted
      draw of days, `next0` the first unused index of each kind. */
  method Changelog(nodes: World, next0: Counters, ops: seq<Op>, days: seq<nat>, lastDay: nat)
    returns (cs: seq<Change>, live: World)
    requires |ops| == |days| && Ascending(days)
    requires forall i :: 0 <= i < |days| ==> 1 <= days[i] <= lastDay
    requires forall key <- nodes :: Below(key, next0)
    ensures |cs| == |ops| && forall i :: 0 <= i < |cs| ==> cs[i].day == days[i]
    ensures DayOrder(cs) && HistoryFits(nodes, cs)
    ensures KindsDrawn(nodes, cs, ops)
    ensures live == Replay(nodes, cs) == Replay(nodes, Taken(cs, lastDay))
  {
    live, cs := nodes, [];
    var next := next0;
    var touched: set<string> := {};
    var today: int := -1;
    for i := 0 to |ops|
      invariant |cs| == i && LoopOk(nodes, days, cs, live, touched, today, next)
      invariant KindsDrawn(nodes, cs, ops)
    {
      var c, live', touched', next' := NextChange(nodes, days, ops[i], cs, live, touched, today, next);
      KindsGrow(nodes, cs, ops, c);
      cs, live, touched, today, next := cs + [c], live', touched', c.day, next';
    }
    TakenIsUpTo(cs, lastDay);
    AllUpTo(cs, lastDay);
  }

  /** In a history that fits, a deleted key is never named again. */
  lemma DeletedStaysDeleted(nodes: World, cs: seq<Change>, i: nat, j: nat)
    requires HistoryFits(nodes, cs) && i < j < |cs| && cs[i].DeleteNode?
    ensures cs[j].key != cs[i].key
  {
    AbsentUntil(nodes, cs, i, j);
    assert ChangeFits(nodes, cs, j);
  }

  lemma {:induction false} AbsentUntil(nodes: World, cs: seq<Change>, i: nat, j: nat)
    requires HistoryFits(nodes, cs) && i < j <= |cs| && cs[i].DeleteNode?
    ensures cs[i].key !in Replay(nodes, cs[..j])
  {
    assert cs[..j][..j - 1] == cs[..j - 1];
    if i < j - 1 {
      AbsentUntil(nodes, cs, i, j - 1);
      assert ChangeFits(nodes, cs, j - 1);
    }
  }

  // ---- writing the store ---------------------------------------------------

  /** The changes of one day, in order. */
  function OfDay(cs: seq<Change>, day: nat): seq<Change> {
    if cs == [] then [] else
    OfDay(cs[..|cs| - 1], day) + if cs[|cs| - 1].day == day then [cs[|cs| - 1]] else []
  }

  /** Days 1 to `day`, one after the other. */
  function Grouped(cs: seq<Change>, day: nat): seq<Change> {
    if day == 0 then [] else Grouped(cs, day - 1) + OfDay(cs, day)
  }

  function Lookup(byDay: map<nat, seq<Change>>, day: nat): seq<Change> {
    if day in byDay then byDay[day] else []
  }

  method GroupByDay(cs: seq<Change>) returns (byDay: map<nat, seq<Change>>)
    ensures forall d: nat :: Lookup(byDay, d) == OfDay(cs, d)
  {
    byDay := map[];
    for i := 0 to |cs|
      invariant forall d: nat :: Lookup(byDay, d) == OfDay(cs[..i], d)
    {
      assert cs[..i + 1][..i] == cs[..i];
      var d := cs[i].day;
      byDay := byDay[d := Lookup(byDay, d) + [cs[i]]];
    }
    assert cs[..|cs|] == cs;
  }

  /** One change is one commit. */
  method Commit(log: seq<Change>, todays: seq<Change>) returns (log': seq<Change>)
    ensures log' == log + todays
  {
    log' := log;
    for i := 0 to |todays|
      invariant log' == log + todays[..i]
    {
      log' := log' + [todays[i]];
    }
  }

  /** The commit index a day ends at: one per change, after those of the day-0 state. */
  function CommitOn(base: nat, cs: seq<Change>, day: nat): int {
    base - 1 + |Grouped(cs, day)|
  }

  /** What `WriteStore` records: day `d` ends at commit `days[d]`. */
  ghost predicate Recorded(base: nat, cs: seq<Change>, days: seq<nat>, log: seq<Change>) {
    && base > 0 && days != [] && log == Grouped(cs, |days| - 1)
    && forall d :: 0 <= d < |days| ==> days[d] == CommitOn(base, cs, d)
  }

  lemma RecordedGrows(base: nat, cs: seq<Change>, days: seq<nat>, log: seq<Change>)
    requires base > 0 && days != [] && log == Grouped(cs, |days| - 1) + OfDay(cs, |days|)
    requires forall d :: 0 <= d < |days| ==> days[d] == CommitOn(base, cs, d)
    ensures Recorded(base, cs, days + [base + |log| - 1], log)
  {
    var days' := days + [base + |log| - 1];
    assert log == Grouped(cs, |days'| - 1);
    forall d | 0 <= d < |days'| ensures days'[d] == CommitOn(base, cs, d) {
      if d < |days| { assert days'[d] == days[d]; }
    }
  }

  /** The day and commit loop of `write_store`. `base` is the number of commits the day-0
      state took (at least one); every change is one commit, appended to `log`. */
  method WriteStore(base: nat, cs: seq<Change>, nDays: nat) returns (days: seq<nat>, log: seq<Change>)
    requires base > 0 && nDays > 0
    ensures |days| == nDays && Recorded(base, cs, days, log)
  {
    var byDay := GroupByDay(cs);
    log := [];
    days := [base - 1];
    for day := 1 to nDays
      invariant |days| == day && Recorded(base, cs, days, log)
    {
      log := Commit(log, Lookup(byDay, day));
      RecordedGrows(base, cs, days, log);
      days := days + [base + |log| - 1];
    }
  }

  lemma {:induction false} UpToSnoc(cs: seq<Change>, day: nat)
    requires cs != []
    ensures UpTo(cs, day) == UpTo(cs[..|cs| - 1], day) + if cs[|cs| - 1].day <= day then [cs[|cs| - 1]] else []
  {
    assert cs == cs[..|cs| - 1] + [cs[|cs| - 1]];
    UpToAppends(cs[..|cs| - 1], [cs[|cs| - 1]], day);
  }

  lemma {:induction false} DayByDay(cs: seq<Change>, day: nat)
    requires DayOrder(cs) && day > 0
    ensures UpTo(cs, day) == UpTo(cs, day - 1) + OfDay(cs, day)
  {
    if cs != [] {
      var rest, last := cs[..|cs| - 1], cs[|cs| - 1];
      DayByDay(rest, day);
      UpToSnoc(cs, day);
      UpToSnoc(cs, day - 1);
      if last.day < day {
        NoneOfLaterDay(cs, day);
        NoneOfLaterDay(rest, day);
        assert UpTo(rest, day) == UpTo(rest, day - 1);
      } else if last.day == day {
        assert UpTo(cs, day - 1) == UpTo(rest, day - 1);
        assert OfDay(cs, day) == OfDay(rest, day) + [last];
      } else {
        assert UpTo(cs, day) == UpTo(rest, day) && UpTo(cs, day - 1) == UpTo(rest, day - 1);
        assert OfDay(cs, day) == OfDay(rest, day);
      }
    }
  }

  lemma {:induction false} NoneOfLaterDay(cs: seq<Change>, day: nat)
    requires forall i :: 0 <= i < |cs| ==> cs[i].day < day
    ensures OfDay(cs, day) == []
  {
    if cs != [] { NoneOfLaterDay(cs[..|cs| - 1], day); }
  }

  lemma {:induction false} GroupedIsUpTo(cs: seq<Change>, day: nat)
    requires DayOrder(cs) && forall i :: 0 <= i < |cs| ==> cs[i].day >= 1
    ensures Grouped(cs, day) == UpTo(cs, day)
  {
    if day == 0 {
      UpToOfLater(cs, 0);
    } else {
      GroupedIsUpTo(cs, day - 1);
      DayByDay(cs, day);
    }
  }

  lemma {:induction false} GroupedIsPrefix(cs: seq<Change>, d: nat, e: nat)
    requires d <= e
    ensures Grouped(cs, d) <= Grouped(cs, e)
  {
    if d < e { GroupedIsPrefix(cs, d, e - 1); }
  }

  /** Recorded commits never decrease, and repeat exactly when a day has no change. */
  lemma RecordedCommitsAscend(base: nat, cs: seq<Change>, days: seq<nat>, log: seq<Change>, d: nat)
    requires Recorded(base, cs, days, log) && d + 1 < |days|
    ensures days[d] <= days[d + 1] && (days[d] == days[d + 1] <==> OfDay(cs, d + 1) == [])
  {
    assert Grouped(cs, d + 1) == Grouped(cs, d) + OfDay(cs, d + 1);
  }

  /** Replaying the log to the commit recorded for a day gives the state of that day. */
  lemma RecordedCommitIsTheDay(nodes: World, base: nat, cs: seq<Change>, days: seq<nat>, log: seq<Change>, d: nat)
    requires Recorded(base, cs, days, log) && d < |days|
    requires DayOrder(cs) && forall i :: 0 <= i < |cs| ==> cs[i].day >= 1
    ensures base - 1 <= days[d] && days[d] - (base - 1) <= |log|
    ensures Replay(nodes, log[..days[d] - (base - 1)]) == Replay(nodes, Taken(cs, d))
  {
    var todate := Grouped(cs, d);
    assert days[d] == CommitOn(base, cs, d) == base - 1 + |todate|;
    GroupedIsPrefix(cs, d, |days| - 1);
    assert log[..|todate|] == todate;
    GroupedIsUpTo(cs, d);
    TakenIsUpTo(cs, d);
  }
}
