/** `ResyncGate` (ui/src/live.ts): one resync at a time, at most one queued behind it.
    The drain loop is cut at its await, so a step is a request, or the end of the run
    in progress. `log` records what happened, for the statements only. */
module ResyncGate {

  datatype Mark = Requested | Started | Finished | Threw
  datatype Input = Ask | Ends | Throws
  datatype State = State(running: bool, pending: bool, log: seq<Mark>)

  const IDLE := State(false, false, [])

  function Step(g: State, x: Input): State {
    match x
    case Ask =>
      if g.running then State(true, true, g.log + [Requested])
      else State(true, false, g.log + [Requested, Started])
    case Ends =>
      if !g.running then g
      else if g.pending then State(true, false, g.log + [Finished, Started])
      else State(false, false, g.log + [Finished])
    case Throws =>
      if !g.running then g else State(false, g.pending, g.log + [Threw])
  }

  function Run(g: State, xs: seq<Input>): State {
    if xs == [] then g else Step(Run(g, xs[..|xs| - 1]), xs[|xs| - 1])
  }

  class Gate {
    var running: bool
    var pending: bool
    var log: seq<Mark>

    function S(): State
      reads this
    {
      State(running, pending, log)
    }

    constructor ()
      ensures S() == IDLE
    {
      running, pending, log := false, false, [];
    }

    method Request()
      modifies this
      ensures S() == Step(old(S()), Ask)
    {
      log := log + [Requested];
      if running {
        pending := true;
        return;
      }
      running := true;
      BeginRun();
    }

    /** The head of the do-while body: clear the flag, start a run. */
    method BeginRun()
      modifies this
      ensures running == old(running) && !pending && log == old(log) + [Started]
    {
      pending := false;
      log := log + [Started];
    }

    /** The run in progress settles: the loop condition, then the finally block. */
    method RunSettled(threw: bool)
      requires running
      modifies this
      ensures S() == Step(old(S()), if threw then Throws else Ends)
    {
      log := log + [if threw then Threw else Finished];
      if !threw && pending {
        BeginRun();
        return;
      }
      running := false;
    }
  }

  // ---- the properties ------------------------------------------------------

  ghost predicate Over(log: seq<Mark>, k: int) {
    0 <= k < |log| && (log[k].Finished? || log[k].Threw?)
  }

  /** No two runs at once: between two starts a run is over. */
  ghost predicate OneAtATime(log: seq<Mark>) {
    forall i, j :: 0 <= i < j < |log| && log[i].Started? && log[j].Started? ==> exists k :: i < k < j && Over(log, k)
  }

  /** A run starts after the request at `i`. */
  ghost predicate Served(log: seq<Mark>, i: nat) {
    exists j :: i < j < |log| && log[j].Started?
  }

  /** A run starts after the request at `i` and completes. */
  ghost predicate ServedInFull(log: seq<Mark>, i: nat) {
    exists j, k :: i < j < k < |log| && log[j].Started? && log[k].Finished?
  }

  ghost predicate AllServed(log: seq<Mark>) {
    forall i :: 0 <= i < |log| && log[i].Requested? ==> Served(log, i)
  }

  ghost predicate Inv(g: State) {
    && OneAtATime(g.log)
    && (g.running ==> exists s :: 0 <= s < |g.log| && g.log[s].Started? && forall k :: s < k < |g.log| ==> g.log[k].Requested?)
    && (!g.running ==> forall s :: 0 <= s < |g.log| && g.log[s].Started? ==> exists k :: s < k && Over(g.log, k))
    && (AllServed(g.log) <==> !g.pending)
  }

  lemma LogGrows(log: seq<Mark>, more: seq<Mark>)
    ensures forall i: nat :: Served(log, i) ==> Served(log + more, i)
    ensures forall k :: Over(log, k) ==> Over(log + more, k)
    ensures forall i: nat :: ServedInFull(log, i) ==> ServedInFull(log + more, i)
  {
    forall i: nat | Served(log, i) ensures Served(log + more, i) {
      var j :| i < j < |log| && log[j].Started?;
      assert (log + more)[j].Started?;
    }
    forall i: nat | ServedInFull(log, i) ensures ServedInFull(log + more, i) {
      var j, k :| i < j < k < |log| && log[j].Started? && log[k].Finished?;
      assert (log + more)[j].Started? && (log + more)[k].Finished?;
    }
  }

  lemma OneAtATimeGrows(log: seq<Mark>, x: Mark)
    requires OneAtATime(log)
    requires x.Started? ==> forall s :: 0 <= s < |log| && log[s].Started? ==> exists k :: s < k && Over(log, k)
    ensures OneAtATime(log + [x])
  {
    LogGrows(log, [x]);
    forall i, j | 0 <= i < j < |log + [x]| && (log + [x])[i].Started? && (log + [x])[j].Started?
      ensures exists k :: i < k < j && Over(log + [x], k)
    {
      if j < |log| {
        assert log[i].Started? && log[j].Started?;
        var k :| i < k < j && Over(log, k);
      } else {
        var k :| i < k && Over(log, k);
      }
    }
  }

  /** Adding a start serves everything asked for before it. */
  lemma StartServesAll(log: seq<Mark>)
    ensures AllServed(log + [Started])
  {
    var l := log + [Started];
    assert l[|log|].Started?;
    forall i | 0 <= i < |l| && l[i].Requested? ensures Served(l, i) {}
  }

  lemma RequestUnserved(log: seq<Mark>)
    ensures !AllServed(log + [Requested])
  {
    var l := log + [Requested];
    assert l[|log|].Requested? && !Served(l, |log|);
  }

  /** A mark that is neither a request nor a start changes nothing about who is served. */
  lemma EndServesNobody(log: seq<Mark>, x: Mark)
    requires x.Finished? || x.Threw?
    ensures AllServed(log + [x]) <==> AllServed(log)
  {
    var l := log + [x];
    LogGrows(log, [x]);
    forall i: nat | i < |log| && Served(l, i) ensures Served(log, i) {
      var j :| i < j < |l| && l[j].Started?;
      assert log[j].Started?;
    }
    assert forall i :: 0 <= i < |log| ==> l[i] == log[i];
  }

  lemma StepKeepsInv(g: State, x: Input)
    requires Inv(g)
    ensures Inv(Step(g, x))
  {
    var log := g.log;
    match x
    case Ask =>
      OneAtATimeGrows(log, Requested);
      if g.running {
        RequestUnserved(log);
        var s :| 0 <= s < |log| && log[s].Started? && forall k :: s < k < |log| ==> log[k].Requested?;
        var l := log + [Requested];
        assert l[s].Started? && forall k :: s < k < |l| ==> l[k].Requested?;
      } else {
        StartsWhenIdle(log + [Requested], g);
        assert log + [Requested, Started] == log + [Requested] + [Started];
      }
    case Ends =>
      if g.running {
        EndedLog(g, Finished);
        if g.pending {
          StartsWhenIdle(log + [Finished], g);
          assert log + [Finished, Started] == log + [Finished] + [Started];
        }
      }
    case Throws =>
      if g.running { EndedLog(g, Threw); }
  }

  lemma EndedLog(g: State, x: Mark)
    requires Inv(g) && g.running && (x.Finished? || x.Threw?)
    ensures OneAtATime(g.log + [x]) && (AllServed(g.log + [x]) <==> !g.pending)
    ensures forall s :: 0 <= s < |g.log + [x]| && (g.log + [x])[s].Started? ==> exists k :: s < k && Over(g.log + [x], k)
  {
    var l := g.log + [x];
    OneAtATimeGrows(g.log, x);
    EndServesNobody(g.log, x);
    assert Over(l, |g.log|);
  }

  /** A start where every earlier run is over keeps the alternation. */
  lemma StartsWhenIdle(log: seq<Mark>, g: State)
    requires OneAtATime(log)
    requires (!g.running && log == g.log + [Requested] && Inv(g)) ||
             forall s :: 0 <= s < |log| && log[s].Started? ==> exists k :: s < k && Over(log, k)
    ensures OneAtATime(log + [Started]) && AllServed(log + [Started])
    ensures (log + [Started])[|log|].Started?
  {
    StartServesAll(log);
    if !g.running && log == g.log + [Requested] && Inv(g) {
      LogGrows(g.log, [Requested]);
      forall s | 0 <= s < |log| && log[s].Started? ensures exists k :: s < k && Over(log, k) {
        assert g.log[s].Started?;
        var k :| s < k && Over(g.log, k);
      }
    }
    OneAtATimeGrows(log, Started);
  }

  lemma {:induction false} EveryRunKeepsInv(xs: seq<Input>)
    ensures Inv(Run(IDLE, xs))
  {
    if xs != [] {
      EveryRunKeepsInv(xs[..|xs| - 1]);
      StepKeepsInv(Run(IDLE, xs[..|xs| - 1]), xs[|xs| - 1]);
    }
  }

  /** The last run threw while a request was queued behind it. */
  ghost predicate ThrewOnQueued(log: seq<Mark>) {
    |log| >= 2 && log[|log| - 1].Threw? && log[|log| - 2].Requested?
  }

  /** The run in progress ends badly: a request was queued exactly if one came last. */
  lemma ThrowLeavesQueued(g: State)
    requires Inv(g) && g.running
    ensures g.pending <==> ThrewOnQueued(g.log + [Threw])
  {
    var s :| 0 <= s < |g.log| && g.log[s].Started? && forall k :: s < k < |g.log| ==> g.log[k].Requested?;
    var last := |g.log| - 1;
    if g.log[last].Requested? {
      assert !Served(g.log, last);
    } else {
      assert s == last;
      assert g.log == g.log[..last] + [Started];
      StartServesAll(g.log[..last]);
    }
  }

  /** At rest the flag is up exactly if the last run threw on a queued request. */
  lemma {:induction false} RestTellsPending(xs: seq<Input>)
    ensures var g := Run(IDLE, xs); !g.running ==> (g.pending <==> ThrewOnQueued(g.log))
  {
    if xs != [] {
      var before := Run(IDLE, xs[..|xs| - 1]);
      RestTellsPending(xs[..|xs| - 1]);
      EveryRunKeepsInv(xs[..|xs| - 1]);
      if before.running { ThrowLeavesQueued(before); }
    }
  }

  /** Whatever the inputs: never two runs at once; while a run is in progress a request
      lacks a later start exactly if it is queued; and at rest some request was dropped if
      and only if the last run threw while a request was queued behind it. */
  lemma RequestsAreServedUnlessThrown(xs: seq<Input>)
    ensures var g := Run(IDLE, xs);
            && OneAtATime(g.log)
            && (g.running ==> (!AllServed(g.log) <==> g.log != [] && g.log[|g.log| - 1].Requested?))
            && (!g.running ==> (!AllServed(g.log) <==> ThrewOnQueued(g.log)))
  {
    EveryRunKeepsInv(xs);
    RestTellsPending(xs);
    var g := Run(IDLE, xs);
    if g.running { ThrowLeavesQueued(g); }
  }

  /** If no run throws, then at rest every request is followed by a complete run that
      starts after it. */
  lemma {:induction false} RestMeansServedInFull(xs: seq<Input>)
    requires Throws !in xs
    ensures var g := Run(IDLE, xs);
            && (!g.running ==> !g.pending)
            && (forall i :: 0 <= i < |g.log| ==> !g.log[i].Threw?)
            && (!g.running ==> forall i :: 0 <= i < |g.log| && g.log[i].Requested? ==> ServedInFull(g.log, i))
  {
    if xs != [] {
      RestMeansServedInFull(xs[..|xs| - 1]);
      assert xs[|xs| - 1] in xs;
    }
    EveryRunKeepsInv(xs);
    var g := Run(IDLE, xs);
    if !g.running && !g.pending {
      ServedMeansInFull(g);
    }
  }

  lemma ServedMeansInFull(g: State)
    requires Inv(g) && !g.running && !g.pending && forall i :: 0 <= i < |g.log| ==> !g.log[i].Threw?
    ensures forall i :: 0 <= i < |g.log| && g.log[i].Requested? ==> ServedInFull(g.log, i)
  {
    forall i | 0 <= i < |g.log| && g.log[i].Requested? ensures ServedInFull(g.log, i) {
      assert Served(g.log, i);
      var j :| i < j < |g.log| && g.log[j].Started?;
      var k :| j < k && Over(g.log, k);
      assert g.log[k].Finished?;
    }
  }

  /** A run that throws drops the requests queued behind it: the condition is needed. */
  lemma ThrowingRunDropsRequests()
    ensures var g := Run(IDLE, [Ask, Ask, Throws]); !g.running && g.pending && !AllServed(g.log)
  {
    var xs := [Ask, Ask, Throws];
    assert xs[..2] == [Ask, Ask] && [Ask, Ask][..1] == [Ask] && [Ask][..0] == [];
    assert Run(IDLE, [Ask]) == State(true, false, [Requested, Started]);
    assert Run(IDLE, [Ask, Ask]) == State(true, true, [Requested, Started, Requested]);
    RequestsAreServedUnlessThrown(xs);
  }

  function Asks(k: nat): seq<Input> { seq(k, _ => Ask) }

  /** Any burst of requests during a run causes exactly one further run, and none after it. */
  lemma {:induction false} BurstCausesOneRun(g: State, k: nat)
    requires g.running && !g.pending && k > 0
    ensures var h := Run(g, Asks(k)); h == State(true, true, g.log + seq(k, _ => Requested))
    ensures var h := Step(Run(g, Asks(k)), Ends);
            h == State(true, false, g.log + seq(k, _ => Requested) + [Finished, Started]) && !Step(h, Ends).running
  {
    assert Asks(k)[..k - 1] == Asks(k - 1);
    assert seq(k, _ => Requested) == seq(k - 1, _ => Requested) + [Requested];
    if k > 1 {
      BurstCausesOneRun(g, k - 1);
    } else {
      assert Run(g, Asks(k)[..0]) == g;
    }
    assert g.log + seq(k - 1, _ => Requested) + [Requested] == g.log + seq(k, _ => Requested);
  }
}
