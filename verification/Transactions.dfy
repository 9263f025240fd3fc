/** `TxHandle` and `MushroomClient.transaction` (clients/typescript/src/client.ts) under
    overlapping calls, lost replies and a server that may end the transaction at any
    time. An async method is cut at its awaits; a step is one stretch of client code,
    one request handled by the server, or one failure of the network. */
module Transactions {
  import opened Common

  datatype Handle = Open | Committing | Unknown | Finished

  /** What a call on a transaction route comes back with. */
  datatype Reply = Ok | Garbled | Conflict | Constraint | Expired | Busy | Other

  /** `fetchJson` and `txJson`: the reply an HTTP answer is turned into. `body` is whether
      the answer's text parses to something other than null; without one, reading the
      bookmark throws. */
  function ReplyOf(status: nat, code: string, body: bool): Reply {
    if 200 <= status < 300 then (if body then Ok else Garbled)
    else if status == 409 then
      if code == "busy" then Busy else if code == "constraint" then Constraint else Conflict
    else if status == 404 || status == 410 then Expired
    else if code == "busy" then Busy
    else Other
  }

  // ---- the client's side ---------------------------------------------------

  datatype Verdict = Becomes(state: Handle) | AskTheServer

  function AfterCommit(r: Reply): Verdict {
    match r
    case Ok => Becomes(Finished)
    case Conflict => Becomes(Finished)
    case Constraint => Becomes(Finished)
    case Expired => Becomes(Finished)
    case Busy => Becomes(Open)
    case Other => AskTheServer
    case Garbled => Becomes(Unknown)
  }

  function AfterProbe(r: Reply): Handle {
    match r
    case Ok => Open
    case Garbled => Open
    case Expired => Finished
    case _ => Unknown
  }

  function AfterRollback(state: Handle, r: Reply): Handle {
    if r.Ok? || r.Garbled? || r.Expired? then Finished else state
  }

  predicate Succeeded(status: nat) { 200 <= status < 300 }
  predicate Missing(status: nat) { status == 404 || status == 410 }

  /** What an HTTP answer to a commit does to the handle: it reopens exactly on a `busy` that
      is neither a success nor a 404 or 410, the outcome stays unknown exactly on a success
      without a body, the server is asked exactly on other errors but a conflict, and the
      rest finishes. */
  lemma CommitByStatus(status: nat, code: string, body: bool)
    ensures var v := AfterCommit(ReplyOf(status, code, body));
            && (v == Becomes(Open) <==> code == "busy" && !Succeeded(status) && !Missing(status))
            && (v == Becomes(Unknown) <==> Succeeded(status) && !body)
            && (v == AskTheServer <==> code != "busy" && status != 409 && !Succeeded(status) && !Missing(status))
            && v != Becomes(Committing)
    ensures status == 409 ==>
              ReplyOf(status, code, body) == if code == "busy" then Busy else if code == "constraint" then Constraint else Conflict
    ensures Missing(status) ==> ReplyOf(status, code, body) == Expired
  {
  }

  /** The object, one method per stretch of code between two awaits. */
  class TxHandle {
    var state: Handle

    constructor ()
      ensures state == Open
    {
      state := Open;
    }

    /** `assertOpen` and the first lines of `commit`: whether a request is sent. */
    method StartCommit() returns (sent: bool)
      modifies this
      ensures sent <==> old(state) == Open
      ensures state == if sent then Committing else old(state)
    {
      if state != Open { return false; }
      state := Committing;
      return true;
    }

    method CommitAnswered(r: Reply) returns (probe: bool)
      modifies this
      ensures probe <==> AfterCommit(r).AskTheServer?
      ensures state == if probe then old(state) else AfterCommit(r).state
    {
      match r
      case Ok => state := Finished; return false;
      case Conflict => state := Finished; return false;
      case Constraint => state := Finished; return false;
      case Expired => state := Finished; return false;
      case Busy => state := Open; return false;
      case Other => return true;
      case Garbled => state := Finished; state := Unknown; return false;
    }

    method CommitFailed()
      modifies this
      ensures state == Unknown
    {
      state := Unknown;
    }

    method ProbeAnswered(r: Reply)
      modifies this
      ensures state == AfterProbe(r)
    {
      if r.Ok? || r.Garbled? {
        state := Open;
      } else {
        state := if r.Expired? then Finished else Unknown;
      }
    }

    /** `rollback` up to its request; a finished handle returns without one. */
    method StartRollback() returns (sent: bool, throws: bool)
      ensures sent <==> state == Open
      ensures throws <==> state == Committing || state == Unknown
    {
      return state == Open, state == Committing || state == Unknown;
    }

    method RollbackAnswered(r: Reply) returns (throws: bool)
      modifies this
      ensures state == AfterRollback(old(state), r)
      ensures throws <==> !(r.Ok? || r.Garbled? || r.Expired?)
    {
      if r.Ok? || r.Garbled? || r.Expired? {
        state := Finished;
        return false;
      }
      return true;
    }
  }

  // ---- the whole system ----------------------------------------------------

  /** The server's side: it holds the transaction, or it is gone with or without effect. */
  datatype Tx = Held | Gone(committed: bool)

  datatype CommitCall = Sent | Answered(r: Reply) | Probing | Probed(r: Reply)
  datatype RollbackCall = RbSent | RbAnswered(r: Reply)

  /** Where a call of `transaction` is. */
  datatype Phase = NotUsed | InCallback | AwaitsCommit | CommitReturned | Resolved | Rejected

  /** `strays` are commits whose caller has been answered or has given up but which may still
      arrive; `requests` counts everything ever sent; `late` is whether a commit was ever
      answered, by something between client and server, before the server had it. */
  datatype System = System(
    state: Handle, server: Tx,
    commits: seq<CommitCall>, rollbacks: seq<RollbackCall>,
    strays: nat, strayRollbacks: nat,
    requests: nat, commitSent: bool, phase: Phase, late: bool)

  datatype Step =
    | CallExecute | CallCommit | CallRollback
    | ServerCommits(i: nat, r: Reply, tx: Tx)
    | GatewayAnswers(i: nat)
    | ServerProbes(i: nat, r: Reply)
    | ServerRollsBack(i: nat, r: Reply, tx: Tx)
    | StrayCommits(tx: Tx) | StrayRollsBack(tx: Tx)
    | Expires
    | DeliverCommit(i: nat) | DeliverProbe(i: nat) | DeliverRollback(i: nat)
    | FailCommit(i: nat) | FailRollback(i: nat)
    | CallbackResolves | CallbackThrows | TransactionReturns

  /** How the server may answer a commit: an outcome it announces is the outcome it had. A
      busy server has done nothing; any other error says nothing about what it did. */
  ghost predicate CommitAllowed(tx: Tx, r: Reply, tx': Tx) {
    if tx.Gone? then tx' == tx && (r.Expired? || r.Other?) else
    match r
    case Ok => tx' == Gone(true)
    case Garbled => tx' == Gone(true)
    case Conflict => tx' == Gone(false)
    case Constraint => tx' == Gone(false)
    case Expired => tx' == Gone(false)
    case Busy => tx' == tx
    case Other => true
  }

  ghost predicate RollbackAllowed(tx: Tx, r: Reply, tx': Tx) {
    if tx.Gone? then tx' == tx && (r.Expired? || r.Other?)
    else if r.Ok? || r.Garbled? || r.Expired? then tx' == Gone(false)
    else tx' == tx || (r.Other? && tx' == Gone(false))
  }

  ghost predicate ProbeAllowed(tx: Tx, r: Reply) {
    if tx.Gone? then r.Expired? || r.Other? else !r.Expired?
  }

  ghost predicate Legal(y: System, step: Step) {
    match step
    case ServerCommits(i, r, tx) => i < |y.commits| && y.commits[i] == Sent && CommitAllowed(y.server, r, tx)
    case GatewayAnswers(i) => i < |y.commits| && y.commits[i] == Sent
    case ServerProbes(i, r) => i < |y.commits| && y.commits[i] == Probing && ProbeAllowed(y.server, r)
    case ServerRollsBack(i, r, tx) => i < |y.rollbacks| && y.rollbacks[i] == RbSent && RollbackAllowed(y.server, r, tx)
    case StrayCommits(tx) => y.strays > 0 && exists r :: CommitAllowed(y.server, r, tx)
    case StrayRollsBack(tx) => y.strayRollbacks > 0 && exists r :: RollbackAllowed(y.server, r, tx)
    case DeliverCommit(i) => i < |y.commits| && y.commits[i].Answered?
    case DeliverProbe(i) => i < |y.commits| && y.commits[i].Probed?
    case DeliverRollback(i) => i < |y.rollbacks| && y.rollbacks[i].RbAnswered?
    case FailCommit(i) => i < |y.commits|
    case FailRollback(i) => i < |y.rollbacks|
    case CallbackResolves => y.phase == InCallback
    case CallbackThrows => y.phase == InCallback
    case TransactionReturns => y.phase == CommitReturned
    case _ => true
  }

  function Without<T>(s: seq<T>, i: nat): seq<T>
    requires i < |s|
  {
    s[..i] + s[i + 1..]
  }

  function SendCommit(y: System): System {
    if y.state != Open then y else
    y.(state := Committing, commits := y.commits + [Sent], requests := y.requests + 1, commitSent := true)
  }

  function SendRollback(y: System): System {
    if y.state != Open then y else
    y.(rollbacks := y.rollbacks + [RbSent], requests := y.requests + 1)
  }

  /** A commit call returns or throws; `transaction` hears of it if it is waiting. */
  function CommitOver(y: System, i: nat, state: Handle, ok: bool): System
    requires i < |y.commits|
  {
    y.(state := state, commits := Without(y.commits, i),
       phase := if y.phase == AwaitsCommit then (if ok then CommitReturned else Rejected) else y.phase)
  }

  ghost function Next(y: System, step: Step): System
    requires Legal(y, step)
  {
    match step
    case CallExecute => if y.state == Open then y.(requests := y.requests + 1) else y
    case CallCommit => SendCommit(y)
    case CallRollback => SendRollback(y)
    case ServerCommits(i, r, tx) => y.(server := tx, commits := y.commits[i := Answered(r)])
    case GatewayAnswers(i) => y.(commits := y.commits[i := Answered(Other)], strays := y.strays + 1, late := true)
    case ServerProbes(i, r) => y.(commits := y.commits[i := Probed(r)])
    case ServerRollsBack(i, r, tx) => y.(server := tx, rollbacks := y.rollbacks[i := RbAnswered(r)])
    case StrayCommits(tx) => y.(server := tx, strays := y.strays - 1)
    case StrayRollsBack(tx) => y.(server := tx, strayRollbacks := y.strayRollbacks - 1)
    case Expires => if y.server.Held? then y.(server := Gone(false)) else y
    case DeliverCommit(i) =>
      var r := y.commits[i].r;
      if AfterCommit(r).AskTheServer? then y.(commits := y.commits[i := Probing], requests := y.requests + 1)
      else CommitOver(y, i, AfterCommit(r).state, r.Ok?)
    case DeliverProbe(i) => CommitOver(y, i, AfterProbe(y.commits[i].r), false)
    case DeliverRollback(i) =>
      y.(state := AfterRollback(y.state, y.rollbacks[i].r), rollbacks := Without(y.rollbacks, i))
    case FailCommit(i) =>
      CommitOver(y, i, Unknown, false).(strays := y.strays + if y.commits[i].Sent? then 1 else 0)
    case FailRollback(i) =>
      y.(rollbacks := Without(y.rollbacks, i),
         strayRollbacks := y.strayRollbacks + if y.rollbacks[i].RbSent? then 1 else 0)
    case CallbackResolves =>
      if y.state == Finished then y.(phase := Resolved)
      else if y.state == Open then SendCommit(y).(phase := AwaitsCommit)
      else y.(phase := Rejected)
    case CallbackThrows => SendRollback(y).(phase := Rejected)
    case TransactionReturns => y.(phase := Resolved)
  }

  ghost function Run(y: System, steps: seq<Step>): Option<System> {
    if steps == [] then Some(y) else
    var before := Run(y, steps[..|steps| - 1]);
    if before.Some? && Legal(before.value, steps[|steps| - 1])
    then Some(Next(before.value, steps[|steps| - 1])) else None
  }

  function Begun(phase: Phase): System {
    System(Open, Held, [], [], 0, 0, 0, false, phase, false)
  }

  // ---- what every step keeps -----------------------------------------------

  /** What a commit call in each stage proves about the server. */
  ghost predicate CallHonest(c: CommitCall, tx: Tx, late: bool) {
    match c
    case Sent => late || tx != Gone(true)
    case Answered(r) =>
      && (r.Ok? || r.Garbled? ==> tx == Gone(true))
      && (r.Conflict? || r.Constraint? ==> tx == Gone(false))
      && (r.Expired? ==> tx.Gone? && (late || tx == Gone(false)))
      && (r.Busy? ==> late || tx != Gone(true))
    case Probing => true
    case Probed(r) => (r.Ok? || r.Garbled? ==> late || tx != Gone(true)) && (r.Expired? ==> tx.Gone?)
  }

  ghost predicate RollbackHonest(c: RollbackCall, tx: Tx) {
    && (c.RbAnswered? && (c.r.Ok? || c.r.Garbled?) ==> tx == Gone(false))
    && (c.RbAnswered? && c.r.Expired? ==> tx.Gone?)
  }

  ghost predicate Inv(y: System) {
    && |y.commits| <= 1
    && (y.commits != [] ==> y.state == Committing || y.state == Finished)
    && (y.state == Committing ==> y.commits != [])
    && (!y.late && y.commits != [] ==> y.strays == 0)
    && (!y.late && y.strays > 0 ==> y.state == Unknown || y.state == Finished)
    && (y.state == Finished ==> y.server.Gone?)
    && (!y.late && y.state == Open ==> y.server != Gone(true))
    && (forall i :: 0 <= i < |y.commits| ==> CallHonest(y.commits[i], y.server, y.late))
    && (forall i :: 0 <= i < |y.rollbacks| ==> RollbackHonest(y.rollbacks[i], y.server))
    && (y.server == Gone(true) ==> y.commitSent)
    && (y.strays > 0 || y.commits != [] || y.late ==> y.commitSent)
    && (y.phase == AwaitsCommit ==> y.commits != [])
    && (y.phase == CommitReturned ==> y.state == Finished && y.commits == [] && y.server == Gone(true))
  }

  predicate ByServer(step: Step) {
    step.ServerCommits? || step.GatewayAnswers? || step.ServerProbes? || step.ServerRollsBack? || step.StrayCommits? || step.StrayRollsBack? || step.Expires?
  }

  lemma ServerStepKeepsInv(y: System, step: Step)
    requires Inv(y) && Legal(y, step)
    requires ByServer(step)
    ensures Inv(Next(y, step))
  {
  }

  /** Dropping a call keeps the others honest. */
  lemma OthersHonest(calls: seq<RollbackCall>, i: nat, tx: Tx)
    requires i < |calls| && forall j :: 0 <= j < |calls| ==> RollbackHonest(calls[j], tx)
    ensures forall j :: 0 <= j < |Without(calls, i)| ==> RollbackHonest(Without(calls, i)[j], tx)
  {
    forall j | 0 <= j < |Without(calls, i)| ensures RollbackHonest(Without(calls, i)[j], tx) {
      assert Without(calls, i)[j] == if j < i then calls[j] else calls[j + 1];
    }
  }

  predicate OfCommit(step: Step) {
    step.DeliverCommit? || step.DeliverProbe? || step.FailCommit?
  }

  lemma CommitStepKeepsInv(y: System, step: Step)
    requires Inv(y) && Legal(y, step) && OfCommit(step)
    ensures Inv(Next(y, step))
  {
    assert CallHonest(y.commits[step.i], y.server, y.late);
    assert Without(y.commits, step.i) == [];
  }

  lemma RollbackStepKeepsInv(y: System, step: Step)
    requires Inv(y) && Legal(y, step) && (step.DeliverRollback? || step.FailRollback?)
    ensures Inv(Next(y, step))
  {
    assert RollbackHonest(y.rollbacks[step.i], y.server);
    OthersHonest(y.rollbacks, step.i, y.server);
  }

  lemma CallStepKeepsInv(y: System, step: Step)
    requires Inv(y) && Legal(y, step) && !ByServer(step) && !OfCommit(step) && !step.DeliverRollback? && !step.FailRollback?
    ensures Inv(Next(y, step))
  {
  }

  lemma ClientStepKeepsInv(y: System, step: Step)
    requires Inv(y) && Legal(y, step)
    requires !ByServer(step)
    ensures Inv(Next(y, step))
  {
    if OfCommit(step) {
      CommitStepKeepsInv(y, step);
    } else if step.DeliverRollback? || step.FailRollback? {
      RollbackStepKeepsInv(y, step);
    } else {
      CallStepKeepsInv(y, step);
    }
  }

  lemma StepKeepsInv(y: System, step: Step)
    requires Inv(y) && Legal(y, step)
    ensures Inv(Next(y, step))
  {
    if ByServer(step) { ServerStepKeepsInv(y, step); } else { ClientStepKeepsInv(y, step); }
  }

  /** Over every run of calls, replies, losses and expiries. */
  lemma {:induction false} EveryRunKeepsInv(phase: Phase, steps: seq<Step>)
    requires phase == NotUsed || phase == InCallback
    ensures var y := Run(Begun(phase), steps); y.Some? ==> Inv(y.value)
  {
    if steps != [] {
      EveryRunKeepsInv(phase, steps[..|steps| - 1]);
      var before := Run(Begun(phase), steps[..|steps| - 1]);
      if before.Some? && Legal(before.value, steps[|steps| - 1]) {
        StepKeepsInv(before.value, steps[|steps| - 1]);
      }
    }
  }

  /** In every reachable state: at most one commit call is in flight; a finished handle means
      the server no longer holds the transaction; the only way the work can be in the store
      is a commit that was asked for; and unless a commit was answered before the server had
      it, an open handle means nothing was committed and nothing can still arrive, so a retry
      cannot apply the work twice. */
  lemma ReachableIsSafe(phase: Phase, steps: seq<Step>)
    requires phase == NotUsed || phase == InCallback
    ensures var r := Run(Begun(phase), steps);
            r.Some? ==>
              var y := r.value;
              && |y.commits| <= 1
              && (y.state == Finished ==> y.server.Gone?)
              && (y.server == Gone(true) ==> y.commitSent)
              && (y.state == Open ==> y.commits == [])
              && (y.state == Open && !y.late ==> y.server != Gone(true) && y.strays == 0)
  {
    EveryRunKeepsInv(phase, steps);
  }

  /** The exception is real: a gateway answers for the server, the probe finds the transaction
      still there, the handle is open again, and then the commit arrives. */
  lemma LateCommitOnOpenHandle() returns (y: System, steps: seq<Step>)
    ensures Run(Begun(NotUsed), steps) == Some(y)
    ensures y.state == Open && y.server == Gone(true) && y.late
  {
    var y0 := Begun(NotUsed);
    var y1 := Next(y0, CallCommit);
    var y2 := Next(y1, GatewayAnswers(0));
    var y3 := Next(y2, DeliverCommit(0));
    var y4 := Next(y3, ServerProbes(0, Ok));
    var y5 := Next(y4, DeliverProbe(0));
    assert CommitAllowed(y5.server, Ok, Gone(true));
    steps := [];
    RunExtends(y0, steps, y0, CallCommit);
    steps := steps + [CallCommit];
    RunExtends(y0, steps, y1, GatewayAnswers(0));
    steps := steps + [GatewayAnswers(0)];
    RunExtends(y0, steps, y2, DeliverCommit(0));
    steps := steps + [DeliverCommit(0)];
    RunExtends(y0, steps, y3, ServerProbes(0, Ok));
    steps := steps + [ServerProbes(0, Ok)];
    RunExtends(y0, steps, y4, DeliverProbe(0));
    steps := steps + [DeliverProbe(0)];
    RunExtends(y0, steps, y5, StrayCommits(Gone(true)));
    steps := steps + [StrayCommits(Gone(true))];
    y := Next(y5, StrayCommits(Gone(true)));
  }

  /** A commit call that returns committed; one that throws a conflict or a constraint refusal
      did not; nor did one that throws an expiry, unless an earlier commit was answered before
      the server had it. */
  lemma CommitTellsTheTruth(y: System, i: nat)
    requires Inv(y) && Legal(y, DeliverCommit(i))
    ensures y.commits[i].r.Ok? ==> y.server == Gone(true)
    ensures y.commits[i].r.Conflict? || y.commits[i].r.Constraint? ==> y.server == Gone(false)
    ensures y.commits[i].r.Expired? ==> y.server.Gone? && (y.late || y.server == Gone(false))
  {
    assert CallHonest(y.commits[i], y.server, y.late);
  }

  /** `transaction` resolves only on a finished handle, and if it did the commit itself,
      only when the work is in the store. */
  lemma TransactionResolvesOnFinished(y: System, step: Step)
    requires Inv(y) && Legal(y, step) && y.phase != Resolved && Next(y, step).phase == Resolved
    ensures Next(y, step).state == Finished && Next(y, step).server.Gone?
    ensures step.TransactionReturns? ==> Next(y, step).server == Gone(true)
  {
  }

  /** From `unknown` a handle sends nothing more and never becomes usable; the one way out
      is a rollback that was already in flight. */
  lemma {:induction false} UnknownIsTerminal(y: System, steps: seq<Step>)
    requires Inv(y) && y.state == Unknown
    ensures var r := Run(y, steps);
            r.Some? ==>
              && Inv(r.value) && r.value.commits == []
              && r.value.requests == y.requests
              && (r.value.state == Unknown || r.value.state == Finished)
              && (y.rollbacks == [] ==> r.value.state == Unknown && r.value.rollbacks == [])
  {
    if steps != [] {
      UnknownIsTerminal(y, steps[..|steps| - 1]);
      var before := Run(y, steps[..|steps| - 1]);
      var step := steps[|steps| - 1];
      if before.Some? && Legal(before.value, step) {
        StepKeepsInv(before.value, step);
        UnknownStays(before.value, step);
      }
    }
  }

  lemma UnknownStays(y: System, step: Step)
    requires Legal(y, step) && y.commits == [] && (y.state == Unknown || y.state == Finished)
    ensures var z := Next(y, step);
            && z.commits == [] && z.requests == y.requests && (z.state == Unknown || z.state == Finished)
            && (y.rollbacks == [] && y.state == Unknown ==> z.rollbacks == [] && z.state == Unknown)
  {
  }

  lemma FinishedStays(y: System, step: Step)
    requires Legal(y, step) && y.state == Finished && y.commits == []
    ensures var z := Next(y, step); z.state == Finished && z.commits == [] && z.requests == y.requests
  {
  }

  /** Finished is for ever, and silent, once no commit call is in flight. */
  lemma {:induction false} FinishedIsTerminal(y: System, steps: seq<Step>)
    requires Inv(y) && y.state == Finished && y.commits == []
    ensures var r := Run(y, steps);
            r.Some? ==> r.value.state == Finished && r.value.commits == [] && r.value.requests == y.requests
  {
    if steps != [] {
      FinishedIsTerminal(y, steps[..|steps| - 1]);
      var before := Run(y, steps[..|steps| - 1]);
      if before.Some? && Legal(before.value, steps[|steps| - 1]) { FinishedStays(before.value, steps[|steps| - 1]); }
    }
  }

  /** Exactly then: with a commit call in flight there is always a way out of finished. */
  lemma FinishedIsPermanentIff(y: System)
    requires Inv(y) && y.state == Finished
    ensures (forall steps :: Run(y, steps).Some? ==> Run(y, steps).value.state == Finished) <==> y.commits == []
  {
    if y.commits == [] {
      forall steps | Run(y, steps).Some? ensures Run(y, steps).value.state == Finished { FinishedIsTerminal(y, steps); }
    } else {
      RunExtends(y, [], y, FailCommit(0));
      var steps := [] + [FailCommit(0)];
      assert Run(y, steps).value.state == Unknown;
    }
  }

  lemma RunExtends(y: System, steps: seq<Step>, z: System, step: Step)
    requires Run(y, steps) == Some(z) && Legal(z, step)
    ensures Run(y, steps + [step]) == Some(Next(z, step))
  {
    assert (steps + [step])[..|steps|] == steps;
  }

  /** A rollback and a commit in flight together, the commit handled first. */
  lemma OverlappingCalls(y: System, r: Reply, tx: Tx) returns (z: System, steps: seq<Step>)
    requires y.state == Open && y.commits == [] && CommitAllowed(y.server, r, tx)
    ensures steps == [CallRollback] + [CallCommit] + [ServerCommits(0, r, tx)] && Run(y, steps) == Some(z)
    ensures z == y.(state := Committing, server := tx, commits := [Answered(r)], rollbacks := y.rollbacks + [RbSent],
                    requests := y.requests + 2, commitSent := true)
  {
    var y1 := y.(rollbacks := y.rollbacks + [RbSent], requests := y.requests + 1);
    var y2 := y1.(state := Committing, commits := [Sent], requests := y.requests + 2, commitSent := true);
    z := y2.(server := tx, commits := [Answered(r)]);
    assert Next(y, CallRollback) == y1 && Next(y1, CallCommit) == y2 && Next(y2, ServerCommits(0, r, tx)) == z;
    RunExtends(y, [], y, CallRollback);
    steps := [] + [CallRollback];
    RunExtends(y, steps, y1, CallCommit);
    steps := steps + [CallCommit];
    RunExtends(y, steps, y2, ServerCommits(0, r, tx));
    steps := steps + [ServerCommits(0, r, tx)];
  }

  /** With a commit still in flight it is not: a rollback ends the transaction, then the
      late `busy` reply reopens a handle on a transaction the server no longer has. */
  lemma FinishedCanReopen() returns (y: System, steps: seq<Step>)
    ensures Run(Begun(NotUsed), steps) == Some(y)
    ensures y.state == Finished && Legal(y, DeliverCommit(0))
    ensures Next(y, DeliverCommit(0)).state == Open && Next(y, DeliverCommit(0)).server == Gone(false)
  {
    var y3;
    y3, steps := OverlappingCalls(Begun(NotUsed), Busy, Held);
    var y4 := y3.(server := Gone(false), rollbacks := [RbAnswered(Ok)]);
    y := y4.(state := Finished, rollbacks := []);
    assert Next(y3, ServerRollsBack(0, Ok, Gone(false))) == y4 && Next(y4, DeliverRollback(0)) == y;
    RunExtends(Begun(NotUsed), steps, y3, ServerRollsBack(0, Ok, Gone(false)));
    steps := steps + [ServerRollsBack(0, Ok, Gone(false))];
    RunExtends(Begun(NotUsed), steps, y4, DeliverRollback(0));
    steps := steps + [DeliverRollback(0)];
  }

  /** A rollback call that is about to return normally. */
  ghost predicate RollbackReturns(y: System, i: nat) {
    Legal(y, DeliverRollback(i)) && (y.rollbacks[i].r.Ok? || y.rollbacks[i].r.Garbled? || y.rollbacks[i].r.Expired?)
  }

  /** When it does, the transaction is over; and if the server accepted the rollback, or no
      commit was ever asked for, without effect. */
  lemma RollbackReturnsOnGone(y: System, i: nat)
    requires Inv(y) && RollbackReturns(y, i)
    ensures y.server.Gone? && Next(y, DeliverRollback(i)).state == Finished
    ensures !y.rollbacks[i].r.Expired? || !y.commitSent ==> y.server == Gone(false)
  {
    assert RollbackHonest(y.rollbacks[i], y.server);
  }

  /** No commit is started, by the caller or by `transaction`. */
  ghost predicate NoCommitStarted(steps: seq<Step>) {
    forall s <- steps :: !s.CallCommit? && !s.CallbackResolves?
  }

  /** No commit is under way and none has been applied. */
  ghost predicate NoneUnderWay(y: System) {
    y.commits == [] && y.strays == 0 && y.server != Gone(true)
  }

  lemma NoneStarts(y: System, step: Step)
    requires Legal(y, step) && NoneUnderWay(y) && !step.CallCommit? && !step.CallbackResolves?
    ensures NoneUnderWay(Next(y, step))
  {
  }

  /** While no commit is started, nothing can be committed. */
  lemma {:induction false} NothingCommitsUnasked(y: System, steps: seq<Step>)
    requires NoneUnderWay(y) && NoCommitStarted(steps)
    ensures Run(y, steps).Some? ==> NoneUnderWay(Run(y, steps).value)
  {
    if steps != [] {
      var step := steps[|steps| - 1];
      NothingCommitsUnasked(y, steps[..|steps| - 1]);
      assert step in steps;
      var before := Run(y, steps[..|steps| - 1]);
      if before.Some? && Legal(before.value, step) { NoneStarts(before.value, step); }
    }
  }

  lemma GoneStep(y: System, step: Step)
    requires y.server.Gone? && Legal(y, step)
    ensures Next(y, step).server == y.server
  {
  }

  /** What is over stays as it ended. */
  lemma {:induction false} GoneStays(y: System, steps: seq<Step>)
    requires y.server.Gone?
    ensures Run(y, steps).Some? ==> Run(y, steps).value.server == y.server
  {
    if steps != [] {
      GoneStays(y, steps[..|steps| - 1]);
      var before := Run(y, steps[..|steps| - 1]);
      if before.Some? && Legal(before.value, steps[|steps| - 1]) { GoneStep(before.value, steps[|steps| - 1]); }
    }
  }

  /** After these steps a rollback returns although the work was committed. */
  ghost predicate RollbackLies(y: System, steps: seq<Step>, i: nat) {
    Run(y, steps).Some? && RollbackReturns(Run(y, steps).value, i) && Run(y, steps).value.server == Gone(true)
  }

  /** Some earlier commit has been applied, or can still arrive in time. */
  ghost predicate CommitOutstanding(y: System) {
    y.server == Gone(true) || (y.server.Held? && y.strays > 0)
  }

  /** From every open handle: if no commit is started before the rollback returns, its return
      can be wrong exactly when an earlier commit is outstanding, which takes one that was
      answered before the server had it; and if one may be started, exactly when the
      transaction has not ended without effect. */
  lemma RollbackIsTrueIffAlone(y: System)
    requires Inv(y) && y.state == Open
    ensures (exists steps, i :: NoCommitStarted(steps) && RollbackLies(y, steps, i)) <==> CommitOutstanding(y)
    ensures (exists steps, i :: RollbackLies(y, steps, i)) <==> y.server != Gone(false)
    ensures CommitOutstanding(y) ==> y.late
  {
    if CommitOutstanding(y) {
      var steps, i := OutstandingCommitWins(y);
      assert NoCommitStarted(steps) && RollbackLies(y, steps, i);
    } else {
      forall steps, i: nat | NoCommitStarted(steps) ensures !RollbackLies(y, steps, i) {
        if y.server.Gone? { GoneStays(y, steps); } else { NothingCommitsUnasked(y, steps); }
      }
    }
    if y.server.Held? {
      var steps, i := OverlappingCommitWins(y);
      assert RollbackLies(y, steps, i);
    } else if y.server == Gone(false) {
      forall steps, i: nat ensures !RollbackLies(y, steps, i) { GoneStays(y, steps); }
    }
  }

  /** The rollback alone, on a transaction an earlier commit ends or has ended. */
  lemma OutstandingCommitWins(y: System) returns (steps: seq<Step>, i: nat)
    requires Inv(y) && y.state == Open && CommitOutstanding(y)
    ensures NoCommitStarted(steps) && RollbackLies(y, steps, i)
  {
    i := |y.rollbacks|;
    var last := ServerRollsBack(i, Expired, Gone(true));
    var y1 := Next(y, CallRollback);
    RunExtends(y, [], y, CallRollback);
    steps := [] + [CallRollback];
    if y.server.Held? {
      assert CommitAllowed(y1.server, Ok, Gone(true));
      var y2 := Next(y1, StrayCommits(Gone(true)));
      RunExtends(y, steps, y1, StrayCommits(Gone(true)));
      steps := steps + [StrayCommits(Gone(true))];
      RunExtends(y, steps, y2, last);
    } else {
      RunExtends(y, steps, y1, last);
    }
    steps := steps + [last];
  }

  /** An overlapping commit wins, and the rollback takes the server's 404 for success. */
  lemma OverlappingCommitWins(y: System) returns (steps: seq<Step>, i: nat)
    requires Inv(y) && y.state == Open && y.server.Held?
    ensures RollbackLies(y, steps, i)
    ensures steps == [CallRollback] + [CallCommit] + [ServerCommits(0, Ok, Gone(true))] + [ServerRollsBack(i, Expired, Gone(true))]
  {
    i := |y.rollbacks|;
    var last := ServerRollsBack(i, Expired, Gone(true));
    var y3;
    y3, steps := OverlappingCalls(y, Ok, Gone(true));
    assert Next(y3, last) == y3.(rollbacks := y3.rollbacks[i := RbAnswered(Expired)]);
    RunExtends(y, steps, y3, last);
    steps := steps + [last];
  }

  // ---- what the handle still does ------------------------------------------

  /** An open handle sends what it is asked to. */
  lemma OpenHandleActs(y: System)
    requires y.state == Open
    ensures Next(y, CallExecute) == y.(requests := y.requests + 1)
    ensures var z := Next(y, CallCommit); z.requests == y.requests + 1 && z.commits == y.commits + [Sent] && z.state == Committing
    ensures var z := Next(y, CallRollback); z.requests == y.requests + 1 && z.rollbacks == y.rollbacks + [RbSent] && z.state == Open
  {
  }

  /** A rollback that is refused leaves an open handle open, so that it can be tried again:
      the next one sends a request. */
  lemma RefusedRollbackCanBeRetried(y: System, i: nat)
    requires y.state == Open && Legal(y, DeliverRollback(i)) && !RollbackReturns(y, i)
    ensures var z := Next(y, DeliverRollback(i));
            z.state == Open && z.server == y.server && Next(z, CallRollback).requests == z.requests + 1
  {
  }

  /** So does one whose request or reply is lost. */
  lemma LostRollbackCanBeRetried(y: System, i: nat)
    requires y.state == Open && Legal(y, FailRollback(i))
    ensures var z := Next(y, FailRollback(i)); z.state == Open && Next(z, CallRollback).requests == z.requests + 1
  {
  }

  /** After any other refusal the handle mirrors the server: open if the probe finds the
      transaction, finished if it finds it gone, and unknown if it learns nothing. */
  lemma ProbeMirrorsServer(y: System, i: nat, r: Reply)
    requires Legal(y, ServerProbes(i, r))
    ensures var z := Next(Next(y, ServerProbes(i, r)), DeliverProbe(i));
            && (r.Ok? || r.Garbled? ==> y.server.Held? && z.state == Open)
            && (r.Expired? ==> y.server.Gone? && z.state == Finished)
            && (!r.Ok? && !r.Garbled? && !r.Expired? ==> z.state == Unknown)
  {
  }

  /** A commit ends the handle with the transaction, reopens it for a busy server, and asks
      the server about any other refusal. */
  lemma CommitOutcomes(y: System, i: nat)
    requires Legal(y, DeliverCommit(i))
    ensures var r, z := y.commits[i].r, Next(y, DeliverCommit(i));
            && (r.Ok? || r.Conflict? || r.Constraint? || r.Expired? ==> z.state == Finished)
            && (r.Busy? ==> z.state == Open)
            && (r.Garbled? ==> z.state == Unknown)
            && (r.Other? ==> z.state == y.state && |z.commits| == |y.commits| && z.commits[i] == Probing && z.requests == y.requests + 1)
  {
  }

  /** `transaction`: a callback that throws rolls an open handle back and rejects; one that
      resolves has an open handle committed, and nothing done on a finished one; any other
      handle rejects. */
  lemma CallbackOutcomes(y: System)
    requires y.phase == InCallback
    ensures var z := Next(y, CallbackThrows);
            z.phase == Rejected && z.rollbacks == (if y.state == Open then y.rollbacks + [RbSent] else y.rollbacks)
    ensures var z := Next(y, CallbackResolves);
            && (y.state == Open ==> z.phase == AwaitsCommit && z.commits == y.commits + [Sent])
            && (y.state == Finished ==> z == y.(phase := Resolved))
            && (y.state == Committing || y.state == Unknown ==> z == y.(phase := Rejected))
  {
  }

  /** Its own commit then decides: it resolves if the commit returned and rejects if it threw. */
  lemma OwnCommitDecides(y: System, i: nat)
    requires y.phase == AwaitsCommit && Legal(y, DeliverCommit(i)) && !y.commits[i].r.Other?
    ensures var z := Next(y, DeliverCommit(i));
            if y.commits[i].r.Ok? then z.phase == CommitReturned && Next(z, TransactionReturns).phase == Resolved else z.phase == Rejected
  {
  }
}
