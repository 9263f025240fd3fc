/** `WatchClient` (ui/src/watch.ts): connect, acknowledgement gate, reconnect with
    backoff, and `close`, which any callback may call from inside a handler; a callback may
    also throw. `log` records everything the outside world can see. */
module WatchClient {
  import opened Common

  datatype Frame = NotText | Ack | Lag | Change | Ignored

  datatype Mark =
    | Connected(c: nat)      // a socket was created
    | Acked(c: nat)          // onConnected was called
    | Changed(c: nat)        // onEvent was called
    | Lagged(c: nat)         // onLagged was called
    | Dropped(c: nat)        // the socket closed by itself
    | Reconnecting           // onReconnecting was called
    | Scheduled(delay: nat)  // a reconnect timer was armed
    | Closed                 // close() was called

  datatype Config = Config(initialMs: nat, maxMs: nat)

  datatype State = State(
    socket: Option<nat>, attempt: nat, closedByUser: bool, awaitingAck: bool,
    timer: bool, created: nat, log: seq<Mark>)

  /** What the callback an input triggers does: calls `close`, throws, both or neither. */
  datatype Reaction = Reaction(closes: bool, throws: bool)

  datatype Input =
    | Message(frame: Frame, reaction: Reaction)
    | SocketCloses(reaction: Reaction)
    | TimerFires
    | UserCloses

  function Pow2(k: nat): nat { if k == 0 then 1 else 2 * Pow2(k - 1) }

  function Delay(cfg: Config, k: nat): nat {
    var d := cfg.initialMs * Pow2(k);
    if cfg.maxMs < d then cfg.maxMs else d
  }

  // ---- handlers as functions ----------------------------------------------

  function Close(s: State): State {
    s.(closedByUser := true, timer := false, socket := None, log := s.log + [Closed])
  }

  function Connect(s: State): State {
    if s.closedByUser then s else
    s.(awaitingAck := true, socket := Some(s.created), created := s.created + 1, log := s.log + [Connected(s.created)])
  }

  function Callback(s: State, mark: Mark, reaction: Reaction): State {
    var s' := s.(log := s.log + [mark]);
    if reaction.closes then Close(s') else s'
  }

  function OnMessage(s: State, frame: Frame, reaction: Reaction): State {
    if s.socket.None? || frame.NotText? then s
    else if s.awaitingAck then
      if frame.Ack? then Callback(s.(awaitingAck := false, attempt := 0), Acked(s.socket.value), reaction) else s
    else if frame.Change? then Callback(s, Changed(s.socket.value), reaction)
    else if frame.Lag? then Callback(s, Lagged(s.socket.value), reaction)
    else s
  }

  function ScheduleReconnect(cfg: Config, s: State): State {
    if s.closedByUser || s.timer then s else
    s.(attempt := s.attempt + 1, timer := true, log := s.log + [Scheduled(Delay(cfg, s.attempt))])
  }

  function OnClose(cfg: Config, s: State, reaction: Reaction): State {
    if s.socket.None? then s else
    var s1 := s.(socket := None, log := s.log + [Dropped(s.socket.value)]);
    if s1.closedByUser then ScheduleReconnect(cfg, s1) else
    var s2 := Callback(s1, Reconnecting, reaction);
    if reaction.throws then s2 else ScheduleReconnect(cfg, s2)
  }

  function Step(cfg: Config, s: State, x: Input): State {
    match x
    case Message(frame, reaction) => OnMessage(s, frame, reaction)
    case SocketCloses(reaction) => OnClose(cfg, s, reaction)
    case TimerFires => if s.timer then Connect(s.(timer := false)) else s
    case UserCloses => Close(s)
  }

  const START := Connect(State(None, 0, false, true, false, 0, []))

  function Run(cfg: Config, xs: seq<Input>): State {
    if xs == [] then START else Step(cfg, Run(cfg, xs[..|xs| - 1]), xs[|xs| - 1])
  }

  // ---- the object ----------------------------------------------------------

  class Client {
    const cfg: Config
    var socket: Option<nat>
    var attempt: nat
    var closedByUser: bool
    var awaitingAck: bool
    var timer: bool
    var created: nat
    var log: seq<Mark>

    function S(): State
      reads this
    {
      State(socket, attempt, closedByUser, awaitingAck, timer, created, log)
    }

    constructor (cfg: Config)
      ensures this.cfg == cfg && S() == START
    {
      this.cfg := cfg;
      socket, attempt, closedByUser, awaitingAck, timer, created, log := None, 0, false, true, false, 0, [];
      new;
      ConnectSocket();
    }

    method CloseClient()
      modifies this
      ensures S() == Close(old(S()))
    {
      closedByUser := true;
      timer := false;
      socket := None;
      log := log + [Closed];
    }

    method ConnectSocket()
      modifies this
      ensures S() == Connect(old(S()))
    {
      if closedByUser { return; }
      awaitingAck := true;
      socket := Some(created);
      log := log + [Connected(created)];
      created := created + 1;
    }

    method Call(mark: Mark, reaction: Reaction)
      modifies this
      ensures S() == Callback(old(S()), mark, reaction)
    {
      log := log + [mark];
      if reaction.closes { CloseClient(); }
    }

    method HandleMessage(frame: Frame, reaction: Reaction)
      modifies this
      ensures S() == OnMessage(old(S()), frame, reaction)
    {
      if socket.None? || frame.NotText? { return; }
      if awaitingAck {
        if frame.Ack? {
          awaitingAck := false;
          attempt := 0;
          Call(Acked(socket.value), reaction);
        }
        return;
      }
      if frame.Change? {
        Call(Changed(socket.value), reaction);
      } else if frame.Lag? {
        Call(Lagged(socket.value), reaction);
      }
    }

    method HandleClose(reaction: Reaction)
      modifies this
      ensures S() == OnClose(cfg, old(S()), reaction)
    {
      if socket.None? { return; }
      log := log + [Dropped(socket.value)];
      socket := None;
      if !closedByUser {
        Call(Reconnecting, reaction);
        if reaction.throws { return; }
      }
      if closedByUser || timer { return; }
      log := log + [Scheduled(Delay(cfg, attempt))];
      attempt := attempt + 1;
      timer := true;
    }

    method HandleTimer()
      modifies this
      ensures S() == Step(cfg, old(S()), TimerFires)
    {
      if !timer { return; }
      timer := false;
      ConnectSocket();
    }
  }

  // ---- every entry of the log fits its past --------------------------------

  /** Sockets that closed by themselves since the last acknowledgement. */
  function DropsSinceAck(log: seq<Mark>): nat {
    if log == [] || log[|log| - 1].Acked? then 0 else
    DropsSinceAck(log[..|log| - 1]) + if log[|log| - 1].Dropped? then 1 else 0
  }

  /** After `close` nothing but further calls of `close`; an event or a lag only on an
      acknowledged connection; one acknowledgement a connection; sockets are new; and each
      delay is min(max, initial * 2^k) for k drops since the last acknowledgement,
      not counting the drop that armed the timer. */
  ghost predicate Fits(cfg: Config, past: seq<Mark>, x: Mark) {
    match x
    case Closed => true
    case Changed(c) => Closed !in past && Acked(c) in past && Dropped(c) !in past
    case Lagged(c) => Closed !in past && Acked(c) in past && Dropped(c) !in past
    case Connected(c) => Closed !in past && Connected(c) !in past
    case Acked(c) => Closed !in past && Connected(c) in past && Acked(c) !in past && Dropped(c) !in past
    case Dropped(c) => Closed !in past && Connected(c) in past && Dropped(c) !in past
    case Reconnecting => Closed !in past
    case Scheduled(d) => Closed !in past && DropsSinceAck(past) > 0 && d == Delay(cfg, DropsSinceAck(past) - 1)
  }

  ghost predicate LogFits(cfg: Config, log: seq<Mark>) {
    log == [] || (LogFits(cfg, log[..|log| - 1]) && Fits(cfg, log[..|log| - 1], log[|log| - 1]))
  }

  lemma {:induction false} LogFitsAt(cfg: Config, log: seq<Mark>, i: nat)
    requires LogFits(cfg, log) && i < |log|
    ensures Fits(cfg, log[..i], log[i])
  {
    if i < |log| - 1 {
      LogFitsAt(cfg, log[..|log| - 1], i);
      assert log[..|log| - 1][..i] == log[..i];
    }
  }

  lemma LogFitsGrows(cfg: Config, log: seq<Mark>, x: Mark)
    requires LogFits(cfg, log) && Fits(cfg, log, x)
    ensures LogFits(cfg, log + [x])
  {
    assert (log + [x])[..|log|] == log;
  }

  /** The sockets named in the log are the ones created, each entry under its number. */
  ghost predicate Numbered(s: State) {
    forall c: nat :: (Connected(c) in s.log || Acked(c) in s.log || Dropped(c) in s.log) ==> c < s.created
  }

  /** Between two handlers: while open, exactly one of a live socket and a pending timer;
      after `close`, neither. */
  ghost predicate OneOfSocketAndTimer(s: State) {
    if s.closedByUser then s.socket.None? && !s.timer else s.socket.Some? != s.timer
  }

  /** An open client that will never connect again: its `onReconnecting` threw. */
  ghost predicate Stranded(s: State) {
    !s.closedByUser && s.socket.None? && !s.timer
  }

  ghost predicate Inv(cfg: Config, s: State) {
    && LogFits(cfg, s.log) && Numbered(s) && (OneOfSocketAndTimer(s) || Stranded(s))
    && (s.closedByUser <==> Closed in s.log)
    && (!s.closedByUser && !Stranded(s) ==> s.attempt == DropsSinceAck(s.log))
    && (s.socket.Some? ==>
          && Connected(s.socket.value) in s.log && Dropped(s.socket.value) !in s.log
          && (s.awaitingAck <==> Acked(s.socket.value) !in s.log))
  }

  lemma CloseKeepsInv(cfg: Config, s: State)
    requires LogFits(cfg, s.log) && Numbered(s)
    ensures Inv(cfg, Close(s))
  {
    LogFitsGrows(cfg, s.log, Closed);
  }

  lemma MarkKeepsInv(cfg: Config, s: State, x: Mark)
    requires Inv(cfg, s) && s.socket.Some? && Fits(cfg, s.log, x) && (x.Changed? || x.Lagged?)
    ensures Inv(cfg, s.(log := s.log + [x]))
  {
    LogFitsGrows(cfg, s.log, x);
    assert (s.log + [x])[..|s.log|] == s.log;
  }

  lemma ConnectKeepsInv(cfg: Config, s: State)
    requires LogFits(cfg, s.log) && Numbered(s) && s.socket.None? && !s.timer
    requires (s.closedByUser <==> Closed in s.log) && (!s.closedByUser ==> s.attempt == DropsSinceAck(s.log))
    ensures Inv(cfg, Connect(s))
  {
    if !s.closedByUser {
      var x := Connected(s.created);
      LogFitsGrows(cfg, s.log, x);
      assert (s.log + [x])[..|s.log|] == s.log;
    }
  }

  lemma MessageKeepsInv(cfg: Config, s: State, frame: Frame, reaction: Reaction)
    requires Inv(cfg, s)
    ensures Inv(cfg, OnMessage(s, frame, reaction))
  {
    if s.socket.Some? && !frame.NotText? {
      var c := s.socket.value;
      if s.awaitingAck && frame.Ack? {
        LogFitsGrows(cfg, s.log, Acked(c));
        var s' := s.(awaitingAck := false, attempt := 0, log := s.log + [Acked(c)]);
        assert Inv(cfg, s');
        CloseKeepsInv(cfg, s');
      } else if !s.awaitingAck && (frame.Change? || frame.Lag?) {
        var x := if frame.Change? then Changed(c) else Lagged(c);
        MarkKeepsInv(cfg, s, x);
        CloseKeepsInv(cfg, s.(log := s.log + [x]));
      }
    }
  }

  lemma SocketCloseKeepsInv(cfg: Config, s: State, reaction: Reaction)
    requires Inv(cfg, s)
    ensures Inv(cfg, OnClose(cfg, s, reaction))
  {
    if s.socket.Some? {
      var s2 := s.(socket := None, log := s.log + [Dropped(s.socket.value)] + [Reconnecting]);
      DroppedLog(cfg, s);
      if reaction.closes {
        CloseKeepsInv(cfg, s2);
      } else if !reaction.throws {
        ScheduleKeepsInv(cfg, s2);
      }
    }
  }

  /** The log after a drop has been announced. */
  lemma DroppedLog(cfg: Config, s: State)
    requires Inv(cfg, s) && s.socket.Some?
    ensures var log := s.log + [Dropped(s.socket.value)] + [Reconnecting];
            && LogFits(cfg, log) && Numbered(s.(log := log)) && Closed !in log
            && DropsSinceAck(log) == s.attempt + 1
  {
    var log1 := s.log + [Dropped(s.socket.value)];
    LogFitsGrows(cfg, s.log, Dropped(s.socket.value));
    LogFitsGrows(cfg, log1, Reconnecting);
    assert log1[..|s.log|] == s.log && (log1 + [Reconnecting])[..|log1|] == log1;
  }

  lemma ScheduleKeepsInv(cfg: Config, s: State)
    requires LogFits(cfg, s.log) && Numbered(s) && Closed !in s.log && !s.closedByUser && s.socket.None? && !s.timer
    requires DropsSinceAck(s.log) == s.attempt + 1
    ensures Inv(cfg, ScheduleReconnect(cfg, s))
  {
    var x := Scheduled(Delay(cfg, s.attempt));
    LogFitsGrows(cfg, s.log, x);
    assert (s.log + [x])[..|s.log|] == s.log;
  }

  lemma {:induction false} EveryRunKeepsInv(cfg: Config, xs: seq<Input>)
    ensures Inv(cfg, Run(cfg, xs))
  {
    if xs == [] {
      ConnectKeepsInv(cfg, State(None, 0, false, true, false, 0, []));
    } else {
      var s, x := Run(cfg, xs[..|xs| - 1]), xs[|xs| - 1];
      EveryRunKeepsInv(cfg, xs[..|xs| - 1]);
      match x
      case Message(frame, reaction) => MessageKeepsInv(cfg, s, frame, reaction);
      case SocketCloses(reaction) => SocketCloseKeepsInv(cfg, s, reaction);
      case TimerFires => if s.timer { ConnectKeepsInv(cfg, s.(timer := false)); }
      case UserCloses => CloseKeepsInv(cfg, s);
    }
  }

  /** Over every run, with callbacks closing the client or throwing wherever they like: every
      entry of the log fits its past, and there is exactly one of a live socket and a pending
      timer while open, neither after `close`, unless the client is stranded. */
  lemma EveryRunIsOrderly(cfg: Config, xs: seq<Input>)
    ensures var s := Run(cfg, xs);
            && (OneOfSocketAndTimer(s) <==> !Stranded(s))
            && LogFits(cfg, s.log)
            && (s.closedByUser <==> Closed in s.log)
  {
    EveryRunKeepsInv(cfg, xs);
  }

  /** The socket closes by itself, and the callback that announces it throws without closing. */
  predicate Strands(s: State, x: Input) {
    x.SocketCloses? && s.socket.Some? && x.reaction.throws && !x.reaction.closes
  }

  /** That is the one way to be stranded. */
  lemma StrandedIff(cfg: Config, s: State, x: Input)
    requires Inv(cfg, s) && OneOfSocketAndTimer(s)
    ensures OneOfSocketAndTimer(Step(cfg, s, x)) <==> !Strands(s, x)
  {
  }

  /** And nothing but `close` changes a stranded client. */
  lemma {:induction false} StrandedIsFinal(cfg: Config, s: State, x: Input)
    requires Stranded(s)
    ensures Step(cfg, s, x) == if x.UserCloses? then Close(s) else s
  {
  }

  /** Over whole runs: if no such callback throws, exactly one of socket and timer throughout. */
  lemma {:induction false} NeverStranded(cfg: Config, xs: seq<Input>)
    requires forall x <- xs :: x.SocketCloses? ==> !x.reaction.throws || x.reaction.closes
    ensures OneOfSocketAndTimer(Run(cfg, xs))
  {
    if xs != [] {
      var rest, last := xs[..|xs| - 1], xs[|xs| - 1];
      NeverStranded(cfg, rest);
      EveryRunKeepsInv(cfg, rest);
      assert last in xs;
      StrandedIff(cfg, Run(cfg, rest), last);
    }
  }

  /** Read off the log: once closed, no connection, no callback and no timer ever again. */
  lemma NothingAfterClose(cfg: Config, xs: seq<Input>, i: nat, j: nat)
    requires i < j < |Run(cfg, xs).log| && Run(cfg, xs).log[i].Closed?
    ensures Run(cfg, xs).log[j].Closed?
  {
    EveryRunKeepsInv(cfg, xs);
    var log := Run(cfg, xs).log;
    assert log[..j][i] == Closed;
    LogFitsAt(cfg, log, j);
  }

  // ---- what each input is answered with ------------------------------------

  /** The marks an input adds to the log. */
  function Heard(cfg: Config, s: State, x: Input): seq<Mark> {
    match x
    case UserCloses => [Closed]
    case TimerFires => if s.timer then [Connected(s.created)] else []
    case SocketCloses(reaction) =>
      if s.socket.None? then [] else
      [Dropped(s.socket.value), Reconnecting]
        + (if reaction.closes then [Closed] else if reaction.throws then [] else [Scheduled(Delay(cfg, s.attempt))])
    case Message(frame, reaction) =>
      if s.socket.None? then [] else
      var c, closed := s.socket.value, if reaction.closes then [Closed] else [];
      match frame
      case Ack => if s.awaitingAck then [Acked(c)] + closed else []
      case Change => if s.awaitingAck then [] else [Changed(c)] + closed
      case Lag => if s.awaitingAck then [] else [Lagged(c)] + closed
      case _ => []
  }

  /** Each input is answered with exactly its marks: an event frame by `onEvent`, a lag frame by
      `onLagged`, an acknowledgement by `onConnected`, and each only when it is due. */
  lemma StepIsHeard(cfg: Config, s: State, x: Input)
    requires Inv(cfg, s)
    ensures Step(cfg, s, x).log == s.log + Heard(cfg, s, x)
  {
  }

  /** A timer that fires leads to a new socket, which waits for its acknowledgement; one that
      is acknowledged counts its drops from zero. */
  lemma ConnectionsProgress(cfg: Config, s: State, reaction: Reaction)
    requires Inv(cfg, s)
    ensures var z := Step(cfg, s, TimerFires); s.timer ==> z.socket == Some(s.created) && z.awaitingAck && !z.timer && z.attempt == s.attempt
    ensures var z := Step(cfg, s, Message(Ack, reaction));
            s.socket.Some? && s.awaitingAck ==> !z.awaitingAck && z.attempt == 0 && (!reaction.closes ==> z.socket == s.socket)
    ensures var z := Step(cfg, s, SocketCloses(reaction));
            s.socket.Some? && !reaction.closes && !reaction.throws ==> z.socket.None? && z.timer && z.attempt == s.attempt + 1
    ensures var z := Step(cfg, s, UserCloses); z.closedByUser && z.socket.None? && !z.timer
  {
  }

  /** The delay starts at the initial one and doubles, but never exceeds the maximum. */
  lemma DelayLaws(cfg: Config, k: nat)
    ensures Delay(cfg, 0) == if cfg.initialMs < cfg.maxMs then cfg.initialMs else cfg.maxMs
    ensures Delay(cfg, k + 1) == if 2 * Delay(cfg, k) < cfg.maxMs then 2 * Delay(cfg, k) else cfg.maxMs
    ensures Delay(cfg, k) <= cfg.maxMs
  {
    assert cfg.initialMs * Pow2(k + 1) == 2 * (cfg.initialMs * Pow2(k)) by { assert Pow2(k + 1) == 2 * Pow2(k); }
  }

  ghost function DropsIn(log: seq<Mark>): set<int> {
    set i | 0 <= i < |log| && log[i].Dropped?
  }

  /** The drops since an acknowledgement are those after it. */
  lemma {:induction false} DropsAreCounted(before: seq<Mark>, c: nat, after: seq<Mark>)
    requires forall i :: 0 <= i < |after| ==> !after[i].Acked?
    ensures DropsSinceAck(before + [Acked(c)] + after) == |DropsIn(after)|
    decreases |after|
  {
    var log := before + [Acked(c)] + after;
    if after == [] {
      assert log[|log| - 1] == Acked(c) && DropsIn(after) == {};
    } else {
      var rest, last := after[..|after| - 1], after[|after| - 1];
      assert log[..|log| - 1] == before + [Acked(c)] + rest && log[|log| - 1] == last;
      DropsAreCounted(before, c, rest);
      assert DropsIn(after) == DropsIn(rest) + if last.Dropped? then {|after| - 1} else {};
    }
  }
}
