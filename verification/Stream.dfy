/**
 handleEventStream (internal/server/events_stream.go) as a state machine: the data loop and the
 heartbeat goroutine write to one connection under a mutex, and the deferred calls shut down in order.
 */
module Stream {
  import opened Strings
  import opened Sse

  /** Where the data loop stands. The frame in hand is the padding before the loop starts. */
  datatype DataPc =
    | Lock(f: Frame)
    | Write(f: Frame, n: nat)
    | Polling
    | Check
    | CloseDone
    | StopTicker
    | AwaitHeartbeat
    | Returned

  datatype HeartbeatPc = NotStarted | Select | LockPing | WritePing(n: nat) | Exited

  datatype Mutex = Free | ByData | ByHeartbeat

  /** A write that failed part-way, and how far it got. */
  datatype Torn = Whole | Cut(f: Frame, n: nat)

  /** wire: everything written. log: the frames written whole. sent: the payloads handed to the data
      loop, of which unsent failed to be written. */
  datatype State = State(
    data: DataPc, hb: HeartbeatPc, mu: Mutex,
    wire: string, log: seq<Frame>, torn: Torn, sent: seq<string>, unsent: seq<string>,
    tick: bool, ticking: bool, done: bool, cancelled: bool, broken: bool)

  const START := State(Lock(Padding), NotStarted, Free, "", [], Whole, [], [], false, false, false, false, false)

  datatype Step =
    | Cancel                     // the request context is done
    | Break                      // the connection fails; so does every later write
    | Tick
    | PollNothing | PollEvents(payload: string) | PollError
    | CheckContext
    | DataLock | DataPut(k: nat) | DataWritten | DataFailed
    | Close | Stop | Await
    | SeeDone | SeeCancel | SeeTick
    | PingLock | PingPut(k: nat) | PingWritten | PingFailed

  /** The steps of the environment. */
  predicate Outside(step: Step) {
    step.Cancel? || step.Break? || step.Tick?
  }

  predicate Enabled(s: State, step: Step) {
    match step
    case Cancel => !s.cancelled
    case Break => !s.broken
    case Tick => s.ticking && !s.tick
    case PollNothing => s.data.Polling?
    case PollEvents(p) => s.data.Polling? && Data(p).Wellformed()
    case PollError => s.data.Polling?
    case CheckContext => s.data.Check?
    case DataLock => s.data.Lock? && s.mu.Free?
    case DataPut(k) => s.data.Write? && !s.broken && 0 < k <= |s.data.f.Bytes()| - s.data.n
    case DataWritten => s.data.Write? && s.data.n == |s.data.f.Bytes()|
    case DataFailed => s.data.Write? && s.broken && s.data.n < |s.data.f.Bytes()|
    case Close => s.data.CloseDone?
    case Stop => s.data.StopTicker?
    case Await => s.data.AwaitHeartbeat? && s.hb.Exited?
    case SeeDone => s.hb.Select? && s.done
    case SeeCancel => s.hb.Select? && s.cancelled
    case SeeTick => s.hb.Select? && s.tick
    case PingLock => s.hb.LockPing? && s.mu.Free?
    case PingPut(k) => s.hb.WritePing? && !s.broken && 0 < k <= |Ping.Bytes()| - s.hb.n
    case PingWritten => s.hb.WritePing? && s.hb.n == |Ping.Bytes()|
    case PingFailed => s.hb.WritePing? && s.broken && s.hb.n < |Ping.Bytes()|
  }

  /** After the padding, written or not, the goroutine and its ticker start. */
  function Started(s: State): State {
    s.(data := Polling, hb := Select, ticking := true)
  }

  function Failed(s: State, f: Frame, n: nat): State {
    s.(mu := Free, torn := if s.torn.Whole? then Cut(f, n) else s.torn)
  }

  function Next(s: State, step: Step): State
    requires Enabled(s, step)
  {
    match step
    case Cancel => s.(cancelled := true)
    case Break => s.(broken := true)
    case Tick => s.(tick := true)
    case PollNothing => s.(data := Check)
    case PollEvents(p) => s.(data := Lock(Data(p)), sent := s.sent + [p])
    case PollError => s.(data := CloseDone)
    case CheckContext => s.(data := if s.cancelled then CloseDone else Polling)
    case DataLock => s.(data := Write(s.data.f, 0), mu := ByData)
    case DataPut(k) =>
      s.(data := Write(s.data.f, s.data.n + k), wire := s.wire + s.data.f.Bytes()[s.data.n..s.data.n + k])
    case DataWritten =>
      var t := s.(mu := Free, log := s.log + [s.data.f]);
      if s.data.f.Padding? then Started(t) else t.(data := Check)
    case DataFailed =>
      var t := Failed(s, s.data.f, s.data.n);
      if s.data.f.Data? then t.(data := CloseDone, unsent := [s.data.f.payload]) else Started(t)
    case Close => s.(data := StopTicker, done := true)
    case Stop => s.(data := AwaitHeartbeat, ticking := false)
    case Await => s.(data := Returned)
    case SeeDone => s.(hb := Exited)
    case SeeCancel => s.(hb := Exited)
    case SeeTick => s.(hb := LockPing, tick := false)
    case PingLock => s.(hb := WritePing(0), mu := ByHeartbeat)
    case PingPut(k) => s.(hb := WritePing(s.hb.n + k), wire := s.wire + Ping.Bytes()[s.hb.n..s.hb.n + k])
    case PingWritten => s.(mu := Free, log := s.log + [Ping], hb := Select)
    case PingFailed => Failed(s, Ping, s.hb.n).(hb := Exited)
  }

  /** Every scheduled step is enabled. */
  predicate Runs(s: State, steps: seq<Step>)
    decreases |steps|
  {
    steps == [] || (Enabled(s, steps[0]) && Runs(Next(s, steps[0]), steps[1..]))
  }

  function Run(s: State, steps: seq<Step>): State
    requires Runs(s, steps)
    decreases |steps|
  {
    if steps == [] then s else Run(Next(s, steps[0]), steps[1..])
  }

  // ---------------------------------------------------------------- the invariant

  /** What the mutex holder has written of its frame. */
  function Partial(s: State): string
    requires s.data.Write? ==> s.data.n <= |s.data.f.Bytes()|
    requires s.hb.WritePing? ==> s.hb.n <= |Ping.Bytes()|
    requires s.torn.Cut? ==> s.torn.n <= |s.torn.f.Bytes()|
  {
    if s.torn.Cut? then s.torn.f.Bytes()[..s.torn.n]
    else if s.data.Write? then s.data.f.Bytes()[..s.data.n]
    else if s.hb.WritePing? then Ping.Bytes()[..s.hb.n]
    else ""
  }

  function InHand(s: State): seq<string> {
    if (s.data.Lock? || s.data.Write?) && s.data.f.Data? then [s.data.f.payload] else []
  }

  /** The data loop is in its deferred calls, or past them. */
  predicate Leaving(s: State) {
    s.data.CloseDone? || s.data.StopTicker? || s.data.AwaitHeartbeat? || s.data.Returned?
  }

  predicate Control(s: State) {
    (s.mu.ByData? <==> s.data.Write?) && (s.mu.ByHeartbeat? <==> s.hb.WritePing?) &&
    (s.hb.NotStarted? <==> (s.data.Lock? || s.data.Write?) && s.data.f.Padding?) &&
    ((s.data.Lock? || s.data.Write?) ==> s.data.f.Wellformed() && !s.data.f.Ping?) &&
    (s.data.StopTicker? || s.data.AwaitHeartbeat? || s.data.Returned? ==> s.done) &&
    (s.data.AwaitHeartbeat? || s.data.Returned? ==> !s.ticking) &&
    (s.data.Returned? ==> s.hb.Exited?)
  }

  predicate Bounds(s: State) {
    (s.data.Write? ==> s.data.n <= |s.data.f.Bytes()|) &&
    (s.hb.WritePing? ==> s.hb.n <= |Ping.Bytes()|) &&
    (s.torn.Cut? ==> s.broken && s.torn.n < |s.torn.f.Bytes()| && s.torn.f.Wellformed() &&
                     (s.data.Write? ==> s.data.n == 0) && (s.hb.WritePing? ==> s.hb.n == 0))
  }

  predicate Written(s: State)
    requires Bounds(s)
  {
    s.wire == Wire(s.log) + Partial(s) &&
    Proper(s.log) &&
    (s.hb.NotStarted? ==> s.log == [] && s.torn.Whole?) &&
    (!s.hb.NotStarted? && s.torn.Whole? ==> s.log != []) &&
    (s.torn.Cut? ==> (s.torn.f.Padding? <==> s.log == []))
  }

  predicate Accounted(s: State) {
    s.sent == Payloads(s.log) + InHand(s) + s.unsent && (s.unsent != [] ==> Leaving(s) && s.torn.Cut?) &&
    (s.torn.Cut? && s.torn.f.Data? ==> s.unsent == [s.torn.f.payload])
  }

  predicate Inv(s: State) {
    Control(s) && Bounds(s) && Written(s) && Accounted(s)
  }

  lemma AppendFrame(log: seq<Frame>, f: Frame)
    ensures Wire(log + [f]) == Wire(log) + f.Bytes()
    ensures Payloads(log + [f]) == Payloads(log) + if f.Data? then [f.payload] else []
    ensures Proper(log) && f.Wellformed() && (f.Padding? <==> log == []) ==> Proper(log + [f])
  {}

  lemma PutMore(s: string, b: string, n: nat, k: nat)
    requires n + k <= |b|
    ensures s + b[..n] + b[n..n + k] == s + b[..n + k]
  {}

  lemma ControlKept(s: State, step: Step)
    requires Control(s) && Enabled(s, step)
    ensures Control(Next(s, step))
  {
    if OfData(step) {
      DataControl(s, step);
    } else if OfDataWrite(step) {
      DataWriteControl(s, step);
    } else if OfHeartbeat(step) {
      HeartbeatControl(s, step);
    } else {
      hide Frame.Bytes, Frame.Wellformed;
    }
  }

  /** The steps of the data loop between two writes, and its deferred calls. */
  predicate OfData(step: Step) {
    step.PollNothing? || step.PollEvents? || step.PollError? || step.CheckContext? ||
    step.Close? || step.Stop? || step.Await?
  }

  /** Its steps on the connection. */
  predicate OfDataWrite(step: Step) {
    step.DataLock? || step.DataPut? || step.DataWritten? || step.DataFailed?
  }

  predicate OfHeartbeat(step: Step) {
    step.SeeDone? || step.SeeCancel? || step.SeeTick? || step.PingLock? || step.PingPut? || step.PingWritten? ||
      step.PingFailed?
  }

  lemma DataControl(s: State, step: Step)
    requires Control(s) && Enabled(s, step) && OfData(step)
    ensures Control(Next(s, step))
  {
    hide Frame.Bytes;
  }

  lemma DataWriteControl(s: State, step: Step)
    requires Control(s) && Enabled(s, step) && OfDataWrite(step)
    ensures Control(Next(s, step))
  {
    hide Frame.Bytes, Frame.Wellformed;
    match step
    case DataLock => assert s.data.f.Wellformed();
    case DataPut(_) => assert s.data.f.Wellformed();
    case DataWritten => assert Next(s, step).data.Polling? || Next(s, step).data.Check?;
    case DataFailed => assert Next(s, step).data.Polling? || Next(s, step).data.CloseDone?;
  }

  lemma HeartbeatControl(s: State, step: Step)
    requires Control(s) && Enabled(s, step) && OfHeartbeat(step)
    ensures Control(Next(s, step))
  {
    hide Frame.Bytes, Frame.Wellformed;
  }

  lemma BoundsKept(s: State, step: Step)
    requires Control(s) && Bounds(s) && Enabled(s, step)
    ensures Bounds(Next(s, step))
  {
    if OfData(step) {
      DataBounds(s, step);
    } else if OfDataWrite(step) {
      DataWriteBounds(s, step);
    } else if OfHeartbeat(step) {
      HeartbeatBounds(s, step);
    } else {
      hide Frame.Bytes, Frame.Wellformed;
    }
  }

  lemma DataBounds(s: State, step: Step)
    requires Control(s) && Bounds(s) && Enabled(s, step) && OfData(step)
    ensures Bounds(Next(s, step))
  {
    hide Frame.Bytes;
  }

  lemma DataWriteBounds(s: State, step: Step)
    requires Control(s) && Bounds(s) && Enabled(s, step) && OfDataWrite(step)
    ensures Bounds(Next(s, step))
  {
    hide Frame.Bytes, Frame.Wellformed;
  }

  lemma HeartbeatBounds(s: State, step: Step)
    requires Control(s) && Bounds(s) && Enabled(s, step) && OfHeartbeat(step)
    ensures Bounds(Next(s, step))
  {
    hide Frame.Bytes;
  }

  lemma PutsKept(s: State, step: Step)
    requires Control(s) && Bounds(s) && Written(s) && Enabled(s, step) && (step.DataPut? || step.PingPut?)
    ensures Bounds(Next(s, step)) && Written(Next(s, step))
  {
    hide Proper, Wire, Frame.Bytes, Frame.Wellformed;
    BoundsKept(s, step);
    var f, n := if step.DataPut? then s.data.f else Ping, if step.DataPut? then s.data.n else s.hb.n;
    PutMore(Wire(s.log), f.Bytes(), n, step.k);
    assert s.torn.Whole?;
  }

  /** A write that completes was not torn, and leaves nothing partial behind. */
  lemma WholeNotTorn(s: State, step: Step)
    requires Control(s) && Bounds(s) && Enabled(s, step) && (step.DataWritten? || step.PingWritten?)
    ensures var t := Next(s, step);
            var f := if step.DataWritten? then s.data.f else Ping;
            s.torn.Whole? && t.torn == s.torn && t.unsent == s.unsent && t.sent == s.sent && t.wire == s.wire &&
            t.log == s.log + [f] && Bounds(t) && Partial(t) == "" && !t.hb.NotStarted? &&
            f.Wellformed() && Partial(s) == f.Bytes() && (f.Padding? <==> s.hb.NotStarted?)
    ensures step.PingWritten? ==> InHand(Next(s, step)) == InHand(s)
    ensures step.DataWritten? ==> InHand(Next(s, step)) == []
    ensures step.DataWritten? ==> InHand(s) == if s.data.f.Data? then [s.data.f.payload] else []
  {}

  lemma WholesKept(s: State, step: Step)
    requires Control(s) && Bounds(s) && Written(s) && Enabled(s, step) && (step.DataWritten? || step.PingWritten?)
    ensures Bounds(Next(s, step)) && Written(Next(s, step))
  {
    WholeNotTorn(s, step);
    hide Proper, Wire, Frame.Bytes, Frame.Wellformed, Control, Enabled, Next, Partial;
    AppendFrame(s.log, if step.DataWritten? then s.data.f else Ping);
    assert forall x: string :: x + "" == x;
  }

  lemma FailuresKept(s: State, step: Step)
    requires Control(s) && Bounds(s) && Written(s) && Enabled(s, step) && (step.DataFailed? || step.PingFailed?)
    ensures Bounds(Next(s, step)) && Written(Next(s, step))
  {}

  lemma WrittenKept(s: State, step: Step)
    requires Control(s) && Bounds(s) && Written(s) && Enabled(s, step)
    ensures Bounds(Next(s, step)) && Written(Next(s, step))
  {
    match step
    case DataPut(_) => PutsKept(s, step);
    case PingPut(_) => PutsKept(s, step);
    case DataWritten => WholesKept(s, step);
    case PingWritten => WholesKept(s, step);
    case DataFailed => FailuresKept(s, step);
    case PingFailed => FailuresKept(s, step);
    case _ =>
      hide Proper, Wire, Frame.Bytes;
      BoundsKept(s, step);
      assert Partial(Next(s, step)) == Partial(s);
  }

  lemma WholesAccounted(s: State, step: Step)
    requires Control(s) && Bounds(s) && Accounted(s) && Enabled(s, step) && (step.DataWritten? || step.PingWritten?)
    ensures Accounted(Next(s, step))
  {
    WholeNotTorn(s, step);
    assert s.unsent == [];
    hide Payloads, Frame.Bytes, Frame.Wellformed, Control, Bounds, Enabled, Next, InHand;
    AppendFrame(s.log, if step.DataWritten? then s.data.f else Ping);
    assert forall x: seq<string> :: x + [] == x;
  }

  lemma FailuresAccounted(s: State, step: Step)
    requires Control(s) && Bounds(s) && Accounted(s) && Enabled(s, step) && (step.DataFailed? || step.PingFailed?)
    ensures Accounted(Next(s, step))
  {}

  lemma AccountedKept(s: State, step: Step)
    requires Control(s) && Bounds(s) && Accounted(s) && Enabled(s, step)
    ensures Accounted(Next(s, step))
  {
    match step
    case DataWritten => WholesAccounted(s, step);
    case PingWritten => WholesAccounted(s, step);
    case DataFailed => FailuresAccounted(s, step);
    case PingFailed => FailuresAccounted(s, step);
    case _ =>
      hide Payloads, Frame.Bytes, Frame.Wellformed;
  }

  /** Every state reached under any interleaving. */
  lemma {:induction false} RunKeepsInv(s: State, steps: seq<Step>)
    requires Inv(s) && Runs(s, steps)
    ensures Inv(Run(s, steps))
    decreases |steps|
  {
    if steps != [] {
      hide Control, Bounds, Accounted;
      ControlKept(s, steps[0]);
      WrittenKept(s, steps[0]);
      AccountedKept(s, steps[0]);
      RunKeepsInv(Next(s, steps[0]), steps[1..]);
    }
  }

  lemma StartsInv()
    ensures Inv(START)
  {}

  // ---------------------------------------------------------------- wire safety

  /** The frame that the bytes beyond the whole frames belong to. */
  function Current(s: State): seq<Frame> {
    if s.torn.Cut? then [s.torn.f]
    else if s.data.Write? then [s.data.f]
    else if s.hb.WritePing? then [Ping]
    else []
  }

  /** The wire is always the start of a sequence of whole frames: writes never interleave. */
  lemma WireIsFrames(s: State)
    requires Inv(s)
    ensures Proper(s.log + Current(s))
    ensures s.wire <= Wire(s.log + Current(s))
    ensures Payloads(s.log + Current(s)) <= s.sent
    ensures Payloads(s.log) <= Payloads(s.log + Current(s))
    ensures Wire(s.log) <= s.wire
  {
    hide Proper, Wire, Payloads;
    if Current(s) != [] {
      var f := Current(s)[0];
      AppendFrame(s.log, f);
      assert Partial(s) <= f.Bytes();
    } else {
      assert s.log + [] == s.log;
    }
  }

  /** In any state of any run, whatever the client has received parses to a prefix of the payloads sent;
      and while no write is under way and none has failed, the whole wire parses to exactly them. */
  lemma WireSafety(steps: seq<Step>, received: nat)
    requires Runs(START, steps) && received <= |Run(START, steps).wire|
    ensures var s := Run(START, steps);
            Parse(s.wire[..received]).frames <= s.sent &&
            (s.torn.Whole? && s.mu.Free? && !s.data.Lock? ==>
              Parse(s.wire).frames == s.sent && s.wire == Wire(s.log))
  {
    StartsInv();
    RunKeepsInv(START, steps);
    SafeState(Run(START, steps), received);
  }

  lemma SafeState(s: State, received: nat)
    requires Inv(s) && received <= |s.wire|
    ensures Parse(s.wire[..received]).frames <= s.sent
    ensures s.torn.Whole? && s.mu.Free? && !s.data.Lock? ==> Parse(s.wire).frames == s.sent && s.wire == Wire(s.log)
  {
    hide Parse, Proper, Wire, Payloads;
    WireIsFrames(s);
    var all := Wire(s.log + Current(s));
    assert s.wire[..received] == all[..received];
    CutParses(s.log + Current(s), received);
    if s.torn.Whole? && s.mu.Free? && !s.data.Lock? {
      assert s.wire == Wire(s.log) + "" == Wire(s.log);
      WireParses(s.log);
      assert Payloads(s.log) + [] + [] == Payloads(s.log);
    }
  }

  /** Once the handler has returned, nothing is written any more. */
  lemma NoWriteAfterReturn(s: State, step: Step)
    requires Inv(s) && s.data.Returned? && Enabled(s, step)
    ensures Next(s, step).wire == s.wire && Next(s, step).data.Returned? && Next(s, step).hb.Exited?
  {}

  // ---------------------------------------------------------------- shutdown

  /** How much is left to do: the heartbeat's position, one buffered tick, and what the environment can
      still change. */
  function Rank(s: State): nat
    requires s.hb.WritePing? ==> s.hb.n <= |Ping.Bytes()|
  {
    (match s.hb
     case NotStarted => 0
     case Exited => 0
     case Select => 1
     case WritePing(n) => 2 + (|Ping.Bytes()| - n)
     case LockPing => 3 + |Ping.Bytes()|) +
    (if s.tick then 4 + |Ping.Bytes()| else 0) +
    (if s.cancelled then 0 else 1) + (if s.broken then 0 else 1) +
    (if s.data.AwaitHeartbeat? then 1 else 0)
  }

  /** Once the ticker is stopped every step of anyone brings the end nearer. */
  lemma RankFalls(s: State, step: Step)
    requires Inv(s) && s.data.AwaitHeartbeat? && Enabled(s, step)
    ensures Bounds(Next(s, step)) && Rank(Next(s, step)) < Rank(s)
    ensures Next(s, step).data.AwaitHeartbeat? || Next(s, step).data.Returned?
  {}

  /** No schedule from there is longer than the rank. */
  lemma {:induction false} ShutdownBounded(s: State, steps: seq<Step>)
    requires Inv(s) && s.data.AwaitHeartbeat? && Runs(s, steps)
    requires forall i | 0 <= i < |steps| :: Runs(s, steps[..i]) && Run(s, steps[..i]).data.AwaitHeartbeat?
    ensures |steps| <= Rank(s)
    decreases |steps|
  {
    if |steps| > 1 {
      hide Inv;
      var t := Next(s, steps[0]);
      RankFalls(s, steps[0]);
      InvKept(s, steps[0]);
      assert steps[..1] == [steps[0]];
      assert Run(s, steps[..1]) == t by {
        assert steps[..1][1..] == [];
      }
      forall i | 0 <= i < |steps[1..]|
        ensures Runs(t, steps[1..][..i]) && Run(t, steps[1..][..i]).data.AwaitHeartbeat?
      {
        assert steps[..i + 1][1..] == steps[1..][..i];
        assert Runs(s, steps[..i + 1]);
      }
      ShutdownBounded(t, steps[1..]);
    } else if |steps| == 1 {
      RankFalls(s, steps[0]);
    }
  }

  lemma InvKept(s: State, step: Step)
    requires Inv(s) && Enabled(s, step)
    ensures Inv(Next(s, step))
  {
    ControlKept(s, step);
    WrittenKept(s, step);
    AccountedKept(s, step);
  }

  /** The handler's own next step on the way out. */
  function WayOut(s: State): Step {
    match s.data
    case CloseDone => Close
    case StopTicker => Stop
    case _ =>
      match s.hb
      case Exited => Await
      case LockPing => PingLock
      case WritePing(n) =>
        if n >= |Ping.Bytes()| then PingWritten
        else if s.broken then PingFailed
        else PingPut(|Ping.Bytes()| - n)
      case _ => SeeDone
  }

  /** Shutdown is never stuck: the handler's own next step is enabled in every state on the way out. */
  lemma NeverStuck(s: State)
    requires Inv(s) && Leaving(s) && !s.data.Returned?
    ensures Enabled(s, WayOut(s)) && !Outside(WayOut(s)) && Leaving(Next(s, WayOut(s)))
  {}

  /** From every state in which the data loop has begun to leave, the handler returns by its own steps. */
  lemma {:induction false} ShutdownFinishes(s: State) returns (steps: seq<Step>)
    requires Inv(s) && Leaving(s)
    ensures Runs(s, steps) && Run(s, steps).data.Returned?
    ensures forall i | 0 <= i < |steps| :: !Outside(steps[i])
    decreases if s.data.CloseDone? then 2 else if s.data.StopTicker? then 1 else 0, Rank(s)
  {
    if s.data.Returned? {
      steps := [];
    } else {
      hide Inv, WayOut;
      var step := WayOut(s);
      NeverStuck(s);
      InvKept(s, step);
      LeavesSooner(s);
      var rest := ShutdownFinishes(Next(s, step));
      steps := [step] + rest;
      assert steps[1..] == rest;
    }
  }

  lemma LeavesSooner(s: State)
    requires Inv(s) && Leaving(s) && !s.data.Returned? && Enabled(s, WayOut(s))
    ensures Bounds(s) && Bounds(Next(s, WayOut(s)))
    ensures var t := Next(s, WayOut(s));
            (s.data.CloseDone? ==> t.data.StopTicker?) && (s.data.StopTicker? ==> t.data.AwaitHeartbeat?) &&
            (s.data.AwaitHeartbeat? ==> !t.data.CloseDone? && !t.data.StopTicker? && Rank(t) < Rank(s))
  {}

  // ---------------------------------------------------------------- a client that disconnects

  /** The handler's own next step once the request context is done: free the mutex, write or give up the
      frame in hand, fail the poll, see the context. */
  function Home(s: State): Step {
    match s.data
    case Lock(_) =>
      (match s.hb
       case WritePing(n) =>
         if n >= |Ping.Bytes()| then PingWritten
         else if s.broken then PingFailed
         else PingPut(|Ping.Bytes()| - n)
       case _ => DataLock)
    case Write(f, n) =>
      if n >= |f.Bytes()| then DataWritten else if s.broken then DataFailed else DataPut(|f.Bytes()| - n)
    case Polling => PollError
    case Check => CheckContext
    case _ => WayOut(s)
  }

  /** How far the data loop is from leaving. */
  function Stage(s: State): nat {
    match s.data
    case Lock(_) => 4
    case Write(_, _) => 3
    case Polling => 2
    case Check => 1
    case _ => 0
  }

  /** What is still to be written by whoever holds the mutex. */
  function Unwritten(s: State): nat
    requires Bounds(s)
  {
    if s.data.Write? then |s.data.f.Bytes()| - s.data.n
    else if s.hb.WritePing? then 1 + |Ping.Bytes()| - s.hb.n
    else 0
  }

  lemma HomeIsNearer(s: State)
    requires Inv(s) && s.cancelled && !Leaving(s)
    ensures Enabled(s, Home(s)) && !Outside(Home(s)) && Next(s, Home(s)).cancelled && Bounds(Next(s, Home(s)))
    ensures var t := Next(s, Home(s)); Stage(t) < Stage(s) || (Stage(t) == Stage(s) && Unwritten(t) < Unwritten(s))
  {
    hide Written, Accounted;
    NoEmptyFrames(s);
    if s.data.Lock? { LockIsNearer(s); } else if s.data.Write? { WriteIsNearer(s); }
  }

  lemma NoEmptyFrames(s: State)
    ensures forall f: Frame :: |f.Bytes()| > 0
  {}

  lemma LockIsNearer(s: State)
    requires Control(s) && Bounds(s) && s.data.Lock?
    ensures Enabled(s, Home(s)) && !Outside(Home(s)) && Next(s, Home(s)).cancelled == s.cancelled &&
      Bounds(Next(s, Home(s)))
    ensures var t := Next(s, Home(s)); Stage(t) < Stage(s) || (Stage(t) == Stage(s) && Unwritten(t) < Unwritten(s))
  {
    hide Frame.Wellformed;
    if Enabled(s, Home(s)) { BoundsKept(s, Home(s)); }
  }

  lemma WriteIsNearer(s: State)
    requires Control(s) && Bounds(s) && s.data.Write?
    ensures Enabled(s, Home(s)) && !Outside(Home(s)) && Next(s, Home(s)).cancelled == s.cancelled &&
      Bounds(Next(s, Home(s)))
    ensures var t := Next(s, Home(s)); Stage(t) < Stage(s) || (Stage(t) == Stage(s) && Unwritten(t) < Unwritten(s))
  {
    hide Frame.Bytes, Frame.Wellformed;
    if Enabled(s, Home(s)) { BoundsKept(s, Home(s)); }
  }

  /** A client that disconnects makes both goroutines return: from every state with the request context
      done the handler's own steps reach the return. */
  lemma {:induction false} CancelReturns(s: State) returns (steps: seq<Step>)
    requires Inv(s) && s.cancelled
    ensures Runs(s, steps) && Run(s, steps).data.Returned? && Run(s, steps).hb.Exited?
    ensures forall i | 0 <= i < |steps| :: !Outside(steps[i])
    decreases Stage(s), Unwritten(s)
  {
    if Leaving(s) {
      steps := ShutdownFinishes(s);
      RunKeepsInv(s, steps);
    } else {
      var step := Home(s);
      HomeIsNearer(s);
      InvKept(s, step);
      hide Inv, Home, Next, Enabled, Leaving, Stage, Unwritten;
      var rest := CancelReturns(Next(s, step));
      steps := [step] + rest;
      assert steps[1..] == rest;
    }
  }

  /** In particular from every reachable one. */
  lemma CancelReturnsFromAnyRun(before: seq<Step>) returns (steps: seq<Step>)
    requires Runs(START, before) && Run(START, before).cancelled
    ensures var s := Run(START, before);
            Runs(s, steps) && Run(s, steps).data.Returned? && Run(s, steps).hb.Exited? &&
            forall i | 0 <= i < |steps| :: !Outside(steps[i])
  {
    StartsInv();
    RunKeepsInv(START, before);
    steps := CancelReturns(Run(START, before));
  }

  // ---------------------------------------------------------------- heartbeats

  lemma RunNone(s: State)
    ensures Runs(s, []) && Run(s, []) == s
  {}

  lemma RunOn(s: State, step: Step, rest: seq<Step>)
    requires Enabled(s, step) && Runs(Next(s, step), rest)
    ensures Runs(s, [step] + rest) && Run(s, [step] + rest) == Run(Next(s, step), rest)
  {
    assert ([step] + rest)[1..] == rest;
  }

  /** And a client may disconnect in any state that is reached. */
  lemma DisconnectReturns(before: seq<Step>) returns (steps: seq<Step>)
    requires Runs(START, before) && !Run(START, before).cancelled
    ensures var s := Run(START, before);
            Runs(s, [Cancel] + steps) && Run(s, [Cancel] + steps).data.Returned? &&
            Run(s, [Cancel] + steps).hb.Exited? && forall i | 0 <= i < |steps| :: !Outside(steps[i])
  {
    StartsInv();
    RunKeepsInv(START, before);
    var s := Run(START, before);
    InvKept(s, Cancel);
    steps := CancelReturns(Next(s, Cancel));
    RunOn(s, Cancel, steps);
  }

  /** A frame may be cut after any prefix: some of it is written, the connection breaks, and what is on the
      wire stays. */
  lemma CutAnywhere(s: State, n: nat)
    requires s.data.Write? && s.data.n < n < |s.data.f.Bytes()| && !s.broken && s.torn.Whole?
    ensures var steps := [DataPut(n - s.data.n)] + ([Break] + ([DataFailed] + []));
            Runs(s, steps) && Run(s, steps).torn == Cut(s.data.f, n) &&
            Run(s, steps).wire == s.wire + s.data.f.Bytes()[s.data.n..n]
  {
    hide Frame.Bytes, Frame.Wellformed;
    var t := Next(s, DataPut(n - s.data.n));
    var u := Next(t, Break);
    RunNone(Next(u, DataFailed));
    RunOn(u, DataFailed, []);
    RunOn(t, Break, [DataFailed] + []);
    RunOn(s, DataPut(n - s.data.n), [Break] + ([DataFailed] + []));
  }

  lemma PingLocks(s: State)
    requires s.hb.Select? && s.tick && s.mu.Free?
    ensures var a := s.(hb := LockPing, tick := false);
            Enabled(s, SeeTick) && Next(s, SeeTick) == a &&
            Enabled(a, PingLock) && Next(a, PingLock) == a.(hb := WritePing(0), mu := ByHeartbeat)
  {}

  lemma PingGoesOut(s: State)
    requires s.hb == WritePing(0) && !s.broken
    ensures var n := |Ping.Bytes()|;
            var c := s.(hb := WritePing(n), wire := s.wire + Ping.Bytes());
            Ping.Bytes() == ": ping\n\n" && Enabled(s, PingPut(n)) && Next(s, PingPut(n)) == c &&
            Enabled(c, PingWritten) &&
            Next(c, PingWritten) == c.(hb := Select, mu := Free, log := s.log + [Ping])
  {
    assert Ping.Bytes()[0..|Ping.Bytes()|] == Ping.Bytes();
  }

  /** The heartbeat's own steps from a tick to the ping written. */
  function PingSteps(): seq<Step> {
    [SeeTick] + ([PingLock] + ([PingPut(|Ping.Bytes()|)] + ([PingWritten] + [])))
  }

  /** A tick that the heartbeat sees leads to a ping on the wire, whatever the data loop is doing, as soon as
      the mutex is free; no step of the data loop is needed. */
  lemma TickGivesPing(s: State)
    requires s.hb.Select? && s.tick && s.mu.Free? && !s.broken
    ensures Runs(s, PingSteps())
    ensures Run(s, PingSteps()) == s.(tick := false, wire := s.wire + ": ping\n\n", log := s.log + [Ping])
  {
    var text := ": ping\n\n";
    var a := s.(hb := LockPing, tick := false);
    var b := a.(hb := WritePing(0), mu := ByHeartbeat);
    var c := b.(hb := WritePing(|text|), wire := s.wire + text);
    var d := c.(hb := Select, mu := Free, log := s.log + [Ping]);
    PingLocks(s);
    PingGoesOut(b);
    hide Frame.Bytes, Frame.Wellformed, Runs, Run, Enabled, Next;
    RunNone(d);
    RunOn(c, PingWritten, []);
    RunOn(b, PingPut(|text|), [PingWritten] + []);
    RunOn(a, PingLock, [PingPut(|text|)] + ([PingWritten] + []));
    RunOn(s, SeeTick, [PingLock] + ([PingPut(|text|)] + ([PingWritten] + [])));
  }

  /** So while the ticker runs and the heartbeat waits, a ping can follow what is on the wire. */
  lemma TickerGivesPing(s: State)
    requires s.hb.Select? && s.ticking && !s.tick && s.mu.Free? && !s.broken
    ensures Runs(s, [Tick] + PingSteps())
    ensures Run(s, [Tick] + PingSteps()) == s.(wire := s.wire + ": ping\n\n", log := s.log + [Ping])
  {
    var t := s.(tick := true);
    TickGivesPing(t);
    RunOn(s, Tick, PingSteps());
  }

  /** A heartbeat that waits ends by itself when the client disconnects, or once the data loop has closed
      done; it ends after a write that failed, and in no other case. */
  lemma HeartbeatEnds(s: State, step: Step)
    requires Inv(s) && Enabled(s, step) && !s.hb.Exited?
    ensures s.hb.Select? && s.cancelled ==> Enabled(s, SeeCancel) && Next(s, SeeCancel).hb.Exited?
    ensures s.hb.Select? && s.done ==> Enabled(s, SeeDone) && Next(s, SeeDone).hb.Exited?
    ensures step.PingFailed? ==> Next(s, step).hb.Exited?
    ensures Next(s, step).hb.Exited? ==> s.cancelled || s.done || (s.broken && Next(s, step).torn.Cut?)
  {}

  // ---------------------------------------------------------------- why a stream ends

  predicate Fails(steps: seq<Step>) {
    exists i | 0 <= i < |steps| :: steps[i].PollError?
  }

  predicate Disconnects(steps: seq<Step>) {
    exists i | 0 <= i < |steps| :: steps[i].Cancel?
  }

  predicate Breaks(steps: seq<Step>) {
    exists i | 0 <= i < |steps| :: steps[i].Break?
  }

  /** What the steps of a run account for. */
  predicate Explained(s: State, t: State, steps: seq<Step>) {
    (t.cancelled ==> s.cancelled || Disconnects(steps)) && (t.broken ==> s.broken || Breaks(steps)) &&
    (Leaving(t) ==> Leaving(s) || Fails(steps) || t.cancelled || t.unsent != []) &&
    (s.cancelled ==> t.cancelled) && (s.unsent != [] && Leaving(s) ==> t.unsent != []) && (Leaving(s) ==> Leaving(t))
  }

  lemma StepExplained(s: State, step: Step)
    requires Control(s) && Enabled(s, step)
    ensures Explained(s, Next(s, step), [step])
  {
    hide Frame.Bytes, Frame.Wellformed;
    assert [step][0] == step;
  }

  lemma ExplainedJoin(s: State, u: State, t: State, a: seq<Step>, b: seq<Step>)
    requires Explained(s, u, a) && Explained(u, t, b)
    ensures Explained(s, t, a + b)
  {
    hide Leaving;
    assert forall i | 0 <= i < |a| :: (a + b)[i] == a[i];
    assert forall i | 0 <= i < |b| :: (a + b)[|a| + i] == b[i];
  }

  lemma {:induction false} RunExplained(s: State, steps: seq<Step>)
    requires Inv(s) && Runs(s, steps)
    ensures Explained(s, Run(s, steps), steps)
    decreases |steps|
  {
    if steps != [] {
      hide Explained, Enabled, Next;
      StepExplained(s, steps[0]);
      InvKept(s, steps[0]);
      RunExplained(Next(s, steps[0]), steps[1..]);
      ExplainedJoin(s, Next(s, steps[0]), Run(s, steps), [steps[0]], steps[1..]);
      assert [steps[0]] + steps[1..] == steps;
    }
  }

  /** A stream is left only for a cause: the client disconnected, a poll or a response failed, or a data
      frame could not be written because the connection broke. */
  lemma LeavesForCause(steps: seq<Step>)
    requires Runs(START, steps) && Leaving(Run(START, steps))
    ensures Fails(steps) || Disconnects(steps) || (Breaks(steps) && Run(START, steps).unsent != [])
  {
    StartsInv();
    RunExplained(START, steps);
    RunKeepsInv(START, steps);
  }
}
