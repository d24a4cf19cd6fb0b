/**
 The durable acknowledgement of an identity that several workers share: AckEvents overwrites, and a
 restarted worker resumes from GetAck (internal/store/events.go, internal/cli/events.go).
 */
module Ack {
  import opened Strings
  import opened Tables
  import opened Forum
  import opened Inbox

  // ---------------------------------------------------------------- any workers

  /** handled: the sequences that some worker has dealt with. ack: the row of event_acks, 0 without one. */
  datatype State = State(log: seq<Event>, handled: set<int>, ack: int)

  const START := State.State([], {}, 0)

  datatype Step = Commit(events: seq<Event>) | Handle(sequence: int) | Write(through: int)

  predicate Positive(events: seq<Event>) {
    forall i | 0 <= i < |events| :: events[i].sequence > 0
  }

  predicate Enabled(s: State, step: Step) {
    match step
    case Commit(events) => Ascending(s.log + events) && Positive(events)
    case Handle(_) => true
    case Write(through) => through >= 0
  }

  function Next(s: State, step: Step): State
    requires Enabled(s, step)
  {
    match step
    case Commit(events) => s.(log := s.log + events)
    case Handle(sequence) => s.(handled := s.handled + {sequence})
    case Write(through) => s.(ack := through)
  }

  predicate Runs(s: State, steps: seq<Step>)
    decreases |steps|
  {
    steps == [] || (Enabled(s, steps[0]) && Runs(Next(s, steps[0]), steps[1..]))
  }

  function Run(s: State, steps: seq<Step>): State
    requires Runs(s, steps)
    decreases |steps|
  {
    if steps == [] then s else Run(Next(s, steps[0]), steps[1..])
  }

  /** Every eligible event up to a sequence was handled. */
  predicate Handled(log: seq<Event>, r: Reader, through: int, handled: set<int>) {
    forall e | e in log && r.Takes(e) && e.sequence <= through :: e.sequence in handled
  }

  /** Each ack was written only after every eligible event up to it was handled. */
  predicate Careful(s: State, steps: seq<Step>, r: Reader, log: seq<Event>)
    requires Runs(s, steps)
    decreases |steps|
  {
    steps == [] ||
    ((steps[0].Write? ==> Handled(log, r, steps[0].through, s.handled)) &&
     Careful(Next(s, steps[0]), steps[1..], r, log))
  }

  lemma {:induction false} AckStaysHandled(s: State, steps: seq<Step>, r: Reader)
    requires Runs(s, steps) && Careful(s, steps, r, Run(s, steps).log)
    requires Ascending(s.log) && Handled(Run(s, steps).log, r, s.ack, s.handled)
    ensures var t := Run(s, steps); Ascending(t.log) && Handled(t.log, r, t.ack, t.handled)
    decreases |steps|
  {
    if steps != [] { AckStaysHandled(Next(s, steps[0]), steps[1..], r); }
  }

  lemma {:induction false} LogStaysPositive(s: State, steps: seq<Step>)
    requires Runs(s, steps) && Positive(s.log)
    ensures Positive(Run(s, steps).log)
    decreases |steps|
  {
    if steps != [] { LogStaysPositive(Next(s, steps[0]), steps[1..]); }
  }

  /** What a restarted worker gets by polling on from the stored ack. */
  function Resumed(log: seq<Event>, r: Reader, ack: int, size: nat): seq<Delivery>
    requires Ascending(log) && size > 0
  {
    Chain(log, r, ack, size).events
  }

  /** Nothing eligible is both unhandled and out of reach of a restart. */
  predicate NothingLost(log: seq<Event>, r: Reader, ack: int, handled: set<int>, size: nat)
    requires Ascending(log) && size > 0
  {
    forall e | e in log && r.Takes(e) && e.sequence !in handled ::
      Delivery(e, r.Reason(e).reason) in Resumed(log, r, ack, size)
  }

  /** A restart delivers every unhandled eligible event exactly when the ack is covered. */
  lemma LostIffUncovered(log: seq<Event>, r: Reader, ack: int, handled: set<int>, size: nat)
    requires Ascending(log) && size > 0
    ensures NothingLost(log, r, ack, handled, size) <==> Handled(log, r, ack, handled)
  {
    hide EventReason;
    ChainIsFilter(log, r, ack, size);
    AfterMembers(log, ack);
    EligibleMembers(After(log, ack), r);
    hide Chain, Eligible, After, Ascending;
    if NothingLost(log, r, ack, handled, size) {
      forall e | e in log && r.Takes(e) && e.sequence <= ack ensures e.sequence in handled {
        assert Delivery(e, r.Reason(e).reason) !in Resumed(log, r, ack, size);
      }
    }
  }

  /** Resume from ack is at least once: in every interleaving, also when an older ack overwrites a newer
      one, polling on from the stored ack delivers every unhandled eligible event. */
  lemma RestartDelivers(steps: seq<Step>, r: Reader, size: nat)
    requires Runs(START, steps) && Careful(START, steps, r, Run(START, steps).log) && size > 0
    ensures var s := Run(START, steps); Ascending(s.log) && NothingLost(s.log, r, s.ack, s.handled, size)
  {
    var s := Run(START, steps);
    LogStaysPositive(START, steps);
    AckStaysHandled(START, steps, r);
    LostIffUncovered(s.log, r, s.ack, s.handled, size);
  }

  lemma RunOn(s: State, step: Step, steps: seq<Step>)
    requires Enabled(s, step) && Runs(Next(s, step), steps)
    ensures Runs(s, [step] + steps) && Run(s, [step] + steps) == Run(Next(s, step), steps)
  {
    assert ([step] + steps)[1..] == steps;
  }

  /** Nothing holds an ack back: in any state any ack not below 0 may follow any other, and is then the one
      stored. */
  lemma AnyAckFollows(s: State, older: int, through: int)
    requires older >= 0 && through >= 0
    ensures var steps := [Write(older)] + ([Write(through)] + []);
            Runs(s, steps) && Run(s, steps) == s.(ack := through)
  {
    RunOn(s.(ack := older), Write(through), []);
    RunOn(s, Write(older), [Write(through)] + []);
  }

  /** And any log, with any of it handled, may be the one it is written against. */
  lemma AnyLogHandled(log: seq<Event>, sequence: int)
    requires Ascending(log) && Positive(log)
    ensures var steps := [Commit(log)] + ([Handle(sequence)] + []);
            Runs(START, steps) && Run(START, steps) == State.State(log, {sequence}, 0)
  {
    assert [] + log == log;
    RunOn(State.State(log, {}, 0), Handle(sequence), []);
    RunOn(START, Commit(log), [Handle(sequence)] + []);
  }

  /** What an older ack costs: exactly the events between the two are delivered again. */
  lemma RegressionReplays(log: seq<Event>, r: Reader, older: int, newer: int, size: nat)
    requires Ascending(log) && older <= newer && size > 0
    ensures Resumed(log, r, older, size) == Eligible(Between(log, older, newer), r) + Resumed(log, r, newer, size)
  {
    ChainIsFilter(log, r, older, size);
    ChainIsFilter(log, r, newer, size);
    AfterBetween(log, older, newer);
    EligibleConcat(Between(log, older, newer), After(log, newer), r);
  }

  // ---------------------------------------------------------------- checking before writing an ack

  /** Every event of every longer log that is eligible up to a sequence is handled. */
  ghost predicate HandledForGood(log: seq<Event>, r: Reader, through: int, handled: set<int>) {
    forall more | Ascending(log + more) && Positive(more) :: Handled(log + more, r, through, handled)
  }

  /** A worker can only look at the log as it is. Its check holds for every later log exactly when it
      holds now and the ack does not run ahead of the log. */
  lemma CheckLasts(log: seq<Event>, r: Reader, through: int, handled: set<int>, sample: Event)
    requires Ascending(log) && Positive(log) && r.Takes(sample)
    requires forall x | x in handled :: x < NextSequence(log)
    ensures HandledForGood(log, r, through, handled) <==>
            Handled(log, r, through, handled) && through < NextSequence(log)
  {
    if HandledForGood(log, r, through, handled) { AheadOfTheLog(log, r, through, handled, sample); }
    if Handled(log, r, through, handled) && through < NextSequence(log) { WithinTheLog(log, r, through, handled); }
  }

  lemma WithinTheLog(log: seq<Event>, r: Reader, through: int, handled: set<int>)
    requires Handled(log, r, through, handled) && through < NextSequence(log)
    ensures HandledForGood(log, r, through, handled)
  {
    hide NextSequence, Reader.Takes, Ascending, Positive;
    forall more | Ascending(log + more) && Positive(more) ensures Handled(log + more, r, through, handled) {
      MoreIsAbove(log, more);
    }
  }

  lemma AheadOfTheLog(log: seq<Event>, r: Reader, through: int, handled: set<int>, sample: Event)
    requires Ascending(log) && Positive(log) && r.Takes(sample) && HandledForGood(log, r, through, handled)
    requires forall x | x in handled :: x < NextSequence(log)
    ensures Handled(log, r, through, handled) && through < NextSequence(log)
  {
    var e := sample.(sequence := NextSequence(log));
    assert r.Takes(e);
    NextInLog(log, e);
    assert log + [] == log && Positive([]);
    hide EventReason, Reader.Takes, Ascending, Positive, NextSequence;
    assert Handled(log + [e], r, through, handled);
    assert Handled(log + [], r, through, handled);
  }

  lemma NextInLog(log: seq<Event>, e: Event)
    requires Ascending(log) && Positive(log) && e.sequence == NextSequence(log)
    ensures Ascending(log + [e]) && Positive([e]) && e in log + [e]
  {}

  lemma MoreIsAbove(log: seq<Event>, more: seq<Event>)
    requires Ascending(log + more) && Positive(more)
    ensures forall e | e in more :: e.sequence >= NextSequence(log)
  {
    forall e | e in more ensures e.sequence >= NextSequence(log) {
      var i :| 0 <= i < |more| && more[i] == e;
      assert (log + more)[|log| + i] == e;
      assert log != [] ==> (log + more)[|log| - 1] == log[|log| - 1];
    }
  }

  // ---------------------------------------------------------------- workers that follow the inbox

  /** A follow loop: the cursor it polls with, and what it was given and has yet to handle. */
  datatype Worker = Worker(cursor: int, pending: seq<Delivery>)

  /** inFlight: acks sent, each of which may reach the table at any time, in any order, more than once. */
  datatype Team = Team(log: seq<Event>, handled: set<int>, ack: int, workers: map<Id, Worker>, inFlight: set<int>)

  const NEW_TEAM := Team([], {}, 0, map[], {})

  datatype Move =
    | Append(events: seq<Event>)
    | Begin(worker: Id, sinceAck: bool)   // a worker starts, or starts again after a crash
    | Poll(worker: Id)                    // one pass over the log as it is
    | Finish(worker: Id)                  // the first pending event is handled
    | Send(worker: Id)                    // with nothing pending, ack the cursor
    | Land(through: int)

  predicate Allowed(s: Team, m: Move) {
    match m
    case Append(events) => Ascending(s.log + events) && Positive(events)
    case Begin(_, _) => true
    case Poll(w) => w in s.workers && s.workers[w].pending == []
    case Finish(w) => w in s.workers && s.workers[w].pending != []
    case Send(w) => w in s.workers && s.workers[w].pending == []
    case Land(through) => through in s.inFlight
  }

  function AfterPass(log: seq<Event>, r: Reader, cursor: int, size: nat): Worker {
    var page := Take(After(log, cursor), size);
    Worker(Advance(page, cursor), Eligible(page, r))
  }

  function Moved(s: Team, m: Move, r: Reader, size: nat): Team
    requires Allowed(s, m)
  {
    match m
    case Append(events) => s.(log := s.log + events)
    case Begin(w, sinceAck) => s.(workers := s.workers[w := Worker(if sinceAck then s.ack else 0, [])])
    case Poll(w) => s.(workers := s.workers[w := AfterPass(s.log, r, s.workers[w].cursor, size)])
    case Finish(w) =>
      var todo := s.workers[w].pending;
      s.(handled := s.handled + {todo[0].event.sequence},
        workers := s.workers[w := s.workers[w].(pending := todo[1..])])
    case Send(w) => s.(inFlight := s.inFlight + {s.workers[w].cursor})
    case Land(through) => s.(ack := through)
  }

  predicate Plays(s: Team, moves: seq<Move>, r: Reader, size: nat)
    decreases |moves|
  {
    moves == [] || (Allowed(s, moves[0]) && Plays(Moved(s, moves[0], r, size), moves[1..], r, size))
  }

  function Play(s: Team, moves: seq<Move>, r: Reader, size: nat): Team
    requires Plays(s, moves, r, size)
    decreases |moves|
  {
    if moves == [] then s else Play(Moved(s, moves[0], r, size), moves[1..], r, size)
  }

  /** A cursor that the log has reached, and below which all is handled. */
  predicate Settled(log: seq<Event>, r: Reader, cursor: int, handled: set<int>) {
    cursor < NextSequence(log) && Handled(log, r, cursor, handled)
  }

  predicate TeamInv(s: Team, r: Reader) {
    Ascending(s.log) && Positive(s.log) &&
    Settled(s.log, r, s.ack, s.handled) &&
    (forall t | t in s.inFlight :: Settled(s.log, r, t, s.handled)) &&
    (forall w | w in s.workers ::
      Settled(s.log, r, s.workers[w].cursor, s.handled + Sequences(s.workers[w].pending)))
  }

  lemma SettledLasts(log: seq<Event>, more: seq<Event>, r: Reader, cursor: int, handled: set<int>)
    requires Settled(log, r, cursor, handled) && Ascending(log + more) && Positive(more)
    ensures Settled(log + more, r, cursor, handled)
  {
    MoreIsAbove(log, more);
    if more != [] { assert more[|more| - 1] in more && (log + more)[|log + more| - 1] == more[|more| - 1]; }
    else { assert log + more == log; }
  }

  /** What a pass leaves pending or behind it. */
  lemma PageHandled(log: seq<Event>, r: Reader, cursor: int, handled: set<int>, page: seq<Event>, e: Event)
    requires Ascending(log) && Handled(log, r, cursor, handled) && page <= After(log, cursor)
    requires e in log && r.Takes(e) && e.sequence <= Advance(page, cursor)
    ensures e.sequence in handled + Sequences(Eligible(page, r))
  {
    hide Eligible, EventReason, Sequences, After, Ascending, Advance;
    if e.sequence > cursor {
      PageHolds(log, cursor, page, e);
      EligibleMembers(page, r);
      InSequences(Eligible(page, r), Delivery(e, r.Reason(e).reason));
    }
  }

  lemma PollSettled(log: seq<Event>, r: Reader, cursor: int, handled: set<int>, size: nat)
    requires Ascending(log) && Settled(log, r, cursor, handled)
    ensures var w := AfterPass(log, r, cursor, size); Settled(log, r, w.cursor, handled + Sequences(w.pending))
  {
    hide Eligible, Sequences, After, NextSequence, Ascending, Advance, Reader.Takes;
    var page := Take(After(log, cursor), size);
    LastInLog(log, cursor, page);
    forall e | e in log && r.Takes(e) && e.sequence <= Advance(page, cursor)
      ensures e.sequence in handled + Sequences(Eligible(page, r))
    {
      PageHandled(log, r, cursor, handled, page, e);
    }
  }

  lemma InSequences(ds: seq<Delivery>, d: Delivery)
    requires d in ds
    ensures d.event.sequence in Sequences(ds)
  {}

  lemma LastInLog(log: seq<Event>, cursor: int, page: seq<Event>)
    requires Ascending(log) && page <= After(log, cursor) && cursor < NextSequence(log)
    ensures Advance(page, cursor) < NextSequence(log)
  {}

  lemma FinishMoves(s: Team, r: Reader, w: Id)
    requires TeamInv(s, r) && Allowed(s, Finish(w))
    ensures var d := s.workers[w].pending[0].event.sequence;
            s.handled + Sequences(s.workers[w].pending) == s.handled + {d} + Sequences(s.workers[w].pending[1..])
  {}

  lemma MoveKeepsInv(s: Team, m: Move, r: Reader, size: nat)
    requires TeamInv(s, r) && Allowed(s, m)
    ensures TeamInv(Moved(s, m, r, size), r)
  {
    hide Ascending, AfterPass, NextSequence, EventReason;
    match m
    case Append(events) =>
      forall c, h | Settled(s.log, r, c, h) ensures Settled(s.log + events, r, c, h) {
        SettledLasts(s.log, events, r, c, h);
      }
    case Begin(w, _) =>
      StartSettled(s.log, r, s.handled);
      assert s.handled + Sequences([]) == s.handled;
    case Poll(w) =>
      assert s.handled + Sequences([]) == s.handled;
      PollSettled(s.log, r, s.workers[w].cursor, s.handled, size);
    case Finish(w) => FinishMoves(s, r, w);
    case Send(w) => assert s.handled + Sequences([]) == s.handled;
    case Land(_) =>
  }

  lemma StartSettled(log: seq<Event>, r: Reader, handled: set<int>)
    requires Positive(log)
    ensures Settled(log, r, 0, handled)
  {}

  lemma {:induction false} PlayKeepsInv(s: Team, moves: seq<Move>, r: Reader, size: nat)
    requires TeamInv(s, r) && Plays(s, moves, r, size)
    ensures TeamInv(Play(s, moves, r, size), r)
    decreases |moves|
  {
    if moves != [] {
      hide TeamInv, Allowed, Moved;
      MoveKeepsInv(s, moves[0], r, size);
      PlayKeepsInv(Moved(s, moves[0], r, size), moves[1..], r, size);
    }
  }

  /** Workers that handle what they are given before they ack the cursor lose nothing, whatever the
      interleaving of their polls, crashes, restarts and acks, and however late an ack lands. */
  lemma TeamLosesNothing(moves: seq<Move>, r: Reader, size: nat)
    requires Plays(NEW_TEAM, moves, r, size) && size > 0
    ensures var s := Play(NEW_TEAM, moves, r, size);
            Ascending(s.log) && NothingLost(s.log, r, s.ack, s.handled, size)
  {
    PlayKeepsInv(NEW_TEAM, moves, r, size);
    var s := Play(NEW_TEAM, moves, r, size);
    LostIffUncovered(s.log, r, s.ack, s.handled, size);
  }

  lemma PlayOn(s: Team, m: Move, moves: seq<Move>, r: Reader, size: nat)
    requires Allowed(s, m) && Plays(Moved(s, m, r, size), moves, r, size)
    ensures Plays(s, [m] + moves, r, size)
    ensures Play(s, [m] + moves, r, size) == Play(Moved(s, m, r, size), moves, r, size)
  {
    assert ([m] + moves)[1..] == moves;
  }

  lemma PlayNone(s: Team, r: Reader, size: nat)
    ensures Plays(s, [], r, size) && Play(s, [], r, size) == s
  {}

  lemma {:induction false} PlayThen(s: Team, a: seq<Move>, b: seq<Move>, r: Reader, size: nat)
    requires Plays(s, a, r, size) && Plays(Play(s, a, r, size), b, r, size)
    ensures Plays(s, a + b, r, size) && Play(s, a + b, r, size) == Play(Play(s, a, r, size), b, r, size)
    decreases |a|
  {
    if a == [] {
      assert a + b == b;
    } else {
      PlayThen(Moved(s, a[0], r, size), a[1..], b, r, size);
      assert (a + b)[1..] == a[1..] + b;
    }
  }

  /** An older ack does overwrite a newer one: one worker's ack lands, and another's, sent from where it
      began, lands after it. */
  lemma AckRegresses(s: Team, newer: int, older: int, r: Reader, size: nat)
    requires newer in s.inFlight && older in s.inFlight
    ensures var moves := [Land(newer)] + ([Land(older)] + []);
            Plays(s, moves, r, size) && Play(s, moves, r, size).ack == older
    ensures Plays(s, [Land(newer)] + [], r, size) && Play(s, [Land(newer)] + [], r, size).ack == newer
  {
    var t := Moved(s, Land(newer), r, size);
    var u := Moved(t, Land(older), r, size);
    PlayNone(t, r, size);
    PlayNone(u, r, size);
    PlayOn(t, Land(older), [], r, size);
    PlayOn(s, Land(newer), [Land(older)] + [], r, size);
    PlayOn(s, Land(newer), [], r, size);
  }

  // ---------------------------------------------------------------- catching up

  /** The log and the worker's cursor are as before, and nothing is pending. */
  predicate Drained(s: Team, t: Team, w: Id) {
    t.log == s.log && w in s.workers && w in t.workers && t.workers[w] == Worker(s.workers[w].cursor, [])
  }

  lemma {:induction false} HandlePending(s: Team, r: Reader, size: nat, w: Id) returns (moves: seq<Move>)
    requires w in s.workers
    ensures Plays(s, moves, r, size) && Drained(s, Play(s, moves, r, size), w)
    decreases |s.workers[w].pending|
  {
    moves := [];
    if s.workers[w].pending != [] {
      var t := Moved(s, Finish(w), r, size);
      var rest := HandlePending(t, r, size, w);
      PlayOn(s, Finish(w), rest, r, size);
      moves := [Finish(w)] + rest;
    }
  }

  /** A pass, and all of it handled. */
  lemma OnePass(s: Team, r: Reader, size: nat, w: Id) returns (moves: seq<Move>)
    requires w in s.workers && s.workers[w].pending == []
    ensures Plays(s, moves, r, size)
    ensures var t := Play(s, moves, r, size);
            t.log == s.log && w in t.workers &&
            t.workers[w] == Worker(AfterPass(s.log, r, s.workers[w].cursor, size).cursor, [])
  {
    var t := Moved(s, Poll(w), r, size);
    var rest := HandlePending(t, r, size, w);
    PlayOn(s, Poll(w), rest, r, size);
    moves := [Poll(w)] + rest;
  }

  lemma {:induction false} FollowToEnd(s: Team, r: Reader, size: nat, w: Id) returns (moves: seq<Move>)
    requires Ascending(s.log) && size > 0 && w in s.workers && s.workers[w].pending == []
    ensures Plays(s, moves, r, size)
    ensures var t := Play(s, moves, r, size);
            t.log == s.log && w in t.workers && t.workers[w].pending == [] && After(t.log, t.workers[w].cursor) == []
    decreases |After(s.log, s.workers[w].cursor)|
  {
    moves := [];
    var c := s.workers[w].cursor;
    if After(s.log, c) != [] {
      hide Eligible, Take, Plays, Play;
      AfterPage(s.log, c, Take(After(s.log, c), size));
      PassMovesOn(s.log, r, c, size);
      var pass := OnePass(s, r, size, w);
      var t := Play(s, pass, r, size);
      var rest := FollowToEnd(t, r, size, w);
      PlayThen(s, pass, rest, r, size);
      moves := pass + rest;
    }
  }

  lemma AckCursor(s: Team, r: Reader, size: nat, w: Id) returns (moves: seq<Move>)
    requires w in s.workers && s.workers[w].pending == []
    ensures Plays(s, moves, r, size)
    ensures Play(s, moves, r, size).log == s.log && Play(s, moves, r, size).ack == s.workers[w].cursor
  {
    var sent := Moved(s, Send(w), r, size);
    var c := s.workers[w].cursor;
    PlayNone(Moved(sent, Land(c), r, size), r, size);
    PlayOn(sent, Land(c), [], r, size);
    PlayOn(s, Send(w), [Land(c)] + [], r, size);
    moves := [Send(w)] + ([Land(c)] + []);
  }

  lemma AllHandled(s: Team, r: Reader)
    requires TeamInv(s, r) && After(s.log, s.ack) == []
    ensures forall e | e in s.log :: e.sequence <= s.ack && (r.Takes(e) ==> e.sequence in s.handled)
  {
    AfterMembers(s.log, s.ack);
    hide After;
  }

  /** From every state of every run a worker that starts anew, at the ack or at 0, can by its own moves
      have everything eligible handled, and the ack at the end of the log. */
  lemma TeamCatchesUp(moves: seq<Move>, r: Reader, size: nat, w: Id, sinceAck: bool) returns (more: seq<Move>)
    requires Plays(NEW_TEAM, moves, r, size) && size > 0
    ensures Plays(NEW_TEAM, moves + more, r, size)
    ensures var s, t := Play(NEW_TEAM, moves, r, size), Play(NEW_TEAM, moves + more, r, size);
            t.log == s.log &&
            forall e | e in t.log :: e.sequence <= t.ack && (r.Takes(e) ==> e.sequence in t.handled)
  {
    PlayKeepsInv(NEW_TEAM, moves, r, size);
    var s := Play(NEW_TEAM, moves, r, size);
    var anew := Moved(s, Begin(w, sinceAck), r, size);
    hide Plays, Play, Positive, Settled, After, Ascending;
    var follow := FollowToEnd(anew, r, size, w);
    var ack := AckCursor(Play(anew, follow, r, size), r, size, w);
    PlayThen(anew, follow, ack, r, size);
    PlayOn(s, Begin(w, sinceAck), follow + ack, r, size);
    more := [Begin(w, sinceAck)] + (follow + ack);
    PlayThen(NEW_TEAM, moves, more, r, size);
    PlayKeepsInv(NEW_TEAM, moves + more, r, size);
    AllHandled(Play(NEW_TEAM, moves + more, r, size), r);
  }

  /** Any log can be the one that a run has. */
  lemma AnyLogArises(log: seq<Event>, r: Reader, size: nat)
    requires Ascending(log) && Positive(log)
    ensures Plays(NEW_TEAM, [Append(log)] + [], r, size) && Play(NEW_TEAM, [Append(log)] + [], r, size).log == log
  {
    assert [] + log == log;
    PlayNone(Moved(NEW_TEAM, Append(log), r, size), r, size);
    PlayOn(NEW_TEAM, Append(log), [], r, size);
  }

  // ---------------------------------------------------------------- what a worker is given

  /** Where a worker last began, and what its passes have given it since. */
  datatype Given = Given(start: int, events: seq<Delivery>)

  /** What one move makes of it. */
  function GivenNext(s: Team, m: Move, r: Reader, size: nat, w: Id, g: Given): Given
    requires Allowed(s, m)
  {
    var t := Moved(s, m, r, size);
    if m.Begin? && m.worker == w then Given(if m.sinceAck then s.ack else 0, [])
    else if m.Poll? && m.worker == w then Given(g.start, g.events + t.workers[w].pending)
    else g
  }

  function GivenBy(s: Team, moves: seq<Move>, r: Reader, size: nat, w: Id, g: Given): Given
    requires Plays(s, moves, r, size)
    decreases |moves|
  {
    if moves == [] then g
    else GivenBy(Moved(s, moves[0], r, size), moves[1..], r, size, w, GivenNext(s, moves[0], r, size, w, g))
  }

  /** The worker was given exactly the eligible events between where it began and where it stands. */
  predicate GivenExact(s: Team, r: Reader, w: Id, g: Given) {
    Ascending(s.log) &&
    (w in s.workers ==>
      Reached(s.log, g.start, s.workers[w].cursor) &&
      g.events == Eligible(Between(s.log, g.start, s.workers[w].cursor), r))
  }

  lemma AfterPassExact(log: seq<Event>, r: Reader, start: int, cursor: int, size: nat)
    requires Ascending(log) && Reached(log, start, cursor)
    ensures var v := AfterPass(log, r, cursor, size);
            Reached(log, start, v.cursor) &&
            Eligible(Between(log, start, v.cursor), r) == Eligible(Between(log, start, cursor), r) + v.pending
  {
    var page := Take(After(log, cursor), size);
    var next := Advance(page, cursor);
    PageIsRange(log, start, cursor, size);
    BetweenJoin(log, start, cursor, next);
    EligibleConcat(Between(log, start, cursor), page, r);
  }

  /** A pass moves a worker on exactly when there is something beyond its cursor. */
  lemma PassMovesOn(log: seq<Event>, r: Reader, cursor: int, size: nat)
    requires Ascending(log) && size > 0
    ensures AfterPass(log, r, cursor, size).cursor > cursor <==> After(log, cursor) != []
    ensures AfterPass(log, r, cursor, size).cursor >= cursor
  {
    var page := Take(After(log, cursor), size);
    AfterPage(log, cursor, page);
    AfterMembers(log, cursor);
    if page != [] { assert page[|page| - 1] == After(log, cursor)[|page| - 1]; }
  }

  lemma NothingYet(log: seq<Event>, r: Reader, cursor: int)
    ensures Eligible(Between(log, cursor, cursor), r) == []
  {
    BetweenMembers(log, cursor, cursor);
    NoMembers(Between(log, cursor, cursor));
  }

  lemma GivenStaysExact(s: Team, m: Move, r: Reader, size: nat, w: Id, g: Given)
    requires Allowed(s, m) && GivenExact(s, r, w, g)
    ensures GivenExact(Moved(s, m, r, size), r, w, GivenNext(s, m, r, size, w, g))
  {
    hide Eligible, Between, Ascending, AfterPass, Positive;
    match m
    case Append(events) =>
      if w in s.workers { BetweenSettled(s.log, events, g.start, g.start, s.workers[w].cursor); }
    case Begin(v, _) => NothingYet(s.log, r, Moved(s, m, r, size).workers[v].cursor);
    case Poll(v) => if v == w { AfterPassExact(s.log, r, g.start, s.workers[w].cursor, size); }
    case _ =>
  }

  lemma {:induction false} GivenByExact(s: Team, moves: seq<Move>, r: Reader, size: nat, w: Id, g: Given)
    requires Plays(s, moves, r, size) && GivenExact(s, r, w, g)
    ensures GivenExact(Play(s, moves, r, size), r, w, GivenBy(s, moves, r, size, w, g))
    decreases |moves|
  {
    if moves != [] {
      hide GivenExact, Allowed, Moved, GivenNext;
      GivenStaysExact(s, moves[0], r, size, w, g);
      GivenByExact(Moved(s, moves[0], r, size), moves[1..], r, size, w, GivenNext(s, moves[0], r, size, w, g));
    }
  }

  /** In every run, whatever the other workers do, a worker has been given exactly the eligible events
      between the cursor it last began with and the one it stands at, in order and each once. */
  lemma WorkerIsGivenAll(moves: seq<Move>, r: Reader, size: nat, w: Id)
    requires Plays(NEW_TEAM, moves, r, size) && w in Play(NEW_TEAM, moves, r, size).workers
    ensures var s := Play(NEW_TEAM, moves, r, size);
            var g := GivenBy(NEW_TEAM, moves, r, size, w, Given(0, []));
            g.events == Eligible(Between(s.log, g.start, s.workers[w].cursor), r) && AscendingDeliveries(g.events)
  {
    GivenByExact(NEW_TEAM, moves, r, size, w, Given(0, []));
    var s := Play(NEW_TEAM, moves, r, size);
    var g := GivenBy(NEW_TEAM, moves, r, size, w, Given(0, []));
    BetweenMembers(s.log, g.start, s.workers[w].cursor);
    EligibleAscending(Between(s.log, g.start, s.workers[w].cursor), r);
  }
}
