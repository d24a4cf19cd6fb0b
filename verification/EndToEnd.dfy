/**
 The whole delivery path as one machine: writers commit to the log, the stream handler polls it and
 writes frames, the network cuts the bytes anywhere, and the browser ingests and reconnects.
 Membership and scope are fixed: they are the reader's.
 */
module EndToEnd {
  import opened Strings
  import opened Tables
  import opened Forum
  import opened Inbox
  import opened Sse
  import opened Client
  import Stream

  /** What stays fixed: the reader, the payload codec and the page size of a poll. */
  datatype Setting = Setting(reader: Reader, codec: Codec, size: nat)
  {
    ghost predicate Valid() {
      codec.Valid() && size > 0
    }
  }

  /** server: the data loop's cursor. responses: what was built on this connection, which asked for the
      events above from. start: the cursor the list shown began with. got: characters received. */
  datatype State = State(
    log: seq<Event>,
    conn: Stream.State, server: int, responses: seq<Polled>, from: int,
    view: View, rest: string, got: nat, start: int)

  datatype Step =
    | Commit(events: seq<Event>)      // one transaction's rows
    | Pass(leaves: bool)             // one pass of PollEvents; an empty one may leave the call or go round again
    | Serve(inner: Stream.Step)       // any other step of the handler, its heartbeat or its surroundings
    | Deliver(n: nat)                 // the next n characters arrive as one chunk
    | Render(upTo: nat)
    | Reconnect                       // the connection is lost; a new one is opened
    | Reload                          // the page is mounted anew

  function Initial(cursor: int): State {
    State.State([], Stream.START, cursor, [], cursor, View([], 0, cursor), "", 0, cursor)
  }

  function Page(cfg: Setting, s: State): seq<Event> {
    Take(After(s.log, s.server), cfg.size)
  }

  predicate Enabled(cfg: Setting, s: State, step: Step) {
    match step
    case Commit(events) => Ascending(s.log + events)
    case Pass(_) => s.conn.data.Polling?
    case Serve(inner) => Stream.Enabled(s.conn, inner) && !inner.PollEvents? && !inner.PollNothing?
    case Deliver(n) => s.got + n <= |s.conn.wire|
    case Render(upTo) => upTo <= |s.view.events|
    case Reconnect => true
    case Reload => true
  }

  /** The server answers a request for what follows the cursor, on a connection of its own. */
  function Connected(s: State): State {
    s.(conn := Stream.START, server := s.view.cursor, responses := [], from := s.view.cursor, rest := "", got := 0)
  }

  function Next(cfg: Setting, s: State, step: Step): State
    requires Enabled(cfg, s, step) && s.view.Valid()
  {
    match step
    case Commit(events) => s.(log := s.log + events)
    case Pass(leaves) =>
      var page := Page(cfg, s);
      var next := Advance(page, s.server);
      var eligible := Eligible(page, cfg.reader);
      if eligible != [] then
        var body := Polled(eligible, next);
        s.(server := next, responses := s.responses + [body],
           conn := s.conn.(data := Stream.Lock(Data(cfg.codec.encode(body))),
                           sent := s.conn.sent + [cfg.codec.encode(body)]))
      else
        s.(server := next, conn := if leaves then s.conn.(data := Stream.Check) else s.conn)
    case Serve(inner) => s.(conn := Stream.Next(s.conn, inner))
    case Deliver(n) =>
      var p := Parse(s.rest + s.conn.wire[s.got..s.got + n]);
      s.(view := IngestedAll(s.view, Decoded(cfg.codec, p.frames)), rest := p.rest, got := s.got + n)
    case Render(upTo) => s.(view := s.view.(rendered := upTo))
    case Reconnect => Connected(s)
    case Reload => Connected(s.(view := View([], 0, s.view.cursor), start := s.view.cursor))
  }

  predicate Runs(cfg: Setting, s: State, steps: seq<Step>)
    decreases |steps|
  {
    steps == [] ||
    (s.view.Valid() && Enabled(cfg, s, steps[0]) && Runs(cfg, Next(cfg, s, steps[0]), steps[1..]))
  }

  function Run(cfg: Setting, s: State, steps: seq<Step>): State
    requires Runs(cfg, s, steps)
    decreases |steps|
  {
    if steps == [] then s else Run(cfg, Next(cfg, s, steps[0]), steps[1..])
  }

  // ---------------------------------------------------------------- the invariant

  /** The cursor after the first i responses of a connection. */
  function CursorAt(from: int, responses: seq<Polled>, i: nat): int
    requires i <= |responses|
  {
    if i == 0 then from else responses[i - 1].next
  }

  /** Each response is the eligible part of the range it covers. */
  predicate Chained(r: Reader, log: seq<Event>, start: int, from: int, responses: seq<Polled>) {
    forall i | 0 <= i < |responses| ::
      CursorAt(from, responses, i) <= responses[i].next && Reached(log, start, responses[i].next) &&
      responses[i].events == Eligible(Between(log, CursorAt(from, responses, i), responses[i].next), r)
  }

  /** The server's side: what it skipped beyond its last response was not eligible. */
  predicate Served(cfg: Setting, s: State) {
    Ascending(s.log) &&
    Reached(s.log, s.start, s.from) && Reached(s.log, s.start, s.server) &&
    Chained(cfg.reader, s.log, s.start, s.from, s.responses) &&
    CursorAt(s.from, s.responses, |s.responses|) <= s.server &&
    Eligible(Between(s.log, CursorAt(s.from, s.responses, |s.responses|), s.server), cfg.reader) == []
  }

  /** The wire carries the responses. */
  predicate Carried(cfg: Setting, s: State) {
    Stream.Inv(s.conn) && |s.conn.sent| == |s.responses| &&
    (forall i | 0 <= i < |s.responses| :: s.conn.sent[i] == cfg.codec.encode(s.responses[i])) &&
    s.got <= |s.conn.wire|
  }

  function Received(s: State): Parsed
    requires s.got <= |s.conn.wire|
  {
    Parse(s.conn.wire[..s.got])
  }

  /** The client has ingested the frames that it received, and stands at the cursor of the last of them. */
  predicate Followed(s: State)
    requires s.got <= |s.conn.wire|
  {
    var k := |Received(s).frames|;
    s.rest == Received(s).rest && k <= |s.responses| && s.view.cursor == CursorAt(s.from, s.responses, k)
  }

  /** The list shown: the eligible events above the start and up to the cursor. */
  predicate Exact(r: Reader, log: seq<Event>, start: int, v: View) {
    v.Valid() && start <= v.cursor && v.events == Eligible(Between(log, start, v.cursor), r)
  }

  predicate Inv(cfg: Setting, s: State) {
    Served(cfg, s) && Carried(cfg, s) && Followed(s) && Exact(cfg.reader, s.log, s.start, s.view)
  }

  // ---------------------------------------------------------------- commits

  lemma CommitKeepsInv(cfg: Setting, s: State, events: seq<Event>)
    requires Inv(cfg, s) && Ascending(s.log + events)
    ensures Inv(cfg, Next(cfg, s, Commit(events)))
  {
    hide Between, Eligible, Parse, Stream.Inv, Reached;
    var log := s.log + events;
    forall i | 0 <= i < |s.responses|
      ensures Reached(log, s.start, s.responses[i].next)
      ensures Between(log, CursorAt(s.from, s.responses, i), s.responses[i].next) ==
              Between(s.log, CursorAt(s.from, s.responses, i), s.responses[i].next)
    {
      CursorsAbove(cfg, s, i);
      BetweenSettled(s.log, events, s.start, CursorAt(s.from, s.responses, i), s.responses[i].next);
    }
    CursorsAbove(cfg, s, |s.responses|);
    BetweenSettled(s.log, events, s.start, CursorAt(s.from, s.responses, |s.responses|), s.server);
    BetweenSettled(s.log, events, s.start, s.start, s.from);
    CursorsAbove(cfg, s, |Received(s).frames|);
    BetweenSettled(s.log, events, s.start, s.start, s.view.cursor);
  }

  lemma CursorsAbove(cfg: Setting, s: State, i: nat)
    requires Served(cfg, s) && i <= |s.responses|
    ensures s.start <= CursorAt(s.from, s.responses, i)
    ensures Reached(s.log, s.start, CursorAt(s.from, s.responses, i))
  {}

  // ---------------------------------------------------------------- poll passes

  lemma PassServed(cfg: Setting, s: State, leaves: bool)
    requires cfg.Valid() && Served(cfg, s) && s.view.Valid() && Enabled(cfg, s, Pass(leaves))
    ensures Served(cfg, Next(cfg, s, Pass(leaves)))
  {
    hide Between, Eligible, Ascending, Reached, Take, After, Advance, Setting.Valid;
    var page := Page(cfg, s);
    var next := Advance(page, s.server);
    PageIsRange(s.log, s.start, s.server, cfg.size);
    var mid := CursorAt(s.from, s.responses, |s.responses|);
    BetweenJoin(s.log, mid, s.server, next);
    EligibleConcat(Between(s.log, mid, s.server), page, cfg.reader);
    assert Eligible(Between(s.log, mid, next), cfg.reader) == Eligible(page, cfg.reader);
    var t := Next(cfg, s, Pass(leaves));
    if Eligible(page, cfg.reader) != [] {
      assert t.responses[..|s.responses|] == s.responses;
      assert forall i | 0 <= i <= |s.responses| :: CursorAt(s.from, t.responses, i) == CursorAt(s.from, s.responses, i);
      EmptyRange(s.log, next, cfg.reader);
    }
  }

  lemma EmptyRange(log: seq<Event>, cursor: int, r: Reader)
    ensures Between(log, cursor, cursor) == [] && Eligible(Between(log, cursor, cursor), r) == []
  {
    BetweenMembers(log, cursor, cursor);
    NoMembers(Between(log, cursor, cursor));
  }

  /** A pass is the handler's own poll step, with the encoded response as payload. */
  function PollStep(cfg: Setting, s: State, leaves: bool): seq<Stream.Step> {
    var page := Page(cfg, s);
    var eligible := Eligible(page, cfg.reader);
    if eligible != [] then [Stream.PollEvents(cfg.codec.encode(Polled(eligible, Advance(page, s.server))))]
    else if leaves then [Stream.PollNothing]
    else []
  }

  lemma PassIsPoll(cfg: Setting, s: State, leaves: bool)
    requires cfg.Valid() && s.view.Valid() && Enabled(cfg, s, Pass(leaves))
    ensures Stream.Runs(s.conn, PollStep(cfg, s, leaves))
    ensures Next(cfg, s, Pass(leaves)).conn == Stream.Run(s.conn, PollStep(cfg, s, leaves))
  {}

  /** What a pass adds to the connection. */
  lemma PassAdds(cfg: Setting, s: State, leaves: bool)
    requires s.view.Valid() && Enabled(cfg, s, Pass(leaves))
    ensures var t := Next(cfg, s, Pass(leaves));
            t.log == s.log && t.from == s.from && t.view == s.view && t.rest == s.rest && t.got == s.got &&
            t.start == s.start && t.conn.wire == s.conn.wire &&
            ((t.responses == s.responses && t.conn.sent == s.conn.sent) ||
             exists body :: t.responses == s.responses + [body] &&
               t.conn.sent == s.conn.sent + [cfg.codec.encode(body)])
  {}

  lemma PassCarried(cfg: Setting, s: State, leaves: bool)
    requires cfg.Valid() && Carried(cfg, s) && Followed(s) && s.view.Valid() && Enabled(cfg, s, Pass(leaves))
    ensures Carried(cfg, Next(cfg, s, Pass(leaves))) && Followed(Next(cfg, s, Pass(leaves)))
  {
    hide Setting.Valid, Enabled, PollStep, Next, Stream.Inv, Stream.Run, Stream.Runs, Parse;
    PassIsPoll(cfg, s, leaves);
    Stream.RunKeepsInv(s.conn, PollStep(cfg, s, leaves));
    PassAdds(cfg, s, leaves);
    var t := Next(cfg, s, Pass(leaves));
    assert forall i | 0 <= i < |s.responses| :: t.responses[i] == s.responses[i] && t.conn.sent[i] == s.conn.sent[i];
  }

  lemma PassKeepsInv(cfg: Setting, s: State, leaves: bool)
    requires cfg.Valid() && Inv(cfg, s) && Enabled(cfg, s, Pass(leaves))
    ensures Inv(cfg, Next(cfg, s, Pass(leaves)))
  {
    PassServed(cfg, s, leaves);
    PassCarried(cfg, s, leaves);
    PassAdds(cfg, s, leaves);
    hide Between, Eligible, Next, Served, Carried, Followed;
  }

  // ---------------------------------------------------------------- the other steps

  lemma WireGrows(c: Stream.State, step: Stream.Step)
    requires Stream.Enabled(c, step)
    ensures c.wire <= Stream.Next(c, step).wire
    ensures !step.PollEvents? ==> Stream.Next(c, step).sent == c.sent
  {
    hide Frame.Bytes, Frame.Wellformed;
    var added := Stream.Next(c, step).wire;
    match step
    case DataPut(k) => assert added == c.wire + c.data.f.Bytes()[c.data.n..c.data.n + k];
    case PingPut(k) => assert added == c.wire + Ping.Bytes()[c.hb.n..c.hb.n + k];
    case _ => assert added == c.wire;
  }

  lemma ServeKeepsInv(cfg: Setting, s: State, step: Stream.Step)
    requires Inv(cfg, s) && Enabled(cfg, s, Serve(step))
    ensures Inv(cfg, Next(cfg, s, Serve(step)))
  {
    hide Between, Eligible, Ascending, Reached, Stream.Inv, Stream.Next, Stream.Enabled, Parse;
    Stream.InvKept(s.conn, step);
    WireGrows(s.conn, step);
    assert Stream.Next(s.conn, step).wire[..s.got] == s.conn.wire[..s.got];
  }

  lemma ConnectKeepsInv(cfg: Setting, s: State)
    requires Served(cfg, s) && Exact(cfg.reader, s.log, s.start, s.view)
    requires Reached(s.log, s.start, s.view.cursor)
    ensures Inv(cfg, Connected(s))
  {
    Stream.StartsInv();
    EmptyRange(s.log, s.view.cursor, cfg.reader);
    hide Between, Eligible, Ascending, Reached, Stream.Inv, BlankAt;
    assert Connected(s).conn.wire[..0] == "";
    assert Parse("") == Parsed([], "");
  }

  lemma ReloadKeepsInv(cfg: Setting, s: State)
    requires Ascending(s.log) && s.view.Valid()
    ensures Inv(cfg, Next(cfg, s, Reload))
  {
    var t := s.(view := View([], 0, s.view.cursor), start := s.view.cursor);
    var u := Connected(t);
    EmptyRange(s.log, s.view.cursor, cfg.reader);
    hide Between, Eligible, Ascending;
    ConnectKeepsInv(cfg, u);
    assert Connected(u) == Connected(t);
  }

  // ---------------------------------------------------------------- delivery

  /** Ingesting the next response: nothing in it was seen before, however stale the dedupe set, and the
      list stays exact. */
  lemma IngestExact(r: Reader, log: seq<Event>, start: int, v: View, body: Polled)
    requires Ascending(log) && Exact(r, log, start, v) && v.cursor <= body.next
    requires body.events == Eligible(Between(log, v.cursor, body.next), r)
    ensures Exact(r, log, start, Ingested(v, body)) && Ingested(v, body).cursor == body.next
    ensures Ingested(v, body).events == v.events + body.events
  {
    hide Between, Eligible, Ascending, EventReason, NotSeen, Sequences;
    BetweenJoin(log, start, v.cursor, body.next);
    EligibleConcat(Between(log, start, v.cursor), Between(log, v.cursor, body.next), r);
    NothingSeen(r, log, start, v, body);
  }

  lemma NothingSeen(r: Reader, log: seq<Event>, start: int, v: View, body: Polled)
    requires Exact(r, log, start, v) && body.events == Eligible(Between(log, v.cursor, body.next), r)
    ensures NotSeen(body.events, Sequences(v.events[..v.rendered])) == body.events
  {
    var seen := Sequences(v.events[..v.rendered]);
    BetweenMembers(log, start, v.cursor);
    BetweenMembers(log, v.cursor, body.next);
    EligibleMembers(Between(log, start, v.cursor), r);
    EligibleMembers(Between(log, v.cursor, body.next), r);
    hide Between, Eligible, EventReason, NotSeen;
    forall d | d in body.events ensures d.event.sequence !in seen {
      forall x | x in v.events[..v.rendered] ensures x.event.sequence <= v.cursor {
        assert x in v.events;
      }
    }
    NotSeenAll(body.events, seen);
  }

  /** Ingesting responses i to j, in order. */
  lemma {:induction false} IngestAllExact(
    r: Reader, log: seq<Event>, start: int, from: int, responses: seq<Polled>, v: View, i: nat, j: nat)
    requires i <= j <= |responses| && Ascending(log) && Chained(r, log, start, from, responses)
    requires Exact(r, log, start, v) && v.cursor == CursorAt(from, responses, i)
    ensures var w := IngestedAll(v, responses[i..j]);
            Exact(r, log, start, w) && w.cursor == CursorAt(from, responses, j)
  {
    hide Between, Eligible, Ascending, Reached, Ingested;
    if i < j {
      IngestAllExact(r, log, start, from, responses, v, i, j - 1);
      var bodies := responses[i..j];
      assert bodies[..|bodies| - 1] == responses[i..j - 1] && bodies[|bodies| - 1] == responses[j - 1];
      IngestExact(r, log, start, IngestedAll(v, responses[i..j - 1]), responses[j - 1]);
    }
  }

  /** The frames of the next chunk are the next payloads sent. */
  lemma NextFrames(cfg: Setting, s: State, n: nat)
    requires cfg.Valid() && Carried(cfg, s) && Followed(s) && s.got + n <= |s.conn.wire|
    ensures var k := |Received(s).frames|;
            var p := Parse(s.rest + s.conn.wire[s.got..s.got + n]);
            var t := s.(got := s.got + n);
            |Received(t).frames| == k + |p.frames| <= |s.responses| &&
            Received(t).rest == p.rest && Decoded(cfg.codec, p.frames) == s.responses[k..k + |p.frames|]
  {
    hide Parse, Stream.Inv;
    var w := s.conn.wire;
    var m := s.got + n;
    assert w[..m] == w[..s.got] + w[s.got..m];
    ParseResumes(w[..s.got], w[s.got..m]);
    Stream.SafeState(s.conn, m);
    var p := Parse(s.rest + w[s.got..m]);
    var k := |Received(s).frames|;
    var all := Received(s).frames + p.frames;
    assert all <= s.conn.sent;
    forall i | 0 <= i < |p.frames| ensures cfg.codec.decode(p.frames[i]) == s.responses[k + i] {
      assert p.frames[i] == all[k + i] == s.conn.sent[k + i];
    }
  }

  lemma DeliverKeepsInv(cfg: Setting, s: State, n: nat)
    requires cfg.Valid() && Inv(cfg, s) && Enabled(cfg, s, Deliver(n))
    ensures Inv(cfg, Next(cfg, s, Deliver(n)))
  {
    hide Between, Eligible, Ascending, Reached, Parse, Stream.Inv, Chained, IngestedAll, Decoded;
    var k := |Received(s).frames|;
    var p := Parse(s.rest + s.conn.wire[s.got..s.got + n]);
    NextFrames(cfg, s, n);
    IngestAllExact(cfg.reader, s.log, s.start, s.from, s.responses, s.view, k, k + |p.frames|);
  }

  // ---------------------------------------------------------------- every run

  lemma StepKeepsInv(cfg: Setting, s: State, step: Step)
    requires cfg.Valid() && Inv(cfg, s) && Enabled(cfg, s, step)
    ensures Inv(cfg, Next(cfg, s, step))
  {
    hide Between, Eligible, Ascending, Reached, Parse, Stream.Inv, Chained, IngestedAll, Decoded;
    match step
    case Commit(events) => CommitKeepsInv(cfg, s, events);
    case Pass(leaves) => PassKeepsInv(cfg, s, leaves);
    case Serve(inner) => ServeKeepsInv(cfg, s, inner);
    case Deliver(n) => DeliverKeepsInv(cfg, s, n);
    case Render(_) =>
    case Reconnect =>
      CursorsAbove(cfg, s, |Received(s).frames|);
      ConnectKeepsInv(cfg, s);
    case Reload => ReloadKeepsInv(cfg, s);
  }

  lemma {:induction false} RunKeepsInv(cfg: Setting, s: State, steps: seq<Step>)
    requires cfg.Valid() && Inv(cfg, s) && Runs(cfg, s, steps)
    ensures Inv(cfg, Run(cfg, s, steps))
    decreases |steps|
  {
    if steps != [] {
      hide Inv;
      StepKeepsInv(cfg, s, steps[0]);
      RunKeepsInv(cfg, Next(cfg, s, steps[0]), steps[1..]);
    }
  }

  lemma InitialInv(cfg: Setting, cursor: int)
    ensures Inv(cfg, Initial(cursor))
  {}

  // ---------------------------------------------------------------- what a user is shown

  /** The lists shown on all mounts of a run, one after another: each as it stands when the page is mounted
      anew, and the last as it stands at the end. */
  function Shown(cfg: Setting, s: State, steps: seq<Step>): seq<Delivery>
    requires Runs(cfg, s, steps)
    decreases |steps|
  {
    if steps == [] then s.view.events
    else (if steps[0].Reload? then s.view.events else []) + Shown(cfg, Next(cfg, s, steps[0]), steps[1..])
  }

  /** The log only grows and the client's cursor only moves forward. */
  lemma StepGrows(cfg: Setting, s: State, step: Step)
    requires s.view.Valid() && Enabled(cfg, s, step)
    ensures s.log <= Next(cfg, s, step).log && s.view.cursor <= Next(cfg, s, step).view.cursor
    ensures Next(cfg, s, step).start == if step.Reload? then s.view.cursor else s.start
  {
    hide Between, Eligible, Parse, Stream.Next, Stream.Enabled, Decoded, IngestedAll, Frame.Wellformed;
    if step.Deliver? {
      var p := Parse(s.rest + s.conn.wire[s.got..s.got + step.n]);
      CursorNotBack(s.view, Decoded(cfg.codec, p.frames));
    }
  }

  lemma {:induction false} CursorNotBack(v: View, bodies: seq<Polled>)
    requires v.Valid()
    ensures v.cursor <= IngestedAll(v, bodies).cursor
  {
    if bodies != [] { CursorNotBack(v, bodies[..|bodies| - 1]); }
  }

  lemma {:induction false} RunGrows(cfg: Setting, s: State, steps: seq<Step>)
    requires cfg.Valid() && Inv(cfg, s) && Runs(cfg, s, steps)
    ensures var t := Run(cfg, s, steps); s.log <= t.log && s.view.cursor <= t.view.cursor && Inv(cfg, t)
    decreases |steps|
  {
    if steps != [] {
      hide Inv, Next, Enabled;
      StepGrows(cfg, s, steps[0]);
      StepKeepsInv(cfg, s, steps[0]);
      RunGrows(cfg, Next(cfg, s, steps[0]), steps[1..]);
    }
  }

  /** What a mount showed when it ended is still what the longer log holds for its range. */
  lemma ShownSettled(cfg: Setting, s: State, log: seq<Event>)
    requires Inv(cfg, s) && s.log <= log && Ascending(log)
    ensures s.view.events == Eligible(Between(log, s.start, s.view.cursor), cfg.reader) && s.start <= s.view.cursor
  {
    hide Between, Eligible, Ascending, Reached, Parse, Stream.Inv, Chained;
    CursorsAbove(cfg, s, |Received(s).frames|);
    assert log == s.log + log[|s.log|..];
    BetweenSettled(s.log, log[|s.log|..], s.start, s.start, s.view.cursor);
  }

  /** One mount's list and those of the mounts after it. */
  lemma MountsJoin(log: seq<Event>, r: Reader, from: int, mid: int, to: int)
    requires Ascending(log) && from <= mid <= to
    ensures Eligible(Between(log, from, mid), r) + Eligible(Between(log, mid, to), r)
            == Eligible(Between(log, from, to), r)
  {
    BetweenJoin(log, from, mid, to);
    EligibleConcat(Between(log, from, mid), Between(log, mid, to), r);
  }

  lemma LogAscends(cfg: Setting, s: State)
    requires Inv(cfg, s)
    ensures Ascending(s.log)
  {}

  lemma {:induction false} ShownFrom(cfg: Setting, s: State, steps: seq<Step>)
    requires cfg.Valid() && Inv(cfg, s) && Runs(cfg, s, steps)
    ensures var t := Run(cfg, s, steps);
            Shown(cfg, s, steps) == Eligible(Between(t.log, s.start, t.view.cursor), cfg.reader)
    decreases |steps|
  {
    hide Inv, Enabled, Next, Between, Eligible, Ascending, Setting.Valid;
    var t := Run(cfg, s, steps);
    RunGrows(cfg, s, steps);
    LogAscends(cfg, t);
    ShownSettled(cfg, s, t.log);
    if steps != [] {
      var u := Next(cfg, s, steps[0]);
      StepKeepsInv(cfg, s, steps[0]);
      StepGrows(cfg, s, steps[0]);
      RunGrows(cfg, u, steps[1..]);
      ShownFrom(cfg, u, steps[1..]);
      if steps[0].Reload? {
        MountsJoin(t.log, cfg.reader, s.start, s.view.cursor, t.view.cursor);
      } else {
        assert [] + Shown(cfg, u, steps[1..]) == Shown(cfg, u, steps[1..]);
      }
    }
  }

  /** End-to-end exactness. In every run, whatever the commits, passes, heartbeats, chunkings,
      disconnects, reconnects, reloads and stale renders, the lists shown on all mounts, one after another,
      are exactly the eligible events above the cursor that the first mount began with and up to the
      client's present cursor: in ascending order and without repeats, across reloads too. */
  lemma ClientIsExact(cfg: Setting, cursor: int, steps: seq<Step>)
    requires cfg.Valid() && Runs(cfg, Initial(cursor), steps)
    ensures var s := Run(cfg, Initial(cursor), steps);
            var shown := Shown(cfg, Initial(cursor), steps);
            shown == Eligible(Between(s.log, cursor, s.view.cursor), cfg.reader) &&
            AscendingDeliveries(shown) && Distinct(shown)
  {
    InitialInv(cfg, cursor);
    ShownFrom(cfg, Initial(cursor), steps);
    RunGrows(cfg, Initial(cursor), steps);
    var s := Run(cfg, Initial(cursor), steps);
    BetweenMembers(s.log, cursor, s.view.cursor);
    EligibleAscending(Between(s.log, cursor, s.view.cursor), cfg.reader);
  }

  /** Everything sent was received, nothing failed, and the server has examined the whole log. */
  predicate Quiet(s: State) {
    s.got == |s.conn.wire| && s.conn.torn.Whole? && s.conn.mu.Free? && !s.conn.data.Lock? &&
    After(s.log, s.server) == []
  }

  /** And nothing is left out for good: in any state that has come to rest the lists shown are the whole of
      the eligible log above the cursor that the first mount began with. */
  lemma QuietIsComplete(cfg: Setting, cursor: int, steps: seq<Step>)
    requires cfg.Valid() && Runs(cfg, Initial(cursor), steps) && Quiet(Run(cfg, Initial(cursor), steps))
    ensures Shown(cfg, Initial(cursor), steps) ==
            Eligible(After(Run(cfg, Initial(cursor), steps).log, cursor), cfg.reader)
  {
    var s := Run(cfg, Initial(cursor), steps);
    InitialInv(cfg, cursor);
    RunGrows(cfg, Initial(cursor), steps);
    ShownFrom(cfg, Initial(cursor), steps);
    QuietState(cfg, s, cursor);
  }

  lemma QuietState(cfg: Setting, s: State, cursor: int)
    requires Inv(cfg, s) && Quiet(s) && cursor <= s.view.cursor
    ensures Eligible(Between(s.log, cursor, s.view.cursor), cfg.reader) == Eligible(After(s.log, cursor), cfg.reader)
  {
    hide Between, Eligible, Ascending, Parse, Stream.Inv, Chained, After;
    Stream.SafeState(s.conn, s.got);
    assert s.conn.wire[..s.got] == s.conn.wire;
    assert s.view.cursor == CursorAt(s.from, s.responses, |s.responses|);
    BetweenJoin(s.log, cursor, s.view.cursor, s.server);
    AfterBetween(s.log, cursor, s.server);
    EligibleConcat(Between(s.log, cursor, s.view.cursor), Between(s.log, s.view.cursor, s.server), cfg.reader);
    var shown := Eligible(Between(s.log, cursor, s.view.cursor), cfg.reader);
    assert shown + [] == shown;
    assert Between(s.log, cursor, s.server) + [] == Between(s.log, cursor, s.server);
  }

  // ---------------------------------------------------------------- delivery can always complete

  /** What surrounds the server never waits for it: any part of what is written may arrive, any prefix of
      the list may be rendered, the connection may be lost, and the page mounted anew, in every state. */
  lemma AlwaysPossible(cfg: Setting, s: State)
    ensures forall n: nat | s.got + n <= |s.conn.wire| :: Enabled(cfg, s, Deliver(n))
    ensures forall n: nat | n <= |s.view.events| :: Enabled(cfg, s, Render(n))
    ensures Enabled(cfg, s, Reconnect) && Enabled(cfg, s, Reload)
    ensures !s.conn.broken ==> Enabled(cfg, s, Serve(Stream.Break))
    ensures !s.conn.cancelled ==> Enabled(cfg, s, Serve(Stream.Cancel))
  {}

  /** The steps of the writers and of the user: the log and the mount stay as they are without them. */
  predicate FromOutside(step: Step) {
    step.Commit? || step.Reload?
  }

  lemma {:induction false} RunThen(cfg: Setting, s: State, a: seq<Step>, b: seq<Step>)
    requires Runs(cfg, s, a) && Runs(cfg, Run(cfg, s, a), b)
    ensures Runs(cfg, s, a + b) && Run(cfg, s, a + b) == Run(cfg, Run(cfg, s, a), b)
    decreases |a|
  {
    hide Enabled, Next;
    if a == [] {
      assert a + b == b;
    } else {
      RunThen(cfg, Next(cfg, s, a[0]), a[1..], b);
      assert (a + b)[1..] == a[1..] + b;
    }
  }

  /** The data loop is about to poll, on a connection in good order. */
  predicate Idle(s: State) {
    s.view.Valid() && s.conn.data.Polling? && s.conn.mu.Free? && s.conn.torn.Whole? &&
    !s.conn.broken && !s.conn.cancelled
  }

  /** The handler writes the frame in hand and comes back to its poll. */
  function WriteOut(f: Frame): seq<Step> {
    [Serve(Stream.DataLock), Serve(Stream.DataPut(|f.Bytes()|)), Serve(Stream.DataWritten)] +
    if f.Padding? then [] else [Serve(Stream.CheckContext)]
  }

  lemma FrameGoesOut(cfg: Setting, s: State)
    requires s.view.Valid() && s.conn.data.Lock? && s.conn.mu.Free? && s.conn.torn.Whole?
    requires !s.conn.broken && !s.conn.cancelled
    ensures var steps := WriteOut(s.conn.data.f);
            Runs(cfg, s, steps) && Idle(Run(cfg, s, steps)) &&
            Run(cfg, s, steps).log == s.log && Run(cfg, s, steps).server == s.server
  {
    hide Frame.Wellformed, Between, Eligible, Parse;
    var f := s.conn.data.f;
    assert |f.Bytes()| > 0;
    hide Frame.Bytes;
    var a := Next(cfg, s, Serve(Stream.DataLock));
    var b := Next(cfg, a, Serve(Stream.DataPut(|f.Bytes()|)));
    var c := Next(cfg, b, Serve(Stream.DataWritten));
    RunOf(cfg, s, WriteOut(f));
    RunOf(cfg, a, WriteOut(f)[1..]);
    RunOf(cfg, b, WriteOut(f)[1..][1..]);
    if !f.Padding? { RunOf(cfg, c, WriteOut(f)[1..][1..][1..]); }
  }

  lemma RunOf(cfg: Setting, s: State, steps: seq<Step>)
    requires steps != [] && s.view.Valid() && Enabled(cfg, s, steps[0])
    ensures Runs(cfg, Next(cfg, s, steps[0]), steps[1..]) ==>
              Runs(cfg, s, steps) && Run(cfg, s, steps) == Run(cfg, Next(cfg, s, steps[0]), steps[1..])
  {}

  /** One pass over what the server has not examined, and the frame that may come of it. */
  lemma Round(cfg: Setting, s: State) returns (steps: seq<Step>)
    requires cfg.Valid() && Ascending(s.log) && Idle(s) && After(s.log, s.server) != []
    ensures Runs(cfg, s, steps) && !exists i | 0 <= i < |steps| :: FromOutside(steps[i])
    ensures var t := Run(cfg, s, steps);
            Idle(t) && t.log == s.log && |After(t.log, t.server)| < |After(s.log, s.server)|
  {
    var t := Next(cfg, s, Pass(false));
    AfterPage(s.log, s.server, Page(cfg, s));
    steps := [Pass(false)];
    hide After, Advance, Eligible;
    assert steps[1..] == [];
    if Eligible(Page(cfg, s), cfg.reader) != [] {
      var out := WriteOut(t.conn.data.f);
      FrameGoesOut(cfg, t);
      RunThen(cfg, s, steps, out);
      steps := steps + out;
    }
  }

  /** Round after round until the server has examined the log. */
  lemma {:induction false} Drain(cfg: Setting, s: State) returns (steps: seq<Step>)
    requires cfg.Valid() && Ascending(s.log) && Idle(s)
    ensures Runs(cfg, s, steps) && !exists i | 0 <= i < |steps| :: FromOutside(steps[i])
    ensures var t := Run(cfg, s, steps); Idle(t) && t.log == s.log && After(t.log, t.server) == []
    decreases |After(s.log, s.server)|
  {
    if After(s.log, s.server) == [] {
      steps := [];
    } else {
      var first := Round(cfg, s);
      hide Idle, Runs, Run, After;
      var rest := Drain(cfg, Run(cfg, s, first));
      RunThen(cfg, s, first, rest);
      steps := first + rest;
    }
  }

  lemma DeliverAll(cfg: Setting, s: State) returns (steps: seq<Step>)
    requires Idle(s) && s.got <= |s.conn.wire| && After(s.log, s.server) == []
    ensures Runs(cfg, s, steps) && !exists i | 0 <= i < |steps| :: FromOutside(steps[i])
    ensures Quiet(Run(cfg, s, steps)) && Run(cfg, s, steps).log == s.log
  {
    hide After, Parse;
    steps := [Deliver(|s.conn.wire| - s.got)];
    assert steps[1..] == [];
  }

  /** A new connection, and the padding written. */
  lemma Reopen(cfg: Setting, s: State) returns (steps: seq<Step>)
    requires s.view.Valid()
    ensures Runs(cfg, s, steps) && !exists i | 0 <= i < |steps| :: FromOutside(steps[i])
    ensures Idle(Run(cfg, s, steps)) && Run(cfg, s, steps).log == s.log
  {
    var first := [Reconnect];
    assert first[1..] == [];
    var t := Run(cfg, s, first);
    assert t == Connected(s);
    FrameGoesOut(cfg, t);
    RunThen(cfg, s, first, WriteOut(Padding));
    steps := first + WriteOut(Padding);
  }

  /** A new connection, every pass that is due, and everything received. */
  lemma CatchUp(cfg: Setting, s: State) returns (steps: seq<Step>)
    requires cfg.Valid() && Inv(cfg, s)
    ensures Runs(cfg, s, steps) && !exists i | 0 <= i < |steps| :: FromOutside(steps[i])
    ensures Quiet(Run(cfg, s, steps)) && Run(cfg, s, steps).log == s.log
  {
    LogAscends(cfg, s);
    assert s.view.Valid();
    hide Inv, Idle, Quiet, Runs, Run, After, FromOutside, Carried;
    var a := Reopen(cfg, s);
    var t := Run(cfg, s, a);
    var b := Drain(cfg, t);
    var u := Run(cfg, t, b);
    RunThen(cfg, s, a, b);
    RunGrows(cfg, s, a + b);
    GotWithinWire(cfg, u);
    var c := DeliverAll(cfg, u);
    RunThen(cfg, s, a + b, c);
    steps := a + b + c;
  }

  lemma GotWithinWire(cfg: Setting, s: State)
    requires Inv(cfg, s)
    ensures s.got <= |s.conn.wire|
  {}

  /** Delivery can always complete: from every state of every run, however the connection was left, some
      further steps with no new commit and no reload lead to rest, where the lists shown are the whole of
      the eligible log above the first cursor. */
  lemma DeliveryCompletes(cfg: Setting, cursor: int, before: seq<Step>) returns (steps: seq<Step>)
    requires cfg.Valid() && Runs(cfg, Initial(cursor), before)
    ensures Runs(cfg, Initial(cursor), before + steps) && !exists i | 0 <= i < |steps| :: FromOutside(steps[i])
    ensures var log := Run(cfg, Initial(cursor), before).log;
            Run(cfg, Initial(cursor), before + steps).log == log &&
            Shown(cfg, Initial(cursor), before + steps) == Eligible(After(log, cursor), cfg.reader)
  {
    hide Inv, Quiet, Runs, Run, After, Initial, FromOutside, Eligible, Shown;
    var s0 := Initial(cursor);
    InitialInv(cfg, cursor);
    RunGrows(cfg, s0, before);
    steps := CatchUp(cfg, Run(cfg, s0, before));
    RunThen(cfg, s0, before, steps);
    QuietIsComplete(cfg, cursor, before + steps);
  }
}
