/** The browser's side of the inbox stream (web/src/hooks/useEventStream.ts). */
module Client {
  import opened Strings
  import opened Tables
  import opened Inbox
  import opened Sse

  /** protojson of a PollEventsResponse and its decoder, as opaque functions. */
  datatype Codec = Codec(encode: Polled -> string, decode: string -> Polled)
  {
    ghost predicate Valid() {
      forall body: Polled :: decode(encode(body)) == body && encode(body) != "" && '\n' !in encode(body)
    }
  }

  /** The list of events, the length of the prefix of it that the last render saw, and the cursor. */
  datatype View = View(events: seq<Delivery>, rendered: nat, cursor: int)
  {
    predicate Valid() {
      rendered <= |events|
    }
  }

  /** The filter by a set of seen sequences. */
  function NotSeen(ds: seq<Delivery>, seen: set<int>): seq<Delivery> {
    if ds == [] then []
    else (if ds[0].event.sequence in seen then [] else [ds[0]]) + NotSeen(ds[1..], seen)
  }

  /** What one decoded frame makes of the view. */
  function Ingested(v: View, body: Polled): View
    requires v.Valid()
  {
    View(v.events + NotSeen(body.events, Sequences(v.events[..v.rendered])), v.rendered,
         if body.next > v.cursor then body.next else v.cursor)
  }

  function IngestedAll(v: View, bodies: seq<Polled>): (w: View)
    requires v.Valid()
    ensures w.Valid() && w.rendered == v.rendered
  {
    if bodies == [] then v
    else Ingested(IngestedAll(v, bodies[..|bodies| - 1]), bodies[|bodies| - 1])
  }

  function Decoded(codec: Codec, frames: seq<string>): seq<Polled> {
    seq(|frames|, i requires 0 <= i < |frames| => codec.decode(frames[i]))
  }

  class EventStream {
    const agent: Id
    const codec: Codec
    /** localStorage, by agent. */
    var storage: map<Id, int>
    var events: seq<Delivery>
    /** eventsRef.current is events[..rendered]. */
    var rendered: nat
    var cursor: int
    var rest: string

    /** The cursor persisted is the cursor in use. */
    ghost predicate Valid()
      reads this
    {
      rendered <= |events| && cursor == if agent in storage then storage[agent] else 0
    }

    ghost function Shown(): View
      reads this
    {
      View(events, rendered, cursor)
    }

    /** Mounting hydrates the cursor and starts from an empty list. */
    constructor (agent: Id, codec: Codec, storage: map<Id, int>)
      ensures Valid() && this.agent == agent && this.codec == codec && this.storage == storage
      ensures Shown() == View([], 0, if agent in storage then storage[agent] else 0)
    {
      this.agent, this.codec, this.storage := agent, codec, storage;
      events, rendered, rest := [], 0, "";
      cursor := if agent in storage then storage[agent] else 0;
    }

    /** A render catches up with some of the updates. */
    method Render(upTo: nat)
      requires Valid() && upTo <= |events|
      modifies this`rendered
      ensures Valid() && rendered == upTo
    {
      rendered := upTo;
    }

    /** A new connection: it asks for what follows the cursor, and starts with an empty remainder. */
    method Connect() returns (from: int)
      requires Valid()
      modifies this`rest
      ensures Valid() && rest == "" && from == cursor
    {
      from := cursor;
      rest := "";
    }

    method Ingest(body: Polled)
      requires Valid()
      modifies this`events, this`cursor, this`storage
      ensures Valid() && Shown() == Ingested(old(Shown()), body)
      ensures storage - {agent} == old(storage) - {agent}
    {
      if |body.events| > 0 {
        var seen := Sequences(events[..rendered]);
        var news := NotSeen(body.events, seen);
        if |news| > 0 {
          events := events + news;
        }
      }
      if body.next > cursor {
        cursor := body.next;
        storage := storage[agent := body.next];
      }
    }

    /** One chunk off the network, with any number of frames completed by it. */
    method Receive(chunk: string)
      requires Valid()
      modifies this
      ensures Valid()
      ensures var p := Parse(old(rest) + chunk);
              rest == p.rest && Shown() == IngestedAll(old(Shown()), Decoded(codec, p.frames))
      ensures storage - {agent} == old(storage) - {agent}
    {
      ghost var before := Shown();
      var frames, next := ParseSSEChunk(chunk, rest);
      rest := next;
      ghost var bodies := Decoded(codec, frames);
      for i := 0 to |frames|
        invariant Valid() && rest == next && Shown() == IngestedAll(before, bodies[..i])
        invariant storage - {agent} == old(storage) - {agent}
      {
        Ingest(codec.decode(frames[i]));
        assert bodies[..i + 1][..i] == bodies[..i];
      }
      assert bodies[..|frames|] == bodies;
    }
  }

  predicate Distinct(ds: seq<Delivery>) {
    forall i, j | 0 <= i < j < |ds| :: ds[i].event.sequence != ds[j].event.sequence
  }

  lemma {:induction false} NotSeenMembers(ds: seq<Delivery>, seen: set<int>)
    ensures forall d :: d in NotSeen(ds, seen) <==> d in ds && d.event.sequence !in seen
  {
    if ds != [] {
      NotSeenMembers(ds[1..], seen);
      assert ds == [ds[0]] + ds[1..];
    }
  }

  lemma {:induction false} NotSeenAll(ds: seq<Delivery>, seen: set<int>)
    requires forall d | d in ds :: d.event.sequence !in seen
    ensures NotSeen(ds, seen) == ds
  {
    if ds != [] {
      NotSeenAll(ds[1..], seen);
    }
  }

  lemma {:induction false} NotSeenDistinct(ds: seq<Delivery>, seen: set<int>)
    requires Distinct(ds)
    ensures Distinct(NotSeen(ds, seen))
  {
    if ds != [] {
      var rest := NotSeen(ds[1..], seen);
      NotSeenDistinct(ds[1..], seen);
      NotSeenMembers(ds[1..], seen);
      forall d | d in rest ensures d.event.sequence != ds[0].event.sequence {
        var i :| 0 <= i < |ds[1..]| && ds[1..][i] == d;
        assert ds[i + 1] == d;
      }
      assert Distinct([ds[0]] + rest);
    }
  }

  lemma DistinctConcat(a: seq<Delivery>, b: seq<Delivery>)
    requires Distinct(a) && Distinct(b)
    ensures Distinct(a + b) <==> Sequences(a) !! Sequences(b)
  {
    var c := a + b;
    if Distinct(c) {
      forall x, y | x in a && y in b ensures x.event.sequence != y.event.sequence {
        var i :| 0 <= i < |a| && a[i] == x;
        var j :| 0 <= j < |b| && b[j] == y;
        assert c[i] == x && c[|a| + j] == y;
      }
    } else {
      var i, j :| 0 <= i < j < |c| && c[i].event.sequence == c[j].event.sequence;
      assert i < |a| <= j;
      assert a[i].event.sequence in Sequences(a) && b[j - |a|].event.sequence in Sequences(b);
    }
  }

  /** The dedupe set is a prefix of the list: it keeps the list free of repeats exactly when nothing
      delivered is among the events appended since the last render. */
  lemma StaleDedupe(v: View, body: Polled)
    requires v.Valid() && Distinct(v.events) && Distinct(body.events)
    ensures Distinct(Ingested(v, body).events) <==> Sequences(v.events[v.rendered..]) !! Sequences(body.events)
  {
    var earlier, late := v.events[..v.rendered], v.events[v.rendered..];
    var news := NotSeen(body.events, Sequences(earlier));
    NotSeenMembers(body.events, Sequences(earlier));
    NotSeenDistinct(body.events, Sequences(earlier));
    assert v.events == earlier + late;
    DistinctConcat(v.events, news);
    hide Distinct, NotSeen;
    SequencesConcat(earlier, late);
    NewSequences(body.events, news, Sequences(earlier));
    DistinctParts(earlier, late);
  }

  lemma DistinctParts(a: seq<Delivery>, b: seq<Delivery>)
    requires Distinct(a + b)
    ensures Sequences(a) !! Sequences(b)
  {
    var c := a + b;
    assert forall i | 0 <= i < |a| :: c[i] == a[i];
    assert forall j | 0 <= j < |b| :: c[|a| + j] == b[j];
    DistinctConcat(a, b);
  }

  lemma SequencesConcat(a: seq<Delivery>, b: seq<Delivery>)
    ensures Sequences(a + b) == Sequences(a) + Sequences(b)
  {}

  lemma NewSequences(ds: seq<Delivery>, news: seq<Delivery>, seen: set<int>)
    requires forall d :: d in news <==> d in ds && d.event.sequence !in seen
    ensures Sequences(news) == Sequences(ds) - seen
  {}
}
