/**
 PollEvents (internal/service/events.go) against a database that other agents keep writing to. Each
 pass reads the page, then the three membership tables, in four separate statements; writers and the
 clock move between any two of them.
 */
module Poll {
  import opened Tables
  import opened Storage
  import opened Inbox
  import Forum

  const PAGE_SIZE := 500

  /** pollInterval: 200 ms in nanoseconds. */
  const POLL_INTERVAL := 200_000_000

  /** The world around a poll: the shared store, the clock, and the history of the database. */
  class World {
    const store: Store
    var now: int
    ghost var trace: seq<Db>
    /** How many events writers will still append at most. Any finite number. */
    var budget: nat

    constructor (store: Store, budget: nat)
      requires Forum.Ascending(store.db.events)
      ensures this.store == store && trace == [store.db] && this.budget == budget && Valid()
    {
      this.store := store;
      now := 0;
      trace := [store.db];
      this.budget := budget;
    }

    ghost predicate Valid()
      reads this, store
    {
      |trace| > 0 && trace[|trace| - 1] == store.db && Forum.Ascending(store.db.events) &&
      forall i | 0 <= i < |trace| :: trace[i].events <= store.db.events
    }

    /** The events that exist or are still to come beyond a cursor. */
    ghost function Potential(cursor: int): nat
      reads this, store
    {
      |After(store.db.events, cursor)| + budget
    }

    /** Any number of writes by anyone, and any amount of time. */
    method Interfere()
      requires Valid()
      modifies this, store
      ensures Valid() && old(trace) <= trace && old(now) <= now
      ensures |store.db.events| + budget == |old(store.db.events)| + old(budget)
    {
      var writes: int := *;
      var elapsed: int := *;
      if elapsed > 0 { now := now + elapsed; }
      while writes > 0
        invariant Valid() && old(trace) <= trace && old(now) <= now
        invariant |store.db.events| + budget == |old(store.db.events)| + old(budget)
      {
        Write();
        writes := writes - 1;
      }
    }

    /** Time passes, and writers write. */
    method Spend(ticks: int)
      requires Valid() && ticks >= 0
      modifies this, store
      ensures Valid() && old(trace) <= trace && old(now) + ticks <= now
      ensures |store.db.events| + budget == |old(store.db.events)| + old(budget)
    {
      now := now + ticks;
      Interfere();
    }

    /** One write with arbitrary arguments. */
    method Write()
      requires Valid()
      modifies this, store
      ensures Valid() && old(trace) <= trace && now == old(now)
      ensures |store.db.events| + budget == |old(store.db.events)| + old(budget)
    {
      hide ReindexedTerms, PostFits, ThreadFits;
      var choice: int := *;
      var agent: Id := *;
      var key: string := *;
      if choice == 0 {
        var th: Thread, p: Post, watch: bool := *, *, *;
        if budget >= 2 {
          var ok := store.CreateThreadWithPost(th, p, watch, {});
          if ok { budget := budget - 2; }
        }
      } else if choice == 1 {
        var p: Post := *;
        if budget >= 1 {
          var ok := store.CreatePost(p, key, {});
          if ok { budget := budget - 1; }
        }
      } else if choice == 2 {
        var ok := store.WatchThread(agent, key);
      } else if choice == 3 {
        store.UnwatchThread(agent, key);
      } else if choice == 4 {
        var ok := store.WatchSubforum(agent, key);
      } else if choice == 5 {
        store.UnwatchSubforum(agent, key);
      } else if choice == 6 {
        store.RegisterAgent(agent);
      } else if choice == 7 {
        store.CreateSubforum(key);
      } else {
        var through: int := *;
        store.AckEvents(agent, through);
      }
      trace := trace + [store.db];
    }
  }

  // ---------------------------------------------------------------- what a poll must deliver

  /** A membership that makes events relevant. */
  datatype Relation = TakesPart(thread: Id) | WatchesThread(thread: Id) | WatchesSubforum(key: string)

  predicate HoldsIn(db: Db, agent: Id, rel: Relation) {
    match rel
    case TakesPart(t) => (agent, t) in db.participants
    case WatchesThread(t) => (agent, t) in db.watches
    case WatchesSubforum(k) => (agent, k) in db.subforumWatches
  }

  predicate Concerns(rel: Relation, e: Event) {
    match rel
    case TakesPart(t) => e.thread == t
    case WatchesThread(t) => e.thread == t
    case WatchesSubforum(k) => e.subforum == k && k != ""
  }

  /** The relation holds in every database state from index lo on. */
  ghost predicate HeldSince(trace: seq<Db>, lo: nat, agent: Id, rel: Relation) {
    forall i | lo <= i < |trace| :: HoldsIn(trace[i], agent, rel)
  }

  /** Every event examined and not delivered is the agent's own or lost its relevance on the way. */
  ghost predicate NothingMissed(trace: seq<Db>, lo: nat, log: seq<Event>, agent: Id, from: int, to: int,
      delivered: seq<Delivery>) {
    forall e, rel | e in log && from < e.sequence <= to && e.actor != agent && Concerns(rel, e) &&
      HeldSince(trace, lo, agent, rel) ::
      exists d | d in delivered :: d.event == e
  }

  /** The moments of one pass: when the page and the three tables were read. */
  datatype Moments = Moments(page: nat, part: nat, watch: nat, subs: nat)

  predicate InOrder(m: Moments, lo: nat, trace: seq<Db>) {
    lo <= m.page <= m.part <= m.watch <= m.subs < |trace|
  }

  /** What the agent sees with the three tables read at those moments. */
  function ReaderAt(trace: seq<Db>, m: Moments, lo: nat, agent: Id, scope: Scope): Reader
    requires InOrder(m, lo, trace)
  {
    Reader(agent, ParticipantThreads(trace[m.part], agent), WatchedThreads(trace[m.watch], agent),
           WatchedSubforums(trace[m.subs], agent), scope)
  }

  function ReaderIn(db: Db, agent: Id, scope: Scope): Reader {
    Reader(agent, ParticipantThreads(db, agent), WatchedThreads(db, agent), WatchedSubforums(db, agent), scope)
  }

  /** Neither the log nor the agent's membership changed since index lo. */
  ghost predicate Frozen(trace: seq<Db>, lo: nat, agent: Id) {
    lo < |trace| &&
    forall i | lo <= i < |trace| ::
      trace[i].events == trace[lo].events && ReaderIn(trace[i], agent, FULL_SCOPE) ==
        ReaderIn(trace[lo], agent, FULL_SCOPE)
  }

  function CeilDiv(a: int, b: int): (c: int)
    requires b > 0
    ensures c >= 0 && (a > 0 ==> (c - 1) * b < a <= c * b)
  {
    if a <= 0 then 0 else (a + b - 1) / b
  }

  /** Counters of one poll: all passes, those over a full page with nothing to deliver, and those that slept. */
  datatype Work = Work(passes: nat, full: nat, slept: nat)

  datatype Options = Options(cursor: int, wait: int, scope: string)

  datatype PollResult = Ok(events: seq<Delivery>, next: int) | Failed(next: int)
  {
    function Events(): seq<Delivery> {
      if Ok? then events else []
    }
  }

  // ---------------------------------------------------------------- the loop

  /** The three reads of membershipSets. */
  method MembershipSets(w: World, agent: Id) returns (ok: bool, part: set<Id>, watch: set<Id>, subs: set<string>,
                                                      ghost i: nat, ghost j: nat, ghost k: nat)
    requires w.Valid()
    modifies w, w.store
    ensures w.Valid() && old(w.trace) <= w.trace && old(w.now) <= w.now
    ensures |w.store.db.events| + w.budget == |old(w.store.db.events)| + old(w.budget)
    ensures |old(w.trace)| - 1 <= i <= j <= k < |w.trace|
    ensures ok ==>
              (forall t :: t in part <==> (agent, t) in w.trace[i].participants) &&
              (forall t :: t in watch <==> (agent, t) in w.trace[j].watches) &&
              (forall s :: s in subs <==> (agent, s) in w.trace[k].subforumWatches)
  {
    part, watch, subs := {}, {}, {};
    i, j, k := |w.trace| - 1, |w.trace| - 1, |w.trace| - 1;
    var partIds := w.store.ListParticipantThreadIDs(agent);
    part := set x | x in partIds;
    ok := *;
    w.Interfere();
    j, k := |w.trace| - 1, |w.trace| - 1;
    if !ok { return; }
    var watchIds := w.store.ListWatchingThreadIDs(agent);
    watch := set x | x in watchIds;
    ok := *;
    w.Interfere();
    k := |w.trace| - 1;
    if !ok { return; }
    var keys := w.store.WatchedSubforumKeys(agent);
    subs := set x | x in keys;
    ok := *;
  }

  /** The loop over one page. */
  method Filter(page: seq<Event>, r: Reader) returns (eligible: seq<Delivery>)
    ensures eligible == Eligible(page, r)
  {
    eligible := [];
    for i := 0 to |page|
      invariant eligible == Eligible(page[..i], r)
    {
      var e := page[i];
      EligibleConcat(page[..i], [e], r);
      assert page[..i + 1] == page[..i] + [e] && [e][1..] == [];
      if e.actor == r.agent { continue; }
      var reason := EventReason(e, r.part, r.watch, r.subs);
      if reason.Irrelevant? || !r.scope.Accepts(reason.reason) { continue; }
      eligible := eligible + [Delivery(e, reason.reason)];
    }
    assert page[..|page|] == page;
  }

  lemma ReaderIs(trace: seq<Db>, m: Moments, lo: nat, r: Reader)
    requires InOrder(m, lo, trace)
    requires forall t :: t in r.part <==> (r.agent, t) in trace[m.part].participants
    requires forall t :: t in r.watch <==> (r.agent, t) in trace[m.watch].watches
    requires forall s :: s in r.subs <==> (r.agent, s) in trace[m.subs].subforumWatches
    ensures r == ReaderAt(trace, m, lo, r.agent, r.scope)
  {
    assert r.part == ParticipantThreads(trace[m.part], r.agent);
    assert r.watch == WatchedThreads(trace[m.watch], r.agent);
    assert r.subs == WatchedSubforums(trace[m.subs], r.agent);
  }

  /** One pass: page, membership, filter. It takes at least one clock tick. */
  method Pass(w: World, agent: Id, rs: Scope, cursor: int) returns (ok: bool, page: seq<Event>,
      eligible: seq<Delivery>, ghost m: Moments)
    requires w.Valid()
    modifies w, w.store
    ensures w.Valid() && old(w.trace) <= w.trace && old(w.now) + 1 <= w.now
    ensures |w.store.db.events| + w.budget == |old(w.store.db.events)| + old(w.budget)
    ensures InOrder(m, |old(w.trace)| - 1, w.trace) && old(w.store.db).events <= w.trace[m.page].events
    ensures ok ==> page == Inbox.ListEventsAfter(w.trace[m.page].events, cursor, PAGE_SIZE)
    ensures ok ==> eligible == Eligible(page, ReaderAt(w.trace, m, |old(w.trace)| - 1, agent, rs))
  {
    hide Eligible, Inbox.ListEventsAfter, ReaderAt;
    page, eligible := [], [];
    w.Interfere();
    page := w.store.ListEventsAfter(cursor, PAGE_SIZE);
    ghost var h := |w.trace| - 1;
    m := Moments(h, h, h, h);
    assert w.trace[|old(w.trace)| - 1] == old(w.store.db);
    ok := *;
    w.Spend(1);
    if !ok { return; }
    var part, watch, subs;
    ghost var i, j, k;
    ok, part, watch, subs, i, j, k := MembershipSets(w, agent);
    m := Moments(h, i, j, k);
    if !ok { return; }
    eligible := Filter(page, Reader(agent, part, watch, subs, rs));
    ReaderIs(w.trace, m, |old(w.trace)| - 1, Reader(agent, part, watch, subs, rs));
  }

  /** Growth of the log and of the history loses nothing that was settled. */
  lemma SettledStays(trace: seq<Db>, trace': seq<Db>, lo: nat, log: seq<Event>, log': seq<Event>, agent: Id,
      from: int, to: int)
    requires trace <= trace' && log <= log' && Forum.Ascending(log') && Reached(log, from, to)
    requires NothingMissed(trace, lo, log, agent, from, to, [])
    ensures NothingMissed(trace', lo, log', agent, from, to, [])
  {}

  /** An event up to the page's end that is in the log now was already there when the page was read:
      sequence order is commit order. */
  lemma PageSaw(seen: seq<Event>, log: seq<Event>, cursor: int, page: seq<Event>)
    requires seen <= log && Forum.Ascending(log) && page <= After(seen, cursor)
    ensures Reached(log, cursor, Advance(page, cursor))
    ensures forall e | e in log && cursor < e.sequence <= Advance(page, cursor) :: e in page
  {
    if page != [] {
      assert Forum.Ascending(seen);
      AfterMembers(seen, cursor);
      AfterPage(seen, cursor, page);
      hide After;
      var last := page[|page| - 1];
      assert last == After(seen, cursor)[|page| - 1];
      assert last in seen;
      var n :| 0 <= n < |seen| && seen[n] == last;
      assert log[n] == last && log[n].sequence <= log[|log| - 1].sequence;
      forall e | e in log && cursor < e.sequence <= last.sequence ensures e in page {
        SeenEarlier(seen, log, n, e);
        PageHolds(seen, cursor, page, e);
      }
    }
  }

  /** What is in the longer log and no later than an event of the shorter one is in the shorter one. */
  lemma SeenEarlier(seen: seq<Event>, log: seq<Event>, n: nat, e: Event)
    requires seen <= log && Forum.Ascending(log) && n < |seen| && e in log && e.sequence <= seen[n].sequence
    ensures e in seen
  {
    var i :| 0 <= i < |log| && log[i] == e;
    assert log[n] == seen[n];
    assert i <= n && seen[i] == e;
  }

  lemma HeldIsTaken(trace: seq<Db>, lo: nat, m: Moments, agent: Id, e: Event, rel: Relation)
    requires InOrder(m, lo, trace) && e.actor != agent && Concerns(rel, e) && HeldSince(trace, lo, agent, rel)
    ensures ReaderAt(trace, m, lo, agent, FULL_SCOPE).Takes(e)
  {}

  /** In a full-scope pass, whatever is relevant throughout is delivered. */
  lemma PassDelivers(trace: seq<Db>, lo: nat, m: Moments, agent: Id, cursor: int, page: seq<Event>)
    requires InOrder(m, lo, trace) && Forum.Ascending(trace[|trace| - 1].events)
    requires trace[m.page].events <= trace[|trace| - 1].events
    requires page == Inbox.ListEventsAfter(trace[m.page].events, cursor, PAGE_SIZE)
    ensures NothingMissed(trace, lo, trace[|trace| - 1].events, agent, cursor, Advance(page, cursor),
                          Eligible(page, ReaderAt(trace, m, lo, agent, FULL_SCOPE)))
    ensures Reached(trace[|trace| - 1].events, cursor, Advance(page, cursor))
  {
    var log, seen := trace[|trace| - 1].events, trace[m.page].events;
    var r := ReaderAt(trace, m, lo, agent, FULL_SCOPE);
    PageSaw(seen, log, cursor, page);
    EligibleMembers(page, r);
    hide Inbox.ListEventsAfter, Eligible, HeldSince, Advance, After, Forum.Ascending, Concerns, ReaderAt, EventReason;
    forall e, rel | e in log && cursor < e.sequence <= Advance(page, cursor) && e.actor != agent && Concerns(rel, e) &&
      HeldSince(trace, lo, agent, rel)
      ensures exists d | d in Eligible(page, r) :: d.event == e
    {
      HeldIsTaken(trace, lo, m, agent, e, rel);
      assert Delivery(e, r.Reason(e).reason) in Eligible(page, r);
    }
  }

  /** The same said of the rows. */
  lemma PassDeliversByRows(trace: seq<Db>, lo: nat, m: Moments, agent: Id, cursor: int, page: seq<Event>)
    requires InOrder(m, lo, trace) && Forum.Ascending(trace[|trace| - 1].events)
    requires trace[m.page].events <= trace[|trace| - 1].events
    requires page == Inbox.ListEventsAfter(trace[m.page].events, cursor, PAGE_SIZE)
    ensures forall e | e in trace[|trace| - 1].events && cursor < e.sequence <= Advance(page, cursor) &&
              e.actor != agent &&
              ((forall i | lo <= i < |trace| :: (agent, e.thread) in trace[i].participants) ||
               (forall i | lo <= i < |trace| :: (agent, e.thread) in trace[i].watches) ||
               (e.subforum != "" && forall i | lo <= i < |trace| :: (agent, e.subforum) in trace[i].subforumWatches)) ::
              Delivers(trace, m, lo, agent, page, e)
  {
    PassDelivers(trace, lo, m, agent, cursor, page);
    RelatedByRows(trace, lo, agent);
    hide Inbox.ListEventsAfter, Eligible, HeldSince, Advance, Forum.Ascending, Concerns, ReaderAt;
  }

  /** The relations that concern an event, on the rows. */
  lemma RelatedByRows(trace: seq<Db>, lo: nat, agent: Id)
    ensures forall e: Event | forall i | lo <= i < |trace| :: (agent, e.thread) in trace[i].participants ::
              HeldSince(trace, lo, agent, TakesPart(e.thread)) && Concerns(TakesPart(e.thread), e)
    ensures forall e: Event | forall i | lo <= i < |trace| :: (agent, e.thread) in trace[i].watches ::
              HeldSince(trace, lo, agent, WatchesThread(e.thread)) && Concerns(WatchesThread(e.thread), e)
    ensures forall e: Event | e.subforum != "" &&
              forall i | lo <= i < |trace| :: (agent, e.subforum) in trace[i].subforumWatches ::
              HeldSince(trace, lo, agent, WatchesSubforum(e.subforum)) && Concerns(WatchesSubforum(e.subforum), e)
  {}

  lemma MissesJoin(trace: seq<Db>, lo: nat, log: seq<Event>, agent: Id, from: int, mid: int, to: int, ds: seq<Delivery>)
    requires NothingMissed(trace, lo, log, agent, from, mid, []) && NothingMissed(trace, lo, log, agent, mid, to, ds)
    ensures NothingMissed(trace, lo, log, agent, from, to, ds)
  {}

  /** The reasons delivered held when their tables were read, and no stronger one held when its was. */
  lemma ReasonsTrue(trace: seq<Db>, lo: nat, m: Moments, agent: Id, scope: Scope, page: seq<Event>, d: Delivery)
    requires InOrder(m, lo, trace) && d in Eligible(page, ReaderAt(trace, m, lo, agent, scope))
    ensures d.event in page && d.event.actor != agent && scope.Accepts(d.reason)
    ensures d.reason == Participating <==> HoldsIn(trace[m.part], agent, TakesPart(d.event.thread))
    ensures d.reason == Watching ==> HoldsIn(trace[m.watch], agent, WatchesThread(d.event.thread))
    ensures d.reason == WatchedSubforum ==>
              !HoldsIn(trace[m.watch], agent, WatchesThread(d.event.thread)) &&
              HoldsIn(trace[m.subs], agent, WatchesSubforum(d.event.subforum))
  {}

  /** What one pass delivers, exactly: an event of the page by another actor for which each table is
      asked as of its own read. */
  lemma DeliveredIff(trace: seq<Db>, lo: nat, m: Moments, agent: Id, page: seq<Event>, e: Event)
    requires InOrder(m, lo, trace) && e in page
    ensures (exists d | d in Eligible(page, ReaderAt(trace, m, lo, agent, FULL_SCOPE)) :: d.event == e) <==>
            e.actor != agent &&
            (HoldsIn(trace[m.part], agent, TakesPart(e.thread)) ||
             HoldsIn(trace[m.watch], agent, WatchesThread(e.thread)) ||
             (e.subforum != "" && HoldsIn(trace[m.subs], agent, WatchesSubforum(e.subforum))))
  {
    var r := ReaderAt(trace, m, lo, agent, FULL_SCOPE);
    EligibleMembers(page, r);
    hide Eligible;
    if r.Takes(e) { assert Delivery(e, r.Reason(e).reason) in Eligible(page, r); }
  }

  ghost predicate Delivers(trace: seq<Db>, m: Moments, lo: nat, agent: Id, page: seq<Event>, e: Event)
    requires InOrder(m, lo, trace)
  {
    exists d | d in Eligible(page, ReaderAt(trace, m, lo, agent, FULL_SCOPE)) :: d.event == e
  }

  /** The first table says no at i, the second at j and the third at k. */
  predicate PassedOver(trace: seq<Db>, lo: nat, agent: Id, e: Event, i: nat, j: nat, k: nat) {
    lo <= i <= j <= k < |trace| &&
    !HoldsIn(trace[i], agent, TakesPart(e.thread)) && !HoldsIn(trace[j], agent, WatchesThread(e.thread)) &&
    !(e.subforum != "" && HoldsIn(trace[k], agent, WatchesSubforum(e.subforum)))
  }

  /** When a page delivers another's event whatever the moments of the three reads: if and only if the
      history has no three moments, in the order of the reads, at which each table in turn says no. */
  lemma DeliveredAtAnyMoment(trace: seq<Db>, lo: nat, agent: Id, page: seq<Event>, e: Event)
    requires lo < |trace| && e in page && e.actor != agent
    ensures (forall m | InOrder(m, lo, trace) :: Delivers(trace, m, lo, agent, page, e)) <==>
            !exists i, j, k :: PassedOver(trace, lo, agent, e, i, j, k)
  {
    forall m | InOrder(m, lo, trace)
      ensures Delivers(trace, m, lo, agent, page, e) <==> !PassedOver(trace, lo, agent, e, m.part, m.watch, m.subs)
    {
      DeliveredIff(trace, lo, m, agent, page, e);
    }
    hide Delivers, HoldsIn;
    if i: nat, j: nat, k: nat :| PassedOver(trace, lo, agent, e, i, j, k) {
      var m := Moments(lo, i, j, k);
      assert InOrder(m, lo, trace);
    }
  }

  /** Why one fixed relation is needed. A watcher posts in the thread and then unwatches it, two writes
      between the first read of a pass and the second: the agent is related to the thread in every state
      of the run, and yet the event, which was there all along, is passed over. */
  lemma SwitchedRelationMissed(db: Db, agent: Id, p: Post, page: seq<Event>, e: Event)
    requires e in db.events && e in page && e.actor != agent && e.thread == p.thread && p.author == agent &&
      PostFits(db, p)
    requires (agent, e.thread) in db.watches && (agent, e.thread) !in db.participants
    requires (agent, e.subforum) !in db.subforumWatches
    ensures var checked := Forum.Checked(p, db.threads[p.thread].subforum);
            var posted := Forum.NextDb(Forum.State(db, {checked}), Forum.CommitPost(checked));
            var unwatched := Forum.NextDb(Forum.State(posted, {}), Forum.UnwatchThread(agent, e.thread));
            var trace, m := [db, posted, unwatched], Moments(0, 0, 2, 2);
            HoldsIn(db, agent, WatchesThread(e.thread)) && HoldsIn(posted, agent, WatchesThread(e.thread)) &&
            HoldsIn(posted, agent, TakesPart(e.thread)) && HoldsIn(unwatched, agent, TakesPart(e.thread)) &&
            InOrder(m, 0, trace) && !Delivers(trace, m, 0, agent, page, e)
  {
    hide ReindexedTerms, Eligible;
    var posted := WithPost(db, p, db.threads[p.thread].subforum);
    var unwatched := posted.(watches := posted.watches - {(agent, e.thread)});
    assert (agent, e.thread) in db.watches && (agent, e.thread) in posted.watches;
    assert (agent, e.thread) in posted.participants && (agent, e.thread) in unwatched.participants;
    DeliveredIff([db, posted, unwatched], 0, Moments(0, 0, 2, 2), agent, page, e);
  }

  /** The events counted so far lie between the start and the cursor. */
  ghost predicate Counted(log: seq<Event>, from: int, to: int, n: nat) {
    from <= to && n + |After(log, to)| <= |After(log, from)|
  }

  lemma CountGrows(log: seq<Event>, log': seq<Event>, from: int, to: int, n: nat)
    requires log <= log' && Forum.Ascending(log') && Counted(log, from, to, n)
    ensures Counted(log', from, to, n)
    ensures |After(log', to)| <= |After(log, to)| + |log'| - |log|
  {
    assert log' == log + log'[|log|..];
    GrowthSeen(log, log'[|log|..], from, to);
    AfterGrows(log, log'[|log|..], to);
  }

  /** A page is counted once. */
  lemma PageCounts(log: seq<Event>, seen: seq<Event>, log': seq<Event>, from: int, to: int, page: seq<Event>, n: nat)
    requires log <= seen <= log' && Forum.Ascending(log') && Forum.Ascending(seen) && Counted(log, from, to, n)
    requires page == Inbox.ListEventsAfter(seen, to, PAGE_SIZE)
    ensures Counted(log', from, Advance(page, to), n + |page|)
    ensures |After(log', Advance(page, to))| + |page| <= |After(log, to)| + |log'| - |log|
  {
    CountGrows(log, seen, from, to, n);
    AfterPage(seen, to, page);
    CountGrows(seen, log', from, Advance(page, to), n + |page|);
  }

  /** While the world stands still, the loop is the functional poll. */
  ghost predicate Agrees(trace: seq<Db>, lo: nat, agent: Id, opts: Options, cursor: int)
    requires lo < |trace| && Forum.Ascending(trace[lo].events)
  {
    Frozen(trace, lo, agent) ==>
      var r := ReaderIn(trace[lo], agent, ScopeOf(opts.scope));
      PollOnce(trace[lo].events, r, cursor, PAGE_SIZE) == PollOnce(trace[lo].events, r, opts.cursor, PAGE_SIZE)
  }

  lemma FrozenEarlier(trace: seq<Db>, trace': seq<Db>, lo: nat, agent: Id)
    requires trace <= trace' && lo < |trace| && Frozen(trace', lo, agent)
    ensures Frozen(trace, lo, agent)
  {}

  /** One pass on a frozen world is one step of the functional poll. */
  lemma PassAgrees(trace: seq<Db>, lo: nat, lo': nat, m: Moments, agent: Id, scope: Scope, cursor: int,
      page: seq<Event>)
    requires lo <= lo' && InOrder(m, lo', trace) && Frozen(trace, lo, agent) && Forum.Ascending(trace[lo].events)
    requires page == Inbox.ListEventsAfter(trace[m.page].events, cursor, PAGE_SIZE)
    ensures var r := ReaderIn(trace[lo], agent, scope);
            var eligible := Eligible(page, ReaderAt(trace, m, lo', agent, scope));
            var next := Advance(page, cursor);
            PollOnce(trace[lo].events, r, cursor, PAGE_SIZE) ==
            if eligible != [] then Polled(eligible, next)
            else if |page| < PAGE_SIZE then Polled([], next)
            else PollOnce(trace[lo].events, r, next, PAGE_SIZE)
    ensures |page| < PAGE_SIZE ==>
              PollOnce(trace[lo].events, ReaderIn(trace[lo], agent, scope), Advance(page, cursor), PAGE_SIZE) ==
              Polled([], Advance(page, cursor))
  {
    hide Eligible, HoldsIn;
    var log, r := trace[lo].events, ReaderIn(trace[lo], agent, scope);
    assert trace[m.page].events == log;
    assert ReaderIn(trace[m.part], agent, FULL_SCOPE).part == r.part;
    assert ReaderIn(trace[m.watch], agent, FULL_SCOPE).watch == r.watch;
    assert ReaderIn(trace[m.subs], agent, FULL_SCOPE).subs == r.subs;
    assert ReaderAt(trace, m, lo', agent, scope) == r;
    if |page| < PAGE_SIZE {
      NothingBeyond(log, r, cursor, page);
    }
  }

  lemma NothingBeyond(log: seq<Event>, r: Reader, cursor: int, page: seq<Event>)
    requires Forum.Ascending(log) && page == After(log, cursor)
    ensures PollOnce(log, r, Advance(page, cursor), PAGE_SIZE) == Polled([], Advance(page, cursor))
  {
    AfterPage(log, cursor, page);
    assert page + After(log, Advance(page, cursor)) == page;
  }

  /** sleepCtx: may be cut short by cancellation; a non-positive duration does not sleep. */
  method SleepCtx(w: World, ticks: int) returns (ok: bool)
    requires w.Valid()
    modifies w, w.store
    ensures w.Valid() && old(w.trace) <= w.trace && old(w.now) <= w.now
    ensures |w.store.db.events| + w.budget == |old(w.store.db.events)| + old(w.budget)
    ensures ok && ticks > 0 ==> old(w.now) + ticks <= w.now
  {
    if ticks <= 0 { return true; }
    ok := *;
    if ok { w.Spend(ticks); } else { w.Interfere(); }
  }

  /** Sleeping passes are spaced by the interval and one tick, until the deadline. */
  ghost predicate Timed(start: int, wait: int, now: int, slept: nat) {
    start <= now && slept <= CeilDiv(wait, POLL_INTERVAL) &&
    (slept == 0 || start + slept * (POLL_INTERVAL + 1) <= now || start + wait <= now)
  }

  lemma SleepTimed(start: int, wait: int, before: int, check: int, read: int, after: int, slept: nat)
    requires Timed(start, wait, before, slept) && wait > 0
    requires before + 1 <= check <= start + wait && check <= read <= after
    requires var remaining := start + wait - read;
             var ticks := if remaining < POLL_INTERVAL then remaining else POLL_INTERVAL;
             ticks > 0 ==> read + ticks <= after
    ensures Timed(start, wait, after, slept + 1)
  {}

  /** What the loop keeps, apart from time. */
  ghost predicate Progress(trace: seq<Db>, lo: nat, log: seq<Event>, agent: Id, opts: Options, cursor: int, full: nat)
    requires lo < |trace| && Forum.Ascending(trace[lo].events)
  {
    Reached(log, opts.cursor, cursor) &&
    Counted(log, opts.cursor, cursor, PAGE_SIZE * full) &&
    (ScopeOf(opts.scope) == FULL_SCOPE ==> NothingMissed(trace, lo, log, agent, opts.cursor, cursor, [])) &&
    Agrees(trace, lo, agent, opts, cursor)
  }

  lemma ProgressGrows(trace: seq<Db>, trace': seq<Db>, lo: nat, log: seq<Event>, log': seq<Event>, agent: Id,
      opts: Options, cursor: int, full: nat)
    requires lo < |trace| && Forum.Ascending(trace[lo].events) && trace <= trace' && log <= log' &&
      Forum.Ascending(log')
    requires Progress(trace, lo, log, agent, opts, cursor, full)
    ensures Progress(trace', lo, log', agent, opts, cursor, full)
    ensures |After(log', cursor)| <= |After(log, cursor)| + |log'| - |log|
  {
    hide Counted, NothingMissed, Frozen, PollOnce, After, ScopeOf;
    CountGrows(log, log', opts.cursor, cursor, PAGE_SIZE * full);
    if ScopeOf(opts.scope) == FULL_SCOPE { SettledStays(trace, trace', lo, log, log', agent, opts.cursor, cursor); }
    AgreesStays(trace, trace', lo, agent, opts, cursor);
    hide Agrees;
    ReachedGrows(log, log', opts.cursor, cursor);
  }

  lemma AgreesStays(trace: seq<Db>, trace': seq<Db>, lo: nat, agent: Id, opts: Options, cursor: int)
    requires lo < |trace| && Forum.Ascending(trace[lo].events) && trace <= trace' &&
      Agrees(trace, lo, agent, opts, cursor)
    ensures Forum.Ascending(trace'[lo].events) && Agrees(trace', lo, agent, opts, cursor)
  {}

  lemma ReachedGrows(log: seq<Event>, log': seq<Event>, from: int, to: int)
    requires log <= log' && Forum.Ascending(log') && Reached(log, from, to)
    ensures Reached(log', from, to)
  {}

  /** One pass: what it delivers, what it leaves, and what it costs. */
  lemma PassProgress(trace: seq<Db>, trace': seq<Db>, lo: nat, m: Moments, agent: Id, opts: Options, cursor: int,
      full: nat, page: seq<Event>)
    requires lo < |trace| && trace <= trace' && Forum.Ascending(trace[lo].events)
    requires forall i | 0 <= i < |trace'| :: trace'[i].events <= trace'[|trace'| - 1].events
    requires InOrder(m, |trace| - 1, trace') && Forum.Ascending(trace'[|trace'| - 1].events)
    requires trace[|trace| - 1].events <= trace'[m.page].events
    requires page == Inbox.ListEventsAfter(trace'[m.page].events, cursor, PAGE_SIZE)
    requires Progress(trace, lo, trace[|trace| - 1].events, agent, opts, cursor, full)
    ensures var log, log' := trace[|trace| - 1].events, trace'[|trace'| - 1].events;
            var next := Advance(page, cursor);
            var eligible := Eligible(page, ReaderAt(trace', m, |trace| - 1, agent, ScopeOf(opts.scope)));
            opts.cursor <= next &&
            |After(log', next)| + |page| <= |After(log, cursor)| + |log'| - |log| &&
            Counted(log', opts.cursor, next, PAGE_SIZE * full + |page|) &&
            Reached(log', opts.cursor, next) &&
            (ScopeOf(opts.scope) == FULL_SCOPE ==>
              NothingMissed(trace', lo, log', agent, opts.cursor, next, eligible)) &&
            (eligible == [] ==> Agrees(trace', lo, agent, opts, next)) &&
            (Frozen(trace', lo, agent) && (eligible != [] || |page| < PAGE_SIZE) ==>
              PollOnce(trace'[lo].events, ReaderIn(trace'[lo], agent, ScopeOf(opts.scope)), opts.cursor,
                PAGE_SIZE) == Polled(eligible, next))
  {
    hide Counted, NothingMissed, Frozen, PollOnce, After, ScopeOf, Reached, Eligible, Inbox.ListEventsAfter,
      ReaderAt, ReaderIn, Advance, Forum.Ascending;
    var log, seen, log' := trace[|trace| - 1].events, trace'[m.page].events, trace'[|trace'| - 1].events;
    var next := Advance(page, cursor);
    AscendingPrefix(seen, log');
    PageCounts(log, seen, log', opts.cursor, cursor, page, PAGE_SIZE * full);
    PassReaches(log, seen, log', opts.cursor, cursor, page);
    CountedOrder(log', opts.cursor, next, PAGE_SIZE * full + |page|);
    if ScopeOf(opts.scope) == FULL_SCOPE {
      SettledStays(trace, trace', lo, log, log', agent, opts.cursor, cursor);
      PassMisses(trace', lo, |trace| - 1, m, agent, opts.cursor, cursor, page);
    }
    if Frozen(trace', lo, agent) {
      FrozenEarlier(trace, trace', lo, agent);
      assert trace'[lo] == trace[lo];
      PassAgrees(trace', lo, |trace| - 1, m, agent, ScopeOf(opts.scope), cursor, page);
    }
  }

  lemma AscendingPrefix(seen: seq<Event>, log: seq<Event>)
    requires seen <= log && Forum.Ascending(log)
    ensures Forum.Ascending(seen)
  {}

  lemma CountedOrder(log: seq<Event>, from: int, to: int, n: nat)
    requires Counted(log, from, to, n)
    ensures from <= to && n <= |After(log, from)|
  {}

  lemma PassReaches(log: seq<Event>, seen: seq<Event>, log': seq<Event>, from: int, cursor: int, page: seq<Event>)
    requires log <= seen <= log' && Forum.Ascending(log') && Reached(log, from, cursor)
    requires page == Inbox.ListEventsAfter(seen, cursor, PAGE_SIZE)
    ensures Reached(log', from, Advance(page, cursor))
  {
    PageSaw(seen, log', cursor, page);
    if log != [] { assert log'[|log| - 1] == log[|log| - 1]; }
  }

  /** The pass adds its own deliveries to a poll that missed nothing so far. */
  lemma PassMisses(trace: seq<Db>, lo: nat, lo': nat, m: Moments, agent: Id, from: int, cursor: int, page: seq<Event>)
    requires lo <= lo' && InOrder(m, lo', trace) && Forum.Ascending(trace[|trace| - 1].events)
    requires trace[m.page].events <= trace[|trace| - 1].events
    requires page == Inbox.ListEventsAfter(trace[m.page].events, cursor, PAGE_SIZE)
    requires NothingMissed(trace, lo, trace[|trace| - 1].events, agent, from, cursor, [])
    ensures NothingMissed(trace, lo, trace[|trace| - 1].events, agent, from, Advance(page, cursor),
                          Eligible(page, ReaderAt(trace, m, lo', agent, FULL_SCOPE)))
  {
    hide NothingMissed, Eligible, Inbox.ListEventsAfter, Advance;
    PassDelivers(trace, lo, m, agent, cursor, page);
    assert ReaderAt(trace, m, lo', agent, FULL_SCOPE) == ReaderAt(trace, m, lo, agent, FULL_SCOPE);
    MissesJoin(trace, lo, trace[|trace| - 1].events, agent, from, cursor, Advance(page, cursor),
               Eligible(page, ReaderAt(trace, m, lo, agent, FULL_SCOPE)));
  }

  /** One pass of the loop, the cursor moved past everything examined. */
  method PollPass(w: World, agent: Id, opts: Options, rs: Scope, cursor: int, ghost lo: nat, ghost full: nat)
    returns (ok: bool, count: nat, eligible: seq<Delivery>, next: int, ghost m: Moments)
    requires w.Valid() && lo < |w.trace| && Forum.Ascending(w.trace[lo].events) && rs == ScopeOf(opts.scope)
    requires Progress(w.trace, lo, w.store.db.events, agent, opts, cursor, full)
    modifies w, w.store
    ensures w.Valid() && old(w.trace) <= w.trace && old(w.now) + 1 <= w.now && InOrder(m, |old(w.trace)| - 1, w.trace)
    ensures !ok ==> next == cursor && eligible == [] && opts.cursor <= next
    ensures PAGE_SIZE * full <= |After(w.store.db.events, opts.cursor)| && opts.cursor <= next
    ensures ok ==> w.Potential(next) + count <= old(w.Potential(cursor))
    ensures ok && eligible == [] ==> Progress(w.trace, lo, w.store.db.events, agent, opts, next, full)
    ensures ok && eligible == [] && count >= PAGE_SIZE ==>
              Progress(w.trace, lo, w.store.db.events, agent, opts, next, full + 1)
    ensures rs == FULL_SCOPE ==> NothingMissed(w.trace, lo, w.store.db.events, agent, opts.cursor, next, eligible)
    ensures eligible != [] ==>
              eligible == Eligible(Inbox.ListEventsAfter(w.trace[m.page].events, cursor, PAGE_SIZE),
                                   ReaderAt(w.trace, m, |old(w.trace)| - 1, agent, rs)) &&
              next == Advance(Inbox.ListEventsAfter(w.trace[m.page].events, cursor, PAGE_SIZE), cursor)
    ensures ok && Frozen(w.trace, lo, agent) && (eligible != [] || count < PAGE_SIZE) ==>
              PollOnce(w.trace[lo].events, ReaderIn(w.trace[lo], agent, rs), opts.cursor, PAGE_SIZE) ==
                Polled(eligible, next)
  {
    hide Eligible, Inbox.ListEventsAfter, After, PollOnce, NothingMissed, Frozen, Counted, Agrees, ScopeOf, Progress,
      Forum.Ascending, Reached, ReaderIn;
    ghost var trace0 := w.trace;
    var page;
    ok, page, eligible, m := Pass(w, agent, rs, cursor);
    count, next := |page|, cursor;
    if !ok {
      eligible := [];
      ProgressGrows(trace0, w.trace, lo, trace0[|trace0| - 1].events, w.store.db.events, agent, opts, cursor, full);
      ProgressMeans(w.trace, lo, w.store.db.events, agent, opts, cursor, full);
      return;
    }
    PassProgress(trace0, w.trace, lo, m, agent, opts, cursor, full, page);
    if |page| > 0 {
      next := page[|page| - 1].sequence;
    }
    CountedOrder(w.store.db.events, opts.cursor, next, PAGE_SIZE * full + |page|);
    if eligible == [] {
      ProgressOf(w.trace, lo, w.store.db.events, agent, opts, next, full, |page|);
    }
  }

  /** The wait of a pass that is caught up. */
  method Rest(w: World, agent: Id, opts: Options, cursor: int, deadline: int, ghost lo: nat, ghost work: Work,
      ghost start: int, ghost before: int)
    returns (ok: bool)
    requires w.Valid() && lo < |w.trace| && Forum.Ascending(w.trace[lo].events)
    requires Progress(w.trace, lo, w.store.db.events, agent, opts, cursor, work.full)
    requires opts.wait > 0 && deadline == start + opts.wait && before + 1 <= w.now <= deadline
    requires Timed(start, opts.wait, before, work.slept)
    modifies w, w.store
    ensures w.Valid() && old(w.trace) <= w.trace
    ensures w.Potential(cursor) <= old(w.Potential(cursor))
    ensures Progress(w.trace, lo, w.store.db.events, agent, opts, cursor, work.full)
    ensures ok ==> Timed(start, opts.wait, w.now, work.slept + 1)
  {
    hide Eligible, After, PollOnce, NothingMissed, Frozen, Counted, Agrees, ScopeOf, Progress, Timed,
      Forum.Ascending, Reached;
    ghost var trace0, log0, now0 := w.trace, w.store.db.events, w.now;
    w.Spend(0);
    ghost var now1 := w.now;
    var sleep := POLL_INTERVAL;
    var remaining := deadline - w.now;
    if remaining < sleep { sleep := remaining; }
    ok := SleepCtx(w, sleep);
    ProgressGrows(trace0, w.trace, lo, log0, w.store.db.events, agent, opts, cursor, work.full);
    if ok { SleepTimed(start, opts.wait, before, now0, now1, w.now, work.slept); }
  }

  /** PollEvents. Whatever writers do meanwhile: with the default scope, every event by another actor
      between the cursors that stayed relevant by one relation from start to end is in the batch; a
      batch is the filter of one page with the tables as they stood when they were read, and the cursor is
      moved to that page's end; an empty answer comes only after the whole wait; on a world that stands
      still it is the functional poll; and the passes are bounded. */
  method PollEvents(w: World, agent: Id, opts: Options)
    returns (r: PollResult, ghost m: Moments, ghost from: int, ghost work: Work)
    requires w.Valid()
    modifies w, w.store
    ensures w.Valid() && old(w.trace) <= w.trace
    ensures opts.cursor <= r.next
    ensures ScopeOf(opts.scope) == FULL_SCOPE ==>
              NothingMissed(w.trace, |old(w.trace)| - 1, w.store.db.events, agent, opts.cursor, r.next, r.Events())
    ensures InOrder(m, |old(w.trace)| - 1, w.trace)
    ensures r.Events() != [] ==>
              r.Events() == Eligible(Inbox.ListEventsAfter(w.trace[m.page].events, from, 500),
                                     ReaderAt(w.trace, m, |old(w.trace)| - 1, agent, ScopeOf(opts.scope))) &&
              opts.cursor <= from &&
              r.next == Advance(Inbox.ListEventsAfter(w.trace[m.page].events, from, 500), from)
    ensures r.Ok? && r.events == [] && opts.wait > 0 ==> old(w.now) + opts.wait < w.now
    ensures r.Ok? && Frozen(w.trace, |old(w.trace)| - 1, agent) ==>
              Polled(r.events, r.next) ==
              PollOnce(old(w.store.db.events), ReaderIn(old(w.store.db), agent, ScopeOf(opts.scope)),
                       opts.cursor, 500)
    ensures work.passes <= work.full + work.slept + 1
    ensures work.full * 500 <= |After(w.store.db.events, opts.cursor)|
    ensures work.slept > 0 ==> (work.slept - 1) * 200_000_000 < opts.wait
  {
    hide Eligible, Inbox.ListEventsAfter, After, PollOnce, NothingMissed, Frozen, Counted, Agrees, ScopeOf, Progress,
      Timed,
      Forum.Ascending, Reached, CeilDiv, ReaderIn, Advance;
    var rs := ParseScope(opts.scope);
    var cursor := opts.cursor;
    var deadline := w.now;
    if opts.wait > 0 { deadline := deadline + opts.wait; }
    ghost var lo, start := |w.trace| - 1, w.now;
    work, from, m := Work(0, 0, 0), cursor, Moments(lo, lo, lo, lo);
    PollStarts(w.trace, lo, w.store.db.events, agent, opts, start);
    while true
      invariant w.Valid() && old(w.trace) <= w.trace && w.trace[lo] == old(w.store.db)
      invariant Progress(w.trace, lo, w.store.db.events, agent, opts, cursor, work.full)
      invariant Timed(start, opts.wait, w.now, work.slept) && work.passes == work.full + work.slept
      decreases w.Potential(cursor) + CeilDiv(opts.wait, POLL_INTERVAL) - work.slept
    {
      ghost var now0 := w.now;
      TimedBound(start, opts.wait, now0, work.slept);
      var ok, count, eligible;
      from := cursor;
      ProgressMeans(w.trace, lo, w.store.db.events, agent, opts, cursor, work.full);
      ok, count, eligible, cursor, m := PollPass(w, agent, opts, rs, cursor, lo, work.full);
      work := work.(passes := work.passes + 1);
      if !ok {
        return Failed(cursor), m, from, work;
      }
      if |eligible| > 0 {
        return Ok(eligible, cursor), m, from, work;
      }
      if count < PAGE_SIZE {
        if opts.wait <= 0 || w.now > deadline {
          return Ok([], cursor), m, from, work;
        }
        ok := Rest(w, agent, opts, cursor, deadline, lo, work, start, now0);
        if !ok {
          ProgressMeans(w.trace, lo, w.store.db.events, agent, opts, cursor, work.full);
          return Failed(cursor), m, from, work;
        }
        TimedBound(start, opts.wait, w.now, work.slept + 1);
        work := work.(slept := work.slept + 1);
      } else {
        TimedLater(start, opts.wait, now0, w.now, work.slept);
        work := work.(full := work.full + 1);
      }
    }
  }

  lemma ProgressMeans(trace: seq<Db>, lo: nat, log: seq<Event>, agent: Id, opts: Options, cursor: int, full: nat)
    requires lo < |trace| && Forum.Ascending(trace[lo].events) && Progress(trace, lo, log, agent, opts, cursor, full)
    ensures opts.cursor <= cursor && PAGE_SIZE * full <= |After(log, opts.cursor)|
    ensures ScopeOf(opts.scope) == FULL_SCOPE ==> NothingMissed(trace, lo, log, agent, opts.cursor, cursor, [])
  {}

  lemma ProgressOf(trace: seq<Db>, lo: nat, log: seq<Event>, agent: Id, opts: Options, cursor: int, full: nat,
      page: nat)
    requires lo < |trace| && Forum.Ascending(trace[lo].events)
    requires Reached(log, opts.cursor, cursor) && Counted(log, opts.cursor, cursor, PAGE_SIZE * full + page)
    requires ScopeOf(opts.scope) == FULL_SCOPE ==> NothingMissed(trace, lo, log, agent, opts.cursor, cursor, [])
    requires Agrees(trace, lo, agent, opts, cursor)
    ensures Progress(trace, lo, log, agent, opts, cursor, full)
    ensures page >= PAGE_SIZE ==> Progress(trace, lo, log, agent, opts, cursor, full + 1)
  {}

  lemma TimedBound(start: int, wait: int, now: int, slept: nat)
    requires Timed(start, wait, now, slept)
    ensures slept <= CeilDiv(wait, POLL_INTERVAL) && (slept > 0 ==> (slept - 1) * POLL_INTERVAL < wait)
  {}

  lemma TimedLater(start: int, wait: int, now: int, later: int, slept: nat)
    requires Timed(start, wait, now, slept) && now <= later
    ensures Timed(start, wait, later, slept)
  {}

  lemma PollStarts(trace: seq<Db>, lo: nat, log: seq<Event>, agent: Id, opts: Options, start: int)
    requires lo < |trace| && Forum.Ascending(trace[lo].events)
    ensures Progress(trace, lo, log, agent, opts, opts.cursor, 0)
    ensures Timed(start, opts.wait, start, 0)
  {}
}
