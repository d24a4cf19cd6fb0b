/**
 The forum as a state machine: writers commit transactions one at a time, and a reply is checked
 against one database state and committed to a later one. What every reachable state keeps.
 */
module Forum {
  import opened Strings
  import opened Metadata
  import opened Tables

  /** A reply that CreatePost has validated and not yet committed, with the subforum it read. */
  datatype Checked = Checked(post: Post, subforum: string)

  datatype State = State(db: Db, waiting: set<Checked>)

  datatype Step =
    | RegisterAgent(agent: Id)
    | CreateSubforum(key: string)
    | CommitThread(th: Thread, opening: Post, watch: bool)
    | CheckPost(post: Post)
    | CommitPost(checked: Checked)
    | WatchThread(agent: Id, thread: Id)
    | UnwatchThread(agent: Id, thread: Id)
    | WatchSubforum(agent: Id, key: string)
    | UnwatchSubforum(agent: Id, key: string)
    | AckEvents(agent: Id, through: int)
    | SaveRecord(key: string, record: Record)

  /** How service.CreateThread builds the two rows, after validating both metadata trees. */
  predicate BuiltByService(th: Thread, p: Post) {
    p.thread == th.id && p.author == th.creator && p.createdAt == th.createdAt && p.replyTo == "" &&
    Accepted(Obj(th.metadata)) && Accepted(Obj(p.metadata))
  }

  /** The checks of service.CreatePost: the thread exists and reply_to names a post in it. */
  predicate ReplyChecks(db: Db, p: Post) {
    Accepted(Obj(p.metadata)) && p.thread in db.threads &&
    (p.replyTo != "" ==> Named(db.posts, |db.posts|, p.replyTo, p.thread))
  }

  /** A transaction whose keys do not fit aborts and changes nothing. */
  ghost function NextDb(s: State, step: Step): Db {
    var db := s.db;
    match step
    case RegisterAgent(a) => db.(agents := db.agents + {a})
    case CreateSubforum(k) => db.(subforums := db.subforums + {k})
    case CommitThread(th, p, watch) =>
      if BuiltByService(th, p) && ThreadFits(db, th, p) then WithThread(db, th, p, watch) else db
    case CheckPost(p) => db
    case CommitPost(c) =>
      if c in s.waiting && PostFits(db, c.post) then WithPost(db, c.post, c.subforum) else db
    case WatchThread(a, t) =>
      if a in db.agents && t in db.threads then db.(watches := db.watches + {(a, t)}) else db
    case UnwatchThread(a, t) => db.(watches := db.watches - {(a, t)})
    case WatchSubforum(a, k) =>
      if a in db.agents && k in db.subforums then db.(subforumWatches := db.subforumWatches + {(a, k)}) else db
    case UnwatchSubforum(a, k) => db.(subforumWatches := db.subforumWatches - {(a, k)})
    case AckEvents(a, n) => db.(acks := db.acks[a := n])
    case SaveRecord(k, r) => db.(idempotency := db.idempotency[k := r])
  }

  ghost function Next(s: State, step: Step): State {
    State(NextDb(s, step),
          if step.CheckPost? && ReplyChecks(s.db, step.post)
          then s.waiting + {Checked(step.post, s.db.threads[step.post.thread].subforum)} else s.waiting)
  }

  ghost function Run(steps: seq<Step>): State {
    if steps == [] then State(EMPTY_DB, {}) else Next(Run(steps[..|steps| - 1]), steps[|steps| - 1])
  }

  // ---------------------------------------------------------------- invariants

  type Threads = map<Id, Thread>

  ghost predicate ThreadsFit(threads: Threads) {
    forall t | t in threads :: threads[t].id == t && Accepted(Obj(threads[t].metadata))
  }

  predicate IdsUnique(posts: seq<Post>) {
    forall i, j | 0 <= i < j < |posts| :: posts[i].id != posts[j].id
  }

  ghost predicate PostsInThreads(threads: Threads, posts: seq<Post>) {
    forall i | 0 <= i < |posts| :: posts[i].thread in threads && Accepted(Obj(posts[i].metadata))
  }

  /** Among the first n posts, one of this thread has this id. */
  predicate Named(posts: seq<Post>, n: nat, id: Id, thread: Id)
    requires n <= |posts|
  {
    exists j | 0 <= j < n :: posts[j].id == id && posts[j].thread == thread
  }

  /** A reply names an earlier post of its own thread. */
  predicate RepliesPointBack(posts: seq<Post>) {
    forall i | 0 <= i < |posts| && posts[i].replyTo != "" :: Named(posts, i, posts[i].replyTo, posts[i].thread)
  }

  /** The index of the last inserted post of a thread, -1 if none. */
  function LastInThread(posts: seq<Post>, thread: Id): (i: int)
    ensures -1 <= i < |posts|
    ensures i >= 0 ==> posts[i].thread == thread
    ensures forall j | i < j < |posts| :: posts[j].thread != thread
  {
    if posts == [] then -1
    else if posts[|posts| - 1].thread == thread then |posts| - 1
    else LastInThread(posts[..|posts| - 1], thread)
  }

  /** The index of the last inserted post of an author in a thread, -1 if none. */
  function LastByAuthor(posts: seq<Post>, author: Id, thread: Id): (i: int)
    ensures -1 <= i < |posts|
    ensures i >= 0 ==> posts[i].thread == thread && posts[i].author == author
    ensures forall j | i < j < |posts| :: !(posts[j].thread == thread && posts[j].author == author)
  {
    if posts == [] then -1
    else if posts[|posts| - 1].thread == thread && posts[|posts| - 1].author == author then |posts| - 1
    else LastByAuthor(posts[..|posts| - 1], author, thread)
  }

  /** updated_at is the created_at of the most recently inserted post; every thread has one. */
  ghost predicate ThreadsUpToDate(threads: Threads, posts: seq<Post>) {
    forall t | t in threads ::
      LastInThread(posts, t) >= 0 && threads[t].updatedAt == posts[LastInThread(posts, t)].createdAt
  }

  ghost predicate ParticipantExact(participants: map<(Id, Id), Stamp>, posts: seq<Post>, a: Id, t: Id) {
    var last := LastByAuthor(posts, a, t);
    ((a, t) in participants <==> last >= 0) && (last >= 0 ==> participants[(a, t)] == posts[last].createdAt)
  }

  /** participants holds exactly the authors of posts, with the time of their last insertion. */
  ghost predicate ParticipantsExact(participants: map<(Id, Id), Stamp>, posts: seq<Post>) {
    forall a, t :: ParticipantExact(participants, posts, a, t)
  }

  ghost predicate CreatorsTakePart(threads: Threads, participants: map<(Id, Id), Stamp>) {
    forall t | t in threads :: (threads[t].creator, t) in participants
  }

  predicate Ascending(events: seq<Event>) {
    forall i, j | 0 <= i < j < |events| :: events[i].sequence < events[j].sequence
  }

  predicate OfThread(e: Event, th: Thread) {
    e.kind == ThreadCreated && e.thread == th.id && e.post == "" &&
    e.actor == th.creator && e.subforum == th.subforum && e.createdAt == th.createdAt
  }

  predicate OfPost(e: Event, p: Post, subforum: string) {
    e.kind == PostCreated && e.post == p.id && e.thread == p.thread &&
    e.actor == p.author && e.subforum == subforum && e.createdAt == p.createdAt
  }

  ghost predicate SomePostOf(e: Event, posts: seq<Post>, subforum: string) {
    exists j | 0 <= j < |posts| :: OfPost(e, posts[j], subforum)
  }

  /** Every event is the creation of the thread or post it names, with the matching actor and subforum. */
  ghost predicate EventsDescribe(threads: Threads, posts: seq<Post>, events: seq<Event>) {
    forall i | 0 <= i < |events| ::
      events[i].thread in threads &&
      (events[i].kind == ThreadCreated ==> OfThread(events[i], threads[events[i].thread])) &&
      (events[i].kind == PostCreated ==> SomePostOf(events[i], posts, threads[events[i].thread].subforum))
  }

  predicate SameSubject(e: Event, f: Event) {
    e.kind == f.kind && match e.kind case ThreadCreated => e.thread == f.thread case PostCreated => e.post == f.post
  }

  /** No thread and no post is logged twice. */
  predicate EventsUnique(events: seq<Event>) {
    forall i, j | 0 <= i < j < |events| :: !SameSubject(events[i], events[j])
  }

  ghost predicate ThreadLogged(th: Thread, events: seq<Event>) {
    exists i | 0 <= i < |events| :: OfThread(events[i], th)
  }

  ghost predicate PostLogged(p: Post, subforum: string, events: seq<Event>) {
    exists i | 0 <= i < |events| :: OfPost(events[i], p, subforum)
  }

  /** Every thread and every post is logged. */
  ghost predicate EventsComplete(threads: Threads, posts: seq<Post>, events: seq<Event>) {
    (forall t | t in threads :: ThreadLogged(threads[t], events)) &&
    (forall j | 0 <= j < |posts| && posts[j].thread in threads ::
      PostLogged(posts[j], threads[posts[j].thread].subforum, events))
  }

  /** A thread's created event precedes all its post events. */
  predicate ThreadsLoggedFirst(events: seq<Event>) {
    forall i, j | 0 <= i < |events| && 0 <= j < |events| &&
      events[i].kind == ThreadCreated && events[j].kind == PostCreated && events[i].thread == events[j].thread ::
      i < j
  }

  ghost predicate LogMatches(threads: Threads, posts: seq<Post>, events: seq<Event>) {
    Ascending(events) && EventsDescribe(threads, posts, events) && EventsUnique(events) &&
    EventsComplete(threads, posts, events) && ThreadsLoggedFirst(events) &&
    |events| == |threads| + |posts|
  }

  ghost predicate PostIndexed(posts: seq<Post>, r: TermRow) {
    exists i | 0 <= i < |posts| ::
      posts[i].id == r.entityId && Term(r.key, r.value) in IndexTerms(Obj(posts[i].metadata))
  }

  /** The stored documents call for this index row. */
  ghost predicate Indexed(threads: Threads, posts: seq<Post>, r: TermRow) {
    (r.entityType == THREAD_ENTITY && r.entityId in threads &&
     Term(r.key, r.value) in IndexTerms(Obj(threads[r.entityId].metadata))) ||
    (r.entityType == POST_ENTITY && PostIndexed(posts, r))
  }

  ghost predicate IndexExact(threads: Threads, posts: seq<Post>, terms: set<TermRow>) {
    forall r :: r in terms <==> Indexed(threads, posts, r)
  }

  ghost predicate Inv(db: Db) {
    ThreadsFit(db.threads) && IdsUnique(db.posts) && PostsInThreads(db.threads, db.posts) &&
    RepliesPointBack(db.posts) && ThreadsUpToDate(db.threads, db.posts) &&
    ParticipantsExact(db.participants, db.posts) && CreatorsTakePart(db.threads, db.participants) &&
    LogMatches(db.threads, db.posts, db.events) && IndexExact(db.threads, db.posts, db.terms)
  }

  /** What a waiting reply was checked against still holds. */
  ghost predicate WaitingValid(s: State) {
    forall c | c in s.waiting :: ReplyChecks(s.db, c.post) && s.db.threads[c.post.thread].subforum == c.subforum
  }

  // ---------------------------------------------------------------- preservation

  lemma LastAfterPost(posts: seq<Post>, p: Post, a: Id, t: Id)
    ensures LastInThread(posts + [p], t) == if p.thread == t then |posts| else LastInThread(posts, t)
    ensures LastByAuthor(posts + [p], a, t) ==
            if p.thread == t && p.author == a then |posts| else LastByAuthor(posts, a, t)
  {}

  /** A fresh post, in a thread that is new or touched only in its updated_at. */
  lemma PostKeepsRows(threads: Threads, posts: seq<Post>, participants: map<(Id, Id), Stamp>, p: Post, th: Thread)
    requires ThreadsFit(threads) && IdsUnique(posts) && PostsInThreads(threads, posts) &&
      CreatorsTakePart(threads, participants)
    requires forall i | 0 <= i < |posts| :: posts[i].id != p.id
    requires Accepted(Obj(p.metadata)) && Accepted(Obj(th.metadata)) && th.id == p.thread
    requires p.thread in threads ==> th.creator == threads[p.thread].creator
    requires p.thread !in threads ==> th.creator == p.author
    ensures ThreadsFit(threads[p.thread := th])
    ensures IdsUnique(posts + [p])
    ensures PostsInThreads(threads[p.thread := th], posts + [p])
    ensures CreatorsTakePart(threads[p.thread := th], participants[(p.author, p.thread) := p.createdAt])
  {}

  lemma PostKeepsReplies(posts: seq<Post>, p: Post)
    requires RepliesPointBack(posts) && (p.replyTo != "" ==> Named(posts, |posts|, p.replyTo, p.thread))
    ensures RepliesPointBack(posts + [p])
  {
    var posts' := posts + [p];
    forall i | 0 <= i < |posts'| && posts'[i].replyTo != ""
      ensures Named(posts', i, posts'[i].replyTo, posts'[i].thread)
    {
      assert Named(posts, i, posts'[i].replyTo, posts'[i].thread);
      var j :| 0 <= j < i && posts[j].id == posts'[i].replyTo && posts[j].thread == posts'[i].thread;
      assert posts'[j] == posts[j];
    }
  }

  /** Storing a post and touching its thread, whether the thread is new or not. */
  lemma PostKeepsUpdatedAt(threads: Threads, posts: seq<Post>, p: Post, th: Thread)
    requires ThreadsUpToDate(threads, posts) && th.updatedAt == p.createdAt
    ensures ThreadsUpToDate(threads[p.thread := th], posts + [p])
  {}

  lemma PostKeepsParticipants(participants: map<(Id, Id), Stamp>, posts: seq<Post>, p: Post)
    requires ParticipantsExact(participants, posts)
    ensures ParticipantsExact(participants[(p.author, p.thread) := p.createdAt], posts + [p])
  {
    var participants' := participants[(p.author, p.thread) := p.createdAt];
    var posts' := posts + [p];
    forall a, t ensures ParticipantExact(participants', posts', a, t) {
      assert ParticipantExact(participants, posts, a, t);
      LastAfterPost(posts, p, a, t);
    }
  }

  lemma EventKeepsUnique(events: seq<Event>, e: Event)
    requires EventsUnique(events) && forall i | 0 <= i < |events| :: !SameSubject(events[i], e)
    ensures EventsUnique(events + [e])
  {}

  lemma PostStaysLogged(p: Post, subforum: string, events: seq<Event>, e: Event)
    requires PostLogged(p, subforum, events)
    ensures PostLogged(p, subforum, events + [e])
  {
    var i :| 0 <= i < |events| && OfPost(events[i], p, subforum);
    assert OfPost((events + [e])[i], p, subforum);
  }

  lemma ThreadStaysLogged(th: Thread, events: seq<Event>, e: Event)
    requires ThreadLogged(th, events)
    ensures ThreadLogged(th, events + [e])
  {
    var i :| 0 <= i < |events| && OfThread(events[i], th);
    assert OfThread((events + [e])[i], th);
  }

  lemma ThreadKeepsDescribed(threads: Threads, posts: seq<Post>, events: seq<Event>, th: Thread, e: Event)
    requires EventsDescribe(threads, posts, events) && th.id !in threads && OfThread(e, th)
    ensures EventsDescribe(threads[th.id := th], posts, events + [e])
    ensures forall i | 0 <= i < |events| :: events[i].thread != th.id
  {}

  lemma ThreadKeepsComplete(threads: Threads, posts: seq<Post>, events: seq<Event>, th: Thread, e: Event)
    requires EventsComplete(threads, posts, events) && PostsInThreads(threads, posts)
    requires th.id !in threads && OfThread(e, th)
    ensures EventsComplete(threads[th.id := th], posts, events + [e])
  {
    hide PostLogged;
    var threads', events' := threads[th.id := th], events + [e];
    forall t | t in threads' ensures ThreadLogged(threads'[t], events') {
      if t == th.id {
        assert OfThread(events'[|events|], th);
      } else {
        ThreadStaysLogged(threads[t], events, e);
      }
    }
    forall j | 0 <= j < |posts| ensures PostLogged(posts[j], threads'[posts[j].thread].subforum, events') {
      PostStaysLogged(posts[j], threads[posts[j].thread].subforum, events, e);
    }
  }

  lemma ThreadKeepsLog(threads: Threads, posts: seq<Post>, events: seq<Event>, th: Thread, e: Event)
    requires LogMatches(threads, posts, events) && PostsInThreads(threads, posts) && th.id !in threads
    requires OfThread(e, th) && e.sequence == NextSequence(events)
    ensures LogMatches(threads[th.id := th], posts, events + [e])
  {
    hide EventsDescribe, EventsComplete, EventsUnique, PostsInThreads;
    ThreadKeepsDescribed(threads, posts, events, th, e);
    ThreadKeepsComplete(threads, posts, events, th, e);
    EventKeepsUnique(events, e);
    assert |threads[th.id := th]| == |threads| + 1;
  }

  lemma PostKeepsDescribed(threads: Threads, posts: seq<Post>, events: seq<Event>, p: Post, e: Event)
    requires EventsDescribe(threads, posts, events)
    requires p.thread in threads && OfPost(e, p, threads[p.thread].subforum)
    ensures EventsDescribe(threads, posts + [p], events + [e])
  {
    var posts', events' := posts + [p], events + [e];
    forall i | 0 <= i < |events'| && events'[i].kind == PostCreated
      ensures SomePostOf(events'[i], posts', threads[events'[i].thread].subforum)
    {
      if i < |events| {
        var j :| 0 <= j < |posts| && OfPost(events[i], posts[j], threads[events[i].thread].subforum);
        assert OfPost(events'[i], posts'[j], threads[events[i].thread].subforum);
      } else {
        assert OfPost(e, posts'[|posts|], threads[p.thread].subforum);
      }
    }
  }

  lemma PostUnlogged(threads: Threads, posts: seq<Post>, events: seq<Event>, id: Id)
    requires EventsDescribe(threads, posts, events) && forall i | 0 <= i < |posts| :: posts[i].id != id
    ensures forall i | 0 <= i < |events| && events[i].kind == PostCreated :: events[i].post != id
  {}

  lemma PostKeepsComplete(threads: Threads, posts: seq<Post>, events: seq<Event>, p: Post, e: Event)
    requires EventsComplete(threads, posts, events) && PostsInThreads(threads, posts)
    requires p.thread in threads && OfPost(e, p, threads[p.thread].subforum)
    ensures EventsComplete(threads, posts + [p], events + [e])
  {
    hide ThreadLogged;
    var posts', events' := posts + [p], events + [e];
    forall t | t in threads ensures ThreadLogged(threads[t], events') {
      ThreadStaysLogged(threads[t], events, e);
    }
    forall j | 0 <= j < |posts'| ensures PostLogged(posts'[j], threads[posts'[j].thread].subforum, events') {
      if j < |posts| {
        PostStaysLogged(posts[j], threads[posts[j].thread].subforum, events, e);
      } else {
        assert OfPost(events'[|events|], p, threads[p.thread].subforum);
      }
    }
  }

  lemma PostKeepsLog(threads: Threads, posts: seq<Post>, events: seq<Event>, p: Post, e: Event)
    requires LogMatches(threads, posts, events) && PostsInThreads(threads, posts)
    requires p.thread in threads && forall i | 0 <= i < |posts| :: posts[i].id != p.id
    requires OfPost(e, p, threads[p.thread].subforum) && e.sequence == NextSequence(events)
    ensures LogMatches(threads, posts + [p], events + [e])
  {
    hide EventsDescribe, EventsComplete, EventsUnique, PostsInThreads;
    PostKeepsDescribed(threads, posts, events, p, e);
    PostUnlogged(threads, posts, events, p.id);
    PostKeepsComplete(threads, posts, events, p, e);
    EventKeepsUnique(events, e);
  }

  /** updated_at is no part of the log. */
  lemma BumpKeepsLog(threads: Threads, posts: seq<Post>, events: seq<Event>, t: Id, at: Stamp)
    requires LogMatches(threads, posts, events) && t in threads
    ensures LogMatches(threads[t := threads[t].(updatedAt := at)], posts, events)
  {
    hide EventsDescribe, EventsComplete, EventsUnique, ThreadsLoggedFirst, Ascending;
    var threads' := threads[t := threads[t].(updatedAt := at)];
    assert threads'.Keys == threads.Keys;
    assert |threads'| == |threads'.Keys| == |threads|;
    BumpKeepsDescribed(threads, posts, events, t, at);
    BumpKeepsComplete(threads, posts, events, t, at);
  }

  lemma BumpKeepsDescribed(threads: Threads, posts: seq<Post>, events: seq<Event>, t: Id, at: Stamp)
    requires EventsDescribe(threads, posts, events) && t in threads
    ensures EventsDescribe(threads[t := threads[t].(updatedAt := at)], posts, events)
  {}

  lemma BumpKeepsComplete(threads: Threads, posts: seq<Post>, events: seq<Event>, t: Id, at: Stamp)
    requires EventsComplete(threads, posts, events) && t in threads
    ensures EventsComplete(threads[t := threads[t].(updatedAt := at)], posts, events)
  {}

  lemma RowsOf(entityType: string, id: Id, m: map<string, Json>, r: TermRow)
    ensures r in TermRows(entityType, id, m) <==> RowOf(r, entityType, id) && Term(r.key, r.value) in IndexTerms(Obj(m))
  {}

  lemma ThreadKeepsIndex(threads: Threads, posts: seq<Post>, terms: set<TermRow>, th: Thread)
    requires IndexExact(threads, posts, terms) && th.id !in threads
    ensures IndexExact(threads[th.id := th], posts, ReindexedTerms(terms, THREAD_ENTITY, th.id, th.metadata))
  {}

  lemma PostKeepsIndex(threads: Threads, posts: seq<Post>, terms: set<TermRow>, p: Post)
    requires IndexExact(threads, posts, terms) && forall i | 0 <= i < |posts| :: posts[i].id != p.id
    ensures IndexExact(threads, posts + [p], ReindexedTerms(terms, POST_ENTITY, p.id, p.metadata))
  {
    var posts' := posts + [p];
    forall r ensures r in ReindexedTerms(terms, POST_ENTITY, p.id, p.metadata) <==> Indexed(threads, posts', r) {
      RowsOf(POST_ENTITY, p.id, p.metadata, r);
      assert r in terms <==> Indexed(threads, posts, r);
      assert posts'[|posts|] == p && forall i | 0 <= i < |posts| :: posts'[i] == posts[i];
    }
  }

  lemma BumpKeepsIndex(threads: Threads, posts: seq<Post>, terms: set<TermRow>, t: Id, at: Stamp)
    requires IndexExact(threads, posts, terms) && t in threads
    ensures IndexExact(threads[t := threads[t].(updatedAt := at)], posts, terms)
  {}

  lemma ThreadRow(threads: Threads, t: Id)
    requires ThreadsFit(threads) && t in threads
    ensures threads[t].id == t && Accepted(Obj(threads[t].metadata))
  {}

  lemma PostInThreadsMore(threads: Threads, posts: seq<Post>, th: Thread)
    requires PostsInThreads(threads, posts)
    ensures PostsInThreads(threads[th.id := th], posts)
  {}

  lemma CommitThreadKeepsInv(db: Db, th: Thread, p: Post, watch: bool)
    requires Inv(db) && BuiltByService(th, p) && ThreadFits(db, th, p)
    ensures Inv(WithThread(db, th, p, watch))
  {
    hide ThreadsFit, IdsUnique, PostsInThreads, RepliesPointBack, ThreadsUpToDate, ParticipantsExact, CreatorsTakePart,
      LogMatches, IndexExact, Walk;
    var stored := th.(updatedAt := th.createdAt);
    var threads' := db.threads[th.id := stored];
    var e := Event(NextSequence(db.events), ThreadCreated, th.creator, th.id, "", th.subforum, th.createdAt);
    var f := Event(e.sequence + 1, PostCreated, p.author, th.id, p.id, th.subforum, p.createdAt);
    assert p.(thread := th.id) == p;
    assert db.events + [e, f] == (db.events + [e]) + [f];
    PostKeepsRows(db.threads, db.posts, db.participants, p, stored);
    PostInThreadsMore(db.threads, db.posts, stored);
    PostKeepsReplies(db.posts, p);
    PostKeepsUpdatedAt(db.threads, db.posts, p, stored);
    PostKeepsParticipants(db.participants, db.posts, p);
    ThreadKeepsLog(db.threads, db.posts, db.events, stored, e);
    PostKeepsLog(threads', db.posts, db.events + [e], p, f);
    ThreadKeepsIndex(db.threads, db.posts, db.terms, stored);
    PostKeepsIndex(threads', db.posts, ReindexedTerms(db.terms, THREAD_ENTITY, th.id, th.metadata), p);
  }

  lemma CommitPostKeepsInv(db: Db, p: Post)
    requires Inv(db) && ReplyChecks(db, p) && PostFits(db, p)
    ensures Inv(WithPost(db, p, db.threads[p.thread].subforum))
  {
    hide ThreadsFit, IdsUnique, PostsInThreads, RepliesPointBack, ThreadsUpToDate, ParticipantsExact, CreatorsTakePart,
      LogMatches, IndexExact, Walk;
    ThreadRow(db.threads, p.thread);
    PostKeepsRows(db.threads, db.posts, db.participants, p, db.threads[p.thread].(updatedAt := p.createdAt));
    var e := Event(NextSequence(db.events), PostCreated, p.author, p.thread, p.id, db.threads[p.thread].subforum,
      p.createdAt);
    PostKeepsReplies(db.posts, p);
    PostKeepsUpdatedAt(db.threads, db.posts, p, db.threads[p.thread].(updatedAt := p.createdAt));
    PostKeepsParticipants(db.participants, db.posts, p);
    PostKeepsLog(db.threads, db.posts, db.events, p, e);
    BumpKeepsLog(db.threads, db.posts + [p], db.events + [e], p.thread, p.createdAt);
    PostKeepsIndex(db.threads, db.posts, db.terms, p);
    BumpKeepsIndex(db.threads, db.posts + [p], ReindexedTerms(db.terms, POST_ENTITY, p.id, p.metadata), p.thread,
      p.createdAt);
  }

  lemma StepKeepsInv(s: State, step: Step)
    requires Inv(s.db) && WaitingValid(s)
    ensures Inv(NextDb(s, step))
  {
    hide Inv, WithThread, WithPost;
    match step
    case CommitThread(th, p, watch) =>
      if BuiltByService(th, p) && ThreadFits(s.db, th, p) { CommitThreadKeepsInv(s.db, th, p, watch); }
    case CommitPost(c) =>
      if c in s.waiting && PostFits(s.db, c.post) { CommitPostKeepsInv(s.db, c.post); }
    case _ => OtherTablesKeepInv(s.db, NextDb(s, step));
  }

  /** The invariants read only threads, posts, participants, events and terms. */
  lemma OtherTablesKeepInv(db: Db, db': Db)
    requires Inv(db)
    requires db'.threads == db.threads && db'.posts == db.posts && db'.participants == db.participants
    requires db'.events == db.events && db'.terms == db.terms
    ensures Inv(db')
  {}

  /** Threads and posts are never removed or moved, and the log only grows at its end. */
  lemma StepsOnlyAdd(s: State, step: Step)
    ensures s.db.posts <= NextDb(s, step).posts
    ensures s.db.events <= NextDb(s, step).events
    ensures forall t | t in s.db.threads ::
              t in NextDb(s, step).threads && NextDb(s, step).threads[t].subforum == s.db.threads[t].subforum
  {}

  lemma ChecksKept(db: Db, db': Db, p: Post)
    requires ReplyChecks(db, p) && db.posts <= db'.posts && p.thread in db'.threads
    ensures ReplyChecks(db', p)
  {}

  lemma WaitingKept(s: State, step: Step)
    requires WaitingValid(s)
    ensures WaitingValid(Next(s, step))
  {
    StepsOnlyAdd(s, step);
    forall c | c in Next(s, step).waiting ensures ReplyChecks(Next(s, step).db, c.post) {
      ChecksKept(s.db, Next(s, step).db, c.post);
    }
  }

  /** Every reachable state: the log matches the entities, the derived rows are true, the index is
      exact, and every waiting reply is still valid. */
  lemma {:induction false} ReachableStates(steps: seq<Step>)
    ensures Inv(Run(steps).db) && WaitingValid(Run(steps))
  {
    if steps != [] {
      var before := Run(steps[..|steps| - 1]);
      ReachableStates(steps[..|steps| - 1]);
      StepKeepsInv(before, steps[|steps| - 1]);
      WaitingKept(before, steps[|steps| - 1]);
    }
  }

  // ---------------------------------------------------------------- consequences

  /** Each thread has exactly one thread.created event. */
  lemma OneEventPerThread(db: Db, t: Id)
    requires Inv(db) && t in db.threads
    ensures exists i :: 0 <= i < |db.events| && OfThread(db.events[i], db.threads[t]) &&
              forall k | 0 <= k < |db.events| && db.events[k].kind == ThreadCreated && db.events[k].thread == t ::
                k == i
  {
    hide EventsDescribe, PostLogged, IndexExact, ThreadsUpToDate, ParticipantsExact, PostsInThreads, RepliesPointBack;
    assert db.threads[t].id == t;
    assert ThreadLogged(db.threads[t], db.events);
    var i :| 0 <= i < |db.events| && OfThread(db.events[i], db.threads[t]);
    forall k | 0 <= k < |db.events| && db.events[k].kind == ThreadCreated && db.events[k].thread == t ensures k == i {
      assert SameSubject(db.events[k], db.events[i]) && SameSubject(db.events[i], db.events[k]);
    }
  }

  /** Each post has exactly one post.created event, carrying its author, thread and the thread's subforum. */
  lemma OneEventPerPost(db: Db, j: nat)
    requires Inv(db) && j < |db.posts|
    ensures db.posts[j].thread in db.threads
    ensures exists i :: 0 <= i < |db.events| &&
              OfPost(db.events[i], db.posts[j], db.threads[db.posts[j].thread].subforum) &&
              forall k | 0 <= k < |db.events| && db.events[k].kind == PostCreated &&
                db.events[k].post == db.posts[j].id :: k == i
  {
    hide EventsDescribe, ThreadLogged, IndexExact, ThreadsUpToDate, ParticipantsExact, RepliesPointBack;
    var p := db.posts[j];
    assert PostLogged(p, db.threads[p.thread].subforum, db.events);
    var i :| 0 <= i < |db.events| && OfPost(db.events[i], p, db.threads[p.thread].subforum);
    forall k | 0 <= k < |db.events| && db.events[k].kind == PostCreated && db.events[k].post == p.id ensures k == i {
      assert SameSubject(db.events[k], db.events[i]) && SameSubject(db.events[i], db.events[k]);
    }
  }

  /** Following reply_to from any post reaches a top-level post of the same thread, passing only
      earlier posts: the links form a forest. */
  lemma {:induction false} RepliesFormForest(posts: seq<Post>, i: nat) returns (chain: seq<nat>)
    requires RepliesPointBack(posts) && i < |posts|
    ensures chain != [] && chain[0] == i && |chain| <= i + 1
    ensures forall n | 0 <= n < |chain| :: chain[n] <= i && posts[chain[n]].thread == posts[i].thread
    ensures forall n | 0 <= n < |chain| - 1 ::
              chain[n + 1] < chain[n] && posts[chain[n + 1]].id == posts[chain[n]].replyTo
    ensures posts[chain[|chain| - 1]].replyTo == ""
  {
    if posts[i].replyTo == "" {
      chain := [i];
    } else {
      assert Named(posts, i, posts[i].replyTo, posts[i].thread);
      var j :| 0 <= j < i && posts[j].id == posts[i].replyTo && posts[j].thread == posts[i].thread;
      var rest := RepliesFormForest(posts, j);
      chain := [i] + rest;
      forall n | 0 <= n < |chain| - 1
        ensures chain[n + 1] < chain[n] && posts[chain[n + 1]].id == posts[chain[n]].replyTo
      {
        if n > 0 { assert chain[n] == rest[n - 1] && chain[n + 1] == rest[n]; }
      }
    }
  }

  // ---------------------------------------------------------------- watches and acks over a run

  ghost predicate BeginsWatch(db: Db, step: Step, a: Id, t: Id) {
    match step
    case WatchThread(b, u) => b == a && u == t && a in db.agents && t in db.threads
    case CommitThread(th, p, watch) =>
      watch && th.creator == a && th.id == t && BuiltByService(th, p) && ThreadFits(db, th, p)
    case _ => false
  }

  /** Step i of a run begins the watch, in the state that the steps before it reached. */
  ghost predicate StartsWatch(steps: seq<Step>, i: nat, a: Id, t: Id)
    requires i < |steps|
  {
    BeginsWatch(Run(steps[..i]).db, steps[i], a, t)
  }

  ghost predicate StartsSubforumWatch(steps: seq<Step>, i: nat, a: Id, k: string)
    requires i < |steps|
  {
    var db := Run(steps[..i]).db;
    steps[i] == WatchSubforum(a, k) && a in db.agents && k in db.subforums
  }

  lemma WatchStep(s: State, step: Step, a: Id, t: Id)
    ensures (a, t) in Next(s, step).db.watches <==>
            BeginsWatch(s.db, step, a, t) || ((a, t) in s.db.watches && step != UnwatchThread(a, t))
  {
    hide BuiltByService, ThreadFits, PostFits, ReplyChecks, ReindexedTerms;
  }

  lemma SubforumWatchStep(s: State, step: Step, a: Id, k: string)
    ensures (a, k) in Next(s, step).db.subforumWatches <==>
            (step == WatchSubforum(a, k) && a in s.db.agents && k in s.db.subforums) ||
            ((a, k) in s.db.subforumWatches && step != UnwatchSubforum(a, k))
  {
    hide BuiltByService, ThreadFits, PostFits, ReplyChecks, ReindexedTerms;
  }

  predicate AckIs(db: Db, a: Id, n: int) {
    a in db.acks && db.acks[a] == n
  }

  predicate WritesAck(step: Step, a: Id) {
    step.AckEvents? && step.agent == a
  }

  lemma AckStep(s: State, step: Step, a: Id, n: int)
    ensures AckIs(Next(s, step).db, a, n) <==> step == AckEvents(a, n) || (AckIs(s.db, a, n) && !WritesAck(step, a))
  {
    hide BuiltByService, ThreadFits, PostFits, ReplyChecks, ReindexedTerms;
  }

  /** Some step set a flag and no later one cleared it. */
  ghost predicate SetLast(sets: seq<bool>, clears: seq<bool>, i: nat)
    requires |sets| == |clears|
  {
    i < |sets| && sets[i] && forall j | i < j < |clears| :: !clears[j]
  }

  /** A flag that steps set and clear is up if and only if some step set it and no later one cleared it. */
  lemma {:induction false} LastWord(up: seq<bool>, sets: seq<bool>, clears: seq<bool>)
    requires |up| == |sets| + 1 == |clears| + 1
    requires !up[0] && forall i | 0 <= i < |sets| :: up[i + 1] == (sets[i] || (up[i] && !clears[i]))
    ensures up[|sets|] <==> exists i: nat :: SetLast(sets, clears, i)
  {
    if sets != [] {
      var n := |sets| - 1;
      LastWord(up[..n + 1], sets[..n], clears[..n]);
      assert up[n + 1] == (sets[n] || (up[n] && !clears[n]));
      if sets[n] {
        assert SetLast(sets, clears, n);
      } else if up[n] && !clears[n] {
        var i: nat :| SetLast(sets[..n], clears[..n], i);
        assert forall j | i < j < n :: !clears[..n][j];
        assert SetLast(sets, clears, i);
      }
      if i: nat :| SetLast(sets, clears, i) {
        assert i < n ==> SetLast(sets[..n], clears[..n], i);
      }
    }
  }

  lemma RunStep(steps: seq<Step>, i: nat)
    requires i < |steps|
    ensures Run(steps[..i + 1]) == Next(Run(steps[..i]), steps[i])
  {
    assert steps[..i + 1][..i] == steps[..i];
  }

  /** Step i began the watch and no later step ended it. */
  ghost predicate WatchedSince(steps: seq<Step>, i: nat, a: Id, t: Id) {
    i < |steps| && StartsWatch(steps, i, a, t) && forall j | i < j < |steps| :: steps[j] != UnwatchThread(a, t)
  }

  /** An agent watches a thread if and only if some step began the watch, with both keys in place, and no
      later one ended it: watching twice is watching once, and one unwatch undoes every watch before it. */
  lemma WatchIsLastWord(steps: seq<Step>, a: Id, t: Id)
    ensures (a, t) in Run(steps).db.watches <==> exists i: nat :: WatchedSince(steps, i, a, t)
  {
    hide Next, BeginsWatch;
    var n := |steps|;
    var up := seq(n + 1, i requires 0 <= i <= n => (a, t) in Run(steps[..i]).db.watches);
    var sets := seq(n, i requires 0 <= i < n => StartsWatch(steps, i, a, t));
    var clears := seq(n, i requires 0 <= i < n => steps[i] == UnwatchThread(a, t));
    forall i | 0 <= i < n ensures up[i + 1] == (sets[i] || (up[i] && !clears[i])) {
      RunStep(steps, i);
      WatchStep(Run(steps[..i]), steps[i], a, t);
    }
    assert steps[..n] == steps && steps[..0] == [] && Run([]).db == EMPTY_DB;
    LastWord(up, sets, clears);
    hide Run;
    forall i: nat ensures SetLast(sets, clears, i) <==> WatchedSince(steps, i, a, t) {
      assert forall j | 0 <= j < n :: clears[j] == (steps[j] == UnwatchThread(a, t));
    }
  }

  ghost predicate SubforumWatchedSince(steps: seq<Step>, i: nat, a: Id, k: string) {
    i < |steps| && StartsSubforumWatch(steps, i, a, k) &&
    forall j | i < j < |steps| :: steps[j] != UnwatchSubforum(a, k)
  }

  /** The same for subforums. */
  lemma SubforumWatchIsLastWord(steps: seq<Step>, a: Id, k: string)
    ensures (a, k) in Run(steps).db.subforumWatches <==> exists i: nat :: SubforumWatchedSince(steps, i, a, k)
  {
    hide Next, BeginsWatch;
    var n := |steps|;
    var up := seq(n + 1, i requires 0 <= i <= n => (a, k) in Run(steps[..i]).db.subforumWatches);
    var sets := seq(n, i requires 0 <= i < n => StartsSubforumWatch(steps, i, a, k));
    var clears := seq(n, i requires 0 <= i < n => steps[i] == UnwatchSubforum(a, k));
    forall i | 0 <= i < n ensures up[i + 1] == (sets[i] || (up[i] && !clears[i])) {
      RunStep(steps, i);
      SubforumWatchStep(Run(steps[..i]), steps[i], a, k);
    }
    assert steps[..n] == steps && steps[..0] == [] && Run([]).db == EMPTY_DB;
    LastWord(up, sets, clears);
    hide Run;
    forall i: nat ensures SetLast(sets, clears, i) <==> SubforumWatchedSince(steps, i, a, k) {
      assert forall j | 0 <= j < n :: clears[j] == (steps[j] == UnwatchSubforum(a, k));
    }
  }

  predicate AckedSince(steps: seq<Step>, i: nat, a: Id, n: int) {
    i < |steps| && steps[i] == AckEvents(a, n) && forall j | i < j < |steps| :: !WritesAck(steps[j], a)
  }

  /** The stored ack is n if and only if some step wrote n and no later one wrote anything: the last write
      wins, whether it is larger or smaller than the one before. */
  lemma AckIsLastWord(steps: seq<Step>, a: Id, through: int)
    ensures AckIs(Run(steps).db, a, through) <==> exists i: nat :: AckedSince(steps, i, a, through)
  {
    hide Next, BeginsWatch;
    var n := |steps|;
    var up := seq(n + 1, i requires 0 <= i <= n => AckIs(Run(steps[..i]).db, a, through));
    var sets := seq(n, i requires 0 <= i < n => steps[i] == AckEvents(a, through));
    var clears := seq(n, i requires 0 <= i < n => WritesAck(steps[i], a));
    forall i | 0 <= i < n ensures up[i + 1] == (sets[i] || (up[i] && !clears[i])) {
      RunStep(steps, i);
      AckStep(Run(steps[..i]), steps[i], a, through);
    }
    assert steps[..n] == steps && steps[..0] == [] && Run([]).db == EMPTY_DB;
    LastWord(up, sets, clears);
    hide Run;
    forall i: nat ensures SetLast(sets, clears, i) <==> AckedSince(steps, i, a, through) {
      assert forall j | 0 <= j < n :: clears[j] == (WritesAck(steps[j], a));
    }
  }
}
