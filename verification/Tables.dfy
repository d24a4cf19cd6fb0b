/** The rows of the forum's database, and what each transaction and statement does to them. */
module Tables {
  import opened Strings
  import opened Metadata

  type Id = string

  /** The stored created_at text, of which only the order matters. */
  type Stamp = int

  datatype Thread = Thread(
    id: Id, subforum: string, title: string, metadata: map<string, Json>,
    creator: Id, createdAt: Stamp, updatedAt: Stamp)

  /** replyTo is "" for a top-level post. */
  datatype Post = Post(
    id: Id, thread: Id, author: Id, body: string, replyTo: Id,
    metadata: map<string, Json>, createdAt: Stamp)

  datatype EventType = ThreadCreated | PostCreated

  /** One row of the unified event log. */
  datatype Event = Event(
    sequence: int, kind: EventType, actor: Id, thread: Id, post: Id, subforum: string, createdAt: Stamp)

  datatype TermRow = TermRow(entityType: string, entityId: Id, key: string, value: string)

  /** The cached answer of an idempotent write; the JSON text of the row is this value. */
  datatype Response = ThreadResponse(thread: Thread, post: Post) | PostResponse(created: Post)

  datatype Record = Record(agent: Id, response: Response)

  /** One database state. Posts and events are kept in the order of insertion. */
  datatype Db = Db(
    agents: set<Id>,
    subforums: set<string>,
    threads: map<Id, Thread>,
    posts: seq<Post>,
    participants: map<(Id, Id), Stamp>,
    watches: set<(Id, Id)>,
    subforumWatches: set<(Id, string)>,
    events: seq<Event>,
    acks: map<Id, int>,
    terms: set<TermRow>,
    idempotency: map<string, Record>)

  const EMPTY_DB := Db({}, {}, map[], [], map[], {}, {}, [], map[], {}, map[])

  const THREAD_ENTITY := "thread"
  const POST_ENTITY := "post"

  predicate HasPost(db: Db, id: Id) {
    exists i | 0 <= i < |db.posts| :: db.posts[i].id == id
  }

  // ---------------------------------------------------------------- statements

  /** The sequence AUTOINCREMENT gives the next row: above every sequence in the log. */
  function NextSequence(events: seq<Event>): int {
    if events == [] then 1 else events[|events| - 1].sequence + 1
  }

  function AppendedEvent(db: Db, kind: EventType, actor: Id, thread: Id, post: Id, subforum: string, at: Stamp): Db {
    db.(events := db.events + [Event(NextSequence(db.events), kind, actor, thread, post, subforum, at)])
  }

  ghost function TermRows(entityType: string, id: Id, m: map<string, Json>): set<TermRow> {
    set t | t in IndexTerms(Obj(m)) :: TermRow(entityType, id, t.key, t.value)
  }

  predicate RowOf(r: TermRow, entityType: string, id: Id) {
    r.entityType == entityType && r.entityId == id
  }

  function ClearedTerms(terms: set<TermRow>, entityType: string, id: Id): set<TermRow> {
    set r | r in terms && !RowOf(r, entityType, id)
  }

  ghost function ReindexedTerms(terms: set<TermRow>, entityType: string, id: Id, m: map<string, Json>): set<TermRow> {
    ClearedTerms(terms, entityType, id) + TermRows(entityType, id, m)
  }

  // ---------------------------------------------------------------- transactions

  /** The primary and foreign keys that CreateThreadWithPost's statements rely on. */
  predicate ThreadFits(db: Db, th: Thread, p: Post) {
    th.id !in db.threads && th.subforum in db.subforums && th.creator in db.agents &&
    !HasPost(db, p.id) && p.author in db.agents
  }

  lemma FitsMeans(db: Db, th: Thread, p: Post)
    ensures ThreadFits(db, th, p) <==>
            th.id !in db.threads && th.subforum in db.subforums && th.creator in db.agents &&
            (forall q | q in db.posts :: q.id != p.id) && p.author in db.agents
    ensures PostFits(db, p) <==>
            (forall q | q in db.posts :: q.id != p.id) && p.thread in db.threads && p.author in db.agents
  {}

  /** The database after CreateThreadWithPost commits. */
  ghost function WithThread(db: Db, th: Thread, p: Post, watch: bool): Db {
    var seq0 := NextSequence(db.events);
    db.(
      threads := db.threads[th.id := th.(updatedAt := th.createdAt)],
      posts := db.posts + [p.(thread := th.id)],
      participants := db.participants[(th.creator, th.id) := th.createdAt],
      terms := ReindexedTerms(ReindexedTerms(db.terms, THREAD_ENTITY, th.id, th.metadata), POST_ENTITY, p.id,
        p.metadata),
      events := db.events + [
        Event(seq0, ThreadCreated, th.creator, th.id, "", th.subforum, th.createdAt),
        Event(seq0 + 1, PostCreated, p.author, th.id, p.id, th.subforum, p.createdAt)],
      watches := if watch then db.watches + {(th.creator, th.id)} else db.watches)
  }

  predicate PostFits(db: Db, p: Post) {
    !HasPost(db, p.id) && p.thread in db.threads && p.author in db.agents
  }

  /** The database after CreatePost commits. */
  ghost function WithPost(db: Db, p: Post, subforum: string): Db
    requires p.thread in db.threads
  {
    db.(
      posts := db.posts + [p],
      participants := db.participants[(p.author, p.thread) := p.createdAt],
      terms := ReindexedTerms(db.terms, POST_ENTITY, p.id, p.metadata),
      events := db.events + [
        Event(NextSequence(db.events), PostCreated, p.author, p.thread, p.id, subforum, p.createdAt)],
      threads := db.threads[p.thread := db.threads[p.thread].(updatedAt := p.createdAt)])
  }
}
