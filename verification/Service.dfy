/**
 internal/service/threads.go and posts.go: validation, idempotent replay, the store write and the
 save of the replay record, with faults at every database call.
 */
module Service {
  import opened Strings
  import opened Metadata
  import opened Tables
  import opened Storage
  import Forum

  /** A document with the outcome of encoding it. */
  datatype Document = Document(fields: map<string, Json>, encoding: Encoding)

  datatype ThreadInput = ThreadInput(
    subforum: string, title: string, body: string, metadata: Document, postMetadata: Document, watch: bool, key: string)

  datatype PostInput = PostInput(thread: string, body: string, replyTo: Id, metadata: Document, key: string)

  /** Generated ids and the clock. */
  datatype Generated = Generated(thread: Id, post: Id, now: Stamp)

  /** What goes wrong below the service: the transaction's statements, or the save of the record. */
  datatype Faults = Faults(tx: set<nat>, save: bool)

  datatype Outcome = InvalidInput | NotFound | StoreError | Created(answer: Response) | Replayed(answer: Response)

  predicate Answered(o: Outcome) {
    o.Created? || o.Replayed?
  }

  datatype Result = Result(db: Db, outcome: Outcome)

  // ---------------------------------------------------------------- what a call does

  /** The record that makes a call a replay. */
  predicate Recorded(db: Db, key: string, agent: Id, forThread: bool) {
    key != "" && key in db.idempotency && db.idempotency[key].agent == agent &&
    db.idempotency[key].response.ThreadResponse? == forThread
  }

  function Saved(db: Db, key: string, agent: Id, response: Response, fails: bool): Db {
    if key == "" || fails then db else db.(idempotency := db.idempotency[key := Record(agent, response)])
  }

  function BuildThread(agent: Id, input: ThreadInput, ids: Generated): Thread {
    Thread(ids.thread, TrimSpace(input.subforum), TrimSpace(input.title), input.metadata.fields, agent, ids.now,
      ids.now)
  }

  function BuildOpening(agent: Id, input: ThreadInput, ids: Generated): Post {
    Post(ids.post, ids.thread, agent, input.body, "", input.postMetadata.fields, ids.now)
  }

  function BuildPost(agent: Id, input: PostInput, ids: Generated): Post {
    Post(ids.post, TrimSpace(input.thread), agent, input.body, input.replyTo, input.metadata.fields, ids.now)
  }

  predicate ValidDocument(d: Document) {
    Validate(d.fields, d.encoding)
  }

  predicate ThreadInputValid(input: ThreadInput) {
    TrimSpace(input.title) != "" && TrimSpace(input.subforum) != "" &&
    ValidDocument(input.metadata) && ValidDocument(input.postMetadata)
  }

  /** service.CreateThread. aborted says that the transaction failed, for whatever reason. */
  ghost function CallThread(db: Db, agent: Id, input: ThreadInput, ids: Generated, aborted: bool,
      saveFails: bool): Result {
    var th, p := BuildThread(agent, input, ids), BuildOpening(agent, input, ids);
    if !ThreadInputValid(input) then Result(db, InvalidInput)
    else if TrimSpace(input.subforum) !in db.subforums then Result(db, NotFound)
    else if Recorded(db, input.key, agent, true) then Result(db, Replayed(db.idempotency[input.key].response))
    else if aborted then Result(db, StoreError)
    else
      Result(Saved(WithThread(db, th, p, input.watch), input.key, agent, ThreadResponse(th, p), saveFails),
             Created(ThreadResponse(th, p)))
  }

  /** service.CreatePost. */
  ghost function CallPost(db: Db, agent: Id, input: PostInput, ids: Generated, aborted: bool, saveFails: bool): Result {
    var p := BuildPost(agent, input, ids);
    if p.thread == "" || !ValidDocument(input.metadata) then Result(db, InvalidInput)
    else if p.thread !in db.threads then Result(db, NotFound)
    else if p.replyTo != "" && !HasPost(db, p.replyTo) then Result(db, NotFound)
    else if p.replyTo != "" && !Forum.Named(db.posts, |db.posts|, p.replyTo, p.thread) then Result(db, InvalidInput)
    else if Recorded(db, input.key, agent, false) then Result(db, Replayed(db.idempotency[input.key].response))
    else if aborted then Result(db, StoreError)
    else
      Result(Saved(WithPost(db, p, db.threads[p.thread].subforum), input.key, agent, PostResponse(p), saveFails),
             Created(PostResponse(p)))
  }

  // ---------------------------------------------------------------- what is stored, and what is refused

  /** A document that a write accepts: empty, or encodable in 64 KiB, at most eight levels deep, with valid
      keys and JSON leaves throughout. */
  ghost predicate Acceptable(d: Document) {
    d.fields == map[] ||
    (d.encoding.Bytes? && d.encoding.size <= 65536 &&
     (forall n: nat | Nests(Obj(d.fields), n) :: n <= 7) && forall x | Occurs(x, Obj(d.fields)) :: LocallyValid(x))
  }

  /** The index holds exactly the non-blank leaves of the tree for this entity. */
  ghost predicate IndexHolds(terms: set<TermRow>, entityType: string, id: Id, m: map<string, Json>) {
    forall k, v ::
      TermRow(entityType, id, k, v) in terms <==> !Blank(v) && HasLeaf(Obj(m), Split(k, '.'), v)
  }

  /** The rows of other entities are the same before and after. */
  ghost predicate OthersKept(before: set<TermRow>, after: set<TermRow>, thread: Id, post: Id) {
    forall r: TermRow |
      !(r.entityType == "thread" && r.entityId == thread) && !(r.entityType == "post" && r.entityId == post) ::
      r in after <==> r in before
  }

  /** The sequence that follows the log's last one, or 1. */
  predicate Follows(events: seq<Event>, sequence: int) {
    if events == [] then sequence == 1 else sequence == events[|events| - 1].sequence + 1
  }

  predicate SavedUnder(before: Db, after: Db, key: string, agent: Id, answer: Response, fails: bool) {
    after.idempotency ==
    if key == "" || fails then before.idempotency else before.idempotency[key := Record(agent, answer)]
  }

  /** What a created thread leaves in each table, and what it answers, in terms of the call's input. */
  ghost predicate ThreadStored(before: Db, after: Db, agent: Id, input: ThreadInput, ids: Generated, saveFails: bool,
                               answer: Response) {
    var key := TrimSpace(input.subforum);
    var th := Thread(ids.thread, key, TrimSpace(input.title), input.metadata.fields, agent, ids.now, ids.now);
    var p := Post(ids.post, ids.thread, agent, input.body, "", input.postMetadata.fields, ids.now);
    answer == ThreadResponse(th, p) &&
    after.threads == before.threads[ids.thread := th] && after.posts == before.posts + [p] &&
    after.participants == before.participants[(agent, ids.thread) := ids.now] &&
    after.watches == before.watches + (if input.watch then {(agent, ids.thread)} else {}) &&
    (exists q :: Follows(before.events, q) && after.events == before.events + [
      Event(q, ThreadCreated, agent, ids.thread, "", key, ids.now),
      Event(q + 1, PostCreated, agent, ids.thread, ids.post, key, ids.now)]) &&
    IndexHolds(after.terms, "thread", ids.thread, input.metadata.fields) &&
    IndexHolds(after.terms, "post", ids.post, input.postMetadata.fields) &&
    OthersKept(before.terms, after.terms, ids.thread, ids.post) &&
    SavedUnder(before, after, input.key, agent, answer, saveFails) && SameElsewhere(before, after)
  }

  /** The same for a created post. */
  ghost predicate PostStored(before: Db, after: Db, agent: Id, input: PostInput, ids: Generated, saveFails: bool,
                             answer: Response) {
    var t := TrimSpace(input.thread);
    var p := Post(ids.post, t, agent, input.body, input.replyTo, input.metadata.fields, ids.now);
    t in before.threads && answer == PostResponse(p) &&
    after.threads == before.threads[t := before.threads[t].(updatedAt := ids.now)] &&
    after.posts == before.posts + [p] &&
    after.participants == before.participants[(agent, t) := ids.now] && after.watches == before.watches &&
    (exists q :: Follows(before.events, q) && after.events == before.events + [
      Event(q, PostCreated, agent, t, ids.post, before.threads[t].subforum, ids.now)]) &&
    IndexHolds(after.terms, "post", ids.post, input.metadata.fields) &&
    (forall r: TermRow | !(r.entityType == "post" && r.entityId == ids.post) ::
      r in after.terms <==> r in before.terms) &&
    SavedUnder(before, after, input.key, agent, answer, saveFails) && SameElsewhere(before, after)
  }

  predicate SameElsewhere(before: Db, after: Db) {
    after.agents == before.agents && after.subforums == before.subforums &&
    after.subforumWatches == before.subforumWatches && after.acks == before.acks
  }

  lemma AcceptableIsValid(d: Document)
    ensures ValidDocument(d) <==> Acceptable(d)
  {
    var v := Obj(d.fields);
    WalkMeaning(v, 1);
    assert MAX_BYTES == 65536;
    assert Walk(v, 1) <==> (forall n: nat | Nests(v, n) :: n <= 7) && forall x | Occurs(x, v) :: LocallyValid(x);
    assert d.fields != map[] ==> (ValidDocument(d) <==> d.encoding.Bytes? && d.encoding.size <= 65536 && Walk(v, 1));
  }

  lemma ReindexedHolds(terms: set<TermRow>, entityType: string, id: Id, d: Document)
    requires ValidDocument(d)
    ensures IndexHolds(ReindexedTerms(terms, entityType, id, d.fields), entityType, id, d.fields)
    ensures forall r: TermRow | !(r.entityType == entityType && r.entityId == id) ::
              r in ReindexedTerms(terms, entityType, id, d.fields) <==> r in terms
  {
    var m := d.fields;
    forall k, v
      ensures TermRow(entityType, id, k, v) in ReindexedTerms(terms, entityType, id, m) <==>
              !Blank(v) && HasLeaf(Obj(m), Split(k, '.'), v)
    {
      Forum.RowsOf(entityType, id, m, TermRow(entityType, id, k, v));
      ValidatedIsAccepted(m, d.encoding);
      IndexRefinesScan(Obj(m), k, v);
    }
    forall r: TermRow | !(r.entityType == entityType && r.entityId == id)
      ensures r in ReindexedTerms(terms, entityType, id, m) <==> r in terms
    {
      Forum.RowsOf(entityType, id, m, r);
    }
  }

  /** Every thread created is stored, indexed, logged and answered as the input says. */
  lemma CreatedThreadIsStored(db: Db, agent: Id, input: ThreadInput, ids: Generated, aborted: bool, saveFails: bool)
    requires CallThread(db, agent, input, ids, aborted, saveFails).outcome.Created?
    ensures var r := CallThread(db, agent, input, ids, aborted, saveFails);
            ThreadStored(db, r.db, agent, input, ids, saveFails, r.outcome.answer)
  {
    var m, n := input.metadata.fields, input.postMetadata.fields;
    var first := ReindexedTerms(db.terms, "thread", ids.thread, m);
    ReindexedHolds(db.terms, "thread", ids.thread, input.metadata);
    ReindexedHolds(first, "post", ids.post, input.postMetadata);
    hide ReindexedTerms, TrimSpace, ValidDocument, HasLeaf, Blank, Split, IndexHolds;
    assert Follows(db.events, NextSequence(db.events));
  }

  lemma CreatedPostIsStored(db: Db, agent: Id, input: PostInput, ids: Generated, aborted: bool, saveFails: bool)
    requires CallPost(db, agent, input, ids, aborted, saveFails).outcome.Created?
    ensures var r := CallPost(db, agent, input, ids, aborted, saveFails);
            PostStored(db, r.db, agent, input, ids, saveFails, r.outcome.answer)
  {
    ReindexedHolds(db.terms, "post", ids.post, input.metadata);
    hide ReindexedTerms, TrimSpace, ValidDocument, HasLeaf, Blank, Split, HasPost, Forum.Named, IndexHolds;
    assert Follows(db.events, NextSequence(db.events));
  }

  /** Which calls are refused, and why: exactly. */
  lemma ThreadRefused(db: Db, agent: Id, input: ThreadInput, ids: Generated, aborted: bool, saveFails: bool)
    ensures var r := CallThread(db, agent, input, ids, aborted, saveFails);
            (r.outcome.InvalidInput? <==>
              Blank(input.title) || Blank(input.subforum) ||
              !Acceptable(input.metadata) || !Acceptable(input.postMetadata)) &&
            (r.outcome.NotFound? <==> !r.outcome.InvalidInput? && TrimSpace(input.subforum) !in db.subforums) &&
            (!Answered(r.outcome) ==> r.db == db) && (r.outcome.StoreError? ==> aborted)
  {
    TrimSpaceBlank(input.title);
    TrimSpaceBlank(input.subforum);
    AcceptableIsValid(input.metadata);
    AcceptableIsValid(input.postMetadata);
    hide TrimSpace, Blank, ValidDocument, Acceptable, WithThread;
  }

  lemma PostRefused(db: Db, agent: Id, input: PostInput, ids: Generated, aborted: bool, saveFails: bool)
    ensures var r := CallPost(db, agent, input, ids, aborted, saveFails);
            var t := TrimSpace(input.thread);
            var missing :=
              t !in db.threads || (input.replyTo != "" && forall p | p in db.posts :: p.id != input.replyTo);
            var elsewhere := input.replyTo != "" && forall p | p in db.posts && p.id == input.replyTo :: p.thread != t;
            (r.outcome.InvalidInput? <==>
              Blank(input.thread) || !Acceptable(input.metadata) || (!missing && elsewhere)) &&
            (r.outcome.NotFound? <==> !Blank(input.thread) && Acceptable(input.metadata) && missing) &&
            (!Answered(r.outcome) ==> r.db == db) && (r.outcome.StoreError? ==> aborted)
  {
    TrimSpaceBlank(input.thread);
    AcceptableIsValid(input.metadata);
    hide TrimSpace, Blank, ValidDocument, Acceptable, WithPost;
    PostsNamed(db, input.replyTo, TrimSpace(input.thread));
  }

  lemma PostsNamed(db: Db, id: Id, t: Id)
    ensures HasPost(db, id) <==> exists p | p in db.posts :: p.id == id
    ensures Forum.Named(db.posts, |db.posts|, id, t) <==> exists p | p in db.posts :: p.id == id && p.thread == t
  {
    if p :| p in db.posts && p.id == id && p.thread == t {
      var i :| 0 <= i < |db.posts| && db.posts[i] == p;
    }
  }

  // ---------------------------------------------------------------- the methods

  class Service {
    const store: Store

    constructor (store: Store)
      ensures this.store == store
    {
      this.store := store;
    }

    /** GetIdempotencyRecord: looked up by key and agent. */
    method GetIdempotencyRecord(key: string, agent: Id) returns (found: bool, record: Record)
      ensures found <==> key in store.db.idempotency && store.db.idempotency[key].agent == agent
      ensures found ==> record == store.db.idempotency[key]
    {
      record := Record("", PostResponse(Post("", "", "", "", "", map[], 0)));
      found := key in store.db.idempotency && store.db.idempotency[key].agent == agent;
      if found { record := store.db.idempotency[key]; }
    }

    /** SaveIdempotencyRecord: INSERT OR REPLACE by key alone; its error is ignored by both callers. */
    method SaveIdempotencyRecord(key: string, agent: Id, response: Response, fails: bool)
      requires key != ""
      modifies store
      ensures store.db == Saved(old(store.db), key, agent, response, fails)
    {
      if !fails {
        store.db := store.db.(idempotency := store.db.idempotency[key := Record(agent, response)]);
      }
    }

    /** GetPost */
    method GetPost(id: Id) returns (found: bool, p: Post)
      requires Forum.IdsUnique(store.db.posts)
      ensures found <==> HasPost(store.db, id)
      ensures found ==> p in store.db.posts
      ensures found ==>
                p.id == id && forall t :: p.thread == t <==> Forum.Named(store.db.posts, |store.db.posts|, id, t)
    {
      p := Post("", "", "", "", "", map[], 0);
      found := false;
      var i := 0;
      while i < |store.db.posts|
        invariant 0 <= i <= |store.db.posts|
        invariant !found && forall j | 0 <= j < i :: store.db.posts[j].id != id
      {
        if store.db.posts[i].id == id {
          return true, store.db.posts[i];
        }
        i := i + 1;
      }
    }

    method CreateThread(agent: Id, input: ThreadInput, ids: Generated, faults: Faults) returns (o: Outcome,
        ghost aborted: bool)
      modifies store
      ensures Result(store.db, o) == CallThread(old(store.db), agent, input, ids, aborted, faults.save)
      ensures aborted ==>
                faults.tx != {} ||
                !ThreadFits(old(store.db), BuildThread(agent, input, ids), BuildOpening(agent, input, ids))
      ensures o.Created? ==> ThreadFits(old(store.db), BuildThread(agent, input, ids), BuildOpening(agent, input, ids))
      ensures o.Created? ==> ThreadStored(old(store.db), store.db, agent, input, ids, faults.save, o.answer)
      ensures Forum.Inv(old(store.db)) ==> Forum.Inv(store.db)
    {
      hide Validate, WithThread, ThreadFits, TrimSpace, Forum.Inv, ThreadStored;
      aborted := false;
      var th, p := BuildThread(agent, input, ids), BuildOpening(agent, input, ids);
      if th.title == "" { return InvalidInput, false; }
      if th.subforum == "" { return InvalidInput, false; }
      if !ValidDocument(input.metadata) { return InvalidInput, false; }
      if !ValidDocument(input.postMetadata) { return InvalidInput, false; }
      if th.subforum !in store.db.subforums { return NotFound, false; }
      if input.key != "" {
        var found, record := GetIdempotencyRecord(input.key, agent);
        if found && record.response.ThreadResponse? { return Replayed(record.response), false; }
      }
      FitsMeans(store.db, th, p);
      var ok := store.CreateThreadWithPost(th, p, input.watch, faults.tx);
      if !ok { return StoreError, true; }
      if input.key != "" {
        SaveIdempotencyRecord(input.key, agent, ThreadResponse(th, p), faults.save);
      }
      o := Created(ThreadResponse(th, p));
      CreatedThreadIsStored(old(store.db), agent, input, ids, false, faults.save);
      if Forum.Inv(old(store.db)) {
        CallsKeepInv(old(store.db), ThreadCall(agent, input, ids, false, faults.save));
      }
    }

    method CreatePost(agent: Id, input: PostInput, ids: Generated, faults: Faults) returns (o: Outcome,
        ghost aborted: bool)
      requires Forum.IdsUnique(store.db.posts)
      modifies store
      ensures Result(store.db, o) == CallPost(old(store.db), agent, input, ids, aborted, faults.save)
      ensures aborted ==> faults.tx != {} || !PostFits(old(store.db), BuildPost(agent, input, ids))
      ensures o.Created? ==> PostFits(old(store.db), BuildPost(agent, input, ids))
      ensures o.Created? ==> PostStored(old(store.db), store.db, agent, input, ids, faults.save, o.answer)
      ensures Forum.Inv(old(store.db)) ==> Forum.Inv(store.db)
    {
      hide Validate, WithPost, PostFits, TrimSpace, Forum.Inv, PostStored;
      aborted := false;
      var p := BuildPost(agent, input, ids);
      if p.thread == "" { return InvalidInput, false; }
      if !ValidDocument(input.metadata) { return InvalidInput, false; }
      if p.thread !in store.db.threads { return NotFound, false; }
      if p.replyTo != "" {
        var found, ref := GetPost(p.replyTo);
        if !found { return NotFound, false; }
        if ref.thread != p.thread { return InvalidInput, false; }
      }
      if input.key != "" {
        var found, record := GetIdempotencyRecord(input.key, agent);
        if found && record.response.PostResponse? { return Replayed(record.response), false; }
      }
      var subforum := store.db.threads[p.thread].subforum;
      FitsMeans(store.db, store.db.threads[p.thread], p);
      var ok := store.CreatePost(p, subforum, faults.tx);
      if !ok { return StoreError, true; }
      if input.key != "" {
        SaveIdempotencyRecord(input.key, agent, PostResponse(p), faults.save);
      }
      o := Created(PostResponse(p));
      CreatedPostIsStored(old(store.db), agent, input, ids, false, faults.save);
      if Forum.Inv(old(store.db)) {
        CallsKeepInv(old(store.db), PostCall(agent, input, ids, false, faults.save));
      }
    }

    /** AckEvents: refuses a negative sequence, and records any other, larger or smaller than the last. */
    method AckEvents(agent: Id, through: int) returns (ok: bool)
      modifies store
      ensures ok <==> through >= 0
      ensures store.db == if ok then old(store.db).(acks := old(store.db).acks[agent := through]) else old(store.db)
    {
      ok := through >= 0;
      if ok { store.AckEvents(agent, through); }
    }
  }

  // ---------------------------------------------------------------- runs of calls

  datatype Call =
    | ThreadCall(agent: Id, thread: ThreadInput, ids: Generated, aborted: bool, saveFails: bool)
    | PostCall(agent: Id, post: PostInput, ids: Generated, aborted: bool, saveFails: bool)
    | Other(step: Forum.Step)
  {
    function Key(): string {
      match this
      case ThreadCall(_, input, _, _, _) => input.key
      case PostCall(_, input, _, _, _) => input.key
      case Other(_) => ""
    }
  }

  /** The service's remaining writes touch none of the tables that matter here. */
  predicate Side(step: Forum.Step) {
    step.RegisterAgent? || step.CreateSubforum? || step.WatchThread? || step.UnwatchThread? ||
    step.WatchSubforum? || step.UnwatchSubforum? || step.AckEvents?
  }

  ghost function Perform(db: Db, c: Call): Result {
    match c
    case ThreadCall(a, input, ids, aborted, saveFails) => CallThread(db, a, input, ids, aborted, saveFails)
    case PostCall(a, input, ids, aborted, saveFails) => CallPost(db, a, input, ids, aborted, saveFails)
    case Other(step) =>
      Result(if Side(step) then Forum.NextDb(Forum.State(db, {}), step) else db, NotFound)
  }

  /** They do take place. */
  lemma OtherWritesHappen(db: Db, a: Id, t: Id, k: string, n: int)
    ensures a in Perform(db, Call.Other(Forum.RegisterAgent(a))).db.agents
    ensures k in Perform(db, Call.Other(Forum.CreateSubforum(k))).db.subforums
    ensures a in db.agents && t in db.threads ==>
              (a, t) in Perform(db, Call.Other(Forum.WatchThread(a, t))).db.watches
    ensures (a, t) !in Perform(db, Call.Other(Forum.UnwatchThread(a, t))).db.watches
    ensures a in db.agents && k in db.subforums ==>
              (a, k) in Perform(db, Call.Other(Forum.WatchSubforum(a, k))).db.subforumWatches
    ensures (a, k) !in Perform(db, Call.Other(Forum.UnwatchSubforum(a, k))).db.subforumWatches
    ensures Forum.AckIs(Perform(db, Call.Other(Forum.AckEvents(a, n))).db, a, n)
  {}

  ghost function StateAt(db: Db, calls: seq<Call>, i: nat): Db
    requires i <= |calls|
  {
    if i == 0 then db else Perform(StateAt(db, calls, i - 1), calls[i - 1]).db
  }

  ghost function OutcomeAt(db: Db, calls: seq<Call>, i: nat): Outcome
    requires i < |calls|
  {
    Perform(StateAt(db, calls, i), calls[i]).outcome
  }

  /** The key is used by one agent for one kind of entity, and its records are saved. */
  predicate Owned(c: Call, key: string, agent: Id, forThread: bool) {
    !c.Other? && c.Key() == key ==> c.ThreadCall? == forThread && c.agent == agent && !c.saveFails
  }

  /** A record of the owner's kind. */
  predicate Keeps(db: Db, key: string, agent: Id, forThread: bool, answer: Response) {
    Recorded(db, key, agent, forThread) && db.idempotency[key].response == answer
  }

  lemma CallKeepsRecord(db: Db, c: Call, key: string, agent: Id, forThread: bool, answer: Response)
    requires key != "" && Owned(c, key, agent, forThread) && Keeps(db, key, agent, forThread, answer)
    ensures Keeps(Perform(db, c).db, key, agent, forThread, answer)
    ensures c.Key() == key ==>
              Perform(db, c).db == db &&
              (Answered(Perform(db, c).outcome) ==> Perform(db, c).outcome == Replayed(answer))
  {
    hide ThreadInputValid, ValidDocument, WithThread, WithPost, HasPost, Forum.Named, TrimSpace;
    CallsSpareRecords(db, c);
  }

  /** No write but a save touches the records. */
  lemma CallsSpareRecords(db: Db, c: Call)
    ensures c.Key() == "" ==> Perform(db, c).db.idempotency == db.idempotency
    ensures forall k | k != c.Key() ::
              (k in Perform(db, c).db.idempotency <==> k in db.idempotency) &&
              (k in db.idempotency ==> Perform(db, c).db.idempotency[k] == db.idempotency[k])
  {
    hide ThreadInputValid, ValidDocument, HasPost, Forum.Named, TrimSpace, ReindexedTerms;
  }

  lemma CallWithoutRecord(db: Db, c: Call, key: string, agent: Id, forThread: bool)
    requires key != "" && Owned(c, key, agent, forThread) && key !in db.idempotency
    ensures !(c.Key() == key && Answered(Perform(db, c).outcome)) ==> key !in Perform(db, c).db.idempotency
    ensures c.Key() == key && Answered(Perform(db, c).outcome) ==>
              Perform(db, c).outcome.Created? &&
              Keeps(Perform(db, c).db, key, agent, forThread, Perform(db, c).outcome.answer)
  {
    hide ThreadInputValid, ValidDocument, HasPost, Forum.Named, TrimSpace, ReindexedTerms;
    CallsSpareRecords(db, c);
  }

  /** No call before m was answered for the key. */
  ghost predicate Unanswered(db: Db, calls: seq<Call>, key: string, m: nat)
    requires m <= |calls|
  {
    forall i | 0 <= i < m && calls[i].Key() == key :: !Answered(OutcomeAt(db, calls, i))
  }

  /** Call n was the first one answered for the key, by a creation, and every answer up to m repeats it. */
  ghost predicate Settled(db: Db, calls: seq<Call>, key: string, n: nat, m: nat)
    requires n < m <= |calls|
  {
    Unanswered(db, calls, key, n) && calls[n].Key() == key && OutcomeAt(db, calls, n).Created? &&
    forall i | n < i < m && calls[i].Key() == key && Answered(OutcomeAt(db, calls, i)) ::
      OutcomeAt(db, calls, i) == Replayed(OutcomeAt(db, calls, n).answer)
  }

  /** The history of a key up to call m: nothing answered and no record (n is -1), or settled by call n,
      whose record stands. */
  ghost predicate History(db: Db, calls: seq<Call>, key: string, agent: Id, forThread: bool, n: int, m: nat)
    requires m <= |calls|
  {
    -1 <= n < m &&
    (n == -1 ==> key !in StateAt(db, calls, m).idempotency && Unanswered(db, calls, key, m)) &&
    (n >= 0 ==> Settled(db, calls, key, n, m) &&
                Keeps(StateAt(db, calls, m), key, agent, forThread, OutcomeAt(db, calls, n).answer))
  }

  lemma HistoryOpens(db: Db, calls: seq<Call>, key: string, agent: Id, forThread: bool, m: nat)
    requires key != "" && m < |calls| && Owned(calls[m], key, agent, forThread)
    requires History(db, calls, key, agent, forThread, -1, m)
    ensures var first := calls[m].Key() == key && Answered(OutcomeAt(db, calls, m));
            History(db, calls, key, agent, forThread, if first then m else -1, m + 1)
  {
    hide Perform, Owned, Keeps;
    CallWithoutRecord(StateAt(db, calls, m), calls[m], key, agent, forThread);
  }

  lemma HistoryStands(db: Db, calls: seq<Call>, key: string, agent: Id, forThread: bool, n: nat, m: nat)
    requires key != "" && m < |calls| && Owned(calls[m], key, agent, forThread)
    requires History(db, calls, key, agent, forThread, n, m)
    ensures History(db, calls, key, agent, forThread, n, m + 1)
  {
    hide Perform, Owned, Keeps, Unanswered;
    CallKeepsRecord(StateAt(db, calls, m), calls[m], key, agent, forThread, OutcomeAt(db, calls, n).answer);
  }

  lemma {:induction false} KeyHistory(db: Db, calls: seq<Call>, key: string, agent: Id, forThread: bool, m: nat)
    returns (n: int)
    requires key != "" && key !in db.idempotency && m <= |calls|
    requires forall c | c in calls :: Owned(c, key, agent, forThread)
    ensures History(db, calls, key, agent, forThread, n, m)
  {
    hide Perform, Owned, Keeps, Settled;
    if m == 0 {
      n := -1;
    } else {
      hide History;
      n := KeyHistory(db, calls, key, agent, forThread, m - 1);
      assert calls[m - 1] in calls;
      if n == -1 {
        HistoryOpens(db, calls, key, agent, forThread, m - 1);
        if calls[m - 1].Key() == key && Answered(OutcomeAt(db, calls, m - 1)) { n := m - 1; }
      } else {
        assert n >= 0 by { HistoryBounds(db, calls, key, agent, forThread, n, m - 1); }
        HistoryStands(db, calls, key, agent, forThread, n, m - 1);
      }
    }
  }

  lemma HistoryBounds(db: Db, calls: seq<Call>, key: string, agent: Id, forThread: bool, n: int, m: nat)
    requires m <= |calls| && History(db, calls, key, agent, forThread, n, m)
    ensures -1 <= n < m
  {}

  /** At most one entity per key: over any run in which the key belongs to one agent and one kind and
      its saves succeed, at most one call creates, all answered calls get the first answer, and every
      later one leaves the database as it was. */
  lemma AtMostOnePerKey(db: Db, calls: seq<Call>, key: string, agent: Id, forThread: bool, i: nat, j: nat)
    requires key != "" && key !in db.idempotency
    requires forall c | c in calls :: Owned(c, key, agent, forThread)
    requires i < j < |calls| && calls[i].Key() == calls[j].Key() == key
    requires Answered(OutcomeAt(db, calls, i)) && Answered(OutcomeAt(db, calls, j))
    ensures OutcomeAt(db, calls, j) == Replayed(OutcomeAt(db, calls, i).answer)
    ensures StateAt(db, calls, j + 1) == StateAt(db, calls, j)
  {
    hide OutcomeAt, Owned, Perform, Keeps;
    var n := KeyHistory(db, calls, key, agent, forThread, |calls|);
    LaterAnswers(db, calls, key, n, i, j);
    ReplayedAt(db, calls, j);
  }

  lemma LaterAnswers(db: Db, calls: seq<Call>, key: string, n: int, i: nat, j: nat)
    requires i < j < |calls| && calls[i].Key() == calls[j].Key() == key && -1 <= n < |calls|
    requires Answered(OutcomeAt(db, calls, i)) && Answered(OutcomeAt(db, calls, j))
    requires n == -1 ==> Unanswered(db, calls, key, |calls|)
    requires n >= 0 ==> Settled(db, calls, key, n, |calls|)
    ensures OutcomeAt(db, calls, j) == Replayed(OutcomeAt(db, calls, i).answer)
  {
    hide OutcomeAt;
  }

  lemma ReplayedAt(db: Db, calls: seq<Call>, j: nat)
    requires j < |calls| && OutcomeAt(db, calls, j).Replayed?
    ensures StateAt(db, calls, j + 1) == StateAt(db, calls, j)
  {
    hide Perform;
    ReplayChangesNothing(StateAt(db, calls, j), calls[j]);
  }

  lemma ReplayChangesNothing(db: Db, c: Call)
    requires Perform(db, c).outcome.Replayed?
    ensures Perform(db, c).db == db
  {}

  // ---------------------------------------------------------------- how far replay reaches

  /** Call i created for the key and its record was saved. */
  ghost predicate Saves(db: Db, calls: seq<Call>, key: string, i: nat)
    requires i < |calls|
  {
    calls[i].Key() == key && !calls[i].Other? && OutcomeAt(db, calls, i).Created? && !calls[i].saveFails
  }

  /** The last call before m that saved a record for the key, whoever made it; -1 if none. */
  ghost function LastSave(db: Db, calls: seq<Call>, key: string, m: nat): (n: int)
    requires m <= |calls|
    ensures -1 <= n < m
    ensures n >= 0 ==> Saves(db, calls, key, n)
    ensures forall i | n < i < m :: !Saves(db, calls, key, i)
  {
    if m == 0 then -1 else if Saves(db, calls, key, m - 1) then m - 1 else LastSave(db, calls, key, m - 1)
  }

  lemma SaveOrSpare(db: Db, c: Call, key: string)
    requires key != ""
    ensures var r := Perform(db, c);
            if c.Key() == key && !c.Other? && r.outcome.Created? && !c.saveFails
            then r.db.idempotency == db.idempotency[key := Record(c.agent, r.outcome.answer)] &&
                 (r.outcome.answer.ThreadResponse? <==> c.ThreadCall?)
            else (key in r.db.idempotency <==> key in db.idempotency) &&
                 (key in db.idempotency ==> r.db.idempotency[key] == db.idempotency[key])
  {
    hide ThreadInputValid, ValidDocument, HasPost, Forum.Named, TrimSpace, ReindexedTerms;
    CallsSpareRecords(db, c);
  }

  /** In every run the record of a key is the one saved last, by whichever agent and for whichever kind. */
  lemma {:induction false} RecordIsLastSave(db: Db, calls: seq<Call>, key: string, m: nat)
    requires key != "" && key !in db.idempotency && m <= |calls|
    ensures var n := LastSave(db, calls, key, m);
            var records := StateAt(db, calls, m).idempotency;
            if n == -1 then key !in records
            else key in records && records[key] == Record(calls[n].agent, OutcomeAt(db, calls, n).answer) &&
                 (records[key].response.ThreadResponse? <==> calls[n].ThreadCall?)
  {
    if m > 0 {
      RecordIsLastSave(db, calls, key, m - 1);
      hide Perform;
      SaveOrSpare(StateAt(db, calls, m - 1), calls[m - 1], key);
    }
  }

  /** Where idempotency holds, exactly: a call that passes validation is a replay if and only if the last
      record saved for its key was saved by the same agent for the same kind of entity, and then it
      gets that answer. A failed save and a save by another agent both break it. */
  lemma ReplayIffLastSaveIsOwn(db: Db, calls: seq<Call>, j: nat)
    requires j < |calls| && calls[j].Key() != "" && calls[j].Key() !in db.idempotency
    requires !OutcomeAt(db, calls, j).InvalidInput? && !OutcomeAt(db, calls, j).NotFound?
    ensures var n := LastSave(db, calls, calls[j].Key(), j);
            OutcomeAt(db, calls, j).Replayed? <==>
            n >= 0 && calls[n].agent == calls[j].agent && calls[n].ThreadCall? == calls[j].ThreadCall?
    ensures OutcomeAt(db, calls, j).Replayed? ==>
              OutcomeAt(db, calls, j).answer == OutcomeAt(db, calls, LastSave(db, calls, calls[j].Key(), j)).answer
  {
    hide ThreadInputValid, ValidDocument, HasPost, Forum.Named, TrimSpace, WithThread, WithPost, StateAt, LastSave;
    RecordIsLastSave(db, calls, calls[j].Key(), j);
  }

  /** A retry of a created post replays it exactly when the first call's record was saved. */
  lemma RetryReplaysIffSaved(db: Db, agent: Id, input: PostInput, first: Generated, second: Generated, saveFails: bool)
    requires input.key != "" && input.key !in db.idempotency
    requires CallPost(db, agent, input, first, false, saveFails).outcome.Created?
    ensures var db' := CallPost(db, agent, input, first, false, saveFails).db;
            var retry := CallPost(db', agent, input, second, false, false).outcome;
            (retry.Replayed? <==> !saveFails) &&
            (saveFails ==> retry == Created(PostResponse(BuildPost(agent, input, second))))
  {
    hide ValidDocument, TrimSpace, ReindexedTerms;
    var p := BuildPost(agent, input, first);
    var posts' := db.posts + [p];
    if input.replyTo != "" {
      var j :| 0 <= j < |db.posts| && db.posts[j].id == input.replyTo && db.posts[j].thread == p.thread;
      assert posts'[j] == db.posts[j];
      assert Forum.Named(posts', |posts'|, input.replyTo, p.thread);
    }
  }

  /** A second agent creating with the same key replaces the first agent's record: the first agent's
      retry then creates again. */
  lemma SharedKeyForgets(db: Db, a: Call, b: Call, retry: Call)
    requires a.PostCall? && b.PostCall? && retry.PostCall?
    requires a.Key() == b.Key() == retry.Key() != "" && a.agent == retry.agent != b.agent && !b.saveFails
    requires Perform(db, a).outcome.Created?
    requires Perform(Perform(db, a).db, b).outcome.Created?
    ensures !Perform(Perform(Perform(db, a).db, b).db, retry).outcome.Replayed?
  {}

  /** A call that creates is a run of the forum's own steps: a check, the commit, and the save of the record.
      So whatever the forum's runs keep, runs of calls keep. */
  lemma CreationIsSteps(db: Db, c: Call)
    requires Perform(db, c).outcome.Created? && !c.Other?
    requires c.ThreadCall? ==>
               ThreadFits(db, BuildThread(c.agent, c.thread, c.ids), BuildOpening(c.agent, c.thread, c.ids))
    requires c.PostCall? ==> PostFits(db, BuildPost(c.agent, c.post, c.ids))
    ensures var s := Forum.State(db, {});
            var created := if c.ThreadCall?
              then Forum.Next(s, Forum.CommitThread(BuildThread(c.agent, c.thread, c.ids),
                                                    BuildOpening(c.agent, c.thread, c.ids), c.thread.watch))
              else
                var p := BuildPost(c.agent, c.post, c.ids);
                var t := Forum.Next(s, Forum.CheckPost(p));
                if p.thread in db.threads
                then Forum.Next(t, Forum.CommitPost(Forum.Checked(p, db.threads[p.thread].subforum))) else t;
            var saved := if c.Key() == "" || c.saveFails then created
              else Forum.Next(created, Forum.SaveRecord(c.Key(), Record(c.agent, Perform(db, c).outcome.answer)));
            Perform(db, c).db == saved.db
  {
    hide TrimSpace, ReindexedTerms, Validate, Walk;
    if c.ThreadCall? {
      assert ValidDocument(c.thread.metadata) && ValidDocument(c.thread.postMetadata);
      ValidatedIsAccepted(c.thread.metadata.fields, c.thread.metadata.encoding);
      ValidatedIsAccepted(c.thread.postMetadata.fields, c.thread.postMetadata.encoding);
      hide ThreadFits, WithThread;
    } else {
      ValidatedIsAccepted(c.post.metadata.fields, c.post.metadata.encoding);
      hide PostFits, WithPost;
    }
  }

  /** Every call of the service keeps the forum's invariants. */
  lemma CallsKeepInv(db: Db, c: Call)
    requires Forum.Inv(db)
    requires c.ThreadCall? && !c.aborted ==>
               ThreadFits(db, BuildThread(c.agent, c.thread, c.ids), BuildOpening(c.agent, c.thread, c.ids))
    requires c.PostCall? && !c.aborted ==> PostFits(db, BuildPost(c.agent, c.post, c.ids))
    ensures Forum.Inv(Perform(db, c).db)
  {
    hide Forum.Inv, WithThread, WithPost, ThreadFits, PostFits, TrimSpace, Walk;
    match c
    case ThreadCall(a, input, ids, aborted, saveFails) =>
      var th, p := BuildThread(a, input, ids), BuildOpening(a, input, ids);
      if Perform(db, c).outcome.Created? {
        ValidatedIsAccepted(input.metadata.fields, input.metadata.encoding);
        ValidatedIsAccepted(input.postMetadata.fields, input.postMetadata.encoding);
        Forum.CommitThreadKeepsInv(db, th, p, input.watch);
        Forum.OtherTablesKeepInv(WithThread(db, th, p, input.watch), Perform(db, c).db);
      }
    case PostCall(a, input, ids, aborted, saveFails) =>
      var p := BuildPost(a, input, ids);
      if Perform(db, c).outcome.Created? {
        ValidatedIsAccepted(input.metadata.fields, input.metadata.encoding);
        Forum.CommitPostKeepsInv(db, p);
        Forum.OtherTablesKeepInv(WithPost(db, p, db.threads[p.thread].subforum), Perform(db, c).db);
      }
    case Other(step) => Forum.OtherTablesKeepInv(db, Perform(db, c).db);
  }
}
