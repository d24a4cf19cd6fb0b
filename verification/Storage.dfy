/**
 internal/store: transactions over the tables, with a fault injected at any statement, and the
 single-statement methods around them.
 */
module Storage {
  import opened Strings
  import opened Metadata
  import opened Tables
  import Forum
  import Inbox

  /** A transaction: its statements change a private copy, and statement number n fails if n is in faults. */
  class Tx {
    var work: Db
    var executed: nat
    const faults: set<nat>

    constructor (db: Db, faults: set<nat>)
      ensures work == db && executed == 0 && this.faults == faults
    {
      work := db;
      executed := 0;
      this.faults := faults;
    }

    method Injected() returns (fault: bool)
      modifies this`executed
      ensures executed == old(executed) + 1
      ensures fault <==> old(executed) in faults
    {
      fault := executed in faults;
      executed := executed + 1;
    }

    method InsertThread(th: Thread) returns (ok: bool)
      modifies this
      ensures ok ==> th.id !in old(work).threads && th.subforum in old(work).subforums && th.creator in old(work).agents
      ensures ok ==> work == old(work).(threads := old(work).threads[th.id := th.(updatedAt := th.createdAt)])
      ensures faults == {} && !ok ==>
                !(th.id !in old(work).threads && th.subforum in old(work).subforums && th.creator in old(work).agents)
    {
      var fault := Injected();
      ok := !fault && th.id !in work.threads && th.subforum in work.subforums && th.creator in work.agents;
      if ok {
        work := work.(threads := work.threads[th.id := th.(updatedAt := th.createdAt)]);
      }
    }

    method InsertPost(p: Post) returns (ok: bool)
      modifies this
      ensures ok ==> PostFits(old(work), p) && work == old(work).(posts := old(work).posts + [p])
      ensures faults == {} && !ok ==> !PostFits(old(work), p)
    {
      var fault := Injected();
      ok := !fault && PostFits(work, p);
      if ok {
        work := work.(posts := work.posts + [p]);
      }
    }

    /** upsertParticipantTx */
    method UpsertParticipant(agent: Id, thread: Id, at: Stamp) returns (ok: bool)
      modifies this
      ensures ok ==> work == old(work).(participants := old(work).participants[(agent, thread) := at])
      ensures faults == {} && agent in old(work).agents && thread in old(work).threads ==> ok
    {
      var fault := Injected();
      ok := !fault && agent in work.agents && thread in work.threads;
      if ok {
        work := work.(participants := work.participants[(agent, thread) := at]);
      }
    }

    /** appendEventTx */
    method AppendEvent(kind: EventType, actor: Id, thread: Id, post: Id, subforum: string, at: Stamp) returns (ok: bool)
      modifies this
      ensures ok ==> work == AppendedEvent(old(work), kind, actor, thread, post, subforum, at)
      ensures faults == {} && actor in old(work).agents ==> ok
    {
      var fault := Injected();
      ok := !fault && actor in work.agents;
      if ok {
        work := AppendedEvent(work, kind, actor, thread, post, subforum, at);
      }
    }

    /** watchThreadTx */
    method WatchThread(agent: Id, thread: Id) returns (ok: bool)
      modifies this
      ensures ok ==> work == old(work).(watches := old(work).watches + {(agent, thread)})
      ensures faults == {} && agent in old(work).agents && thread in old(work).threads ==> ok
    {
      var fault := Injected();
      ok := !fault && agent in work.agents && thread in work.threads;
      if ok {
        work := work.(watches := work.watches + {(agent, thread)});
      }
    }

    /** UPDATE threads SET updated_at ... RETURNING 1: a missing row is an error. */
    method BumpThread(thread: Id, at: Stamp) returns (ok: bool)
      modifies this
      ensures ok ==> thread in old(work).threads &&
                     work == old(work).(
                       threads := old(work).threads[thread := old(work).threads[thread].(updatedAt := at)])
      ensures faults == {} && thread in old(work).threads ==> ok
    {
      var fault := Injected();
      ok := !fault && thread in work.threads;
      if ok {
        work := work.(threads := work.threads[thread := work.threads[thread].(updatedAt := at)]);
      }
    }

    /** INSERT OR IGNORE INTO metadata_terms */
    method InsertTerm(r: TermRow) returns (ok: bool)
      modifies this
      ensures ok ==> work == old(work).(terms := old(work).terms + {r})
      ensures faults == {} ==> ok
    {
      var fault := Injected();
      ok := !fault;
      if ok {
        work := work.(terms := work.terms + {r});
      }
    }

    method DeleteTerms(entityType: string, id: Id) returns (ok: bool)
      modifies this
      ensures ok ==> work == old(work).(terms := ClearedTerms(old(work).terms, entityType, id))
      ensures faults == {} ==> ok
    {
      var fault := Injected();
      ok := !fault;
      if ok {
        work := work.(terms := ClearedTerms(work.terms, entityType, id));
      }
    }

    /** indexMetadataTermsTx: delete the entity's rows, then insert one row for each term kept. */
    method IndexMetadataTerms(entityType: string, id: Id, m: map<string, Json>) returns (ok: bool)
      modifies this
      ensures ok ==> work == old(work).(terms := ReindexedTerms(old(work).terms, entityType, id, m))
      ensures faults == {} ==> ok
    {
      ok := DeleteTerms(entityType, id);
      if !ok { return; }
      var out := new TermList();
      FlattenMetadata(Obj(m), "", out);
      var terms := out.terms;
      ghost var before := work;
      var i := 0;
      while i < |terms|
        invariant 0 <= i <= |terms|
        invariant work == before.(terms := before.terms + KeptRows(terms[..i], entityType, id))
      {
        TrimSpaceBlank(terms[i].value);
        assert terms[..i + 1] == terms[..i] + [terms[i]];
        KeptRowsSnoc(terms[..i], terms[i], entityType, id);
        if terms[i].key == "" || TrimSpace(terms[i].value) == "" {
        } else {
          ok := InsertTerm(TermRow(entityType, id, terms[i].key, terms[i].value));
          if !ok { return; }
        }
        i := i + 1;
      }
      assert terms[..i] == terms;
      KeptRowsAll(terms, entityType, id, m);
    }
  }

  /** The rows that the insert loop writes for a list of terms. */
  ghost function KeptRows(terms: seq<Term>, entityType: string, id: Id): set<TermRow> {
    set t | t in terms && Indexable(t) :: TermRow(entityType, id, t.key, t.value)
  }

  lemma KeptRowsSnoc(terms: seq<Term>, t: Term, entityType: string, id: Id)
    ensures KeptRows(terms + [t], entityType, id) ==
            KeptRows(terms, entityType, id) +
            if Indexable(t) then {TermRow(entityType, id, t.key, t.value)} else {}
  {}

  lemma KeptRowsAll(terms: seq<Term>, entityType: string, id: Id, m: map<string, Json>)
    requires multiset(terms) == TermBag(Obj(m), "")
    ensures KeptRows(terms, entityType, id) == TermRows(entityType, id, m)
  {}

  /** The database handle. Readers and other transactions see db, which only a commit changes. */
  class Store {
    var db: Db

    constructor ()
      ensures db == EMPTY_DB
    {
      db := EMPTY_DB;
    }

    /** CreateThreadWithPost: whatever statement fails, the visible database is the old one; otherwise
        it is the complete new one. */
    method CreateThreadWithPost(th: Thread, p: Post, watch: bool, faults: set<nat>) returns (ok: bool)
      modifies this
      ensures ok ==> ThreadFits(old(db), th, p) && db == WithThread(old(db), th, p, watch)
      ensures !ok ==> db == old(db)
      ensures faults == {} ==>
                (ok <==> th.id !in old(db).threads &&
                         th.subforum in old(db).subforums && th.creator in old(db).agents &&
                         (forall q | q in old(db).posts :: q.id != p.id) && p.author in old(db).agents)
    {
      var tx := new Tx(db, faults);
      ok := tx.InsertThread(th);
      if !ok { return; }
      ok := tx.InsertPost(p.(thread := th.id));
      if !ok { return; }
      ok := tx.UpsertParticipant(th.creator, th.id, th.createdAt);
      if !ok { return; }
      ok := tx.IndexMetadataTerms(THREAD_ENTITY, th.id, th.metadata);
      if !ok { return; }
      ok := tx.IndexMetadataTerms(POST_ENTITY, p.id, p.metadata);
      if !ok { return; }
      ok := tx.AppendEvent(ThreadCreated, th.creator, th.id, "", th.subforum, th.createdAt);
      if !ok { return; }
      ok := tx.AppendEvent(PostCreated, p.author, th.id, p.id, th.subforum, p.createdAt);
      if !ok { return; }
      if watch {
        ok := tx.WatchThread(th.creator, th.id);
        if !ok { return; }
      }
      var fault := tx.Injected();
      ok := !fault;
      if ok {
        db := tx.work;
      }
    }

    /** CreatePost, with the same guarantee. */
    method CreatePost(p: Post, subforum: string, faults: set<nat>) returns (ok: bool)
      modifies this
      ensures ok ==> PostFits(old(db), p) && db == WithPost(old(db), p, subforum)
      ensures !ok ==> db == old(db)
      ensures faults == {} ==>
                (ok <==> (forall q | q in old(db).posts :: q.id != p.id) && p.thread in old(db).threads &&
                         p.author in old(db).agents)
    {
      var tx := new Tx(db, faults);
      ok := tx.InsertPost(p);
      if !ok { return; }
      ok := tx.UpsertParticipant(p.author, p.thread, p.createdAt);
      if !ok { return; }
      ok := tx.IndexMetadataTerms(POST_ENTITY, p.id, p.metadata);
      if !ok { return; }
      ok := tx.AppendEvent(PostCreated, p.author, p.thread, p.id, subforum, p.createdAt);
      if !ok { return; }
      ok := tx.BumpThread(p.thread, p.createdAt);
      if !ok { return; }
      var fault := tx.Injected();
      ok := !fault;
      if ok {
        db := tx.work;
      }
    }

    // -------------------------------------------------------------- single statements

    method RegisterAgent(agent: Id)
      modifies this
      ensures db == old(db).(agents := old(db).agents + {agent})
    {
      db := db.(agents := db.agents + {agent});
    }

    method CreateSubforum(key: string)
      modifies this
      ensures db == old(db).(subforums := old(db).subforums + {key})
    {
      db := db.(subforums := db.subforums + {key});
    }

    method WatchThread(agent: Id, thread: Id) returns (ok: bool)
      modifies this
      ensures ok <==> agent in old(db).agents && thread in old(db).threads
      ensures db == if ok then old(db).(watches := old(db).watches + {(agent, thread)}) else old(db)
    {
      ok := agent in db.agents && thread in db.threads;
      if ok { db := db.(watches := db.watches + {(agent, thread)}); }
    }

    method UnwatchThread(agent: Id, thread: Id)
      modifies this
      ensures db == old(db).(watches := old(db).watches - {(agent, thread)})
    {
      db := db.(watches := db.watches - {(agent, thread)});
    }

    method WatchSubforum(agent: Id, key: string) returns (ok: bool)
      modifies this
      ensures ok <==> agent in old(db).agents && key in old(db).subforums
      ensures db == if ok then old(db).(subforumWatches := old(db).subforumWatches + {(agent, key)}) else old(db)
    {
      ok := agent in db.agents && key in db.subforums;
      if ok { db := db.(subforumWatches := db.subforumWatches + {(agent, key)}); }
    }

    method UnwatchSubforum(agent: Id, key: string)
      modifies this
      ensures db == old(db).(subforumWatches := old(db).subforumWatches - {(agent, key)})
    {
      db := db.(subforumWatches := db.subforumWatches - {(agent, key)});
    }

    /** AckEvents: the last write wins, even with a smaller sequence. */
    method AckEvents(agent: Id, through: int)
      modifies this
      ensures db == old(db).(acks := old(db).acks[agent := through])
    {
      db := db.(acks := db.acks[agent := through]);
    }

    /** GetAck: 0 if the agent never acknowledged. */
    method GetAck(agent: Id) returns (through: int)
      ensures through == if agent in db.acks then db.acks[agent] else 0
    {
      through := if agent in db.acks then db.acks[agent] else 0;
    }

    // -------------------------------------------------------------- reads

    method ListEventsAfter(cursor: int, limit: int) returns (out: seq<Event>)
      requires Forum.Ascending(db.events)
      ensures out == Inbox.ListEventsAfter(db.events, cursor, limit)
      ensures FirstAfter(db.events, cursor, if limit <= 0 then 500 else limit, out)
    {
      var size := if limit <= 0 then Inbox.DEFAULT_PAGE else limit;
      out := [];
      for i := 0 to |db.events|
        invariant out == Inbox.Take(Inbox.After(db.events[..i], cursor), size)
      {
        Inbox.AfterSnoc(db.events[..i], db.events[i], cursor);
        assert db.events[..i + 1] == db.events[..i] + [db.events[i]];
        if db.events[i].sequence > cursor && |out| < size {
          out := out + [db.events[i]];
        }
      }
      assert db.events[..|db.events|] == db.events;
      FirstAfterTaken(db.events, cursor, size);
    }

    method ListParticipantThreadIDs(agent: Id) returns (out: seq<Id>)
      ensures forall t :: t in out <==> (agent, t) in db.participants
      ensures forall i, j | 0 <= i < j < |out| :: out[i] != out[j]
    {
      out := Rows(ParticipantThreads(db, agent));
    }

    method ListWatchingThreadIDs(agent: Id) returns (out: seq<Id>)
      ensures forall t :: t in out <==> (agent, t) in db.watches
      ensures forall i, j | 0 <= i < j < |out| :: out[i] != out[j]
    {
      out := Rows(WatchedThreads(db, agent));
    }

    method WatchedSubforumKeys(agent: Id) returns (out: seq<string>)
      ensures forall k :: k in out <==> (agent, k) in db.subforumWatches
      ensures forall i, j | 0 <= i < j < |out| :: out[i] != out[j]
    {
      out := Rows(WatchedSubforums(db, agent));
    }
  }

  function ParticipantThreads(db: Db, agent: Id): (rows: set<Id>)
    ensures forall x :: x in rows <==> (agent, x) in db.participants
  {
    set row | row in db.participants && row.0 == agent :: row.1
  }

  function WatchedThreads(db: Db, agent: Id): (rows: set<Id>)
    ensures forall x :: x in rows <==> (agent, x) in db.watches
  {
    set row | row in db.watches && row.0 == agent :: row.1
  }

  function WatchedSubforums(db: Db, agent: Id): (rows: set<string>)
    ensures forall x :: x in rows <==> (agent, x) in db.subforumWatches
  {
    set row | row in db.subforumWatches && row.0 == agent :: row.1
  }

  /** At most n events above the cursor, in order, and none left out that comes before one given. */
  ghost predicate FirstAfter(log: seq<Event>, cursor: int, n: int, out: seq<Event>) {
    Forum.Ascending(out) && |out| <= n && (forall e | e in out :: e in log && e.sequence > cursor) &&
    (forall e | e in log && e.sequence > cursor && e !in out ::
      |out| == n && forall f | f in out :: f.sequence < e.sequence)
  }

  lemma FirstAfterTaken(log: seq<Event>, cursor: int, n: nat)
    requires Forum.Ascending(log)
    ensures FirstAfter(log, cursor, n, Inbox.Take(Inbox.After(log, cursor), n))
  {
    Inbox.AfterMembers(log, cursor);
    hide Inbox.After;
    FirstTaken(Inbox.After(log, cursor), n);
    hide Forum.Ascending;
  }

  lemma FirstTaken(left: seq<Event>, n: nat)
    requires Forum.Ascending(left)
    ensures var out := Inbox.Take(left, n);
            Forum.Ascending(out) && |out| <= n && (forall e | e in out :: e in left) &&
            (forall e | e in left && e !in out :: |out| == n && forall f | f in out :: f.sequence < e.sequence)
  {
    var out := Inbox.Take(left, n);
    assert forall i | 0 <= i < |out| :: left[i] == out[i] && left[i] in out && out[i] in left;
    forall e, f | e in left && e !in out && f in out ensures f.sequence < e.sequence {
      var i :| 0 <= i < |left| && left[i] == e;
      var j :| 0 <= j < |out| && out[j] == f;
      assert left[j] == f;
    }
  }

  /** The loop over a query's rows, in whatever order they come. */
  method Rows(rows: set<string>) returns (out: seq<string>)
    ensures forall x :: x in out <==> x in rows
    ensures forall i, j | 0 <= i < j < |out| :: out[i] != out[j]
  {
    out := [];
    var left := rows;
    while left != {}
      invariant left <= rows
      invariant forall x :: x in out <==> x in rows && x !in left
      invariant forall i, j | 0 <= i < j < |out| :: out[i] != out[j]
      decreases |left|
    {
      var x :| x in left;
      out := out + [x];
      left := left - {x};
    }
  }
}
