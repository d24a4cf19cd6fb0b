/** The eligibility rule and the paged cursor of the unified inbox (internal/service/events.go). */
module Inbox {
  import opened Strings
  import opened Tables
  import opened Forum

  datatype Reason = Participating | Watching | WatchedSubforum

  /** reasonSet */
  datatype Scope = Scope(participating: bool, watching: bool, watchedSubforum: bool)
  {
    predicate Accepts(r: Reason) {
      match r
      case Participating => participating
      case Watching => watching
      case WatchedSubforum => watchedSubforum
    }
  }

  const FULL_SCOPE := Scope(true, true, true)

  // ---------------------------------------------------------------- parseScope

  datatype Token = Unknown | Known(reason: Reason)

  /** The reason that a scope word stands for, aliases included. */
  function Meaning(word: string): Token {
    if word == "involved" then Known(Participating)
    else if word in ["watching", "watched-threads", "watching-threads"] then Known(Watching)
    else if word in ["watched-subforum", "watched-subforums"] then Known(WatchedSubforum)
    else Unknown
  }

  /** The reasons that a scope string names. */
  function NamedReasons(s: string): set<Reason> {
    set part, r | part in Split(TrimSpace(s), ',') && r in {Participating, Watching, WatchedSubforum} &&
      Meaning(TrimSpace(part)) == Known(r) :: r
  }

  function ScopeOf(s: string): Scope {
    if TrimSpace(s) == "" then FULL_SCOPE
    else Scope(Participating in NamedReasons(s), Watching in NamedReasons(s), WatchedSubforum in NamedReasons(s))
  }

  /** One of the first n words names the reason. */
  predicate NamedBefore(parts: seq<string>, n: nat, r: Reason)
    requires n <= |parts|
  {
    exists j | 0 <= j < n :: Meaning(TrimSpace(parts[j])) == Known(r)
  }

  lemma NamedNext(parts: seq<string>, n: nat, r: Reason)
    requires n < |parts|
    ensures NamedBefore(parts, n + 1, r) <==> NamedBefore(parts, n, r) || Meaning(TrimSpace(parts[n])) == Known(r)
  {}

  lemma NamedAll(s: string, r: Reason)
    ensures var parts := Split(TrimSpace(s), ','); NamedBefore(parts, |parts|, r) <==> r in NamedReasons(s)
  {}

  method ParseScope(s: string) returns (rs: Scope)
    ensures rs == ScopeOf(s)
  {
    hide NamedBefore, NamedReasons, Split, TrimSpace;
    var trimmed := TrimSpace(s);
    if trimmed == "" { return FULL_SCOPE; }
    rs := Scope(false, false, false);
    var parts := Split(trimmed, ',');
    forall r: Reason ensures !NamedBefore(parts, 0, r) { NamedNone(parts, r); }
    for i := 0 to |parts|
      invariant forall r: Reason :: rs.Accepts(r) <==> NamedBefore(parts, i, r)
    {
      var word := TrimSpace(parts[i]);
      ghost var before := rs;
      forall r: Reason { NamedNext(parts, i, r); }
      if word == "involved" {
        rs := rs.(participating := true);
      } else if word == "watching" || word == "watched-threads" || word == "watching-threads" {
        rs := rs.(watching := true);
      } else if word == "watched-subforum" || word == "watched-subforums" {
        rs := rs.(watchedSubforum := true);
      }
      assert forall r: Reason :: rs.Accepts(r) <==> before.Accepts(r) || Meaning(word) == Known(r);
    }
    forall r: Reason { NamedAll(s, r); }
    assert forall r: Reason :: rs.Accepts(r) <==> r in NamedReasons(s);
    assert rs.Accepts(Participating) == rs.participating && rs.Accepts(Watching) == rs.watching;
    assert rs.Accepts(WatchedSubforum) == rs.watchedSubforum;
  }

  lemma NamedNone(parts: seq<string>, r: Reason)
    ensures !NamedBefore(parts, 0, r)
  {}

  /** One of the words stands for the reason. */
  predicate Names(words: seq<string>, r: Reason) {
    exists i | 0 <= i < |words| :: Meaning(TrimSpace(words[i])) == Known(r)
  }

  predicate CommaFree(words: seq<string>) {
    words != [] && forall w | w in words :: ',' !in w
  }

  lemma NamedByParts(s: string, r: Reason)
    ensures r in NamedReasons(s) <==> Names(Split(s, ','), r)
  {
    TrimSpaceKeepsParts(s, ',');
    var whole, parts := Split(TrimSpace(s), ','), Split(s, ',');
    hide Split, TrimSpace, Meaning;
    assert |TrimEach(whole)| == |whole| && |TrimEach(parts)| == |parts|;
    forall i | 0 <= i < |whole| ensures TrimSpace(whole[i]) == TrimSpace(parts[i]) {
      assert TrimEach(whole)[i] == TrimEach(parts)[i];
    }
    if r in NamedReasons(s) {
      var part :| part in whole && Meaning(TrimSpace(part)) == Known(r);
      var i :| 0 <= i < |whole| && whole[i] == part;
      assert Meaning(TrimSpace(parts[i])) == Known(r);
    }
    if Names(parts, r) {
      var i :| 0 <= i < |parts| && Meaning(TrimSpace(parts[i])) == Known(r);
      assert whole[i] in whole && Meaning(TrimSpace(whole[i])) == Known(r);
    }
  }

  /** A list of words, not all blank, accepts exactly the reasons that some word stands for. */
  lemma ScopeOfWords(words: seq<string>, r: Reason)
    requires CommaFree(words) && !Blank(Join(words, ','))
    ensures ScopeOf(Join(words, ',')).Accepts(r) <==> Names(words, r)
  {
    TrimSpaceBlank(Join(words, ','));
    SplitJoin(words, ',');
    NamedByParts(Join(words, ','), r);
  }

  /** What each word asks for, and that no other word asks for anything. */
  lemma WordScope(word: string, r: Reason)
    requires ',' !in word && TrimSpace(word) != ""
    ensures ScopeOf(word).Accepts(r) <==>
            var w := TrimSpace(word);
            (w == "involved" && r == Participating) ||
            ((w == "watching" || w == "watched-threads" || w == "watching-threads") && r == Watching) ||
            ((w == "watched-subforum" || w == "watched-subforums") && r == WatchedSubforum)
  {
    hide TrimSpace;
    TrimSpaceBlank(word);
    assert Join([word], ',') == word;
    ScopeOfWords([word], r);
    assert Names([word], r) <==> Meaning(TrimSpace([word][0])) == Known(r);
  }

  /** A blank scope asks for all three reasons. */
  lemma BlankScope(s: string, r: Reason)
    requires Blank(s)
    ensures ScopeOf(s).Accepts(r)
  {
    TrimSpaceBlank(s);
  }

  lemma SameScope(s: Scope, t: Scope)
    requires forall r: Reason :: s.Accepts(r) <==> t.Accepts(r)
    ensures s == t
  {
    assert s.Accepts(Participating) == s.participating && t.Accepts(Participating) == t.participating;
    assert s.Accepts(Watching) == s.watching && t.Accepts(Watching) == t.watching;
    assert s.Accepts(WatchedSubforum) == s.watchedSubforum && t.Accepts(WatchedSubforum) == t.watchedSubforum;
  }

  /** Order and repetition of the words do not matter. */
  lemma ScopeIgnoresOrder(words: seq<string>, others: seq<string>)
    requires CommaFree(words) && CommaFree(others) && !Blank(Join(words, ',')) && !Blank(Join(others, ','))
    requires forall w :: w in words <==> w in others
    ensures ScopeOf(Join(words, ',')) == ScopeOf(Join(others, ','))
  {
    hide Meaning, TrimSpace, Join, ScopeOf;
    forall r: Reason ensures ScopeOf(Join(words, ',')).Accepts(r) <==> ScopeOf(Join(others, ',')).Accepts(r) {
      ScopeOfWords(words, r);
      ScopeOfWords(others, r);
      assert forall i | 0 <= i < |words| :: words[i] in others;
      assert forall i | 0 <= i < |others| :: others[i] in words;
    }
    SameScope(ScopeOf(Join(words, ',')), ScopeOf(Join(others, ',')));
  }

  /** Nor does it matter which alias of a reason is used, with what spaces, or which unknown word. */
  lemma ScopeIgnoresAliases(words: seq<string>, i: nat, alias: string)
    requires i < |words| && CommaFree(words) && ',' !in alias &&
      Meaning(TrimSpace(alias)) == Meaning(TrimSpace(words[i]))
    requires !Blank(Join(words, ',')) && !Blank(Join(words[i := alias], ','))
    ensures ScopeOf(Join(words[i := alias], ',')) == ScopeOf(Join(words, ','))
  {
    hide Meaning, TrimSpace, Join, ScopeOf;
    var others := words[i := alias];
    assert CommaFree(others);
    forall r: Reason ensures ScopeOf(Join(words, ',')).Accepts(r) <==> ScopeOf(Join(others, ',')).Accepts(r) {
      ScopeOfWords(words, r);
      ScopeOfWords(others, r);
      assert forall j | 0 <= j < |words| :: Meaning(TrimSpace(others[j])) == Meaning(TrimSpace(words[j]));
    }
    SameScope(ScopeOf(Join(words, ',')), ScopeOf(Join(others, ',')));
  }

  /** Why blank lists stand apart: one blank word asks for everything, two ask for nothing. */
  lemma BlankWordsDiffer()
    ensures ScopeOf(Join([""], ',')) == FULL_SCOPE && ScopeOf(Join(["", ""], ',')) == Scope(false, false, false)
  {
    var s := Join(["", ""], ',');
    assert s == "," && s[0] == ',' && !IsSpace(',');
    forall r: Reason ensures !ScopeOf(s).Accepts(r) {
      assert !Blank(s);
      ScopeOfWords(["", ""], r);
    }
    SameScope(ScopeOf(s), Scope(false, false, false));
  }

  // ---------------------------------------------------------------- eligibility

  datatype Relevance = Irrelevant | Because(reason: Reason)

  /** eventReason: participating before watching before watched subforum. */
  function EventReason(e: Event, part: set<Id>, watch: set<Id>, subs: set<string>): Relevance {
    if e.thread in part then Because(Participating)
    else if e.thread in watch then Because(Watching)
    else if e.subforum != "" && e.subforum in subs then Because(WatchedSubforum)
    else Irrelevant
  }

  /** Who is asking, and the three membership sets and scope that decide. */
  datatype Reader = Reader(agent: Id, part: set<Id>, watch: set<Id>, subs: set<string>, scope: Scope)
  {
    function Reason(e: Event): Relevance {
      EventReason(e, part, watch, subs)
    }

    predicate Takes(e: Event) {
      e.actor != agent && Reason(e).Because? && scope.Accepts(Reason(e).reason)
    }
  }

  datatype Delivery = Delivery(event: Event, reason: Reason)

  function Sequences(ds: seq<Delivery>): set<int> {
    set d | d in ds :: d.event.sequence
  }

  /** The specification of the inbox: a filter over the log, tagged with reasons. */
  function Eligible(events: seq<Event>, r: Reader): seq<Delivery> {
    if events == [] then []
    else
      (if r.Takes(events[0]) then [Delivery(events[0], r.Reason(events[0]).reason)] else []) + Eligible(events[1..], r)
  }

  lemma {:induction false} EligibleConcat(a: seq<Event>, b: seq<Event>, r: Reader)
    ensures Eligible(a + b, r) == Eligible(a, r) + Eligible(b, r)
  {
    if a == [] {
      assert a + b == b;
    } else {
      assert (a + b)[1..] == a[1..] + b;
      EligibleConcat(a[1..], b, r);
    }
  }

  lemma {:induction false} EligibleMembers(events: seq<Event>, r: Reader)
    ensures forall d :: d in Eligible(events, r) <==>
              d.event in events && r.Takes(d.event) && d.reason == r.Reason(d.event).reason
  {
    if events != [] {
      EligibleMembers(events[1..], r);
      assert events == [events[0]] + events[1..];
    }
  }

  predicate AscendingDeliveries(ds: seq<Delivery>) {
    forall i, j | 0 <= i < j < |ds| :: ds[i].event.sequence < ds[j].event.sequence
  }

  lemma {:induction false} EligibleAscending(events: seq<Event>, r: Reader)
    requires Ascending(events)
    ensures AscendingDeliveries(Eligible(events, r))
  {
    if events != [] {
      EligibleAscending(events[1..], r);
      EligibleMembers(events[1..], r);
    }
  }

  // ---------------------------------------------------------------- the cursor

  /** WHERE sequence > ? ORDER BY sequence ASC, on a log in ascending order. */
  function After(log: seq<Event>, cursor: int): seq<Event> {
    if log == [] then []
    else if log[0].sequence > cursor then log
    else After(log[1..], cursor)
  }

  function Take(events: seq<Event>, limit: nat): seq<Event> {
    if |events| <= limit then events else events[..limit]
  }

  const DEFAULT_PAGE := 500

  /** ListEventsAfter; a limit of 0 or less means the default page size. */
  function ListEventsAfter(log: seq<Event>, cursor: int, limit: int): seq<Event> {
    Take(After(log, cursor), if limit <= 0 then DEFAULT_PAGE else limit)
  }

  lemma {:induction false} AfterSuffix(log: seq<Event>, cursor: int)
    ensures |After(log, cursor)| <= |log|
    ensures After(log, cursor) == log[|log| - |After(log, cursor)|..]
  {
    if log != [] && log[0].sequence <= cursor {
      AfterSuffix(log[1..], cursor);
    }
  }

  lemma {:induction false} AfterHolds(log: seq<Event>, cursor: int)
    requires Ascending(log)
    ensures forall e :: e in After(log, cursor) <==> e in log && e.sequence > cursor
  {
    if log != [] && log[0].sequence <= cursor {
      AfterHolds(log[1..], cursor);
      assert log == [log[0]] + log[1..];
    }
  }

  lemma AfterMembers(log: seq<Event>, cursor: int)
    requires Ascending(log)
    ensures Ascending(After(log, cursor)) && |After(log, cursor)| <= |log|
    ensures After(log, cursor) == log[|log| - |After(log, cursor)|..]
    ensures forall e :: e in After(log, cursor) <==> e in log && e.sequence > cursor
  {}

  /** Where a page leaves the cursor: past everything examined. */
  function Advance(page: seq<Event>, cursor: int): int {
    if page == [] then cursor else page[|page| - 1].sequence
  }

  lemma {:induction false} AfterIndex(log: seq<Event>, n: nat)
    requires Ascending(log) && 0 < n <= |log|
    ensures After(log, log[n - 1].sequence) == log[n..]
  {
    if n > 1 {
      AfterIndex(log[1..], n - 1);
    } else if |log| > 1 {
      assert log[1..][0].sequence > log[0].sequence;
    }
  }

  lemma {:induction false} AfterSnoc(log: seq<Event>, e: Event, cursor: int)
    requires Ascending(log + [e])
    ensures After(log + [e], cursor) == After(log, cursor) + if e.sequence > cursor then [e] else []
  {
    var all := log + [e];
    if log == [] {
    } else if log[0].sequence > cursor {
      assert all[0].sequence < all[|log|].sequence;
    } else {
      assert all[1..] == log[1..] + [e];
      AfterSnoc(log[1..], e, cursor);
    }
  }

  /** Growth of the log only adds behind what a cursor sees. */
  lemma {:induction false} AfterGrows(log: seq<Event>, more: seq<Event>, cursor: int)
    requires Ascending(log + more)
    ensures After(log, cursor) <= After(log + more, cursor)
    ensures |After(log + more, cursor)| <= |After(log, cursor)| + |more|
  {
    if more == [] {
      assert log + more == log;
    } else {
      var n := |more| - 1;
      assert log + more == (log + more[..n]) + [more[n]];
      assert forall i | 0 <= i < |log| + n :: (log + more[..n])[i] == (log + more)[i];
      AfterGrows(log, more[..n], cursor);
      AfterSnoc(log + more[..n], more[n], cursor);
    }
  }

  /** The further cursor sees no more of the growth. */
  lemma {:induction false} GrowthSeen(log: seq<Event>, more: seq<Event>, near: int, far: int)
    requires Ascending(log + more) && near <= far
    ensures |After(log + more, far)| - |After(log, far)| <= |After(log + more, near)| - |After(log, near)|
  {
    if more == [] {
      assert log + more == log;
    } else {
      var n := |more| - 1;
      assert log + more == (log + more[..n]) + [more[n]];
      assert forall i | 0 <= i < |log| + n :: (log + more[..n])[i] == (log + more)[i];
      GrowthSeen(log, more[..n], near, far);
      AfterSnoc(log + more[..n], more[n], near);
      AfterSnoc(log + more[..n], more[n], far);
    }
  }

  /** A page holds everything in the log between the cursor and its last event. */
  lemma PageHolds(log: seq<Event>, cursor: int, page: seq<Event>, e: Event)
    requires Ascending(log) && page <= After(log, cursor)
    requires e in log && cursor < e.sequence <= Advance(page, cursor)
    ensures e in page
  {}

  /** What lies beyond a page is what lies beyond its last event. */
  lemma {:induction false} AfterPage(log: seq<Event>, cursor: int, page: seq<Event>)
    requires Ascending(log) && page <= After(log, cursor)
    ensures After(log, cursor) == page + After(log, Advance(page, cursor))
    ensures Advance(page, cursor) >= cursor
    ensures page != [] ==> |After(log, Advance(page, cursor))| < |After(log, cursor)|
  {
    if page == [] {
      assert page + After(log, cursor) == After(log, cursor);
    } else if log[0].sequence > cursor {
      AfterIndex(log, |page|);
      assert log == page + log[|page|..];
    } else {
      AfterPage(log[1..], cursor, page);
    }
  }

  // ---------------------------------------------------------------- a range of the log

  /** The events above one cursor and up to another. */
  function Between(log: seq<Event>, from: int, to: int): seq<Event> {
    if log == [] then []
    else (if from < log[0].sequence <= to then [log[0]] else []) + Between(log[1..], from, to)
  }

  lemma {:induction false} BetweenHolds(log: seq<Event>, from: int, to: int)
    ensures forall e :: e in Between(log, from, to) <==> e in log && from < e.sequence <= to
  {
    if log != [] {
      BetweenHolds(log[1..], from, to);
      assert log == [log[0]] + log[1..];
    }
  }

  lemma {:induction false} BetweenAscending(log: seq<Event>, from: int, to: int)
    requires Ascending(log)
    ensures Ascending(Between(log, from, to))
  {
    if log != [] {
      BetweenAscending(log[1..], from, to);
      BetweenHolds(log[1..], from, to);
    }
  }

  lemma BetweenMembers(log: seq<Event>, from: int, to: int)
    ensures forall e :: e in Between(log, from, to) <==> e in log && from < e.sequence <= to
    ensures Ascending(log) ==> Ascending(Between(log, from, to))
  {}

  lemma {:induction false} BetweenConcat(a: seq<Event>, b: seq<Event>, from: int, to: int)
    ensures Between(a + b, from, to) == Between(a, from, to) + Between(b, from, to)
  {
    if a == [] {
      assert a + b == b;
    } else {
      assert (a + b)[1..] == a[1..] + b;
      BetweenConcat(a[1..], b, from, to);
    }
  }

  lemma {:induction false} BetweenJoin(log: seq<Event>, from: int, mid: int, to: int)
    requires Ascending(log) && from <= mid <= to
    ensures Between(log, from, to) == Between(log, from, mid) + Between(log, mid, to)
  {
    if log != [] {
      BetweenJoin(log[1..], from, mid, to);
      if log[0].sequence > mid { NoneBelow(log, from, mid); }
    }
  }

  lemma NoneBelow(log: seq<Event>, from: int, to: int)
    requires Ascending(log) && log != [] && log[0].sequence > to
    ensures Between(log[1..], from, to) == []
  {
    BetweenMembers(log[1..], from, to);
    assert forall i | 0 < i < |log| :: log[i].sequence > to;
    NoMembers(Between(log[1..], from, to));
  }

  lemma SomeMember(events: seq<Event>)
    ensures events == [] || exists e :: e in events
  {
    if events != [] { assert events[0] in events; }
  }

  lemma NoMembers(events: seq<Event>)
    requires forall e :: e !in events
    ensures events == []
  {
    SomeMember(events);
  }

  lemma {:induction false} AfterBetween(log: seq<Event>, from: int, to: int)
    requires Ascending(log) && from <= to
    ensures After(log, from) == Between(log, from, to) + After(log, to)
  {
    if log != [] {
      AfterBetween(log[1..], from, to);
      if log[0].sequence > to {
        NoneBelow(log, from, to);
      } else if log[0].sequence > from {
        AfterAll(log, from);
      }
    }
  }

  lemma AfterAll(log: seq<Event>, cursor: int)
    requires Ascending(log) && log != [] && log[0].sequence > cursor
    ensures After(log[1..], cursor) == log[1..]
  {}

  /** A cursor that no later commit can fall behind: the one a walk started from, or one the log has reached. */
  predicate Reached(log: seq<Event>, start: int, cursor: int) {
    start <= cursor && (cursor == start || (log != [] && cursor <= log[|log| - 1].sequence))
  }

  /** The range up to such a cursor never changes again. */
  lemma BetweenSettled(log: seq<Event>, more: seq<Event>, start: int, from: int, to: int)
    requires Ascending(log + more) && start <= from && Reached(log, start, to)
    ensures Between(log + more, from, to) == Between(log, from, to)
    ensures Reached(log + more, start, to)
  {
    BetweenConcat(log, more, from, to);
    BetweenMembers(more, from, to);
    forall e | e in more ensures !(from < e.sequence <= to) {
      var i :| 0 <= i < |more| && more[i] == e;
      assert (log + more)[|log| + i] == e;
      assert log != [] ==> (log + more)[|log| - 1] == log[|log| - 1];
    }
    NoMembers(Between(more, from, to));
    assert Between(log, from, to) + [] == Between(log, from, to);
    if more != [] && log != [] {
      assert (log + more)[|log| + |more| - 1] == more[|more| - 1] && (log + more)[|log| - 1] == log[|log| - 1];
    } else if more == [] {
      assert log + more == log;
    }
  }

  /** A page is what lies between the cursor and where it is advanced to. */
  lemma PageIsRange(log: seq<Event>, start: int, cursor: int, size: nat)
    requires Ascending(log) && Reached(log, start, cursor)
    ensures var page := Take(After(log, cursor), size); var next := Advance(page, cursor);
            cursor <= next && Reached(log, start, next) && page == Between(log, cursor, next)
  {
    hide Ascending, After, Between;
    var page := Take(After(log, cursor), size);
    var next := Advance(page, cursor);
    AfterPage(log, cursor, page);
    AfterBetween(log, cursor, next);
    SameSuffix(page, Between(log, cursor, next), After(log, next));
    AdvanceReached(log, start, cursor, page);
  }

  lemma AdvanceReached(log: seq<Event>, start: int, cursor: int, page: seq<Event>)
    requires Ascending(log) && Reached(log, start, cursor) && page <= After(log, cursor)
    ensures Reached(log, start, Advance(page, cursor))
  {}

  lemma SameSuffix(a: seq<Event>, b: seq<Event>, c: seq<Event>)
    requires a + c == b + c
    ensures a == b
  {
    assert |a| == |b|;
    assert (a + c)[..|a|] == a && (b + c)[..|b|] == b;
  }

  // ---------------------------------------------------------------- polling a log that does not grow

  datatype Polled = Polled(events: seq<Delivery>, next: int)

  /** One non-blocking PollEvents with membership fixed, for any page size. */
  function PollOnce(log: seq<Event>, r: Reader, cursor: int, size: nat): Polled
    requires Ascending(log) && size > 0
    decreases |After(log, cursor)|
  {
    var page := Take(After(log, cursor), size);
    var next := Advance(page, cursor);
    if Eligible(page, r) != [] then Polled(Eligible(page, r), next)
    else if |page| < size then Polled([], next)
    else
      AfterPage(log, cursor, page);
      PollOnce(log, r, next, size)
  }

  function Last(log: seq<Event>, cursor: int): int {
    if After(log, cursor) == [] then cursor else log[|log| - 1].sequence
  }

  /** One poll delivers a whole number of pages: the eligible events up to the cursor it returns, which
      never goes back; it returns nothing only when nothing eligible is left. */
  lemma {:induction false} PollOnceExact(log: seq<Event>, r: Reader, cursor: int, size: nat)
    requires Ascending(log) && size > 0
    ensures var p := PollOnce(log, r, cursor, size);
            p.next >= cursor &&
            Eligible(After(log, cursor), r) == p.events + Eligible(After(log, p.next), r) &&
            Last(log, p.next) == Last(log, cursor) &&
            (p.events != [] ==> |After(log, p.next)| < |After(log, cursor)|) &&
            (p.events == [] ==> After(log, p.next) == [])
    decreases |After(log, cursor)|
  {
    var left := After(log, cursor);
    var page := Take(left, size);
    var next := Advance(page, cursor);
    AfterPage(log, cursor, page);
    EligibleConcat(page, After(log, next), r);
    LastKept(log, cursor, page);
    if Eligible(page, r) == [] {
      if |page| < size {
        assert page + After(log, next) == page;
      } else {
        PollOnceExact(log, r, next, size);
      }
    }
  }

  lemma LastKept(log: seq<Event>, cursor: int, page: seq<Event>)
    requires Ascending(log) && page <= After(log, cursor)
    ensures Last(log, Advance(page, cursor)) == Last(log, cursor)
  {
    AfterPage(log, cursor, page);
    AfterMembers(log, cursor);
    if page != [] && After(log, Advance(page, cursor)) == [] {
      assert page + [] == page;
    }
  }

  /** Polls chained by their cursors until one returns nothing. */
  function Chain(log: seq<Event>, r: Reader, cursor: int, size: nat): Polled
    requires Ascending(log) && size > 0
    decreases |After(log, cursor)|
  {
    var p := PollOnce(log, r, cursor, size);
    if p.events == [] then p else
    PollOnceExact(log, r, cursor, size);
    var rest := Chain(log, r, p.next, size);
    Polled(p.events + rest.events, rest.next)
  }

  /** Paging refines the filter: whatever the page size, the chained polls deliver exactly the eligible
      events above the cursor, in strictly ascending order, and end at the log's last sequence. */
  lemma {:induction false} ChainIsFilter(log: seq<Event>, r: Reader, cursor: int, size: nat)
    requires Ascending(log) && size > 0
    ensures Chain(log, r, cursor, size) == Polled(Eligible(After(log, cursor), r), Last(log, cursor))
    ensures AscendingDeliveries(Chain(log, r, cursor, size).events)
    decreases |After(log, cursor)|
  {
    var p := PollOnce(log, r, cursor, size);
    PollOnceExact(log, r, cursor, size);
    if p.events == [] {
      assert Eligible([], r) == [];
      assert Last(log, p.next) == p.next;
    } else {
      ChainIsFilter(log, r, p.next, size);
    }
    AfterMembers(log, cursor);
    EligibleAscending(After(log, cursor), r);
  }

  // ---------------------------------------------------------------- scopes

  /** Two ascending lists merged by sequence. */
  function Merge(a: seq<Delivery>, b: seq<Delivery>): seq<Delivery> {
    if a == [] then b
    else if b == [] then a
    else if a[0].event.sequence <= b[0].event.sequence then [a[0]] + Merge(a[1..], b)
    else [b[0]] + Merge(a, b[1..])
  }

  function Both(s: Scope, t: Scope): Scope {
    Scope(s.participating || t.participating, s.watching || t.watching, s.watchedSubforum || t.watchedSubforum)
  }

  predicate Disjoint(s: Scope, t: Scope) {
    !(s.participating && t.participating) && !(s.watching && t.watching) && !(s.watchedSubforum && t.watchedSubforum)
  }

  lemma MergeHead(a: seq<Delivery>, b: seq<Delivery>, d: Delivery)
    requires (forall x | x in a :: d.event.sequence < x.event.sequence) &&
      (forall x | x in b :: d.event.sequence < x.event.sequence)
    ensures Merge([d] + a, b) == [d] + Merge(a, b)
    ensures Merge(a, [d] + b) == [d] + Merge(a, b)
  {}

  /** What one event contributes under a scope. */
  function Share(e: Event, r: Reader, s: Scope): seq<Delivery> {
    if r.(scope := s).Takes(e) then [Delivery(e, r.Reason(e).reason)] else []
  }

  lemma SharesMerge(e: Event, r: Reader, s: Scope, t: Scope, a: seq<Delivery>, b: seq<Delivery>)
    requires Disjoint(s, t)
    requires (forall x | x in a :: e.sequence < x.event.sequence) &&
      (forall x | x in b :: e.sequence < x.event.sequence)
    ensures Merge(Share(e, r, s) + a, Share(e, r, t) + b) == Share(e, r, Both(s, t)) + Merge(a, b)
  {
    hide Merge, EventReason;
    if r.Reason(e).Because? { MergeHead(a, b, Delivery(e, r.Reason(e).reason)); }
    assert forall x: seq<Delivery> :: [] + x == x;
  }

  lemma EligibleShare(e: Event, rest: seq<Event>, r: Reader, s: Scope)
    ensures Eligible([e] + rest, r.(scope := s)) == Share(e, r, s) + Eligible(rest, r.(scope := s))
  {}

  /** Scopes without a common reason split the inbox: their deliveries merge by sequence to the
      delivery of both, reasons included. */
  lemma {:induction false} ScopesMerge(events: seq<Event>, r: Reader, s: Scope, t: Scope)
    requires Ascending(events) && Disjoint(s, t)
    ensures Merge(Eligible(events, r.(scope := s)), Eligible(events, r.(scope := t))) ==
            Eligible(events, r.(scope := Both(s, t)))
  {
    if events != [] {
      var e, rest := events[0], events[1..];
      assert events == [e] + rest;
      ScopesMerge(rest, r, s, t);
      hide Merge, Eligible, Share, Disjoint, Both;
      EligibleAbove(rest, r.(scope := s), e);
      EligibleAbove(rest, r.(scope := t), e);
      SharesMerge(e, r, s, t, Eligible(rest, r.(scope := s)), Eligible(rest, r.(scope := t)));
      EligibleShare(e, rest, r, s);
      EligibleShare(e, rest, r, t);
      EligibleShare(e, rest, r, Both(s, t));
    }
  }

  lemma EligibleAbove(rest: seq<Event>, r: Reader, e: Event)
    requires Ascending([e] + rest)
    ensures forall x | x in Eligible(rest, r) :: e.sequence < x.event.sequence
  {
    EligibleMembers(rest, r);
    var all := [e] + rest;
    forall f | f in rest ensures e.sequence < f.sequence {
      var i :| 0 <= i < |rest| && rest[i] == f;
      assert all[0] == e && all[i + 1] == f;
    }
  }

  /** Their deliveries share no event. */
  lemma ScopesShareNothing(events: seq<Event>, r: Reader, s: Scope, t: Scope)
    requires Ascending(events) && Disjoint(s, t)
    ensures forall x, y | x in Eligible(events, r.(scope := s)) && y in Eligible(events, r.(scope := t)) ::
              x.event.sequence != y.event.sequence
  {
    hide EventReason;
    EligibleMembers(events, r.(scope := s));
    EligibleMembers(events, r.(scope := t));
  }

  /** The three single-reason scopes partition the full inbox, and all four walks end at one cursor. */
  lemma ScopesPartition(log: seq<Event>, r: Reader, cursor: int, size: nat)
    requires Ascending(log) && size > 0 && r.scope == FULL_SCOPE
    ensures var a := Chain(log, r.(scope := Scope(true, false, false)), cursor, size);
            var b := Chain(log, r.(scope := Scope(false, true, false)), cursor, size);
            var c := Chain(log, r.(scope := Scope(false, false, true)), cursor, size);
            var all := Chain(log, r, cursor, size);
            Merge(Merge(a.events, b.events), c.events) == all.events &&
            (forall x, y | x in a.events && y in b.events :: x.event.sequence != y.event.sequence) &&
            (forall x, y | x in a.events && y in c.events :: x.event.sequence != y.event.sequence) &&
            (forall x, y | x in b.events && y in c.events :: x.event.sequence != y.event.sequence) &&
            a.next == all.next && b.next == all.next && c.next == all.next
  {
    var s1, s2, s3 := Scope(true, false, false), Scope(false, true, false), Scope(false, false, true);
    ChainIsFilter(log, r.(scope := s1), cursor, size);
    ChainIsFilter(log, r.(scope := s2), cursor, size);
    ChainIsFilter(log, r.(scope := s3), cursor, size);
    ChainIsFilter(log, r, cursor, size);
    AfterMembers(log, cursor);
    ScopesMerge(After(log, cursor), r, s1, s2);
    ScopesShareNothing(After(log, cursor), r, s1, s2);
    ScopesShareNothing(After(log, cursor), r, s1, s3);
    ScopesShareNothing(After(log, cursor), r, s2, s3);
    ScopesMerge(After(log, cursor), r, Scope(true, true, false), s3);
    assert r.(scope := FULL_SCOPE) == r;
  }

  /** A walk delivers exactly what the reader takes beyond the cursor. */
  lemma WalkDelivers(log: seq<Event>, r: Reader, cursor: int, size: nat, d: Delivery)
    requires Ascending(log) && size > 0
    ensures d in Chain(log, r, cursor, size).events <==>
            d.event in log && d.event.sequence > cursor && r.Takes(d.event) && d.reason == r.Reason(d.event).reason
  {
    ChainIsFilter(log, r, cursor, size);
    AfterMembers(log, cursor);
    EligibleMembers(After(log, cursor), r);
  }

  /** Another's event beyond the cursor, in a watched thread. */
  predicate InWatchedThread(log: seq<Event>, r: Reader, cursor: int, e: Event) {
    e in log && e.sequence > cursor && e.actor != r.agent && e.thread in r.watch
  }

  /** Another's event beyond the cursor, in a watched subforum. */
  predicate InWatchedSubforum(log: seq<Event>, r: Reader, cursor: int, e: Event) {
    e in log && e.sequence > cursor && e.actor != r.agent && e.subforum != "" && e.subforum in r.subs
  }

  /** Precedence is applied before scope: on any log, walking with scope=watching delivers another's event
      in a watched thread exactly when the reader does not also take part in the thread. So it delivers
      all of them if and only if the reader takes part in none of those threads. */
  lemma WatchingScopeMasked(log: seq<Event>, r: Reader, cursor: int, size: nat)
    requires Ascending(log) && size > 0 && r.scope == Scope(false, true, false)
    ensures forall e | InWatchedThread(log, r, cursor, e) ::
              Delivery(e, Watching) in Chain(log, r, cursor, size).events <==> e.thread !in r.part
    ensures (forall e | InWatchedThread(log, r, cursor, e) ::
              Delivery(e, Watching) in Chain(log, r, cursor, size).events) <==>
            (forall e | InWatchedThread(log, r, cursor, e) :: e.thread !in r.part)
  {
    forall e | InWatchedThread(log, r, cursor, e)
      ensures Delivery(e, Watching) in Chain(log, r, cursor, size).events <==> e.thread !in r.part
    {
      WalkDelivers(log, r, cursor, size, Delivery(e, Watching));
    }
    hide Chain, InWatchedThread;
  }

  /** The same for scope=watched-subforum, which both stronger reasons hide. */
  lemma SubforumScopeMasked(log: seq<Event>, r: Reader, cursor: int, size: nat)
    requires Ascending(log) && size > 0 && r.scope == Scope(false, false, true)
    ensures forall e | InWatchedSubforum(log, r, cursor, e) ::
              Delivery(e, WatchedSubforum) in Chain(log, r, cursor, size).events <==>
                e.thread !in r.part && e.thread !in r.watch
    ensures (forall e | InWatchedSubforum(log, r, cursor, e) ::
              Delivery(e, WatchedSubforum) in Chain(log, r, cursor, size).events) <==>
            (forall e | InWatchedSubforum(log, r, cursor, e) :: e.thread !in r.part && e.thread !in r.watch)
  {
    forall e | InWatchedSubforum(log, r, cursor, e)
      ensures Delivery(e, WatchedSubforum) in Chain(log, r, cursor, size).events <==>
              e.thread !in r.part && e.thread !in r.watch
    {
      WalkDelivers(log, r, cursor, size, Delivery(e, WatchedSubforum));
    }
    hide Chain, InWatchedSubforum;
  }
}
