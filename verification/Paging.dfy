/** ListPosts (internal/store/posts.go): the after-cursor, and the client's page merge (web/src/store/forumApi.ts). */
module Paging {
  import opened Strings
  import opened Tables
  import opened Forum

  /** ORDER BY created_at ASC, id ASC. */
  predicate Precedes(p: Post, q: Post) {
    p.createdAt < q.createdAt || (p.createdAt == q.createdAt && Before(p.id, q.id))
  }

  predicate Ordered(posts: seq<Post>) {
    forall i, j | 0 <= i < j < |posts| :: Precedes(posts[i], posts[j])
  }

  function Insert(sorted: seq<Post>, p: Post): seq<Post> {
    if sorted == [] || Precedes(p, sorted[0]) then [p] + sorted else [sorted[0]] + Insert(sorted[1..], p)
  }

  /** A thread's posts in the order of the query. */
  function ThreadPosts(posts: seq<Post>, thread: Id): seq<Post> {
    if posts == [] then []
    else
      var sorted := ThreadPosts(posts[..|posts| - 1], thread);
      if posts[|posts| - 1].thread == thread then Insert(sorted, posts[|posts| - 1]) else sorted
  }

  lemma {:induction false} PrecedesTransitive(p: Post, q: Post, r: Post)
    requires Precedes(p, q) && Precedes(q, r)
    ensures Precedes(p, r)
  {
    if p.createdAt == q.createdAt == r.createdAt { BeforeTransitive(p.id, q.id, r.id); }
  }

  lemma {:induction false} InsertAdds(sorted: seq<Post>, p: Post)
    ensures multiset(Insert(sorted, p)) == multiset(sorted) + multiset{p}
    ensures forall q :: q in Insert(sorted, p) <==> q in sorted || q == p
  {
    if sorted != [] && !Precedes(p, sorted[0]) {
      InsertAdds(sorted[1..], p);
      assert sorted == [sorted[0]] + sorted[1..];
    }
  }

  lemma OrderedCons(p: Post, rest: seq<Post>)
    requires Ordered(rest) && forall q | q in rest :: Precedes(p, q)
    ensures Ordered([p] + rest)
  {}

  lemma {:induction false} InsertOrdered(sorted: seq<Post>, p: Post)
    requires Ordered(sorted) && forall q | q in sorted :: q.id != p.id
    ensures Ordered(Insert(sorted, p))
  {
    if sorted == [] {
    } else if Precedes(p, sorted[0]) {
      forall i | 1 <= i < |sorted| ensures Precedes(p, sorted[i]) {
        PrecedesTransitive(p, sorted[0], sorted[i]);
      }
    } else {
      var rest := sorted[1..];
      InsertOrdered(rest, p);
      InsertAdds(rest, p);
      BeforeTotal(p.id, sorted[0].id);
      assert sorted[0] in sorted && Precedes(sorted[0], p);
      forall q | q in rest ensures Precedes(sorted[0], q) {
        var i :| 0 <= i < |rest| && rest[i] == q;
        assert sorted[i + 1] == q;
      }
      OrderedCons(sorted[0], Insert(rest, p));
    }
  }

  /** The query's rows: exactly the thread's posts, in strict order. */
  lemma {:induction false} ThreadPostsExact(posts: seq<Post>, thread: Id)
    requires IdsUnique(posts)
    ensures Ordered(ThreadPosts(posts, thread))
    ensures forall p :: p in ThreadPosts(posts, thread) <==> p in posts && p.thread == thread
  {
    if posts != [] {
      var init, p := posts[..|posts| - 1], posts[|posts| - 1];
      ThreadPostsExact(init, thread);
      assert posts == init + [p];
      var sorted := ThreadPosts(init, thread);
      if p.thread == thread {
        forall q | q in sorted ensures q.id != p.id {
          var i :| 0 <= i < |init| && init[i] == q;
          assert posts[i] == q;
        }
        InsertOrdered(sorted, p);
        InsertAdds(sorted, p);
      }
    }
  }

  datatype Cursor = Start | After(at: Stamp)

  predicate Beyond(p: Post, c: Cursor) {
    c.Start? || p.createdAt > c.at
  }

  /** AND created_at > ? */
  function Newer(posts: seq<Post>, c: Cursor): seq<Post> {
    if posts == [] then []
    else (if Beyond(posts[0], c) then [posts[0]] else []) + Newer(posts[1..], c)
  }

  /** LIMIT ?, where 0 or less means no limit. */
  function Limit(posts: seq<Post>, limit: int): seq<Post> {
    if 0 < limit < |posts| then posts[..limit] else posts
  }

  datatype Listing = Found(page: seq<Post>) | AfterPostMissing

  lemma {:induction false} NewerExact(posts: seq<Post>, c: Cursor)
    requires Ordered(posts)
    ensures Ordered(Newer(posts, c)) && |Newer(posts, c)| <= |posts|
    ensures forall p :: p in Newer(posts, c) <==> p in posts && Beyond(p, c)
  {
    if posts != [] {
      var rest := posts[1..];
      NewerExact(rest, c);
      assert posts == [posts[0]] + rest;
      forall q | q in rest ensures Precedes(posts[0], q) {
        var i :| 0 <= i < |rest| && rest[i] == q;
        assert posts[i + 1] == q;
      }
    }
  }

  /** The thread's posts that are newer than the post named by after, or all of them. */
  predicate Wanted(posts: seq<Post>, thread: Id, after: Id, p: Post) {
    p in posts && p.thread == thread &&
    (after != "" ==> exists q | q in posts :: q.id == after && q.thread == thread && p.createdAt > q.createdAt)
  }

  /** What a page holds: wanted posts, by time and then id; all of them without a positive limit, else as
      many as the limit or as there are, none left out that precedes one given. */
  ghost predicate PageOf(posts: seq<Post>, thread: Id, after: Id, limit: int, page: seq<Post>) {
    Ordered(page) && (forall p | p in page :: Wanted(posts, thread, after, p)) &&
    (limit <= 0 || |page| < limit ==> forall p | Wanted(posts, thread, after, p) :: p in page) &&
    (limit > 0 ==> |page| <= limit) &&
    (forall p, q | Wanted(posts, thread, after, p) && p !in page && q in page :: Precedes(q, p))
  }

  lemma LimitKeepsFirst(posts: seq<Post>, limit: int)
    requires Ordered(posts)
    ensures var page := Limit(posts, limit);
            Ordered(page) && (forall p | p in page :: p in posts) &&
            (limit <= 0 || |page| < limit ==> page == posts) && (limit > 0 ==> |page| <= limit) &&
            (forall p, q | p in posts && p !in page && q in page :: Precedes(q, p))
  {
    var page := Limit(posts, limit);
    hide Precedes;
    assert forall i | 0 <= i < |page| :: posts[i] == page[i] && posts[i] in page;
    forall p, q | p in posts && p !in page && q in page ensures Precedes(q, p) {
      var i :| 0 <= i < |posts| && posts[i] == p;
      var j :| 0 <= j < |page| && page[j] == q;
    }
  }

  lemma WantedIsNewer(posts: seq<Post>, thread: Id, after: Id, c: Cursor, p: Post)
    requires IdsUnique(posts)
    requires after == "" ==> c == Start
    requires after != "" ==> exists q | q in posts :: q.id == after && q.thread == thread && c == After(q.createdAt)
    ensures Wanted(posts, thread, after, p) <==> p in Newer(ThreadPosts(posts, thread), c)
  {
    ThreadPostsExact(posts, thread);
    NewerExact(ThreadPosts(posts, thread), c);
  }

  lemma ListedExact(posts: seq<Post>, thread: Id, after: Id, c: Cursor, limit: int)
    requires IdsUnique(posts)
    requires after == "" ==> c == Start
    requires after != "" ==> exists q | q in posts :: q.id == after && q.thread == thread && c == After(q.createdAt)
    ensures PageOf(posts, thread, after, limit, Limit(Newer(ThreadPosts(posts, thread), c), limit))
  {
    var left := Newer(ThreadPosts(posts, thread), c);
    ThreadPostsExact(posts, thread);
    NewerExact(ThreadPosts(posts, thread), c);
    LimitKeepsFirst(left, limit);
    forall p { WantedIsNewer(posts, thread, after, c, p); }
    hide Newer, ThreadPosts, Ordered, IdsUnique, Limit, Wanted, Precedes;
  }

  /** ListPosts: the post named by the cursor must exist in the thread. */
  method ListPosts(db: Db, thread: Id, after: Id, limit: int) returns (r: Listing)
    ensures r.AfterPostMissing? <==> after != "" && !Named(db.posts, |db.posts|, after, thread)
    ensures r.Found? && after == "" ==> r.page == Limit(Newer(ThreadPosts(db.posts, thread), Start), limit)
    ensures r.Found? && after != "" ==>
              exists i | 0 <= i < |db.posts| && db.posts[i].id == after && db.posts[i].thread == thread ::
                r.page == Limit(Newer(ThreadPosts(db.posts, thread), After(db.posts[i].createdAt)), limit)
    ensures r.Found? && IdsUnique(db.posts) ==> PageOf(db.posts, thread, after, limit, r.page)
  {
    var cursor := Start;
    if after != "" {
      var i := 0;
      while i < |db.posts| && !(db.posts[i].id == after && db.posts[i].thread == thread)
        invariant 0 <= i <= |db.posts|
        invariant !Named(db.posts, i, after, thread)
      {
        i := i + 1;
      }
      if i == |db.posts| {
        return AfterPostMissing;
      }
      cursor := After(db.posts[i].createdAt);
    }
    r := Found(Limit(Newer(ThreadPosts(db.posts, thread), cursor), limit));
    if IdsUnique(db.posts) {
      assert after != "" ==>
          exists q | q in db.posts :: q.id == after && q.thread == thread && cursor == After(q.createdAt);
      ListedExact(db.posts, thread, after, cursor, limit);
    }
  }

  /** Following the cursor shrinks what is left. */
  lemma {:induction false} NewerShrinks(posts: seq<Post>, c: Cursor, last: Post)
    requires Beyond(last, c)
    ensures |Newer(posts, After(last.createdAt))| <= |Newer(posts, c)|
    ensures last in posts ==> |Newer(posts, After(last.createdAt))| < |Newer(posts, c)|
  {
    if posts != [] {
      NewerShrinks(posts[1..], c, last);
    }
  }

  lemma {:induction false} NewerMember(posts: seq<Post>, c: Cursor, p: Post)
    requires p in Newer(posts, c)
    ensures p in posts && Beyond(p, c)
  {
    if posts != [] && !(Beyond(posts[0], c) && p == posts[0]) {
      NewerMember(posts[1..], c, p);
    }
  }

  /** Page after page, each from the last post of the one before, until a page is not full. */
  function Walk(posts: seq<Post>, c: Cursor, limit: nat): (pages: seq<seq<Post>>)
    requires limit > 0
    decreases |Newer(posts, c)|
  {
    var page := Limit(Newer(posts, c), limit);
    if |page| < limit then [page] else
    var last := page[limit - 1];
    NewerMember(posts, c, last);
    NewerShrinks(posts, c, last);
    [page] + Walk(posts, After(last.createdAt), limit)
  }

  /** The client's walk: after is the id of the last post of the page before. */
  method WalkThread(db: Db, thread: Id, limit: nat) returns (pages: seq<seq<Post>>)
    requires IdsUnique(db.posts) && limit > 0 && forall i | 0 <= i < |db.posts| :: db.posts[i].id != ""
    ensures pages == Walk(ThreadPosts(db.posts, thread), Start, limit)
  {
    hide ThreadPosts, Newer, IdsUnique, Walk, Ordered, PageOf, Wanted, Precedes;
    var posts := ThreadPosts(db.posts, thread);
    ThreadPostsExact(db.posts, thread);
    pages := [];
    var after := "";
    ghost var c := Start;
    while true
      invariant pages + Walk(posts, c, limit) == Walk(posts, Start, limit)
      invariant after == "" ==> c == Start
      invariant after != "" ==> exists p | p in posts :: p.id == after && c == After(p.createdAt)
      decreases |Newer(posts, c)|
    {
      ghost var last :| after != "" ==> last in posts && last.id == after && c == After(last.createdAt);
      if after != "" { NamedOnce(db.posts, last, thread); }
      var r := ListPosts(db, thread, after, limit);
      assert r.page == Limit(Newer(posts, c), limit);
      ghost var pages0 := pages;
      pages := pages + [r.page];
      WalkStep(posts, c, limit);
      if |r.page| < limit { return; }
      var end := r.page[limit - 1];
      NewerMember(posts, c, end);
      NewerShrinks(posts, c, end);
      ghost var rest := Walk(posts, After(end.createdAt), limit);
      assert pages0 + ([r.page] + rest) == pages + rest;
      c := After(end.createdAt);
      after := end.id;
    }
  }

  lemma WalkStep(posts: seq<Post>, c: Cursor, limit: nat)
    requires limit > 0
    ensures var page := Limit(Newer(posts, c), limit);
            Walk(posts, c, limit) ==
            if |page| < limit then [page] else [page] + Walk(posts, After(page[limit - 1].createdAt), limit)
  {}

  /** A post of the thread is the only one that its id can name. */
  lemma NamedOnce(posts: seq<Post>, last: Post, thread: Id)
    requires IdsUnique(posts) && last in posts && last.thread == thread
    ensures Named(posts, |posts|, last.id, thread)
    ensures forall i | 0 <= i < |posts| && posts[i].id == last.id :: posts[i] == last
  {}

  function Flatten(pages: seq<seq<Post>>): seq<Post> {
    if pages == [] then [] else pages[0] + Flatten(pages[1..])
  }

  /** p ties with the last post of some page and sorts after it. */
  ghost predicate Skipped(pages: seq<seq<Post>>, p: Post) {
    exists k | 0 <= k < |pages| && pages[k] != [] ::
      var last := pages[k][|pages[k]| - 1];
      p.createdAt == last.createdAt && Before(last.id, p.id)
  }

  lemma SkippedUnfold(page: seq<Post>, pages: seq<seq<Post>>, p: Post)
    ensures Skipped([page] + pages, p) <==>
            (page != [] && p.createdAt == page[|page| - 1].createdAt && Before(page[|page| - 1].id, p.id)) ||
            Skipped(pages, p)
  {
    var all := [page] + pages;
    if Skipped(pages, p) {
      var k :| 0 <= k < |pages| && pages[k] != [] &&
        var last := pages[k][|pages[k]| - 1]; p.createdAt == last.createdAt && Before(last.id, p.id);
      assert all[k + 1] == pages[k];
    }
    if page != [] && p.createdAt == page[|page| - 1].createdAt && Before(page[|page| - 1].id, p.id) {
      assert all[0] == page;
    }
  }

  /** What the walk's pages hold of the posts beyond a cursor, and what they omit. */
  ghost predicate Covers(posts: seq<Post>, c: Cursor, pages: seq<seq<Post>>) {
    Ordered(Flatten(pages)) &&
    (forall p | p in Flatten(pages) :: p in posts && Beyond(p, c)) &&
    (forall p | p in posts && Beyond(p, c) :: p !in Flatten(pages) <==> Skipped(pages, p)) &&
    (forall p | Skipped(pages, p) :: Beyond(p, c))
  }

  lemma LastPageCovers(posts: seq<Post>, c: Cursor, page: seq<Post>)
    requires Ordered(posts) && page == Newer(posts, c)
    ensures Covers(posts, c, [page])
  {
    NewerExact(posts, c);
    assert Flatten([page]) == page by { FlattenPage(page, []); }
    forall p ensures Skipped([page], p) ==> p !in page { SkippedAlone(page, p); }
    hide Ordered, Newer, Flatten;
    forall p | Skipped([page], p) ensures Beyond(p, c) {
      SkippedAlone(page, p);
      assert page[|page| - 1] in page;
    }
    forall p | p in page ensures !Skipped([page], p) {}
  }

  lemma FullPageCovers(posts: seq<Post>, c: Cursor, page: seq<Post>, rest: seq<seq<Post>>)
    requires Ordered(posts) && page != [] && page <= Newer(posts, c)
    requires Covers(posts, After(page[|page| - 1].createdAt), rest)
    ensures Covers(posts, c, [page] + rest)
  {
    var last := page[|page| - 1];
    NewerExact(posts, c);
    PageSplits(Newer(posts, c), page);
    assert last in page;
    FlattenPage(page, rest);
    hide Ordered, Newer, Skipped, Flatten;
    JoinOrdered(page, Flatten(rest));
    forall p ensures Skipped([page] + rest, p) <==>
      (p.createdAt == last.createdAt && Before(last.id, p.id)) || Skipped(rest, p) {
      SkippedUnfold(page, rest, p);
      BeforeTotal(last.id, p.id);
    }
    FullPageOmits(posts, c, page, rest);
  }

  lemma FullPageOmits(posts: seq<Post>, c: Cursor, page: seq<Post>, rest: seq<seq<Post>>)
    requires page != [] && Flatten([page] + rest) == page + Flatten(rest)
    requires var last := page[|page| - 1];
             Beyond(last, c) && Covers(posts, After(last.createdAt), rest) &&
             (forall p | p in posts && Beyond(p, c) :: p in page <==> !Precedes(last, p)) &&
             forall p ::
               Skipped([page] + rest, p) <==>
               (p.createdAt == last.createdAt && Before(last.id, p.id)) || Skipped(rest, p)
    ensures forall p | p in posts && Beyond(p, c) :: p !in Flatten([page] + rest) <==> Skipped([page] + rest, p)
    ensures forall p | Skipped([page] + rest, p) :: Beyond(p, c)
  {
    hide Ordered, Skipped, Flatten;
  }

  /** The walk never repeats a post, and omits exactly the posts that tie with a page's last post and
      sort after it. */
  lemma {:induction false} WalkExact(posts: seq<Post>, c: Cursor, limit: nat)
    requires Ordered(posts) && limit > 0
    ensures Covers(posts, c, Walk(posts, c, limit))
    decreases |Newer(posts, c)|
  {
    hide Ordered, Newer, Covers;
    var page := Limit(Newer(posts, c), limit);
    if |page| < limit {
      LastPageCovers(posts, c, page);
    } else {
      var last := page[limit - 1];
      NewerMember(posts, c, last);
      NewerShrinks(posts, c, last);
      WalkExact(posts, After(last.createdAt), limit);
      FullPageCovers(posts, c, page, Walk(posts, After(last.createdAt), limit));
    }
  }

  lemma NoneSkipped(p: Post)
    ensures !Skipped([], p)
  {}

  lemma SkippedAlone(page: seq<Post>, p: Post)
    ensures Skipped([page], p) <==>
            page != [] && p.createdAt == page[|page| - 1].createdAt && Before(page[|page| - 1].id, p.id)
    ensures Ordered(page) && Skipped([page], p) ==> p !in page
  {
    SkippedUnfold(page, [], p);
    NoneSkipped(p);
    assert [page] + [] == [page];
    if page != [] && Ordered(page) {
      PageSplits(page, page);
      BeforeTotal(page[|page| - 1].id, page[|page| - 1].id);
    }
  }

  lemma FlattenPage(page: seq<Post>, rest: seq<seq<Post>>)
    ensures Flatten([page] + rest) == page + Flatten(rest)
  {}

  lemma JoinOrdered(a: seq<Post>, b: seq<Post>)
    requires Ordered(a) && Ordered(b) && a != []
    requires forall p | p in a :: p == a[|a| - 1] || Precedes(p, a[|a| - 1])
    requires forall q | q in b :: q.createdAt > a[|a| - 1].createdAt
    ensures Ordered(a + b)
  {}

  /** A page is what is left up to its own last post. */
  lemma PageSplits(left: seq<Post>, page: seq<Post>)
    requires Ordered(left) && page <= left
    ensures Ordered(page)
    ensures page != [] ==>
              forall p | p in left :: p in page <==> !Precedes(page[|page| - 1], p)
    ensures page != [] ==> forall p | p in page :: p == page[|page| - 1] || Precedes(p, page[|page| - 1])
  {
    if page != [] {
      var n := |page| - 1;
      forall p | p in left ensures p in page <==> !Precedes(page[n], p) {
        var i :| 0 <= i < |left| && left[i] == p;
        BeforeTotal(p.id, page[n].id);
        if i <= n { assert page[i] == p; }
        if p in page {
          var j :| 0 <= j < |page| && page[j] == p;
          assert left[j] == p;
        }
      }
    }
  }

  /** No two neighbours on the two sides of a page's end share a time. */
  predicate CutsClean(posts: seq<Post>, limit: nat)
    requires limit > 0
  {
    |posts| <= limit || (posts[limit - 1].createdAt != posts[limit].createdAt && CutsClean(posts[limit..], limit))
  }

  lemma {:induction false} NewerTwice(posts: seq<Post>, c: Cursor, later: Cursor)
    requires forall p: Post | Beyond(p, later) :: Beyond(p, c)
    ensures Newer(Newer(posts, c), later) == Newer(posts, later)
  {
    if posts != [] {
      NewerTwice(posts[1..], c, later);
      var rest := Newer(posts[1..], c);
      assert ([posts[0]] + rest)[1..] == rest && [] + rest == rest;
    }
  }

  lemma {:induction false} NewerAll(posts: seq<Post>, c: Cursor)
    requires forall p | p in posts :: Beyond(p, c)
    ensures Newer(posts, c) == posts
  {
    if posts != [] { NewerAll(posts[1..], c); }
  }

  lemma {:induction false} NewerSuffix(posts: seq<Post>, c: Cursor, n: nat)
    requires n <= |posts| && (forall i | 0 <= i < n :: !Beyond(posts[i], c)) &&
      forall i | n <= i < |posts| :: Beyond(posts[i], c)
    ensures Newer(posts, c) == posts[n..]
  {
    if n == 0 {
      NewerAll(posts, c);
    } else {
      NewerSuffix(posts[1..], c, n - 1);
    }
  }

  /** After a clean cut the cursor leaves exactly what follows the page. */
  lemma CleanCut(posts: seq<Post>, c: Cursor, left: seq<Post>, limit: nat)
    requires Ordered(posts) && left == Newer(posts, c) && 0 < limit < |left|
    requires left[limit - 1].createdAt != left[limit].createdAt
    ensures Newer(posts, After(left[limit - 1].createdAt)) == left[limit..]
  {
    var last := left[limit - 1];
    NewerExact(posts, c);
    assert last in left;
    NewerMember(posts, c, last);
    NewerTwice(posts, c, After(last.createdAt));
    hide Newer;
    CutOrder(left, limit);
    hide Ordered, Precedes;
    NewerSuffix(left, After(last.createdAt), limit);
  }

  /** On the two sides of a clean cut: nothing later before it, nothing as early behind it. */
  lemma CutOrder(left: seq<Post>, limit: nat)
    requires Ordered(left) && 0 < limit < |left| && left[limit - 1].createdAt != left[limit].createdAt
    ensures forall i | 0 <= i < limit :: left[i].createdAt <= left[limit - 1].createdAt
    ensures forall i | limit <= i < |left| :: left[i].createdAt > left[limit - 1].createdAt
  {
    hide Before;
    assert Precedes(left[limit - 1], left[limit]);
    forall i | 0 <= i < limit ensures left[i].createdAt <= left[limit - 1].createdAt {
      if i < limit - 1 { assert Precedes(left[i], left[limit - 1]); }
    }
    forall i | limit <= i < |left| ensures left[i].createdAt > left[limit - 1].createdAt {
      if i > limit { assert Precedes(left[limit], left[i]); }
    }
  }

  /** After a tied cut the post behind the cut is lost for good. */
  lemma TiedCut(posts: seq<Post>, c: Cursor, left: seq<Post>, limit: nat)
    requires Ordered(posts) && left == Newer(posts, c) && 0 < limit < |left|
    requires left[limit - 1].createdAt == left[limit].createdAt
    ensures left[limit] !in Flatten(Walk(posts, c, limit))
  {
    var last, p := left[limit - 1], left[limit];
    NewerExact(posts, c);
    Apart(left, limit);
    assert left[limit..][0] == p && last in left;
    NewerMember(posts, c, last);
    NewerShrinks(posts, c, last);
    hide Ordered, Newer, Flatten;
    var rest := Walk(posts, After(last.createdAt), limit);
    WalkExact(posts, After(last.createdAt), limit);
    FlattenPage(left[..limit], rest);
    assert p !in Flatten(rest) by { hide Skipped, Walk; }
  }

  lemma {:induction false} WalkCompleteFrom(posts: seq<Post>, c: Cursor, limit: nat)
    requires Ordered(posts) && limit > 0
    ensures (forall p | p in Newer(posts, c) :: p in Flatten(Walk(posts, c, limit))) <==>
      CutsClean(Newer(posts, c), limit)
    decreases |Newer(posts, c)|
  {
    var left := Newer(posts, c);
    if |left| < limit {
      assert Flatten([left]) == left;
    } else {
      var page, last := left[..limit], left[limit - 1];
      assert last in left;
      NewerMember(posts, c, last);
      NewerShrinks(posts, c, last);
      FlattenPage(page, Walk(posts, After(last.createdAt), limit));
      hide Ordered, Newer, Flatten;
      if |left| == limit {
        assert page == left;
      } else if last.createdAt == left[limit].createdAt {
        TiedCut(posts, c, left, limit);
        assert left[limit] in left;
      } else {
        CleanCut(posts, c, left, limit);
        WalkCompleteFrom(posts, After(last.createdAt), limit);
        PageAside(posts, c, left, limit, Flatten(Walk(posts, After(last.createdAt), limit)));
      }
    }
  }

  /** What follows the page is none of the page's own. */
  lemma Apart(left: seq<Post>, n: nat)
    requires Ordered(left) && n <= |left|
    ensures forall p | p in left[n..] :: p !in left[..n]
  {
    forall p | p in left[n..] && p in left[..n] ensures false {
      var i :| 0 <= i < |left[n..]| && left[n..][i] == p;
      var j :| 0 <= j < n && left[..n][j] == p;
      assert left[j] == p == left[n + i];
      BeforeTotal(p.id, p.id);
    }
  }

  lemma PageAside(posts: seq<Post>, c: Cursor, left: seq<Post>, limit: nat, rest: seq<Post>)
    requires Ordered(posts) && left == Newer(posts, c) && 0 < limit < |left|
    ensures (forall p | p in left :: p in left[..limit] + rest) <==> (forall p | p in left[limit..] :: p in rest)
  {
    NewerExact(posts, c);
    Apart(left, limit);
    hide Ordered, Newer;
    var page, behind := left[..limit], left[limit..];
    assert left == page + behind;
    if forall p | p in left :: p in page + rest {
      forall p | p in behind ensures p in rest {
        assert p in left;
      }
    }
    if forall p | p in behind :: p in rest {
      forall p | p in left ensures p in page + rest {
        assert p in page || p in behind;
      }
    }
  }

  /** When the walk is complete, exactly: it delivers the whole thread if and only if no two posts that
      stand next to each other across the end of a page share a time. */
  lemma WalkComplete(posts: seq<Post>, limit: nat)
    requires Ordered(posts) && limit > 0
    ensures (forall p | p in posts :: p in Flatten(Walk(posts, Start, limit))) <==> CutsClean(posts, limit)
  {
    NewerAll(posts, Start);
    WalkCompleteFrom(posts, Start, limit);
  }

  /** In particular when all times are distinct. */
  lemma {:induction false} DistinctTimesAreClean(posts: seq<Post>, limit: nat)
    requires limit > 0 && forall i, j | 0 <= i < j < |posts| :: posts[i].createdAt != posts[j].createdAt
    ensures CutsClean(posts, limit)
  {
    if |posts| > limit { DistinctTimesAreClean(posts[limit..], limit); }
  }

  /** Two posts of one time, a page of one: the walk ends without the second. */
  lemma TiedPostLost(a: Post, b: Post)
    requires a.createdAt == b.createdAt && Before(a.id, b.id)
    ensures Ordered([a, b]) && !CutsClean([a, b], 1) && Flatten(Walk([a, b], Start, 1)) == [a]
  {
    var posts, next := [a, b], After(a.createdAt);
    NewerAll(posts, Start);
    NewerSuffix(posts, next, 2);
    hide Newer;
    assert Limit(posts, 1) == [a];
    assert Walk(posts, next, 1) == [[]];
    WalkStep(posts, Start, 1);
    hide Walk;
    FlattenPage([a], [[]]);
    assert Flatten([[]]) == [];
  }

  /** Such an input. */
  lemma TiedPostExample()
    ensures var a := Post("a", "th", "bob", "", "", map[], 7);
            var b := Post("b", "th", "bob", "", "", map[], 7);
            Ordered([a, b]) && !CutsClean([a, b], 1) && b !in Flatten(Walk([a, b], Start, 1))
  {
    assert Before("a", "b");
    TiedPostLost(Post("a", "th", "bob", "", "", map[], 7), Post("b", "th", "bob", "", "", map[], 7));
  }

  // ---------------------------------------------------------------- the client's cache

  function Ids(posts: seq<Post>): set<Id> {
    set p | p in posts :: p.id
  }

  /** The posts of a page that the cache did not hold when the page arrived. */
  function Unseen(page: seq<Post>, seen: set<Id>): seq<Post> {
    if page == [] then []
    else Unseen(page[..|page| - 1], seen) + if page[|page| - 1].id in seen then [] else [page[|page| - 1]]
  }

  class PostCache {
    var posts: seq<Post>

    /** merge: pushes onto the cached list the posts whose ids it did not hold beforehand. */
    method Merge(incoming: seq<Post>)
      modifies this
      ensures posts == old(posts) + Unseen(incoming, Ids(old(posts)))
    {
      if |incoming| == 0 { return; }
      var seen := Ids(posts);
      for i := 0 to |incoming|
        invariant posts == old(posts) + Unseen(incoming[..i], seen)
      {
        assert incoming[..i + 1][..i] == incoming[..i];
        if incoming[i].id !in seen { posts := posts + [incoming[i]]; }
      }
      assert incoming[..|incoming|] == incoming;
    }
  }

  function MergeAll(pages: seq<seq<Post>>): seq<Post> {
    if pages == [] then [] else
    var cached := MergeAll(pages[..|pages| - 1]);
    cached + Unseen(pages[|pages| - 1], Ids(cached))
  }

  /** No id that the cache lacks occurs twice in the page. */
  predicate FreshOnce(page: seq<Post>, seen: set<Id>) {
    forall i, j | 0 <= i < j < |page| && page[i].id !in seen :: page[i].id != page[j].id
  }

  lemma {:induction false} UnseenMembers(page: seq<Post>, seen: set<Id>)
    ensures forall p :: p in Unseen(page, seen) <==> p in page && p.id !in seen
  {
    if page != [] {
      UnseenMembers(page[..|page| - 1], seen);
      assert page == page[..|page| - 1] + [page[|page| - 1]];
    }
  }

  lemma {:induction false} UnseenUnique(page: seq<Post>, seen: set<Id>)
    ensures IdsUnique(Unseen(page, seen)) <==> FreshOnce(page, seen)
  {
    if page != [] {
      var init, p := page[..|page| - 1], page[|page| - 1];
      var kept := Unseen(init, seen);
      assert Unseen(page, seen) == kept + if p.id in seen then [] else [p];
      assert page == init + [p];
      UnseenUnique(init, seen);
      UnseenMembers(init, seen);
      FreshOnceSnoc(init, p, seen);
      IdsUniqueSnoc(kept, p);
      hide IdsUnique, FreshOnce, Unseen;
      if p.id in seen {
        assert kept + [] == kept;
      } else {
        assert forall q :: q in kept <==> q in init && q.id !in seen;
      }
    }
  }

  lemma IdsUniqueSnoc(posts: seq<Post>, p: Post)
    ensures IdsUnique(posts + [p]) <==> IdsUnique(posts) && forall q | q in posts :: q.id != p.id
  {
    var all := posts + [p];
    assert forall i | 0 <= i < |posts| :: all[i] == posts[i];
    if IdsUnique(all) {
      forall q | q in posts ensures q.id != p.id {
        var i :| 0 <= i < |posts| && posts[i] == q;
        assert all[i].id != all[|posts|].id;
      }
    }
  }

  lemma FreshOnceSnoc(init: seq<Post>, p: Post, seen: set<Id>)
    ensures FreshOnce(init + [p], seen) <==>
            FreshOnce(init, seen) && (p.id in seen || forall q | q in init && q.id !in seen :: q.id != p.id)
  {
    var page := init + [p];
    assert forall i | 0 <= i < |init| :: page[i] == init[i];
    if FreshOnce(page, seen) {
      forall q | q in init && q.id !in seen ensures q.id != p.id {
        var i :| 0 <= i < |init| && init[i] == q;
        assert page[i].id != page[|init|].id;
      }
    }
  }

  /** One merge keeps ids unique exactly when the cache's were and the page brings no new id twice. */
  lemma MergeKeepsUnique(cached: seq<Post>, page: seq<Post>)
    ensures IdsUnique(cached + Unseen(page, Ids(cached))) <==> IdsUnique(cached) && FreshOnce(page, Ids(cached))
  {
    var seen := Ids(cached);
    var kept := Unseen(page, seen);
    var merged := cached + kept;
    UnseenMembers(page, seen);
    UnseenUnique(page, seen);
    hide Unseen, FreshOnce;
    if IdsUnique(cached) && FreshOnce(page, seen) {
      forall i, j | 0 <= i < j < |merged| ensures merged[i].id != merged[j].id {
        if j >= |cached| { assert merged[j] in kept; }
        if i < |cached| { assert merged[i] in cached; }
      }
    }
    if IdsUnique(merged) {
      assert forall i | 0 <= i < |cached| :: merged[i] == cached[i];
      assert forall i | 0 <= i < |kept| :: merged[|cached| + i] == kept[i];
    }
  }

  lemma {:induction false} FlattenSnoc(pages: seq<seq<Post>>, page: seq<Post>)
    ensures Flatten(pages + [page]) == Flatten(pages) + page
  {
    if pages == [] {
      assert Flatten([page]) == page + Flatten([]);
    } else {
      FlattenSnoc(pages[1..], page);
      assert (pages + [page])[1..] == pages[1..] + [page];
    }
  }

  /** Merging the pages in any order and with repeats: ids stay unique, every cached post comes from a
      page, and the ids held are those of all the pages together. */
  lemma {:induction false} MergeAllIsUnion(pages: seq<seq<Post>>)
    requires forall k | 0 <= k < |pages| :: IdsUnique(pages[k])
    ensures IdsUnique(MergeAll(pages))
    ensures forall p | p in MergeAll(pages) :: p in Flatten(pages)
    ensures Ids(MergeAll(pages)) == Ids(Flatten(pages))
  {
    if pages != [] {
      var init, page := pages[..|pages| - 1], pages[|pages| - 1];
      assert pages == init + [page];
      MergeAllIsUnion(init);
      FlattenSnoc(init, page);
      var cached := MergeAll(init);
      UnseenMembers(page, Ids(cached));
      MergeKeepsUnique(cached, page);
      UniqueIsFresh(page, Ids(cached));
      hide IdsUnique, FreshOnce;
      IdsConcat(cached, Unseen(page, Ids(cached)));
      IdsConcat(Flatten(init), page);
      assert Ids(Unseen(page, Ids(cached))) == Ids(page) - Ids(cached);
    }
  }

  lemma UniqueIsFresh(page: seq<Post>, seen: set<Id>)
    requires IdsUnique(page)
    ensures FreshOnce(page, seen)
  {}

  lemma IdsConcat(a: seq<Post>, b: seq<Post>)
    ensures Ids(a + b) == Ids(a) + Ids(b)
  {}
}
