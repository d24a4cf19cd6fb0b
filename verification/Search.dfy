/**
 internal/store/search.go and ListThreads: filters compiled to statement text and positional arguments,
 what that text selects, and its agreement with a scan of the metadata trees.
 */
module Search {
  import opened Strings
  import opened Metadata
  import opened Tables
  import opened Forum
  import opened Sql

  datatype TermFilter = TermFilter(keys: seq<string>, value: string)

  datatype SearchFilter = SearchFilter(
    subforum: string, text: string, terms: seq<TermFilter>, createdAfter: Option<Stamp>, limit: int)

  datatype ListThreadsFilter = ListThreadsFilter(
    subforum: string, involved: Id, watching: Id, terms: seq<TermFilter>, limit: int)

  /** What is handed to the database. */
  datatype Query = Query(text: Tokens, args: seq<Arg>)

  // ---------------------------------------------------------------- clauses joined by AND

  /** strings.Join(where, " AND ") */
  function Joined(where: seq<Tokens>): Tokens {
    if where == [] then [] else if |where| == 1 then where[0] else where[0] + ["AND"] + Joined(where[1..])
  }

  function Conjunction(conds: seq<Expr>): Expr
    requires conds != []
  {
    if |conds| == 1 then conds[0] else And(conds[0], Conjunction(conds[1..]))
  }

  function ParamsOf(conds: seq<Expr>): nat {
    if conds == [] then 0 else Params(conds[0]) + ParamsOf(conds[1..])
  }

  predicate NumberedFrom(conds: seq<Expr>, n: nat) {
    conds == [] || (Numbered(conds[0], n) && NumberedFrom(conds[1..], n + Params(conds[0])))
  }

  predicate Clauses(conds: seq<Expr>) {
    forall c | c in conds :: Shaped(c) && Level(c) == 2
  }

  /** The texts are those of the clauses. */
  predicate Texts(where: seq<Tokens>, conds: seq<Expr>) {
    |where| == |conds| && forall i | 0 <= i < |where| :: where[i] == Print(conds[i])
  }

  /** Every clause holds. */
  ghost predicate Hold(conds: seq<Expr>, args: seq<Arg>, x: Context) {
    forall c | c in conds :: Value(c, args, x, NoRow)
  }

  lemma {:induction false} NumberedAppend(conds: seq<Expr>, c: Expr, n: nat)
    requires NumberedFrom(conds, n) && Numbered(c, n + ParamsOf(conds))
    ensures NumberedFrom(conds + [c], n) && ParamsOf(conds + [c]) == ParamsOf(conds) + Params(c)
  {
    if conds == [] {
      assert [c][1..] == [];
    } else {
      NumberedAppend(conds[1..], c, n + Params(conds[0]));
      assert (conds + [c])[1..] == conds[1..] + [c];
    }
  }

  lemma {:induction false} HoldKept(conds: seq<Expr>, n: nat, args: seq<Arg>, more: seq<Arg>, x: Context)
    requires NumberedFrom(conds, n) && n + ParamsOf(conds) <= |args|
    ensures Hold(conds, args + more, x) <==> Hold(conds, args, x)
  {
    if conds != [] {
      hide Value;
      ValueKept(conds[0], n, args, more, x, NoRow);
      HoldKept(conds[1..], n + Params(conds[0]), args, more, x);
      assert conds == [conds[0]] + conds[1..];
    }
  }

  /** Joining the clauses' texts by AND is the text of their conjunction, which holds when they all do. */
  lemma {:induction false} JoinedIsConjunction(where: seq<Tokens>, conds: seq<Expr>, n: nat)
    requires conds != [] && Texts(where, conds) && Clauses(conds) && NumberedFrom(conds, n)
    ensures var e := Conjunction(conds);
            Joined(where) == Print(e) && Shaped(e) && Level(e) >= 1 && Numbered(e, n) && Params(e) == ParamsOf(conds)
    ensures forall args, x :: Value(Conjunction(conds), args, x, NoRow) <==> Hold(conds, args, x)
  {
    assert conds[0] in conds;
    if |conds| == 1 {
      assert conds == [conds[0]];
    } else {
      assert forall c | c in conds[1..] :: c in conds;
      JoinedIsConjunction(where[1..], conds[1..], n + Params(conds[0]));
      ConjunctionHolds(conds);
    }
  }

  lemma ConjunctionHolds(conds: seq<Expr>)
    requires |conds| > 1
    requires forall args, x :: Value(Conjunction(conds[1..]), args, x, NoRow) <==> Hold(conds[1..], args, x)
    ensures forall args, x :: Value(Conjunction(conds), args, x, NoRow) <==> Hold(conds, args, x)
  {
    assert conds == [conds[0]] + conds[1..];
    forall args, x ensures Value(Conjunction(conds), args, x, NoRow) <==> Hold(conds, args, x) {
      assert Value(Conjunction(conds), args, x, NoRow) <==>
        Value(conds[0], args, x, NoRow) && Value(Conjunction(conds[1..]), args, x, NoRow);
    }
  }

  // ---------------------------------------------------------------- the clauses

  function EqualsParam(column: string, n: nat): Expr {
    Compare(Column(column), Equal, Param(n))
  }

  function InvolvedClause(n: nat): Expr {
    Group(Or(EqualsParam("creator_id", n),
             Or(InSelect(Column("id"), "thread_id", "participants", EqualsParam("agent_id", n + 1)),
                InSelect(Column("id"), "thread_id", "watches", EqualsParam("agent_id", n + 2)))))
  }

  /** The literal in ListThreads. */
  function InvolvedText(): Tokens {
    ["("] + ["creator_id", "=", "?"] + ["OR"] +
    (["id"] + ["IN", "(", "SELECT", "thread_id", "FROM", "participants", "WHERE"] +
     ["agent_id", "=", "?"] + [")"]) + ["OR"] +
    (["id"] + ["IN", "(", "SELECT", "thread_id", "FROM", "watches", "WHERE"] + ["agent_id", "=", "?"] + [")"]) + [")"]
  }

  function TermClause(column: string, keys: nat, n: nat): Expr {
    Exists("metadata_terms", "t",
           And(EqualsParam("t.entity_type", n),
               And(Compare(Column("t.entity_id"), Equal, Column(column)),
                   And(InList(Column("t.key"), n + 1, keys), EqualsParam("t.value", n + 1 + keys)))))
  }

  /** The index holds one of the filter's keys with its value for the row's entity. */
  ghost predicate HasTerm(x: Context, entityType: string, column: string, f: TermFilter) {
    var id := OuterColumn(column, x.row);
    id.Some? && id.value.Text? && exists k | k in f.keys :: TermRow(entityType, id.value.text, k, f.value) in x.db.terms
  }

  /** OR over keys; a filter without keys or value asks for nothing. */
  ghost predicate Meets(x: Context, entityType: string, column: string, f: TermFilter) {
    |f.keys| == 0 || f.value == "" || HasTerm(x, entityType, column, f)
  }

  function KeyArgs(keys: seq<string>): seq<Arg> {
    seq(|keys|, i requires 0 <= i < |keys| => Text(keys[i]))
  }

  /** Not a column of metadata_terms. */
  ghost predicate Outside(column: string) {
    forall r :: InnerColumn(column, IndexRow(r)).None?
  }

  /** The arguments of a term clause. */
  function TermArgs(entityType: string, f: TermFilter): seq<Arg> {
    [Text(entityType)] + KeyArgs(f.keys) + [Text(f.value)]
  }

  lemma EqualsMeans(column: string, n: nat, args: seq<Arg>, x: Context, inner: Inner)
    requires n < |args|
    ensures Value(EqualsParam(column, n), args, x, inner) <==> Lookup(column, x.row, inner) == Some(args[n])
  {}

  lemma KeyMatches(f: TermFilter, entityType: string, args: seq<Arg>, x: Context, r: TermRow)
    ensures Value(InList(Column("t.key"), |args| + 1, |f.keys|), args + TermArgs(entityType, f), x, IndexRow(r)) <==>
            r.key in f.keys
  {
    var all, n := args + TermArgs(entityType, f), |args|;
    TermColumns(r);
    hide InnerColumn, OuterColumn;
    forall i | 0 <= i < |f.keys| ensures all[n + 1 + i] == Text(f.keys[i]) {
      assert TermArgs(entityType, f)[1 + i] == KeyArgs(f.keys)[i];
    }
    if r.key in f.keys {
      var i :| 0 <= i < |f.keys| && f.keys[i] == r.key;
      assert all[n + 1 + i] == Text(r.key);
    }
    if j :| n + 1 <= j < n + 1 + |f.keys| && all[j] == Text(r.key) {
      assert all[n + 1 + (j - n - 1)] == Text(f.keys[j - n - 1]);
    }
  }

  lemma AndMeans(a: Expr, b: Expr, args: seq<Arg>, x: Context, inner: Inner)
    ensures Value(And(a, b), args, x, inner) <==> Value(a, args, x, inner) && Value(b, args, x, inner)
  {}

  lemma TypeAndValueMatch(f: TermFilter, entityType: string, args: seq<Arg>, x: Context, r: TermRow)
    ensures var all := args + TermArgs(entityType, f);
            (Value(EqualsParam("t.entity_type", |args|), all, x, IndexRow(r)) <==> r.entityType == entityType) &&
            (Value(EqualsParam("t.value", |args| + 1 + |f.keys|), all, x, IndexRow(r)) <==> r.value == f.value)
  {
    var all, n, keys := args + TermArgs(entityType, f), |args|, |f.keys|;
    assert all[n] == Text(entityType) && all[n + 1 + keys] == Text(f.value);
    TermColumns(r);
    hide InnerColumn, OuterColumn, TermArgs, EqualsParam;
    EqualsMeans("t.entity_type", n, all, x, IndexRow(r));
    EqualsMeans("t.value", n + 1 + keys, all, x, IndexRow(r));
  }

  /** One index row satisfies the sub-select's condition. */
  lemma TermMatches(column: string, f: TermFilter, entityType: string, args: seq<Arg>, x: Context, r: TermRow)
    requires Outside(column)
    ensures var id := OuterColumn(column, x.row);
            Value(TermClause(column, |f.keys|, |args|).cond, args + TermArgs(entityType, f), x, IndexRow(r)) <==>
            id == Some(Text(r.entityId)) && r.entityType == entityType && r.key in f.keys && r.value == f.value
  {
    hide Value, OuterColumn, InnerColumn, TermArgs, Outside, EqualsParam;
    var all, n, keys := args + TermArgs(entityType, f), |args|, |f.keys|;
    var a, b := EqualsParam("t.entity_type", n), Compare(Column("t.entity_id"), Equal, Column(column));
    var c, d := InList(Column("t.key"), n + 1, keys), EqualsParam("t.value", n + 1 + keys);
    TypeAndValueMatch(f, entityType, args, x, r);
    KeyMatches(f, entityType, args, x, r);
    IdMatches(column, all, x, r);
    AndMeans(c, d, all, x, IndexRow(r));
    AndMeans(b, And(c, d), all, x, IndexRow(r));
    AndMeans(a, And(b, And(c, d)), all, x, IndexRow(r));
  }

  lemma IdMatches(column: string, args: seq<Arg>, x: Context, r: TermRow)
    requires Outside(column)
    ensures Value(Compare(Column("t.entity_id"), Equal, Column(column)), args, x, IndexRow(r)) <==>
            OuterColumn(column, x.row) == Some(Text(r.entityId))
  {
    TermColumns(r);
    assert InnerColumn(column, IndexRow(r)).None?;
    hide OuterColumn, InnerColumn;
  }

  lemma TermColumns(r: TermRow)
    ensures InnerColumn("t.entity_type", IndexRow(r)) == Some(Text(r.entityType))
    ensures InnerColumn("t.entity_id", IndexRow(r)) == Some(Text(r.entityId))
    ensures InnerColumn("t.key", IndexRow(r)) == Some(Text(r.key))
    ensures InnerColumn("t.value", IndexRow(r)) == Some(Text(r.value))
  {}

  lemma TermMeans(column: string, f: TermFilter, entityType: string, args: seq<Arg>, x: Context)
    requires Outside(column)
    ensures Value(TermClause(column, |f.keys|, |args|), args + TermArgs(entityType, f), x, NoRow) <==>
            HasTerm(x, entityType, column, f)
  {
    var all := args + TermArgs(entityType, f);
    var e, id := TermClause(column, |f.keys|, |args|), OuterColumn(column, x.row);
    forall r { TermMatches(column, f, entityType, args, x, r); }
    hide OuterColumn, TermArgs;
    if Value(e, all, x, NoRow) {
      var sub: Inner :| InTable(x.db, "metadata_terms", sub) && Value(e.cond, all, x, sub);
      assert sub.row == TermRow(entityType, id.value.text, sub.row.key, f.value);
    }
    if HasTerm(x, entityType, column, f) {
      var k :| k in f.keys && TermRow(entityType, id.value.text, k, f.value) in x.db.terms;
      var sub := IndexRow(TermRow(entityType, id.value.text, k, f.value));
      assert InTable(x.db, "metadata_terms", sub) && Value(e.cond, all, x, sub);
    }
  }

  /** Participant, creator or watcher. */
  ghost predicate IsInvolved(db: Db, agent: Id, th: Thread) {
    agent == th.creator || (agent, th.id) in db.participants || (agent, th.id) in db.watches
  }

  /** id IN (SELECT thread_id FROM participants or watches WHERE agent_id = ?) */
  lemma MemberMeans(n: nat, agent: Id, args: seq<Arg>, x: Context)
    requires x.row.ThreadRow? && n < |args| && args[n] == Text(agent)
    ensures Value(InSelect(Column("id"), "thread_id", "participants", EqualsParam("agent_id", n)), args, x, NoRow) <==>
            (agent, x.row.th.id) in x.db.participants
    ensures Value(InSelect(Column("id"), "thread_id", "watches", EqualsParam("agent_id", n)), args, x, NoRow) <==>
            (agent, x.row.th.id) in x.db.watches
  {
    var t, c := x.row.th.id, EqualsParam("agent_id", n);
    if (agent, t) in x.db.participants {
      var sub := Participation(agent, t);
      assert InTable(x.db, "participants", sub) && Value(c, args, x, sub);
    }
    if (agent, t) in x.db.watches {
      var sub := Watch(agent, t);
      assert InTable(x.db, "watches", sub) && Value(c, args, x, sub);
    }
  }

  lemma InvolvedMeans(agent: Id, args: seq<Arg>, x: Context)
    requires x.row.ThreadRow?
    ensures Value(InvolvedClause(|args|), args + [Text(agent), Text(agent), Text(agent)], x, NoRow) <==>
            IsInvolved(x.db, agent, x.row.th)
  {
    var n, all := |args|, args + [Text(agent), Text(agent), Text(agent)];
    assert all[n] == all[n + 1] == all[n + 2] == Text(agent);
    var a := EqualsParam("creator_id", n);
    var b := InSelect(Column("id"), "thread_id", "participants", EqualsParam("agent_id", n + 1));
    var c := InSelect(Column("id"), "thread_id", "watches", EqualsParam("agent_id", n + 2));
    EqualsMeans("creator_id", n, all, x, NoRow);
    assert Lookup("creator_id", x.row, NoRow) == Some(Text(x.row.th.creator));
    hide EqualsParam, OuterColumn;
    MemberMeans(n + 1, agent, all, x);
    MemberMeans(n + 2, agent, all, x);
    OrMeans(a, b, c, all, x);
  }

  lemma OrMeans(a: Expr, b: Expr, c: Expr, args: seq<Arg>, x: Context)
    ensures Value(Group(Or(a, Or(b, c))), args, x, NoRow) <==>
            Value(a, args, x, NoRow) || Value(b, args, x, NoRow) || Value(c, args, x, NoRow)
  {
    assert Value(Or(b, c), args, x, NoRow) <==> Value(b, args, x, NoRow) || Value(c, args, x, NoRow);
    assert Value(Or(a, Or(b, c)), args, x, NoRow) <==> Value(a, args, x, NoRow) || Value(Or(b, c), args, x, NoRow);
  }

  // ---------------------------------------------------------------- the compiler

  /** The clause under construction; args is shared through a pointer. conds is what the texts say. */
  class Builder {
    var where: seq<Tokens>
    var args: seq<Arg>
    ghost var conds: seq<Expr>

    constructor ()
      ensures Valid() && args == [] && conds == []
    {
      where, args, conds := [], [], [];
    }

    ghost predicate Valid()
      reads this
    {
      Texts(where, conds) && Clauses(conds) && NumberedFrom(conds, 0) && ParamsOf(conds) == |args|
    }

    ghost predicate Means(x: Context)
      reads this
    {
      Hold(conds, args, x)
    }

    /** One more clause, with its arguments. */
    method Add(text: Tokens, mine: seq<Arg>, ghost e: Expr)
      requires Valid() && text == Print(e)
      requires Shaped(e) && Level(e) == 2 && Numbered(e, |args|) && Params(e) == |mine|
      modifies this
      ensures Valid()
      ensures forall x: Context :: Means(x) <==> old(Means(x)) && Value(e, old(args) + mine, x, NoRow)
    {
      hide Value, Numbered, Params, Shaped, Print, Level, NumberedFrom, ParamsOf;
      ghost var conds0, args0 := conds, args;
      NumberedAppend(conds, e, 0);
      where := where + [text];
      args := args + mine;
      conds := conds + [e];
      forall x: Context ensures Means(x) <==> Hold(conds0, args0, x) && Value(e, args, x, NoRow) {
        HoldKept(conds0, 0, args0, mine, x);
        assert forall c :: c in conds <==> c in conds0 || c == e;
      }
    }

    /** appendTermExists, and the append of entity_type before it. */
    method AddTerm(entityType: string, column: string, f: TermFilter)
      requires Valid() && Name(column) && Outside(column)
      modifies this
      ensures Valid()
      ensures forall x: Context :: Means(x) <==> old(Means(x)) && HasTerm(x, entityType, column, f)
    {
      var mine := [Text(entityType)];
      var placeholders: Tokens := [];
      for i := 0 to |f.keys|
        invariant mine == [Text(entityType)] + KeyArgs(f.keys[..i])
        invariant placeholders == Questions(i)
      {
        placeholders := placeholders + ["?"];
        mine := mine + [Text(f.keys[i])];
        assert f.keys[..i + 1] == f.keys[..i] + [f.keys[i]];
      }
      assert f.keys[..|f.keys|] == f.keys;
      mine := mine + [Text(f.value)];
      ghost var n := |args|;
      ghost var e := TermClause(column, |f.keys|, n);
      var text :=
        ["EXISTS", "(", "SELECT", "1", "FROM", "metadata_terms", "t", "WHERE"] +
        ["t.entity_type", "=", "?"] + ["AND"] + ["t.entity_id", "=", column] + ["AND"] +
        (["t.key", "IN", "("] + CommaList(placeholders) + [")"]) + ["AND"] + ["t.value", "=", "?"] + [")"];
      TermSpelled(column, |f.keys|, n);
      forall x: Context ensures Value(e, args + mine, x, NoRow) <==> HasTerm(x, entityType, column, f) {
        TermMeans(column, f, entityType, args, x);
      }
      hide TermClause, HasTerm, Outside;
      Add(text, mine, e);
    }

    /** metadataWhere: a filter without keys or value is skipped. */
    method AddTerms(entityType: string, column: string, terms: seq<TermFilter>)
      requires Valid() && Name(column) && Outside(column)
      modifies this
      ensures Valid()
      ensures forall x: Context ::
                Means(x) <==> old(Means(x)) && forall i | 0 <= i < |terms| :: Meets(x, entityType, column, terms[i])
    {
      hide HasTerm, Outside, Name;
      for i := 0 to |terms|
        invariant Valid()
        invariant forall x: Context ::
                    Means(x) <==> old(Means(x)) && forall j | 0 <= j < i :: Meets(x, entityType, column, terms[j])
      {
        if |terms[i].keys| == 0 || terms[i].value == "" {
        } else {
          AddTerm(entityType, column, terms[i]);
        }
      }
    }
  }

  function Questions(n: nat): Tokens {
    seq(n, i => "?")
  }

  lemma {:induction false} QuestionsJoined(n: nat)
    ensures CommaList(Questions(n)) == Marks(n)
  {
    if n > 1 {
      QuestionsJoined(n - 1);
      assert Questions(n)[1..] == Questions(n - 1);
    }
  }

  /** A clause, what it is printed as, and how its placeholders are numbered. */
  predicate Spelled(e: Expr, text: Tokens, n: nat, params: nat) {
    Shaped(e) && Print(e) == text && Numbered(e, n) && Params(e) == params
  }

  lemma EqualsSpelled(column: string, n: nat)
    requires Name(column)
    ensures Spelled(EqualsParam(column, n), [column, "=", "?"], n, 1)
  {}

  lemma AndSpelled(a: Expr, s: Tokens, j: nat, b: Expr, t: Tokens, k: nat, n: nat)
    requires Level(a) == 2 && Level(b) >= 1 && Spelled(a, s, n, j) && Spelled(b, t, n + j, k)
    ensures Spelled(And(a, b), s + ["AND"] + t, n, j + k)
  {}

  lemma OrSpelled(a: Expr, s: Tokens, j: nat, b: Expr, t: Tokens, k: nat, n: nat)
    requires Level(a) == 2 && Spelled(a, s, n, j) && Spelled(b, t, n + j, k)
    ensures Spelled(Or(a, b), s + ["OR"] + t, n, j + k)
  {}

  lemma GroupSpelled(e: Expr, s: Tokens, n: nat, k: nat)
    requires Spelled(e, s, n, k)
    ensures Spelled(Group(e), ["("] + s + [")"], n, k)
  {}

  lemma SelectSpelled(column: string, pick: string, table: string, c: Expr, s: Tokens, n: nat, k: nat)
    requires Name(column) && Name(pick) && Name(table) && Spelled(c, s, n, k)
    ensures Spelled(InSelect(Column(column), pick, table, c),
                    [column] + ["IN", "(", "SELECT", pick, "FROM", table, "WHERE"] + s + [")"], n, k)
  {}

  lemma ExistsSpelled(table: string, alias: string, c: Expr, s: Tokens, n: nat, k: nat)
    requires Name(table) && Name(alias) && Spelled(c, s, n, k)
    ensures Spelled(Exists(table, alias, c),
                    ["EXISTS", "(", "SELECT", "1", "FROM", table, alias, "WHERE"] + s + [")"], n, k)
  {}

  lemma KeysSpelled(column: string, n: nat, keys: nat)
    requires Name(column)
    ensures Spelled(InList(Column(column), n, keys), [column, "IN", "("] + CommaList(Questions(keys)) + [")"], n, keys)
  {
    QuestionsJoined(keys);
  }

  lemma SameColumnSpelled(a: string, b: string, n: nat)
    requires Name(a) && Name(b)
    ensures Spelled(Compare(Column(a), Equal, Column(b)), [a, "=", b], n, 0)
  {}

  /** Concatenation may be nested or not. */
  lemma Assembled(head: Tokens, a: Tokens, b: Tokens, c: Tokens, d: Tokens, word: Tokens, end: Tokens)
    ensures head + (a + word + (b + word + (c + word + d))) + end == head + a + word + b + word + c + word + d + end
    ensures head + (a + word + (b + word + c)) + end == head + a + word + b + word + c + end
  {}

  /** Every reserved word is in capitals or a sign. */
  lemma LowerCaseNames(word: string)
    requires word != "" && 'a' <= word[0] <= 'z'
    ensures Name(word)
  {
    assert forall i | 0 <= i < |RESERVED| :: |RESERVED[i]| > 0 && !('a' <= RESERVED[i][0] <= 'z');
  }

  /** The text of the clause is what appendTermExists prints. */
  lemma TermSpelled(column: string, keys: nat, n: nat)
    requires Name(column)
    ensures Spelled(TermClause(column, keys, n),
        ["EXISTS", "(", "SELECT", "1", "FROM", "metadata_terms", "t", "WHERE"] +
        ["t.entity_type", "=", "?"] + ["AND"] + ["t.entity_id", "=", column] + ["AND"] +
        (["t.key", "IN", "("] + CommaList(Questions(keys)) + [")"]) + ["AND"] + ["t.value", "=", "?"] + [")"],
        n, keys + 2)
  {
    hide Spelled, Name, CommaList;
    var list := ["t.key", "IN", "("] + CommaList(Questions(keys)) + [")"];
    var a, b := EqualsParam("t.entity_type", n), Compare(Column("t.entity_id"), Equal, Column(column));
    var c, d := InList(Column("t.key"), n + 1, keys), EqualsParam("t.value", n + 1 + keys);
    TermPartsSpelled(column, keys, n);
    AndSpelled(c, list, keys, d, ["t.value", "=", "?"], 1, n + 1);
    AndSpelled(b, ["t.entity_id", "=", column], 0, And(c, d), list + ["AND"] + ["t.value", "=", "?"], keys + 1, n + 1);
    var two := ["t.entity_id", "=", column] + ["AND"] + (list + ["AND"] + ["t.value", "=", "?"]);
    AndSpelled(a, ["t.entity_type", "=", "?"], 1, And(b, And(c, d)), two, keys + 1, n);
    LowerCaseNames("metadata_terms");
    LowerCaseNames("t");
    var all := ["t.entity_type", "=", "?"] + ["AND"] + two;
    ExistsSpelled("metadata_terms", "t", And(a, And(b, And(c, d))), all, n, keys + 2);
    Assembled(["EXISTS", "(", "SELECT", "1", "FROM", "metadata_terms", "t", "WHERE"], ["t.entity_type", "=", "?"],
              ["t.entity_id", "=", column], list, ["t.value", "=", "?"], ["AND"], [")"]);
  }

  lemma TermPartsSpelled(column: string, keys: nat, n: nat)
    requires Name(column)
    ensures Spelled(EqualsParam("t.entity_type", n), ["t.entity_type", "=", "?"], n, 1)
    ensures Spelled(Compare(Column("t.entity_id"), Equal, Column(column)), ["t.entity_id", "=", column], n + 1, 0)
    ensures Spelled(InList(Column("t.key"), n + 1, keys),
                    ["t.key", "IN", "("] + CommaList(Questions(keys)) + [")"], n + 1, keys)
    ensures Spelled(EqualsParam("t.value", n + 1 + keys), ["t.value", "=", "?"], n + 1 + keys, 1)
  {
    hide Spelled, Name, CommaList, EqualsParam;
    LowerCaseNames("t.entity_type");
    LowerCaseNames("t.entity_id");
    LowerCaseNames("t.key");
    LowerCaseNames("t.value");
    EqualsSpelled("t.entity_type", n);
    SameColumnSpelled("t.entity_id", column, n + 1);
    KeysSpelled("t.key", n + 1, keys);
    EqualsSpelled("t.value", n + 1 + keys);
  }

  lemma MemberSpelled(table: string, n: nat)
    requires Name(table)
    ensures Spelled(InSelect(Column("id"), "thread_id", table, EqualsParam("agent_id", n)),
                    ["id"] + ["IN", "(", "SELECT", "thread_id", "FROM", table, "WHERE"] +
                    ["agent_id", "=", "?"] + [")"], n, 1)
  {
    hide Spelled, Name, EqualsParam;
    LowerCaseNames("agent_id");
    LowerCaseNames("id");
    LowerCaseNames("thread_id");
    EqualsSpelled("agent_id", n);
    SelectSpelled("id", "thread_id", table, EqualsParam("agent_id", n), ["agent_id", "=", "?"], n, 1);
  }

  /** The text of the clause is the literal in ListThreads. */
  lemma InvolvedSpelled(n: nat)
    ensures Spelled(InvolvedClause(n), InvolvedText(), n, 3)
  {
    hide Spelled, Name;
    var a := EqualsParam("creator_id", n);
    var b := InSelect(Column("id"), "thread_id", "participants", EqualsParam("agent_id", n + 1));
    var c := InSelect(Column("id"), "thread_id", "watches", EqualsParam("agent_id", n + 2));
    var s := ["id"] + ["IN", "(", "SELECT", "thread_id", "FROM", "participants", "WHERE"] +
      ["agent_id", "=", "?"] + [")"];
    var t := ["id"] + ["IN", "(", "SELECT", "thread_id", "FROM", "watches", "WHERE"] + ["agent_id", "=", "?"] + [")"];
    LowerCaseNames("creator_id");
    LowerCaseNames("participants");
    LowerCaseNames("watches");
    EqualsSpelled("creator_id", n);
    MemberSpelled("participants", n + 1);
    MemberSpelled("watches", n + 2);
    OrSpelled(b, s, 1, c, t, 1, n + 1);
    OrSpelled(a, ["creator_id", "=", "?"], 1, Or(b, c), s + ["OR"] + t, 2, n);
    GroupSpelled(Or(a, Or(b, c)), ["creator_id", "=", "?"] + ["OR"] + (s + ["OR"] + t), n, 3);
    Assembled(["("], ["creator_id", "=", "?"], s, t, [], ["OR"], [")"]);
  }

  // ---------------------------------------------------------------- the three queries

  const THREAD_COLUMNS := ["id", "subforum_key", "title", "metadata", "creator_id", "created_at", "updated_at"]

  const POST_COLUMNS := [
    "posts.id", "posts.thread_id", "posts.author_id", "posts.body", "posts.reply_to", "posts.metadata",
      "posts.created_at"]

  const SAME_THREAD := Compare(Column("posts.thread_id"), Equal, Column("threads.id"))

  const THREADS_HEAD: Tokens := ["SELECT"] + CommaList(THREAD_COLUMNS) + ["FROM"] + ["threads"]

  const POSTS_HEAD: Tokens :=
    ["SELECT"] + CommaList(POST_COLUMNS) + ["FROM"] +
    (["posts", "JOIN", "threads", "ON"] + ["posts.thread_id", "=", "threads.id"])

  predicate Headed(columns: seq<string>, source: Source, order: string) {
    ShapedStatement(Select(columns, source, None, order, None))
  }

  lemma ThreadsHeaded()
    ensures Headed(THREAD_COLUMNS, Threads, "updated_at")
    ensures THREADS_HEAD == ["SELECT"] + CommaList(THREAD_COLUMNS) + ["FROM"] + SourceText(Threads)
  {
    hide Name, CommaList;
    LowerCaseNames("updated_at");
    forall c | c in THREAD_COLUMNS ensures Name(c) {
      var i :| 0 <= i < |THREAD_COLUMNS| && THREAD_COLUMNS[i] == c;
      LowerCaseNames(THREAD_COLUMNS[i]);
    }
  }

  lemma PostsHeaded()
    ensures Headed(POST_COLUMNS, PostsJoinThreads(SAME_THREAD), "posts.created_at")
    ensures POSTS_HEAD == ["SELECT"] + CommaList(POST_COLUMNS) + ["FROM"] + SourceText(PostsJoinThreads(SAME_THREAD))
  {
    hide Name, CommaList;
    LowerCaseNames("posts.created_at");
    LowerCaseNames("posts.thread_id");
    LowerCaseNames("threads.id");
    forall c | c in POST_COLUMNS ensures Name(c) {
      var i :| 0 <= i < |POST_COLUMNS| && POST_COLUMNS[i] == c;
      LowerCaseNames(POST_COLUMNS[i]);
    }
  }

  /** The text reads as a statement of this form, with one placeholder for each argument and the limit
      bound to the last. */
  ghost predicate Compiled(q: Query, columns: seq<string>, source: Source, order: string, limit: int) {
    var st := ParseStatement(q.text);
    st.Some? && st.value.columns == columns && st.value.source == source && st.value.order == order &&
    (st.value.limit.Some? <==> limit > 0) && (limit > 0 ==> Limit(st.value, q.args) == limit) &&
    Placeholders(q.text) == |q.args|
  }

  /** The row passes the WHERE clause that the text holds. */
  ghost predicate Selects(q: Query, x: Context) {
    var st := ParseStatement(q.text);
    st.Some? && Passes(st.value.where, q.args, x)
  }

  /** The WHERE clause written is the conjunction of the clauses, or none. */
  lemma WhereIsClauses(where: seq<Tokens>, conds: seq<Expr>, e: Option<Expr>)
    requires Texts(where, conds) && Clauses(conds) && NumberedFrom(conds, 0)
    requires e == if conds == [] then None else Some(Conjunction(conds))
    ensures WhereText(e) == if where == [] then [] else ["WHERE"] + Joined(where)
    ensures e.Some? ==> Shaped(e.value) && Numbered(e.value, 0) && Params(e.value) == ParamsOf(conds)
    ensures e.None? ==> ParamsOf(conds) == 0
    ensures forall args, x :: Passes(e, args, x) <==> Hold(conds, args, x)
  {
    if conds != [] { JoinedIsConjunction(where, conds, 0); }
    hide Value;
  }

  /** A statement's text has as many placeholders as its clause has parameters, and one for LIMIT. */
  lemma StatementPlaceholders(st: Statement)
    requires ShapedStatement(st)
    ensures Placeholders(StatementText(st)) ==
            (if st.where.Some? then Params(st.where.value) else 0) + if st.limit.Some? then 1 else 0
  {
    hide Print, CommaList, Placeholders, Params, Shaped, Numbered, Name, Level;
    var a, b := ["SELECT"], CommaList(st.columns);
    var c, d := ["FROM"], SourceText(st.source);
    var e, f := WhereText(st.where), EndText(st.order, st.limit);
    ColumnPlaceholders(st.columns);
    SourcePlaceholders(st.source);
    WherePlaceholders(st.where);
    EndPlaceholders(st.order, st.limit);
    FewPlaceholders();
    PlaceholdersSum(a, b);
    PlaceholdersSum(a + b, c);
    PlaceholdersSum(a + b + c, d);
    PlaceholdersSum(a + b + c + d, e);
    PlaceholdersSum(a + b + c + d + e, f);
  }

  lemma FewPlaceholders()
    ensures Placeholders(["SELECT"]) == 0 && Placeholders(["FROM"]) == 0 && Placeholders(["WHERE"]) == 0
    ensures Placeholders([]) == 0
  {}

  lemma {:induction false} ColumnPlaceholders(names: seq<string>)
    requires forall c | c in names :: Name(c)
    ensures Placeholders(CommaList(names)) == 0
  {
    if names != [] {
      assert names[0] in names && names[0] != "?";
      if |names| > 1 {
        assert forall c | c in names[1..] :: c in names;
        ColumnPlaceholders(names[1..]);
        PlaceholdersDrop(CommaList(names), 2);
        assert CommaList(names)[2..] == CommaList(names[1..]);
      } else {
        PlaceholdersDrop(names, 1);
        assert names[1..] == [];
      }
    }
  }

  lemma ExprPlaceholders(e: Expr)
    requires Shaped(e) && Numbered(e, 0)
    ensures Placeholders(Print(e)) == Params(e)
  {
    OrReads(e, 0, []);
    OrCounted(Print(e), 0);
    assert Print(e) + [] == Print(e);
    FewPlaceholders();
  }

  lemma SourcePlaceholders(source: Source)
    requires source.PostsJoinThreads? ==>
               Shaped(source.on) && Level(source.on) == 2 && Params(source.on) == 0 && Numbered(source.on, 0)
    ensures Placeholders(SourceText(source)) == 0
  {
    hide Print, Shaped, Numbered, Params, Level;
    if source.PostsJoinThreads? {
      ExprPlaceholders(source.on);
      PlaceholdersDrop(SourceText(source), 4);
      assert SourceText(source)[4..] == Print(source.on);
    } else {
      PlaceholdersDrop(["threads"], 1);
      assert ["threads"][1..] == [];
    }
  }

  lemma WherePlaceholders(where: Option<Expr>)
    requires where.Some? ==> Shaped(where.value) && Numbered(where.value, 0)
    ensures Placeholders(WhereText(where)) == if where.Some? then Params(where.value) else 0
  {
    hide Print, Shaped, Numbered, Params;
    if where.Some? {
      ExprPlaceholders(where.value);
      PlaceholdersDrop(WhereText(where), 1);
      assert WhereText(where)[1..] == Print(where.value);
    }
  }

  lemma EndPlaceholders(order: string, limit: Option<nat>)
    requires Name(order)
    ensures Placeholders(EndText(order, limit)) == if limit.Some? then 1 else 0
  {
    var text := EndText(order, limit);
    assert order != "?" && text[2] == order;
    hide Name;
    PlaceholdersDrop(text, 4);
    assert text[4..] == if limit.Some? then ["LIMIT", "?"] else [];
    if limit.Some? {
      PlaceholdersDrop(["LIMIT", "?"], 1);
      assert ["LIMIT", "?"][1..] == ["?"] && ["?"][1..] == [];
    }
  }

  method Finish(b: Builder, head: Tokens, order: string, limit: int, ghost columns: seq<string>, ghost source: Source)
    returns (q: Query)
    requires b.Valid() && Headed(columns, source, order)
    requires head == ["SELECT"] + CommaList(columns) + ["FROM"] + SourceText(source)
    ensures Compiled(q, columns, source, order, limit)
    ensures forall x: Context :: Selects(q, x) <==> b.Means(x)
  {
    hide Clauses, Print, Value, Shaped, Numbered, ParseStatement, CommaList, SourceText, Name, Conjunction, Joined,
      NumberedFrom, ParamsOf, Level;
    var text, args := head, b.args;
    ghost var where := None;
    if |b.where| > 0 {
      text := text + (["WHERE"] + Joined(b.where));
      where := Some(Conjunction(b.conds));
    }
    text := text + ["ORDER", "BY", order, "DESC"];
    if limit > 0 {
      text := text + ["LIMIT", "?"];
      args := args + [Count(limit)];
    }
    q := Query(text, args);
    ghost var st := Select(columns, source, where, order, if limit > 0 then Some(|b.args|) else None);
    WhereIsClauses(b.where, b.conds, where);
    assert text == head + WhereText(where) + EndText(order, st.limit);
    StatementReads(st);
    StatementPlaceholders(st);
    forall x: Context ensures Selects(q, x) <==> b.Means(x) {
      HoldKept(b.conds, 0, b.args, [Count(limit)], x);
    }
  }

  /** title, id and the like are columns of the row outside, not of the index. */
  lemma OutsideColumns()
    ensures Outside("threads.id") && Outside("posts.id")
  {}

  ghost predicate SearchThreadsMeaning(f: SearchFilter, x: Context)
    requires x.row.ThreadRow?
  {
    (f.subforum != "" ==> x.row.th.subforum == f.subforum) &&
    (f.text != "" ==> x.like("%" + f.text + "%", x.row.th.title)) &&
    (forall i | 0 <= i < |f.terms| :: Meets(x, THREAD_ENTITY, "threads.id", f.terms[i])) &&
    (f.createdAfter.Some? ==> x.row.th.createdAt > f.createdAfter.value)
  }

  ghost predicate SearchPostsMeaning(f: SearchFilter, x: Context)
    requires x.row.PostRow?
  {
    (f.subforum != "" ==> x.row.th.subforum == f.subforum) &&
    (f.text != "" ==> x.like("%" + f.text + "%", x.row.post.body)) &&
    (forall i | 0 <= i < |f.terms| :: Meets(x, POST_ENTITY, "posts.id", f.terms[i])) &&
    (f.createdAfter.Some? ==> x.row.post.createdAt > f.createdAfter.value)
  }

  ghost predicate ListThreadsMeaning(f: ListThreadsFilter, x: Context)
    requires x.row.ThreadRow?
  {
    (f.subforum != "" ==> x.row.th.subforum == f.subforum) &&
    (f.involved != "" ==> IsInvolved(x.db, f.involved, x.row.th)) &&
    (f.watching != "" ==> (f.watching, x.row.th.id) in x.db.watches) &&
    (forall i | 0 <= i < |f.terms| :: Meets(x, THREAD_ENTITY, "threads.id", f.terms[i]))
  }

  /** A comparison of a column with one placeholder. */
  lemma CompareSpelled(column: string, op: Operator, n: nat)
    requires Name(column)
    ensures Spelled(Compare(Column(column), op, Param(n)), [column, OperatorText(op), "?"], n, 1)
  {}

  /** column = ?, column LIKE ? or column > ?, if the filter asks for it. */
  method AddCompare(b: Builder, wanted: bool, column: string, ghost op: Operator, word: string, arg: Arg)
    requires b.Valid() && Name(column) && word == OperatorText(op)
    modifies b
    ensures b.Valid()
    ensures forall x: Context ::
              b.Means(x) <==>
              old(b.Means(x)) &&
              (wanted ==>
                OuterColumn(column, x.row).Some? && Compares(op, OuterColumn(column, x.row).value, arg, x.like))
  {
    if wanted {
      CompareSpelled(column, op, |b.args|);
      hide Name, OperatorText, OuterColumn;
      b.Add([column, word, "?"], [arg], Compare(Column(column), op, Param(|b.args|)));
    }
  }

  /** column = ? */
  method AddEquals(b: Builder, column: string, text: string)
    requires b.Valid() && Name(column)
    modifies b
    ensures b.Valid()
    ensures forall x: Context ::
              b.Means(x) <==> old(b.Means(x)) && (text != "" ==> OuterColumn(column, x.row) == Some(Text(text)))
  {
    hide Builder.Means, Builder.Valid, Name, OuterColumn;
    AddCompare(b, text != "", column, Equal, "=", Text(text));
  }

  /** column LIKE ?, the text between two wildcards. */
  method AddContains(b: Builder, column: string, text: string)
    requires b.Valid() && Name(column)
    modifies b
    ensures b.Valid()
    ensures forall x: Context ::
              b.Means(x) <==>
              old(b.Means(x)) &&
              (text != "" ==>
                OuterColumn(column, x.row).Some? && OuterColumn(column, x.row).value.Text? &&
                x.like("%" + text + "%", OuterColumn(column, x.row).value.text))
  {
    hide Builder.Means, Builder.Valid, Name, OuterColumn;
    AddCompare(b, text != "", column, Like, "LIKE", Text("%" + text + "%"));
  }

  /** column > ? */
  method AddAfter(b: Builder, column: string, after: Option<Stamp>)
    requires b.Valid() && Name(column)
    modifies b
    ensures b.Valid()
    ensures forall x: Context ::
              b.Means(x) <==>
              old(b.Means(x)) &&
              (after.Some? ==>
                OuterColumn(column, x.row).Some? && OuterColumn(column, x.row).value.Time? &&
                OuterColumn(column, x.row).value.at > after.value)
  {
    hide Builder.Means, Builder.Valid, Name, OuterColumn;
    AddCompare(b, after.Some?, column, Greater, ">", Time(if after.Some? then after.value else 0));
  }

  /** SearchThreads: for any filter the emitted text is a statement with one placeholder for each argument,
      and its clause, with the i-th placeholder bound to the i-th argument, is what the filter means. */
  method SearchThreads(f: SearchFilter) returns (q: Query)
    ensures Compiled(q, THREAD_COLUMNS, Threads, "updated_at", f.limit)
    ensures forall x: Context | x.row.ThreadRow? :: Selects(q, x) <==> SearchThreadsMeaning(f, x)
  {
    hide Compiled, Selects, HasTerm, Builder.Means, Builder.Valid, Name, Outside, OuterColumn, Meets;
    ThreadCells();
    ThreadNames();
    OutsideColumns();
    ThreadsHeaded();
    var b := new Builder();
    NoClauses(b);
    AddEquals(b, "subforum_key", f.subforum);
    AddContains(b, "title", f.text);
    b.AddTerms(THREAD_ENTITY, "threads.id", f.terms);
    AddAfter(b, "created_at", f.createdAfter);
    q := Finish(b, THREADS_HEAD, "updated_at", f.limit, THREAD_COLUMNS, Threads);
  }

  /** The columns compared, of the rows of threads. */
  lemma ThreadCells()
    ensures forall x: Context | x.row.ThreadRow? ::
              OuterColumn("subforum_key", x.row) == Some(Text(x.row.th.subforum)) &&
              OuterColumn("title", x.row) == Some(Text(x.row.th.title)) &&
              OuterColumn("created_at", x.row) == Some(Time(x.row.th.createdAt))
  {}

  /** And of the rows of the join. */
  lemma PostCells()
    ensures forall x: Context | x.row.PostRow? ::
              OuterColumn("threads.subforum_key", x.row) == Some(Text(x.row.th.subforum)) &&
              OuterColumn("posts.body", x.row) == Some(Text(x.row.post.body)) &&
              OuterColumn("posts.created_at", x.row) == Some(Time(x.row.post.createdAt))
  {}

  lemma NoClauses(b: Builder)
    requires b.conds == []
    ensures forall x: Context :: b.Means(x)
  {}

  lemma ThreadNames()
    ensures Name("subforum_key") && Name("title") && Name("created_at") && Name("threads.id") && Name("updated_at")
  {
    LowerCaseNames("subforum_key");
    LowerCaseNames("title");
    LowerCaseNames("created_at");
    LowerCaseNames("threads.id");
    LowerCaseNames("updated_at");
  }

  lemma PostNames()
    ensures Name("threads.subforum_key") && Name("posts.body") && Name("posts.created_at") && Name("posts.id")
  {
    LowerCaseNames("threads.subforum_key");
    LowerCaseNames("posts.body");
    LowerCaseNames("posts.created_at");
    LowerCaseNames("posts.id");
  }

  /** SearchPosts, over the rows of the join. */
  method SearchPosts(f: SearchFilter) returns (q: Query)
    ensures Compiled(q, POST_COLUMNS, PostsJoinThreads(SAME_THREAD), "posts.created_at", f.limit)
    ensures forall x: Context | x.row.PostRow? :: Selects(q, x) <==> SearchPostsMeaning(f, x)
  {
    hide Compiled, Selects, HasTerm, Builder.Means, Builder.Valid, Name, Outside, OuterColumn, Meets;
    PostCells();
    PostNames();
    OutsideColumns();
    PostsHeaded();
    var b := new Builder();
    NoClauses(b);
    AddEquals(b, "threads.subforum_key", f.subforum);
    AddContains(b, "posts.body", f.text);
    b.AddTerms(POST_ENTITY, "posts.id", f.terms);
    AddAfter(b, "posts.created_at", f.createdAfter);
    q := Finish(b, POSTS_HEAD, "posts.created_at", f.limit, POST_COLUMNS, PostsJoinThreads(SAME_THREAD));
  }

  /** ListThreads. */
  method ListThreads(f: ListThreadsFilter) returns (q: Query)
    ensures Compiled(q, THREAD_COLUMNS, Threads, "updated_at", f.limit)
    ensures forall x: Context | x.row.ThreadRow? :: Selects(q, x) <==> ListThreadsMeaning(f, x)
  {
    hide Compiled, Selects, HasTerm, Builder.Means, Builder.Valid, Name, Outside, OuterColumn, Meets, IsInvolved;
    ThreadCells();
    ThreadNames();
    OutsideColumns();
    ThreadsHeaded();
    var b := new Builder();
    NoClauses(b);
    AddEquals(b, "subforum_key", f.subforum);
    if f.involved != "" { AddInvolved(b, f.involved); }
    if f.watching != "" { AddWatching(b, f.watching); }
    b.AddTerms(THREAD_ENTITY, "threads.id", f.terms);
    q := Finish(b, THREADS_HEAD, "updated_at", f.limit, THREAD_COLUMNS, Threads);
  }

  method AddInvolved(b: Builder, agent: Id)
    requires b.Valid()
    modifies b
    ensures b.Valid()
    ensures forall x: Context | x.row.ThreadRow? :: b.Means(x) <==> old(b.Means(x)) && IsInvolved(x.db, agent, x.row.th)
  {
    ghost var args, e := b.args, InvolvedClause(|b.args|);
    InvolvedSpelled(|b.args|);
    forall x: Context | x.row.ThreadRow?
      ensures Value(e, args + [Text(agent), Text(agent), Text(agent)], x, NoRow) <==> IsInvolved(x.db, agent, x.row.th)
    {
      InvolvedMeans(agent, args, x);
    }
    InvolvedIsAtom(|b.args|);
    hide InvolvedText, InvolvedClause, IsInvolved, Value;
    b.Add(InvolvedText(), [Text(agent), Text(agent), Text(agent)], e);
  }

  lemma InvolvedIsAtom(n: nat)
    ensures Level(InvolvedClause(n)) == 2
  {}

  method AddWatching(b: Builder, agent: Id)
    requires b.Valid()
    modifies b
    ensures b.Valid()
    ensures forall x: Context | x.row.ThreadRow? ::
              b.Means(x) <==> old(b.Means(x)) && (agent, x.row.th.id) in x.db.watches
  {
    ghost var args, e := b.args, InSelect(Column("id"), "thread_id", "watches", EqualsParam("agent_id", |b.args|));
    LowerCaseNames("watches");
    MemberSpelled("watches", |b.args|);
    forall x: Context | x.row.ThreadRow?
      ensures Value(e, args + [Text(agent)], x, NoRow) <==> (agent, x.row.th.id) in x.db.watches
    {
      MemberMeans(|args|, agent, args + [Text(agent)], x);
    }
    hide Value, Name, EqualsParam;
    var text := ["id"] + ["IN", "(", "SELECT", "thread_id", "FROM", "watches", "WHERE"] + ["agent_id", "=", "?"] +
      [")"];
    b.Add(text, [Text(agent)], e);
  }

  // ---------------------------------------------------------------- agreement with a scan

  /** The naive scan of one metadata tree for one filter: some key, read as a dotted path, leads to a
      leaf printing as the value. Blank leaves are not searched for. */
  ghost predicate ScanMeets(m: map<string, Json>, f: TermFilter) {
    |f.keys| == 0 || f.value == "" ||
    (!Blank(f.value) &&
     exists k, path | k in f.keys && HasLeaf(Obj(m), path, f.value) :: Join(path, '.') == k)
  }

  ghost predicate ScanAll(m: map<string, Json>, terms: seq<TermFilter>) {
    forall f | f in terms :: ScanMeets(m, f)
  }

  /** For one entity, the index test is the scan. */
  lemma MeetsIsScan(x: Context, entityType: string, column: string, id: Id, m: map<string, Json>, f: TermFilter)
    requires Accepted(Obj(m)) && OuterColumn(column, x.row) == Some(Text(id))
    requires forall key, value ::
               TermRow(entityType, id, key, value) in x.db.terms <==> Term(key, value) in IndexTerms(Obj(m))
    ensures Meets(x, entityType, column, f) <==> ScanMeets(m, f)
  {
    forall k ensures TermRow(entityType, id, k, f.value) in x.db.terms <==>
                       !Blank(f.value) && exists path | HasLeaf(Obj(m), path, f.value) :: Join(path, '.') == k
    {
      IndexRefinesScan(Obj(m), k, f.value);
      JoinSplit(k, '.');
      forall path | HasLeaf(Obj(m), path, f.value) && Join(path, '.') == k ensures path == Split(k, '.') {
        FlattenExact(Obj(m), path, f.value);
      }
    }
  }

  /** The index rows of a stored thread. */
  lemma ThreadRows(db: Db, t: Id)
    requires Inv(db) && t in db.threads
    ensures Accepted(Obj(db.threads[t].metadata)) && db.threads[t].id == t
    ensures forall key, value ::
              TermRow(THREAD_ENTITY, t, key, value) in db.terms <==>
                Term(key, value) in IndexTerms(Obj(db.threads[t].metadata))
  {
    hide LogMatches, ThreadsUpToDate, ParticipantsExact, PostsInThreads, RepliesPointBack, IdsUnique;
    forall key, value
      ensures TermRow(THREAD_ENTITY, t, key, value) in db.terms <==>
        Term(key, value) in IndexTerms(Obj(db.threads[t].metadata))
    {
      assert TermRow(THREAD_ENTITY, t, key, value) in db.terms <==>
        Indexed(db.threads, db.posts, TermRow(THREAD_ENTITY, t, key, value));
    }
  }

  /** The index rows of a stored post. */
  lemma PostRows(db: Db, i: nat)
    requires Inv(db) && i < |db.posts|
    ensures Accepted(Obj(db.posts[i].metadata))
    ensures forall key, value ::
              TermRow(POST_ENTITY, db.posts[i].id, key, value) in db.terms <==>
              Term(key, value) in IndexTerms(Obj(db.posts[i].metadata))
  {
    hide LogMatches, ThreadsUpToDate, ParticipantsExact, RepliesPointBack, ThreadsFit;
    var p := db.posts[i];
    forall key, value
      ensures TermRow(POST_ENTITY, p.id, key, value) in db.terms <==> Term(key, value) in IndexTerms(Obj(p.metadata))
    {
      var r := TermRow(POST_ENTITY, p.id, key, value);
      assert r in db.terms <==> Indexed(db.threads, db.posts, r);
      if PostIndexed(db.posts, r) {
        var j :| 0 <= j < |db.posts| && db.posts[j].id == p.id &&
          Term(key, value) in IndexTerms(Obj(db.posts[j].metadata));
        assert j == i;
      }
    }
  }

  /** What a scan of a stored thread's own title, subforum, time and metadata tree finds. */
  ghost predicate ScanThread(f: SearchFilter, th: Thread, like: (string, string) -> bool) {
    (f.subforum != "" ==> th.subforum == f.subforum) &&
    (f.text != "" ==> like("%" + f.text + "%", th.title)) &&
    (f.createdAfter.Some? ==> th.createdAt > f.createdAfter.value) &&
    ScanAll(th.metadata, f.terms)
  }

  /** In every state that keeps the invariants, SearchThreads' clause selects a stored thread exactly when
      the scan does. */
  lemma SearchThreadsRefinesScan(db: Db, t: Id, f: SearchFilter, like: (string, string) -> bool)
    requires Inv(db) && t in db.threads
    ensures SearchThreadsMeaning(f, Context(db, ThreadRow(db.threads[t]), like)) <==> ScanThread(f, db.threads[t], like)
  {
    hide Inv, Meets, ScanMeets;
    ThreadRows(db, t);
    var x := Context(db, ThreadRow(db.threads[t]), like);
    forall g { MeetsIsScan(x, THREAD_ENTITY, "threads.id", t, db.threads[t].metadata, g); }
  }

  lemma CreatorTakesPart(db: Db, t: Id)
    requires Inv(db) && t in db.threads
    ensures (db.threads[t].creator, t) in db.participants
  {
    hide LogMatches, IndexExact, ThreadsUpToDate, ParticipantsExact, PostsInThreads, RepliesPointBack;
  }

  ghost predicate ScanList(db: Db, f: ListThreadsFilter, th: Thread) {
    (f.subforum != "" ==> th.subforum == f.subforum) &&
    (f.involved != "" ==> (f.involved, th.id) in db.participants || (f.involved, th.id) in db.watches) &&
    (f.watching != "" ==> (f.watching, th.id) in db.watches) &&
    ScanAll(th.metadata, f.terms)
  }

  /** ListThreads; the creator clause adds nothing to participation. */
  lemma ListThreadsRefinesScan(db: Db, t: Id, f: ListThreadsFilter, like: (string, string) -> bool)
    requires Inv(db) && t in db.threads
    ensures ListThreadsMeaning(f, Context(db, ThreadRow(db.threads[t]), like)) <==> ScanList(db, f, db.threads[t])
  {
    hide Inv, Meets, ScanMeets;
    ThreadRows(db, t);
    CreatorTakesPart(db, t);
    var x := Context(db, ThreadRow(db.threads[t]), like);
    forall g { MeetsIsScan(x, THREAD_ENTITY, "threads.id", t, db.threads[t].metadata, g); }
  }

  /** What a scan of a stored post's own body and time, its thread's subforum and its metadata tree finds. */
  ghost predicate ScanPost(f: SearchFilter, p: Post, th: Thread, like: (string, string) -> bool) {
    (f.subforum != "" ==> th.subforum == f.subforum) &&
    (f.text != "" ==> like("%" + f.text + "%", p.body)) &&
    (f.createdAfter.Some? ==> p.createdAt > f.createdAfter.value) &&
    ScanAll(p.metadata, f.terms)
  }

  /** Every post has exactly one row in posts JOIN threads ON posts.thread_id = threads.id, and SearchPosts'
      clause selects it exactly when the scan does. */
  lemma SearchPostsRefinesScan(db: Db, i: nat, f: SearchFilter, like: (string, string) -> bool)
    requires Inv(db) && i < |db.posts|
    ensures var p := db.posts[i];
            p.thread in db.threads &&
            var th := db.threads[p.thread];
            (forall row: Row, args ::
              From(PostsJoinThreads(SAME_THREAD), args, Context(db, row, like)) && row.post.id == p.id <==>
              row == PostRow(p, th)) &&
            (SearchPostsMeaning(f, Context(db, PostRow(p, th), like)) <==> ScanPost(f, p, th, like))
  {
    hide Inv, Meets, ScanMeets;
    var p := db.posts[i];
    PostRows(db, i);
    PostsThread(db, i);
    forall row: Row, args
      ensures From(PostsJoinThreads(SAME_THREAD), args, Context(db, row, like)) && row.post.id == p.id <==>
              row == PostRow(p, db.threads[p.thread])
    {
      if row.PostRow? { JoinMeans(args, Context(db, row, like)); }
    }
    var x := Context(db, PostRow(p, db.threads[p.thread]), like);
    forall g { MeetsIsScan(x, POST_ENTITY, "posts.id", p.id, p.metadata, g); }
  }

  lemma JoinMeans(args: seq<Arg>, x: Context)
    requires x.row.PostRow?
    ensures Value(SAME_THREAD, args, x, NoRow) <==> x.row.post.thread == x.row.th.id
  {}

  lemma PostsThread(db: Db, i: nat)
    requires Inv(db) && i < |db.posts|
    ensures var t := db.posts[i].thread; t in db.threads && db.threads[t].id == t
    ensures forall p | p in db.posts && p.id == db.posts[i].id :: p == db.posts[i]
  {
    hide LogMatches, IndexExact, ThreadsUpToDate, ParticipantsExact, CreatorsTakePart, RepliesPointBack;
    OnePostPerId(db.posts, i);
    hide IdsUnique;
    ThreadOfPost(db.threads, db.posts, i);
  }

  lemma ThreadOfPost(threads: Threads, posts: seq<Post>, i: nat)
    requires ThreadsFit(threads) && PostsInThreads(threads, posts) && i < |posts|
    ensures posts[i].thread in threads && threads[posts[i].thread].id == posts[i].thread
  {}

  lemma OnePostPerId(posts: seq<Post>, i: nat)
    requires IdsUnique(posts) && i < |posts|
    ensures forall p | p in posts && p.id == posts[i].id :: p == posts[i]
  {
    forall p | p in posts && p.id == posts[i].id ensures p == posts[i] {
      var j :| 0 <= j < |posts| && posts[j] == p;
    }
  }

  /** The order and repetition of filters do not matter, in any of the three queries. */
  lemma FilterOrderIrrelevant(x: Context, entityType: string, column: string, f: seq<TermFilter>, g: seq<TermFilter>)
    requires forall t :: t in f <==> t in g
    ensures (forall i | 0 <= i < |f| :: Meets(x, entityType, column, f[i])) <==>
            (forall i | 0 <= i < |g| :: Meets(x, entityType, column, g[i]))
  {
    assert forall i | 0 <= i < |f| :: f[i] in g;
    assert forall i | 0 <= i < |g| :: g[i] in f;
  }

  // ---------------------------------------------------------------- answers

  /** A list without repeats, newest first: all that are found, or as many as the limit
      allows with none left out that is newer than one given. */
  ghost predicate Newest(out: seq<Row>, limit: int, found: Row -> bool, time: Row -> Stamp) {
    (forall i | 0 <= i < |out| :: found(out[i])) &&
    (forall i, j | 0 <= i < j < |out| :: out[i] != out[j] && time(out[i]) >= time(out[j])) &&
    (limit <= 0 || |out| < limit ==> forall row | found(row) :: row in out) &&
    (limit > 0 ==> |out| <= limit) &&
    (forall row, i | found(row) && row !in out && 0 <= i < |out| :: time(out[i]) >= time(row))
  }

  lemma ThreadTimes()
    ensures forall a: Row, b: Row | a.ThreadRow? && b.ThreadRow? && NoLater("updated_at", a, b) ::
              a.th.updatedAt >= b.th.updatedAt
  {}

  lemma PostTimes()
    ensures forall a: Row, b: Row | a.PostRow? && b.PostRow? && NoLater("posts.created_at", a, b) ::
              a.post.createdAt >= b.post.createdAt
  {}

  lemma AnswersAreNewest(st: Statement, q: Query, db: Db, like: (string, string) -> bool, out: seq<Row>, limit: int,
      found: Row -> bool, time: Row -> Stamp)
    requires Answers(st, q.args, db, like, out)
    requires st.limit.Some? <==> limit > 0
    requires limit > 0 ==> Limit(st, q.args) == limit
    requires forall row :: Picks(st, q.args, Context(db, row, like)) <==> found(row)
    requires forall a, b | found(a) && found(b) && NoLater(st.order, a, b) :: time(a) >= time(b)
    ensures Newest(out, limit, found, time)
  {}

  /** What the database may answer to SearchThreads' query is what the scan finds, newest first. */
  lemma SearchThreadsAnswers(db: Db, f: SearchFilter, like: (string, string) -> bool, q: Query, out: seq<Row>)
    requires Inv(db) && Compiled(q, THREAD_COLUMNS, Threads, "updated_at", f.limit)
    requires forall x: Context | x.row.ThreadRow? :: Selects(q, x) <==> SearchThreadsMeaning(f, x)
    requires Answers(ParseStatement(q.text).value, q.args, db, like, out)
    ensures Newest(out, f.limit, row => StoredThread(db, row) && ScanThread(f, row.th, like),
                   (row: Row) => row.th.updatedAt)
  {
    hide Inv, Newest, Answers, Value, ParseStatement, SearchThreadsMeaning, ScanThread;
    var st := ParseStatement(q.text).value;
    var found := (row: Row) => StoredThread(db, row) && ScanThread(f, row.th, like);
    forall row: Row ensures Picks(st, q.args, Context(db, row, like)) <==> found(row) {
      if StoredThread(db, row) { SearchThreadsRefinesScan(db, row.th.id, f, like); }
    }
    ThreadTimes();
    hide OuterColumn, NoLater;
    AnswersAreNewest(st, q, db, like, out, f.limit, found, (row: Row) => row.th.updatedAt);
  }

  predicate StoredThread(db: Db, row: Row) {
    row.ThreadRow? && row.th.id in db.threads && db.threads[row.th.id] == row.th
  }

  lemma ListThreadsAnswers(db: Db, f: ListThreadsFilter, like: (string, string) -> bool, q: Query, out: seq<Row>)
    requires Inv(db) && Compiled(q, THREAD_COLUMNS, Threads, "updated_at", f.limit)
    requires forall x: Context | x.row.ThreadRow? :: Selects(q, x) <==> ListThreadsMeaning(f, x)
    requires Answers(ParseStatement(q.text).value, q.args, db, like, out)
    ensures Newest(out, f.limit, row => StoredThread(db, row) && ScanList(db, f, row.th),
                   (row: Row) => row.th.updatedAt)
  {
    hide Inv, Newest, Answers, Value, ParseStatement, ListThreadsMeaning, ScanList;
    var st := ParseStatement(q.text).value;
    var found := (row: Row) => StoredThread(db, row) && ScanList(db, f, row.th);
    forall row: Row ensures Picks(st, q.args, Context(db, row, like)) <==> found(row) {
      if StoredThread(db, row) { ListThreadsRefinesScan(db, row.th.id, f, like); }
    }
    ThreadTimes();
    hide OuterColumn, NoLater;
    AnswersAreNewest(st, q, db, like, out, f.limit, found, (row: Row) => row.th.updatedAt);
  }

  predicate StoredPost(db: Db, row: Row) {
    row.PostRow? && row.post in db.posts && row.post.thread in db.threads && db.threads[row.post.thread] == row.th
  }

  /** The join's rows are the stored posts, each with its thread. */
  lemma JoinIsPosts(db: Db, args: seq<Arg>, row: Row, like: (string, string) -> bool)
    requires Inv(db)
    ensures From(PostsJoinThreads(SAME_THREAD), args, Context(db, row, like)) <==> StoredPost(db, row)
  {
    hide Inv;
    if row.PostRow? && row.post in db.posts {
      var i :| 0 <= i < |db.posts| && db.posts[i] == row.post;
      PostsThread(db, i);
      JoinMeans(args, Context(db, row, like));
    }
  }

  lemma SearchPostsAnswers(db: Db, f: SearchFilter, like: (string, string) -> bool, q: Query, out: seq<Row>)
    requires Inv(db) && Compiled(q, POST_COLUMNS, PostsJoinThreads(SAME_THREAD), "posts.created_at", f.limit)
    requires forall x: Context | x.row.PostRow? :: Selects(q, x) <==> SearchPostsMeaning(f, x)
    requires Answers(ParseStatement(q.text).value, q.args, db, like, out)
    ensures Newest(out, f.limit, row => StoredPost(db, row) && ScanPost(f, row.post, row.th, like),
                   (row: Row) => if row.PostRow? then row.post.createdAt else 0)
  {
    hide Inv, Newest, Answers, ParseStatement, SearchPostsMeaning, ScanPost, From;
    var st := ParseStatement(q.text).value;
    var found := (row: Row) => StoredPost(db, row) && ScanPost(f, row.post, row.th, like);
    forall row: Row ensures Picks(st, q.args, Context(db, row, like)) <==> found(row) {
      JoinIsPosts(db, q.args, row, like);
      if StoredPost(db, row) {
        var i :| 0 <= i < |db.posts| && db.posts[i] == row.post;
        SearchPostsRefinesScan(db, i, f, like);
      }
    }
    PostTimes();
    hide OuterColumn, NoLater;
    AnswersAreNewest(st, q, db, like, out, f.limit, found,
                     (row: Row) => if row.PostRow? then row.post.createdAt else 0);
  }

  /** Each of the three compiled queries has an answer in every state, equal times included. */
  lemma CompiledIsAnswered(q: Query, columns: seq<string>, source: Source, order: string, limit: int, db: Db,
      like: (string, string) -> bool)
    requires Compiled(q, columns, source, order, limit)
    requires (source.Threads? && order == "updated_at") || (source.PostsJoinThreads? && order == "posts.created_at")
    ensures exists out :: Answers(ParseStatement(q.text).value, q.args, db, like, out)
  {
    hide ParseStatement, Passes, Answers;
    var st := ParseStatement(q.text).value;
    var out := AnswerExists(st, q.args, db, like);
  }

  // ---------------------------------------------------------------- from columns to records

  /** The values that a row holds in the selected columns, in their order. */
  function Selected(columns: seq<string>, row: Row): seq<Option<Arg>> {
    seq(|columns|, i requires 0 <= i < |columns| => OuterColumn(columns[i], row))
  }

  /** scanThread: seven values by position; a value of another kind is a scan error. */
  function ScannedThread(v: seq<Option<Arg>>): Option<Thread> {
    if |v| == 7 && (forall i | 0 <= i < 7 :: v[i].Some?) && v[0].value.Text? && v[1].value.Text? && v[2].value.Text? &&
       v[3].value.Document? && v[4].value.Text? && v[5].value.Time? && v[6].value.Time?
    then Some(Thread(v[0].value.text, v[1].value.text, v[2].value.text, v[3].value.fields, v[4].value.text,
                     v[5].value.at, v[6].value.at))
    else None
  }

  /** scanPost */
  function ScannedPost(v: seq<Option<Arg>>): Option<Post> {
    if |v| == 7 && (forall i | 0 <= i < 7 :: v[i].Some?) && v[0].value.Text? && v[1].value.Text? && v[2].value.Text? &&
       v[3].value.Text? && v[4].value.Text? && v[5].value.Document? && v[6].value.Time?
    then Some(Post(v[0].value.text, v[1].value.text, v[2].value.text, v[3].value.text, v[4].value.text,
                   v[5].value.fields, v[6].value.at))
    else None
  }

  /** Scanning the selected columns gives the stored record back: column and field agree, place by place. */
  lemma ThreadScansBack(th: Thread)
    ensures ScannedThread(Selected(THREAD_COLUMNS, ThreadRow(th))) == Some(th)
  {
    var row := ThreadRow(th);
    assert OuterColumn("id", row) == Some(Text(th.id));
    assert OuterColumn("subforum_key", row) == Some(Text(th.subforum));
    assert OuterColumn("title", row) == Some(Text(th.title));
    assert OuterColumn("metadata", row) == Some(Document(th.metadata));
    assert OuterColumn("creator_id", row) == Some(Text(th.creator));
    assert OuterColumn("created_at", row) == Some(Time(th.createdAt));
    assert OuterColumn("updated_at", row) == Some(Time(th.updatedAt));
    hide OuterColumn;
  }

  lemma PostScansBack(p: Post, th: Thread)
    ensures ScannedPost(Selected(POST_COLUMNS, PostRow(p, th))) == Some(p)
  {
    var row := PostRow(p, th);
    assert OuterColumn("posts.id", row) == Some(Text(p.id));
    assert OuterColumn("posts.thread_id", row) == Some(Text(p.thread));
    assert OuterColumn("posts.author_id", row) == Some(Text(p.author));
    assert OuterColumn("posts.body", row) == Some(Text(p.body));
    assert OuterColumn("posts.reply_to", row) == Some(Text(p.replyTo));
    assert OuterColumn("posts.metadata", row) == Some(Document(p.metadata));
    assert OuterColumn("posts.created_at", row) == Some(Time(p.createdAt));
    hide OuterColumn;
  }
}
