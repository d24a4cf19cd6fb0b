/**
 The SQL that the store's searches emit: its grammar over tokens, and what a statement selects when its
 placeholders are bound by position.
 */
module Sql {
  import Metadata
  import opened Tables

  datatype Option<T> = None | Some(value: T)

  /** A statement's text as its lexical tokens. */
  type Tokens = seq<string>

  /** A positional argument, and the value of a column. */
  datatype Arg = Text(text: string) | Time(at: Stamp) | Count(n: int) | Document(fields: map<string, Metadata.Json>)

  // ---------------------------------------------------------------- expressions

  /** A placeholder knows how many stand before it in the statement. */
  datatype Operand = Param(number: nat) | Column(name: string)

  datatype Operator = Equal | Greater | Like

  datatype Expr =
    | Compare(left: Operand, op: Operator, right: Operand)
    | InList(left: Operand, first: nat, count: nat)
    | InSelect(left: Operand, pick: string, table: string, cond: Expr)
    | Exists(table: string, alias: string, cond: Expr)
    | Group(inner: Expr)
    | And(a: Expr, b: Expr)
    | Or(a: Expr, b: Expr)

  /** How tightly an expression binds. */
  function Level(e: Expr): nat {
    match e
    case Or(_, _) => 0
    case And(_, _) => 1
    case _ => 2
  }

  const RESERVED := [
    "?", "(", ")", ",", "=", ">", "LIKE", "IN", "EXISTS", "SELECT", "FROM", "WHERE", "AND", "OR", "ORDER", "BY",
    "DESC", "LIMIT", "JOIN", "ON"]

  predicate Name(word: string) {
    word != "" && word !in RESERVED
  }

  function Head(text: Tokens): string {
    if text == [] then "" else text[0]
  }

  // ---------------------------------------------------------------- the grammar

  /** What a rule reads off the front of a text: its value, what is left, and the placeholders so far. */
  datatype Parsed<T> = Fail | Done(value: T, rest: Tokens, marks: nat)

  function ParseOperand(text: Tokens, n: nat): (r: Parsed<Operand>)
    ensures r.Done? ==> |r.rest| < |text|
  {
    if Head(text) == "?" then Done(Param(n), text[1..], n + 1)
    else if Name(Head(text)) then Done(Column(text[0]), text[1..], n)
    else Fail
  }

  function OperatorOf(word: string): Option<Operator> {
    if word == "=" then Some(Equal)
    else if word == ">" then Some(Greater)
    else if word == "LIKE" then Some(Like)
    else None
  }

  /** Placeholders separated by commas, perhaps none; the value is their number. */
  function ParseMarks(text: Tokens, n: nat): (r: Parsed<nat>)
    ensures r.Done? ==> |r.rest| <= |text|
  {
    if Head(text) != "?" then Done(0, text, n)
    else if |text| >= 3 && text[1] == "," && text[2] == "?" then
      var r := ParseMarks(text[2..], n + 1);
      if r.Done? then r.(value := r.value + 1) else Fail
    else Done(1, text[1..], n + 1)
  }

  /** OR binds loosest, then AND. */
  function ParseOr(text: Tokens, n: nat): (r: Parsed<Expr>)
    ensures r.Done? ==> |r.rest| < |text|
    decreases |text|, 2
  {
    var a := ParseAnd(text, n);
    if a.Done? && Head(a.rest) == "OR" then
      var b := ParseOr(a.rest[1..], a.marks);
      if b.Done? then b.(value := Or(a.value, b.value)) else Fail
    else a
  }

  function ParseAnd(text: Tokens, n: nat): (r: Parsed<Expr>)
    ensures r.Done? ==> |r.rest| < |text|
    decreases |text|, 1
  {
    var a := ParseAtom(text, n);
    if a.Done? && Head(a.rest) == "AND" then
      var b := ParseAnd(a.rest[1..], a.marks);
      if b.Done? then b.(value := And(a.value, b.value)) else Fail
    else a
  }

  function ParseAtom(text: Tokens, n: nat): (r: Parsed<Expr>)
    ensures r.Done? ==> |r.rest| < |text|
    decreases |text|, 0
  {
    if Head(text) == "(" then
      var e := ParseOr(text[1..], n);
      if e.Done? && Head(e.rest) == ")" then Done(Group(e.value), e.rest[1..], e.marks) else Fail
    else if Head(text) == "EXISTS" then
      if |text| >= 8 && text[1..5] == ["(", "SELECT", "1", "FROM"] && Name(text[5]) && Name(text[6]) &&
        text[7] == "WHERE"
      then
        var e := ParseOr(text[8..], n);
        if e.Done? && Head(e.rest) == ")" then Done(Exists(text[5], text[6], e.value), e.rest[1..], e.marks) else Fail
      else Fail
    else
      var left := ParseOperand(text, n);
      if left.Fail? then Fail else ParseTail(left.value, left.rest, left.marks)
  }

  /** What may follow an operand. */
  function ParseTail(left: Operand, text: Tokens, n: nat): (r: Parsed<Expr>)
    ensures r.Done? ==> |r.rest| < |text|
    decreases |text|, 0
  {
    if |text| >= 2 && text[..2] == ["IN", "("] then
      if |text| >= 7 && text[2] == "SELECT" && Name(text[3]) && text[4] == "FROM" && Name(text[5]) && text[6] == "WHERE"
      then
        var e := ParseOr(text[7..], n);
        if e.Done? && Head(e.rest) == ")"
        then Done(InSelect(left, text[3], text[5], e.value), e.rest[1..], e.marks) else Fail
      else
        var list := ParseMarks(text[2..], n);
        if list.Done? && Head(list.rest) == ")"
        then Done(InList(left, n, list.value), list.rest[1..], list.marks) else Fail
    else
      var op := OperatorOf(Head(text));
      if op.None? then Fail else
      var right := ParseOperand(text[1..], n);
      if right.Done? then Done(Compare(left, op.value, right.value), right.rest, right.marks) else Fail
  }

  // ---------------------------------------------------------------- numbering

  function Holes(o: Operand): nat {
    if o.Param? then 1 else 0
  }

  function Params(e: Expr): nat {
    match e
    case Compare(l, _, r) => Holes(l) + Holes(r)
    case InList(l, _, count) => Holes(l) + count
    case InSelect(l, _, _, c) => Holes(l) + Params(c)
    case Exists(_, _, c) => Params(c)
    case Group(c) => Params(c)
    case And(a, b) => Params(a) + Params(b)
    case Or(a, b) => Params(a) + Params(b)
  }

  predicate NumberedOperand(o: Operand, n: nat) {
    o.Param? ==> o.number == n
  }

  /** The placeholders of an expression are numbered n, n + 1, ... from left to right. */
  predicate Numbered(e: Expr, n: nat) {
    match e
    case Compare(l, _, r) => NumberedOperand(l, n) && NumberedOperand(r, n + Holes(l))
    case InList(l, first, _) => NumberedOperand(l, n) && first == n + Holes(l)
    case InSelect(l, _, _, c) => NumberedOperand(l, n) && Numbered(c, n + Holes(l))
    case Exists(_, _, c) => Numbered(c, n)
    case Group(c) => Numbered(c, n)
    case And(a, b) => Numbered(a, n) && Numbered(b, n + Params(a))
    case Or(a, b) => Numbered(a, n) && Numbered(b, n + Params(a))
  }

  /** The number of placeholders in a text. */
  function Placeholders(text: Tokens): nat {
    if text == [] then 0 else (if text[0] == "?" then 1 else 0) + Placeholders(text[1..])
  }

  lemma {:induction false} PlaceholdersSum(a: Tokens, b: Tokens)
    ensures Placeholders(a + b) == Placeholders(a) + Placeholders(b)
  {
    if a == [] {
      assert a + b == b;
    } else {
      PlaceholdersSum(a[1..], b);
      assert (a + b)[1..] == a[1..] + b;
    }
  }

  /** Fixed words in front hold no placeholder. */
  lemma {:induction false} PlaceholdersDrop(text: Tokens, k: nat)
    requires k <= |text| && forall i | 0 <= i < k :: text[i] != "?"
    ensures Placeholders(text[k..]) == Placeholders(text)
  {
    if k > 0 {
      PlaceholdersDrop(text[1..], k - 1);
      assert text[1..][k - 1..] == text[k..];
    }
  }

  /** A rule accounts for the placeholders it read, numbering them in their order from n. */
  predicate Counted(e: Parsed<Expr>, text: Tokens, n: nat) {
    e.Done? ==>
      Numbered(e.value, n) && e.marks == n + Params(e.value) &&
        Placeholders(text) == Params(e.value) + Placeholders(e.rest)
  }

  lemma {:induction false} MarksCounted(text: Tokens, n: nat)
    ensures var r := ParseMarks(text, n);
            r.Done? ==> r.marks == n + r.value && Placeholders(text) == r.value + Placeholders(r.rest)
  {
    if Head(text) == "?" && |text| >= 3 && text[1] == "," && text[2] == "?" {
      MarksCounted(text[2..], n + 1);
      PlaceholdersDrop(text[1..], 1);
      assert text[1..][1..] == text[2..];
    }
  }

  lemma DropWords(text: Tokens, k: nat)
    requires k <= |text| && "?" !in text[..k]
    ensures Placeholders(text[k..]) == Placeholders(text)
  {
    forall i | 0 <= i < k ensures text[i] != "?" {
      assert text[..k][i] == text[i];
    }
    PlaceholdersDrop(text, k);
  }

  lemma OperandCounted(text: Tokens, n: nat)
    ensures var r := ParseOperand(text, n);
            r.Done? ==> NumberedOperand(r.value, n) && r.marks == n + Holes(r.value) &&
                        Placeholders(text) == Holes(r.value) + Placeholders(r.rest)
  {}

  /** The number that any text gives its i-th placeholder is its position: parsing numbers the parameters
      n, n + 1, ... from left to right, one for each placeholder read. */
  lemma {:induction false} OrCounted(text: Tokens, n: nat)
    ensures Counted(ParseOr(text, n), text, n)
    decreases |text|, 2
  {
    AndCounted(text, n);
    hide ParseAnd, Placeholders;
    var a := ParseAnd(text, n);
    if a.Done? && Head(a.rest) == "OR" {
      DropWords(a.rest, 1);
      OrCounted(a.rest[1..], a.marks);
    }
  }

  lemma {:induction false} AndCounted(text: Tokens, n: nat)
    ensures Counted(ParseAnd(text, n), text, n)
    decreases |text|, 1
  {
    AtomCounted(text, n);
    hide ParseAtom, Placeholders;
    var a := ParseAtom(text, n);
    if a.Done? && Head(a.rest) == "AND" {
      DropWords(a.rest, 1);
      AndCounted(a.rest[1..], a.marks);
    }
  }

  lemma {:induction false} AtomCounted(text: Tokens, n: nat)
    ensures Counted(ParseAtom(text, n), text, n)
    decreases |text|, 0
  {
    hide ParseOr, ParseTail, ParseOperand, Placeholders;
    if Head(text) == "(" {
      DropWords(text, 1);
      InnerCounted(text[1..], n);
    } else if Head(text) == "EXISTS" {
      if |text| >= 8 && text[1..5] == ["(", "SELECT", "1", "FROM"] && Name(text[5]) && Name(text[6]) &&
        text[7] == "WHERE" {
        assert forall i | 0 <= i < 4 :: text[i + 1] == text[1..5][i];
        PlaceholdersDrop(text, 8);
        InnerCounted(text[8..], n);
      }
    } else {
      OperandCounted(text, n);
      var left := ParseOperand(text, n);
      if left.Done? { TailCounted(left.value, left.rest, n); }
    }
  }

  /** An expression in parentheses, the closing one included. */
  lemma {:induction false} InnerCounted(text: Tokens, n: nat)
    ensures var e := ParseOr(text, n);
            Counted(e, text, n) &&
            (e.Done? && Head(e.rest) == ")" ==> Placeholders(e.rest[1..]) == Placeholders(e.rest))
    decreases |text|, 3
  {
    OrCounted(text, n);
    hide ParseOr, Placeholders;
    var e := ParseOr(text, n);
    if e.Done? && Head(e.rest) == ")" { DropWords(e.rest, 1); }
  }

  lemma {:induction false} TailCounted(left: Operand, text: Tokens, n: nat)
    requires NumberedOperand(left, n)
    ensures var r := ParseTail(left, text, n + Holes(left));
            r.Done? ==> Numbered(r.value, n) && r.marks == n + Params(r.value) &&
                        Placeholders(text) + Holes(left) == Params(r.value) + Placeholders(r.rest)
    decreases |text|, 0
  {
    hide ParseOr, ParseMarks, ParseOperand, Placeholders;
    var m := n + Holes(left);
    if |text| >= 2 && text[..2] == ["IN", "("] {
      assert text[0] == text[..2][0] && text[1] == text[..2][1];
      if |text| >= 7 && text[2] == "SELECT" && Name(text[3]) && text[4] == "FROM" && Name(text[5]) &&
        text[6] == "WHERE" {
        PlaceholdersDrop(text, 7);
        InnerCounted(text[7..], m);
      } else {
        PlaceholdersDrop(text, 2);
        MarksCounted(text[2..], m);
        var list := ParseMarks(text[2..], m);
        if list.Done? && Head(list.rest) == ")" { DropWords(list.rest, 1); }
      }
    } else if OperatorOf(Head(text)).Some? {
      DropWords(text, 1);
      OperandCounted(text[1..], m);
    }
  }

  // ---------------------------------------------------------------- printing

  function OperandText(o: Operand): Tokens {
    match o
    case Param(_) => ["?"]
    case Column(name) => [name]
  }

  function OperatorText(op: Operator): string {
    match op
    case Equal => "="
    case Greater => ">"
    case Like => "LIKE"
  }

  /** n placeholders separated by commas. */
  function Marks(n: nat): Tokens {
    if n == 0 then [] else if n == 1 then ["?"] else ["?", ","] + Marks(n - 1)
  }

  function Print(e: Expr): Tokens {
    match e
    case Compare(l, op, r) => OperandText(l) + [OperatorText(op)] + OperandText(r)
    case InList(l, _, count) => OperandText(l) + ["IN", "("] + Marks(count) + [")"]
    case InSelect(l, pick, table, c) =>
      OperandText(l) + ["IN", "(", "SELECT", pick, "FROM", table, "WHERE"] + Print(c) + [")"]
    case Exists(table, alias, c) =>
      ["EXISTS", "(", "SELECT", "1", "FROM", table, alias, "WHERE"] + Print(c) + [")"]
    case Group(c) => ["("] + Print(c) + [")"]
    case And(a, b) => Print(a) + ["AND"] + Print(b)
    case Or(a, b) => Print(a) + ["OR"] + Print(b)
  }

  predicate NamedOperand(o: Operand) {
    o.Column? ==> Name(o.name)
  }

  /** Columns and tables are names, and a looser operator under a tighter one stands in a group. */
  predicate Shaped(e: Expr) {
    match e
    case Compare(l, _, r) => NamedOperand(l) && NamedOperand(r)
    case InList(l, _, _) => NamedOperand(l)
    case InSelect(l, pick, table, c) => NamedOperand(l) && Name(pick) && Name(table) && Shaped(c)
    case Exists(table, alias, c) => Name(table) && Name(alias) && Shaped(c)
    case Group(c) => Shaped(c)
    case And(a, b) => Level(a) == 2 && Level(b) >= 1 && Shaped(a) && Shaped(b)
    case Or(a, b) => Level(a) >= 1 && Shaped(a) && Shaped(b)
  }

  lemma OperandReads(o: Operand, n: nat, rest: Tokens)
    requires NamedOperand(o) && NumberedOperand(o, n)
    ensures ParseOperand(OperandText(o) + rest, n) == Done(o, rest, n + Holes(o))
    ensures Head(OperandText(o) + rest) != "(" && Head(OperandText(o) + rest) != "EXISTS"
  {
    var text := OperandText(o) + rest;
    assert text[1..] == rest;
  }

  lemma {:induction false} MarksRead(count: nat, n: nat, rest: Tokens)
    requires Head(rest) != "?" && Head(rest) != ","
    ensures ParseMarks(Marks(count) + rest, n) == Done(count, rest, n + count)
  {
    var text := Marks(count) + rest;
    if count == 0 {
      assert text == rest;
    } else if count == 1 {
      assert text[1..] == rest;
    } else {
      MarksRead(count - 1, n + 1, rest);
      assert text[2..] == Marks(count - 1) + rest;
      assert text[2] == (Marks(count - 1) + rest)[0];
    }
  }

  lemma LeftReads(left: Operand, n: nat, tail: Tokens)
    requires NamedOperand(left) && NumberedOperand(left, n)
    ensures ParseAtom(OperandText(left) + tail, n) == ParseTail(left, tail, n + Holes(left))
  {
    OperandReads(left, n, tail);
  }

  lemma CompareReads(left: Operand, op: Operator, right: Operand, n: nat, rest: Tokens)
    requires NamedOperand(right) && NumberedOperand(right, n)
    ensures ParseTail(left, [OperatorText(op)] + (OperandText(right) + rest), n) ==
            Done(Compare(left, op, right), rest, n + Holes(right))
  {
    OperandReads(right, n, rest);
    hide ParseOperand, ParseMarks;
    var tail := [OperatorText(op)] + (OperandText(right) + rest);
    assert tail[1..] == OperandText(right) + rest;
    assert tail[0] == OperatorText(op) != "IN";
    assert |tail| >= 2 ==> tail[..2][0] != "IN";
  }

  lemma ListReads(left: Operand, count: nat, n: nat, rest: Tokens)
    ensures ParseTail(left, ["IN", "("] + (Marks(count) + ([")"] + rest)), n) ==
            Done(InList(left, n, count), rest, n + count)
  {
    MarksRead(count, n, [")"] + rest);
    var list := Marks(count) + ([")"] + rest);
    var tail := ["IN", "("] + list;
    assert tail[..2] == ["IN", "("] && tail[2..] == list && tail[2] == list[0];
    assert list[0] == if count == 0 then ")" else "?";
    hide ParseOr, ParseMarks, Marks;
  }

  lemma SelectReads(left: Operand, pick: string, table: string, cond: Tokens, e: Parsed<Expr>, n: nat)
    requires Name(pick) && Name(table) && e == ParseOr(cond, n) && e.Done? && Head(e.rest) == ")"
    ensures ParseTail(left, ["IN", "(", "SELECT", pick, "FROM", table, "WHERE"] + cond, n) ==
            Done(InSelect(left, pick, table, e.value), e.rest[1..], e.marks)
  {
    hide ParseOr, ParseMarks;
    var tail := ["IN", "(", "SELECT", pick, "FROM", table, "WHERE"] + cond;
    assert tail[..2] == ["IN", "("] && tail[7..] == cond;
  }

  lemma ExistsReads(table: string, alias: string, cond: Tokens, e: Parsed<Expr>, n: nat)
    requires Name(table) && Name(alias) && e == ParseOr(cond, n) && e.Done? && Head(e.rest) == ")"
    ensures ParseAtom(["EXISTS", "(", "SELECT", "1", "FROM", table, alias, "WHERE"] + cond, n) ==
            Done(Exists(table, alias, e.value), e.rest[1..], e.marks)
  {
    hide ParseOr, ParseTail, ParseOperand;
    var text := ["EXISTS", "(", "SELECT", "1", "FROM", table, alias, "WHERE"] + cond;
    assert text[1..5] == ["(", "SELECT", "1", "FROM"] && text[8..] == cond;
  }

  lemma GroupReads(inner: Tokens, e: Parsed<Expr>, n: nat)
    requires e == ParseOr(inner, n) && e.Done? && Head(e.rest) == ")"
    ensures ParseAtom(["("] + inner, n) == Done(Group(e.value), e.rest[1..], e.marks)
  {
    hide ParseOr, ParseTail, ParseOperand;
    assert (["("] + inner)[1..] == inner;
  }

  lemma CompareAtom(left: Operand, op: Operator, right: Operand, n: nat, rest: Tokens)
    requires NamedOperand(left) && NamedOperand(right) && Numbered(Compare(left, op, right), n)
    ensures var e := Compare(left, op, right); ParseAtom(Print(e) + rest, n) == Done(e, rest, n + Params(e))
  {
    hide ParseAtom, ParseTail, Name, OperandText, OperatorText;
    var tail := [OperatorText(op)] + (OperandText(right) + rest);
    CompareReads(left, op, right, n + Holes(left), rest);
    LeftReads(left, n, tail);
    assert Print(Compare(left, op, right)) + rest == OperandText(left) + tail;
  }

  lemma ListAtom(left: Operand, first: nat, count: nat, n: nat, rest: Tokens)
    requires NamedOperand(left) && Numbered(InList(left, first, count), n)
    ensures var e := InList(left, first, count); ParseAtom(Print(e) + rest, n) == Done(e, rest, n + Params(e))
  {
    hide ParseAtom, ParseTail, Name, OperandText, Marks;
    var tail := ["IN", "("] + (Marks(count) + ([")"] + rest));
    ListReads(left, count, n + Holes(left), rest);
    LeftReads(left, n, tail);
    assert Print(InList(left, first, count)) + rest == OperandText(left) + tail;
  }

  /** The closing parenthesis of a nested condition. */
  predicate Closes(c: Expr, n: nat, rest: Tokens) {
    ParseOr(Print(c) + ([")"] + rest), n) == Done(c, [")"] + rest, n + Params(c))
  }

  lemma SelectAtom(left: Operand, pick: string, table: string, c: Expr, n: nat, rest: Tokens)
    requires NamedOperand(left) && Name(pick) && Name(table) && NumberedOperand(left, n) &&
      Closes(c, n + Holes(left), rest)
    ensures var e := InSelect(left, pick, table, c); ParseAtom(Print(e) + rest, n) == Done(e, rest, n + Params(e))
  {
    hide ParseAtom, ParseTail, ParseOr, Name, OperandText, NumberedOperand;
    var cond := Print(c) + ([")"] + rest);
    var tail := ["IN", "(", "SELECT", pick, "FROM", table, "WHERE"] + cond;
    assert ([")"] + rest)[1..] == rest;
    SelectReads(left, pick, table, cond, ParseOr(cond, n + Holes(left)), n + Holes(left));
    LeftReads(left, n, tail);
    assert Print(InSelect(left, pick, table, c)) + rest == OperandText(left) + tail;
  }

  lemma ExistsAtom(table: string, alias: string, c: Expr, n: nat, rest: Tokens)
    requires Name(table) && Name(alias) && Closes(c, n, rest)
    ensures var e := Exists(table, alias, c); ParseAtom(Print(e) + rest, n) == Done(e, rest, n + Params(e))
  {
    hide ParseAtom, ParseOr, Name;
    var cond := Print(c) + ([")"] + rest);
    assert ([")"] + rest)[1..] == rest;
    ExistsReads(table, alias, cond, ParseOr(cond, n), n);
    assert Print(Exists(table, alias, c)) + rest ==
      ["EXISTS", "(", "SELECT", "1", "FROM", table, alias, "WHERE"] + cond;
  }

  lemma GroupAtom(c: Expr, n: nat, rest: Tokens)
    requires Closes(c, n, rest)
    ensures ParseAtom(Print(Group(c)) + rest, n) == Done(Group(c), rest, n + Params(c))
  {
    hide ParseAtom, ParseOr;
    var inner := Print(c) + ([")"] + rest);
    assert ([")"] + rest)[1..] == rest;
    GroupReads(inner, ParseOr(inner, n), n);
    assert Print(Group(c)) + rest == ["("] + inner;
  }

  /** Printing an expression and reading it back: the text means that expression and no other, with its
      placeholders numbered on from those before it. */
  lemma {:induction false} AtomReads(e: Expr, n: nat, rest: Tokens)
    requires Shaped(e) && Numbered(e, n) && Level(e) == 2
    ensures ParseAtom(Print(e) + rest, n) == Done(e, rest, n + Params(e))
    decreases e, 0
  {
    hide ParseAtom, ParseOr, Name, Print;
    match e
    case Compare(l, op, r) => CompareAtom(l, op, r, n, rest);
    case InList(l, first, count) => ListAtom(l, first, count, n, rest);
    case InSelect(l, pick, table, c) =>
      OrReads(c, n + Holes(l), [")"] + rest);
      SelectAtom(l, pick, table, c, n, rest);
    case Exists(table, alias, c) =>
      OrReads(c, n, [")"] + rest);
      ExistsAtom(table, alias, c, n, rest);
    case Group(c) =>
      OrReads(c, n, [")"] + rest);
      GroupAtom(c, n, rest);
  }

  lemma AndJoins(text: Tokens, a: Expr, tail: Tokens, b: Parsed<Expr>, n: nat, m: nat)
    requires ParseAtom(text, n) == Done(a, ["AND"] + tail, m) && b == ParseAnd(tail, m) && b.Done?
    ensures ParseAnd(text, n) == b.(value := And(a, b.value))
  {
    hide ParseAtom;
    assert (["AND"] + tail)[1..] == tail;
  }

  lemma OrJoins(text: Tokens, a: Expr, tail: Tokens, b: Parsed<Expr>, n: nat, m: nat)
    requires ParseAnd(text, n) == Done(a, ["OR"] + tail, m) && b == ParseOr(tail, m) && b.Done?
    ensures ParseOr(text, n) == b.(value := Or(a, b.value))
  {
    hide ParseAnd;
    assert (["OR"] + tail)[1..] == tail;
  }

  lemma PrintJoins(a: Expr, b: Expr, rest: Tokens)
    ensures Print(And(a, b)) + rest == Print(a) + (["AND"] + (Print(b) + rest))
    ensures Print(Or(a, b)) + rest == Print(a) + (["OR"] + (Print(b) + rest))
  {}

  lemma {:induction false} AndReads(e: Expr, n: nat, rest: Tokens)
    requires Shaped(e) && Numbered(e, n) && Level(e) >= 1 && Head(rest) != "AND"
    ensures ParseAnd(Print(e) + rest, n) == Done(e, rest, n + Params(e))
    decreases e, 1
  {
    if e.And? {
      hide ParseAtom, ParseAnd, Print;
      var m, tail := n + Params(e.a), Print(e.b) + rest;
      AtomReads(e.a, n, ["AND"] + tail);
      AndReads(e.b, m, rest);
      PrintJoins(e.a, e.b, rest);
      AndJoins(Print(e) + rest, e.a, tail, ParseAnd(tail, m), n, m);
    } else {
      hide ParseAtom, Print;
      AtomReads(e, n, rest);
    }
  }

  lemma {:induction false} OrReads(e: Expr, n: nat, rest: Tokens)
    requires Shaped(e) && Numbered(e, n) && Head(rest) != "AND" && Head(rest) != "OR"
    ensures ParseOr(Print(e) + rest, n) == Done(e, rest, n + Params(e))
    decreases e, 2
  {
    if e.Or? {
      hide ParseAnd, ParseOr, Print;
      var m, tail := n + Params(e.a), Print(e.b) + rest;
      AndReads(e.a, n, ["OR"] + tail);
      OrReads(e.b, m, rest);
      PrintJoins(e.a, e.b, rest);
      OrJoins(Print(e) + rest, e.a, tail, ParseOr(tail, m), n, m);
    } else {
      hide ParseAnd, Print;
      AndReads(e, n, rest);
    }
  }

  // ---------------------------------------------------------------- meaning

  /** A row of the FROM clause, and one of a sub-select's table. */
  datatype Row = ThreadRow(th: Thread) | PostRow(post: Post, th: Thread)

  datatype Inner = NoRow | Participation(agent: Id, thread: Id) | Watch(agent: Id, thread: Id) | IndexRow(row: TermRow)

  /** The state an expression is evaluated in; like(pattern, text) is the database's LIKE operator. */
  datatype Context = Context(db: Db, row: Row, like: (string, string) -> bool)

  predicate InTable(db: Db, table: string, inner: Inner) {
    match inner
    case NoRow => false
    case Participation(a, t) => table == "participants" && (a, t) in db.participants
    case Watch(a, t) => table == "watches" && (a, t) in db.watches
    case IndexRow(r) => table == "metadata_terms" && r in db.terms
  }

  /** Columns of the sub-select's row hide those of the row outside. */
  function InnerColumn(name: string, inner: Inner): Option<Arg> {
    match inner
    case NoRow => None
    case Participation(a, t) =>
      if name == "agent_id" then Some(Text(a)) else if name == "thread_id" then Some(Text(t)) else None
    case Watch(a, t) =>
      if name == "agent_id" then Some(Text(a)) else if name == "thread_id" then Some(Text(t)) else None
    case IndexRow(r) =>
      if name == "t.entity_type" then Some(Text(r.entityType))
      else if name == "t.entity_id" then Some(Text(r.entityId))
      else if name == "t.key" then Some(Text(r.key))
      else if name == "t.value" then Some(Text(r.value))
      else None
  }

  /** The columns of threads, and of posts JOIN threads. */
  function OuterColumn(name: string, row: Row): Option<Arg> {
    match row
    case ThreadRow(th) =>
      if name == "id" || name == "threads.id" then Some(Text(th.id))
      else if name == "subforum_key" then Some(Text(th.subforum))
      else if name == "title" then Some(Text(th.title))
      else if name == "metadata" then Some(Document(th.metadata))
      else if name == "creator_id" then Some(Text(th.creator))
      else if name == "created_at" then Some(Time(th.createdAt))
      else if name == "updated_at" then Some(Time(th.updatedAt))
      else None
    case PostRow(p, th) =>
      if name == "posts.id" then Some(Text(p.id))
      else if name == "posts.thread_id" then Some(Text(p.thread))
      else if name == "posts.author_id" then Some(Text(p.author))
      else if name == "posts.reply_to" then Some(Text(p.replyTo))
      else if name == "posts.metadata" then Some(Document(p.metadata))
      else if name == "posts.body" then Some(Text(p.body))
      else if name == "posts.created_at" then Some(Time(p.createdAt))
      else if name == "threads.id" then Some(Text(th.id))
      else if name == "threads.subforum_key" then Some(Text(th.subforum))
      else None
  }

  function Lookup(name: string, row: Row, inner: Inner): Option<Arg> {
    if InnerColumn(name, inner).Some? then InnerColumn(name, inner) else OuterColumn(name, row)
  }

  function OperandValue(o: Operand, args: seq<Arg>, row: Row, inner: Inner): Option<Arg> {
    match o
    case Param(n) => if n < |args| then Some(args[n]) else None
    case Column(name) => Lookup(name, row, inner)
  }

  predicate Compares(op: Operator, left: Arg, right: Arg, like: (string, string) -> bool) {
    match op
    case Equal => left == right
    case Greater => left.Time? && right.Time? && left.at > right.at
    case Like => left.Text? && right.Text? && like(right.text, left.text)
  }

  /** The value of an expression with its placeholders bound by position. */
  ghost predicate Value(e: Expr, args: seq<Arg>, x: Context, inner: Inner)
    decreases e
  {
    match e
    case Compare(l, op, r) =>
      var a, b := OperandValue(l, args, x.row, inner), OperandValue(r, args, x.row, inner);
      a.Some? && b.Some? && Compares(op, a.value, b.value, x.like)
    case InList(l, first, count) =>
      var a := OperandValue(l, args, x.row, inner);
      a.Some? && exists i | first <= i < first + count :: i < |args| && args[i] == a.value
    case InSelect(l, pick, table, c) =>
      var a := OperandValue(l, args, x.row, inner);
      a.Some? &&
      exists sub: Inner :: InTable(x.db, table, sub) && Lookup(pick, x.row, sub) == a && Value(c, args, x, sub)
    case Exists(table, _, c) => exists sub: Inner :: InTable(x.db, table, sub) && Value(c, args, x, sub)
    case Group(c) => Value(c, args, x, inner)
    case And(a, b) => Value(a, args, x, inner) && Value(b, args, x, inner)
    case Or(a, b) => Value(a, args, x, inner) || Value(b, args, x, inner)
  }

  lemma OperandKept(o: Operand, n: nat, args: seq<Arg>, more: seq<Arg>, row: Row, inner: Inner)
    requires NumberedOperand(o, n) && n + Holes(o) <= |args|
    ensures OperandValue(o, args + more, row, inner) == OperandValue(o, args, row, inner)
  {}

  lemma ListKept(e: Expr, n: nat, args: seq<Arg>, more: seq<Arg>, x: Context, inner: Inner)
    requires e.InList? && Numbered(e, n) && n + Params(e) <= |args|
    ensures Value(e, args + more, x, inner) <==> Value(e, args, x, inner)
  {
    OperandKept(e.left, n, args, more, x.row, inner);
    hide OperandValue;
    assert forall i | e.first <= i < e.first + e.count :: i < |args| && (args + more)[i] == args[i];
  }

  /** Arguments appended later do not change what is bound already. */
  lemma {:induction false} ValueKept(e: Expr, n: nat, args: seq<Arg>, more: seq<Arg>, x: Context, inner: Inner)
    requires Numbered(e, n) && n + Params(e) <= |args|
    ensures Value(e, args + more, x, inner) <==> Value(e, args, x, inner)
    decreases e
  {
    hide OperandValue, Lookup, Compares, InTable;
    match e
    case Compare(l, _, r) =>
      OperandKept(l, n, args, more, x.row, inner);
      OperandKept(r, n + Holes(l), args, more, x.row, inner);
    case InList(_, _, _) => ListKept(e, n, args, more, x, inner);
    case InSelect(l, _, _, c) =>
      OperandKept(l, n, args, more, x.row, inner);
      forall sub: Inner { ValueKept(c, n + Holes(l), args, more, x, sub); }
    case Exists(_, _, c) =>
      forall sub: Inner { ValueKept(c, n, args, more, x, sub); }
    case Group(c) => ValueKept(c, n, args, more, x, inner);
    case And(a, b) =>
      ValueKept(a, n, args, more, x, inner);
      ValueKept(b, n + Params(a), args, more, x, inner);
    case Or(a, b) =>
      ValueKept(a, n, args, more, x, inner);
      ValueKept(b, n + Params(a), args, more, x, inner);
  }

  // ---------------------------------------------------------------- statements

  datatype Source = Threads | PostsJoinThreads(on: Expr)

  /** SELECT columns FROM source WHERE where ORDER BY order DESC LIMIT limit */
  datatype Statement = Select(columns: seq<string>, source: Source, where: Option<Expr>, order: string,
    limit: Option<nat>)

  function ParseColumns(text: Tokens, n: nat): (r: Parsed<seq<string>>) {
    if !Name(Head(text)) then Fail
    else if |text| >= 2 && text[1] == "," then
      var more := ParseColumns(text[2..], n);
      if more.Done? then more.(value := [text[0]] + more.value) else Fail
    else Done([text[0]], text[1..], n)
  }

  function ParseSource(text: Tokens, n: nat): (r: Parsed<Source>) {
    if Head(text) == "threads" then Done(Threads, text[1..], n)
    else if |text| >= 4 && text[..4] == ["posts", "JOIN", "threads", "ON"] then
      var on := ParseAtom(text[4..], n);
      if on.Done? then Done(PostsJoinThreads(on.value), on.rest, on.marks) else Fail
    else Fail
  }

  function ParseWhere(text: Tokens, n: nat): (r: Parsed<Option<Expr>>) {
    if Head(text) == "WHERE" then
      var e := ParseOr(text[1..], n);
      if e.Done? then Done(Some(e.value), e.rest, e.marks) else Fail
    else Done(None, text, n)
  }

  /** ORDER BY and LIMIT end a statement. */
  function ParseEnd(text: Tokens, n: nat): Option<(string, Option<nat>)> {
    if |text| >= 4 && text[..2] == ["ORDER", "BY"] && Name(text[2]) && text[3] == "DESC" then
      if text[4..] == [] then Some((text[2], None))
      else if text[4..] == ["LIMIT", "?"] then Some((text[2], Some(n)))
      else None
    else None
  }

  function ParseStatement(text: Tokens): Option<Statement> {
    if Head(text) != "SELECT" then None else
    var columns := ParseColumns(text[1..], 0);
    if columns.Fail? || Head(columns.rest) != "FROM" then None else
    var source := ParseSource(columns.rest[1..], columns.marks);
    if source.Fail? then None else
    var where := ParseWhere(source.rest, source.marks);
    if where.Fail? then None else
    var end := ParseEnd(where.rest, where.marks);
    if end.None? then None else Some(Select(columns.value, source.value, where.value, end.value.0, end.value.1))
  }

  function CommaList(names: seq<string>): Tokens {
    if names == [] then [] else if |names| == 1 then names else [names[0], ","] + CommaList(names[1..])
  }

  function SourceText(source: Source): Tokens {
    match source
    case Threads => ["threads"]
    case PostsJoinThreads(on) => ["posts", "JOIN", "threads", "ON"] + Print(on)
  }

  function WhereText(where: Option<Expr>): Tokens {
    if where.Some? then ["WHERE"] + Print(where.value) else []
  }

  function EndText(order: string, limit: Option<nat>): Tokens {
    ["ORDER", "BY", order, "DESC"] + if limit.Some? then ["LIMIT", "?"] else []
  }

  function StatementText(st: Statement): Tokens {
    ["SELECT"] + CommaList(st.columns) + ["FROM"] + SourceText(st.source) + WhereText(st.where) +
      EndText(st.order, st.limit)
  }

  predicate ShapedStatement(st: Statement) {
    st.columns != [] && (forall c | c in st.columns :: Name(c)) && Name(st.order) &&
    (st.source.PostsJoinThreads? ==>
      Shaped(st.source.on) && Level(st.source.on) == 2 && Params(st.source.on) == 0 && Numbered(st.source.on, 0)) &&
    (st.where.Some? ==> Shaped(st.where.value) && Numbered(st.where.value, 0)) &&
    (st.limit.Some? ==> st.limit.value == if st.where.Some? then Params(st.where.value) else 0)
  }

  lemma LastColumn(name: string, n: nat, rest: Tokens)
    requires Name(name) && Head(rest) != ","
    ensures ParseColumns([name] + rest, n) == Done([name], rest, n)
  {
    hide Name;
    var text := [name] + rest;
    assert text[1..] == rest;
  }

  lemma FirstColumn(name: string, more: Parsed<seq<string>>, n: nat, tail: Tokens)
    requires Name(name) && more == ParseColumns(tail, n) && more.Done?
    ensures ParseColumns([name, ","] + tail, n) == more.(value := [name] + more.value)
  {
    hide Name;
    var text := [name, ","] + tail;
    assert text[2..] == tail;
  }

  lemma {:induction false} ColumnsRead(names: seq<string>, n: nat, rest: Tokens)
    requires names != [] && (forall c | c in names :: Name(c)) && Head(rest) != ","
    ensures ParseColumns(CommaList(names) + rest, n) == Done(names, rest, n)
  {
    hide Name, ParseColumns;
    assert names[0] in names;
    if |names| == 1 {
      LastColumn(names[0], n, rest);
      assert [names[0]] == names;
    } else {
      var tail := CommaList(names[1..]) + rest;
      assert forall c | c in names[1..] :: c in names;
      ColumnsRead(names[1..], n, rest);
      FirstColumn(names[0], ParseColumns(tail, n), n, tail);
      assert CommaList(names) + rest == [names[0], ","] + tail && names == [names[0]] + names[1..];
    }
  }

  lemma SourceReads(source: Source, rest: Tokens)
    requires source.PostsJoinThreads? ==>
               Shaped(source.on) && Level(source.on) == 2 && Params(source.on) == 0 && Numbered(source.on, 0)
    ensures ParseSource(SourceText(source) + rest, 0) == Done(source, rest, 0)
  {
    hide ParseAtom, Print;
    var text := SourceText(source) + rest;
    if source.Threads? {
      assert text[1..] == rest;
    } else {
      AtomReads(source.on, 0, rest);
      assert text[..4] == ["posts", "JOIN", "threads", "ON"] && text[4..] == Print(source.on) + rest;
    }
  }

  lemma WhereReads(where: Option<Expr>, rest: Tokens)
    requires where.Some? ==> Shaped(where.value) && Numbered(where.value, 0)
    requires Head(rest) == "ORDER"
    ensures ParseWhere(WhereText(where) + rest, 0) ==
            Done(where, rest, if where.Some? then Params(where.value) else 0)
  {
    hide ParseOr, Print;
    var text := WhereText(where) + rest;
    if where.Some? {
      OrReads(where.value, 0, rest);
      assert text[1..] == Print(where.value) + rest;
    } else {
      assert text == rest;
    }
  }

  lemma EndReads(order: string, limit: Option<nat>, n: nat)
    requires Name(order) && (limit.Some? ==> limit.value == n)
    ensures ParseEnd(EndText(order, limit), n) == Some((order, limit))
  {
    hide Name;
    var text := EndText(order, limit);
    assert text[..2] == ["ORDER", "BY"];
    assert text[4..] == if limit.Some? then ["LIMIT", "?"] else [];
  }

  /** A statement's text reads back as that statement. */
  lemma StatementReads(st: Statement)
    requires ShapedStatement(st)
    ensures ParseStatement(StatementText(st)) == Some(st)
  {
    hide ParseColumns, ParseSource, ParseWhere, ParseEnd, CommaList, SourceText, WhereText, Shaped, Numbered, Name;
    var end := EndText(st.order, st.limit);
    var tail := WhereText(st.where) + end;
    var from := ["FROM"] + (SourceText(st.source) + tail);
    var text := ["SELECT"] + (CommaList(st.columns) + from);
    assert StatementText(st) == text;
    assert text[1..] == CommaList(st.columns) + from && from[1..] == SourceText(st.source) + tail;
    ColumnsRead(st.columns, 0, from);
    SourceReads(st.source, tail);
    WhereReads(st.where, end);
    EndReads(st.order, st.limit, if st.where.Some? then Params(st.where.value) else 0);
  }

  // ---------------------------------------------------------------- answers

  /** The row belongs to the FROM clause. */
  ghost predicate From(source: Source, args: seq<Arg>, x: Context) {
    match source
    case Threads => x.row.ThreadRow? && x.row.th.id in x.db.threads && x.db.threads[x.row.th.id] == x.row.th
    case PostsJoinThreads(on) =>
      x.row.PostRow? && x.row.post in x.db.posts &&
      x.row.th.id in x.db.threads && x.db.threads[x.row.th.id] == x.row.th && Value(on, args, x, NoRow)
  }

  ghost predicate Passes(where: Option<Expr>, args: seq<Arg>, x: Context) {
    where.Some? ==> Value(where.value, args, x, NoRow)
  }

  /** Newer rows first. */
  predicate NoLater(order: string, a: Row, b: Row) {
    var x, y := OuterColumn(order, a), OuterColumn(order, b);
    x.Some? && y.Some? && x.value.Time? && y.value.Time? && x.value.at >= y.value.at
  }

  /** What the database may answer: rows that pass, none twice, in order; all of them, or as many as LIMIT
      allows with no row left out that comes before one given. Rows of equal time may come in any order. */
  ghost predicate Answers(st: Statement, args: seq<Arg>, db: Db, like: (string, string) -> bool, out: seq<Row>) {
    (forall i | 0 <= i < |out| :: Picks(st, args, Context(db, out[i], like))) &&
    (forall i, j | 0 <= i < j < |out| :: out[i] != out[j] && NoLater(st.order, out[i], out[j])) &&
    (|out| < Limit(st, args) || st.limit.None? ==>
      forall row: Row | Picks(st, args, Context(db, row, like)) :: row in out) &&
    (st.limit.Some? ==> |out| <= Limit(st, args)) &&
    (forall row: Row, i | Picks(st, args, Context(db, row, like)) && row !in out && 0 <= i < |out| ::
      NoLater(st.order, out[i], row))
  }

  ghost predicate Picks(st: Statement, args: seq<Arg>, x: Context) {
    From(st.source, args, x) && Passes(st.where, args, x)
  }

  /** The bound value of LIMIT. */
  function Limit(st: Statement, args: seq<Arg>): int {
    if st.limit.Some? && st.limit.value < |args| && args[st.limit.value].Count? then args[st.limit.value].n else 0
  }

  /** The rows that a statement picks are finitely many. */
  lemma PickedRows(st: Statement, args: seq<Arg>, db: Db, like: (string, string) -> bool) returns (rows: set<Row>)
    ensures forall row: Row :: row in rows <==> Picks(st, args, Context(db, row, like))
  {
    hide Passes;
    var all := (set t | t in db.threads :: ThreadRow(db.threads[t])) +
      (set p, t | p in db.posts && t in db.threads :: PostRow(p, db.threads[t]));
    rows := set row | row in all && Picks(st, args, Context(db, row, like));
    forall row: Row | Picks(st, args, Context(db, row, like)) ensures row in all {
      assert row.th == db.threads[row.th.id];
    }
  }

  lemma {:induction false} NewestFirst(rows: set<Row>, order: string) returns (out: seq<Row>)
    requires forall row | row in rows :: NoLater(order, row, row)
    ensures forall row :: row in out <==> row in rows
    ensures forall i, j | 0 <= i < j < |out| :: out[i] != out[j] && NoLater(order, out[i], out[j])
    decreases |rows|
  {
    out := [];
    if rows != {} {
      hide OuterColumn;
      var last := Oldest(rows, order);
      var before := NewestFirst(rows - {last}, order);
      out := before + [last];
    }
  }

  lemma {:induction false} Oldest(rows: set<Row>, order: string) returns (last: Row)
    requires rows != {} && forall row | row in rows :: NoLater(order, row, row)
    ensures last in rows && forall row | row in rows :: NoLater(order, row, last)
    decreases |rows|
  {
    hide OuterColumn;
    var one :| one in rows;
    last := one;
    if rows != {one} {
      assert rows == {one} + (rows - {one}) && rows - {one} != {};
      var other := Oldest(rows - {one}, order);
      if NoLater(order, one, other) { last := other; }
    }
  }

  /** A statement ordered by a time that its rows have, with a limit that is not negative, has an answer. */
  lemma AnswerExists(st: Statement, args: seq<Arg>, db: Db, like: (string, string) -> bool) returns (out: seq<Row>)
    requires Limit(st, args) >= 0
    requires forall row: Row | Picks(st, args, Context(db, row, like)) ::
               OuterColumn(st.order, row).Some? && OuterColumn(st.order, row).value.Time?
    ensures Answers(st, args, db, like, out)
  {
    var rows := PickedRows(st, args, db, like);
    var all := NewestFirst(rows, st.order);
    hide OuterColumn, Picks, NoLater;
    out := if st.limit.Some? && Limit(st, args) < |all| then all[..Limit(st, args)] else all;
    forall row: Row, i | row in rows && row !in out && 0 <= i < |out| ensures NoLater(st.order, out[i], row) {
      var j :| 0 <= j < |all| && all[j] == row;
      assert j >= |out|;
    }
  }
}
