/** The few string operations of Go and JavaScript that the forum relies on. */
module Strings {

  /** The characters that Go's unicode.IsSpace accepts. */
  predicate IsSpace(c: char) {
    '\t' <= c <= '\r' || c == ' ' || c == '\U{0085}' || c == '\U{00A0}' || c == '\U{1680}' ||
    '\U{2000}' <= c <= '\U{200A}' || c == '\U{2028}' || c == '\U{2029}' || c == '\U{202F}' ||
    c == '\U{205F}' || c == '\U{3000}'
  }

  function TrimLeft(s: string): string {
    if s != "" && IsSpace(s[0]) then TrimLeft(s[1..]) else s
  }

  function TrimRight(s: string): string {
    if s != "" && IsSpace(s[|s| - 1]) then TrimRight(s[..|s| - 1]) else s
  }

  /** strings.TrimSpace */
  function TrimSpace(s: string): string {
    TrimRight(TrimLeft(s))
  }

  /** Every character is white space. */
  predicate Blank(s: string) {
    forall i | 0 <= i < |s| :: IsSpace(s[i])
  }

  lemma {:induction false} TrimLeftBlank(s: string)
    ensures TrimLeft(s) == "" <==> Blank(s)
    ensures TrimLeft(s) != "" ==> !IsSpace(TrimLeft(s)[0])
  {
    if s != "" && IsSpace(s[0]) {
      TrimLeftBlank(s[1..]);
      if Blank(s[1..]) {
        forall i | 0 <= i < |s| ensures IsSpace(s[i]) {
          if i > 0 { assert s[i] == s[1..][i - 1]; }
        }
      } else {
        var i :| 0 <= i < |s[1..]| && !IsSpace(s[1..][i]);
        assert !IsSpace(s[i + 1]);
      }
    }
  }

  lemma {:induction false} TrimRightKeepsHead(s: string)
    requires s != "" && !IsSpace(s[0])
    ensures TrimRight(s) != ""
  {
    if IsSpace(s[|s| - 1]) {
      TrimRightKeepsHead(s[..|s| - 1]);
    }
  }

  /** Trimming leaves nothing exactly of the blank strings. */
  lemma TrimSpaceBlank(s: string)
    ensures TrimSpace(s) == "" <==> Blank(s)
  {
    TrimLeftBlank(s);
    if TrimLeft(s) != "" {
      TrimRightKeepsHead(TrimLeft(s));
    }
  }

  /** White space by its code points. */
  lemma SpaceCodes(c: char)
    ensures IsSpace(c) <==>
            var n := c as int;
            9 <= n <= 13 || n in {32, 133, 160, 5760, 8232, 8233, 8239, 8287, 12288} || 8192 <= n <= 8202
  {}

  lemma {:induction false} TrimLeftExact(s: string)
    ensures |TrimLeft(s)| <= |s| && s[|s| - |TrimLeft(s)|..] == TrimLeft(s) && Blank(s[..|s| - |TrimLeft(s)|])
  {
    if s != "" && IsSpace(s[0]) {
      TrimLeftExact(s[1..]);
      var n := |s| - |TrimLeft(s)|;
      assert forall i | 1 <= i < n :: s[i] == s[1..][..n - 1][i - 1];
    }
  }

  lemma {:induction false} TrimRightExact(s: string)
    ensures TrimRight(s) <= s && Blank(s[|TrimRight(s)|..])
    ensures TrimRight(s) != "" ==> !IsSpace(TrimRight(s)[|TrimRight(s)| - 1])
  {
    if s != "" && IsSpace(s[|s| - 1]) {
      var init := s[..|s| - 1];
      TrimRightExact(init);
      var n := |TrimRight(s)|;
      assert forall i | n <= i < |s| - 1 :: s[i] == init[n..][i - n];
    }
  }

  /** TrimSpace takes away white space at both ends, and all of it, and nothing else. */
  lemma TrimSpaceExact(s: string) returns (lead: string, trail: string)
    ensures s == lead + TrimSpace(s) + trail && Blank(lead) && Blank(trail)
    ensures var t := TrimSpace(s); t != "" ==> !IsSpace(t[0]) && !IsSpace(t[|t| - 1])
  {
    var t := TrimLeft(s);
    TrimLeftBlank(s);
    TrimLeftExact(s);
    TrimRightExact(t);
    lead, trail := s[..|s| - |t|], t[|TrimRight(t)|..];
  }

  /** strings.Split and String.split with a one-character separator. */
  function Split(s: string, sep: char): (parts: seq<string>)
    ensures |parts| > 0
    ensures forall p | p in parts :: sep !in p
  {
    if s == "" then [""]
    else if s[0] == sep then [""] + Split(s[1..], sep)
    else
      var rest := Split(s[1..], sep);
      [[s[0]] + rest[0]] + rest[1..]
  }

  /** strings.Join and Array.join with a one-character separator. */
  function Join(parts: seq<string>, sep: char): string {
    if parts == [] then ""
    else if |parts| == 1 then parts[0]
    else parts[0] + [sep] + Join(parts[1..], sep)
  }

  /** Array.join(""). */
  function Concat(parts: seq<string>): string {
    if parts == [] then "" else parts[0] + Concat(parts[1..])
  }

  lemma {:induction false} ConcatJoin(a: seq<string>, b: seq<string>)
    ensures Concat(a + b) == Concat(a) + Concat(b)
  {
    if a == [] {
      assert a + b == b;
    } else {
      ConcatJoin(a[1..], b);
      assert (a + b)[0] == a[0] && (a + b)[1..] == a[1..] + b;
      assert a[0] + (Concat(a[1..]) + Concat(b)) == a[0] + Concat(a[1..]) + Concat(b);
    }
  }

  predicate HasPrefix(s: string, prefix: string) {
    prefix <= s
  }

  lemma {:induction false} SplitUnseparated(s: string, sep: char)
    requires sep !in s
    ensures Split(s, sep) == [s]
  {
    if s != "" {
      assert s[0] in s;
      SplitUnseparated(s[1..], sep);
      assert [s[0]] + s[1..] == s;
    }
  }

  lemma {:induction false} SplitFirst(a: string, b: string, sep: char)
    requires sep !in a
    ensures Split(a + [sep] + b, sep) == [a] + Split(b, sep)
  {
    var whole := a + [sep] + b;
    if a == "" {
      assert whole[1..] == b;
    } else {
      assert a[0] in a;
      SplitFirst(a[1..], b, sep);
      assert whole[1..] == a[1..] + [sep] + b;
      assert [a[0]] + a[1..] == a;
    }
  }

  lemma {:induction false} SplitLast(a: string, b: string, sep: char)
    requires sep !in b
    ensures Split(a + [sep] + b, sep) == Split(a, sep) + [b]
  {
    var whole := a + [sep] + b;
    if a == "" {
      assert whole[1..] == b;
      SplitUnseparated(b, sep);
    } else {
      SplitLast(a[1..], b, sep);
      assert whole[1..] == a[1..] + [sep] + b;
    }
  }

  /** Splitting undoes joining when no part holds the separator. */
  lemma {:induction false} SplitJoin(parts: seq<string>, sep: char)
    requires parts != [] && forall p | p in parts :: sep !in p
    ensures Split(Join(parts, sep), sep) == parts
  {
    assert parts[0] in parts;
    if |parts| == 1 {
      SplitUnseparated(parts[0], sep);
    } else {
      forall p | p in parts[1..] ensures sep !in p {
        assert p in parts;
      }
      SplitJoin(parts[1..], sep);
      SplitFirst(parts[0], Join(parts[1..], sep), sep);
    }
  }

  lemma {:induction false} JoinSplit(s: string, sep: char)
    ensures Join(Split(s, sep), sep) == s
  {
    if s != "" {
      JoinSplit(s[1..], sep);
      var rest := Split(s[1..], sep);
      if s[0] == sep {
        assert Split(s, sep)[1..] == rest;
      } else {
        var parts := Split(s, sep);
        assert parts[1..] == rest[1..];
        assert s == [s[0]] + s[1..];
      }
    }
  }

  lemma {:induction false} JoinSnoc(parts: seq<string>, last: string, sep: char)
    ensures Join(parts + [last], sep) == if parts == [] then last else Join(parts, sep) + [sep] + last
  {
    if |parts| > 0 {
      assert (parts + [last])[1..] == parts[1..] + [last];
      JoinSnoc(parts[1..], last, sep);
    }
  }

  /** One more character at the end of the last part. */
  function Lengthened(parts: seq<string>, c: char): seq<string>
    requires parts != []
  {
    parts[..|parts| - 1] + [parts[|parts| - 1] + [c]]
  }

  lemma LengthenedBehind(head: string, rest: seq<string>, c: char)
    requires rest != []
    ensures Lengthened([head] + rest, c) == [head] + Lengthened(rest, c)
  {
    assert ([head] + rest)[..|rest|] == [head] + rest[..|rest| - 1];
  }

  lemma LengthenedInside(x: char, rest: seq<string>, c: char)
    requires rest != []
    ensures var longer := Lengthened(rest, c);
            Lengthened([[x] + rest[0]] + rest[1..], c) == [[x] + longer[0]] + longer[1..]
  {
    if |rest| == 1 {
      assert [x] + (rest[0] + [c]) == [x] + rest[0] + [c];
    } else {
      LengthenedBehind([x] + rest[0], rest[1..], c);
      LengthenedBehind(rest[0], rest[1..], c);
      assert rest == [rest[0]] + rest[1..];
    }
  }

  lemma {:induction false} SplitSnoc(s: string, c: char, sep: char)
    requires c != sep
    ensures Split(s + [c], sep) == Lengthened(Split(s, sep), c)
  {
    if s == "" {
      SplitUnseparated([c], sep);
      assert s + [c] == "" + [c] == [c];
    } else {
      SplitSnoc(s[1..], c, sep);
      var rest := Split(s[1..], sep);
      assert (s + [c])[1..] == s[1..] + [c];
      hide Lengthened;
      if s[0] == sep { LengthenedBehind("", rest, c); } else { LengthenedInside(s[0], rest, c); }
    }
  }

  lemma {:induction false} TrimLeftSnoc(s: string, c: char)
    requires IsSpace(c)
    ensures TrimLeft(s + [c]) == if TrimLeft(s) == "" then "" else TrimLeft(s) + [c]
  {
    if s == "" {
      assert (s + [c])[1..] == "";
    } else if IsSpace(s[0]) {
      assert (s + [c])[1..] == s[1..] + [c];
      TrimLeftSnoc(s[1..], c);
    }
  }

  lemma TrimSpaceSnoc(s: string, c: char)
    requires IsSpace(c)
    ensures TrimSpace(s + [c]) == TrimSpace(s)
  {
    TrimLeftSnoc(s, c);
    var t := TrimLeft(s);
    assert (t + [c])[..|t|] == t;
  }

  function TrimEach(parts: seq<string>): seq<string> {
    seq(|parts|, i requires 0 <= i < |parts| => TrimSpace(parts[i]))
  }

  lemma TrimEachHead(c: char, parts: seq<string>)
    requires IsSpace(c) && parts != []
    ensures TrimEach([[c] + parts[0]] + parts[1..]) == TrimEach(parts)
  {
    var longer := [[c] + parts[0]] + parts[1..];
    assert ([c] + parts[0])[1..] == parts[0];
    assert forall i | 0 < i < |parts| :: longer[i] == parts[i];
  }

  lemma TrimEachLast(c: char, parts: seq<string>)
    requires IsSpace(c) && parts != []
    ensures TrimEach(Lengthened(parts, c)) == TrimEach(parts)
  {
    var n := |parts| - 1;
    TrimSpaceSnoc(parts[n], c);
    assert forall i | 0 <= i < n :: Lengthened(parts, c)[i] == parts[i];
  }

  lemma {:induction false} TrimLeftKeepsParts(s: string, sep: char)
    requires !IsSpace(sep)
    ensures TrimEach(Split(TrimLeft(s), sep)) == TrimEach(Split(s, sep))
  {
    if s != "" && IsSpace(s[0]) {
      hide TrimEach;
      TrimLeftKeepsParts(s[1..], sep);
      TrimEachHead(s[0], Split(s[1..], sep));
    }
  }

  lemma {:induction false} TrimRightKeepsParts(s: string, sep: char)
    requires !IsSpace(sep)
    ensures TrimEach(Split(TrimRight(s), sep)) == TrimEach(Split(s, sep))
  {
    if s != "" && IsSpace(s[|s| - 1]) {
      hide TrimEach, Split, Lengthened;
      var init, c := s[..|s| - 1], s[|s| - 1];
      assert s == init + [c];
      TrimRightKeepsParts(init, sep);
      SplitSnoc(init, c, sep);
      TrimEachLast(c, Split(init, sep));
    }
  }

  /** Trimming a list as a whole does not matter to its trimmed parts. */
  lemma TrimSpaceKeepsParts(s: string, sep: char)
    requires !IsSpace(sep)
    ensures TrimEach(Split(TrimSpace(s), sep)) == TrimEach(Split(s, sep))
  {
    TrimLeftKeepsParts(s, sep);
    TrimRightKeepsParts(TrimLeft(s), sep);
  }

  /** Byte order of the identifiers (SQLite's BINARY collation on the ASCII ids). */
  predicate Before(a: string, b: string) {
    b != "" && (a == "" || a[0] < b[0] || (a[0] == b[0] && Before(a[1..], b[1..])))
  }

  lemma {:induction false} BeforeTransitive(a: string, b: string, c: string)
    requires Before(a, b) && Before(b, c)
    ensures Before(a, c)
  {
    if a != "" && a[0] == b[0] && b[0] == c[0] {
      BeforeTransitive(a[1..], b[1..], c[1..]);
    }
  }

  lemma {:induction false} BeforeTotal(a: string, b: string)
    ensures a == b || Before(a, b) || Before(b, a)
    ensures !(Before(a, b) && Before(b, a))
    ensures !Before(a, a)
  {
    if a != "" && b != "" {
      BeforeTotal(a[1..], b[1..]);
      assert a == [a[0]] + a[1..] && b == [b[0]] + b[1..];
      BeforeTotal(a[1..], a[1..]);
    } else if a != "" {
      BeforeTotal(a[1..], a[1..]);
    }
  }
}
