/**
 Metadata trees: the grammar a write must satisfy (internal/service/metadata.go) and the
 flattening into (key, value) terms (internal/store/metadata.go).
 */
module Metadata {
  import opened Strings

  /** A decoded JSON value. Numbers carry the text that the store prints for them; Other is any
      Go value that JSON decoding does not produce. */
  datatype Json =
    | Null
    | Bool(b: bool)
    | Str(s: string)
    | Num(printed: string)
    | Other(shown: string)
    | Arr(items: seq<Json>)
    | Obj(fields: map<string, Json>)
  {
    predicate Scalar() { Bool? || Str? || Num? || Other? }

    function Printed(): string
      requires Scalar()
    {
      match this
      case Bool(b) => if b then "true" else "false"
      case Str(s) => s
      case Num(p) => p
      case Other(p) => p
    }
  }

  datatype Term = Term(key: string, value: string)

  const MAX_DEPTH := 8
  const MAX_BYTES := 64 * 1024

  // ---------------------------------------------------------------- validation

  predicate SegmentChar(c: char) {
    'A' <= c <= 'Z' || 'a' <= c <= 'z' || '0' <= c <= '9' || c == '_'
  }

  /** A non-empty key of letters, digits and underscores that does not start with '_'. */
  predicate ValidSegment(k: string) {
    k != "" && k[0] != '_' && forall i | 0 <= i < |k| :: SegmentChar(k[i])
  }

  /** walkMetadata returns nil. */
  predicate Walk(v: Json, depth: int)
    decreases v
  {
    depth <= MAX_DEPTH &&
    match v
    case Obj(m) => forall k | k in m :: ValidSegment(k) && Walk(m[k], depth + 1)
    case Arr(items) => forall i | 0 <= i < |items| :: Walk(items[i], depth + 1)
    case Other(_) => false
    case _ => true
  }

  datatype Encoding = Unencodable | Bytes(size: nat)

  /** validateMetadata returns nil; the outcome of json.Marshal comes from outside. */
  predicate Validate(m: map<string, Json>, encoding: Encoding) {
    m == map[] || (encoding.Bytes? && encoding.size <= MAX_BYTES && Walk(Obj(m), 1))
  }

  /** Accepted metadata: an object that passes the walk. */
  predicate Accepted(v: Json) {
    v.Obj? && Walk(v, 1)
  }

  lemma ValidatedIsAccepted(m: map<string, Json>, encoding: Encoding)
    requires Validate(m, encoding)
    ensures Accepted(Obj(m))
  {}

  /** Some value lies n levels below v. */
  ghost predicate Nests(v: Json, n: nat)
    decreases v
  {
    n == 0 ||
    match v
    case Obj(m) => exists k | k in m :: Nests(m[k], n - 1)
    case Arr(items) => exists i | 0 <= i < |items| :: Nests(items[i], n - 1)
    case _ => false
  }

  /** v occurs in whole, at any depth. */
  ghost predicate Occurs(v: Json, whole: Json)
    decreases whole
  {
    v == whole ||
    match whole
    case Obj(m) => exists k | k in m :: Occurs(v, m[k])
    case Arr(items) => exists i | 0 <= i < |items| :: Occurs(v, items[i])
    case _ => false
  }

  /** What the walk checks in one value, apart from depth; the characters of a key by their ASCII codes. */
  predicate LocallyValid(v: Json) {
    !v.Other? && (v.Obj? ==> forall k | k in v.fields :: PlainKey(k))
  }

  /** Letters, digits and underscores, the first not an underscore. */
  predicate PlainKey(k: string) {
    k != "" && k[0] as int != 95 &&
    forall i | 0 <= i < |k| ::
      var c := k[i] as int; 48 <= c <= 57 || 65 <= c <= 90 || 97 <= c <= 122 || c == 95
  }

  lemma SegmentMeaning(k: string)
    ensures ValidSegment(k) <==> PlainKey(k)
  {}

  lemma SegmentsMeaning(v: Json)
    ensures LocallyValid(v) <==> !v.Other? && (v.Obj? ==> forall k | k in v.fields :: ValidSegment(k))
  {
    if v.Obj? {
      forall k | k in v.fields { SegmentMeaning(k); }
    }
  }

  /** The walk accepts exactly the trees that nest at most eight levels and in which every object key
      is a valid segment and every leaf is a JSON scalar. */
  lemma {:induction false} WalkMeaning(v: Json, depth: int)
    ensures Walk(v, depth) <==>
            (forall n: nat | Nests(v, n) :: depth + n <= MAX_DEPTH) &&
            (forall x | Occurs(x, v) :: LocallyValid(x))
    decreases v
  {
    SegmentsMeaning(v);
    hide LocallyValid;
    match v
    case Obj(m) =>
      forall k | k in m { WalkMeaning(m[k], depth + 1); }
      if Walk(v, depth) {
        forall n: nat | Nests(v, n) ensures depth + n <= MAX_DEPTH {
          if n > 0 { var k :| k in m && Nests(m[k], n - 1); }
        }
      } else if depth <= MAX_DEPTH {
        var k :| k in m && !(ValidSegment(k) && Walk(m[k], depth + 1));
        if ValidSegment(k) {
          if n: nat :| Nests(m[k], n) && depth + 1 + n > MAX_DEPTH {
            assert Nests(v, n + 1);
          } else {
            var x :| Occurs(x, m[k]) && !LocallyValid(x);
            assert Occurs(x, v);
          }
        } else {
          assert Occurs(v, v) && !LocallyValid(v);
        }
      } else {
        assert Nests(v, 0);
      }
    case Arr(items) =>
      forall i | 0 <= i < |items| { WalkMeaning(items[i], depth + 1); }
      if Walk(v, depth) {
        forall n: nat | Nests(v, n) ensures depth + n <= MAX_DEPTH {
          if n > 0 { var i :| 0 <= i < |items| && Nests(items[i], n - 1); }
        }
      } else if depth <= MAX_DEPTH {
        var i :| 0 <= i < |items| && !Walk(items[i], depth + 1);
        if n: nat :| Nests(items[i], n) && depth + 1 + n > MAX_DEPTH {
          assert Nests(v, n + 1);
        } else {
          var x :| Occurs(x, items[i]) && !LocallyValid(x);
          assert Occurs(x, v);
        }
      } else {
        assert Nests(v, 0);
      }
    case _ =>
      assert Nests(v, 0);
      assert Occurs(v, v);
      assert forall n: nat :: Nests(v, n) ==> n == 0;
      assert forall x :: Occurs(x, v) ==> x == v;
  }

  /** A scalar below n objects of one key each. */
  function Tower(k: string, leaf: Json, n: nat): Json {
    if n == 0 then leaf else Obj(map[k := Tower(k, leaf, n - 1)])
  }

  lemma {:induction false} TowerWalk(k: string, leaf: Json, n: nat, depth: int)
    requires ValidSegment(k) && leaf.Scalar() && !leaf.Other?
    ensures Walk(Tower(k, leaf, n), depth) <==> depth + n <= 8
  {
    if n > 0 {
      TowerWalk(k, leaf, n - 1, depth + 1);
      assert Tower(k, leaf, n).fields[k] == Tower(k, leaf, n - 1);
    }
  }

  /** The depth limit, on both sides: objects around a scalar are accepted up to eight levels in all. */
  lemma EightLevels(k: string, leaf: Json, n: nat)
    requires PlainKey(k) && leaf.Scalar() && !leaf.Other?
    ensures Accepted(Tower(k, leaf, n)) <==> 1 <= n <= 7
  {
    SegmentMeaning(k);
    TowerWalk(k, leaf, n, 1);
  }

  /** A key with capitals, digits and an inner underscore is plain; one with a leading underscore is not. */
  lemma KeyExamples()
    ensures PlainKey("a_1Z") && !PlainKey("_a") && !PlainKey("a.b") && !PlainKey("")
  {
    assert "_a"[0] as int == 95;
    assert "a.b"[1] as int == 46;
  }

  /** The size limit, on both sides. */
  lemma SizeLimit(m: map<string, Json>, size: nat)
    requires m != map[] && Accepted(Obj(m))
    ensures Validate(m, Bytes(size)) <==> size <= 65536
    ensures !Validate(m, Unencodable)
  {}

  // ---------------------------------------------------------------- flattening

  function ChildKey(prefix: string, k: string): string {
    if prefix != "" then prefix + "." + k else k
  }

  /** The terms of one value, as a multiset: nothing in it depends on the order of an object's keys. */
  ghost function TermBag(v: Json, prefix: string): multiset<Term>
    decreases v, 1, 0
  {
    match v
    case Null => multiset{}
    case Obj(m) => FieldBag(v, m.Keys, prefix)
    case Arr(items) => ItemBag(v, |items|, prefix)
    case _ => multiset{Term(prefix, v.Printed())}
  }

  /** The terms of the fields in ks, taken in an arbitrary order. */
  ghost function FieldBag(v: Json, ks: set<string>, prefix: string): multiset<Term>
    requires v.Obj? && ks <= v.fields.Keys
    decreases v, 0, |ks|
  {
    if ks == {} then multiset{} else
    var k :| k in ks;
    TermBag(v.fields[k], ChildKey(prefix, k)) + FieldBag(v, ks - {k}, prefix)
  }

  /** The terms of the first n items. */
  ghost function ItemBag(v: Json, n: nat, prefix: string): multiset<Term>
    requires v.Arr? && n <= |v.items|
    decreases v, 0, n
  {
    if n == 0 then multiset{} else ItemBag(v, n - 1, prefix) + TermBag(v.items[n - 1], prefix)
  }

  /** Any key may be taken first. */
  lemma {:induction false} FieldBagTake(v: Json, ks: set<string>, prefix: string, k: string)
    requires v.Obj? && ks <= v.fields.Keys && k in ks
    ensures FieldBag(v, ks, prefix) ==
            TermBag(v.fields[k], ChildKey(prefix, k)) + FieldBag(v, ks - {k}, prefix)
    decreases |ks|
  {
    var first :| first in ks && FieldBag(v, ks, prefix) ==
      TermBag(v.fields[first], ChildKey(prefix, first)) + FieldBag(v, ks - {first}, prefix);
    if first != k {
      FieldBagTake(v, ks - {first}, prefix, k);
      FieldBagTake(v, ks - {k}, prefix, first);
      assert ks - {first} - {k} == ks - {k} - {first};
    }
  }

  /** The accumulator that flattenMetadata appends to through its pointer argument. */
  class TermList {
    var terms: seq<Term>

    constructor ()
      ensures terms == []
    {
      terms := [];
    }
  }

  /** flattenMetadata: an object's fields come in whatever order the map iteration yields, and the
      terms appended are the same multiset for all of them. */
  method FlattenMetadata(v: Json, prefix: string, out: TermList)
    modifies out
    ensures old(out.terms) <= out.terms
    ensures multiset(out.terms) == multiset(old(out.terms)) + TermBag(v, prefix)
    decreases v, 1
  {
    match v
    case Obj(_) => FlattenFields(v, prefix, out);
    case Arr(_) => FlattenItems(v, prefix, out);
    case Null =>
    case _ => out.terms := out.terms + [Term(prefix, v.Printed())];
  }

  /** The loop over an object's fields. */
  method FlattenFields(v: Json, prefix: string, out: TermList)
    requires v.Obj?
    modifies out
    ensures old(out.terms) <= out.terms
    ensures multiset(out.terms) == multiset(old(out.terms)) + FieldBag(v, v.fields.Keys, prefix)
    decreases v, 0
  {
    var ks := v.fields.Keys;
    ghost var done := multiset{};
    while ks != {}
      invariant ks <= v.fields.Keys
      invariant old(out.terms) <= out.terms
      invariant done + FieldBag(v, ks, prefix) == FieldBag(v, v.fields.Keys, prefix)
      invariant multiset(out.terms) == multiset(old(out.terms)) + done
      decreases |ks|
    {
      var k :| k in ks;
      FieldBagTake(v, ks, prefix, k);
      FlattenMetadata(v.fields[k], ChildKey(prefix, k), out);
      done := done + TermBag(v.fields[k], ChildKey(prefix, k));
      ks := ks - {k};
    }
  }

  /** The loop over an array's elements. */
  method FlattenItems(v: Json, prefix: string, out: TermList)
    requires v.Arr?
    modifies out
    ensures old(out.terms) <= out.terms
    ensures multiset(out.terms) == multiset(old(out.terms)) + ItemBag(v, |v.items|, prefix)
    decreases v, 0
  {
    for i := 0 to |v.items|
      invariant old(out.terms) <= out.terms
      invariant multiset(out.terms) == multiset(old(out.terms)) + ItemBag(v, i, prefix)
    {
      FlattenMetadata(v.items[i], prefix, out);
    }
  }

  // ---------------------------------------------------------------- meaning of the terms

  /** What a scalar leaf reads as: true and false, the string itself, the text a number prints as. */
  predicate Reads(leaf: Json, text: string) {
    leaf == Str(text) || leaf == Num(text) || leaf == Other(text) ||
    (leaf == Bool(true) && text == "true") || (leaf == Bool(false) && text == "false")
  }

  /** The naive walk: v has a scalar leaf that prints as text below the object keys of path, array
      steps not counted. */
  predicate HasLeaf(v: Json, path: seq<string>, text: string)
    decreases v
  {
    match v
    case Null => false
    case Obj(m) => path != [] && path[0] in m && HasLeaf(m[path[0]], path[1..], text)
    case Arr(items) => exists i | 0 <= i < |items| :: HasLeaf(items[i], path, text)
    case _ => path == [] && Reads(v, text)
  }

  /** How many such leaves there are. */
  function LeafCount(v: Json, path: seq<string>, text: string): nat
    decreases v, 1, 0
  {
    match v
    case Null => 0
    case Obj(m) => if path != [] && path[0] in m then LeafCount(m[path[0]], path[1..], text) else 0
    case Arr(items) => ItemCount(v, |items|, path, text)
    case _ => if path == [] && Reads(v, text) then 1 else 0
  }

  function ItemCount(v: Json, n: nat, path: seq<string>, text: string): nat
    requires v.Arr? && n <= |v.items|
    decreases v, 0, n
  {
    if n == 0 then 0 else ItemCount(v, n - 1, path, text) + LeafCount(v.items[n - 1], path, text)
  }

  lemma {:induction false} LeafCountPositive(v: Json, path: seq<string>, text: string)
    ensures LeafCount(v, path, text) > 0 <==> HasLeaf(v, path, text)
    decreases v, 1, 0
  {
    match v
    case Obj(m) =>
      if path != [] && path[0] in m { LeafCountPositive(m[path[0]], path[1..], text); }
    case Arr(items) => ItemCountPositive(v, |items|, path, text);
    case _ =>
  }

  lemma {:induction false} ItemCountPositive(v: Json, n: nat, path: seq<string>, text: string)
    requires v.Arr? && n <= |v.items|
    ensures ItemCount(v, n, path, text) > 0 <==> exists i | 0 <= i < n :: HasLeaf(v.items[i], path, text)
    decreases v, 0, n
  {
    if n > 0 {
      ItemCountPositive(v, n - 1, path, text);
      LeafCountPositive(v.items[n - 1], path, text);
    }
  }

  predicate ValidPath(path: seq<string>) {
    forall i | 0 <= i < |path| :: ValidSegment(path[i])
  }

  lemma ValidPathHasNoDots(path: seq<string>)
    requires ValidPath(path)
    ensures forall p | p in path :: '.' !in p
  {}

  lemma ChildKeyJoins(path: seq<string>, k: string)
    requires ValidPath(path) && ValidSegment(k)
    ensures ChildKey(Join(path, '.'), k) == Join(path + [k], '.')
  {
    JoinSnoc(path, k, '.');
    if path != [] {
      assert ValidSegment(path[0]);
      assert Join(path, '.') != "";
    }
  }

  /** The leaves below path that a key splitting into whole can denote. */
  function CountBelow(v: Json, path: seq<string>, whole: seq<string>, text: string): nat {
    if path <= whole then LeafCount(v, whole[|path|..], text) else 0
  }

  lemma ReadsPrinted(leaf: Json, text: string)
    requires leaf.Scalar()
    ensures Reads(leaf, text) <==> leaf.Printed() == text
  {}

  /** The multiplicity of a term is the number of leaves its key and value denote. */
  lemma {:induction false} TermBagCounts(v: Json, path: seq<string>, depth: int, key: string, text: string)
    requires Walk(v, depth) && ValidPath(path) && (v.Obj? || path != [])
    ensures TermBag(v, Join(path, '.'))[Term(key, text)] == CountBelow(v, path, Split(key, '.'), text)
    decreases v, 1, 0
  {
    var whole := Split(key, '.');
    match v
    case Null =>
    case Obj(m) => FieldBagCounts(v, m.Keys, path, depth, key, text);
      if path <= whole && |path| < |whole| {
        assert whole[|path|..][1..] == whole[|path| + 1..];
      }
    case Arr(items) => ItemBagCounts(v, |items|, path, depth, key, text);
    case Other(_) =>
    case _ =>
      ReadsPrinted(v, text);
      hide Reads, Json.Printed;
      ValidPathHasNoDots(path);
      SplitJoin(path, '.');
      JoinSplit(key, '.');
      if path <= whole && whole[|path|..] == [] {
        assert whole == path;
      }
  }

  /** The share of the fields in ks in the leaves that whole denotes below path. */
  function FieldCount(v: Json, ks: set<string>, path: seq<string>, whole: seq<string>, text: string): nat
    requires v.Obj? && ks <= v.fields.Keys
  {
    if path <= whole && |path| < |whole| && whole[|path|] in ks
    then LeafCount(v.fields[whole[|path|]], whole[|path| + 1..], text) else 0
  }

  lemma {:induction false} FieldBagCounts(v: Json, ks: set<string>, path: seq<string>, depth: int, key: string,
      text: string)
    requires v.Obj? && ks <= v.fields.Keys && Walk(v, depth) && ValidPath(path)
    ensures FieldBag(v, ks, Join(path, '.'))[Term(key, text)] ==
            FieldCount(v, ks, path, Split(key, '.'), text)
    decreases v, 0, |ks|
  {
    if ks != {} {
      var k :| k in ks;
      FieldBagTake(v, ks, Join(path, '.'), k);
      FieldBagCounts(v, ks - {k}, path, depth, key, text);
      ChildKeyJoins(path, k);
      TermBagCounts(v.fields[k], path + [k], depth + 1, key, text);
      FieldCountTake(v, ks, path, Split(key, '.'), text, k);
    }
  }

  lemma FieldCountTake(v: Json, ks: set<string>, path: seq<string>, whole: seq<string>, text: string, k: string)
    requires v.Obj? && ks <= v.fields.Keys && k in ks
    ensures FieldCount(v, ks, path, whole, text) ==
            CountBelow(v.fields[k], path + [k], whole, text) + FieldCount(v, ks - {k}, path, whole, text)
  {}

  lemma {:induction false} ItemBagCounts(v: Json, n: nat, path: seq<string>, depth: int, key: string, text: string)
    requires v.Arr? && n <= |v.items| && Walk(v, depth) && ValidPath(path) && path != []
    ensures var whole := Split(key, '.');
            ItemBag(v, n, Join(path, '.'))[Term(key, text)] ==
            if path <= whole then ItemCount(v, n, whole[|path|..], text) else 0
    decreases v, 0, n
  {
    if n > 0 {
      ItemBagCounts(v, n - 1, path, depth, key, text);
      TermBagCounts(v.items[n - 1], path, depth + 1, key, text);
    }
  }

  lemma {:induction false} LeafDepth(v: Json, depth: int, path: seq<string>, text: string)
    requires Walk(v, depth) && HasLeaf(v, path, text)
    ensures depth + |path| <= MAX_DEPTH && ValidPath(path) && (v.Obj? ==> path != [])
    decreases v
  {
    match v
    case Obj(m) =>
      LeafDepth(m[path[0]], depth + 1, path[1..], text);
      forall i | 0 <= i < |path| ensures ValidSegment(path[i]) {
        if i > 0 { assert path[i] == path[1..][i - 1]; }
      }
    case Arr(items) =>
      var i :| 0 <= i < |items| && HasLeaf(items[i], path, text);
      LeafDepth(items[i], depth + 1, path, text);
    case _ =>
  }

  /** Flattening is exact: the multiplicity of (key, text) is the number of leaves printing as text
      at the path that key splits into. */
  lemma FlattenCounts(v: Json, key: string, text: string)
    requires Accepted(v)
    ensures TermBag(v, "")[Term(key, text)] == LeafCount(v, Split(key, '.'), text)
  {
    TermBagCounts(v, [], 1, key, text);
    assert Join([], '.') == "";
    assert Split(key, '.')[0..] == Split(key, '.');
  }

  /** (Join(path), text) is a term exactly when the naive walk finds that leaf, the path being read
      back from the key; and the path has one to seven segments. */
  lemma FlattenExact(v: Json, path: seq<string>, text: string)
    requires Accepted(v)
    ensures ValidPath(path) && path != [] ==>
              Split(Join(path, '.'), '.') == path &&
              (Term(Join(path, '.'), text) in TermBag(v, "") <==> HasLeaf(v, path, text))
    ensures HasLeaf(v, path, text) ==> ValidPath(path) && 1 <= |path| <= 7
  {
    if HasLeaf(v, path, text) { LeafDepth(v, 1, path, text); }
    if ValidPath(path) && path != [] {
      ValidPathHasNoDots(path);
      SplitJoin(path, '.');
      FlattenCounts(v, Join(path, '.'), text);
      LeafCountPositive(v, path, text);
    }
  }

  /** Every term's key splits into one to seven valid segments that lead to its leaf. */
  lemma FlattenUnambiguous(v: Json, t: Term)
    requires Accepted(v) && t in TermBag(v, "")
    ensures var path := Split(t.key, '.');
            1 <= |path| <= 7 && ValidPath(path) && HasLeaf(v, path, t.value) && Join(path, '.') == t.key
  {
    FlattenCounts(v, t.key, t.value);
    var path := Split(t.key, '.');
    LeafCountPositive(v, path, t.value);
    LeafDepth(v, 1, path, t.value);
    JoinSplit(t.key, '.');
  }

  // ---------------------------------------------------------------- index rows

  /** The terms kept by indexMetadataTermsTx. */
  predicate Indexable(t: Term) {
    t.key != "" && !Blank(t.value)
  }

  ghost function IndexTerms(v: Json): set<Term> {
    set t | t in TermBag(v, "") && Indexable(t)
  }

  /** One filter key and value match the index exactly when the naive walk of the tree finds a
      non-blank leaf: the index refines the scan. */
  lemma IndexRefinesScan(v: Json, key: string, value: string)
    requires Accepted(v)
    ensures Term(key, value) in IndexTerms(v) <==> !Blank(value) && HasLeaf(v, Split(key, '.'), value)
  {
    FlattenCounts(v, key, value);
    LeafCountPositive(v, Split(key, '.'), value);
    if HasLeaf(v, Split(key, '.'), value) {
      LeafDepth(v, 1, Split(key, '.'), value);
      assert ValidSegment(Split(key, '.')[0]);
    }
  }

  /** What the index holds of a field at the top of a tree, by the JSON value it has. */
  lemma TopLevelTerms(m: map<string, Json>, k: string, v: string)
    requires Accepted(Obj(m)) && k in m
    ensures m[k] == Bool(true) ==> (Term(k, v) in IndexTerms(Obj(m)) <==> v == "true")
    ensures m[k] == Bool(false) ==> (Term(k, v) in IndexTerms(Obj(m)) <==> v == "false")
    ensures m[k].Str? ==> (Term(k, v) in IndexTerms(Obj(m)) <==> v == m[k].s && !Blank(v))
    ensures m[k].Num? ==> (Term(k, v) in IndexTerms(Obj(m)) <==> v == m[k].printed && !Blank(v))
    ensures m[k] == Null ==> Term(k, v) !in IndexTerms(Obj(m))
  {
    assert ValidSegment(k);
    ValidPathHasNoDots([k]);
    SplitUnseparated(k, '.');
    IndexRefinesScan(Obj(m), k, v);
    assert [k][1..] == [];
    assert HasLeaf(Obj(m), [k], v) <==> HasLeaf(m[k], [], v);
    hide TermBag;
    assert !Blank("true") && !Blank("false") by { assert !IsSpace("true"[0]) && !IsSpace("false"[0]); }
  }
}
