/** Flattening a JSON value into a table from rendered paths to texts. */
module FlatJson {
  import opened Options
  import opened Sequences
  import opened Text

  /** A number is kept as the text it prints as. */
  datatype Json =
    | Null
    | Bool(b: bool)
    | Number(text: string)
    | Str(s: string)
    | Arr(items: seq<Json>)
    | Obj(fields: seq<(string, Json)>)

  datatype Segment = Key(name: string) | Index(i: nat)

  type Path = seq<Segment>

  predicate IsScalar(j: Json) {
    !j.Arr? && !j.Obj?
  }

  function TextOf(j: Json): string
    requires IsScalar(j)
  {
    match j
    case Null => []
    case Bool(b) => if b then "True" else "False"
    case Number(text) => text
    case Str(s) => s
  }

  /** The values directly inside `j`, each with the segment that leads to it. */
  function Children(j: Json): (r: seq<(Segment, Json)>)
    ensures forall i :: 0 <= i < |r| ==> r[i].1 < j
  {
    match j
    case Arr(items) => seq(|items|, i requires 0 <= i < |items| => (Index(i), items[i]))
    case Obj(fields) => seq(|fields|, i requires 0 <= i < |fields| => (Key(fields[i].0), fields[i].1))
    case _ => []
  }

  function Extend(prefix: string, s: Segment): string {
    match s
    case Key(name) => if prefix == [] then name else prefix + ['.'] + name
    case Index(i) => prefix + ['['] + Decimal(i) + [']']
  }

  function Flatten(j: Json, prefix: string): map<string, string>
    decreases j
  {
    if IsScalar(j) then map[prefix := TextOf(j)] else FlattenSome(j, |Children(j)|, prefix)
  }

  /** The first `n` children; a later child overwrites what an earlier one wrote. */
  function FlattenSome(j: Json, n: nat, prefix: string): map<string, string>
    requires n <= |Children(j)|
    decreases j, n
  {
    if n == 0 then map[]
    else
      var child := Children(j)[n - 1];
      FlattenSome(j, n - 1, prefix) + Flatten(child.1, Extend(prefix, child.0))
  }

  method FlattenJson(j: Json, prefix: string) returns (flat: map<string, string>)
    ensures flat == Flatten(j, prefix)
    decreases j
  {
    flat := map[];
    match j {
      case Obj(fields) =>
        for n := 0 to |fields|
          invariant flat == FlattenSome(j, n, prefix)
        {
          var key, value := fields[n].0, fields[n].1;
          assert Children(j)[n] == (Key(key), value);
          var inner := FlattenJson(value, if prefix != [] then prefix + ['.'] + key else key);
          flat := flat + inner;
        }
      case Arr(items) =>
        for n := 0 to |items|
          invariant flat == FlattenSome(j, n, prefix)
        {
          assert Children(j)[n] == (Index(n), items[n]);
          var inner := FlattenJson(items[n], prefix + ['['] + Decimal(n) + [']']);
          flat := flat + inner;
        }
      case _ =>
        flat := map[prefix := TextOf(j)];
    }
  }

  // ---------------------------------------------------------------------------------------
  // Rendered paths

  function RenderAfter(prefix: string, p: Path): string
    decreases |p|
  {
    if p == [] then prefix else RenderAfter(Extend(prefix, p[0]), p[1..])
  }

  function Render(p: Path): string {
    RenderAfter([], p)
  }

  predicate IsDelimiter(c: char) {
    c == '.' || c == '['
  }

  predicate NoDelimiter(s: string) {
    forall k :: 0 <= k < |s| ==> !IsDelimiter(s[k])
  }

  predicate CleanSegment(s: Segment) {
    s.Key? ==> s.name != [] && NoDelimiter(s.name)
  }

  predicate CleanPath(p: Path) {
    forall k :: 0 <= k < |p| ==> CleanSegment(p[k])
  }

  /** What follows the delimiter of a segment. */
  function Body(s: Segment): string {
    match s
    case Key(name) => name
    case Index(i) => Decimal(i) + [']']
  }

  function WithDelimiter(s: Segment): string {
    [if s.Key? then '.' else '['] + Body(s)
  }

  /** A path that is not at the root: every segment starts with its delimiter. */
  function Tail(p: Path): string {
    if p == [] then [] else WithDelimiter(p[0]) + Tail(p[1..])
  }

  lemma ExtendWith(prefix: string, s: Segment)
    requires prefix != [] || s.Index?
    ensures Extend(prefix, s) == prefix + WithDelimiter(s)
  {
  }

  lemma {:induction false} RenderTail(prefix: string, p: Path)
    requires prefix != []
    ensures RenderAfter(prefix, p) == prefix + Tail(p)
    decreases |p|
  {
    if p == [] {
      assert prefix + [] == prefix;
    } else {
      ExtendWith(prefix, p[0]);
      RenderTail(Extend(prefix, p[0]), p[1..]);
      Associates(prefix, WithDelimiter(p[0]), Tail(p[1..]));
    }
  }

  lemma RenderRoot(p: Path)
    requires p != [] && CleanPath(p)
    ensures Render(p) == if p[0].Key? then p[0].name + Tail(p[1..]) else Tail(p)
    ensures Render(p) != [] && (Render(p)[0] == '[' <==> p[0].Index?)
  {
    var s := p[0];
    assert CleanSegment(s);
    if s.Index? {
      ExtendWith([], s);
      assert [] + WithDelimiter(s) == WithDelimiter(s);
    }
    RenderTail(Extend([], s), p[1..]);
  }

  lemma {:induction false} RenderSnoc(prefix: string, p: Path, s: Segment)
    ensures RenderAfter(prefix, p + [s]) == Extend(RenderAfter(prefix, p), s)
    decreases |p|
  {
    if p == [] {
      assert (p + [s])[1..] == [];
    } else {
      assert (p + [s])[1..] == p[1..] + [s];
      RenderSnoc(Extend(prefix, p[0]), p[1..], s);
    }
  }

  lemma BodyIsClean(s: Segment)
    requires CleanSegment(s)
    ensures NoDelimiter(Body(s))
  {
    if s.Index? {
      ParseOfDigits(s.i);
      forall k | 0 <= k < |Body(s)| ensures !IsDelimiter(Body(s)[k]) {
        if k < |Digits(s.i)| { assert Digits(s.i)[k] in Digits(s.i); }
      }
    }
  }

  lemma BodyInjective(s: Segment, t: Segment)
    requires s.Key? == t.Key? && Body(s) == Body(t)
    ensures s == t
  {
    if s.Index? {
      assert Decimal(s.i) == Body(s)[..|Body(s)| - 1];
      ParseOfDecimal(s.i);
      ParseOfDecimal(t.i);
    }
  }

  lemma AtTheEndOf(a: string, x: string, b: string, y: string)
    requires a + x == b + y && |a| < |b|
    ensures x != [] && x[0] == b[|a|]
  {
    assert (a + x)[|a|] == (b + y)[|a|];
  }

  lemma SameLength(a: string, x: string, b: string, y: string)
    requires a + x == b + y && |a| == |b|
    ensures a == b && x == y
  {
    assert a == (a + x)[..|a|] && x == (a + x)[|a|..];
    assert b == (b + y)[..|b|] && y == (b + y)[|b|..];
  }

  /** A delimiter ends a text without delimiters. */
  lemma FirstPart(a: string, x: string, b: string, y: string)
    requires NoDelimiter(a) && NoDelimiter(b) && a + x == b + y
    requires (x != [] ==> IsDelimiter(x[0])) && (y != [] ==> IsDelimiter(y[0]))
    ensures a == b && x == y
  {
    if |a| < |b| {
      AtTheEndOf(a, x, b, y);
    } else if |b| < |a| {
      AtTheEndOf(b, y, a, x);
    } else {
      SameLength(a, x, b, y);
    }
  }

  lemma DelimitedPart(s: Segment, x: string, t: Segment, y: string)
    requires CleanSegment(s) && CleanSegment(t) && WithDelimiter(s) + x == WithDelimiter(t) + y
    requires (x != [] ==> IsDelimiter(x[0])) && (y != [] ==> IsDelimiter(y[0]))
    ensures s == t && x == y
  {
    var p, q := WithDelimiter(s) + x, WithDelimiter(t) + y;
    assert p[0] == q[0];
    assert p[1..] == Body(s) + x && q[1..] == Body(t) + y;
    BodyIsClean(s);
    BodyIsClean(t);
    FirstPart(Body(s), x, Body(t), y);
    BodyInjective(s, t);
  }

  lemma {:induction false} TailInjective(p: Path, q: Path)
    requires CleanPath(p) && CleanPath(q) && Tail(p) == Tail(q)
    ensures p == q
  {
    if p == [] || q == [] {
    } else {
      var s, rest, t, others := p[0], p[1..], q[0], q[1..];
      DelimitedPart(s, Tail(rest), t, Tail(others));
      TailInjective(rest, others);
      assert p == [s] + rest && q == [t] + others;
    }
  }

  /** Paths without empty keys, dots or brackets in keys are told apart by their rendering. */
  lemma RenderInjective(p: Path, q: Path)
    requires CleanPath(p) && CleanPath(q) && Render(p) == Render(q)
    ensures p == q
  {
    if p != [] { RenderRoot(p); }
    if q != [] { RenderRoot(q); }
    if p != [] && q != [] {
      if p[0].Key? {
        FirstPart(p[0].name, Tail(p[1..]), q[0].name, Tail(q[1..]));
        TailInjective(p[1..], q[1..]);
        assert p == [p[0]] + p[1..] && q == [q[0]] + q[1..];
      } else {
        TailInjective(p, q);
      }
    }
  }

  // ---------------------------------------------------------------------------------------
  // Leaves

  /** A scalar, or an empty list or object. */
  predicate IsLeaf(j: Json) {
    Children(j) == []
  }

  /** Following `p` from `j` leads to the leaf `v`. */
  predicate LeafAt(j: Json, p: Path, v: Json)
    decreases |p|
  {
    if p == [] then IsLeaf(j) && v == j
    else exists i :: 0 <= i < |Children(j)| && LeafBelow(j, i, p, v)
  }

  predicate LeafBelow(j: Json, i: nat, p: Path, v: Json)
    requires i < |Children(j)| && p != []
    decreases |p|, 0
  {
    Children(j)[i].0 == p[0] && LeafAt(Children(j)[i].1, p[1..], v)
  }

  /** What the texts of scalars are; an element of a list is reached by its index from 0, a field by its key. */
  lemma LeafMeans(items: seq<Json>, fields: seq<(string, Json)>, i: nat, key: string, p: Path, v: Json)
    ensures TextOf(Null) == "" && TextOf(Bool(true)) == "True" && TextOf(Bool(false)) == "False"
    ensures TextOf(Number(key)) == TextOf(Str(key)) == key
    ensures LeafAt(Arr(items), [Index(i)] + p, v) <==> i < |items| && LeafAt(items[i], p, v)
    ensures LeafAt(Obj(fields), [Key(key)] + p, v) <==> exists k :: 0 <= k < |fields| && fields[k].0 == key && LeafAt(fields[k].1, p, v)
    ensures !LeafAt(Arr(items), [Key(key)] + p, v) && !LeafAt(Obj(fields), [Index(i)] + p, v)
    ensures LeafAt(Arr(items), [], v) <==> items == [] && v == Arr([])
    ensures LeafAt(Obj(fields), [], v) <==> fields == [] && v == Obj([])
  {
    LeafInList(items, i, p, v);
    LeafInObject(fields, key, p, v);
    assert items == [] <==> Children(Arr(items)) == [];
    assert fields == [] <==> Children(Obj(fields)) == [];
    assert ([Key(key)] + p)[0] == Key(key) && ([Index(i)] + p)[0] == Index(i);
  }

  lemma LeafInList(items: seq<Json>, i: nat, p: Path, v: Json)
    ensures LeafAt(Arr(items), [Index(i)] + p, v) <==> i < |items| && LeafAt(items[i], p, v)
  {
    var j, q := Arr(items), [Index(i)] + p;
    assert q[1..] == p;
    if i < |items| && LeafAt(items[i], p, v) { LeafHere(j, i, q, v); }
    if LeafAt(j, q, v) {
      var k := LeafStep(j, q, v);
      assert k == i;
    }
  }

  lemma LeafInObject(fields: seq<(string, Json)>, key: string, p: Path, v: Json)
    ensures LeafAt(Obj(fields), [Key(key)] + p, v)
      <==> exists k :: 0 <= k < |fields| && fields[k].0 == key && LeafAt(fields[k].1, p, v)
  {
    var j, q := Obj(fields), [Key(key)] + p;
    assert q[1..] == p;
    if k: nat :| k < |fields| && fields[k].0 == key && LeafAt(fields[k].1, p, v) { LeafHere(j, k, q, v); }
    if LeafAt(j, q, v) {
      var k := LeafStep(j, q, v);
      assert fields[k].0 == key && LeafAt(fields[k].1, p, v);
    }
  }

  /** How paths are written: `key`, `path.key` and `path[index]`. */
  lemma RenderedForm(p: Path, key: string, i: nat)
    ensures Render([Key(key)]) == key && Render([Index(i)]) == "[" + Decimal(i) + "]"
    ensures Render(p) != [] ==> Render(p + [Key(key)]) == Render(p) + "." + key
    ensures Render(p + [Index(i)]) == Render(p) + "[" + Decimal(i) + "]"
  {
    RenderSnoc([], p, Key(key));
    RenderSnoc([], p, Index(i));
    var none: Path := [];
    RenderSnoc([], none, Key(key));
    RenderSnoc([], none, Index(i));
    assert none + [Key(key)] == [Key(key)] && none + [Index(i)] == [Index(i)];
    assert [] + ['['] + Decimal(i) + [']'] == "[" + Decimal(i) + "]";
  }

  /** Keys are unique, as in every Python dictionary, not empty, and free of dots and opening brackets. */
  predicate Clean(j: Json)
    decreases j
  {
    var children := Children(j);
    && (forall i :: 0 <= i < |children| ==> CleanSegment(children[i].0) && Clean(children[i].1))
    && (forall i, k :: 0 <= i < k < |children| ==> children[i].0 != children[k].0)
  }

  lemma {:induction false} LeafPathClean(j: Json, p: Path, v: Json)
    requires Clean(j) && LeafAt(j, p, v)
    ensures CleanPath(p)
    decreases |p|
  {
    if p == [] {
    } else {
      var i :| 0 <= i < |Children(j)| && LeafBelow(j, i, p, v);
      LeafPathClean(Children(j)[i].1, p[1..], v);
      assert p == [p[0]] + p[1..];
    }
  }

  lemma {:induction false} LeafUnique(j: Json, p: Path, v: Json, w: Json)
    requires Clean(j) && LeafAt(j, p, v) && LeafAt(j, p, w)
    ensures v == w
    decreases |p|
  {
    if p == [] {
    } else {
      var i :| 0 <= i < |Children(j)| && LeafBelow(j, i, p, v);
      var k :| 0 <= k < |Children(j)| && LeafBelow(j, k, p, w);
      assert i == k && Clean(Children(j)[i].1);
      LeafUnique(Children(j)[i].1, p[1..], v, w);
    }
  }

  ghost function LeafOf(j: Json, p: Path): Option<Json> {
    if v :| LeafAt(j, p, v) then Some(v) else None
  }

  lemma LeafOfIs(j: Json, p: Path, v: Json)
    requires Clean(j)
    ensures LeafAt(j, p, v) <==> LeafOf(j, p) == Some(v)
  {
    if LeafAt(j, p, v) {
      var w :| LeafAt(j, p, w) && LeafOf(j, p) == Some(w);
      LeafUnique(j, p, v, w);
    }
  }

  /** Every entry of the table is the text of a scalar leaf. */
  lemma {:induction false} EntryIsLeaf(j: Json, base: Path, key: string) returns (p: Path, v: Json)
    requires key in Flatten(j, Render(base))
    ensures LeafAt(j, p, v) && IsScalar(v) && Flatten(j, Render(base))[key] == TextOf(v) && key == Render(base + p)
    decreases j
  {
    if IsScalar(j) {
      p, v := [], j;
      assert base + p == base;
    } else {
      p, v := EntryIsLeafOf(j, |Children(j)|, base, key);
    }
  }

  lemma {:induction false} EntryIsLeafOf(j: Json, n: nat, base: Path, key: string) returns (p: Path, v: Json)
    requires n <= |Children(j)| && key in FlattenSome(j, n, Render(base))
    ensures LeafAt(j, p, v) && IsScalar(v) && FlattenSome(j, n, Render(base))[key] == TextOf(v) && key == Render(base + p)
    decreases j, n
  {
    var child := Children(j)[n - 1];
    RenderSnoc([], base, child.0);
    if key in Flatten(child.1, Render(base + [child.0])) {
      var q;
      q, v := EntryIsLeaf(child.1, base + [child.0], key);
      p := [child.0] + q;
      Below(j, n - 1, q, v);
      Longer(base, child.0, q);
    } else {
      p, v := EntryIsLeafOf(j, n - 1, base, key);
    }
  }

  lemma Longer(base: Path, s: Segment, q: Path)
    ensures base + ([s] + q) == base + [s] + q
  {
  }

  lemma Below(j: Json, i: nat, q: Path, v: Json)
    requires i < |Children(j)| && LeafAt(Children(j)[i].1, q, v)
    ensures LeafAt(j, [Children(j)[i].0] + q, v)
  {
    var p := [Children(j)[i].0] + q;
    assert p[1..] == q;
    assert LeafBelow(j, i, p, v);
  }

  predicate HasEntry(m: map<string, string>, key: string, text: string) {
    key in m && m[key] == text
  }

  /** Every scalar leaf has its entry. */
  lemma {:induction false} LeafHasEntry(j: Json, base: Path, p: Path, v: Json)
    requires Clean(j) && CleanPath(base) && LeafAt(j, p, v) && IsScalar(v)
    ensures HasEntry(Flatten(j, Render(base)), Render(base + p), TextOf(v))
    decreases j
  {
    if p == [] {
      assert base + p == base;
    } else {
      var i :| 0 <= i < |Children(j)| && LeafBelow(j, i, p, v);
      LeafHasEntryOf(j, |Children(j)|, i, base, p, v);
    }
  }

  lemma {:induction false} LeafHasEntryOf(j: Json, n: nat, i: nat, base: Path, p: Path, v: Json)
    requires Clean(j) && CleanPath(base) && i < n <= |Children(j)| && p != [] && LeafBelow(j, i, p, v) && IsScalar(v)
    ensures HasEntry(FlattenSome(j, n, Render(base)), Render(base + p), TextOf(v))
    decreases j, n
  {
    if n - 1 == i {
      LeafHasEntryBelow(j, i, base, p, v);
      LastChildWins(j, n, base, Render(base + p), TextOf(v));
    } else {
      LeafHasEntryOf(j, n - 1, i, base, p, v);
      OtherChild(j, n - 1, i, base, p, v);
      OtherChildKeeps(j, n, base, Render(base + p), TextOf(v));
    }
  }

  lemma {:induction false} LeafHasEntryBelow(j: Json, i: nat, base: Path, p: Path, v: Json)
    requires Clean(j) && CleanPath(base) && i < |Children(j)| && p != [] && LeafBelow(j, i, p, v) && IsScalar(v)
    ensures HasEntry(Flatten(Children(j)[i].1, Render(base + [Children(j)[i].0])), Render(base + p), TextOf(v))
    decreases j, 0
  {
    var child := Children(j)[i];
    assert CleanSegment(child.0) && Clean(child.1);
    LeafHasEntry(child.1, base + [child.0], p[1..], v);
    assert base + [child.0] + p[1..] == base + p;
  }

  lemma LastChildWins(j: Json, n: nat, base: Path, key: string, text: string)
    requires 0 < n <= |Children(j)|
    requires HasEntry(Flatten(Children(j)[n - 1].1, Render(base + [Children(j)[n - 1].0])), key, text)
    ensures HasEntry(FlattenSome(j, n, Render(base)), key, text)
  {
    RenderSnoc([], base, Children(j)[n - 1].0);
  }

  lemma OtherChildKeeps(j: Json, n: nat, base: Path, key: string, text: string)
    requires 0 < n <= |Children(j)| && HasEntry(FlattenSome(j, n - 1, Render(base)), key, text)
    requires key !in Flatten(Children(j)[n - 1].1, Render(base + [Children(j)[n - 1].0]))
    ensures HasEntry(FlattenSome(j, n, Render(base)), key, text)
  {
    RenderSnoc([], base, Children(j)[n - 1].0);
  }

  lemma SegmentAt(base: Path, s: Segment, q: Path)
    ensures |base + [s] + q| > |base| && (base + [s] + q)[|base|] == s
  {
  }

  /** Two children write no entry in common. */
  lemma OtherChild(j: Json, k: nat, i: nat, base: Path, p: Path, v: Json)
    requires Clean(j) && CleanPath(base) && i < k < |Children(j)| && p != [] && LeafBelow(j, i, p, v)
    ensures Render(base + p) !in Flatten(Children(j)[k].1, Render(base + [Children(j)[k].0]))
  {
    var child := Children(j)[k];
    var below := base + [child.0];
    if Render(base + p) in Flatten(child.1, Render(below)) {
      var q, w := EntryIsLeaf(child.1, below, Render(base + p));
      LeafPathClean(child.1, q, w);
      LeafPathClean(j, p, v);
      SegmentAt(base, child.0, q);
      RenderInjective(below + q, base + p);
    }
  }

  /** With clean keys the table holds exactly the scalar leaves, each under its own path with its text. */
  lemma FlattenIsLeaves(j: Json, p: Path, text: string)
    requires Clean(j) && CleanPath(p)
    ensures HasEntry(Flatten(j, []), Render(p), text) <==> exists v :: LeafAt(j, p, v) && IsScalar(v) && TextOf(v) == text
  {
    assert Render([]) == [];
    if v :| LeafAt(j, p, v) && IsScalar(v) && TextOf(v) == text {
      LeafHasEntry(j, [], p, v);
      assert [] + p == p;
    }
    if HasEntry(Flatten(j, []), Render(p), text) {
      var q, v := EntryIsLeaf(j, [], Render(p));
      assert [] + q == q;
      LeafPathClean(j, q, v);
      RenderInjective(p, q);
    }
  }

  /** Two leaves share one entry, and the text of the first is lost. */
  predicate Merged(j: Json, p: Path, v: Json, q: Path, w: Json) {
    && LeafAt(j, p, v) && LeafAt(j, q, w) && IsScalar(v) && IsScalar(w) && TextOf(v) != TextOf(w)
    && Render(p) == Render(q) && HasEntry(Flatten(j, []), Render(p), TextOf(w))
  }

  /** A dot in a key can merge leaves. */
  lemma DotInKey()
    ensures exists j, p, v, q, w :: Merged(j, p, v, q, w)
  {
    var one, two := Number("1"), Number("2");
    var inner := Obj([("b", two)]);
    var j := Obj([("a.b", one), ("a", inner)]);
    var p, q := [Key("a.b")], [Key("a"), Key("b")];
    assert Children(j)[0] == (Key("a.b"), one) && Children(j)[1] == (Key("a"), inner);
    assert Children(inner)[0] == (Key("b"), two);
    assert p[1..] == [] && q[1..] == [Key("b")] && q[1..][1..] == [];
    assert LeafBelow(j, 0, p, one);
    assert LeafBelow(inner, 0, q[1..], two);
    assert LeafBelow(j, 1, q, two);
    assert Render(p) == "a.b";
    assert Extend("a", Key("b")) == "a.b" && Render(q) == "a.b";
    assert Flatten(inner, "a") == FlattenSome(inner, 0, "a") + Flatten(two, "a.b");
    assert Flatten(j, []) == FlattenSome(j, 1, []) + Flatten(inner, "a");
    assert Merged(j, p, one, q, two);
  }

  // ---------------------------------------------------------------------------------------
  // Leaves tell values apart

  /** The first child behind `s`, or the number of children. */
  function Position(children: seq<(Segment, Json)>, s: Segment): (k: nat)
    ensures k <= |children| && (k < |children| ==> children[k].0 == s)
    ensures forall i :: 0 <= i < k ==> children[i].0 != s
  {
    if children == [] || children[0].0 == s then 0 else 1 + Position(children[1..], s)
  }

  /** Equal but for the order of keys. */
  predicate Same(a: Json, b: Json)
    decreases a
  {
    var ca, cb := Children(a), Children(b);
    if ca == [] || cb == [] then a == b
    else
      && (forall k :: 0 <= k < |cb| ==> Position(ca, cb[k].0) < |ca|)
      && (forall i :: 0 <= i < |ca| ==>
            Position(cb, ca[i].0) < |cb| && Same(ca[i].1, cb[Position(cb, ca[i].0)].1))
  }

  ghost predicate SameLeaves(a: Json, b: Json) {
    forall p, v :: LeafAt(a, p, v) == LeafAt(b, p, v)
  }

  ghost predicate DifferAt(a: Json, b: Json, p: Path) {
    LeafOf(a, p) != LeafOf(b, p)
  }

  lemma {:induction false} SomeLeaf(j: Json) returns (p: Path, v: Json)
    ensures LeafAt(j, p, v)
    decreases j
  {
    if IsLeaf(j) {
      p, v := [], j;
    } else {
      p, v := SomeLeaf(Children(j)[0].1);
      Below(j, 0, p, v);
      p := [Children(j)[0].0] + p;
    }
  }

  lemma ChildLeaf(j: Json, i: nat, q: Path, v: Json)
    requires Clean(j) && i < |Children(j)|
    ensures LeafAt(j, [Children(j)[i].0] + q, v) <==> LeafAt(Children(j)[i].1, q, v)
  {
    var p := [Children(j)[i].0] + q;
    assert p[1..] == q;
    if LeafAt(Children(j)[i].1, q, v) { Below(j, i, q, v); }
    if LeafAt(j, p, v) {
      var k := LeafStep(j, p, v);
      assert k == i;
    }
  }

  lemma SegmentOccurs(a: Json, i: nat, b: Json)
    requires Clean(a) && SameLeaves(a, b) && i < |Children(a)|
    ensures Position(Children(b), Children(a)[i].0) < |Children(b)|
  {
    var s := Children(a)[i].0;
    var q, v := SomeLeaf(Children(a)[i].1);
    ChildLeaf(a, i, q, v);
    assert LeafAt(b, [s] + q, v);
    var k := LeafStep(b, [s] + q, v);
  }

  lemma ChildLeavesSame(a: Json, i: nat, b: Json, k: nat)
    requires Clean(a) && Clean(b) && SameLeaves(a, b) && i < |Children(a)| && k < |Children(b)|
    requires Children(a)[i].0 == Children(b)[k].0
    ensures SameLeaves(Children(a)[i].1, Children(b)[k].1)
  {
    var s, c, d := Children(a)[i].0, Children(a)[i].1, Children(b)[k].1;
    forall p, w ensures LeafAt(c, p, w) == LeafAt(d, p, w) {
      ChildLeaf(a, i, p, w);
      ChildLeaf(b, k, p, w);
      assert LeafAt(a, [s] + p, w) == LeafAt(b, [s] + p, w);
    }
  }

  lemma MatchingChild(a: Json, i: nat, b: Json)
    requires Clean(a) && Clean(b) && SameLeaves(a, b) && i < |Children(a)|
    ensures var k := Position(Children(b), Children(a)[i].0);
      k < |Children(b)| && SameLeaves(Children(a)[i].1, Children(b)[k].1)
  {
    SegmentOccurs(a, i, b);
    ChildLeavesSame(a, i, b, Position(Children(b), Children(a)[i].0));
  }

  lemma {:induction false} LeavesDecide(a: Json, b: Json)
    requires Clean(a) && Clean(b) && SameLeaves(a, b)
    ensures Same(a, b)
    decreases a
  {
    if IsLeaf(a) {
      assert LeafAt(a, [], a);
    } else if IsLeaf(b) {
      assert LeafAt(b, [], b);
    } else {
      var ca, cb := Children(a), Children(b);
      forall i | 0 <= i < |ca|
        ensures Position(cb, ca[i].0) < |cb| && Same(ca[i].1, cb[Position(cb, ca[i].0)].1)
      {
        MatchingChild(a, i, b);
        LeavesDecide(ca[i].1, cb[Position(cb, ca[i].0)].1);
      }
      forall k | 0 <= k < |cb| ensures Position(ca, cb[k].0) < |ca| { MatchingChild(b, k, a); }
    }
  }

  lemma SameAhead(a: Json, b: Json, p: Path, v: Json) returns (c: Json, d: Json, k: nat)
    requires Same(a, b) && LeafAt(a, p, v) && p != []
    ensures Same(c, d) && LeafAt(c, p[1..], v)
    ensures k < |Children(b)| && Children(b)[k] == (p[0], d)
  {
    var i := LeafStep(a, p, v);
    k := Position(Children(b), Children(a)[i].0);
    c, d := Children(a)[i].1, Children(b)[k].1;
  }

  lemma SameBehind(a: Json, b: Json, p: Path, v: Json) returns (c: Json, d: Json, i: nat)
    requires Clean(b) && Same(a, b) && LeafAt(b, p, v) && p != []
    ensures Same(c, d) && Clean(d) && LeafAt(d, p[1..], v)
    ensures i < |Children(a)| && Children(a)[i] == (p[0], c)
  {
    var k := LeafStep(b, p, v);
    i := Position(Children(a), Children(b)[k].0);
    assert Position(Children(b), Children(a)[i].0) == k;
    c, d := Children(a)[i].1, Children(b)[k].1;
  }

  lemma LeafStep(j: Json, p: Path, v: Json) returns (i: nat)
    requires p != [] && LeafAt(j, p, v)
    ensures i < |Children(j)| && Children(j)[i].0 == p[0] && LeafAt(Children(j)[i].1, p[1..], v)
  {
    i :| 0 <= i < |Children(j)| && LeafBelow(j, i, p, v);
  }

  lemma LeafHere(j: Json, i: nat, p: Path, v: Json)
    requires p != [] && i < |Children(j)| && Children(j)[i].0 == p[0] && LeafAt(Children(j)[i].1, p[1..], v)
    ensures LeafAt(j, p, v)
  {
    assert LeafBelow(j, i, p, v);
  }

  lemma SameRoot(a: Json, b: Json, v: Json)
    requires Same(a, b)
    ensures LeafAt(a, [], v) == LeafAt(b, [], v)
  {
  }

  lemma {:induction false} SameKeepsLeaf(a: Json, b: Json, p: Path, v: Json)
    requires Same(a, b) && LeafAt(a, p, v)
    ensures LeafAt(b, p, v)
    decreases |p|
  {
    if p == [] {
      SameRoot(a, b, v);
    } else {
      var c, d, k := SameAhead(a, b, p, v);
      SameKeepsLeaf(c, d, p[1..], v);
      LeafHere(b, k, p, v);
    }
  }

  lemma {:induction false} SameFindsLeaf(a: Json, b: Json, p: Path, v: Json)
    requires Clean(b) && Same(a, b) && LeafAt(b, p, v)
    ensures LeafAt(a, p, v)
    decreases |p|
  {
    if p == [] {
      SameRoot(a, b, v);
    } else {
      var c, d, i := SameBehind(a, b, p, v);
      SameFindsLeaf(c, d, p[1..], v);
      LeafHere(a, i, p, v);
    }
  }

  /** Two values differ in more than the order of keys if and only if they differ at a leaf. */
  lemma LeavesTellApart(a: Json, b: Json)
    requires Clean(a) && Clean(b)
    ensures Same(a, b) <==> forall p :: CleanPath(p) ==> !DifferAt(a, b, p)
  {
    if Same(a, b) {
      forall p ensures !DifferAt(a, b, p) { SameLeafOf(a, b, p); }
    }
    if forall p :: CleanPath(p) ==> !DifferAt(a, b, p) {
      forall p, v ensures LeafAt(a, p, v) == LeafAt(b, p, v) {
        LeafOfIs(a, p, v);
        LeafOfIs(b, p, v);
        if LeafAt(a, p, v) { LeafPathClean(a, p, v); }
        if LeafAt(b, p, v) { LeafPathClean(b, p, v); }
        assert CleanPath(p) ==> !DifferAt(a, b, p);
      }
      LeavesDecide(a, b);
    }
  }

  lemma SameLeafOf(a: Json, b: Json, p: Path)
    requires Clean(a) && Clean(b) && Same(a, b)
    ensures LeafOf(a, p) == LeafOf(b, p)
  {
    if v :| LeafAt(a, p, v) {
      SameKeepsLeaf(a, b, p, v);
      LeafOfIs(a, p, v);
      LeafOfIs(b, p, v);
    } else if v :| LeafAt(b, p, v) {
      SameFindsLeaf(a, b, p, v);
    }
  }
}
