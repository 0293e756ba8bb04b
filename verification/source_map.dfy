/** The compressed source map of the Solidity compiler. */
module SourceMap {
  import opened Options
  import opened Text

  type Byte = b: int | 0 <= b < 256

  const NEWLINE: Byte := 10

  // ---------------------------------------------------------------------------------------
  // Mappings

  datatype SolidityFile = SolidityFile(data: seq<Byte>, fullContractSrcMaps: set<string>)

  datatype SourceMapping =
    SourceMapping(fileIndex: int, offset: int, length: int, lineno: Option<nat>, item: string)

  function Newlines(data: seq<Byte>): nat {
    if data == [] then 0 else Newlines(data[..|data| - 1]) + (if data[|data| - 1] == NEWLINE then 1 else 0)
  }

  /** `data[0:offset]`; a negative offset counts from the end. */
  function Before(data: seq<Byte>, offset: int): seq<Byte> {
    if offset >= |data| then data
    else if offset >= 0 then data[..offset]
    else if |data| + offset >= 0 then data[..|data| + offset]
    else []
  }

  /** Needs a file unless the index is -1. */
  predicate IsAutogenerated(files: map<int, SolidityFile>, offset: int, length: int, idx: int)
    requires idx == -1 || idx in files
  {
    || idx == -1
    || Decimal(offset) + [':'] + Decimal(length) + [':'] + Decimal(idx) in files[idx].fullContractSrcMaps
  }

  function LineNumber(files: map<int, SolidityFile>, offset: int, length: int, idx: int): Option<nat>
    requires idx == -1 || idx in files
  {
    if IsAutogenerated(files, offset, length, idx) then None
    else Some(Newlines(Before(files[idx].data, offset)) + 1)
  }

  /** The variables of the loop; a field that was never given has no value. */
  datatype Carried = Carried(prevItem: string, offset: Option<int>, length: Option<int>, idx: Option<int>)

  const UNBOUND := Carried([], None, None, None)

  function Field(parts: seq<string>, i: nat, carried: Option<int>): Option<int> {
    if i < |parts| && |parts[i]| > 0 then ParseInt(parts[i]) else carried
  }

  function ItemOf(st: Carried, text: string): string {
    if text == [] then st.prevItem else text
  }

  function Next(st: Carried, text: string): Carried {
    var item := ItemOf(st, text);
    var parts := Split(item, ':');
    Carried(item, Field(parts, 0, st.offset), Field(parts, 1, st.length), Field(parts, 2, st.idx))
  }

  /** The mapping of the current fields; none if a field is missing or malformed, or the file is unknown. */
  function Mapped(files: map<int, SolidityFile>, st: Carried): Option<SourceMapping> {
    if st.offset.None? || st.length.None? || st.idx.None? then None
    else if st.idx.value != -1 && st.idx.value !in files then None
    else
      var o, l, i := st.offset.value, st.length.value, st.idx.value;
      Some(SourceMapping(i, o, l, LineNumber(files, o, l, i), st.prevItem))
  }

  /** The mappings up to the first error, and whether there was none. */
  function Decode(files: map<int, SolidityFile>, st: Carried, srcmap: seq<string>): (seq<SourceMapping>, bool)
    decreases |srcmap|
  {
    if srcmap == [] then ([], true)
    else
      var st' := Next(st, srcmap[0]);
      var m := Mapped(files, st');
      if m.None? then ([], false)
      else
        var (rest, ok) := Decode(files, st', srcmap[1..]);
        ([m.value] + rest, ok)
  }

  class SolidityContract {
    var solcIndices: map<int, SolidityFile>
    var mappings: seq<SourceMapping>
    var constructorMappings: seq<SourceMapping>

    constructor (files: map<int, SolidityFile>)
      ensures solcIndices == files && mappings == [] && constructorMappings == []
    {
      solcIndices, mappings, constructorMappings := files, [], [];
    }

    method Append(m: SourceMapping, isConstructor: bool)
      modifies this`mappings, this`constructorMappings
      ensures mappings == old(mappings) + (if isConstructor then [] else [m])
      ensures constructorMappings == old(constructorMappings) + (if isConstructor then [m] else [])
    {
      if isConstructor {
        constructorMappings := constructorMappings + [m];
      } else {
        mappings := mappings + [m];
      }
    }

    method GetSolcMappings(srcmap: seq<string>, isConstructor: bool) returns (ok: bool)
      modifies this`mappings, this`constructorMappings
      ensures ok == Decode(solcIndices, UNBOUND, srcmap).1
      ensures mappings == old(mappings) + (if isConstructor then [] else Decode(solcIndices, UNBOUND, srcmap).0)
      ensures constructorMappings
        == old(constructorMappings) + (if isConstructor then Decode(solcIndices, UNBOUND, srcmap).0 else [])
    {
      var st := UNBOUND;
      ghost var added: seq<SourceMapping> := [];
      for i := 0 to |srcmap|
        invariant mappings == old(mappings) + (if isConstructor then [] else added)
        invariant constructorMappings == old(constructorMappings) + (if isConstructor then added else [])
        invariant DecodesOn(solcIndices, srcmap, added, st, i)
      {
        DecodesNext(solcIndices, srcmap, added, st, i);
        st := ReadItem(st, srcmap[i]);
        var m := MapCurrent(solcIndices, st);
        if m.None? {
          return false;
        }
        Append(m.value, isConstructor);
        added := added + [m.value];
      }
      DecodesEnd(solcIndices, srcmap, added, st);
      ok := true;
    }
  }

  /** One item updates the fields it gives. */
  method ReadItem(before: Carried, text: string) returns (st: Carried)
    ensures st == Next(before, text)
  {
    var item := if text == [] then before.prevItem else text;
    var mapping := Split(item, ':');
    st := before.(prevItem := item);
    if |mapping| > 0 && |mapping[0]| > 0 { st := st.(offset := ParseInt(mapping[0])); }
    if |mapping| > 1 && |mapping[1]| > 0 { st := st.(length := ParseInt(mapping[1])); }
    if |mapping| > 2 && |mapping[2]| > 0 { st := st.(idx := ParseInt(mapping[2])); }
  }

  method MapCurrent(files: map<int, SolidityFile>, st: Carried) returns (m: Option<SourceMapping>)
    ensures m == Mapped(files, st)
  {
    if st.offset.None? || st.length.None? || st.idx.None? {
      return None;
    }
    var offset, length, idx := st.offset.value, st.length.value, st.idx.value;
    if idx != -1 && idx !in files {
      return None;
    }
    var lineno: Option<nat> := None;
    if !IsAutogenerated(files, offset, length, idx) {
      lineno := Some(Newlines(Before(files[idx].data, offset)) + 1);
    }
    m := Some(SourceMapping(idx, offset, length, lineno, st.prevItem));
  }

  /** After `i` items the mappings are `added`, and decoding goes on from `st`. */
  ghost predicate DecodesOn(
    files: map<int, SolidityFile>, srcmap: seq<string>, added: seq<SourceMapping>, st: Carried, i: nat)
    requires i <= |srcmap|
  {
    var rest := Decode(files, st, srcmap[i..]);
    Decode(files, UNBOUND, srcmap).0 == added + rest.0 && Decode(files, UNBOUND, srcmap).1 == rest.1
  }

  lemma DecodesEnd(files: map<int, SolidityFile>, srcmap: seq<string>, added: seq<SourceMapping>, st: Carried)
    requires DecodesOn(files, srcmap, added, st, |srcmap|)
    ensures Decode(files, UNBOUND, srcmap) == (added, true)
  {
    assert added + [] == added;
  }

  lemma DecodesNext(files: map<int, SolidityFile>, srcmap: seq<string>, added: seq<SourceMapping>, st: Carried, i: nat)
    requires i < |srcmap| && DecodesOn(files, srcmap, added, st, i)
    ensures match Mapped(files, Next(st, srcmap[i]))
      case Some(m) => DecodesOn(files, srcmap, added + [m], Next(st, srcmap[i]), i + 1)
      case None => Decode(files, UNBOUND, srcmap) == (added, false)
  {
    var rest := srcmap[i..];
    assert rest[0] == srcmap[i] && rest[1..] == srcmap[i + 1..];
    var st' := Next(st, srcmap[i]);
    match Mapped(files, st')
    case None =>
      assert added + Decode(files, st, rest).0 == added;
    case Some(m) =>
      var later := Decode(files, st', srcmap[i + 1..]).0;
      assert Decode(files, st, rest).0 == [m] + later;
      assert added + ([m] + later) == (added + [m]) + later;
  }

  // ---------------------------------------------------------------------------------------
  // Compression

  datatype Entry = Entry(offset: int, length: int, idx: int)

  /** Field `i` is written in full, or left out because the entry before has the same value. */
  predicate Writes(fields: seq<string>, i: nat, value: int, before: Option<int>) {
    if i < |fields| && |fields[i]| > 0 then fields[i] == Decimal(value) else before == Some(value)
  }

  /** Any fields after the third (jump type, modifier depth) may follow. */
  predicate WritesEntry(fields: seq<string>, e: Entry, before: Option<Entry>) {
    && |fields| >= 1 && Free(fields, ':')
    && Writes(fields, 0, e.offset, if before.None? then None else Some(before.value.offset))
    && Writes(fields, 1, e.length, if before.None? then None else Some(before.value.length))
    && Writes(fields, 2, e.idx, if before.None? then None else Some(before.value.idx))
  }

  /** `fields` is one of the ways to compress `entries`, which come after `before`. */
  predicate Compresses(fields: seq<seq<string>>, entries: seq<Entry>, before: Option<Entry>) {
    && |fields| == |entries|
    && (entries != [] ==>
          WritesEntry(fields[0], entries[0], before) && Compresses(fields[1..], entries[1..], Some(entries[0])))
  }

  function Items(fields: seq<seq<string>>): seq<string>
    requires forall k :: 0 <= k < |fields| ==> |fields[k]| >= 1
  {
    if fields == [] then [] else [Join(fields[0], ':')] + Items(fields[1..])
  }

  /** A field of the previous item, if given, is the value carried. */
  predicate Repeats(parts: seq<string>, i: nat, value: int) {
    i < |parts| && |parts[i]| > 0 ==> ParseInt(parts[i]) == Some(value)
  }

  /** The loop's variables hold the entry before, and its item can be read again. */
  predicate Tracks(st: Carried, before: Option<Entry>) {
    match before
    case None => st == UNBOUND
    case Some(e) =>
      && st.offset == Some(e.offset) && st.length == Some(e.length) && st.idx == Some(e.idx)
      && var parts := Split(st.prevItem, ':');
         Repeats(parts, 0, e.offset) && Repeats(parts, 1, e.length) && Repeats(parts, 2, e.idx)
  }

  lemma WrittenField(parts: seq<string>, i: nat, value: int, before: Option<int>)
    requires Writes(parts, i, value, before)
    ensures Field(parts, i, before) == Some(value) && Repeats(parts, i, value)
  {
    ParseOfDecimal(value);
  }

  lemma NextTracks(st: Carried, fields: seq<string>, e: Entry, before: Option<Entry>)
    requires Tracks(st, before) && WritesEntry(fields, e, before)
    ensures Tracks(Next(st, Join(fields, ':')), Some(e))
  {
    var text := Join(fields, ':');
    if text == [] {
      assert before == Some(e);
    } else {
      SplitJoin(fields, ':');
      WrittenField(fields, 0, e.offset, st.offset);
      WrittenField(fields, 1, e.length, st.length);
      WrittenField(fields, 2, e.idx, st.idx);
    }
  }

  predicate Known(files: map<int, SolidityFile>, entries: seq<Entry>) {
    forall k :: 0 <= k < |entries| ==> entries[k].idx == -1 || entries[k].idx in files
  }

  predicate Decoded(files: map<int, SolidityFile>, e: Entry, m: SourceMapping)
    requires e.idx == -1 || e.idx in files
  {
    && m.offset == e.offset && m.length == e.length && m.fileIndex == e.idx
    && m.lineno == LineNumber(files, e.offset, e.length, e.idx)
  }

  predicate AllDecoded(files: map<int, SolidityFile>, entries: seq<Entry>, ms: seq<SourceMapping>)
    requires Known(files, entries)
  {
    |ms| == |entries| && forall k :: 0 <= k < |entries| ==> Decoded(files, entries[k], ms[k])
  }

  predicate KeepsItem(ms: seq<SourceMapping>, items: seq<string>, prevItem: string, k: nat) {
    && k < |ms| && k < |items|
    && ms[k].item == (if items[k] != [] then items[k] else if k == 0 then prevItem else ms[k - 1].item)
  }

  /** Each mapping keeps its item as it was written; a blank one stands for the item before. */
  predicate KeepsItems(ms: seq<SourceMapping>, items: seq<string>, prevItem: string) {
    forall k: nat :: k < |ms| ==> KeepsItem(ms, items, prevItem, k)
  }

  lemma DecodeCons(files: map<int, SolidityFile>, st: Carried, text: string, more: seq<string>)
    requires Mapped(files, Next(st, text)).Some?
    ensures var d, rest := Decode(files, st, [text] + more), Decode(files, Next(st, text), more);
      d.0 == [Mapped(files, Next(st, text)).value] + rest.0 && d.1 == rest.1
  {
    assert ([text] + more)[1..] == more;
  }

  lemma KeepsCons(m: SourceMapping, ms: seq<SourceMapping>, text: string, items: seq<string>, prevItem: string)
    requires m.item == (if text != [] then text else prevItem) && KeepsItems(ms, items, m.item)
    ensures KeepsItems([m] + ms, [text] + items, prevItem)
  {
    var all, texts := [m] + ms, [text] + items;
    forall k: nat | k < |all| ensures KeepsItem(all, texts, prevItem, k) {
      if k == 0 {
      } else {
        var j: nat := k - 1;
        assert KeepsItem(ms, items, m.item, j);
        assert all[k] == ms[j] && texts[k] == items[j] && all[j] == if j == 0 then m else ms[j - 1];
      }
    }
  }

  lemma AllDecodedCons(files: map<int, SolidityFile>, entries: seq<Entry>, m: SourceMapping, ms: seq<SourceMapping>)
    requires entries != [] && Known(files, entries) && Decoded(files, entries[0], m)
    requires Known(files, entries[1..]) && AllDecoded(files, entries[1..], ms)
    ensures AllDecoded(files, entries, [m] + ms)
  {
    forall k | 0 <= k < |entries| ensures Decoded(files, entries[k], ([m] + ms)[k]) {
      if k > 0 { assert entries[k] == entries[1..][k - 1]; }
    }
  }

  /** What the loop makes of `items` is `ms`, and then what it makes of `more`. */
  predicate DecodesFirst(files: map<int, SolidityFile>, st: Carried, items: seq<string>, ms: seq<SourceMapping>,
                         end: Carried, more: seq<string>) {
    var d, rest := Decode(files, st, items + more), Decode(files, end, more);
    d.0 == ms + rest.0 && d.1 == rest.1
  }

  lemma DecodesFirstCons(files: map<int, SolidityFile>, st: Carried, text: string, items: seq<string>,
                         ms: seq<SourceMapping>, end: Carried, more: seq<string>)
    requires Mapped(files, Next(st, text)).Some? && DecodesFirst(files, Next(st, text), items, ms, end, more)
    ensures DecodesFirst(files, st, [text] + items, [Mapped(files, Next(st, text)).value] + ms, end, more)
  {
    var m := Mapped(files, Next(st, text)).value;
    DecodeCons(files, st, text, items + more);
    assert [text] + items + more == [text] + (items + more);
    assert [m] + ms + Decode(files, end, more).0 == [m] + (ms + Decode(files, end, more).0);
  }

  lemma DecodesNone(files: map<int, SolidityFile>, st: Carried, items: seq<string>, ms: seq<SourceMapping>, more: seq<string>)
    requires items == [] && ms == []
    ensures DecodesFirst(files, st, items, ms, st, more)
  {
    assert items + more == more;
    assert ms + Decode(files, st, more).0 == Decode(files, st, more).0;
  }

  lemma FirstMapping(files: map<int, SolidityFile>, st: Carried, before: Option<Entry>, fields: seq<string>, e: Entry)
    requires Tracks(st, before) && WritesEntry(fields, e, before) && (e.idx == -1 || e.idx in files)
    ensures var text := Join(fields, ':');
      && Tracks(Next(st, text), Some(e)) && Mapped(files, Next(st, text)).Some?
      && Decoded(files, e, Mapped(files, Next(st, text)).value)
      && Mapped(files, Next(st, text)).value.item == (if text != [] then text else st.prevItem)
      && Next(st, text).prevItem == Mapped(files, Next(st, text)).value.item
  {
    NextTracks(st, fields, e, before);
  }

  /** The mappings of the entries, and the variables of the loop after them. */
  lemma {:induction false} DecodeFrom(
    files: map<int, SolidityFile>, st: Carried, before: Option<Entry>, fields: seq<seq<string>>, entries: seq<Entry>,
    more: seq<string>) returns (ms: seq<SourceMapping>, end: Carried)
    requires Compresses(fields, entries, before) && Known(files, entries) && Tracks(st, before)
    requires forall k :: 0 <= k < |fields| ==> |fields[k]| >= 1
    ensures AllDecoded(files, entries, ms) && KeepsItems(ms, Items(fields), st.prevItem)
    ensures DecodesFirst(files, st, Items(fields), ms, end, more)
    decreases |entries|
  {
    if entries == [] {
      ms, end := [], st;
      DecodesNone(files, st, Items(fields), ms, more);
    } else {
      var text := Join(fields[0], ':');
      FirstMapping(files, st, before, fields[0], entries[0]);
      var m := Mapped(files, Next(st, text)).value;
      var later;
      later, end := DecodeFrom(files, Next(st, text), Some(entries[0]), fields[1..], entries[1..], more);
      ms := [m] + later;
      AllDecodedCons(files, entries, m, later);
      KeepsCons(m, later, text, Items(fields[1..]), st.prevItem);
      DecodesFirstCons(files, st, text, Items(fields[1..]), later, end, more);
    }
  }

  /** Decoding any compression of a list of entries gives the list back. */
  lemma DecodeInverts(files: map<int, SolidityFile>, fields: seq<seq<string>>, entries: seq<Entry>)
    requires |entries| >= 1 && Compresses(fields, entries, None) && Known(files, entries)
    requires (forall k :: 0 <= k < |fields| ==> |fields[k]| >= 1) && Free(Items(fields), ';')
    ensures DecodesTo(files, Join(Items(fields), ';'), entries)
  {
    SplitJoin(Items(fields), ';');
    var ms, end := DecodeFrom(files, UNBOUND, None, fields, entries, []);
    assert Items(fields) + [] == Items(fields) && ms + [] == ms;
  }

  /** The text of a source map decodes, without error, to these entries. */
  predicate DecodesTo(files: map<int, SolidityFile>, text: string, entries: seq<Entry>)
    requires Known(files, entries)
  {
    var items := Split(text, ';');
    var (ms, ok) := Decode(files, UNBOUND, items);
    ok && AllDecoded(files, entries, ms) && KeepsItems(ms, items, [])
  }

  /** An item with a field that is no number, or an unknown file. */
  predicate IsBad(files: map<int, SolidityFile>, fields: seq<string>) {
    || (exists i: nat :: i < 3 && i < |fields| && fields[i] != [] && !IsNumeral(fields[i]))
    || (|fields| > 2 && fields[2] != [] && ParseInt(fields[2]).Some?
        && ParseInt(fields[2]).value != -1 && ParseInt(fields[2]).value !in files)
  }

  /** The first bad item ends the loop with an error; the mappings before it stay. */
  lemma StopsAtError(files: map<int, SolidityFile>, fields: seq<seq<string>>, entries: seq<Entry>,
                     bad: seq<string>, more: seq<string>)
    requires Compresses(fields, entries, None) && Known(files, entries)
    requires forall k :: 0 <= k < |fields| ==> |fields[k]| >= 1
    requires |bad| >= 1 && Free(bad, ':') && IsBad(files, bad)
    ensures var (ms, ok) := Decode(files, UNBOUND, Items(fields) + ([Join(bad, ':')] + more));
      !ok && AllDecoded(files, entries, ms)
  {
    var rest := [Join(bad, ':')] + more;
    var ms, end := DecodeFrom(files, UNBOUND, None, fields, entries, rest);
    BadItem(files, end, bad, more);
    StopsWith(files, Items(fields), ms, end, rest);
  }

  lemma StopsWith(files: map<int, SolidityFile>, items: seq<string>, ms: seq<SourceMapping>, end: Carried, more: seq<string>)
    requires DecodesFirst(files, UNBOUND, items, ms, end, more) && Decode(files, end, more) == ([], false)
    ensures Decode(files, UNBOUND, items + more) == (ms, false)
  {
    assert ms + [] == ms;
  }

  lemma BadItem(files: map<int, SolidityFile>, st: Carried, bad: seq<string>, more: seq<string>)
    requires |bad| >= 1 && Free(bad, ':') && IsBad(files, bad)
    ensures Decode(files, st, [Join(bad, ':')] + more) == ([], false)
  {
    var text := Join(bad, ':');
    SplitJoin(bad, ':');
    assert Split([], ':') == [[]];
    assert ([text] + more)[0] == text;
    forall i: nat | i < |bad| ensures ParseInt(bad[i]).Some? <==> IsNumeral(bad[i]) { ParsesExactly(bad[i]); }
  }

  /** A map whose first item leaves out one of its three fields is an error, also the empty one. */
  lemma FirstMustBeFull(files: map<int, SolidityFile>, fields: seq<string>, rest: seq<string>)
    requires |fields| >= 1 && Free(fields, ':')
    requires exists i: nat :: i < 3 && (i >= |fields| || |fields[i]| == 0)
    ensures Decode(files, UNBOUND, [Join(fields, ':')] + rest) == ([], false)
  {
    var text := Join(fields, ':');
    SplitJoin(fields, ':');
    assert Split([], ':') == [[]];
    assert ([text] + rest)[0] == text;
  }

  // ---------------------------------------------------------------------------------------
  // Line numbers

  lemma {:induction false} NewlinesAppend(a: seq<Byte>, b: seq<Byte>)
    ensures Newlines(a + b) == Newlines(a) + Newlines(b)
  {
    if b == [] {
      assert a + b == a;
    } else {
      assert (a + b)[..|a + b| - 1] == a + b[..|b| - 1];
      NewlinesAppend(a, b[..|b| - 1]);
    }
  }

  /** The newlines in `data`. */
  lemma {:induction false} NewlinesExactly(data: seq<Byte>)
    ensures Newlines(data) == |set k: nat | k < |data| && data[k] == 10|
  {
    if data == [] {
    } else {
      var n := |data| - 1;
      NewlinesExactly(data[..n]);
      assert (set k: nat | k < |data| && data[k] == 10)
          == (set k: nat | k < n && data[..n][k] == 10) + if data[n] == 10 then {n} else {};
    }
  }

  /** Code that the compiler generated has no line; the line of any other offset is one more than the newlines before
      it, where a negative offset counts from the end. */
  lemma LineIs(files: map<int, SolidityFile>, offset: int, length: int, idx: int)
    requires idx == -1 || idx in files
    ensures LineNumber(files, offset, length, idx).None?
      <==> idx == -1 || Join([Decimal(offset), Decimal(length), Decimal(idx)], ':') in files[idx].fullContractSrcMaps
    ensures LineNumber(files, offset, length, idx).Some? ==>
      var data := files[idx].data;
      var end := if offset < 0 then |data| + offset else offset;
      LineNumber(files, offset, length, idx).value == 1 + |set k: nat | k < |data| && k < end && data[k] == 10|
  {
    JoinThree(Decimal(offset), Decimal(length), Decimal(idx));
    if LineNumber(files, offset, length, idx).Some? {
      var data := files[idx].data;
      var end := if offset < 0 then |data| + offset else offset;
      NewlinesExactly(Before(data, offset));
      assert (set k: nat | k < |Before(data, offset)| && Before(data, offset)[k] == 10)
          == set k: nat | k < |data| && k < end && data[k] == 10;
    }
  }

  lemma JoinThree(a: string, b: string, c: string)
    ensures Join([a, b, c], ':') == a + [':'] + b + [':'] + c
  {
    assert [a, b, c][1..] == [b, c] && [b, c][1..] == [c];
    assert Join([b, c], ':') == b + [':'] + c;
  }

  /** Two lines of one file differ by the newlines between the offsets; so they are ordered as the offsets. */
  lemma LinesFollowOffsets(files: map<int, SolidityFile>, a: Entry, b: Entry)
    requires a.idx == b.idx && a.idx in files && 0 <= a.offset <= b.offset
    requires !IsAutogenerated(files, a.offset, a.length, a.idx) && !IsAutogenerated(files, b.offset, b.length, b.idx)
    ensures var first, last := LineNumber(files, a.offset, a.length, a.idx), LineNumber(files, b.offset, b.length, b.idx);
      last.value == first.value + Newlines(Between(files[a.idx].data, a.offset, b.offset))
  {
    var data := files[a.idx].data;
    assert Before(data, b.offset) == Before(data, a.offset) + Between(data, a.offset, b.offset);
    NewlinesAppend(Before(data, a.offset), Between(data, a.offset, b.offset));
  }

  /** The bytes from `lo` up to `hi`, as far as there are any. */
  function Between(data: seq<Byte>, lo: nat, hi: nat): seq<Byte>
    requires lo <= hi
  {
    if hi <= |data| then data[lo..hi] else if lo <= |data| then data[lo..] else []
  }
}
