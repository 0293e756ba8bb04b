/** Slots and offsets of state variables: `_compute_storage_layout`. */
module StorageLayout {

  /** The size in bytes of a variable, and whether it must start in a new slot. */
  datatype Size = Size(bytes: nat, newSlot: bool)

  datatype Variable = Variable(name: string, size: Size)

  datatype Position = Position(slot: nat, offset: nat)

  function Slots(bytes: nat): (n: nat)
    ensures 32 * n >= bytes && (n > 0 ==> 32 * (n - 1) < bytes)
  {
    (bytes + 31) / 32
  }

  // ---------------------------------------------------------------------------------------
  // Packing

  /** Where a variable goes when the next free byte is `next`. */
  function Place(next: Position, size: Size): Position {
    if size.newSlot then
      if next.offset > 0 then Position(next.slot + 1, 0) else next
    else if size.bytes + next.offset > 32 then Position(next.slot + 1, 0)
    else next
  }

  /** The next free byte after a variable placed at `p`. */
  function After(p: Position, size: Size): Position {
    if size.newSlot then Position(p.slot + Slots(size.bytes), p.offset) else Position(p.slot, p.offset + size.bytes)
  }

  function Positions(vars: seq<Variable>, next: Position): (r: seq<Position>)
    ensures |r| == |vars|
  {
    if vars == [] then []
    else
      var p := Place(next, vars[0].size);
      [p] + Positions(vars[1..], After(p, vars[0].size))
  }

  function Layout(vars: seq<Variable>, at: seq<Position>): map<string, Position>
    requires |vars| == |at|
  {
    if vars == [] then map[]
    else Layout(vars[..|vars| - 1], at[..|vars| - 1])[vars[|vars| - 1].name := at[|vars| - 1]]
  }

  class CompilationUnit {
    var persistentLayouts: map<string, map<string, Position>>
    var transientLayouts: map<string, map<string, Position>>

    method ComputeStorageLayout(contract: string, vars: seq<Variable>, isTransient: bool, customLayout: nat)
      modifies this
      ensures var base := if isTransient then 0 else customLayout;
        var layout := Layout(vars, Positions(vars, Position(base, 0)));
        if isTransient
        then transientLayouts == old(transientLayouts)[contract := layout] && persistentLayouts == old(persistentLayouts)
        else persistentLayouts == old(persistentLayouts)[contract := layout] && transientLayouts == old(transientLayouts)
    {
      var slot: nat;
      if isTransient {
        slot := 0;
        transientLayouts := transientLayouts[contract := map[]];
      } else {
        slot := customLayout;
        persistentLayouts := persistentLayouts[contract := map[]];
      }
      var offset: nat := 0;
      ghost var all := Positions(vars, Position(slot, 0));
      ghost var layout: map<string, Position> := map[];
      for i := 0 to |vars|
        invariant all[i..] == Positions(vars[i..], Position(slot, offset))
        invariant layout == Layout(vars[..i], all[..i])
        invariant if isTransient
          then transientLayouts == old(transientLayouts)[contract := layout] && persistentLayouts == old(persistentLayouts)
          else persistentLayouts == old(persistentLayouts)[contract := layout] && transientLayouts == old(transientLayouts)
      {
        var size, newSlot := vars[i].size.bytes, vars[i].size.newSlot;
        PositionsStep(vars, all, i, Position(slot, offset));
        if newSlot {
          if offset > 0 {
            slot := slot + 1;
            offset := 0;
          }
        } else if size + offset > 32 {
          slot := slot + 1;
          offset := 0;
        }
        assert Position(slot, offset) == all[i];
        Replaced(if isTransient then old(transientLayouts) else old(persistentLayouts), contract,
                 layout, layout[vars[i].name := Position(slot, offset)]);
        layout := layout[vars[i].name := Position(slot, offset)];
        if isTransient {
          transientLayouts := transientLayouts[contract := transientLayouts[contract][vars[i].name := Position(slot, offset)]];
        } else {
          persistentLayouts := persistentLayouts[contract := persistentLayouts[contract][vars[i].name := Position(slot, offset)]];
        }
        if newSlot {
          slot := slot + Slots(size);
        } else {
          offset := offset + size;
        }
        assert Position(slot, offset) == After(all[i], vars[i].size);
      }
      assert vars[..|vars|] == vars && all[..|vars|] == all;
    }
  }

  lemma Replaced(m: map<string, map<string, Position>>, k: string, a: map<string, Position>, b: map<string, Position>)
    ensures m[k := a][k := b] == m[k := b]
  {
  }

  lemma PositionsStep(vars: seq<Variable>, all: seq<Position>, i: nat, next: Position)
    requires i < |vars| == |all| && all[i..] == Positions(vars[i..], next)
    ensures all[i] == Place(next, vars[i].size)
    ensures all[i + 1..] == Positions(vars[i + 1..], After(all[i], vars[i].size))
    ensures Layout(vars[..i + 1], all[..i + 1]) == Layout(vars[..i], all[..i])[vars[i].name := all[i]]
  {
    assert vars[i..][1..] == vars[i + 1..] && all[i..][1..] == all[i + 1..];
    assert vars[..i + 1][..i] == vars[..i] && all[..i + 1][..i] == all[..i];
  }

  // ---------------------------------------------------------------------------------------
  // What the positions mean

  /** The first byte of a variable, counted from the start of storage. */
  function Start(p: Position): nat { 32 * p.slot + p.offset }

  /** The first byte after it; a variable with a slot of its own takes whole slots. */
  function End(p: Position, size: Size): nat {
    if size.newSlot then 32 * (p.slot + Slots(size.bytes)) else Start(p) + size.bytes
  }

  predicate Fits(vars: seq<Variable>) {
    forall i :: 0 <= i < |vars| && !vars[i].size.newSlot ==> vars[i].size.bytes <= 32
  }

  /** A layout that keeps the order of the variables, lets no packed variable cross a slot, and
      gives the others slots of their own. */
  ghost predicate Valid(vars: seq<Variable>, at: seq<Position>, first: nat) {
    && |at| == |vars|
    && (forall i :: 0 <= i < |vars| ==> Start(at[i]) >= first)
    && (forall i :: 0 <= i < |vars| ==>
          if vars[i].size.newSlot then at[i].offset == 0 else at[i].offset + vars[i].size.bytes <= 32)
    && (forall i, j :: 0 <= i < j < |vars| ==> End(at[i], vars[i].size) <= Start(at[j]))
  }

  predicate AtMost(p: Position, q: Position) {
    p.slot < q.slot || (p.slot == q.slot && p.offset <= q.offset)
  }

  /** The computed layout is valid: ranges are disjoint and in order, and the rest of the slots of
      a variable that needs its own stays empty. */
  lemma {:induction false} LayoutIsValid(vars: seq<Variable>, next: Position)
    requires Fits(vars) && next.offset <= 32
    ensures Valid(vars, Positions(vars, next), Start(next))
  {
    if vars == [] {
    } else {
      var p := Place(next, vars[0].size);
      var rest := After(p, vars[0].size);
      assert rest.offset <= 32 && Start(p) >= Start(next) && End(p, vars[0].size) == Start(rest);
      LayoutIsValid(vars[1..], rest);
      var at := Positions(vars, next);
      forall i | 0 < i < |vars| ensures at[i] == Positions(vars[1..], rest)[i - 1] && vars[i] == vars[1..][i - 1] {}
    }
  }

  lemma PlaceIsEarliest(next: Position, v: Size, q: Position)
    requires next.offset <= 32 && Start(q) >= Start(next)
    requires if v.newSlot then q.offset == 0 else q.offset + v.bytes <= 32 && v.bytes <= 32
    ensures var p := Place(next, v);
      && Start(p) <= Start(q) && (v.bytes > 0 ==> AtMost(p, q))
      && After(p, v).offset <= 32 && Start(After(p, v)) <= End(q, v)
  {
  }

  lemma TailIsValid(vars: seq<Variable>, at: seq<Position>, first: nat)
    requires vars != [] && Valid(vars, at, first)
    ensures Valid(vars[1..], at[1..], End(at[0], vars[0].size))
  {
    forall i | 0 <= i < |vars[1..]| ensures at[1..][i] == at[i + 1] && vars[1..][i] == vars[i + 1] {}
  }

  /** And no valid layout puts any variable earlier. */
  lemma {:induction false} LayoutIsOptimal(vars: seq<Variable>, next: Position, other: seq<Position>, first: nat)
    requires Fits(vars) && next.offset <= 32 && Start(next) <= first && Valid(vars, other, first)
    ensures forall i :: 0 <= i < |vars| ==> Start(Positions(vars, next)[i]) <= Start(other[i])
    ensures forall i :: 0 <= i < |vars| && vars[i].size.bytes > 0 ==> AtMost(Positions(vars, next)[i], other[i])
  {
    if vars == [] {
    } else {
      var v := vars[0].size;
      var p := Place(next, v);
      var rest := After(p, v);
      PlaceIsEarliest(next, v, other[0]);
      TailIsValid(vars, other, first);
      LayoutIsOptimal(vars[1..], rest, other[1..], End(other[0], v));
      assert Positions(vars, next) == [p] + Positions(vars[1..], rest);
      forall i | 0 < i < |vars|
        ensures Positions(vars, next)[i] == Positions(vars[1..], rest)[i - 1] && other[i] == other[1..][i - 1]
        ensures vars[i] == vars[1..][i - 1]
      {
      }
    }
  }

  lemma {:induction false} LayoutNames(vars: seq<Variable>, at: seq<Position>, name: string)
    requires |vars| == |at|
    ensures name in Layout(vars, at) <==> exists i :: 0 <= i < |vars| && vars[i].name == name
  {
    if vars == [] {
    } else {
      var n := |vars| - 1;
      LayoutNames(vars[..n], at[..n], name);
      if i :| 0 <= i < |vars| && vars[i].name == name { assert i == n || vars[..n][i].name == name; }
    }
  }

  /** A variable whose name no later one repeats is found at its position. */
  lemma {:induction false} LayoutFinds(vars: seq<Variable>, at: seq<Position>, i: nat)
    requires |vars| == |at| && i < |vars| && forall j :: i < j < |vars| ==> vars[j].name != vars[i].name
    ensures vars[i].name in Layout(vars, at) && Layout(vars, at)[vars[i].name] == at[i]
  {
    if |vars| - 1 <= i {
    } else {
      LayoutFinds(vars[..|vars| - 1], at[..|vars| - 1], i);
    }
  }
}

/** The `storage_size` of types, against the rules of the Solidity documentation, "Layout of State
    Variables in Storage". */
module StorageSize {
  import opened StorageLayout

  /** `bits` is absent for `string` and `bytes`; an array without length is dynamic. */
  datatype Type =
    | Elementary(bits: int)
    | Dynamic
    | ContractRef
    | ExternalFunction
    | InternalFunction
    | Enum(values: nat)
    | Mapping
    | Struct(elems: seq<Type>)
    | FixedArray(elem: Type, length: nat)

  predicate WellFormed(t: Type) {
    match t
    case Elementary(bits) => 8 <= bits <= 256 && bits % 8 == 0
    case Enum(values) => 1 <= values <= 256
    case Struct(elems) => forall i :: 0 <= i < |elems| ==> WellFormed(elems[i])
    case FixedArray(elem, length) => WellFormed(elem) && length > 0
    case _ => true
  }

  /** The bytes that hold `n` different values, `ceil(log2(n) / 8)`. */
  function EnumBytes(n: nat): nat
    requires 1 <= n <= 256
  {
    if n == 1 then 0 else 1
  }

  // What the source computes

  function SizeOf(t: Type): Size
    requires WellFormed(t)
    decreases t, 1
  {
    match t
    case Elementary(bits) => Size(bits / 8, false)
    case ContractRef => Size(20, false)
    case ExternalFunction => Size(24, false)
    case InternalFunction => Size(24, false)
    case Enum(values) => Size(EnumBytes(values), false)
    case Struct(elems) => Size(32 * SlotsOfElems(elems, Position(0, 0)), true)
    case FixedArray(elem, length) => Size(SizeOf(elem).bytes * length, true)
    case _ => Size(32, true)
  }

  function SlotsOfElems(elems: seq<Type>, next: Position): nat
    requires forall i :: 0 <= i < |elems| ==> WellFormed(elems[i])
    decreases elems, 0
  {
    if elems == [] then next.slot + (if next.offset > 0 then 1 else 0)
    else SlotsOfElems(elems[1..], After(Place(next, SizeOf(elems[0])), SizeOf(elems[0])))
  }

  // What Solidity does: an enum takes at least one byte, a pointer to an internal function eight, and
  // the elements of an array are packed like variables, or take whole slots

  function PerSlot(bytes: nat): (k: nat)
    requires 1 <= bytes <= 32
    ensures k >= 1 && k * bytes <= 32 < (k + 1) * bytes
  {
    32 / bytes
  }

  /** Slots for `n` packed elements, `k` to a slot. */
  function SlotsFor(n: nat, k: nat): nat
    requires k >= 1
  {
    (n + k - 1) / k
  }

  /** Bytes that may share a slot, or slots that may not be shared. */
  datatype Extent = Packed(bytes: nat) | Whole(slots: nat)

  function SizeOfExtent(x: Extent): Size {
    match x
    case Packed(bytes) => Size(bytes, false)
    case Whole(slots) => Size(32 * slots, true)
  }

  function SolidityExtent(t: Type): (x: Extent)
    requires WellFormed(t)
    ensures x.Packed? ==> 1 <= x.bytes <= 32
    decreases t, 1
  {
    match t
    case Elementary(bits) => Packed(bits / 8)
    case ContractRef => Packed(20)
    case ExternalFunction => Packed(24)
    case InternalFunction => Packed(8)
    case Enum(values) => Packed(1)
    case Struct(elems) => Whole(SoliditySlots(elems, Position(0, 0)))
    case FixedArray(elem, length) =>
      (match SolidityExtent(elem)
       case Packed(bytes) => Whole(SlotsFor(length, PerSlot(bytes)))
       case Whole(slots) => Whole(slots * length))
    case _ => Whole(1)
  }

  function SoliditySize(t: Type): Size
    requires WellFormed(t)
    decreases t, 2
  {
    SizeOfExtent(SolidityExtent(t))
  }

  function SoliditySlots(elems: seq<Type>, next: Position): nat
    requires forall i :: 0 <= i < |elems| ==> WellFormed(elems[i])
    decreases elems, 0
  {
    if elems == [] then next.slot + (if next.offset > 0 then 1 else 0)
    else SoliditySlots(elems[1..], After(Place(next, SoliditySize(elems[0])), SoliditySize(elems[0])))
  }

  // ---------------------------------------------------------------------------------------
  // Where the two agree

  /** Both give the same size, in bytes or in slots. */
  predicate Agrees(t: Type)
    requires WellFormed(t)
  {
    match SolidityExtent(t)
    case Packed(bytes) => SizeOf(t) == Size(bytes, false)
    case Whole(slots) => SizeOf(t).newSlot && Slots(SizeOf(t).bytes) == slots
  }

  /** `elem * n` bytes need as many slots as `n` elements: the bytes that Solidity leaves free at
      the end of full slots do not add up to the last, partly filled slot; and what an element with
      slots of its own leaves free does not add up to a slot. */
  predicate FillsItsSlots(elem: Size, n: nat)
    requires n > 0 && (elem.newSlot || 1 <= elem.bytes <= 32)
  {
    if elem.newSlot then n * (32 * Slots(elem.bytes) - elem.bytes) < 32
    else
      var k := PerSlot(elem.bytes);
      var full := (n - 1) / k;
      full * (32 - k * elem.bytes) < (n - full * k) * elem.bytes
  }

  lemma PackedArray(e: nat, n: nat)
    requires 1 <= e <= 32 && n > 0
    ensures Slots(e * n) <= SlotsFor(n, PerSlot(e))
    ensures Slots(e * n) == SlotsFor(n, PerSlot(e)) <==> FillsItsSlots(Size(e, false), n)
  {
    var k := PerSlot(e);
    LastOfFull(n, k);
    PackedWith(e, n, k, (n - 1) / k);
  }

  lemma PackedWith(e: nat, n: nat, k: nat, full: nat)
    requires k >= 1 && k * e <= 32 && 1 <= n - full * k <= k
    ensures Slots(e * n) <= SlotsFor(n, k)
    ensures Slots(e * n) == SlotsFor(n, k) <==> full * (32 - k * e) < (n - full * k) * e
  {
    var rest := n - full * k;
    SlotsOfQuotient(n, k, full, rest);
    BytesOfQuotient(e, n, k, full, rest);
    SlotsOfBytes(e * n, full, full * (32 - k * e), rest * e);
  }

  lemma LastOfFull(n: nat, k: nat)
    requires n > 0 && k >= 1
    ensures 1 <= n - (n - 1) / k * k <= k
  {
    assert n - 1 == k * ((n - 1) / k) + (n - 1) % k;
  }

  lemma SlotsOfBytes(bytes: nat, full: nat, free: nat, last: nat)
    requires bytes == 32 * full - free + last && last <= 32
    ensures Slots(bytes) <= full + 1
    ensures Slots(bytes) == full + 1 <==> free < last
  {
  }

  lemma BytesOfQuotient(e: nat, n: nat, k: nat, full: nat, rest: nat)
    requires n == full * k + rest && 1 <= rest <= k && k * e <= 32
    ensures e * n == 32 * full - full * (32 - k * e) + rest * e
    ensures rest * e <= 32 && full * (32 - k * e) >= 0
  {
    assert e * n == full * (k * e) + rest * e;
    assert rest * e <= k * e;
  }

  lemma SlotsOfQuotient(n: nat, k: nat, full: nat, rest: nat)
    requires k >= 1 && n == full * k + rest && 1 <= rest <= k
    ensures SlotsFor(n, k) == full + 1
  {
    assert n + k - 1 == (full + 1) * k + (rest - 1);
    DivideSum(full + 1, k, rest - 1);
  }

  lemma DivideSum(q: nat, k: nat, r: nat)
    requires r < k
    ensures (q * k + r) / k == q
  {
    var n := q * k + r;
    var x, m := n / k, n % k;
    assert n == x * k + m && 0 <= m < k;
    Quotients(q, x, k, r, m);
  }

  lemma Quotients(q: int, x: int, k: int, r: int, m: int)
    requires q * k + r == x * k + m && 0 <= r < k && 0 <= m < k
    ensures q == x
  {
    Distribute(x, q, k);
    if x > q {
      AtLeastOne(x - q, k);
    } else if x < q {
      Distribute(q, x, k);
      AtLeastOne(q - x, k);
    }
  }

  lemma Distribute(x: int, q: int, k: int)
    ensures (x - q) * k == x * k - q * k
  {
  }

  lemma AtLeastOne(d: int, k: int)
    requires d >= 1 && k >= 1
    ensures d * k >= k
  {
    Distribute(d, 1, k);
    assert (d - 1) * k >= 0;
  }

  lemma OwnSlotsArray(b: nat, n: nat)
    requires n > 0
    ensures Slots(b * n) <= n * Slots(b)
    ensures Slots(b * n) == n * Slots(b) <==> FillsItsSlots(Size(b, true), n)
  {
    var c := Slots(b);
    var free := 32 * c - b;
    assert b * n == 32 * (n * c) - n * free by { assert b * n == (32 * c - free) * n; }
    assert n * free >= 0;
  }

  /** For an element of the right size. */
  lemma SlotsOfSize(elem: Size, slots: nat, n: nat, x: Extent)
    requires n > 0
    requires match x
      case Packed(bytes) => 1 <= bytes <= 32 && elem == Size(bytes, false) && slots == SlotsFor(n, PerSlot(bytes))
      case Whole(each) => elem.newSlot && Slots(elem.bytes) == each && slots == each * n
    ensures Slots(elem.bytes * n) == slots <==> FillsItsSlots(elem, n)
  {
    match x
    case Packed(bytes) => PackedArray(bytes, n);
    case Whole(_) => OwnSlotsArray(elem.bytes, n);
  }

  /** For an element that is given less than it takes. */
  lemma SlotsOfSmaller(elem: Size, slots: nat, n: nat, x: Extent)
    requires n > 0
    requires match x
      case Packed(bytes) => 1 <= bytes <= 32 && elem.bytes <= bytes && slots == SlotsFor(n, PerSlot(bytes))
      case Whole(each) => Slots(elem.bytes) <= each && slots == each * n
    ensures Slots(elem.bytes * n) <= slots
    ensures x.Packed? && elem.bytes == 0 ==> Slots(elem.bytes * n) < slots
    ensures x.Whole? && Slots(elem.bytes) < x.slots ==> Slots(elem.bytes * n) < slots
  {
    match x
    case Packed(bytes) =>
      PackedArray(bytes, n);
      MoreBytes(elem.bytes, bytes, n);
      if elem.bytes == 0 { MoreBytes(1, bytes, n); }
    case Whole(each) =>
      OwnSlotsArray(elem.bytes, n);
      Multiples(Slots(elem.bytes), each, n);
  }

  lemma MoreBytes(a: nat, b: nat, n: nat)
    requires a <= b && n > 0
    ensures Slots(a * n) <= Slots(b * n) && (a > 0 ==> Slots(a * n) > 0)
    ensures a == 0 ==> Slots(a * n) == 0
  {
    Multiples(a, b, n);
    if a > 0 { AtLeastOne(a, n); }
  }

  lemma Multiples(a: nat, b: nat, n: nat)
    requires a <= b && n > 0
    ensures a * n <= b * n && (a < b ==> a * n < b * n)
  {
    Distribute(b, a, n);
    if a < b { AtLeastOne(b - a, n); }
  }

  /** The source gives a type as much as Solidity does, or less. */
  predicate Within(t: Type)
    requires WellFormed(t)
  {
    match SolidityExtent(t)
    case Packed(bytes) => !SizeOf(t).newSlot && SizeOf(t).bytes <= bytes
    case Whole(slots) => SizeOf(t).newSlot && Slots(SizeOf(t).bytes) <= slots
  }

  /** There is no pointer to an internal function in the type. */
  predicate NoInternal(t: Type) {
    match t
    case InternalFunction => false
    case Struct(elems) => forall i :: 0 <= i < |elems| ==> NoInternal(elems[i])
    case FixedArray(elem, _) => NoInternal(elem)
    case _ => true
  }

  lemma {:induction false} NeverMore(t: Type)
    requires WellFormed(t) && NoInternal(t)
    ensures Within(t)
  {
    match t
    case Struct(elems) =>
      forall i | 0 <= i < |elems| ensures Within(elems[i]) { NeverMore(elems[i]); }
      StructWithin(elems, Position(0, 0), Position(0, 0));
    case FixedArray(elem, length) =>
      NeverMore(elem);
      SlotsOfSmaller(SizeOf(elem), SolidityExtent(t).slots, length, SolidityExtent(elem));
    case _ =>
  }

  lemma {:induction false} StructWithin(elems: seq<Type>, p: Position, q: Position)
    requires forall i :: 0 <= i < |elems| ==> WellFormed(elems[i]) && Within(elems[i])
    requires AtMost(p, q)
    ensures SlotsOfElems(elems, p) <= SoliditySlots(elems, q)
  {
    if elems == [] {
    } else {
      var s, d := SizeOf(elems[0]), SoliditySize(elems[0]);
      PlaceWithin(p, s, q, d);
      StructWithin(elems[1..], After(Place(p, s), s), After(Place(q, d), d));
    }
  }

  lemma PlaceWithin(p: Position, s: Size, q: Position, d: Size)
    requires AtMost(p, q) && s.newSlot == d.newSlot
    requires if s.newSlot then Slots(s.bytes) <= Slots(d.bytes) else s.bytes <= d.bytes
    ensures AtMost(After(Place(p, s), s), After(Place(q, d), d))
  {
  }

  /** Twenty-four bytes for each, where Solidity puts four to a slot. */
  lemma InternalFunctions(n: nat)
    requires n > 0
    ensures Slots(24 * n) == SlotsFor(n, PerSlot(8)) <==> n == 1
  {
    assert PerSlot(8) == 4;
  }

  lemma SlotsOfLarger(bytes: nat, each: nat, n: nat)
    requires n > 0 && Slots(bytes) > each
    ensures Slots(bytes * n) > each * n
  {
    Multiples(32 * each, bytes, n);
    assert 32 * each * n == 32 * (each * n);
  }

  lemma PackedExactly(t: Type)
    requires WellFormed(t) && SolidityExtent(t).Packed? && !Agrees(t)
    ensures SizeOf(t) == Size(if t.InternalFunction? then 24 else 0, false)
    ensures SolidityExtent(t) == Packed(if t.InternalFunction? then 8 else 1)
  {
  }

  lemma WholeHasOwnSlots(t: Type)
    requires WellFormed(t)
    ensures SolidityExtent(t).Whole? <==> SizeOf(t).newSlot
  {
  }

  /** The exact condition for an array: the element has the right size, and fills the slots. Of the
      pointers to internal functions, which are given too much, only a single one does. */
  lemma ArrayAgrees(elem: Type, n: nat)
    requires WellFormed(elem) && n > 0
    ensures Agrees(FixedArray(elem, n))
      <==> if elem.InternalFunction? then n == 1 else Agrees(elem) && FillsItsSlots(SizeOf(elem), n)
  {
    var s, slots, x := SizeOf(elem), SolidityExtent(FixedArray(elem, n)).slots, SolidityExtent(elem);
    if elem.InternalFunction? {
      InternalFunctions(n);
    } else if Agrees(elem) {
      SlotsOfSize(s, slots, n, x);
    } else if x.Packed? {
      PackedExactly(elem);
      SlotsOfSmaller(s, slots, n, x);
    } else if Slots(s.bytes) < x.slots {
      SlotsOfSmaller(s, slots, n, x);
    } else {
      WholeHasOwnSlots(elem);
      SlotsOfLarger(s.bytes, x.slots, n);
    }
  }

  /** An enum agrees unless it has a single value, which is given no byte at all. */
  lemma EnumAgrees(values: nat)
    requires WellFormed(Enum(values))
    ensures Agrees(Enum(values)) <==> values >= 2
  {
  }

  /** `address[3]` takes three slots, and is given two. */
  lemma AddressTriple()
    ensures WellFormed(FixedArray(Elementary(160), 3))
    ensures Slots(SizeOf(FixedArray(Elementary(160), 3)).bytes) == 2
    ensures SolidityExtent(FixedArray(Elementary(160), 3)) == Whole(3)
  {
    assert SizeOf(Elementary(160)) == Size(20, false) && SolidityExtent(Elementary(160)) == Packed(20);
    assert PerSlot(20) == 1 && SlotsFor(3, 1) == 3;
  }

  /** The positions of a variable of this size and of a `uint128` after it. */
  function Followed(size: Size): seq<Position> {
    Positions([Variable("v", size), Variable("x", Size(16, false))], Position(0, 0))
  }

  lemma SecondPosition(s: Size)
    ensures var p := Place(Position(0, 0), s); Followed(s) == [p, Place(After(p, s), Size(16, false))]
  {
    var vars := [Variable("v", s), Variable("x", Size(16, false))];
    var rest := After(Place(Position(0, 0), s), s);
    assert vars[0].size == s && vars[1..] == [Variable("x", Size(16, false))];
    assert Positions(vars[1..], rest) == [Place(rest, Size(16, false))] by { assert vars[1..][1..] == []; }
  }

  /** `function() internal v; uint128 x;`: the source moves `x` to the next slot, Solidity does not. */
  lemma InternalPointer()
    ensures Followed(SizeOf(InternalFunction)) == [Position(0, 0), Position(1, 0)]
    ensures Followed(SoliditySize(InternalFunction)) == [Position(0, 0), Position(0, 8)]
  {
    SecondPosition(SizeOf(InternalFunction));
    SecondPosition(SoliditySize(InternalFunction));
  }

  lemma SlotsShow(s: Size, slots: nat)
    requires s.newSlot
    ensures Followed(s) == Followed(SizeOfExtent(Whole(slots))) <==> Slots(s.bytes) == slots
  {
    SecondPosition(s);
    SecondPosition(SizeOfExtent(Whole(slots)));
    assert Slots(32 * slots) == slots;
  }

  lemma BytesShow(s: Size, bytes: nat)
    requires (s == Size(24, false) && bytes == 8) || (s == Size(0, false) && bytes == 1)
    ensures Followed(s) != Followed(SizeOfExtent(Packed(bytes)))
  {
    PackedFollowed(s.bytes);
    PackedFollowed(bytes);
    assert Followed(s)[1].offset != Followed(SizeOfExtent(Packed(bytes)))[1].offset;
  }

  lemma PackedFollowed(bytes: nat)
    requires bytes <= 32
    ensures Followed(Size(bytes, false))
      == [Position(0, 0), if bytes <= 16 then Position(0, bytes) else Position(1, 0)]
  {
    SecondPosition(Size(bytes, false));
  }

  /** A type of another size always shows, in the position of a variable after it. */
  lemma DifferenceShows(t: Type)
    requires WellFormed(t)
    ensures Agrees(t) <==> Followed(SizeOf(t)) == Followed(SizeOfExtent(SolidityExtent(t)))
  {
    var s, x := SizeOf(t), SolidityExtent(t);
    WholeHasOwnSlots(t);
    if x.Whole? {
      SlotsShow(s, x.slots);
    } else if s == Size(x.bytes, false) {
    } else {
      PackedExactly(t);
      BytesShow(s, x.bytes);
    }
  }

  lemma {:induction false} StructAgrees(elems: seq<Type>, next: Position)
    requires forall i :: 0 <= i < |elems| ==> WellFormed(elems[i]) && Agrees(elems[i])
    ensures SlotsOfElems(elems, next) == SoliditySlots(elems, next)
  {
    if elems == [] {
    } else {
      var s, d := SizeOf(elems[0]), SoliditySize(elems[0]);
      assert After(Place(next, s), s) == After(Place(next, d), d);
      StructAgrees(elems[1..], After(Place(next, s), s));
    }
  }

  /** The bytes of a type without the gaps that Solidity leaves in the slots of arrays. */
  function Content(t: Type): nat
    requires WellFormed(t)
  {
    match t
    case InternalFunction => 24  // as an external one, which is what the source takes it for
    case FixedArray(elem, length) => Content(elem) * length
    case _ =>
      match SolidityExtent(t)
      case Packed(bytes) => bytes
      case Whole(slots) => 32 * slots
  }

  /** Every enum in the type has two values or more, pointers to internal functions are only in arrays
      of one, and the gaps in the slots of an array do not add up to a slot. The condition looks at
      Solidity's sizes only; an array of elements that leave no gap always meets it. */
  predicate Exact(t: Type)
    requires WellFormed(t)
  {
    match t
    case Enum(values) => values >= 2
    case InternalFunction => false
    case Struct(elems) => forall i :: 0 <= i < |elems| ==> Exact(elems[i])
    case FixedArray(elem, length) =>
      if elem.InternalFunction? then length == 1
      else
        Exact(elem) &&
        (match SolidityExtent(elem)
         case Packed(bytes) => FillsItsSlots(Size(bytes, false), length)
         case Whole(slots) => length * (32 * slots - Content(elem)) < 32)
    case _ => true
  }

  /** Then the source's size is the content, in as many slots as Solidity's. */
  lemma {:induction false} ExactAgrees(t: Type)
    requires WellFormed(t) && Exact(t)
    ensures Agrees(t) && SizeOf(t) == Size(Content(t), SolidityExtent(t).Whole?)
  {
    match t
    case Struct(elems) =>
      forall i | 0 <= i < |elems| ensures Agrees(elems[i]) { ExactAgrees(elems[i]); }
      StructAgrees(elems, Position(0, 0));
    case FixedArray(elem, length) =>
      if !elem.InternalFunction? { ExactAgrees(elem); }
      ArrayAgrees(elem, length);
    case _ =>
  }

  /** Arrays, of any length, of mappings, dynamic arrays, strings and structures agree if their elements do. */
  lemma WholeSlotArrays(elem: Type, length: nat)
    requires WellFormed(elem) && length > 0 && Exact(elem) && (elem.Mapping? || elem.Dynamic? || elem.Struct?)
    ensures Exact(FixedArray(elem, length)) && SolidityExtent(FixedArray(elem, length)).Whole?
    ensures Slots(SizeOf(FixedArray(elem, length)).bytes) == SolidityExtent(FixedArray(elem, length)).slots
    ensures elem.Mapping? || elem.Dynamic? ==> SizeOf(FixedArray(elem, length)) == Size(32 * length, true)
  {
    var slots := SolidityExtent(elem).slots;
    assert Content(elem) == 32 * slots;
    assert length * (32 * slots - Content(elem)) == length * 0 == 0;
    ExactAgrees(FixedArray(elem, length));
  }

  function Sized(types: seq<Type>, sizes: Type --> Size): seq<Variable>
    requires forall i :: 0 <= i < |types| ==> sizes.requires(types[i])
  {
    seq(|types|, i requires 0 <= i < |types| => Variable("", sizes(types[i])))
  }

  /** For such types the computed layout is Solidity's. */
  lemma {:induction false} LayoutAgrees(types: seq<Type>, next: Position)
    requires forall i :: 0 <= i < |types| ==> WellFormed(types[i]) && Exact(types[i])
    ensures Positions(Sized(types, SizeOf), next) == Positions(Sized(types, SoliditySize), next)
  {
    if types == [] {
    } else {
      ExactAgrees(types[0]);
      var s, d := SizeOf(types[0]), SoliditySize(types[0]);
      assert Place(next, s) == Place(next, d) && After(Place(next, s), s) == After(Place(next, d), d);
      assert Sized(types, SizeOf)[1..] == Sized(types[1..], SizeOf);
      assert Sized(types, SoliditySize)[1..] == Sized(types[1..], SoliditySize);
      LayoutAgrees(types[1..], After(Place(next, s), s));
    }
  }
}
