/** Values, places and a small machine for the instructions that `push` and `pop` are compiled to. */
module ArrayMachine {
  import opened Ir
  import opened Options

  /** `zero` is the default of the element type; a cell that is not in `cells` holds it. */
  datatype Value =
    | Word(n: nat)
    | Array(len: nat, cells: map<nat, Value>, zero: Value)
    | Struct(fields: map<string, Value>)

  datatype Step = At(i: nat) | Len | Field(f: string)

  datatype Place = Place(base: Name, path: seq<Step>)

  /** Temporaries and program variables hold values, references hold places. */
  datatype State = State(vars: map<Name, Value>, refs: map<Name, Place>)

  datatype Operand = Variable(name: Name) | Constant(n: nat)

  datatype Instruction =
    | LengthOf(lvalue: Name, arr: Name)
    | Index(lvalue: Name, arr: Name, index: Operand)
    | Assign(lvalue: Name, rvalue: Operand)
    | Add(lvalue: Name, left: Operand, right: Operand)
    | Subtract(lvalue: Name, left: Operand, right: Operand)
    | Delete(lvalue: Name, variable: Name)
    | InitArray(lvalue: Name, values: seq<Operand>)

  const UINT256: nat := 0x1_0000000000000000_0000000000000000_0000000000000000_0000000000000000

  // ---------------------------------------------------------------------------------------
  // Reading and writing inside values

  function Cell(v: Value, i: nat): Value
    requires v.Array?
  {
    if i in v.cells then v.cells[i] else v.zero
  }

  function Read(v: Value, path: seq<Step>): Option<Value> {
    if path == [] then Some(v)
    else match path[0]
      case At(i) => if v.Array? then Read(Cell(v, i), path[1..]) else None
      case Len => if v.Array? && |path| == 1 then Some(Word(v.len)) else None
      case Field(f) => if v.Struct? && f in v.fields then Read(v.fields[f], path[1..]) else None
  }

  function Write(v: Value, path: seq<Step>, x: Value): Option<Value> {
    if path == [] then Some(x)
    else match path[0]
      case At(i) =>
        if v.Array? then
          match Write(Cell(v, i), path[1..], x)
          case Some(c) => Some(v.(cells := v.cells[i := c]))
          case None => None
        else None
      case Len => if v.Array? && |path| == 1 && x.Word? then Some(v.(len := x.n)) else None
      case Field(f) =>
        if v.Struct? && f in v.fields then
          match Write(v.fields[f], path[1..], x)
          case Some(c) => Some(v.(fields := v.fields[f := c]))
          case None => None
        else None
  }

  /** The default of the type of `v`. */
  function ZeroLike(v: Value): Value {
    match v
    case Word(_) => Word(0)
    case Array(_, _, zero) => Array(0, map[], zero)
    case Struct(fields) => Struct(map f | f in fields :: ZeroLike(fields[f]))
  }

  // ---------------------------------------------------------------------------------------
  // Execution; a step that makes no sense has no result

  function PlaceOf(st: State, n: Name): Place {
    if n in st.refs then st.refs[n] else Place(n, [])
  }

  function Load(st: State, p: Place): Option<Value> {
    if p.base in st.vars then Read(st.vars[p.base], p.path) else None
  }

  function Eval(st: State, o: Operand): Option<Value> {
    match o
    case Variable(n) => Load(st, PlaceOf(st, n))
    case Constant(n) => Some(Word(n))
  }

  function Store(st: State, n: Name, x: Value): Option<State> {
    var p := PlaceOf(st, n);
    if p.path == [] then Some(st.(vars := st.vars[p.base := x]))
    else if p.base !in st.vars then None
    else
      match Write(st.vars[p.base], p.path, x)
      case Some(v) => Some(st.(vars := st.vars[p.base := v]))
      case None => None
  }

  function EvalAll(st: State, os: seq<Operand>): Option<seq<Value>> {
    if os == [] then Some([])
    else
      match (Eval(st, os[0]), EvalAll(st, os[1..]))
      case (Some(v), Some(vs)) => Some([v] + vs)
      case _ => None
  }

  /** An array literal. */
  function Literal(vs: seq<Value>): Value
    requires vs != []
  {
    Array(|vs|, map i | 0 <= i < |vs| :: vs[i], ZeroLike(vs[0]))
  }

  /** An element reference is taken within the bounds of the array; arithmetic wraps. */
  function Exec(ins: Instruction, st: State): Option<State> {
    match ins
    case LengthOf(r, arr) =>
      var p := PlaceOf(st, arr);
      if Load(st, p).Some? && Load(st, p).value.Array?
      then Some(st.(refs := st.refs[r := Place(p.base, p.path + [Len])])) else None
    case Index(r, arr, index) =>
      var p := PlaceOf(st, arr);
      (match (Load(st, p), Eval(st, index))
       case (Some(Array(len, _, _)), Some(Word(i))) =>
         if i < len then Some(st.(refs := st.refs[r := Place(p.base, p.path + [At(i)])])) else None
       case _ => None)
    case Assign(l, o) =>
      (match Eval(st, o) case Some(v) => Store(st, l, v) case None => None)
    case Add(l, a, b) =>
      (match (Eval(st, a), Eval(st, b))
       case (Some(Word(x)), Some(Word(y))) => Store(st, l, Word((x + y) % UINT256))
       case _ => None)
    case Subtract(l, a, b) =>
      (match (Eval(st, a), Eval(st, b))
       case (Some(Word(x)), Some(Word(y))) => Store(st, l, Word((x - y) % UINT256))
       case _ => None)
    case Delete(_, variable) =>
      (match Load(st, PlaceOf(st, variable)) case Some(v) => Store(st, variable, ZeroLike(v)) case None => None)
    case InitArray(l, os) =>
      (match EvalAll(st, os) case Some(vs) => if vs == [] then None else Store(st, l, Literal(vs)) case None => None)
  }

  function Run(code: seq<Instruction>, st: State): Option<State> {
    if code == [] then Some(st)
    else match Exec(code[0], st) case Some(next) => Run(code[1..], next) case None => None
  }

  // ---------------------------------------------------------------------------------------
  // Laws of places

  lemma {:induction false} ReadConcat(v: Value, p: seq<Step>, q: seq<Step>)
    ensures Read(v, p + q) == match Read(v, p) case Some(x) => Read(x, q) case None => None
  {
    if p == [] {
      assert p + q == q;
    } else {
      assert (p + q)[1..] == p[1..] + q;
      match p[0]
      case At(i) => if v.Array? { ReadConcat(Cell(v, i), p[1..], q); }
      case Len =>
        if v.Array? && |p| == 1 {
          assert p + q == [Len] + q;
          assert q != [] ==> Read(Word(v.len), q) == None;
        }
      case Field(f) => if v.Struct? && f in v.fields { ReadConcat(v.fields[f], p[1..], q); }
    }
  }

  /** Writing below a place is writing the place; the path must not end in a length. */
  lemma {:induction false} WriteExtends(v: Value, p: seq<Step>, s: Step, x: Value)
    requires Read(v, p).Some? && !Read(v, p).value.Word? && Write(Read(v, p).value, [s], x).Some?
    ensures Write(v, p + [s], x) == Write(v, p, Write(Read(v, p).value, [s], x).value)
    ensures Write(v, p + [s], x).Some?
  {
    if p == [] {
    } else {
      assert (p + [s])[1..] == p[1..] + [s];
      match p[0]
      case At(i) => WriteExtends(Cell(v, i), p[1..], s, x);
      case Len => assert false;
      case Field(f) => WriteExtends(v.fields[f], p[1..], s, x);
    }
  }

  lemma {:induction false} ReadWrite(v: Value, p: seq<Step>, x: Value)
    requires Read(v, p).Some? && !Read(v, p).value.Word?
    ensures Write(v, p, x).Some? && Read(Write(v, p, x).value, p) == Some(x)
  {
    if p == [] {
    } else {
      match p[0]
      case At(i) => ReadWrite(Cell(v, i), p[1..], x);
      case Len => assert false;
      case Field(f) => ReadWrite(v.fields[f], p[1..], x);
    }
  }

  lemma {:induction false} WriteWrite(v: Value, p: seq<Step>, x: Value, y: Value)
    requires Read(v, p).Some? && !Read(v, p).value.Word?
    ensures Write(v, p, x).Some? && Write(Write(v, p, x).value, p, y) == Write(v, p, y)
  {
    ReadWrite(v, p, x);
    if p == [] {
    } else {
      match p[0]
      case At(i) =>
        WriteWrite(Cell(v, i), p[1..], x, y);
        ReadWrite(Cell(v, i), p[1..], y);
        var c, d := Write(Cell(v, i), p[1..], x).value, Write(Cell(v, i), p[1..], y).value;
        assert v.cells[i := c][i := d] == v.cells[i := d];
      case Len => assert false;
      case Field(f) =>
        WriteWrite(v.fields[f], p[1..], x, y);
        ReadWrite(v.fields[f], p[1..], y);
        var c, d := Write(v.fields[f], p[1..], x).value, Write(v.fields[f], p[1..], y).value;
        assert v.fields[f := c][f := d] == v.fields[f := d];
    }
  }

  /** Writing leaves what is neither above nor below the place. */
  lemma {:induction false} ReadElsewhere(v: Value, w: seq<Step>, x: Value, q: seq<Step>)
    requires Write(v, w, x).Some? && !(q <= w) && !(w <= q)
    ensures Read(Write(v, w, x).value, q) == Read(v, q)
  {
    if q[0] != w[0] {
    } else {
      assert q == [q[0]] + q[1..] && w == [w[0]] + w[1..];
      match w[0]
      case At(i) => ReadElsewhere(Cell(v, i), w[1..], x, q[1..]);
      case Len => assert false;
      case Field(f) => ReadElsewhere(v.fields[f], w[1..], x, q[1..]);
    }
  }
}

/** `convert_to_push` and `convert_to_pop`. */
module ArrayLowering {
  import opened Ir
  import opened Options
  import opened ArrayMachine

  datatype PushArgument = Single(o: Operand) | ArrayLiteral(os: seq<Operand>)

  /** A call on the array `dest`; a `push` without argument assigns the new element to `result`. */
  datatype ArrayCall = Push(dest: Name, arg: Option<PushArgument>, result: Name) | Pop(dest: Name)

  // ---------------------------------------------------------------------------------------
  // The emitted instructions, with `r` and `t` the next free reference and temporary

  function ExpandCode(dest: Name, r: nat, t: nat): seq<Instruction> {
    [LengthOf(Ref(r), dest),
     Assign(Tmp(t), Variable(Ref(r))),
     Add(Tmp(t + 1), Variable(Tmp(t)), Constant(1)),
     Assign(Ref(r), Variable(Tmp(t + 1)))]
  }

  function SetValueCode(call: ArrayCall, r: nat, t: nat): seq<Instruction>
    requires call.Push?
  {
    [Index(Ref(r + 1), call.dest, Variable(Tmp(t)))] +
    match call.arg
    case Some(Single(o)) => [Assign(Ref(r + 1), o)]
    case Some(ArrayLiteral(os)) => [InitArray(Tmp(t + 2), os), Assign(Ref(r + 1), Variable(Tmp(t + 2)))]
    case None => [Assign(call.result, Variable(Ref(r + 1)))]
  }

  function DeleteCode(dest: Name, r: nat, t: nat): seq<Instruction> {
    [LengthOf(Ref(r), dest),
     Subtract(Tmp(t), Variable(Ref(r)), Constant(1)),
     Index(Ref(r + 1), dest, Variable(Tmp(t))),
     Delete(Ref(r + 1), Ref(r + 1))]
  }

  function ShrinkCode(dest: Name, r: nat, t: nat): seq<Instruction> {
    [LengthOf(Ref(r + 2), dest),
     Assign(Ref(r + 2), Variable(Tmp(t)))]
  }

  function Code(call: ArrayCall, r: nat, t: nat): seq<Instruction> {
    if call.Push? then ExpandCode(call.dest, r, t) + SetValueCode(call, r, t)
    else DeleteCode(call.dest, r, t) + ShrinkCode(call.dest, r, t)
  }

  function RefsUsed(call: ArrayCall): nat {
    if call.Push? then 2 else 3
  }

  function TmpsUsed(call: ArrayCall): nat {
    match call
    case Push(_, Some(ArrayLiteral(_)), _) => 3
    case Push(_, _, _) => 2
    case Pop(_) => 1
  }

  function CodeOf(calls: seq<ArrayCall>, r: nat, t: nat): seq<Instruction> {
    if calls == [] then []
    else Code(calls[0], r, t) + CodeOf(calls[1..], r + RefsUsed(calls[0]), t + TmpsUsed(calls[0]))
  }

  /** The counters that number fresh references and temporaries. */
  class CompilationUnit {
    var counterReference: nat
    var counterTemporary: nat

    method NewReference() returns (n: Name)
      modifies this`counterReference
      ensures n == Ref(old(counterReference)) && counterReference == old(counterReference) + 1
    {
      n := Ref(counterReference);
      counterReference := counterReference + 1;
    }

    method NewTemporary() returns (n: Name)
      modifies this`counterTemporary
      ensures n == Tmp(old(counterTemporary)) && counterTemporary == old(counterTemporary) + 1
    {
      n := Tmp(counterTemporary);
      counterTemporary := counterTemporary + 1;
    }

    method ConvertToPushExpandArr(call: ArrayCall, before: seq<Instruction>)
      returns (ret: seq<Instruction>, lengthVal: Name)
      modifies this
      ensures ret == before + ExpandCode(call.dest, old(counterReference), old(counterTemporary))
      ensures lengthVal == Tmp(old(counterTemporary))
      ensures counterReference == old(counterReference) + 1 && counterTemporary == old(counterTemporary) + 2
    {
      ret := before;
      var length := NewReference();
      ret := ret + [LengthOf(length, call.dest)];
      lengthVal := NewTemporary();
      ret := ret + [Assign(lengthVal, Variable(length))];
      var newLengthVal := NewTemporary();
      ret := ret + [Add(newLengthVal, Variable(lengthVal), Constant(1))];
      ret := ret + [Assign(length, Variable(newLengthVal))];
    }

    method ConvertToPushSetVal(call: ArrayCall, lengthVal: Name, before: seq<Instruction>) returns (ret: seq<Instruction>)
      requires call.Push? && counterReference >= 1 && counterTemporary >= 2 && lengthVal == Tmp(counterTemporary - 2)
      modifies this
      ensures ret == before + SetValueCode(call, old(counterReference) - 1, old(counterTemporary) - 2)
      ensures counterReference == old(counterReference) + 1
      ensures counterTemporary == old(counterTemporary) + TmpsUsed(call) - 2
    {
      ret := before;
      var elementToAdd := NewReference();
      ret := ret + [Index(elementToAdd, call.dest, Variable(lengthVal))];
      match call.arg {
        case Some(Single(o)) =>
          ret := ret + [Assign(elementToAdd, o)];
        case Some(ArrayLiteral(os)) =>
          var assignValue := NewTemporary();
          ret := ret + [InitArray(assignValue, os)];
          ret := ret + [Assign(elementToAdd, Variable(assignValue))];
        case None =>
          ret := ret + [Assign(call.result, Variable(elementToAdd))];
      }
    }

    method ConvertToPush(call: ArrayCall) returns (ret: seq<Instruction>)
      requires call.Push?
      modifies this
      ensures ret == Code(call, old(counterReference), old(counterTemporary))
      ensures counterReference == old(counterReference) + RefsUsed(call)
      ensures counterTemporary == old(counterTemporary) + TmpsUsed(call)
    {
      ret := [];
      var lengthVal;
      ret, lengthVal := ConvertToPushExpandArr(call, ret);
      ret := ConvertToPushSetVal(call, lengthVal, ret);
    }

    method ConvertToPop(call: ArrayCall) returns (ret: seq<Instruction>)
      requires call.Pop?
      modifies this
      ensures ret == Code(call, old(counterReference), old(counterTemporary))
      ensures counterReference == old(counterReference) + RefsUsed(call)
      ensures counterTemporary == old(counterTemporary) + TmpsUsed(call)
    {
      ret := [];
      var length := NewReference();
      ret := ret + [LengthOf(length, call.dest)];
      var val := NewTemporary();
      ret := ret + [Subtract(val, Variable(length), Constant(1))];
      var elementToDelete := NewReference();
      ret := ret + [Index(elementToDelete, call.dest, Variable(val))];
      ret := ret + [Delete(elementToDelete, elementToDelete)];
      var lengthToAssign := NewReference();
      ret := ret + [LengthOf(lengthToAssign, call.dest)];
      ret := ret + [Assign(lengthToAssign, Variable(val))];
    }
  }

  // ---------------------------------------------------------------------------------------
  // What the calls mean

  /** The array that `dest` denotes. */
  function ArrayAt(st: State, dest: Name): Option<Value> {
    match Load(st, PlaceOf(st, dest))
    case Some(v) => if v.Array? then Some(v) else None
    case None => None
  }

  /** The machine with the array at `dest` replaced. */
  function PutArray(st: State, dest: Name, a: Value): State
    requires ArrayAt(st, dest).Some?
  {
    var p := PlaceOf(st, dest);
    ReadWrite(st.vars[p.base], p.path, a);
    st.(vars := st.vars[p.base := Write(st.vars[p.base], p.path, a).value])
  }

  function ArgumentValue(st: State, arg: PushArgument): Option<Value> {
    match arg
    case Single(o) => Eval(st, o)
    case ArrayLiteral(os) =>
      match EvalAll(st, os)
      case Some(vs) => if vs == [] then None else Some(Literal(vs))
      case None => None
  }

  /** An array as a stack. */
  function Contents(a: Value): seq<Value>
    requires a.Array?
  {
    seq(a.len, i requires 0 <= i < a.len => Cell(a, i))
  }

  /** Elements have the element type, and the cells beyond the length are default. */
  ghost predicate WellFormed(a: Value) {
    && a.Array? && a.len < UINT256
    && (forall i: nat :: ZeroLike(Cell(a, i)) == a.zero)
    && (forall i: nat :: i >= a.len ==> Cell(a, i) == a.zero)
  }

  /** The machine with `v` appended to the array. */
  function Appended(dest: Name, st: State, v: Value): State
    requires ArrayAt(st, dest).Some?
  {
    var a := ArrayAt(st, dest).value;
    PutArray(st, dest, Array(a.len + 1, a.cells[a.len := v], a.zero))
  }

  /** The call in one step. */
  function Apply(call: ArrayCall, st: State): Option<State> {
    match ArrayAt(st, call.dest)
    case None => None
    case Some(a) =>
      match call
      case Push(dest, Some(arg), _) =>
        (match ArgumentValue(st, arg)
         case Some(v) => Some(Appended(dest, st, v))
         case None => None)
      case Push(dest, None, result) =>
        var grown := PutArray(st, dest, a.(len := a.len + 1));
        Some(grown.(vars := grown.vars[result := a.zero]))
      case Pop(dest) =>
        if a.len == 0 then None
        else Some(PutArray(st, dest, Array(a.len - 1, a.cells[a.len - 1 := a.zero], a.zero)))
  }

  /** A call and its meaning on the array as a stack; well-formedness is kept. */
  lemma ApplyIsStackOperation(call: ArrayCall, st: State)
    requires Apply(call, st).Some? && WellFormed(ArrayAt(st, call.dest).value)
    requires call.Push? ==> ArrayAt(st, call.dest).value.len + 1 < UINT256 && PushIsTyped(call, st)
    ensures ArrayAt(Apply(call, st).value, call.dest).Some?
    ensures WellFormed(ArrayAt(Apply(call, st).value, call.dest).value)
    ensures var a, b := ArrayAt(st, call.dest).value, ArrayAt(Apply(call, st).value, call.dest).value;
      && b.zero == a.zero
      && Contents(b) == match call
           case Push(_, Some(arg), _) => Contents(a) + [ArgumentValue(st, arg).value]
           case Push(_, None, _) => Contents(a) + [a.zero]
           case Pop(_) => Contents(a)[..a.len - 1]
    ensures forall n :: n != PlaceOf(st, call.dest).base && !(call.Push? && n == call.result) ==>
      SameValue(n, st, Apply(call, st).value)
    ensures call.Push? && call.arg.None? ==> Apply(call, st).value.vars[call.result] == ArrayAt(st, call.dest).value.zero
    ensures Apply(call, st).value.refs == st.refs
  {
    var a := ArrayAt(st, call.dest).value;
    var p := PlaceOf(st, call.dest);
    var b := match call
      case Push(_, Some(arg), _) => Array(a.len + 1, a.cells[a.len := ArgumentValue(st, arg).value], a.zero)
      case Push(_, None, _) => a.(len := a.len + 1)
      case Pop(_) => Array(a.len - 1, a.cells[a.len - 1 := a.zero], a.zero);
    ReadWrite(st.vars[p.base], p.path, b);
    assert ArrayAt(Apply(call, st).value, call.dest) == Some(b);
    forall i: nat ensures ZeroLike(Cell(b, i)) == b.zero && (i >= b.len ==> Cell(b, i) == b.zero) {
      assert ZeroLike(Cell(a, i)) == a.zero && (i >= a.len ==> Cell(a, i) == a.zero);
      ZeroOfZero(a);
    }
    match call {
      case Push(_, Some(arg), _) => assert Contents(b) == Contents(a) + [ArgumentValue(st, arg).value];
      case Push(_, None, _) =>
        assert Cell(a, a.len) == a.zero;
        assert Contents(b) == Contents(a) + [a.zero];
      case Pop(_) => assert Contents(b) == Contents(a)[..a.len - 1];
    }
  }

  /** The pushed value has the element type, and a result is not the array's own variable. */
  predicate PushIsTyped(call: ArrayCall, st: State)
    requires call.Push? && ArrayAt(st, call.dest).Some?
  {
    && (call.arg.Some? ==> ArgumentValue(st, call.arg.value).Some?
                           && ZeroLike(ArgumentValue(st, call.arg.value).value) == ArrayAt(st, call.dest).value.zero)
    && (call.arg.None? ==> call.result.Tmp? && call.result != PlaceOf(st, call.dest).base && call.result !in st.refs)
  }

  lemma ZeroOfZero(a: Value)
    requires WellFormed(a)
    ensures ZeroLike(a.zero) == a.zero
  {
    assert Cell(a, a.len) == a.zero;
  }

  // ---------------------------------------------------------------------------------------
  // The emitted code does what the call means

  /** Names that existed when the counters stood at `r` and `t`. */
  predicate Old(n: Name, r: nat, t: nat) {
    match n
    case Ref(i) => i < r
    case Tmp(i) => i < t
    case Program(_) => true
  }

  /** The call names what existed before, pops no empty array, overflows no length, and pushes a
      value of the element type that is no place holding the length. */
  predicate Applicable(call: ArrayCall, st: State, r: nat, t: nat) {
    && Old(call.dest, r, t) && Old(PlaceOf(st, call.dest).base, r, t)
    && ArrayAt(st, call.dest).Some?
    && (if call.Pop? then ArrayAt(st, call.dest).value.len > 0
        else ArrayAt(st, call.dest).value.len + 1 < UINT256 && PushIsTyped(call, st)
             && (call.arg.None? ==> Old(call.result, r, t)) && ArgumentIndependent(call, st, r, t))
  }

  predicate ReferencesOnly(st: State) {
    forall n :: n in st.refs ==> n.Ref?
  }

  /** The array existed before, and its length can be increased. */
  predicate CanGrow(dest: Name, st: State, r: nat, t: nat) {
    && ReferencesOnly(st) && Old(dest, r, t) && Old(PlaceOf(st, dest).base, r, t)
    && ArrayAt(st, dest).Some? && ArrayAt(st, dest).value.len + 1 < UINT256
  }

  ghost predicate Ready(call: ArrayCall, st: State, r: nat, t: nat) {
    ReferencesOnly(st) && Applicable(call, st, r, t) && WellFormed(ArrayAt(st, call.dest).value)
  }

  /** The state after the length was read and increased. */
  function Expanded(dest: Name, st: State, r: nat, t: nat): State
    requires ArrayAt(st, dest).Some?
  {
    var a, p := ArrayAt(st, dest).value, PlaceOf(st, dest);
    var grown := PutArray(st, dest, a.(len := a.len + 1));
    State(grown.vars[Tmp(t) := Word(a.len)][Tmp(t + 1) := Word(a.len + 1)], st.refs[Ref(r) := Place(p.base, p.path + [Len])])
  }

  /** The state after the element reference was taken. */
  function Indexed(dest: Name, st: State, r: nat, t: nat): State
    requires ArrayAt(st, dest).Some?
  {
    var a, p := ArrayAt(st, dest).value, PlaceOf(st, dest);
    var e := Expanded(dest, st, r, t);
    e.(refs := e.refs[Ref(r + 1) := Place(p.base, p.path + [At(a.len)])])
  }

  lemma LoadLength(st: State, dest: Name)
    requires ArrayAt(st, dest).Some?
    ensures var p := PlaceOf(st, dest);
      Load(st, Place(p.base, p.path + [Len])) == Some(Word(ArrayAt(st, dest).value.len))
  {
    var p := PlaceOf(st, dest);
    ReadConcat(st.vars[p.base], p.path, [Len]);
  }

  /** Assigning a length or an element through a reference replaces the array. */
  lemma StoreInArray(st: State, dest: Name, ref: Name, s: Step, x: Value)
    requires ArrayAt(st, dest).Some? && ref in st.refs
    requires st.refs[ref] == Place(PlaceOf(st, dest).base, PlaceOf(st, dest).path + [s])
    requires s.At? || (s.Len? && x.Word?)
    ensures var a := ArrayAt(st, dest).value;
      Store(st, ref, x) == Some(PutArray(st, dest, if s.At? then a.(cells := a.cells[s.i := x]) else a.(len := x.n)))
  {
    var p := PlaceOf(st, dest);
    var a := ArrayAt(st, dest).value;
    assert Write(a, [s], x) == Some(if s.At? then a.(cells := a.cells[s.i := x]) else a.(len := x.n)) by {
      if s.At? { assert [s][1..] == []; }
    }
    WriteExtends(st.vars[p.base], p.path, s, x);
    assert (p.path + [s]) != [];
  }

  lemma ExpandRuns(dest: Name, st: State, r: nat, t: nat)
    requires CanGrow(dest, st, r, t)
    ensures Run(ExpandCode(dest, r, t), st) == Some(Expanded(dest, st, r, t))
  {
    var a, p := ArrayAt(st, dest).value, PlaceOf(st, dest);
    var code := ExpandCode(dest, r, t);
    var s1 := st.(refs := st.refs[Ref(r) := Place(p.base, p.path + [Len])]);
    assert Exec(code[0], st) == Some(s1);
    LoadLength(s1, dest);
    var s2 := s1.(vars := s1.vars[Tmp(t) := Word(a.len)]);
    assert Exec(code[1], s1) == Some(s2);
    var s3 := s2.(vars := s2.vars[Tmp(t + 1) := Word(a.len + 1)]);
    assert Exec(code[2], s2) == Some(s3);
    StoreInArray(s3, dest, Ref(r), Len, Word(a.len + 1));
    var s4 := PutArray(s3, dest, a.(len := a.len + 1));
    assert Exec(code[3], s3) == Some(s4);
    assert s4.vars == Expanded(dest, st, r, t).vars;
    RunFour(code, st, s1, s2, s3, s4);
  }

  lemma RunFour(code: seq<Instruction>, s0: State, s1: State, s2: State, s3: State, s4: State)
    requires |code| == 4
    requires Exec(code[0], s0) == Some(s1) && Exec(code[1], s1) == Some(s2)
    requires Exec(code[2], s2) == Some(s3) && Exec(code[3], s3) == Some(s4)
    ensures Run(code, s0) == Some(s4)
  {
    assert Run(code[3..], s3) == Run([], s4) by { assert code[3..][1..] == []; }
    assert code[2..][1..] == code[3..] && code[1..][1..] == code[2..];
    assert Run(code[2..], s2) == Some(s4);
    assert Run(code[1..], s1) == Some(s4);
  }

  lemma RunOne(code: seq<Instruction>, s0: State, s1: State)
    requires |code| == 1 && Exec(code[0], s0) == Some(s1)
    ensures Run(code, s0) == Some(s1)
  {
    assert code[1..] == [];
  }

  lemma RunTwo(code: seq<Instruction>, s0: State, s1: State, s2: State)
    requires |code| == 2 && Exec(code[0], s0) == Some(s1) && Exec(code[1], s1) == Some(s2)
    ensures Run(code, s0) == Some(s2)
  {
    RunOne(code[1..], s1, s2);
  }

  lemma {:induction false} RunConcat(c: seq<Instruction>, d: seq<Instruction>, st: State)
    ensures Run(c + d, st) == match Run(c, st) case Some(mid) => Run(d, mid) case None => None
  {
    if c == [] {
      assert c + d == d;
    } else {
      assert (c + d)[1..] == c[1..] + d;
      if Exec(c[0], st).Some? { RunConcat(c[1..], d, Exec(c[0], st).value); }
    }
  }

  /** The operand was there before. */
  predicate OperandOld(o: Operand, st: State, r: nat, t: nat) {
    o.Variable? ==> Old(o.name, r, t) && Old(PlaceOf(st, o.name).base, r, t)
  }

  /** The operand is not a place that holds the length of the array: the length, the array, or what it is in. */
  predicate Apart(o: Operand, st: State, dest: Name) {
    o.Variable? ==>
      var p, q := PlaceOf(st, dest), PlaceOf(st, o.name);
      !(q.base == p.base && q.path <= p.path + [Len])
  }

  predicate Independent(o: Operand, st: State, dest: Name, r: nat, t: nat) {
    OperandOld(o, st, r, t) && Apart(o, st, dest)
  }

  /** After the length of an array was replaced, everything that holds it reads differently. */
  lemma ReadHolder(v: Value, p: seq<Step>, len: nat, q: seq<Step>)
    requires Read(v, p).Some? && Read(v, p).value.Array? && q <= p + [Len]
    requires len != Read(v, p).value.len
    ensures var a := Read(v, p).value;
      Write(v, p, a.(len := len)).Some? && Read(Write(v, p, a.(len := len)).value, q).Some?
      && Read(Write(v, p, a.(len := len)).value, q) != Read(v, q)
  {
    var grown := Read(v, p).value.(len := len);
    ReadWrite(v, p, grown);
    var w, whole := Write(v, p, grown).value, p + [Len];
    ReadConcat(v, p, [Len]);
    ReadConcat(w, p, [Len]);
    assert whole == q + whole[|q|..];
    ReadConcat(v, q, whole[|q|..]);
    ReadConcat(w, q, whole[|q|..]);
  }

  lemma NothingBelowLength(v: Value, p: seq<Step>, q: seq<Step>)
    requires Read(v, p).Some? && Read(v, p).value.Array? && p + [Len] < q
    ensures Read(v, q).None?
  {
    var rest := q[|p| + 1..];
    ReadConcat(v, p, [Len]);
    ReadConcat(v, p + [Len], rest);
    assert q == p + [Len] + rest;
  }

  /** After the array grew, the old names refer to the same places. */
  predicate GrownFrom(dest: Name, st: State, e: State, r: nat, t: nat)
    requires ArrayAt(st, dest).Some?
  {
    e.vars == Expanded(dest, st, r, t).vars && e.refs == Indexed(dest, st, r, t).refs
  }

  /** An operand reads as before the array grew if and only if it does not hold the length. */
  lemma EvalExactly(o: Operand, st: State, e: State, dest: Name, r: nat, t: nat)
    requires ReferencesOnly(st) && ArrayAt(st, dest).Some? && GrownFrom(dest, st, e, r, t)
    requires OperandOld(o, st, r, t) && Eval(st, o).Some?
    ensures Eval(e, o).Some? && (Eval(e, o) == Eval(st, o) <==> Apart(o, st, dest))
  {
    if o.Variable? {
      var a, p, q := ArrayAt(st, dest).value, PlaceOf(st, dest), PlaceOf(st, o.name);
      assert PlaceOf(e, o.name) == q;
      if q.base == p.base {
        var v := st.vars[p.base];
        if q.path <= p.path + [Len] {
          ReadHolder(v, p.path, a.len + 1, q.path);
        } else {
          WriteExtends(v, p.path, Len, Word(a.len + 1));
          if p.path + [Len] < q.path { NothingBelowLength(v, p.path, q.path); }
          ReadElsewhere(v, p.path + [Len], Word(a.len + 1), q.path);
        }
      }
    }
  }

  lemma {:induction false} EvalAllExactly(os: seq<Operand>, st: State, e: State, dest: Name, r: nat, t: nat)
    requires ReferencesOnly(st) && ArrayAt(st, dest).Some? && GrownFrom(dest, st, e, r, t)
    requires (forall i :: 0 <= i < |os| ==> OperandOld(os[i], st, r, t)) && EvalAll(st, os).Some?
    ensures EvalAll(e, os).Some? && |EvalAll(e, os).value| == |EvalAll(st, os).value| == |os|
    ensures EvalAll(e, os) == EvalAll(st, os) <==> forall i :: 0 <= i < |os| ==> Apart(os[i], st, dest)
  {
    if os == [] {
    } else {
      EvalExactly(os[0], st, e, dest, r, t);
      EvalAllExactly(os[1..], st, e, dest, r, t);
      var v, vs := Eval(st, os[0]).value, EvalAll(st, os[1..]).value;
      var w, ws := Eval(e, os[0]).value, EvalAll(e, os[1..]).value;
      assert [w] + ws == [v] + vs <==> w == v && ws == vs by {
        assert ([w] + ws)[1..] == ws && ([v] + vs)[1..] == vs;
      }
      assert os == [os[0]] + os[1..];
    }
  }

  predicate ArgumentOld(arg: PushArgument, st: State, r: nat, t: nat) {
    match arg
    case Single(o) => OperandOld(o, st, r, t)
    case ArrayLiteral(os) => forall i :: 0 <= i < |os| ==> OperandOld(os[i], st, r, t)
  }

  predicate ArgumentApart(arg: PushArgument, st: State, dest: Name) {
    match arg
    case Single(o) => Apart(o, st, dest)
    case ArrayLiteral(os) => forall i :: 0 <= i < |os| ==> Apart(os[i], st, dest)
  }

  predicate ArgumentIndependent(call: ArrayCall, st: State, r: nat, t: nat)
    requires call.Push?
  {
    call.arg.Some? ==> ArgumentOld(call.arg.value, st, r, t) && ArgumentApart(call.arg.value, st, call.dest)
  }

  lemma LiteralInjective(vs: seq<Value>, ws: seq<Value>)
    requires vs != [] && ws != [] && Literal(vs) == Literal(ws)
    ensures vs == ws
  {
    forall i | 0 <= i < |vs| ensures vs[i] == ws[i] { assert Literal(vs).cells[i] == Literal(ws).cells[i]; }
  }

  lemma ArgumentExactly(arg: PushArgument, st: State, e: State, dest: Name, r: nat, t: nat)
    requires ReferencesOnly(st) && ArrayAt(st, dest).Some? && GrownFrom(dest, st, e, r, t)
    requires ArgumentOld(arg, st, r, t) && ArgumentValue(st, arg).Some?
    ensures ArgumentValue(e, arg).Some?
    ensures ArgumentValue(e, arg) == ArgumentValue(st, arg) <==> ArgumentApart(arg, st, dest)
  {
    match arg
    case Single(o) => EvalExactly(o, st, e, dest, r, t);
    case ArrayLiteral(os) =>
      EvalAllExactly(os, st, e, dest, r, t);
      var vs, ws := EvalAll(st, os).value, EvalAll(e, os).value;
      if Literal(vs) == Literal(ws) { LiteralInjective(vs, ws); }
  }

  lemma IndexRuns(dest: Name, st: State, r: nat, t: nat)
    requires CanGrow(dest, st, r, t)
    ensures var a, p, e := ArrayAt(st, dest).value, PlaceOf(st, dest), Expanded(dest, st, r, t);
      && PlaceOf(e, dest) == p && ArrayAt(e, dest) == Some(a.(len := a.len + 1))
      && Exec(Index(Ref(r + 1), dest, Variable(Tmp(t))), e) == Some(Indexed(dest, st, r, t))
  {
    var a, p := ArrayAt(st, dest).value, PlaceOf(st, dest);
    var e := Expanded(dest, st, r, t);
    ReadWrite(st.vars[p.base], p.path, a.(len := a.len + 1));
    assert Eval(e, Variable(Tmp(t))) == Some(Word(a.len));
  }

  predicate SameValue(n: Name, s: State, s': State) {
    (n in s.vars <==> n in s'.vars) && (n in s.vars ==> s'.vars[n] == s.vars[n])
  }

  /** The two states agree on a variable: on its value, and on the place it refers to. */
  ghost predicate Same(n: Name, s: State, s': State) {
    && SameValue(n, s, s')
    && (n in s.refs <==> n in s'.refs) && (n in s.refs ==> s.refs[n] == s'.refs[n])
  }

  ghost predicate Agree(s: State, s': State, r: nat, t: nat) {
    forall n :: Old(n, r, t) ==> Same(n, s, s')
  }

  /** `i` with the variable of the array as after appending `v`. */
  function Stored(dest: Name, st: State, i: State, v: Value): State
    requires ArrayAt(st, dest).Some?
  {
    var base := PlaceOf(st, dest).base;
    i.(vars := i.vars[base := Appended(dest, st, v).vars[base]])
  }

  lemma StoreElement(dest: Name, st: State, i: State, r: nat, t: nat, v: Value)
    requires CanGrow(dest, st, r, t)
    requires i.refs == Indexed(dest, st, r, t).refs
    requires var p := PlaceOf(st, dest);
      p.base in i.vars && i.vars[p.base] == Expanded(dest, st, r, t).vars[p.base]
    ensures Store(i, Ref(r + 1), v) == Some(Stored(dest, st, i, v))
  {
    var a, p := ArrayAt(st, dest).value, PlaceOf(st, dest);
    var grown := a.(len := a.len + 1);
    ReadWrite(st.vars[p.base], p.path, grown);
    assert PlaceOf(i, dest) == p && ArrayAt(i, dest) == Some(grown);
    StoreInArray(i, dest, Ref(r + 1), At(a.len), v);
    WriteWrite(st.vars[p.base], p.path, grown, grown.(cells := grown.cells[a.len := v]));
  }

  lemma StoredAgrees(dest: Name, st: State, i: State, r: nat, t: nat, v: Value)
    requires CanGrow(dest, st, r, t)
    requires i.refs == Indexed(dest, st, r, t).refs
    requires forall n :: Old(n, r, t) && n != PlaceOf(st, dest).base ==> SameValue(n, st, i)
    ensures Agree(Stored(dest, st, i, v), Appended(dest, st, v), r, t)
  {
  }

  /** What the argument is worth once the array has grown is what gets appended. */
  lemma PushAppends(call: ArrayCall, st: State, r: nat, t: nat, v: Value)
    requires CanGrow(call.dest, st, r, t) && call.Push? && call.arg.Some?
    requires ArgumentValue(Indexed(call.dest, st, r, t), call.arg.value) == Some(v)
    ensures var f := Run(Code(call, r, t), st);
      f.Some? && Agree(f.value, Appended(call.dest, st, v), r, t)
  {
    GrowthRuns(call, st, r, t);
    match call.arg.value
    case Single(o) => SingleRuns(call, st, r, t, o, v);
    case ArrayLiteral(os) => LiteralRuns(call, st, r, t, os, v);
  }

  lemma GrowthRuns(call: ArrayCall, st: State, r: nat, t: nat)
    requires CanGrow(call.dest, st, r, t) && call.Push?
    ensures Run(Code(call, r, t), st) == Run(SetValueCode(call, r, t)[1..], Indexed(call.dest, st, r, t))
  {
    ExpandRuns(call.dest, st, r, t);
    IndexRuns(call.dest, st, r, t);
    RunConcat(ExpandCode(call.dest, r, t), SetValueCode(call, r, t), st);
  }

  lemma SingleRuns(call: ArrayCall, st: State, r: nat, t: nat, o: Operand, v: Value)
    requires CanGrow(call.dest, st, r, t) && call.Push? && call.arg == Some(Single(o))
    requires Eval(Indexed(call.dest, st, r, t), o) == Some(v)
    ensures var f := Run(SetValueCode(call, r, t)[1..], Indexed(call.dest, st, r, t));
      f.Some? && Agree(f.value, Appended(call.dest, st, v), r, t)
  {
    var i, rest := Indexed(call.dest, st, r, t), SetValueCode(call, r, t)[1..];
    StoreElement(call.dest, st, i, r, t, v);
    assert rest == [Assign(Ref(r + 1), o)];
    RunOne(rest, i, Stored(call.dest, st, i, v));
    StoredAgrees(call.dest, st, i, r, t, v);
  }

  lemma LiteralRuns(call: ArrayCall, st: State, r: nat, t: nat, os: seq<Operand>, v: Value)
    requires CanGrow(call.dest, st, r, t) && call.Push? && call.arg == Some(ArrayLiteral(os))
    requires ArgumentValue(Indexed(call.dest, st, r, t), ArrayLiteral(os)) == Some(v)
    ensures var f := Run(SetValueCode(call, r, t)[1..], Indexed(call.dest, st, r, t));
      f.Some? && Agree(f.value, Appended(call.dest, st, v), r, t)
  {
    var i, rest := Indexed(call.dest, st, r, t), SetValueCode(call, r, t)[1..];
    var j := i.(vars := i.vars[Tmp(t + 2) := v]);
    assert rest == [InitArray(Tmp(t + 2), os), Assign(Ref(r + 1), Variable(Tmp(t + 2)))];
    assert Exec(rest[0], i) == Some(j);
    StoreElement(call.dest, st, j, r, t, v);
    assert Eval(j, Variable(Tmp(t + 2))) == Some(v);
    RunTwo(rest, i, j, Stored(call.dest, st, j, v));
    StoredAgrees(call.dest, st, j, r, t, v);
  }

  lemma PushRuns(call: ArrayCall, st: State, r: nat, t: nat)
    requires Ready(call, st, r, t) && call.Push?
    ensures Run(Code(call, r, t), st).Some? && Apply(call, st).Some?
    ensures Agree(Run(Code(call, r, t), st).value, Apply(call, st).value, r, t)
  {
    match call.arg
    case Some(arg) =>
      ArgumentExactly(arg, st, Indexed(call.dest, st, r, t), call.dest, r, t);
      PushAppends(call, st, r, t, ArgumentValue(st, arg).value);
    case None =>
      GrowthRuns(call, st, r, t);
      PushNothingRuns(call, st, r, t);
  }

  lemma ContentsAppended(dest: Name, st: State, f: State, r: nat, t: nat, v: Value)
    requires CanGrow(dest, st, r, t) && Agree(f, Appended(dest, st, v), r, t)
    ensures ArrayAt(f, dest).Some?
    ensures Contents(ArrayAt(f, dest).value) == Contents(ArrayAt(st, dest).value) + [v]
  {
    var a, p, g := ArrayAt(st, dest).value, PlaceOf(st, dest), Appended(dest, st, v);
    var b := Array(a.len + 1, a.cells[a.len := v], a.zero);
    ReadWrite(st.vars[p.base], p.path, b);
    assert Same(dest, f, g) && Same(p.base, f, g);
    assert Contents(b) == Contents(a) + [v];
  }

  /** The exact condition: `push` appends the value that its argument had before the call if and only if
      the argument does not hold the length of the array. */
  lemma PushExactly(call: ArrayCall, st: State, r: nat, t: nat)
    requires CanGrow(call.dest, st, r, t) && call.Push? && call.arg.Some?
    requires ArgumentOld(call.arg.value, st, r, t) && ArgumentValue(st, call.arg.value).Some?
    ensures var f := Run(Code(call, r, t), st);
      && f.Some? && ArrayAt(f.value, call.dest).Some?
      && (Contents(ArrayAt(f.value, call.dest).value)
          == Contents(ArrayAt(st, call.dest).value) + [ArgumentValue(st, call.arg.value).value]
          <==> ArgumentApart(call.arg.value, st, call.dest))
  {
    var i, arg := Indexed(call.dest, st, r, t), call.arg.value;
    ArgumentExactly(arg, st, i, call.dest, r, t);
    var v, w := ArgumentValue(st, arg).value, ArgumentValue(i, arg).value;
    PushAppends(call, st, r, t, w);
    ContentsAppended(call.dest, st, Run(Code(call, r, t), st).value, r, t, w);
    var c := Contents(ArrayAt(st, call.dest).value);
    assert c + [w] == c + [v] <==> w == v by { assert (c + [w])[|c|] == w && (c + [v])[|c|] == v; }
  }

  /** So `a.push(a.length)` pushes one more than the length that the caller saw. */
  lemma PushOwnLength(dest: Name, len: Name, result: Name, st: State, r: nat, t: nat)
    requires CanGrow(dest, st, r, t) && Old(len, r, t) && len in st.refs
    requires st.refs[len] == Place(PlaceOf(st, dest).base, PlaceOf(st, dest).path + [Len])
    ensures Eval(st, Variable(len)) == Some(Word(ArrayAt(st, dest).value.len))
    ensures var f := Run(Code(Push(dest, Some(Single(Variable(len))), result), r, t), st);
      && f.Some? && ArrayAt(f.value, dest).Some?
      && Contents(ArrayAt(f.value, dest).value)
         == Contents(ArrayAt(st, dest).value) + [Word(ArrayAt(st, dest).value.len + 1)]
  {
    var a, p, i := ArrayAt(st, dest).value, PlaceOf(st, dest), Indexed(dest, st, r, t);
    var call, v := Push(dest, Some(Single(Variable(len))), result), Word(ArrayAt(st, dest).value.len + 1);
    LoadLength(st, dest);
    IndexRuns(dest, st, r, t);
    LoadLength(Expanded(dest, st, r, t), dest);
    assert Eval(i, Variable(len)) == Some(v);
    PushAppends(call, st, r, t, v);
    ContentsAppended(dest, st, Run(Code(call, r, t), st).value, r, t, v);
  }

  lemma PushNothingRuns(call: ArrayCall, st: State, r: nat, t: nat)
    requires Ready(call, st, r, t) && call.Push? && call.arg == None
    ensures var f := Run(SetValueCode(call, r, t)[1..], Indexed(call.dest, st, r, t));
      f.Some? && Agree(f.value, Apply(call, st).value, r, t)
  {
    var i := Indexed(call.dest, st, r, t);
    var rest := SetValueCode(call, r, t)[1..];
    var a, p := ArrayAt(st, call.dest).value, PlaceOf(st, call.dest);
    ReadWrite(st.vars[p.base], p.path, a.(len := a.len + 1));
    ReadConcat(i.vars[p.base], p.path, [At(a.len)]);
    assert Cell(a, a.len) == a.zero;
    assert Read(a.(len := a.len + 1), [At(a.len)]) == Some(a.zero) by { assert [At(a.len)][1..] == []; }
    assert Eval(i, Variable(Ref(r + 1))) == Some(a.zero);
    assert Exec(rest[0], i) == Some(i.(vars := i.vars[call.result := a.zero]));
    assert rest[1..] == [];
  }

  /** The state of a pop once the last element was deleted. */
  function Deleted(dest: Name, st: State, r: nat, t: nat): State
    requires ArrayAt(st, dest).Some? && ArrayAt(st, dest).value.len > 0
  {
    var a, p := ArrayAt(st, dest).value, PlaceOf(st, dest);
    var cleared := PutArray(st, dest, a.(cells := a.cells[a.len - 1 := a.zero]));
    State(cleared.vars[Tmp(t) := Word(a.len - 1)],
          st.refs[Ref(r) := Place(p.base, p.path + [Len])][Ref(r + 1) := Place(p.base, p.path + [At(a.len - 1)])])
  }

  lemma DeleteRuns(call: ArrayCall, st: State, r: nat, t: nat)
    requires Ready(call, st, r, t) && call.Pop?
    ensures Run(DeleteCode(call.dest, r, t), st) == Some(Deleted(call.dest, st, r, t))
  {
    var dest, code := call.dest, DeleteCode(call.dest, r, t);
    var a, p := ArrayAt(st, dest).value, PlaceOf(st, dest);
    var s1 := st.(refs := st.refs[Ref(r) := Place(p.base, p.path + [Len])]);
    assert Exec(code[0], st) == Some(s1);
    LoadLength(s1, dest);
    var s2 := s1.(vars := s1.vars[Tmp(t) := Word(a.len - 1)]);
    assert Exec(code[1], s1) == Some(s2);
    var s3 := s2.(refs := s2.refs[Ref(r + 1) := Place(p.base, p.path + [At(a.len - 1)])]);
    assert Exec(code[2], s2) == Some(s3);
    ReadConcat(s3.vars[p.base], p.path, [At(a.len - 1)]);
    assert Read(a, [At(a.len - 1)]) == Some(Cell(a, a.len - 1)) by { assert [At(a.len - 1)][1..] == []; }
    StoreInArray(s3, dest, Ref(r + 1), At(a.len - 1), a.zero);
    var s4 := Deleted(dest, st, r, t);
    assert s4.vars == PutArray(s3, dest, a.(cells := a.cells[a.len - 1 := a.zero])).vars;
    assert Exec(code[3], s3) == Some(s4);
    RunFour(code, st, s1, s2, s3, s4);
  }

  lemma ShrinkRuns(call: ArrayCall, st: State, r: nat, t: nat) returns (f: State)
    requires Ready(call, st, r, t) && call.Pop?
    ensures Run(ShrinkCode(call.dest, r, t), Deleted(call.dest, st, r, t)) == Some(f)
    ensures f.vars == Apply(call, st).value.vars[Tmp(t) := Word(ArrayAt(st, call.dest).value.len - 1)]
    ensures var p := PlaceOf(st, call.dest);
      f.refs == Deleted(call.dest, st, r, t).refs[Ref(r + 2) := Place(p.base, p.path + [Len])]
  {
    var dest, code := call.dest, ShrinkCode(call.dest, r, t);
    var a, p := ArrayAt(st, dest).value, PlaceOf(st, dest);
    var b := a.(cells := a.cells[a.len - 1 := a.zero]);
    var s4 := Deleted(dest, st, r, t);
    ReadWrite(st.vars[p.base], p.path, b);
    var s5 := s4.(refs := s4.refs[Ref(r + 2) := Place(p.base, p.path + [Len])]);
    assert Exec(code[0], s4) == Some(s5);
    assert ArrayAt(s5, dest) == Some(b);
    StoreInArray(s5, dest, Ref(r + 2), Len, Word(a.len - 1));
    WriteWrite(st.vars[p.base], p.path, b, b.(len := a.len - 1));
    f := s5.(vars := s5.vars[p.base := Apply(call, st).value.vars[p.base]]);
    assert Exec(code[1], s5) == Some(f);
    RunTwo(code, s4, s5, f);
  }

  lemma PopRuns(call: ArrayCall, st: State, r: nat, t: nat)
    requires Ready(call, st, r, t) && call.Pop?
    ensures Run(Code(call, r, t), st).Some? && Apply(call, st).Some?
    ensures Agree(Run(Code(call, r, t), st).value, Apply(call, st).value, r, t)
  {
    DeleteRuns(call, st, r, t);
    var f := ShrinkRuns(call, st, r, t);
    RunConcat(DeleteCode(call.dest, r, t), ShrinkCode(call.dest, r, t), st);
  }

  lemma CallRuns(call: ArrayCall, st: State, r: nat, t: nat)
    requires Ready(call, st, r, t)
    ensures Run(Code(call, r, t), st).Some? && Apply(call, st).Some?
    ensures Agree(Run(Code(call, r, t), st).value, Apply(call, st).value, r, t)
  {
    if call.Push? { PushRuns(call, st, r, t); } else { PopRuns(call, st, r, t); }
  }

  // ---------------------------------------------------------------------------------------
  // Sequences of calls

  function ApplyAll(calls: seq<ArrayCall>, st: State): Option<State> {
    if calls == [] then Some(st)
    else match Apply(calls[0], st) case Some(next) => ApplyAll(calls[1..], next) case None => None
  }

  /** Every call is applicable when its turn comes. */
  predicate AllApplicable(calls: seq<ArrayCall>, st: State, r: nat, t: nat) {
    calls == [] || (Applicable(calls[0], st, r, t) && AllApplicable(calls[1..], Apply(calls[0], st).value, r, t))
  }

  /** Neither place is above the other one. */
  predicate Disjoint(p: Place, q: Place) {
    p.base != q.base || (!(p.path <= q.path) && !(q.path <= p.path))
  }

  predicate IsResult(call: ArrayCall, n: Name) {
    call.Push? && call.arg.None? && call.result == n
  }

  /** The call is on the same array as `dest`, or on one that has nothing to do with it. */
  predicate SeparateCall(call: ArrayCall, dest: Name, st: State) {
    var p := PlaceOf(st, dest);
    && (PlaceOf(st, call.dest) == p || Disjoint(PlaceOf(st, call.dest), p))
    && !IsResult(call, p.base)
  }

  /** `dest` is an array, and every call is on it or elsewhere. */
  ghost predicate Stack(calls: seq<ArrayCall>, dest: Name, st: State) {
    && ArrayAt(st, dest).Some? && WellFormed(ArrayAt(st, dest).value)
    && forall i :: 0 <= i < |calls| ==> SeparateCall(calls[i], dest, st)
  }

  /** The calls are on any number of arrays, none of them inside of another one. */
  ghost predicate Stacks(calls: seq<ArrayCall>, st: State) {
    forall i :: 0 <= i < |calls| ==> Stack(calls, calls[i].dest, st)
  }

  /** The contents of the stack at `p` after the calls; arguments are evaluated when their turn comes. */
  function StackAfter(calls: seq<ArrayCall>, p: Place, st: State, r: nat, t: nat, stack: seq<Value>): seq<Value>
    requires AllApplicable(calls, st, r, t)
  {
    if calls == [] then stack
    else
      var next :=
        if PlaceOf(st, calls[0].dest) != p then stack
        else match calls[0]
          case Push(_, Some(arg), _) => stack + [ArgumentValue(st, arg).value]
          case Push(dest, None, _) => stack + [ArrayAt(st, dest).value.zero]
          case Pop(_) => if stack == [] then [] else stack[..|stack| - 1];
      StackAfter(calls[1..], p, Apply(calls[0], st).value, r, t, next)
  }

  lemma {:induction false} RunKeepsReferences(code: seq<Instruction>, st: State)
    requires ReferencesOnly(st)
    requires forall i :: 0 <= i < |code| && (code[i].LengthOf? || code[i].Index?) ==> code[i].lvalue.Ref?
    ensures Run(code, st).Some? ==> ReferencesOnly(Run(code, st).value)
  {
    if code == [] || Exec(code[0], st).None? {
    } else {
      RunKeepsReferences(code[1..], Exec(code[0], st).value);
    }
  }

  lemma {:induction false} EvalAllAgrees(os: seq<Operand>, s: State, m: State, dest: Name, r: nat, t: nat)
    requires Agree(s, m, r, t) && forall i :: 0 <= i < |os| ==> Independent(os[i], m, dest, r, t)
    ensures EvalAll(s, os) == EvalAll(m, os)
  {
    if os == [] {
    } else {
      EvalAgrees(os[0], s, m, dest, r, t);
      EvalAllAgrees(os[1..], s, m, dest, r, t);
    }
  }

  lemma EvalAgrees(o: Operand, s: State, m: State, dest: Name, r: nat, t: nat)
    requires Agree(s, m, r, t) && Independent(o, m, dest, r, t)
    ensures Eval(s, o) == Eval(m, o)
  {
    if o.Variable? {
      assert Same(o.name, s, m) && Same(PlaceOf(m, o.name).base, s, m);
    }
  }

  lemma ArgumentAgrees(call: ArrayCall, s: State, m: State, r: nat, t: nat, r': nat, t': nat)
    requires Agree(s, m, r, t) && call.Push? && ArgumentIndependent(call, m, r, t) && r <= r' && t <= t'
    requires Same(call.dest, s, m)
    ensures ArgumentIndependent(call, s, r', t')
    ensures call.arg.Some? ==> ArgumentValue(s, call.arg.value) == ArgumentValue(m, call.arg.value)
  {
    match call.arg
    case Some(Single(o)) =>
      EvalAgrees(o, s, m, call.dest, r, t);
      assert o.Variable? ==> Same(o.name, s, m);
    case Some(ArrayLiteral(os)) =>
      EvalAllAgrees(os, s, m, call.dest, r, t);
      forall i | 0 <= i < |os| ensures Independent(os[i], s, call.dest, r', t') {
        assert Independent(os[i], m, call.dest, r, t);
        assert os[i].Variable? ==> Same(os[i].name, s, m);
      }
    case None =>
  }

  lemma ArrayAgrees(dest: Name, s: State, m: State, r: nat, t: nat)
    requires Agree(s, m, r, t) && Old(dest, r, t) && Old(PlaceOf(m, dest).base, r, t)
    ensures Same(dest, s, m) && ArrayAt(s, dest) == ArrayAt(m, dest) && PlaceOf(s, dest) == PlaceOf(m, dest)
  {
    assert Same(dest, s, m) && Same(PlaceOf(m, dest).base, s, m);
  }

  lemma ApplicableAgrees(call: ArrayCall, s: State, m: State, r: nat, t: nat, r': nat, t': nat)
    requires Agree(s, m, r, t) && Applicable(call, m, r, t) && r <= r' && t <= t'
    ensures Applicable(call, s, r', t')
    ensures ArrayAt(s, call.dest) == ArrayAt(m, call.dest) && PlaceOf(s, call.dest) == PlaceOf(m, call.dest)
    ensures call.Push? && call.arg.Some? ==> ArgumentValue(s, call.arg.value) == ArgumentValue(m, call.arg.value)
  {
    ArrayAgrees(call.dest, s, m, r, t);
    match call
    case Push(_, arg, result) =>
      ArgumentAgrees(call, s, m, r, t, r', t');
      assert arg.None? ==> Same(result, s, m);
    case Pop(_) =>
  }

  lemma PutAgrees(s: State, m: State, dest: Name, a: Value, r: nat, t: nat)
    requires Agree(s, m, r, t) && ArrayAt(m, dest).Some? && ArrayAt(s, dest).Some?
    requires Old(dest, r, t) && Old(PlaceOf(m, dest).base, r, t)
    ensures Agree(PutArray(s, dest, a), PutArray(m, dest, a), r, t)
  {
    assert Same(dest, s, m) && Same(PlaceOf(m, dest).base, s, m);
    forall n | Old(n, r, t) ensures Same(n, PutArray(s, dest, a), PutArray(m, dest, a)) { assert Same(n, s, m); }
  }

  lemma ResultAgrees(call: ArrayCall, s: State, m: State, r: nat, t: nat)
    requires Agree(s, m, r, t) && call.Push? && call.arg.None?
    requires Old(call.dest, r, t) && Old(PlaceOf(m, call.dest).base, r, t)
    requires ArrayAt(m, call.dest).Some? && ArrayAt(s, call.dest) == ArrayAt(m, call.dest)
    ensures Agree(Apply(call, s).value, Apply(call, m).value, r, t)
  {
    var a := ArrayAt(m, call.dest).value;
    var g, h := PutArray(s, call.dest, a.(len := a.len + 1)), PutArray(m, call.dest, a.(len := a.len + 1));
    PutAgrees(s, m, call.dest, a.(len := a.len + 1), r, t);
    forall n | Old(n, r, t) ensures Same(n, Apply(call, s).value, Apply(call, m).value) { assert Same(n, g, h); }
  }

  lemma ApplyAgrees(call: ArrayCall, s: State, m: State, r: nat, t: nat, r': nat, t': nat)
    requires Agree(s, m, r, t) && Applicable(call, m, r, t) && r <= r' && t <= t'
    ensures Apply(call, s).Some? && Apply(call, m).Some?
    ensures Agree(Apply(call, s).value, Apply(call, m).value, r, t)
  {
    ApplicableAgrees(call, s, m, r, t, r', t');
    var a := ArrayAt(m, call.dest).value;
    match call
    case Push(dest, Some(arg), _) =>
      PutAgrees(s, m, dest, Array(a.len + 1, a.cells[a.len := ArgumentValue(m, arg).value], a.zero), r, t);
    case Push(_, None, _) => ResultAgrees(call, s, m, r, t);
    case Pop(dest) => PutAgrees(s, m, dest, Array(a.len - 1, a.cells[a.len - 1 := a.zero], a.zero), r, t);
  }

  lemma StepRuns(call: ArrayCall, s: State, m: State, r: nat, t: nat, r': nat, t': nat)
    requires Agree(s, m, r, t) && Applicable(call, m, r, t) && r <= r' && t <= t' && ReferencesOnly(s)
    requires WellFormed(ArrayAt(m, call.dest).value)
    ensures Run(Code(call, r', t'), s).Some? && Apply(call, m).Some?
    ensures Agree(Run(Code(call, r', t'), s).value, Apply(call, m).value, r, t)
    ensures ReferencesOnly(Run(Code(call, r', t'), s).value)
  {
    ApplicableAgrees(call, s, m, r, t, r', t');
    ApplyAgrees(call, s, m, r, t, r', t');
    CallRuns(call, s, r', t');
    RunKeepsReferences(Code(call, r', t'), s);
    var s', m' := Run(Code(call, r', t'), s).value, Apply(call, m).value;
    forall n | Old(n, r, t) ensures Same(n, s', m') {
      assert Old(n, r', t') && Same(n, s', Apply(call, s).value) && Same(n, Apply(call, s).value, m');
    }
  }

  lemma ApplyElsewhere(call: ArrayCall, st: State, dest: Name)
    requires Apply(call, st).Some? && ArrayAt(st, dest).Some?
    requires Disjoint(PlaceOf(st, call.dest), PlaceOf(st, dest)) && !IsResult(call, PlaceOf(st, dest).base)
    ensures PlaceOf(Apply(call, st).value, dest) == PlaceOf(st, dest)
    ensures ArrayAt(Apply(call, st).value, dest) == ArrayAt(st, dest)
  {
    var a, p, q := ArrayAt(st, call.dest).value, PlaceOf(st, call.dest), PlaceOf(st, dest);
    if p.base == q.base {
      var b := match call
        case Push(_, Some(arg), _) => Array(a.len + 1, a.cells[a.len := ArgumentValue(st, arg).value], a.zero)
        case Push(_, None, _) => a.(len := a.len + 1)
        case Pop(_) => Array(a.len - 1, a.cells[a.len - 1 := a.zero], a.zero);
      ReadWrite(st.vars[p.base], p.path, b);
      ReadElsewhere(st.vars[p.base], p.path, b, q.path);
    }
  }

  lemma SamePlace(st: State, dest: Name, other: Name)
    requires PlaceOf(st, dest) == PlaceOf(st, other)
    ensures ArrayAt(st, dest) == ArrayAt(st, other)
  {
  }

  /** After the first call the array is still one, and the other calls are on it or elsewhere. */
  lemma StackStays(calls: seq<ArrayCall>, dest: Name, m: State, r: nat, t: nat)
    requires calls != [] && Stack(calls, dest, m)
    requires Applicable(calls[0], m, r, t) && WellFormed(ArrayAt(m, calls[0].dest).value)
    ensures Apply(calls[0], m).Some?
    ensures var next := Apply(calls[0], m).value;
      && next.refs == m.refs && PlaceOf(next, dest) == PlaceOf(m, dest) && Stack(calls[1..], dest, next)
      && ArrayAt(next, dest).value.zero == ArrayAt(m, dest).value.zero
      && (PlaceOf(m, calls[0].dest) != PlaceOf(m, dest) ==> ArrayAt(next, dest) == ArrayAt(m, dest))
  {
    var call, next := calls[0], Apply(calls[0], m).value;
    assert SeparateCall(call, dest, m);
    ApplyIsStackOperation(call, m);
    if PlaceOf(m, call.dest) == PlaceOf(m, dest) {
      SamePlace(m, call.dest, dest);
      SamePlace(next, call.dest, dest);
    } else {
      ApplyElsewhere(call, m, dest);
    }
    forall i | 0 <= i < |calls[1..]| ensures SeparateCall(calls[1..][i], dest, next) {
      assert SeparateCall(calls[i + 1], dest, m);
    }
  }

  lemma StacksStay(calls: seq<ArrayCall>, m: State, r: nat, t: nat)
    requires calls != [] && Stacks(calls, m) && Applicable(calls[0], m, r, t)
    ensures Apply(calls[0], m).Some? && Stacks(calls[1..], Apply(calls[0], m).value)
  {
    assert Stack(calls, calls[0].dest, m);
    forall i | 0 <= i < |calls[1..]| ensures Stack(calls[1..], calls[1..][i].dest, Apply(calls[0], m).value) {
      assert Stack(calls, calls[i + 1].dest, m);
      StackStays(calls, calls[i + 1].dest, m, r, t);
    }
  }

  lemma RestRuns(calls: seq<ArrayCall>, s: State, r: nat, t: nat) returns (r2: nat, t2: nat)
    requires calls != [] && Run(Code(calls[0], r, t), s).Some?
    ensures Run(CodeOf(calls, r, t), s) == Run(CodeOf(calls[1..], r2, t2), Run(Code(calls[0], r, t), s).value)
    ensures r <= r2 && t <= t2
  {
    r2, t2 := r + RefsUsed(calls[0]), t + TmpsUsed(calls[0]);
    RunConcat(Code(calls[0], r, t), CodeOf(calls[1..], r2, t2), s);
  }

  /** The states after the first call, by its code and by its meaning. */
  lemma FirstRuns(calls: seq<ArrayCall>, s: State, m: State, r: nat, t: nat, r': nat, t': nat)
    returns (s2: State, m2: State, r2: nat, t2: nat)
    requires calls != [] && AllApplicable(calls, m, r, t) && Stacks(calls, m) && r <= r' && t <= t'
    requires Agree(s, m, r, t) && ReferencesOnly(s)
    ensures Run(CodeOf(calls, r', t'), s) == Run(CodeOf(calls[1..], r2, t2), s2) && r' <= r2 && t' <= t2
    ensures ApplyAll(calls, m) == ApplyAll(calls[1..], m2)
    ensures AllApplicable(calls[1..], m2, r, t) && Stacks(calls[1..], m2)
    ensures Agree(s2, m2, r, t) && ReferencesOnly(s2)
  {
    assert Stack(calls, calls[0].dest, m);
    StepRuns(calls[0], s, m, r, t, r', t');
    StacksStay(calls, m, r, t);
    r2, t2 := RestRuns(calls, s, r', t');
    s2, m2 := Run(Code(calls[0], r', t'), s).value, Apply(calls[0], m).value;
  }

  /** The emitted code of any applicable sequence of calls runs, and leaves every variable that
      existed before as the calls themselves would. */
  lemma {:induction false} SequenceRuns(
    calls: seq<ArrayCall>, s: State, m: State, r: nat, t: nat, r': nat, t': nat)
    requires AllApplicable(calls, m, r, t) && Stacks(calls, m) && r <= r' && t <= t'
    requires Agree(s, m, r, t) && ReferencesOnly(s)
    ensures Run(CodeOf(calls, r', t'), s).Some? && ApplyAll(calls, m).Some?
    ensures Agree(Run(CodeOf(calls, r', t'), s).value, ApplyAll(calls, m).value, r, t)
    decreases calls
  {
    if calls == [] {
    } else {
      var s2, m2, r2, t2 := FirstRuns(calls, s, m, r, t, r', t');
      SequenceRuns(calls[1..], s2, m2, r, t, r2, t2);
    }
  }

  /** The calls act on each array as on a stack. */
  lemma {:induction false} SequenceIsStack(calls: seq<ArrayCall>, dest: Name, m: State, r: nat, t: nat)
    requires AllApplicable(calls, m, r, t) && Stacks(calls, m) && Stack(calls, dest, m)
    ensures ApplyAll(calls, m).Some?
    ensures var f := ApplyAll(calls, m).value;
      && f.refs == m.refs && ArrayAt(f, dest).Some? && WellFormed(ArrayAt(f, dest).value)
      && Contents(ArrayAt(f, dest).value)
         == StackAfter(calls, PlaceOf(m, dest), m, r, t, Contents(ArrayAt(m, dest).value))
  {
    if calls == [] {
    } else {
      assert Stack(calls, calls[0].dest, m);
      StacksStay(calls, m, r, t);
      StackStays(calls, dest, m, r, t);
      ApplyIsStackOperation(calls[0], m);
      var next := Apply(calls[0], m).value;
      if PlaceOf(m, calls[0].dest) == PlaceOf(m, dest) {
        SamePlace(m, calls[0].dest, dest);
        SamePlace(next, calls[0].dest, dest);
      }
      SequenceIsStack(calls[1..], dest, next, r, t);
    }
  }

  /** The call changes the variable: its array is inside, or it is the result. */
  predicate Touches(call: ArrayCall, n: Name, st: State) {
    PlaceOf(st, call.dest).base == n || IsResult(call, n)
  }

  /** The calls change no variable but those of their arrays and their results. */
  lemma {:induction false} SequenceTouches(calls: seq<ArrayCall>, m: State, r: nat, t: nat, n: Name)
    requires AllApplicable(calls, m, r, t) && Stacks(calls, m) && ApplyAll(calls, m).Some?
    requires forall i :: 0 <= i < |calls| ==> !Touches(calls[i], n, m)
    ensures SameValue(n, m, ApplyAll(calls, m).value)
  {
    if calls == [] {
    } else {
      var rest, next := calls[1..], Apply(calls[0], m).value;
      assert Stack(calls, calls[0].dest, m) && !Touches(calls[0], n, m);
      StacksStay(calls, m, r, t);
      ApplyIsStackOperation(calls[0], m);
      forall i | 0 <= i < |rest| ensures !Touches(rest[i], n, next) { assert !Touches(calls[i + 1], n, m); }
      SequenceTouches(rest, next, r, t, n);
    }
  }

  /** The result of a `push()` that no later one assigns again. */
  predicate LastResult(calls: seq<ArrayCall>, i: nat)
    requires i < |calls|
  {
    && calls[i].Push? && calls[i].arg.None?
    && forall k :: i < k < |calls| ==> !IsResult(calls[k], calls[i].result)
  }

  predicate Holds(n: Name, st: State, v: Value) {
    n in st.vars && st.vars[n] == v
  }

  /** A result ends as the default element of its array. */
  lemma {:induction false} ResultIsDefault(calls: seq<ArrayCall>, m: State, r: nat, t: nat, i: nat)
    requires AllApplicable(calls, m, r, t) && Stacks(calls, m) && ApplyAll(calls, m).Some?
    requires i < |calls| && LastResult(calls, i)
    ensures Old(calls[i].result, r, t)
    ensures ArrayAt(m, calls[i].dest).Some?
    ensures Holds(calls[i].result, ApplyAll(calls, m).value, ArrayAt(m, calls[i].dest).value.zero)
    decreases calls
  {
    var rest, n, next := calls[1..], calls[i].result, Apply(calls[0], m).value;
    assert Stack(calls, calls[0].dest, m) && Stack(calls, calls[i].dest, m);
    StacksStay(calls, m, r, t);
    ApplyIsStackOperation(calls[0], m);
    if i == 0 {
      forall k | 0 <= k < |rest| ensures !Touches(rest[k], n, next) {
        assert Stack(calls, calls[k + 1].dest, m) && SeparateCall(calls[0], calls[k + 1].dest, m);
      }
      SequenceTouches(rest, next, r, t, n);
    } else {
      StackStays(calls, calls[i].dest, m, r, t);
      assert forall k :: i - 1 < k < |rest| ==> rest[k] == calls[k + 1];
      ResultIsDefault(rest, next, r, t, i - 1);
    }
  }

  /** The array has these contents, and its cells at or beyond the length are default. */
  ghost predicate EndsAs(contents: seq<Value>, dest: Name, f: State) {
    ArrayAt(f, dest).Some? && WellFormed(ArrayAt(f, dest).value) && Contents(ArrayAt(f, dest).value) == contents
  }

  /** Main statement, from any state: the lowering of `push` and `pop` preserves meaning.  Every array ends with
      the contents of its stack, each `push()` has assigned the default element to its result, and no other
      variable that existed before has changed. */
  lemma LoweringPreservesMeaning(calls: seq<ArrayCall>, st: State, r: nat, t: nat)
    requires AllApplicable(calls, st, r, t) && ReferencesOnly(st) && Stacks(calls, st)
    ensures Run(CodeOf(calls, r, t), st).Some? && ApplyAll(calls, st).Some?
    ensures Agree(Run(CodeOf(calls, r, t), st).value, ApplyAll(calls, st).value, r, t)
    ensures forall dest :: Old(dest, r, t) && Old(PlaceOf(st, dest).base, r, t) && Stack(calls, dest, st) ==>
      EndsAs(StackAfter(calls, PlaceOf(st, dest), st, r, t, Contents(ArrayAt(st, dest).value)),
             dest, Run(CodeOf(calls, r, t), st).value)
    ensures forall i :: 0 <= i < |calls| && LastResult(calls, i) ==>
      && ArrayAt(st, calls[i].dest).Some?
      && Holds(calls[i].result, Run(CodeOf(calls, r, t), st).value, ArrayAt(st, calls[i].dest).value.zero)
    ensures forall n :: Old(n, r, t) && (forall i :: 0 <= i < |calls| ==> !Touches(calls[i], n, st)) ==>
      SameValue(n, st, Run(CodeOf(calls, r, t), st).value)
  {
    SequenceRuns(calls, st, st, r, t, r, t);
    var f, g := Run(CodeOf(calls, r, t), st).value, ApplyAll(calls, st).value;
    forall dest | Old(dest, r, t) && Old(PlaceOf(st, dest).base, r, t) && Stack(calls, dest, st)
      ensures EndsAs(StackAfter(calls, PlaceOf(st, dest), st, r, t, Contents(ArrayAt(st, dest).value)), dest, f)
    {
      SequenceIsStack(calls, dest, st, r, t);
      ArrayAgrees(dest, f, g, r, t);
    }
    forall i | 0 <= i < |calls| && LastResult(calls, i)
      ensures ArrayAt(st, calls[i].dest).Some? && Holds(calls[i].result, f, ArrayAt(st, calls[i].dest).value.zero)
    {
      ResultIsDefault(calls, st, r, t, i);
      assert Same(calls[i].result, f, g);
    }
    forall n | Old(n, r, t) && (forall i :: 0 <= i < |calls| ==> !Touches(calls[i], n, st)) ensures SameValue(n, st, f) {
      SequenceTouches(calls, st, r, t, n);
      assert Same(n, f, g);
    }
  }
}
