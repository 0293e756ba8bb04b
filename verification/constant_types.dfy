/** `convert_constant_types`: the late conversion of operands to signed integer types. */
module ConstantTypes {

  datatype Elementary = Signed(bits: nat) | OtherElementary(name: string)

  datatype Type = Elem(e: Elementary) | ArrayOf(e: Elementary) | OtherType

  predicate IsSigned(t: Type) {
    t.Elem? && t.e.Signed?
  }

  predicate IsSignedArray(t: Type) {
    t.ArrayOf? && t.e.Signed?
  }

  /** A variable of the IR. It is shared by the instructions that mention it. */
  class Variable {
    const isConstant: bool
    var ty: Type

    constructor (isConstant: bool, ty: Type)
      requires isConstant ==> ty.Elem?
      ensures this.isConstant == isConstant && this.ty == ty
    {
      this.isConstant := isConstant;
      this.ty := ty;
    }
  }

  /** Calls and structure creations convert by the types of parameters and fields. */
  datatype Ir =
    | Assign(lvalue: Variable, read: seq<Variable>)
    | Apply(types: seq<Type>, arguments: seq<Variable>)
    | InitArray(lvalue: Variable, read: seq<Variable>)

  predicate MentionsOnly(ir: Ir, vs: set<Variable>) {
    match ir
    case Assign(lvalue, read) => lvalue in vs && forall v :: v in read ==> v in vs
    case Apply(types, arguments) => |types| == |arguments| && forall v :: v in arguments ==> v in vs
    case InitArray(lvalue, read) => lvalue in vs && forall v :: v in read ==> v in vs
  }

  predicate AllMention(irs: seq<Ir>, vs: set<Variable>) {
    forall ir :: ir in irs ==> MentionsOnly(ir, vs)
  }

  type Typing = map<Variable, Type>

  function TypesOf(vs: set<Variable>): (t: Typing)
    reads vs
    ensures t.Keys == vs
  {
    map v | v in vs :: v.ty
  }

  // ---------------------------------------------------------------------------------------
  // The rules

  /** A set of operands is closed under the rule of one instruction. The loops have a rule for array
      literals too, but it never applies (`LiteralsAreSkipped`). */
  ghost predicate Respects(ir: Ir, s: set<Variable>) {
    match ir
    case Assign(lvalue, read) =>
      lvalue in s ==> forall v :: v in read && v.isConstant ==> v in s
    case Apply(types, arguments) =>
      forall i :: 0 <= i < |types| && i < |arguments| && IsSigned(types[i]) ==> arguments[i] in s
    case InitArray(lvalue, read) => true
  }

  ghost predicate Closed(irs: seq<Ir>, t: Typing, s: set<Variable>) {
    && (forall v :: v in t && IsSigned(t[v]) ==> v in s)
    && (forall ir :: ir in irs ==> Respects(ir, s))
  }

  /** The operands that are in every closed set. */
  ghost function Least(irs: seq<Ir>, t: Typing): set<Variable> {
    set v | v in t && forall s: set<Variable> :: s <= t.Keys && Closed(irs, t, s) ==> v in s
  }

  lemma LeastIsClosed(irs: seq<Ir>, t: Typing)
    requires AllMention(irs, t.Keys)
    ensures Closed(irs, t, Least(irs, t))
  {
    var least := Least(irs, t);
    forall ir | ir in irs ensures Respects(ir, least) {
      assert MentionsOnly(ir, t.Keys);
      forall s: set<Variable> | s <= t.Keys && Closed(irs, t, s) ensures Respects(ir, s) {}
    }
  }

  lemma LeastIsBelow(irs: seq<Ir>, t: Typing, s: set<Variable>)
    requires s <= t.Keys && Closed(irs, t, s)
    ensures Least(irs, t) <= s
  {
  }

  // ---------------------------------------------------------------------------------------
  // What the loops compute

  function SignedIn(t: Typing): set<Variable> {
    set v | v in t && IsSigned(t[v])
  }

  /** Types change only from unsigned to signed ones. */
  predicate Grows(t: Typing, u: Typing) {
    u.Keys == t.Keys && forall v :: v in t ==> u[v] == t[v] || (!IsSigned(t[v]) && IsSigned(u[v]))
  }

  function ReadConverted(read: seq<Variable>, n: nat, ty: Type, t: Typing): (u: Typing)
    requires n <= |read| && (forall v :: v in read ==> v in t) && IsSigned(ty)
    ensures Grows(t, u)
  {
    if n == 0 then t
    else
      var u, r := ReadConverted(read, n - 1, ty, t), read[n - 1];
      if r.isConstant && !IsSigned(u[r]) then u[r := ty] else u
  }

  function ArgumentsConverted(types: seq<Type>, arguments: seq<Variable>, n: nat, t: Typing): (u: Typing)
    requires n <= |arguments| == |types| && forall v :: v in arguments ==> v in t
    ensures Grows(t, u)
  {
    if n == 0 then t
    else
      var u, a := ArgumentsConverted(types, arguments, n - 1, t), arguments[n - 1];
      if IsSigned(types[n - 1]) && !IsSigned(u[a]) then u[a := types[n - 1]] else u
  }

  /** An array constant whose elements are not signed. */
  predicate Convertible(v: Variable, t: Typing) {
    v in t && v.isConstant && t[v].ArrayOf? && !t[v].e.Signed?
  }

  function ElementsConverted(read: seq<Variable>, n: nat, e: Elementary, t: Typing): (u: Typing)
    requires n <= |read| && (forall v :: v in read ==> v in t) && e.Signed?
    ensures Grows(t, u)
  {
    if n == 0 then t
    else
      var u, r := ElementsConverted(read, n - 1, e, t), read[n - 1];
      if Convertible(r, u) then u[r := Elem(e)] else u
  }

  /** One instruction; it mentions only variables that have a type. */
  function Step(ir: Ir, t: Typing): (u: Typing)
    ensures Grows(t, u)
  {
    if !MentionsOnly(ir, t.Keys) then t
    else match ir
    case Assign(lvalue, read) => if IsSigned(t[lvalue]) then ReadConverted(read, |read|, t[lvalue], t) else t
    case Apply(types, arguments) => ArgumentsConverted(types, arguments, |arguments|, t)
    case InitArray(lvalue, read) =>
      if IsSignedArray(t[lvalue]) then ElementsConverted(read, |read|, t[lvalue].e, t) else t
  }

  /** The first `n` instructions in turn. */
  function Pass(irs: seq<Ir>, n: nat, t: Typing): (u: Typing)
    requires n <= |irs|
    ensures Grows(t, u)
  {
    if n == 0 then t else Step(irs[n - 1], Pass(irs, n - 1, t))
  }

  lemma GrowsMore(t: Typing, u: Typing)
    requires Grows(t, u) && u != t
    ensures SignedIn(t) < SignedIn(u) && u.Keys - SignedIn(u) < t.Keys - SignedIn(t)
  {
    assert exists v :: v in t && u[v] != t[v];
    var v :| v in t && u[v] != t[v];
    assert v in SignedIn(u) && v !in SignedIn(t);
  }

  /** Passes until one changes nothing. */
  function Final(irs: seq<Ir>, t: Typing): (u: Typing)
    ensures Grows(t, u)
    decreases t.Keys - SignedIn(t)
  {
    var u := Pass(irs, |irs|, t);
    if u == t then t
    else
      GrowsMore(t, u);
      Final(irs, u)
  }

  // ---------------------------------------------------------------------------------------
  // The loops

  lemma Changed(vs: set<Variable>, t: Typing, v: Variable, ty: Type)
    requires v in vs && t.Keys == vs && v.ty == ty && forall w :: w in vs && w != v ==> w.ty == t[w]
    ensures TypesOf(vs) == t[v := ty]
  {
  }

  method ConvertConstantTypes(irs: seq<Ir>, ghost vs: set<Variable>)
    requires AllMention(irs, vs)
    modifies vs
    ensures TypesOf(vs) == Final(irs, old(TypesOf(vs)))
    ensures ConstantsAreElementary(old(TypesOf(vs))) ==> SignedIn(TypesOf(vs)) == Least(irs, old(TypesOf(vs)))
  {
    ghost var start := TypesOf(vs);
    if ConstantsAreElementary(start) { OrderIndependent(irs, irs, start); }
    var wasChanged := true;
    while wasChanged
      invariant Final(irs, old(TypesOf(vs))) == if wasChanged then Final(irs, TypesOf(vs)) else TypesOf(vs)
      decreases vs - SignedIn(TypesOf(vs)), wasChanged
    {
      wasChanged := false;
      ghost var t := TypesOf(vs);
      for i := 0 to |irs|
        invariant TypesOf(vs) == Pass(irs, i, t)
        invariant wasChanged <==> TypesOf(vs) != t
      {
        assert irs[i] in irs;
        var changed := ConvertOne(irs[i], vs);
        StillChanged(t, Pass(irs, i, t), TypesOf(vs));
        wasChanged := wasChanged || changed;
      }
      if wasChanged { GrowsMore(t, TypesOf(vs)); }
    }
  }

  lemma StillChanged(t: Typing, u: Typing, w: Typing)
    requires Grows(t, u) && Grows(u, w)
    ensures w == t <==> u == t && w == u
  {
    if u != t { var v :| v in t && u[v] != t[v]; assert w[v] != t[v]; }
  }

  method ConvertOne(ir: Ir, ghost vs: set<Variable>) returns (changed: bool)
    requires MentionsOnly(ir, vs)
    modifies vs
    ensures TypesOf(vs) == Step(ir, old(TypesOf(vs)))
    ensures changed <==> TypesOf(vs) != old(TypesOf(vs))
  {
    match ir
    case Assign(lvalue, read) => changed := ConvertRead(lvalue, read, vs);
    case Apply(types, arguments) => changed := ConvertArguments(types, arguments, vs);
    case InitArray(lvalue, read) => changed := ConvertElements(lvalue, read, vs);
  }

  method ConvertRead(lvalue: Variable, read: seq<Variable>, ghost vs: set<Variable>) returns (changed: bool)
    requires MentionsOnly(Assign(lvalue, read), vs)
    modifies vs
    ensures TypesOf(vs) == Step(Assign(lvalue, read), old(TypesOf(vs)))
    ensures changed <==> TypesOf(vs) != old(TypesOf(vs))
  {
    changed := false;
    if IsSigned(lvalue.ty) {
      ghost var t := TypesOf(vs);
      for k := 0 to |read|
        invariant TypesOf(vs) == ReadConverted(read, k, t[lvalue], t)
        invariant changed <==> TypesOf(vs) != t
      {
        assert read[k] in read;
        if read[k].isConstant && !IsSigned(read[k].ty) {
          ghost var u := TypesOf(vs);
          assert lvalue.ty == u[lvalue] == t[lvalue];
          read[k].ty := lvalue.ty;
          Changed(vs, u, read[k], t[lvalue]);
          StillChanged(t, u, TypesOf(vs));
          changed := true;
        }
      }
    }
  }

  method ConvertArguments(types: seq<Type>, arguments: seq<Variable>, ghost vs: set<Variable>) returns (changed: bool)
    requires MentionsOnly(Apply(types, arguments), vs)
    modifies vs
    ensures TypesOf(vs) == Step(Apply(types, arguments), old(TypesOf(vs)))
    ensures changed <==> TypesOf(vs) != old(TypesOf(vs))
  {
    changed := false;
    ghost var t := TypesOf(vs);
    for k := 0 to |arguments|
      invariant TypesOf(vs) == ArgumentsConverted(types, arguments, k, t)
      invariant changed <==> TypesOf(vs) != t
    {
      assert arguments[k] in arguments;
      if IsSigned(types[k]) && !IsSigned(arguments[k].ty) {
        ghost var u := TypesOf(vs);
        arguments[k].ty := types[k];
        Changed(vs, u, arguments[k], types[k]);
        StillChanged(t, u, TypesOf(vs));
        changed := true;
      }
    }
  }

  method ConvertElements(lvalue: Variable, read: seq<Variable>, ghost vs: set<Variable>) returns (changed: bool)
    requires MentionsOnly(InitArray(lvalue, read), vs)
    modifies vs
    ensures TypesOf(vs) == Step(InitArray(lvalue, read), old(TypesOf(vs)))
    ensures changed <==> TypesOf(vs) != old(TypesOf(vs))
  {
    changed := false;
    if IsSignedArray(lvalue.ty) {
      ghost var t := TypesOf(vs);
      for k := 0 to |read|
        invariant TypesOf(vs) == ElementsConverted(read, k, t[lvalue].e, t)
        invariant lvalue.ty == t[lvalue]
        invariant changed <==> TypesOf(vs) != t
      {
        assert read[k] in read;
        if read[k].isConstant && read[k].ty.ArrayOf? && !read[k].ty.e.Signed? {
          ghost var u := TypesOf(vs);
          read[k].ty := Elem(lvalue.ty.e);
          Changed(vs, u, read[k], Elem(t[lvalue].e));
          StillChanged(t, u, TypesOf(vs));
          changed := true;
        }
      }
    }
  }

  // ---------------------------------------------------------------------------------------
  // Array literals

  /** Constants have elementary types from the start. */
  predicate ConstantsAreElementary(t: Typing) {
    forall v :: v in t && v.isConstant ==> t[v].Elem?
  }

  lemma StayElementary(t: Typing, u: Typing)
    requires ConstantsAreElementary(t) && Grows(t, u)
    ensures ConstantsAreElementary(u)
  {
  }

  lemma {:induction false} NoElementConverted(read: seq<Variable>, n: nat, e: Elementary, t: Typing)
    requires n <= |read| && (forall v :: v in read ==> v in t) && e.Signed? && ConstantsAreElementary(t)
    ensures ElementsConverted(read, n, e, t) == t
  {
    if n == 0 {
    } else {
      NoElementConverted(read, n - 1, e, t);
    }
  }

  /** The rule for array literals looks for constants of array type, and so it never changes anything. */
  lemma LiteralsAreSkipped(a: Variable, read: seq<Variable>, t: Typing)
    requires ConstantsAreElementary(t)
    ensures Step(InitArray(a, read), t) == t
  {
    if MentionsOnly(InitArray(a, read), t.Keys) && IsSignedArray(t[a]) {
      NoElementConverted(read, |read|, t[a].e, t);
    }
  }

  // ---------------------------------------------------------------------------------------
  // No more than the least closed set

  lemma {:induction false} ReadWithin(read: seq<Variable>, n: nat, ty: Type, t: Typing, s: set<Variable>)
    requires n <= |read| && (forall v :: v in read ==> v in t) && IsSigned(ty)
    requires SignedIn(t) <= s && forall v :: v in read && v.isConstant ==> v in s
    ensures SignedIn(ReadConverted(read, n, ty, t)) <= s
  {
    if n == 0 {
    } else {
      ReadWithin(read, n - 1, ty, t, s);
      assert read[n - 1] in read;
    }
  }

  lemma {:induction false} ArgumentsWithin(
    types: seq<Type>, arguments: seq<Variable>, n: nat, t: Typing, s: set<Variable>)
    requires n <= |arguments| == |types| && forall v :: v in arguments ==> v in t
    requires SignedIn(t) <= s && forall i :: 0 <= i < |types| && IsSigned(types[i]) ==> arguments[i] in s
    ensures SignedIn(ArgumentsConverted(types, arguments, n, t)) <= s
  {
    if n == 0 {
    } else {
      ArgumentsWithin(types, arguments, n - 1, t, s);
    }
  }

  lemma StepWithin(ir: Ir, t: Typing, s: set<Variable>)
    requires MentionsOnly(ir, t.Keys) && ConstantsAreElementary(t) && SignedIn(t) <= s && Respects(ir, s)
    ensures SignedIn(Step(ir, t)) <= s
  {
    match ir
    case Assign(lvalue, read) => if IsSigned(t[lvalue]) { ReadWithin(read, |read|, t[lvalue], t, s); }
    case Apply(types, arguments) => ArgumentsWithin(types, arguments, |arguments|, t, s);
    case InitArray(lvalue, read) => LiteralsAreSkipped(lvalue, read, t);
  }

  lemma GrowsOn(t: Typing, u: Typing, w: Typing)
    requires Grows(t, u) && Grows(u, w)
    ensures Grows(t, w)
  {
  }

  lemma {:induction false} PassWithin(irs: seq<Ir>, n: nat, t: Typing, s: set<Variable>)
    requires n <= |irs| && AllMention(irs, t.Keys) && ConstantsAreElementary(t) && Closed(irs, t, s)
    ensures SignedIn(Pass(irs, n, t)) <= s
  {
    if n == 0 {
    } else {
      PassWithin(irs, n - 1, t, s);
      StepWithin(irs[n - 1], Pass(irs, n - 1, t), s);
    }
  }

  /** Nothing outside of a closed set becomes signed. */
  lemma {:induction false} FinalWithin(irs: seq<Ir>, t: Typing, s: set<Variable>)
    requires AllMention(irs, t.Keys) && ConstantsAreElementary(t) && Closed(irs, t, s)
    ensures SignedIn(Final(irs, t)) <= s
    decreases t.Keys - SignedIn(t)
  {
    var u := Pass(irs, |irs|, t);
    PassWithin(irs, |irs|, t, s);
    if u == t {
    } else {
      GrowsMore(t, u);
      assert forall v :: v in u && IsSigned(u[v]) ==> v in SignedIn(u);
      FinalWithin(irs, u, s);
    }
  }

  // ---------------------------------------------------------------------------------------
  // No less than what the rules force

  lemma {:induction false} PassUnchanged(irs: seq<Ir>, n: nat, t: Typing)
    requires n <= |irs| && Pass(irs, |irs|, t) == t
    ensures Pass(irs, n, t) == t && forall i :: n <= i < |irs| ==> Step(irs[i], t) == t
    decreases |irs| - n
  {
    if n == |irs| {
    } else {
      PassUnchanged(irs, n + 1, t);
      StillChanged(t, Pass(irs, n, t), Pass(irs, n + 1, t));
    }
  }

  lemma {:induction false} FinalUnchanged(irs: seq<Ir>, t: Typing)
    ensures forall i :: 0 <= i < |irs| ==> Step(irs[i], Final(irs, t)) == Final(irs, t)
    decreases t.Keys - SignedIn(t)
  {
    var u := Pass(irs, |irs|, t);
    if u == t {
      PassUnchanged(irs, 0, t);
    } else {
      GrowsMore(t, u);
      FinalUnchanged(irs, u);
    }
  }

  lemma {:induction false} ReadDone(read: seq<Variable>, n: nat, ty: Type, t: Typing)
    requires n <= |read| && (forall v :: v in read ==> v in t) && IsSigned(ty) && ReadConverted(read, n, ty, t) == t
    ensures forall i :: 0 <= i < n && read[i].isConstant ==> IsSigned(t[read[i]])
  {
    if n == 0 {
    } else {
      StillChanged(t, ReadConverted(read, n - 1, ty, t), ReadConverted(read, n, ty, t));
      ReadDone(read, n - 1, ty, t);
    }
  }

  lemma {:induction false} ArgumentsDone(types: seq<Type>, arguments: seq<Variable>, n: nat, t: Typing)
    requires n <= |arguments| == |types| && (forall v :: v in arguments ==> v in t)
    requires ArgumentsConverted(types, arguments, n, t) == t
    ensures forall i :: 0 <= i < n && IsSigned(types[i]) ==> IsSigned(t[arguments[i]])
  {
    if n == 0 {
    } else {
      StillChanged(t, ArgumentsConverted(types, arguments, n - 1, t), ArgumentsConverted(types, arguments, n, t));
      ArgumentsDone(types, arguments, n - 1, t);
    }
  }

  /** An instruction with nothing left to convert is respected. */
  lemma StepDone(ir: Ir, t: Typing)
    requires MentionsOnly(ir, t.Keys) && Step(ir, t) == t
    ensures Respects(ir, SignedIn(t))
  {
    match ir
    case Assign(lvalue, read) => if IsSigned(t[lvalue]) { ReadDone(read, |read|, t[lvalue], t); }
    case Apply(types, arguments) => ArgumentsDone(types, arguments, |arguments|, t);
    case InitArray(_, _) =>
  }

  /** Whatever the order and repetition of the instructions, exactly the least closed set ends signed. */
  lemma OrderIndependent(irs: seq<Ir>, other: seq<Ir>, t: Typing)
    requires AllMention(irs, t.Keys) && ConstantsAreElementary(t) && forall ir :: ir in irs <==> ir in other
    ensures SignedIn(Final(other, t)) == Least(irs, t)
  {
    var u := Final(other, t);
    LeastIsClosed(irs, t);
    FinalWithin(other, t, Least(irs, t));
    FinalUnchanged(other, t);
    forall ir | ir in irs ensures Respects(ir, SignedIn(u)) { StepDone(ir, u); }
    LeastIsBelow(irs, t, SignedIn(u));
  }

  // ---------------------------------------------------------------------------------------
  // The result at one look

  /** Only variables are assigned to. */
  predicate AssignsVariables(irs: seq<Ir>) {
    forall ir :: ir in irs && ir.Assign? ==> !ir.lvalue.isConstant
  }

  /** Some call or structure takes `v` where a signed type is declared. */
  predicate Expected(irs: seq<Ir>, v: Variable) {
    exists ir, k :: ir in irs && ir.Apply? && 0 <= k < |ir.types| && k < |ir.arguments|
      && IsSigned(ir.types[k]) && ir.arguments[k] == v
  }

  predicate SignedOrExpected(irs: seq<Ir>, t: Typing, v: Variable) {
    v in t && (IsSigned(t[v]) || Expected(irs, v))
  }

  /** `v` is signed or expected to be, or a constant that such a variable is computed from. */
  predicate Forced(irs: seq<Ir>, t: Typing, v: Variable) {
    || SignedOrExpected(irs, t, v)
    || (v.isConstant && exists ir :: ir in irs && ir.Assign? && v in ir.read && SignedOrExpected(irs, t, ir.lvalue))
  }

  /** The repeated passes make exactly those operands signed that are forced in the input. */
  lemma SignedExactly(irs: seq<Ir>, t: Typing, v: Variable)
    requires AllMention(irs, t.Keys) && ConstantsAreElementary(t) && AssignsVariables(irs) && v in t
    ensures v in SignedIn(Final(irs, t)) <==> Forced(irs, t, v)
  {
    OrderIndependent(irs, irs, t);
    LeastIsClosed(irs, t);
    var forced := set w | w in t && Forced(irs, t, w);
    forall ir | ir in irs ensures Respects(ir, forced) {
      assert MentionsOnly(ir, t.Keys);
      match ir
      case Assign(lvalue, read) =>
      case Apply(types, arguments) =>
        forall i | 0 <= i < |types| && IsSigned(types[i]) ensures arguments[i] in forced {
          assert arguments[i] in arguments && Expected(irs, arguments[i]);
        }
      case InitArray(_, _) =>
    }
    LeastIsBelow(irs, t, forced);
  }

  /** The constants in the literal of a signed array are signed. */
  predicate LiteralConverted(ir: Ir, t: Typing, signed: set<Variable>)
    requires MentionsOnly(ir, t.Keys)
  {
    ir.InitArray? && IsSignedArray(t[ir.lvalue]) ==> forall v :: v in ir.read && v.isConstant ==> v in signed
  }

  /** What the rule for array literals is for holds at the end if and only if other instructions force it. */
  lemma LiteralsConvertedExactly(irs: seq<Ir>, t: Typing)
    requires AllMention(irs, t.Keys) && ConstantsAreElementary(t) && AssignsVariables(irs)
    ensures (forall ir :: ir in irs ==> LiteralConverted(ir, t, SignedIn(Final(irs, t))))
      <==> forall ir, v :: ir in irs && ir.InitArray? && IsSignedArray(t[ir.lvalue]) && v in ir.read && v.isConstant ==>
             Forced(irs, t, v)
  {
    forall v | v in t ensures v in SignedIn(Final(irs, t)) <==> Forced(irs, t, v) { SignedExactly(irs, t, v); }
    if forall ir :: ir in irs ==> LiteralConverted(ir, t, SignedIn(Final(irs, t))) {
      forall ir, v | ir in irs && ir.InitArray? && IsSignedArray(t[ir.lvalue]) && v in ir.read && v.isConstant
        ensures Forced(irs, t, v)
      {
        assert LiteralConverted(ir, t, SignedIn(Final(irs, t)));
      }
    }
  }

  /** A constant that only array literals read keeps its type, whatever the type of the array. */
  lemma LiteralConstantStays(irs: seq<Ir>, t: Typing, c: Variable)
    requires AllMention(irs, t.Keys) && ConstantsAreElementary(t) && AssignsVariables(irs) && c in t
    requires forall ir :: ir in irs ==>
      match ir case Assign(_, read) => c !in read case Apply(_, arguments) => c !in arguments case InitArray(_, _) => true
    ensures Final(irs, t)[c] == t[c]
  {
    SignedExactly(irs, t, c);
    assert !Expected(irs, c);
  }

  // ---------------------------------------------------------------------------------------
  // Where the new types come from

  /** In the typing `u` the operand has the type that the instruction gives it. */
  ghost predicate Gives(ir: Ir, t: Typing, u: Typing, v: Variable)
    requires u.Keys == t.Keys && v in t
  {
    MentionsOnly(ir, t.Keys) &&
    match ir
    case Assign(lvalue, read) => v in read && v.isConstant && IsSigned(u[lvalue]) && u[v] == u[lvalue]
    case Apply(types, arguments) => exists k :: 0 <= k < |types| && arguments[k] == v && types[k] == u[v]
    case InitArray(_, _) => false
  }

  /** `v` kept its type, or got it from an instruction. */
  ghost predicate Given(irs: seq<Ir>, t: Typing, u: Typing, v: Variable) {
    Grows(t, u) && v in t && (u[v] == t[v] || exists ir :: ir in irs && Gives(ir, t, u, v))
  }

  lemma {:induction false} ReadGiven(read: seq<Variable>, n: nat, ty: Type, t: Typing, v: Variable)
    requires n <= |read| && (forall w :: w in read ==> w in t) && IsSigned(ty) && v in t
    requires ReadConverted(read, n, ty, t)[v] != t[v]
    ensures v in read && v.isConstant && ReadConverted(read, n, ty, t)[v] == ty
  {
    if n == 0 {
    } else {
      assert read[n - 1] in read;
      if ReadConverted(read, n - 1, ty, t)[v] != t[v] { ReadGiven(read, n - 1, ty, t, v); }
    }
  }

  lemma {:induction false} ArgumentsGiven(types: seq<Type>, arguments: seq<Variable>, n: nat, t: Typing, v: Variable)
    requires n <= |arguments| == |types| && (forall w :: w in arguments ==> w in t) && v in t
    requires ArgumentsConverted(types, arguments, n, t)[v] != t[v]
    ensures exists k :: 0 <= k < |types| && arguments[k] == v && types[k] == ArgumentsConverted(types, arguments, n, t)[v]
  {
    if n == 0 {
    } else if ArgumentsConverted(types, arguments, n - 1, t)[v] != t[v] {
      ArgumentsGiven(types, arguments, n - 1, t, v);
    } else {
      assert arguments[n - 1] == v;
    }
  }

  lemma StepGiven(irs: seq<Ir>, ir: Ir, t: Typing, u: Typing, v: Variable)
    requires ir in irs && ConstantsAreElementary(t) && Given(irs, t, u, v)
    ensures Given(irs, t, Step(ir, u), v)
  {
    var w := Step(ir, u);
    GrowsOn(t, u, w);
    if w[v] == u[v] {
      if u[v] != t[v] {
        var giver :| giver in irs && Gives(giver, t, u, v);
        assert Gives(giver, t, w, v);
      }
    } else {
      match ir {
        case Assign(lvalue, read) => ReadGiven(read, |read|, u[lvalue], u, v);
        case Apply(types, arguments) => ArgumentsGiven(types, arguments, |arguments|, u, v);
        case InitArray(lvalue, read) => LiteralsAreSkipped(lvalue, read, u);
      }
      assert Gives(ir, t, w, v);
    }
  }

  lemma {:induction false} PassGiven(irs: seq<Ir>, n: nat, t: Typing, u: Typing, v: Variable)
    requires n <= |irs| && ConstantsAreElementary(t) && Given(irs, t, u, v)
    ensures Given(irs, t, Pass(irs, n, u), v)
  {
    if n == 0 {
    } else {
      PassGiven(irs, n - 1, t, u, v);
      StepGiven(irs, irs[n - 1], t, Pass(irs, n - 1, u), v);
    }
  }

  /** Nothing else happens to an operand: if its type changes, then to a signed one that an instruction gives it. */
  lemma {:induction false} FinalGiven(irs: seq<Ir>, t: Typing, u: Typing, v: Variable)
    requires ConstantsAreElementary(t) && Given(irs, t, u, v)
    ensures Given(irs, t, Final(irs, u), v)
    decreases u.Keys - SignedIn(u)
  {
    var w := Pass(irs, |irs|, u);
    PassGiven(irs, |irs|, t, u, v);
    if w == u {
    } else {
      GrowsMore(u, w);
      FinalGiven(irs, t, w, v);
    }
  }

  /** The call or structure takes `v` where the signed type `ty` is declared. */
  predicate Expects(ir: Ir, v: Variable, ty: Type) {
    && ir.Apply? && IsSigned(ty)
    && exists k :: 0 <= k < |ir.types| && k < |ir.arguments| && ir.types[k] == ty && ir.arguments[k] == v
  }

  predicate OfferedByCall(irs: seq<Ir>, v: Variable, ty: Type) {
    exists ir :: ir in irs && Expects(ir, v, ty)
  }

  /** A constant is read for a variable that has the signed type `ty` or is expected to have it. */
  predicate OfferedByAssignment(irs: seq<Ir>, t: Typing, ir: Ir, v: Variable, ty: Type) {
    && ir.Assign? && v in ir.read && v.isConstant && IsSigned(ty)
    && (OfferedByCall(irs, ir.lvalue, ty) || (ir.lvalue in t && t[ir.lvalue] == ty))
  }

  /** A signed type that the input offers `v`. */
  predicate Offered(irs: seq<Ir>, t: Typing, v: Variable, ty: Type) {
    OfferedByCall(irs, v, ty) || exists ir :: ir in irs && OfferedByAssignment(irs, t, ir, v, ty)
  }

  /** An operand that changes gets a type that the input offers it. */
  lemma TypeIsOffered(irs: seq<Ir>, t: Typing, v: Variable)
    requires ConstantsAreElementary(t) && AssignsVariables(irs) && v in t
    requires Final(irs, t)[v] != t[v]
    ensures Offered(irs, t, v, Final(irs, t)[v])
  {
    var u := Final(irs, t);
    FinalGiven(irs, t, t, v);
    var ir :| ir in irs && Gives(ir, t, u, v);
    match ir
    case Assign(lvalue, _) =>
      FinalGiven(irs, t, t, lvalue);
      if u[lvalue] != t[lvalue] {
        var giver :| giver in irs && Gives(giver, t, u, lvalue);
        assert Expects(giver, lvalue, u[lvalue]);
      }
      assert OfferedByAssignment(irs, t, ir, v, u[v]);
    case Apply(_, _) => assert Expects(ir, v, u[v]);
  }

  lemma SameOffers(irs: seq<Ir>, other: seq<Ir>, t: Typing, v: Variable, ty: Type)
    requires (forall ir :: ir in irs <==> ir in other) && Offered(other, t, v, ty)
    ensures Offered(irs, t, v, ty)
  {
    if !OfferedByCall(other, v, ty) {
      var ir :| ir in other && OfferedByAssignment(other, t, ir, v, ty);
      assert OfferedByAssignment(irs, t, ir, v, ty);
    }
  }

  /** With one type on offer for it, an operand has the same type at the end for any order and repetition. */
  lemma OneOffer(irs: seq<Ir>, other: seq<Ir>, t: Typing, v: Variable)
    requires AllMention(irs, t.Keys) && ConstantsAreElementary(t) && AssignsVariables(irs) && v in t
    requires forall ir :: ir in irs <==> ir in other
    requires forall a, b :: Offered(irs, t, v, a) && Offered(irs, t, v, b) ==> a == b
    ensures Final(other, t)[v] == Final(irs, t)[v]
  {
    OrderIndependent(irs, irs, t);
    OrderIndependent(irs, other, t);
    if Final(irs, t)[v] != t[v] {
      assert v in SignedIn(Final(other, t));
      TypeIsOffered(irs, t, v);
      TypeIsOffered(other, t, v);
      SameOffers(irs, other, t, v, Final(other, t)[v]);
    } else {
      assert v in SignedIn(Final(other, t)) <==> v in SignedIn(t);
    }
  }

  /** With two, the order decides. */
  lemma FirstOfferWins(v: Variable, a: Type, b: Type, t: Typing)
    requires t.Keys == {v} && IsSigned(a) && IsSigned(b) && !IsSigned(t[v])
    ensures Final([Apply([a], [v]), Apply([b], [v])], t)[v] == a
  {
    var irs := [Apply([a], [v]), Apply([b], [v])];
    assert v in [v] && ArgumentsConverted([a], [v], 0, t) == t;
    assert Step(irs[0], t) == t[v := a];
    assert Pass(irs, 1, t) == t[v := a] by { assert Pass(irs, 0, t) == t; }
    var u := Pass(irs, 2, t);
    assert u[v] == a && u != t;
    assert Grows(u, Final(irs, u));
  }
}
