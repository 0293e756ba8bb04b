/** The part of SlithIR that the call-related passes of `convert.py` look at. */
module Ir {
  import opened Options

  /** Variable names: the generated `REF_n` and `TMP_n`, and those of the program. */
  datatype Name = Ref(n: nat) | Tmp(n: nat) | Program(s: string)

  /** What a call or a member access names: a variable, or a declaration (contract, event, ...). */
  datatype Sym = Var(name: Name) | Decl(name: Name)

  /** The right side of a member access. */
  datatype Field = ValueField | GasField | NamedField(s: string)

  datatype ArgKind = CallArg | ValueArg | GasArg

  /** The instruction a call's `ori` field refers to, identified by the variable it assigns. */
  datatype Origin =
    | NoOrigin
    | FromMember(lvalue: Name, left: Sym, right: Field)
    | FromOther(lvalue: Name)

  datatype Instr =
    | Member(lvalue: Name, left: Sym, right: Field)
    | Argument(arg: Name, kind: ArgKind, callId: Option<Name>)
    | TmpCall(lvalue: Name, called: Sym, ori: Origin, callId: Option<Name>)
    | Other(target: Option<Name>)  // any other operation, with the variable it assigns

  /** The variable an instruction assigns. Arguments assign none. */
  function Defines(i: Instr): Option<Name> {
    match i
    case Member(lvalue, _, _) => Some(lvalue)
    case TmpCall(lvalue, _, _, _) => Some(lvalue)
    case Other(target) => target
    case Argument(_, _, _) => None
  }

  function OriginOf(i: Instr): Origin
    requires Defines(i).Some?
  {
    match i
    case Member(lvalue, left, right) => FromMember(lvalue, left, right)
    case TmpCall(lvalue, _, _, _) => FromOther(lvalue)
    case Other(target) => FromOther(target.value)
  }

  /** The last definition of `n` in `l`. */
  function Lookup(l: seq<Instr>, n: Name): Origin {
    if l == [] then NoOrigin
    else if Defines(l[|l| - 1]) == Some(n) then OriginOf(l[|l| - 1])
    else Lookup(l[..|l| - 1], n)
  }
}
