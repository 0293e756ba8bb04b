/** `reorder_arguments`: named arguments are put in the order of the declaration. */
module NamedArguments {
  import opened Ir
  import opened Options

  function IndexOf(s: seq<string>, x: string): (i: nat)
    requires x in s
    ensures i < |s| && s[i] == x && x !in s[..i]
  {
    if s[0] == x then 0
    else
      var r := IndexOf(s[1..], x);
      assert s[..r + 1] == [s[0]] + s[1..][..r];
      r + 1
  }

  /** Every declared parameter is named by the call. */
  predicate Matches(decl: seq<string>, callNames: seq<string>) {
    forall p :: 0 <= p < |decl| ==> decl[p] in callNames
  }

  function FirstMatch(decls: seq<seq<string>>, callNames: seq<string>): (r: Option<seq<string>>)
    ensures r.Some? ==> r.value in decls && Matches(r.value, callNames)
    ensures r.None? ==> forall d :: d in decls ==> !Matches(d, callNames)
  {
    if decls == [] then None
    else if Matches(decls[0], callNames) then Some(decls[0])
    else FirstMatch(decls[1..], callNames)
  }

  lemma {:induction false} FirstMatchIsFirst(decls: seq<seq<string>>, callNames: seq<string>) returns (d: nat)
    requires FirstMatch(decls, callNames).Some?
    ensures d < |decls| && FirstMatch(decls, callNames).value == decls[d]
    ensures forall e :: 0 <= e < d ==> !Matches(decls[e], callNames)
  {
    if Matches(decls[0], callNames) {
      d := 0;
    } else {
      d := FirstMatchIsFirst(decls[1..], callNames);
      d := d + 1;
    }
  }

  /** For each declared parameter, the argument that the call gives under its name. */
  function ByName<T>(args: seq<T>, callNames: seq<string>, decl: seq<string>): (r: seq<T>)
    requires |args| == |callNames| && Matches(decl, callNames)
    ensures |r| == |decl|
  {
    seq(|decl|, p requires 0 <= p < |decl| => args[IndexOf(callNames, decl[p])])
  }

  /** The arguments in the order of the first matching declaration; none at all if none matches. */
  function Reordered<T>(args: seq<T>, callNames: seq<string>, decls: seq<seq<string>>): seq<T>
    requires |args| == |callNames|
  {
    match FirstMatch(decls, callNames)
    case Some(decl) => ByName(args, callNames, decl)
    case None => []
  }

  /** The assertions of the source. */
  predicate Fit(arity: nat, callNames: seq<string>, decls: seq<seq<string>>) {
    arity == |callNames| && forall d :: d in decls ==> |d| == |callNames|
  }

  /** Solidity forbids two parameters of one name; unnamed ones cannot be named by a call. */
  predicate NoRepeats(callNames: seq<string>, decls: seq<seq<string>>) {
    forall d :: d in decls ==> forall p, q :: 0 <= p < q < |d| && d[p] in callNames ==> d[p] != d[q]
  }

  /** The positions in the call of the first `p` declared parameters. */
  ghost function Positions(callNames: seq<string>, decl: seq<string>, p: nat): (r: seq<nat>)
    requires p <= |decl| && forall q :: 0 <= q < p ==> decl[q] in callNames
    ensures |r| == p && forall q :: 0 <= q < p ==> r[q] < |callNames|
  {
    seq(p, q requires 0 <= q < p => IndexOf(callNames, decl[q]))
  }

  method ReorderArguments<T>(args: seq<T>, callNames: seq<string>, decls: seq<seq<string>>) returns (argsRet: seq<T>)
    requires Fit(|args|, callNames, decls) && NoRepeats(callNames, decls)
    ensures argsRet == Reordered(args, callNames, decls)
  {
    var indexSeen: seq<nat> := [];
    ghost var found := FirstMatch(decls, callNames);
    var k := 0;
    while k < |decls|
      invariant 0 <= k <= |decls|
      invariant if |indexSeen| < |args| then indexSeen == [] && found == FirstMatch(decls[k..], callNames)
                else |args| > 0 ==> found.Some? && indexSeen == Positions(callNames, found.value, |found.value|)
      invariant |args| == 0 ==> indexSeen == []
      decreases |decls| - k
    {
      if |indexSeen| == |args| { break; }
      var names := decls[k];
      assert names in decls && decls[k..][0] == names && decls[k..][1..] == decls[k + 1..];
      var p := 0;
      while p < |names|
        invariant 0 <= p <= |names| && forall q :: 0 <= q < p ==> names[q] in callNames
        invariant indexSeen == Positions(callNames, names, p)
      {
        if names[p] !in callNames {
          indexSeen := [];
          break;
        }
        var ind := IndexOf(callNames, names[p]);
        if ind !in indexSeen { indexSeen := indexSeen + [ind]; }
        p := p + 1;
      }
      k := k + 1;
    }
    argsRet := [];
    for p := 0 to |indexSeen|
      invariant |argsRet| == p && forall q :: 0 <= q < p ==> indexSeen[q] < |args| && argsRet[q] == args[indexSeen[q]]
    {
      argsRet := argsRet + [args[indexSeen[p]]];
    }
    assert |args| == 0 && found.Some? ==> found.value in decls && found.value == [];
  }

  /** If a declaration matches, every argument of the call is delivered, once, under its own name;
      if none does, every argument is lost. */
  lemma ReorderedDelivers<T>(args: seq<T>, callNames: seq<string>, decls: seq<seq<string>>)
    requires Fit(|args|, callNames, decls) && NoRepeats(callNames, decls)
    requires forall i, j :: 0 <= i < j < |callNames| ==> callNames[i] != callNames[j]
    ensures match FirstMatch(decls, callNames)
      case None => Reordered(args, callNames, decls) == []
      case Some(decl) => Delivers(args, callNames, decl, Reordered(args, callNames, decls))
  {
    match FirstMatch(decls, callNames)
    case None =>
    case Some(decl) => ByNameDelivers(args, callNames, decl);
  }

  /** `r` holds every argument, at the parameter of its name. */
  predicate Delivers<T(==)>(args: seq<T>, callNames: seq<string>, decl: seq<string>, r: seq<T>)
    requires |args| == |callNames|
  {
    && |r| == |args| == |decl|
    && (forall p, i :: 0 <= p < |decl| && 0 <= i < |args| && decl[p] == callNames[i] ==> r[p] == args[i])
    && (forall i :: 0 <= i < |args| ==> callNames[i] in decl)
  }

  function Without<T>(s: seq<T>, p: nat): seq<T>
    requires p < |s|
  {
    s[..p] + s[p + 1..]
  }

  lemma WithoutAt<T>(s: seq<T>, p: nat)
    requires p < |s|
    ensures |Without(s, p)| == |s| - 1
    ensures forall q :: 0 <= q < |s| - 1 ==> Without(s, p)[q] == s[if q < p then q else q + 1]
    ensures forall q :: 0 <= q < |s| && q != p ==> s[q] == Without(s, p)[if q < p then q else q - 1]
    ensures multiset(s) == multiset(Without(s, p)) + multiset{s[p]}
  {
    assert s == s[..p] + [s[p]] + s[p + 1..];
  }

  /** Without the first argument and its parameter the others are still delivered. */
  lemma DeliversRest<T>(args: seq<T>, callNames: seq<string>, decl: seq<string>, r: seq<T>, p: nat)
    requires |args| == |callNames| && args != [] && Delivers(args, callNames, decl, r)
    requires forall i, j :: 0 <= i < j < |callNames| ==> callNames[i] != callNames[j]
    requires p < |decl| && decl[p] == callNames[0]
    ensures Delivers(args[1..], callNames[1..], Without(decl, p), Without(r, p)) && r[p] == args[0]
  {
    WithoutAt(decl, p);
    WithoutAt(r, p);
    forall i | 0 <= i < |args[1..]| ensures callNames[1..][i] in Without(decl, p) {
      var q :| 0 <= q < |decl| && decl[q] == callNames[i + 1];
      assert decl[q] == Without(decl, p)[if q < p then q else q - 1];
    }
  }

  lemma SequenceHead<T>(s: seq<T>)
    requires s != []
    ensures multiset(s) == multiset{s[0]} + multiset(s[1..])
  {
    assert s == [s[0]] + s[1..];
  }

  /** Then it is a permutation of the arguments. */
  lemma {:induction false} DeliversAll<T>(args: seq<T>, callNames: seq<string>, decl: seq<string>, r: seq<T>)
    requires |args| == |callNames| && Delivers(args, callNames, decl, r)
    requires forall i, j :: 0 <= i < j < |callNames| ==> callNames[i] != callNames[j]
    ensures multiset(r) == multiset(args)
    decreases |args|
  {
    if args == [] {
    } else {
      assert callNames[0] in decl;
      var p :| 0 <= p < |decl| && decl[p] == callNames[0];
      DeliversRest(args, callNames, decl, r, p);
      DeliversAll(args[1..], callNames[1..], Without(decl, p), Without(r, p));
      WithoutAt(r, p);
      SequenceHead(args);
    }
  }

  lemma ReorderedKeepsAll<T>(args: seq<T>, callNames: seq<string>, decls: seq<seq<string>>)
    requires Fit(|args|, callNames, decls) && NoRepeats(callNames, decls) && FirstMatch(decls, callNames).Some?
    requires forall i, j :: 0 <= i < j < |callNames| ==> callNames[i] != callNames[j]
    ensures multiset(Reordered(args, callNames, decls)) == multiset(args)
  {
    ReorderedDelivers(args, callNames, decls);
    DeliversAll(args, callNames, FirstMatch(decls, callNames).value, Reordered(args, callNames, decls));
  }

  lemma ByNameDelivers<T>(args: seq<T>, callNames: seq<string>, decl: seq<string>)
    requires |args| == |callNames| == |decl| && Matches(decl, callNames)
    requires forall p, q :: 0 <= p < q < |decl| ==> decl[p] != decl[q]
    requires forall i, j :: 0 <= i < j < |callNames| ==> callNames[i] != callNames[j]
    ensures Delivers(args, callNames, decl, ByName(args, callNames, decl))
  {
    forall i | 0 <= i < |args| ensures callNames[i] in decl { Onto(decl, callNames, i); }
    forall p, i | 0 <= p < |decl| && 0 <= i < |args| && decl[p] == callNames[i]
      ensures ByName(args, callNames, decl)[p] == args[i]
    {
      assert IndexOf(callNames, decl[p]) == i;
    }
  }

  lemma Onto(decl: seq<string>, callNames: seq<string>, i: nat)
    requires |decl| == |callNames| && i < |callNames|
    requires forall p :: 0 <= p < |decl| ==> decl[p] in callNames
    requires forall p, q :: 0 <= p < q < |decl| ==> decl[p] != decl[q]
    ensures callNames[i] in decl
  {
    if callNames[i] !in decl {
      SmallerRange(decl, |decl|, (set n | n in callNames) - {callNames[i]});
      RangeSize(callNames);
    }
  }

  /** Distinct elements of a set are no more than its size. */
  lemma {:induction false} SmallerRange(s: seq<string>, k: nat, range: set<string>)
    requires k <= |s| && forall p :: 0 <= p < k ==> s[p] in range
    requires forall p, q :: 0 <= p < q < k ==> s[p] != s[q]
    ensures k <= |range|
  {
    if k == 0 {
    } else {
      SmallerRange(s, k - 1, range - {s[k - 1]});
    }
  }

  lemma {:induction false} RangeSize(s: seq<string>)
    ensures |set n | n in s| <= |s|
  {
    if s == [] {
    } else {
      RangeSize(s[1..]);
      assert (set n | n in s) == (set n | n in s[1..]) + {s[0]};
    }
  }
}

/** The loop of `propagate_type_and_convert_call`: pending arguments and options are handed to the
    calls they belong to, temporary instructions disappear, and instructions are rewritten in
    place, possibly into several.  What a pseudo-call is extracted to and how an instruction is
    rewritten are parameters. */
module CallPropagation {
  import opened Ir
  import opened Options
  import opened NamedArguments
  import opened ValueGas

  /** The classes of real calls, by the options they take. */
  datatype Sort = HighLevel | Creation | Dynamic | OtherCall

  datatype Op =
    | Raw(instr: Instr)
    | Call(sort: Sort, tag: nat, arguments: seq<Name>, callId: Option<Name>,
           callValue: Option<Name>, callGas: Option<Name>,
           names: Option<seq<string>>, params: Option<seq<seq<string>>>)
    | Conversion(lvalue: Name, operand: Name)
    | Temporary

  datatype Rewrite = Keep | Replace(op: Op) | Splice(ops: seq<Op>)

  predicate IsTemporary(op: Op) {
    op.Temporary? || (op.Raw? && op.instr.Argument?)
  }

  predicate IsArgument(op: Op, kind: ArgKind) {
    op.Raw? && op.instr.Argument? && op.instr.kind == kind
  }

  function Extracted(op: Op, extract: Instr -> Op): Op {
    if op.Raw? && op.instr.TmpCall? then extract(op.instr) else op
  }

  function Extract(l: seq<Op>, extract: Instr -> Op): seq<Op> {
    seq(|l|, i requires 0 <= i < |l| => Extracted(l[i], extract))
  }

  // ---------------------------------------------------------------------------------------
  // What each call receives

  function RemoveFirst(s: seq<Name>, x: Name): seq<Name> {
    if s == [] then [] else if s[0] == x then s[1..] else [s[0]] + RemoveFirst(s[1..], x)
  }

  /** The arguments waiting for a call after the first `i` instructions. */
  function Pending(l: seq<Op>, i: nat): seq<Name>
    requires i <= |l|
  {
    if i == 0 then []
    else match l[i - 1]
      case Call(_, _, _, _, _, _, _, _) => []
      case Conversion(_, operand) => RemoveFirst(Pending(l, i - 1), operand)
      case Raw(Argument(arg, CallArg, _)) => Pending(l, i - 1) + [arg]
      case _ => Pending(l, i - 1)
  }

  /** The last option of a kind that was given for `id` in the first `i` instructions. */
  function LastOption(l: seq<Op>, i: nat, kind: ArgKind, id: Option<Name>): Option<Name>
    requires i <= |l|
  {
    if i == 0 then None
    else if IsArgument(l[i - 1], kind) && l[i - 1].instr.callId == id then Some(l[i - 1].instr.arg)
    else LastOption(l, i - 1, kind, id)
  }

  function OrElse(o: Option<Name>, preset: Option<Name>): Option<Name> {
    if o.Some? then o else preset
  }

  predicate Named(c: Op) {
    c.Call? && c.names.Some? && c.params.Some?
  }

  /** The named arguments of call `i` pass the assertions of `reorder_arguments`. */
  predicate NamesFit(l: seq<Op>, i: nat)
    requires i < |l|
  {
    Named(l[i]) ==> Fit(|Pending(l, i)|, l[i].names.value, l[i].params.value)
  }

  /** Instruction `i` with the arguments and options it receives. */
  function Completed(l: seq<Op>, i: nat): (r: Op)
    requires i < |l| && NamesFit(l, i)
    ensures r.Call? <==> l[i].Call?
    ensures r.Call? ==> l[i].arguments <= r.arguments
  {
    match l[i]
    case Call(sort, tag, preset, id, value, gas, names, params) =>
      var given := if Named(l[i]) then Reordered(Pending(l, i), names.value, params.value) else Pending(l, i);
      Call(sort, tag, preset + given, id,
           if sort == OtherCall then value else OrElse(LastOption(l, i, ValueArg, id), value),
           if sort == HighLevel || sort == Dynamic then OrElse(LastOption(l, i, GasArg, id), gas) else gas,
           names, params)
    case other => other
  }

  /** What an instruction is rewritten to. */
  function Written(ins: Op, propagate: Op -> Rewrite): seq<Op> {
    match propagate(ins)
    case Keep => [ins]
    case Replace(op) => [op]
    case Splice(ops) => if ops == [] then [ins] else ops
  }

  /** What an instruction leaves in the list. */
  function Left(ins: Op, propagate: Op -> Rewrite): seq<Op> {
    if IsTemporary(ins) then [] else Written(ins, propagate)
  }

  /** What instruction `i` leaves in the list. */
  function Emitted(l: seq<Op>, i: nat, propagate: Op -> Rewrite): seq<Op>
    requires i < |l| && NamesFit(l, i)
  {
    Left(Completed(l, i), propagate)
  }

  function Output(l: seq<Op>, i: nat, propagate: Op -> Rewrite): seq<Op>
    requires i <= |l| && forall k :: 0 <= k < i ==> NamesFit(l, k)
  {
    if i == 0 then [] else Output(l, i - 1, propagate) + Emitted(l, i - 1, propagate)
  }

  // ---------------------------------------------------------------------------------------
  // Meaning of the output

  function ExecAll<S>(ops: seq<Op>, exec: (Op, S) -> S, s: S): S {
    if ops == [] then s else exec(ops[|ops| - 1], ExecAll(ops[..|ops| - 1], exec, s))
  }

  /** The completed instructions one after the other. */
  function ExecCompleted<S>(l: seq<Op>, i: nat, exec: (Op, S) -> S, s: S): S
    requires i <= |l| && forall k :: 0 <= k < i ==> NamesFit(l, k)
  {
    if i == 0 then s else exec(Completed(l, i - 1), ExecCompleted(l, i - 1, exec, s))
  }

  /** Whatever an instruction is rewritten to does what it does. */
  ghost predicate Faithful<S(!new)>(propagate: Op -> Rewrite, exec: (Op, S) -> S) {
    && (forall op, other, s :: propagate(op) == Replace(other) ==> exec(other, s) == exec(op, s))
    && (forall op, ops, s :: propagate(op) == Splice(ops) && ops != [] ==> ExecAll(ops, exec, s) == exec(op, s))
  }

  lemma {:induction false} ExecConcat<S>(a: seq<Op>, b: seq<Op>, exec: (Op, S) -> S, s: S)
    ensures ExecAll(a + b, exec, s) == ExecAll(b, exec, ExecAll(a, exec, s))
  {
    if b == [] {
      assert a + b == a;
    } else {
      assert (a + b)[..|a + b| - 1] == a + b[..|b| - 1];
      ExecConcat(a, b[..|b| - 1], exec, s);
    }
  }

  lemma LeftMeans<S(!new)>(ins: Op, propagate: Op -> Rewrite, exec: (Op, S) -> S, s: S)
    requires Faithful(propagate, exec) && forall op, s :: IsTemporary(op) ==> exec(op, s) == s
    ensures ExecAll(Left(ins, propagate), exec, s) == exec(ins, s)
  {
    assert forall op, s :: ExecAll([op], exec, s) == exec(op, ExecAll([], exec, s)) by {
      forall op, s ensures ExecAll([op], exec, s) == exec(op, ExecAll([], exec, s)) { assert [op][..0] == []; }
    }
    if IsTemporary(ins) {
      assert ExecAll([], exec, s) == s;
    } else {
      assert propagate(ins) == propagate(ins);
    }
  }

  /** If rewriting preserves meaning, the returned list means what the completed instructions mean. */
  lemma {:induction false} OutputPreservesMeaning<S(!new)>(
    l: seq<Op>, i: nat, propagate: Op -> Rewrite, exec: (Op, S) -> S, s: S)
    requires i <= |l| && forall k :: 0 <= k < i ==> NamesFit(l, k)
    requires Faithful(propagate, exec) && forall op, s :: IsTemporary(op) ==> exec(op, s) == s
    ensures ExecAll(Output(l, i, propagate), exec, s) == ExecCompleted(l, i, exec, s)
  {
    if i == 0 {
    } else {
      OutputPreservesMeaning(l, i - 1, propagate, exec, s);
      ExecConcat(Output(l, i - 1, propagate), Emitted(l, i - 1, propagate), exec, s);
      LeftMeans(Completed(l, i - 1), propagate, exec, ExecCompleted(l, i - 1, exec, s));
    }
  }

  /** Instruction by instruction: nothing of a temporary one, and else itself or what it is rewritten to, once. */
  lemma LeavesExactly(l: seq<Op>, i: nat, propagate: Op -> Rewrite)
    requires i < |l| && forall k :: 0 <= k <= i ==> NamesFit(l, k)
    ensures var before, after, ins := Output(l, i, propagate), Output(l, i + 1, propagate), Completed(l, i);
      && (l[i].Temporary? || (l[i].Raw? && l[i].instr.Argument?) ==> after == before)
      && (!l[i].Temporary? && !(l[i].Raw? && l[i].instr.Argument?) ==>
            && (propagate(ins) == Keep || propagate(ins) == Splice([]) ==> after == before + [ins])
            && (propagate(ins).Replace? ==> after == before + [propagate(ins).op])
            && (propagate(ins).Splice? && propagate(ins).ops != [] ==> after == before + propagate(ins).ops))
  {
    assert Output(l, i, propagate) + [] == Output(l, i, propagate);
  }

  /** So no temporary instruction is left, if rewriting makes none. */
  lemma {:induction false} NoTemporaryLeft(l: seq<Op>, i: nat, propagate: Op -> Rewrite)
    requires i <= |l| && forall k :: 0 <= k < i ==> NamesFit(l, k)
    requires forall op :: !IsTemporary(op) ==> match propagate(op)
      case Keep => true
      case Replace(other) => !IsTemporary(other)
      case Splice(ops) => forall k :: 0 <= k < |ops| ==> !IsTemporary(ops[k])
    ensures forall op :: op in Output(l, i, propagate) ==> !op.Temporary? && !(op.Raw? && op.instr.Argument?)
  {
    if i == 0 {
    } else {
      NoTemporaryLeft(l, i - 1, propagate);
    }
  }

  // ---------------------------------------------------------------------------------------
  // The loop

  ghost predicate OptionsOf(l: seq<Op>, i: nat, kind: ArgKind, m: map<Option<Name>, Name>)
    requires i <= |l|
  {
    forall id {:trigger id in m} {:trigger LastOption(l, i, kind, id)} ::
      && (id in m <==> LastOption(l, i, kind, id).Some?)
      && (id in m ==> m[id] == LastOption(l, i, kind, id).value)
  }

  /** The variables of the loop after `i` instructions. */
  ghost predicate Holds(l: seq<Op>, i: nat, callData: seq<Name>,
                        callsValue: map<Option<Name>, Name>, callsGas: map<Option<Name>, Name>) {
    && i <= |l| && callData == Pending(l, i)
    && OptionsOf(l, i, ValueArg, callsValue) && OptionsOf(l, i, GasArg, callsGas)
  }

  /** The part of the loop body that deals with arguments and options. */
  method Receive(ghost l: seq<Op>, ghost k: nat, op: Op, data: seq<Name>,
                 values: map<Option<Name>, Name>, gases: map<Option<Name>, Name>)
    returns (ok: bool, ins: Op, callData: seq<Name>, callsValue: map<Option<Name>, Name>, callsGas: map<Option<Name>, Name>)
    requires k < |l| && op == l[k] && Holds(l, k, data, values, gases)
    requires Named(op) ==> NoRepeats(op.names.value, op.params.value)
    ensures ok <==> NamesFit(l, k)
    ensures ok ==> ins == Completed(l, k) && Holds(l, k + 1, callData, callsValue, callsGas)
  {
    ins, callData, callsValue, callsGas, ok := op, data, values, gases, true;
    if ins.Conversion? && ins.operand in callData {
      callData := RemoveFirst(callData, ins.operand);
    } else if ins.Conversion? {
      RemoveAbsent(callData, ins.operand);
    }
    if ins.Raw? && ins.instr.Argument? {
      var a := ins.instr;
      match a.kind {
        case GasArg => callsGas := callsGas[a.callId := a.arg];
        case ValueArg => callsValue := callsValue[a.callId := a.arg];
        case CallArg => callData := callData + [a.arg];
      }
    }
    if ins.Call? {
      if ins.sort != OtherCall && ins.callId in callsValue {
        ins := ins.(callValue := Some(callsValue[ins.callId]));
      }
      if (ins.sort == HighLevel || ins.sort == Dynamic) && ins.callId in callsGas {
        ins := ins.(callGas := Some(callsGas[ins.callId]));
      }
      if ins.names.Some? && ins.params.Some? {
        if !Fit(|callData|, ins.names.value, ins.params.value) {
          ok := false;
          return;
        }
        callData := ReorderArguments(callData, ins.names.value, ins.params.value);
      }
      ins := ins.(arguments := ins.arguments + callData);
      callData := [];
    }
  }

  lemma {:induction false} RemoveAbsent(s: seq<Name>, x: Name)
    requires x !in s
    ensures RemoveFirst(s, x) == s
  {
    if s == [] {
    } else {
      RemoveAbsent(s[1..], x);
    }
  }

  /** Writes the instruction at `at`, or what it is rewritten to, and goes on after it; a temporary one is deleted. */
  method Place(before: seq<Op>, at: nat, ins: Op, propagate: Op -> Rewrite) returns (list: seq<Op>, idx: nat)
    requires at < |before|
    ensures idx <= |list| && |list| - idx == |before| - at - 1
    ensures list[..idx] == before[..at] + Left(ins, propagate) && list[idx..] == before[at + 1..]
  {
    if IsTemporary(ins) {
      return before[..at] + before[at + 1..], at;
    }
    list, idx := before[at := ins], at;
    match propagate(ins) {
      case Keep =>
      case Replace(op) =>
        list := list[idx := op];
      case Splice(ops) =>
        if ops != [] {
          list := list[..idx] + ops + list[idx + 1..];
          idx := idx + |ops| - 1;
        }
    }
    idx := idx + 1;
  }

  /** `prefix` is what the first `k` instructions leave. */
  ghost predicate Processed(l: seq<Op>, k: nat, propagate: Op -> Rewrite, prefix: seq<Op>) {
    && k <= |l| && (forall j :: 0 <= j < k ==> NamesFit(l, j))
    && prefix == Output(l, k, propagate)
  }

  lemma ProcessedNext(l: seq<Op>, k: nat, propagate: Op -> Rewrite, prefix: seq<Op>)
    requires k < |l| && NamesFit(l, k) && Processed(l, k, propagate, prefix)
    ensures Processed(l, k + 1, propagate, prefix + Left(Completed(l, k), propagate))
  {
  }

  lemma AtIndex(list: seq<Op>, idx: nat, src: seq<Op>, k: nat)
    requires idx < |list| && k <= |src| && list[idx..] == src[k..]
    ensures k < |src| && list[idx] == src[k] && list[idx + 1..] == src[k + 1..]
  {
    assert list[idx] == list[idx..][0];
    assert list[idx + 1..] == list[idx..][1..] == src[k..][1..];
  }

  /** Fails, like the source, when the named arguments of a call do not fit its declarations. */
  method PropagateTypeAndConvertCall(src: seq<Op>, extract: Instr -> Op, propagate: Op -> Rewrite)
    returns (result: Option<seq<Op>>)
    requires forall k :: 0 <= k < |src| && Named(Extracted(src[k], extract))
               ==> NoRepeats(Extracted(src[k], extract).names.value, Extracted(src[k], extract).params.value)
    ensures result.Some? <==> forall k :: 0 <= k < |src| ==> NamesFit(Extract(src, extract), k)
    ensures result.Some? ==> result.value == Output(Extract(src, extract), |src|, propagate)
  {
    ghost var l := Extract(src, extract);
    ghost var k := 0;  // instructions of the input processed so far
    var callsValue, callsGas: map<Option<Name>, Name> := map[], map[];
    var callData: seq<Name> := [];
    var list := src;
    var idx := 0;
    while idx < |list|
      invariant 0 <= k <= |src| && 0 <= idx <= |list|
      invariant Processed(l, k, propagate, list[..idx]) && list[idx..] == src[k..]
      invariant Holds(l, k, callData, callsValue, callsGas)
      decreases |list| - idx
    {
      AtIndex(list, idx, src, k);
      var ins := Extracted(list[idx], extract);
      assert ins == l[k];
      var ok;
      ok, ins, callData, callsValue, callsGas := Receive(l, k, ins, callData, callsValue, callsGas);
      if !ok { return None; }
      ProcessedNext(l, k, propagate, list[..idx]);
      k := k + 1;
      list, idx := Place(list, idx, ins, propagate);
    }
    assert list[..idx] == list;
    result := Some(list);
  }

  // ---------------------------------------------------------------------------------------
  // Arguments

  /** The CALL arguments at positions `p` to `i`. */
  function ArgumentsIn(l: seq<Op>, p: nat, i: nat): seq<Name>
    requires p <= i <= |l|
  {
    if p == i then []
    else if IsArgument(l[i - 1], CallArg) then ArgumentsIn(l, p, i - 1) + [l[i - 1].instr.arg]
    else ArgumentsIn(l, p, i - 1)
  }

  /** A call receives exactly the CALL arguments since the call before it. */
  lemma {:induction false} PendingSinceLastCall(l: seq<Op>, p: nat, i: nat)
    requires p <= i <= |l| && (p == 0 || l[p - 1].Call?)
    requires forall k :: p <= k < i ==> !l[k].Call? && !l[k].Conversion?
    ensures Pending(l, i) == ArgumentsIn(l, p, i)
  {
    if i <= p {
    } else {
      PendingSinceLastCall(l, p, i - 1);
    }
  }

  /** The declarations of a named call are as Solidity has them, and one of them has the names of the call. */
  predicate Deliverable(c: Op) {
    Named(c) ==>
      && (forall i, j :: 0 <= i < j < |c.names.value| ==> c.names.value[i] != c.names.value[j])
      && NoRepeats(c.names.value, c.params.value) && FirstMatch(c.params.value, c.names.value).Some?
  }

  /** What a call ends with: its own arguments, and the CALL arguments since the call before it, in their order or
      in that of the declaration that they are named for. Nothing else of it changes but its options. */
  lemma CompletedCall(l: seq<Op>, p: nat, i: nat)
    requires p <= i < |l| && (p == 0 || l[p - 1].Call?) && l[i].Call? && NamesFit(l, i) && Deliverable(l[i])
    requires forall k :: p <= k < i ==> !l[k].Call? && !l[k].Conversion?
    ensures var c, preset, args := Completed(l, i), l[i].arguments, ArgumentsIn(l, p, i);
      && c == l[i].(arguments := c.arguments, callValue := c.callValue, callGas := c.callGas)
      && c.arguments[..|preset|] == preset
      && (if Named(l[i]) then
            |args| == |l[i].names.value|
            && Delivers(args, l[i].names.value, FirstMatch(l[i].params.value, l[i].names.value).value,
                        c.arguments[|preset|..])
          else c.arguments[|preset|..] == args)
  {
    PendingSinceLastCall(l, p, i);
    if Named(l[i]) {
      ReorderedDelivers(ArgumentsIn(l, p, i), l[i].names.value, l[i].params.value);
    }
  }

  /** A named call that no declaration matches ends without the arguments that it was given. */
  lemma UnmatchedCall(l: seq<Op>, i: nat)
    requires i < |l| && Named(l[i]) && NamesFit(l, i) && FirstMatch(l[i].params.value, l[i].names.value).None?
    ensures Completed(l, i).arguments == l[i].arguments
  {
  }

  /** Position `k` holds the last option of this kind before `i` with this id. */
  predicate IsLastOption(l: seq<Op>, k: nat, i: nat, kind: ArgKind, id: Option<Name>) {
    && k < i <= |l| && IsArgument(l[k], kind) && l[k].instr.callId == id
    && forall j :: k < j < i ==> !(IsArgument(l[j], kind) && l[j].instr.callId == id)
  }

  lemma {:induction false} LastOptionIsLast(l: seq<Op>, i: nat, kind: ArgKind, id: Option<Name>)
    requires i <= |l|
    ensures match LastOption(l, i, kind, id)
      case Some(v) => exists k: nat :: IsLastOption(l, k, i, kind, id) && l[k].instr.arg == v
      case None => forall k :: 0 <= k < i && IsArgument(l[k], kind) ==> l[k].instr.callId != id
  {
    if i == 0 {
    } else if IsArgument(l[i - 1], kind) && l[i - 1].instr.callId == id {
      assert IsLastOption(l, i - 1, i, kind, id);
    } else {
      LastOptionIsLast(l, i - 1, kind, id);
      if LastOption(l, i, kind, id).Some? {
        var k: nat :| IsLastOption(l, k, i - 1, kind, id) && l[k].instr.arg == LastOption(l, i, kind, id).value;
        assert IsLastOption(l, k, i, kind, id);
      }
    }
  }

  /** The option of a call after the pass: the last one before it with its id, if it takes such options. */
  lemma CompletedOption(l: seq<Op>, i: nat, kind: ArgKind)
    requires i < |l| && l[i].Call? && NamesFit(l, i) && (kind == ValueArg || kind == GasArg)
    ensures forall k: nat :: IsLastOption(l, k, i, kind, l[i].callId) && Takes(l[i].sort, kind) ==>
      Received(Completed(l, i), kind) == Some(l[k].instr.arg)
    ensures !Takes(l[i].sort, kind) || (forall k :: 0 <= k < i && IsArgument(l[k], kind) ==> l[k].instr.callId != l[i].callId)
      ==> Received(Completed(l, i), kind) == Received(l[i], kind)
  {
    LastOptionIsLast(l, i, kind, l[i].callId);
  }

  predicate Takes(sort: Sort, kind: ArgKind) {
    if kind == ValueArg then sort != OtherCall else kind == GasArg && (sort == HighLevel || sort == Dynamic)
  }

  function Received(call: Op, kind: ArgKind): Option<Name>
    requires call.Call?
  {
    if kind == ValueArg then call.callValue else call.callGas
  }

  /** What instruction `i` holds beyond what it came with, if it is a call. */
  function Added(l: seq<Op>, i: nat): seq<Name>
    requires i < |l| && NamesFit(l, i)
  {
    if l[i].Call? then Completed(l, i).arguments[|l[i].arguments|..] else []
  }

  lemma AddedIsPending(l: seq<Op>, i: nat)
    requires i < |l| && l[i].Call? && NamesFit(l, i) && Deliverable(l[i])
    ensures !Named(l[i]) ==> Added(l, i) == Pending(l, i)
    ensures multiset(Added(l, i)) == multiset(Pending(l, i))
  {
    if Named(l[i]) { ReorderedKeepsAll(Pending(l, i), l[i].names.value, l[i].params.value); }
  }

  /** The same for all calls before `i`, in order. */
  function Delivered(l: seq<Op>, i: nat): seq<Name>
    requires i <= |l| && forall k :: 0 <= k < i ==> NamesFit(l, k)
  {
    if i == 0 then [] else Delivered(l, i - 1) + Added(l, i - 1)
  }

  lemma PendingNext(l: seq<Op>, i: nat)
    requires i < |l| && !l[i].Conversion? && NamesFit(l, i)
    ensures l[i].Call? ==> Pending(l, i + 1) == [] && ArgumentsIn(l, i, i + 1) == []
    ensures !l[i].Call? ==> Pending(l, i + 1) == Pending(l, i) + ArgumentsIn(l, i, i + 1) && Added(l, i) == []
    ensures ArgumentsIn(l, 0, i + 1) == ArgumentsIn(l, 0, i) + ArgumentsIn(l, i, i + 1)
  {
    assert ArgumentsIn(l, i, i) == [];
  }

  lemma StillInOrder(given: seq<Name>, added: seq<Name>, before: seq<Name>, after: seq<Name>, all: seq<Name>, more: seq<Name>)
    requires given + before == all
    requires (added == before && after == [] && more == []) || (added == [] && after == before + more)
    ensures given + added + after == all + more
  {
  }

  predicate InOrder(l: seq<Op>, i: nat)
    requires i <= |l| && forall k :: 0 <= k < i ==> NamesFit(l, k)
  {
    Delivered(l, i) + Pending(l, i) == ArgumentsIn(l, 0, i)
  }

  lemma InOrderNext(l: seq<Op>, i: nat)
    requires i < |l| && !l[i].Conversion? && !Named(l[i]) && (forall k :: 0 <= k < i ==> NamesFit(l, k)) && InOrder(l, i)
    ensures NamesFit(l, i) && InOrder(l, i + 1)
  {
    PendingNext(l, i);
    if l[i].Call? { AddedIsPending(l, i); }
    StillInOrder(Delivered(l, i), Added(l, i), Pending(l, i), Pending(l, i + 1), ArgumentsIn(l, 0, i), ArgumentsIn(l, i, i + 1));
  }

  /** No argument is lost, duplicated or reordered. */
  lemma {:induction false} ArgumentsConserved(l: seq<Op>, i: nat)
    requires i <= |l| && forall k :: 0 <= k < i ==> !l[k].Conversion? && !Named(l[k])
    ensures InOrder(l, i)
  {
    if i == 0 {
    } else {
      ArgumentsConserved(l, i - 1);
      InOrderNext(l, i - 1);
    }
  }

  lemma StillAll(given: seq<Name>, added: seq<Name>, before: seq<Name>, after: seq<Name>, all: seq<Name>, more: seq<Name>)
    requires multiset(given) + multiset(before) == multiset(all)
    requires (multiset(added) == multiset(before) && after == [] && more == []) || (added == [] && after == before + more)
    ensures multiset(given + added) + multiset(after) == multiset(all + more)
  {
    if after == before + more { assert given + added == given || more == []; }
  }

  /** With named calls they may be reordered, but none is lost or duplicated. */
  lemma {:induction false} NothingLost(l: seq<Op>, i: nat)
    requires i <= |l| && forall k :: 0 <= k < i ==> !l[k].Conversion? && NamesFit(l, k) && Deliverable(l[k])
    ensures multiset(Delivered(l, i)) + multiset(Pending(l, i)) == multiset(ArgumentsIn(l, 0, i))
  {
    if i == 0 {
    } else {
      NothingLost(l, i - 1);
      PendingNext(l, i - 1);
      if l[i - 1].Call? { AddedIsPending(l, i - 1); }
      StillAll(Delivered(l, i - 1), Added(l, i - 1), Pending(l, i - 1), Pending(l, i),
               ArgumentsIn(l, 0, i - 1), ArgumentsIn(l, i - 1, i));
    }
  }

  /** A conversion takes the first of the pending arguments that is its operand. */
  lemma {:induction false} RemovesFirst(s: seq<Name>, x: Name) returns (k: nat)
    requires x in s
    ensures k < |s| && s[k] == x && x !in s[..k] && RemoveFirst(s, x) == s[..k] + s[k + 1..]
  {
    if s[0] == x {
      k := 0;
    } else {
      var j := RemovesFirst(s[1..], x);
      k := j + 1;
      assert s[..k] == [s[0]] + s[1..][..j] && s[1..][j + 1..] == s[k + 1..];
    }
  }

  /** The argument of a user-defined conversion, `T.wrap(x)`, reaches no call. */
  lemma ConversionTakesItsArgument(l: seq<Op>, i: nat)
    requires 2 <= i <= |l| && l[i - 1].Conversion?
    requires IsArgument(l[i - 2], CallArg) && l[i - 2].instr.arg == l[i - 1].operand
    ensures l[i - 1].operand !in Pending(l, i - 2) ==> Pending(l, i) == Pending(l, i - 2)
    ensures multiset(Pending(l, i)) == multiset(Pending(l, i - 2))
  {
    var before, x := Pending(l, i - 2), l[i - 1].operand;
    assert Pending(l, i - 1) == before + [x];
    RemoveFirstAppended(before, x);
  }

  lemma {:induction false} RemoveFirstAppended(s: seq<Name>, x: Name)
    ensures x !in s ==> RemoveFirst(s + [x], x) == s
    ensures multiset(RemoveFirst(s + [x], x)) == multiset(s)
  {
    if s == [] {
    } else {
      assert (s + [x])[1..] == s[1..] + [x];
      assert s == [s[0]] + s[1..];
      RemoveFirstAppended(s[1..], x);
      if s[0] == x { assert multiset(s[1..] + [x]) == multiset(s); }
    }
  }

  // ---------------------------------------------------------------------------------------
  // Options

  /** `l` holds the arguments of `r` and no others. */
  predicate Carries(l: seq<Op>, r: seq<Instr>) {
    && |l| == |r|
    && forall a :: 0 <= a < |l| ==>
         if r[a].Argument? then l[a] == Raw(r[a]) else !(l[a].Raw? && l[a].instr.Argument?)
  }

  /** At the instruction that `l[i]` becomes, the table holds what was last set. */
  predicate SettingsMatch(l: seq<Instr>, ops: seq<Op>, i: nat, kind: ArgKind, root: Name)
    requires i <= |l|
  {
    && |Kept(l, i)| <= |ops|
    && LastOption(ops, |Kept(l, i)|, kind, Some(root)) == LastSet(l, if i < |l| then i + 1 else i, kind, root)
  }

  lemma {:induction false} OptionsAreSettings(l: seq<Instr>, ops: seq<Op>, i: nat, kind: ArgKind, root: Name)
    requires i <= |l| && FreshArguments(l) && Carries(ops, Resolve(l)) && kind != CallArg
    ensures SettingsMatch(l, ops, i, kind, root)
  {
    if i == 0 {
      assert !Setter(l, 0);
    } else {
      OptionsAreSettings(l, ops, i - 1, kind, root);
      SettingStep(l, ops, i, kind, root);
    }
  }

  lemma SettingStep(l: seq<Instr>, ops: seq<Op>, i: nat, kind: ArgKind, root: Name)
    requires 0 < i <= |l| && FreshArguments(l) && Carries(ops, Resolve(l)) && kind != CallArg
    requires SettingsMatch(l, ops, i - 1, kind, root)
    ensures SettingsMatch(l, ops, i, kind, root)
  {
    if i < |l| { LastSetNext(l, i, kind, root); }
    if Setter(l, i - 1) {
      assert Kept(l, i) == Kept(l, i - 1) && !Setter(l, i);
    } else {
      OptionStep(l, ops, i - 1, kind, root);
      if i == |l| { assert !Setter(l, i); }
    }
  }

  lemma LastSetNext(l: seq<Instr>, i: nat, kind: ArgKind, root: Name)
    requires i < |l|
    ensures LastSet(l, i + 1, kind, root)
      == if Sets(l, i, kind, root) then Some(l[i - 1].arg) else LastSet(l, i, kind, root)
  {
  }

  lemma OptionStep(l: seq<Instr>, ops: seq<Op>, i: nat, kind: ArgKind, root: Name)
    requires i < |l| && !Setter(l, i) && FreshArguments(l) && Carries(ops, Resolve(l)) && kind != CallArg
    ensures var a := |Kept(l, i)|;
      && |Kept(l, i + 1)| == a + 1 <= |ops|
      && LastOption(ops, a + 1, kind, Some(root))
         == if Sets(l, i + 1, kind, root) then Some(l[i].arg) else LastOption(ops, a, kind, Some(root))
  {
    KeptStep(l, ops, i);
  }

  lemma KeptStep(l: seq<Instr>, ops: seq<Op>, i: nat)
    requires i < |l| && !Setter(l, i) && Carries(ops, Resolve(l))
    ensures var a := |Kept(l, i)|;
      && |Kept(l, i + 1)| == a + 1 <= |ops|
      && Kept(l, |l|)[a] == i && Resolve(l)[a] == Resolved(l, i)
      && (if l[i].Argument? then ops[a] == Raw(Resolved(l, i)) else !(ops[a].Raw? && ops[a].instr.Argument?))
  {
    ResolveAt(l, i);
    ResolvedShape(l, i);
  }

  /** The call gets the options written on it, the last one of each kind, if no later setter of
      another call resolves to the same callee. */
  lemma CallGetsItsOptions(l: seq<Instr>, ops: seq<Op>, a: nat, kind: ArgKind)
    requires AssignedOnceBeforeUse(l) && FreshArguments(l) && kind != CallArg
    requires Carries(ops, Resolve(l)) && a < |ops|
    requires l[Kept(l, |l|)[a]].TmpCall? && l[Kept(l, |l|)[a]].callId == None
    requires LastIsItsOwn(l, Kept(l, |l|)[a], l[Kept(l, |l|)[a]].called, kind)
    ensures var k := Kept(l, |l|)[a];
      LastOption(ops, a, kind, Resolve(l)[a].callId) == LastOf(OptionsOn(l, |l|, l[k].called), kind)
  {
    var k := Kept(l, |l|)[a];
    if FindSetter(l, |l|, l[k].called.name) < 0 {
      NoOptionWithoutId(l, ops, a, kind);
    } else {
      CallGetsLastSet(l, ops, a, kind);
      RootFromEnd(l, k, l[k].called);
      LastSetIsWritten(l, k, l[k].called, kind);
    }
  }

  lemma {:induction false} NoOptionWithoutId(l: seq<Instr>, ops: seq<Op>, a: nat, kind: ArgKind)
    requires FreshArguments(l) && Carries(ops, Resolve(l)) && a <= |ops| && kind != CallArg
    ensures LastOption(ops, a, kind, None) == None
  {
    if a == 0 {
    } else {
      NoOptionWithoutId(l, ops, a - 1, kind);
    }
  }

  /** In any case a call with options gets the last one that was set for its resolved callee. */
  lemma CallGetsLastSet(l: seq<Instr>, ops: seq<Op>, a: nat, kind: ArgKind)
    requires FreshArguments(l) && kind != CallArg && Carries(ops, Resolve(l)) && a < |ops|
    requires var k := Kept(l, |l|)[a]; l[k].TmpCall? && FindSetter(l, |l|, l[k].called.name) >= 0
    ensures var k := Kept(l, |l|)[a];
      LastOption(ops, a, kind, Resolve(l)[a].callId)
      == LastSet(l, k, kind, RootOf(l, |l|, l[k].called).name)
  {
    var k := Kept(l, |l|)[a];
    KeptAt(l, a);
    OptionsAreSettings(l, ops, k, kind, RootOf(l, |l|, l[k].called).name);
  }

  /** If each setter of the callee has an argument of its own, that is the exact condition. */
  lemma OptionsAreItsOwnExactly(l: seq<Instr>, ops: seq<Op>, a: nat, kind: ArgKind)
    requires AssignedOnceBeforeUse(l) && FreshArguments(l) && kind != CallArg
    requires Carries(ops, Resolve(l)) && a < |ops|
    requires var k := Kept(l, |l|)[a]; l[k].TmpCall? && l[k].callId == None && FindSetter(l, |l|, l[k].called.name) >= 0
    requires DistinctSettings(l, kind, RootOf(l, |l|, l[Kept(l, |l|)[a]].called).name)
    ensures var k := Kept(l, |l|)[a];
      LastOption(ops, a, kind, Resolve(l)[a].callId) == LastOf(OptionsOn(l, |l|, l[k].called), kind)
      <==> LastIsItsOwn(l, k, l[k].called, kind)
  {
    var k := Kept(l, |l|)[a];
    if LastIsItsOwn(l, k, l[k].called, kind) {
      CallGetsItsOptions(l, ops, a, kind);
    } else {
      CallGetsLastSet(l, ops, a, kind);
      RootFromEnd(l, k, l[k].called);
      NotWrittenNotLast(l, k, l[k].called, kind);
    }
  }

  // ---------------------------------------------------------------------------------------
  // The two passes together

  function Wrapped(l: seq<Instr>): seq<Op> {
    seq(|l|, i requires 0 <= i < |l| => Raw(l[i]))
  }

  /** What the second pass works on after the first one. */
  function Extractions(src: seq<Instr>, extract: Instr -> Op): seq<Op> {
    Extract(Wrapped(OneRound(src)), extract)
  }

  /** The pseudo-call at `a` is extracted to a call that takes options of this kind, and keeps its id. */
  predicate ExtractsCall(src: seq<Instr>, extract: Instr -> Op, a: nat, kind: ArgKind) {
    && a < |OneRound(src)| && OneRound(src)[a].TmpCall?
    && var call := extract(OneRound(src)[a]);
    && call.Call? && Takes(call.sort, kind) && call.callId == OneRound(src)[a].callId && Received(call, kind) == None
    && NamesFit(Extractions(src, extract), a)
  }

  lemma ExtractionsCarry(src: seq<Instr>, extract: Instr -> Op)
    requires forall i :: !IsTemporary(extract(i))
    ensures Carries(Extractions(src, extract), Resolve(WithOrigins(src)))
  {
    var r, ops := Resolve(WithOrigins(src)), Extractions(src, extract);
    forall i | 0 <= i < |ops|
      ensures if r[i].Argument? then ops[i] == Raw(r[i]) else !(ops[i].Raw? && ops[i].instr.Argument?)
    {
      RelinkKeeps(r, i);
    }
  }

  /** What the second pass sees of a call of the input. */
  lemma AfterFirstPass(src: seq<Instr>, extract: Instr -> Op, a: nat, kind: ArgKind)
    requires AssignedOnceBeforeUse(src) && OnlySetsOptions(src) && FreshArguments(src)
    requires (forall i :: !IsTemporary(extract(i))) && ExtractsCall(src, extract, a, kind)
    ensures Extractions(src, extract) == Extract(Wrapped(Integrated(src)), extract)
    ensures var l, ops := WithOrigins(src), Extractions(src, extract);
      && AssignedOnceBeforeUse(l) && FreshArguments(l) && Carries(ops, Resolve(l)) && a < |ops|
      && var k := Kept(l, |l|)[a];
      && l[k].TmpCall? && l[k].callId == None && l[k].called == src[k].called
      && Received(Completed(ops, a), kind) == LastOption(ops, a, kind, Resolve(l)[a].callId)
  {
    var l := WithOrigins(src);
    WithOriginsKeepsShape(src);
    OneRoundIsEnough(src);
    ExtractionsCarry(src, extract);
    OriginAfterRound(src, a);
    RelinkKeeps(src, Kept(l, |l|)[a]);
    RelinkKeeps(Resolve(l), a);
  }

  /** A completed call has what was last set for the callee its options resolve to. */
  lemma CompletedGetsLastSet(src: seq<Instr>, extract: Instr -> Op, a: nat, kind: ArgKind)
    requires AssignedOnceBeforeUse(src) && OnlySetsOptions(src) && FreshArguments(src)
    requires (forall i :: !IsTemporary(extract(i))) && ExtractsCall(src, extract, a, kind)
    requires var l := WithOrigins(src); FindSetter(l, |l|, src[Kept(l, |l|)[a]].called.name) >= 0
    ensures Extractions(src, extract) == Extract(Wrapped(Integrated(src)), extract)
    ensures var l := WithOrigins(src);
      var k := Kept(l, |l|)[a];
      Received(Completed(Extractions(src, extract), a), kind) == LastSet(l, k, kind, RootOf(l, |l|, src[k].called).name)
  {
    AfterFirstPass(src, extract, a, kind);
    CallGetsLastSet(WithOrigins(src), Extractions(src, extract), a, kind);
  }

  /** A completed call has the last value, and the last gas, written on it in the original list, through any
      number of redirections. */
  lemma OptionsReachTheirCall(src: seq<Instr>, extract: Instr -> Op, a: nat, kind: ArgKind)
    requires AssignedOnceBeforeUse(src) && OnlySetsOptions(src) && FreshArguments(src)
    requires (forall i :: !IsTemporary(extract(i))) && ExtractsCall(src, extract, a, kind)
    requires var l := WithOrigins(src); LastIsItsOwn(l, Kept(l, |l|)[a], src[Kept(l, |l|)[a]].called, kind)
    ensures Extractions(src, extract) == Extract(Wrapped(Integrated(src)), extract)
    ensures var l := WithOrigins(src);
      Received(Completed(Extractions(src, extract), a), kind)
      == LastOf(OptionsOn(l, |l|, src[Kept(l, |l|)[a]].called), kind)
  {
    AfterFirstPass(src, extract, a, kind);
    CallGetsItsOptions(WithOrigins(src), Extractions(src, extract), a, kind);
  }

  /** Two chains on one variable, `f.value(v)(f.value(w)())`, through both passes: the outer call was written with
      `v`, and is completed with `w`. */
  lemma NestedCallsShareValue(f: Name, v: Name, w: Name, extract: Instr -> Op)
    requires f.Program? && v.Program? && w.Program? && v != w
    requires ExtractsCall(NestedSource(f, v, w), extract, 6, ValueArg)
    requires forall i :: !IsTemporary(extract(i))
    ensures var src := NestedSource(f, v, w);
      && AssignedOnceBeforeUse(src) && src[8].TmpCall?
      && LastOf(OptionsOn(WithOrigins(src), 9, src[8].called), ValueArg) == Some(v)
      && Completed(Extractions(src, extract), 6).callValue == Some(w)
  {
    var src, l := NestedSource(f, v, w), Nested(f, v, w);
    NestedLinks(f, v, w);
    NestedIsPlain(f, v, w);
    NestedOptions(f, v, w);
    assert Kept(l, 9)[6] == 8;
    CompletedGetsLastSet(src, extract, 6, ValueArg);
  }
}
