/** `integrate_value_gas`: the pseudo-calls of `c.f.value(v).gas(g)(x)` are folded into the call
    they configure. */
module ValueGas {
  import opened Ir
  import opened Options

  // ---------------------------------------------------------------------------------------
  // What one round of the pass sees

  /** The definition a call's `ori` is set to: the last assignment to its callee so far. */
  function Relink(l: seq<Instr>, i: nat): Instr
    requires i < |l|
  {
    if l[i].TmpCall? && l[i].called.Var? && Lookup(l[..i + 1], l[i].called.name) != NoOrigin
    then l[i].(ori := Lookup(l[..i + 1], l[i].called.name))
    else l[i]
  }

  function WithOrigins(l: seq<Instr>): (r: seq<Instr>)
    ensures |r| == |l|
  {
    seq(|l|, i requires 0 <= i < |l| => Relink(l, i))
  }

  predicate OptionMember(o: Origin) {
    o.FromMember? && (o.right == ValueField || o.right == GasField)
  }

  /** A call through a `value` or `gas` member that directly follows an argument. */
  predicate Setter(l: seq<Instr>, i: int) {
    0 < i < |l| && l[i].TmpCall? && OptionMember(l[i].ori) && l[i - 1].Argument?
  }

  function KindOf(o: Origin): (kind: ArgKind)
    requires OptionMember(o)
    ensures (o.right == ValueField <==> kind == ValueArg) && (o.right == GasField <==> kind == GasArg)
  {
    if o.right == ValueField then ValueArg else GasArg
  }

  /** The position of the setter before `i` that assigns `n`, or -1. */
  function FindSetter(l: seq<Instr>, i: nat, n: Name): (j: int)
    requires i <= |l|
    ensures -1 <= j < i
    ensures j >= 0 ==> Setter(l, j) && l[j].lvalue == n
    ensures j < 0 ==> forall k :: 0 <= k < i && Setter(l, k) ==> l[k].lvalue != n
  {
    if i == 0 then -1
    else if Setter(l, i - 1) && l[i - 1].lvalue == n then i - 1
    else FindSetter(l, i - 1, n)
  }

  /** The callee a chain of setters was opened on, seen from position `i`. */
  function RootOf(l: seq<Instr>, i: nat, s: Sym): Sym
    requires i <= |l|
    decreases i
  {
    var j := FindSetter(l, i, s.name);
    if j < 0 then s else RootOf(l, j, l[j].ori.left)
  }

  /** Instruction `i` after the round, given that it stays. */
  function Resolved(l: seq<Instr>, i: nat): Instr
    requires i < |l|
  {
    match l[i]
    case TmpCall(lvalue, called, ori, callId) =>
      var root := RootOf(l, |l|, called);
      if FindSetter(l, |l|, called.name) < 0 then l[i]
      else TmpCall(lvalue, root, ori, Some(root.name))
    case Argument(arg, kind, callId) =>
      if Setter(l, i + 1)
      then Argument(arg, KindOf(l[i + 1].ori), Some(RootOf(l, |l|, l[i + 1].ori.left).name))
      else Argument(arg, kind, if callId.Some? then Some(RootOf(l, |l|, Var(callId.value)).name) else None)
    case _ => l[i]
  }

  /** The positions before `i` that hold no setter. */
  function Kept(l: seq<Instr>, i: nat): (r: seq<nat>)
    requires i <= |l|
    ensures |r| <= i
    ensures forall a :: 0 <= a < |r| ==> r[a] < i && !Setter(l, r[a])
    ensures forall a, b :: 0 <= a < b < |r| ==> r[a] < r[b]
  {
    if i == 0 then []
    else if Setter(l, i - 1) then Kept(l, i - 1)
    else Kept(l, i - 1) + [i - 1]
  }

  function Resolve(l: seq<Instr>): (r: seq<Instr>)
    ensures |r| <= |l|
  {
    var kept := Kept(l, |l|);
    seq(|kept|, a requires 0 <= a < |kept| => Resolved(l, kept[a]))
  }

  predicate NoSetter(l: seq<Instr>) {
    forall i :: 0 <= i < |l| ==> !Setter(l, i)
  }

  lemma {:induction false} KeptShrinks(l: seq<Instr>, i: nat, k: nat)
    requires k < i <= |l| && Setter(l, k)
    ensures |Kept(l, i)| < i
  {
    if i - 1 <= k {
    } else {
      KeptShrinks(l, i - 1, k);
    }
  }

  lemma ResolveShrinks(l: seq<Instr>)
    requires !NoSetter(l)
    ensures |Resolve(l)| < |l|
  {
    var k :| 0 <= k < |l| && Setter(l, k);
    KeptShrinks(l, |l|, k);
  }

  /** The whole pass: rounds until one finds no setter. */
  function Integrated(l: seq<Instr>): seq<Instr>
    decreases |l|
  {
    var linked := WithOrigins(l);
    if NoSetter(linked) then linked
    else
      ResolveShrinks(linked);
      Integrated(Resolve(linked))
  }

  // ---------------------------------------------------------------------------------------
  // Inputs on which the pass terminates: results of calls are assigned once, before use

  /** Every call that assigns `n` stands before position `i`. */
  predicate CallsBefore(l: seq<Instr>, n: Name, i: int) {
    forall k :: 0 <= k < |l| && l[k].TmpCall? && l[k].lvalue == n ==> k < i
  }

  predicate AssignedOnceBeforeUse(l: seq<Instr>) {
    && (forall i, k :: 0 <= i < k < |l| && l[i].TmpCall? && l[k].TmpCall? ==> l[i].lvalue != l[k].lvalue)
    && (forall i :: 0 <= i < |l| && l[i].Member? ==> CallsBefore(l, l[i].left.name, i))
    && (forall i :: 0 <= i < |l| && l[i].TmpCall? ==> CallsBefore(l, l[i].called.name, i))
    && (forall i :: 0 <= i < |l| && l[i].TmpCall? && l[i].ori.FromMember? ==> CallsBefore(l, l[i].ori.left.name, i))
  }

  lemma {:induction false} LookupIsDefinition(l: seq<Instr>, n: Name)
    requires Lookup(l, n) != NoOrigin
    ensures exists p :: 0 <= p < |l| && Defines(l[p]) == Some(n) && Lookup(l, n) == OriginOf(l[p])
  {
    if Defines(l[|l| - 1]) == Some(n) {
    } else {
      LookupIsDefinition(l[..|l| - 1], n);
      var p :| 0 <= p < |l| - 1 && Defines(l[..|l| - 1][p]) == Some(n) && Lookup(l, n) == OriginOf(l[..|l| - 1][p]);
      assert l[p] == l[..|l| - 1][p];
    }
  }

  lemma WithOriginsKeepsShape(l: seq<Instr>)
    requires AssignedOnceBeforeUse(l)
    ensures AssignedOnceBeforeUse(WithOrigins(l))
  {
    var r := WithOrigins(l);
    forall n, i | CallsBefore(l, n, i) ensures CallsBefore(r, n, i) {}
    forall i | 0 <= i < |r| && r[i].TmpCall? && r[i].ori.FromMember?
      ensures CallsBefore(r, r[i].ori.left.name, i)
    {
      if r[i].ori != l[i].ori {
        LookupIsDefinition(l[..i + 1], l[i].called.name);
        var p :| 0 <= p < i + 1 && Defines(l[p]) == Some(l[i].called.name) && r[i].ori == OriginOf(l[p]);
        assert CallsBefore(l, l[p].left.name, p);
      }
      assert CallsBefore(l, r[i].ori.left.name, i);
    }
  }

  /** A root can be looked up from any position after the calls that assign the name. */
  lemma {:induction false} RootFromEnd(l: seq<Instr>, i: nat, s: Sym)
    requires AssignedOnceBeforeUse(l) && i <= |l| && CallsBefore(l, s.name, i)
    ensures FindSetter(l, i, s.name) == FindSetter(l, |l|, s.name)
    ensures RootOf(l, i, s) == RootOf(l, |l|, s)
  {
    var j, j' := FindSetter(l, i, s.name), FindSetter(l, |l|, s.name);
    if j' >= 0 { assert j' < i; }
  }

  /** One redirection: the root of a setter's result is the root of what it was taken of. */
  lemma RootStep(l: seq<Instr>, j: nat, s: Sym)
    requires AssignedOnceBeforeUse(l) && j < |l| && FindSetter(l, |l|, s.name) == j
    ensures RootOf(l, |l|, s) == RootOf(l, |l|, l[j].ori.left)
    ensures FindSetter(l, |l|, l[j].ori.left.name) < j
  {
    RootFromEnd(l, j, l[j].ori.left);
  }

  /** A root is no setter's result, and the calls that assign it stand before those that assign `s`. */
  lemma {:induction false} RootIsNoSetter(l: seq<Instr>, i: nat, s: Sym)
    requires AssignedOnceBeforeUse(l) && i <= |l| && CallsBefore(l, s.name, i)
    ensures FindSetter(l, |l|, RootOf(l, i, s).name) < 0
    ensures CallsBefore(l, RootOf(l, i, s).name, i)
    decreases i
  {
    var j := FindSetter(l, i, s.name);
    RootFromEnd(l, i, s);
    if j < 0 {
    } else {
      RootIsNoSetter(l, j, l[j].ori.left);
    }
  }

  lemma ResolvedShape(l: seq<Instr>, i: nat)
    requires i < |l|
    ensures var r := Resolved(l, i);
      && (r.TmpCall? <==> l[i].TmpCall?) && (r.Member? <==> l[i].Member?)
      && (r.Argument? <==> l[i].Argument?) && Defines(r) == Defines(l[i])
      && (r.Member? || r.Other? ==> r == l[i])
      && (r.TmpCall? ==> r.ori == l[i].ori)
      && (r.TmpCall? && r.called != l[i].called ==> r.called == RootOf(l, |l|, l[i].called))
  {
  }

  lemma CallsBeforeKept(l: seq<Instr>, n: Name, a: nat)
    requires a < |Kept(l, |l|)| && CallsBefore(l, n, Kept(l, |l|)[a])
    ensures CallsBefore(Resolve(l), n, a)
  {
    var r, kept := Resolve(l), Kept(l, |l|);
    forall k | 0 <= k < |r| && r[k].TmpCall? && r[k].lvalue == n ensures k < a {
      ResolvedShape(l, kept[k]);
      assert kept[k] < kept[a];
    }
  }

  lemma ResolveKeepsShape(l: seq<Instr>)
    requires AssignedOnceBeforeUse(l)
    ensures AssignedOnceBeforeUse(Resolve(l))
  {
    var r, kept := Resolve(l), Kept(l, |l|);
    forall a | 0 <= a < |r|
      ensures r[a].Member? ==> CallsBefore(r, r[a].left.name, a)
      ensures r[a].TmpCall? ==> CallsBefore(r, r[a].called.name, a)
      ensures r[a].TmpCall? && r[a].ori.FromMember? ==> CallsBefore(r, r[a].ori.left.name, a)
    {
      ResolvedShape(l, kept[a]);
      if r[a].Member? {
        CallsBeforeKept(l, r[a].left.name, a);
      } else if r[a].TmpCall? {
        RootIsNoSetter(l, kept[a], l[kept[a]].called);
        RootFromEnd(l, kept[a], l[kept[a]].called);
        CallsBeforeKept(l, r[a].called.name, a);
        if r[a].ori.FromMember? { CallsBeforeKept(l, r[a].ori.left.name, a); }
      }
    }
    forall a, b | 0 <= a < b < |r| && r[a].TmpCall? && r[b].TmpCall? ensures r[a].lvalue != r[b].lvalue {
      ResolvedShape(l, kept[a]);
      ResolvedShape(l, kept[b]);
    }
  }

  // ---------------------------------------------------------------------------------------
  // The pass

  /** `v` sends the result of each setter before `i` to what the setter was taken of. */
  ghost predicate RedirectsOf(l: seq<Instr>, i: nat, v: map<Name, Sym>)
    requires i <= |l|
  {
    forall n {:trigger n in v} {:trigger FindSetter(l, i, n)} ::
      && (n in v <==> FindSetter(l, i, n) >= 0)
      && (n in v ==> v[n] == l[FindSetter(l, i, n)].ori.left)
  }

  /** Instruction `i` once the setters have marked their arguments, before redirection. */
  function Marked(l: seq<Instr>, i: nat): Instr
    requires i < |l|
  {
    if l[i].Argument? && Setter(l, i + 1)
    then Argument(l[i].arg, KindOf(l[i + 1].ori), Some(l[i + 1].ori.left.name))
    else l[i]
  }

  method IntegrateValueGas(src: seq<Instr>) returns (result: seq<Instr>)
    requires AssignedOnceBeforeUse(src)
    ensures result == Integrated(src)
  {
    result := src;
    var wasChanged := true;
    while wasChanged
      invariant AssignedOnceBeforeUse(result)
      invariant Integrated(src) == if wasChanged then Integrated(result) else result
      decreases |result|, wasChanged
    {
      wasChanged := false;
      ghost var l := WithOrigins(result);
      WithOriginsKeepsShape(result);
      result := FindAssignments(result);
      assert result == l;

      var toRemove, variableToReplace;
      result, toRemove, variableToReplace := MarkOptions(result);
      wasChanged := toRemove != {};
      result := RemoveSetters(l, result, toRemove);
      if toRemove == {} {
        assert NoSetter(l);
      } else {
        ghost var k :| k in toRemove;
        assert Setter(l, k);
        assert !NoSetter(l);
        ResolveShrinks(l);
      }
      ResolveKeepsShape(l);
      result := UpdateCalls(l, result, variableToReplace);
      if !wasChanged { ResolveNothing(l); }
    }
  }

  lemma {:induction false} KeptAll(l: seq<Instr>, i: nat)
    requires i <= |l| && NoSetter(l)
    ensures |Kept(l, i)| == i && forall a :: 0 <= a < i ==> Kept(l, i)[a] == a
  {
    if i == 0 {
    } else {
      KeptAll(l, i - 1);
    }
  }

  lemma ResolveNothing(l: seq<Instr>)
    requires NoSetter(l)
    ensures Resolve(l) == l
  {
    KeptAll(l, |l|);
    assert forall n :: FindSetter(l, |l|, n) < 0;
  }

  method FindAssignments(l: seq<Instr>) returns (result: seq<Instr>)
    ensures result == WithOrigins(l)
  {
    result := l;
    var assignments: map<Name, Origin> := map[];
    for i := 0 to |l|
      invariant |result| == |l|
      invariant forall k :: 0 <= k < i ==> result[k] == Relink(l, k)
      invariant forall k :: i <= k < |l| ==> result[k] == l[k]
      invariant forall n :: n in assignments <==> Lookup(l[..i], n) != NoOrigin
      invariant forall n :: n in assignments ==> assignments[n] == Lookup(l[..i], n)
    {
      assert l[..i + 1][..i] == l[..i];
      if Defines(result[i]).Some? {
        assignments := assignments[Defines(result[i]).value := OriginOf(result[i])];
      }
      if result[i].TmpCall? && result[i].called.Var? && result[i].called.name in assignments {
        result := result[i := result[i].(ori := assignments[result[i].called.name])];
      }
    }
  }

  method MarkOptions(l: seq<Instr>)
    returns (result: seq<Instr>, toRemove: set<nat>, variableToReplace: map<Name, Sym>)
    ensures |result| == |l| && forall k :: 0 <= k < |l| ==> result[k] == Marked(l, k)
    ensures forall k :: k in toRemove <==> 0 <= k < |l| && Setter(l, k)
    ensures RedirectsOf(l, |l|, variableToReplace)
  {
    result, toRemove, variableToReplace := l, {}, map[];
    for idx := 0 to |l|
      invariant |result| == |l|
      invariant forall k :: 0 <= k < idx - 1 ==> result[k] == Marked(l, k)
      invariant idx > 0 ==> result[idx - 1] == l[idx - 1]
      invariant forall k :: idx <= k < |l| ==> result[k] == l[k]
      invariant forall k :: k in toRemove <==> 0 <= k < idx && Setter(l, k)
      invariant RedirectsOf(l, idx, variableToReplace)
    {
      if idx == 0 { continue; }
      var ins, prev := result[idx], result[idx - 1];
      if ins.TmpCall? && OptionMember(ins.ori) && prev.Argument? {
        result := result[idx - 1 := prev.(kind := KindOf(ins.ori), callId := Some(ins.ori.left.name))];
        toRemove := toRemove + {idx};
        variableToReplace := variableToReplace[ins.lvalue := ins.ori.left];
      }
    }
  }

  method RemoveSetters(ghost l: seq<Instr>, marked: seq<Instr>, toRemove: set<nat>) returns (result: seq<Instr>)
    requires |marked| == |l|
    requires forall k :: k in toRemove <==> 0 <= k < |l| && Setter(l, k)
    ensures |result| == |Kept(l, |l|)| && forall a :: 0 <= a < |result| ==> result[a] == marked[Kept(l, |l|)[a]]
  {
    result := [];
    for i := 0 to |marked|
      invariant |result| == |Kept(l, i)| && forall a :: 0 <= a < |result| ==> result[a] == marked[Kept(l, i)[a]]
    {
      if i !in toRemove {
        assert Kept(l, i + 1) == Kept(l, i) + [i];
        result := result + [marked[i]];
      } else {
        assert Kept(l, i + 1) == Kept(l, i);
      }
    }
  }

  method UpdateCalls(ghost l: seq<Instr>, kept: seq<Instr>, variableToReplace: map<Name, Sym>)
    returns (result: seq<Instr>)
    requires AssignedOnceBeforeUse(l)
    requires |kept| == |Kept(l, |l|)| && forall a :: 0 <= a < |kept| ==> kept[a] == Marked(l, Kept(l, |l|)[a])
    requires RedirectsOf(l, |l|, variableToReplace)
    ensures result == Resolve(l)
  {
    result := kept;
    for a := 0 to |kept|
      invariant |result| == |kept|
      invariant forall b :: 0 <= b < a ==> result[b] == Resolved(l, Kept(l, |l|)[b])
      invariant forall b :: a <= b < |kept| ==> result[b] == kept[b]
    {
      var ins := result[a];
      if ins.TmpCall? {
        var called := ins.called;
        var callId := ins.callId;
        while called.name in variableToReplace
          invariant RootOf(l, |l|, called) == RootOf(l, |l|, ins.called)
          invariant if ins.called.name in variableToReplace
                    then called == ins.called || callId == Some(called.name)
                    else called == ins.called && callId == ins.callId
          decreases FindSetter(l, |l|, called.name) + 1
        {
          RootStep(l, FindSetter(l, |l|, called.name), called);
          callId := Some(variableToReplace[called.name].name);
          called := variableToReplace[called.name];
        }
        result := result[a := TmpCall(ins.lvalue, called, ins.ori, callId)];
      }
      if ins.Argument? && ins.callId.Some? {
        var id := ins.callId.value;
        while id in variableToReplace
          invariant RootOf(l, |l|, Var(id)).name == RootOf(l, |l|, Var(ins.callId.value)).name
          decreases FindSetter(l, |l|, id) + 1
        {
          RootStep(l, FindSetter(l, |l|, id), Var(id));
          id := variableToReplace[id].name;
        }
        result := result[a := Argument(ins.arg, ins.kind, Some(id))];
      }
    }
  }

  // ---------------------------------------------------------------------------------------
  // What the result looks like

  lemma {:induction false} LookupIgnoresOrigins(l: seq<Instr>, i: nat, n: Name)
    requires i <= |l|
    ensures Lookup(WithOrigins(l)[..i], n) == Lookup(l[..i], n)
  {
    if i == 0 {
    } else {
      assert l[..i][..i - 1] == l[..i - 1];
      assert WithOrigins(l)[..i][..i - 1] == WithOrigins(l)[..i - 1];
      LookupIgnoresOrigins(l, i - 1, n);
    }
  }

  lemma WithOriginsIdempotent(l: seq<Instr>)
    ensures WithOrigins(WithOrigins(l)) == WithOrigins(l)
  {
    forall i, n | 0 <= i <= |l| ensures Lookup(WithOrigins(l)[..i], n) == Lookup(l[..i], n) {
      LookupIgnoresOrigins(l, i, n);
    }
  }

  lemma {:induction false} IntegratedIsDone(src: seq<Instr>)
    ensures NoSetter(Integrated(src)) && WithOrigins(Integrated(src)) == Integrated(src)
    decreases |src|
  {
    var l := WithOrigins(src);
    if NoSetter(l) {
      WithOriginsIdempotent(src);
    } else {
      ResolveShrinks(l);
      IntegratedIsDone(Resolve(l));
    }
  }

  /** `p` is the last instruction before `i` that assigns `n`. */
  predicate AssignedLastAt(l: seq<Instr>, p: nat, i: nat, n: Name) {
    p < i <= |l| && Defines(l[p]) == Some(n) && forall q :: p < q < i ==> Defines(l[q]) != Some(n)
  }

  lemma {:induction false} LookupIsLast(l: seq<Instr>, p: nat, i: nat, n: Name)
    requires AssignedLastAt(l, p, i, n)
    ensures Lookup(l[..i], n) == OriginOf(l[p])
  {
    LookupSnoc(l, i - 1, n);
    if p == i - 1 {
    } else {
      LookupIsLast(l, p, i - 1, n);
    }
  }

  /** At exit no call through a `value` or `gas` member follows an argument, and the `ori` of each call whose callee
      is assigned in the list is the last assignment to it. */
  lemma IntegratedExit(src: seq<Instr>)
    ensures var r := Integrated(src);
      && (forall i :: 0 < i < |r| && r[i].TmpCall? && r[i].ori.FromMember? && r[i - 1].Argument? ==>
            r[i].ori.right != ValueField && r[i].ori.right != GasField)
      && (forall i, p :: 0 <= p <= i < |r| && r[i].TmpCall? && r[i].called.Var? && AssignedLastAt(r, p, i + 1, r[i].called.name) ==>
            r[i].ori == OriginOf(r[p]))
  {
    var r := Integrated(src);
    IntegratedIsDone(src);
    forall i, p | 0 <= p <= i < |r| && r[i].TmpCall? && r[i].called.Var? && AssignedLastAt(r, p, i + 1, r[i].called.name)
      ensures r[i].ori == OriginOf(r[p])
    {
      LookupIsLast(r, p, i + 1, r[i].called.name);
      assert r[i] == Relink(r, i);
    }
    forall i | 0 < i < |r| && r[i].TmpCall? && r[i].ori.FromMember? && r[i - 1].Argument?
      ensures r[i].ori.right != ValueField && r[i].ori.right != GasField
    {
      assert !Setter(r, i);
    }
  }

  /** The instructions that are no calls, and of arguments what they pass. */
  function Rest(l: seq<Instr>, i: nat): seq<Instr>
    requires i <= |l|
  {
    if i == 0 then []
    else match l[i - 1]
      case TmpCall(_, _, _, _) => Rest(l, i - 1)
      case Argument(arg, _, _) => Rest(l, i - 1) + [Argument(arg, CallArg, None)]
      case other => Rest(l, i - 1) + [other]
  }

  lemma {:induction false} RestOfLinked(l: seq<Instr>, i: nat)
    requires i <= |l|
    ensures Rest(WithOrigins(l), i) == Rest(l, i)
  {
    if i == 0 {
    } else {
      RestOfLinked(l, i - 1);
    }
  }

  predicate RestSoFar(l: seq<Instr>, i: nat)
    requires i <= |l|
  {
    |Kept(l, i)| <= |Resolve(l)| && Rest(Resolve(l), |Kept(l, i)|) == Rest(l, i)
  }

  lemma RestNext(l: seq<Instr>, i: nat)
    requires i < |l| && RestSoFar(l, i)
    ensures RestSoFar(l, i + 1)
  {
    if Setter(l, i) {
      assert Kept(l, i + 1) == Kept(l, i);
    } else {
      ResolveAt(l, i);
      RestOfOne(Resolve(l), |Kept(l, i)|, l, i);
    }
  }

  lemma RestOfOne(r: seq<Instr>, a: nat, l: seq<Instr>, i: nat)
    requires a < |r| && i < |l| && Rest(r, a) == Rest(l, i) && r[a] == Resolved(l, i)
    ensures Rest(r, a + 1) == Rest(l, i + 1)
  {
  }

  lemma {:induction false} RestOfResolved(l: seq<Instr>, i: nat)
    requires i <= |l|
    ensures RestSoFar(l, i)
  {
    if i == 0 {
    } else {
      RestOfResolved(l, i - 1);
      RestNext(l, i - 1);
    }
  }

  /** For every list: nothing but calls is ever removed, and what arguments pass is not changed. */
  lemma {:induction false} OnlyCallsGo(src: seq<Instr>)
    ensures Rest(Integrated(src), |Integrated(src)|) == Rest(src, |src|)
    decreases |src|
  {
    var l := WithOrigins(src);
    RestOfLinked(src, |src|);
    if NoSetter(l) {
    } else {
      ResolveShrinks(l);
      RestOfResolved(l, |l|);
      OnlyCallsGo(Resolve(l));
    }
  }

  // `f.value(1)()` on a variable `f` that the expression does not assign
  function Stale(f: Name, v: Name): seq<Instr> {
    [Member(Ref(0), Var(f), ValueField), Argument(v, CallArg, None),
     TmpCall(Tmp(0), Var(Ref(0)), NoOrigin, None), TmpCall(Tmp(1), Var(Tmp(0)), NoOrigin, None)]
  }

  function StaleLinked(f: Name, v: Name): seq<Instr> {
    [Member(Ref(0), Var(f), ValueField), Argument(v, CallArg, None),
     TmpCall(Tmp(0), Var(Ref(0)), FromMember(Ref(0), Var(f), ValueField), None),
     TmpCall(Tmp(1), Var(Tmp(0)), FromOther(Tmp(0)), None)]
  }

  function StaleResult(f: Name, v: Name): seq<Instr> {
    [Member(Ref(0), Var(f), ValueField), Argument(v, ValueArg, Some(f)),
     TmpCall(Tmp(1), Var(f), FromOther(Tmp(0)), Some(f))]
  }

  lemma StaleLinks(f: Name, v: Name)
    requires f.Program?
    ensures WithOrigins(Stale(f, v)) == StaleLinked(f, v)
  {
    var l, r := Stale(f, v), StaleLinked(f, v);
    LookupSnoc(l, 0, Ref(0)); LookupSnoc(l, 1, Ref(0)); LookupSnoc(l, 2, Ref(0));
    LookupSnoc(l, 2, Tmp(0)); LookupSnoc(l, 3, Tmp(0));
    assert Relink(l, 2) == r[2] && Relink(l, 3) == r[3];
  }

  lemma StaleStays(f: Name, v: Name)
    requires f.Program?
    ensures WithOrigins(StaleResult(f, v)) == StaleResult(f, v)
  {
    var l := StaleResult(f, v);
    LookupSnoc(l, 0, f); LookupSnoc(l, 1, f); LookupSnoc(l, 2, f);
  }

  lemma StaleSetters(f: Name, v: Name)
    requires f.Program?
    ensures var l := StaleLinked(f, v);
      FindSetter(l, 4, Tmp(0)) == 2 && FindSetter(l, 2, f) == -1 && FindSetter(l, 4, f) == -1 && Kept(l, 4) == [0, 1, 3]
  {
    var l := StaleLinked(f, v);
    assert Setter(l, 2) && !Setter(l, 0) && !Setter(l, 1) && !Setter(l, 3);
    assert FindSetter(l, 3, Tmp(0)) == 2;
    assert FindSetter(l, 1, f) == -1;
    assert FindSetter(l, 3, f) == -1;
    assert Kept(l, 1) == [0];
    assert Kept(l, 2) == [0, 1] == Kept(l, 3);
  }

  /** `IntegratedExit` says nothing on callees without a definition, and cannot: here `ori` stays
      at the setter, which is no longer in the list. */
  lemma StaleOrigin(f: Name, v: Name)
    requires f.Program?
    ensures Integrated(Stale(f, v)) == StaleResult(f, v)
  {
    var l := StaleLinked(f, v);
    StaleLinks(f, v);
    StaleStays(f, v);
    StaleSetters(f, v);
    assert Setter(l, 2);
    assert Resolve(l) == StaleResult(f, v);
  }

  lemma LookupSnoc(l: seq<Instr>, i: nat, n: Name)
    requires i < |l|
    ensures Lookup(l[..i + 1], n) == if Defines(l[i]) == Some(n) then OriginOf(l[i]) else Lookup(l[..i], n)
  {
    assert l[..i + 1][..i] == l[..i];
  }

  // ---------------------------------------------------------------------------------------
  // The result said without rounds

  /** Every setter of the input folded at once. */
  function OneRound(src: seq<Instr>): seq<Instr> {
    WithOrigins(Resolve(WithOrigins(src)))
  }

  lemma {:induction false} IntegratedLength(src: seq<Instr>)
    ensures |Integrated(src)| <= |src|
    ensures !NoSetter(WithOrigins(src)) ==> |Integrated(src)| < |src|
    decreases |src|
  {
    var l := WithOrigins(src);
    if NoSetter(l) {
    } else {
      ResolveShrinks(l);
      IntegratedLength(Resolve(l));
    }
  }

  /** The pass folds exactly the setters that the input shows, unless folding them makes a call
      through a `value` or `gas` member follow an argument: then it drops that call as well. */
  lemma OneRoundExact(src: seq<Instr>)
    requires AssignedOnceBeforeUse(src)
    ensures Integrated(src) == OneRound(src) <==> NoSetter(OneRound(src))
    ensures !NoSetter(OneRound(src)) ==> |Integrated(src)| < |OneRound(src)|
  {
    var l := WithOrigins(src);
    IntegratedIsDone(src);
    if NoSetter(l) {
      ResolveNothing(l);
      WithOriginsIdempotent(src);
    } else {
      IntegratedLength(Resolve(l));
      assert Integrated(src) == Integrated(Resolve(l));
    }
  }

  // ---------------------------------------------------------------------------------------
  // Inputs in which `value` and `gas` members only set options

  predicate IsOption(i: Instr) {
    i.Member? && (i.right == ValueField || i.right == GasField)
  }

  /** Calls come without origin and id; a call through a `value` or `gas` member directly follows an argument;
      and no such member is taken of another one. */
  predicate OnlySetsOptions(src: seq<Instr>) {
    && (forall i :: 0 <= i < |src| && src[i].TmpCall? ==> src[i].ori == NoOrigin && src[i].callId == None)
    && (forall i :: 0 <= i < |src| && src[i].TmpCall? && OptionMember(Relink(src, i).ori) ==> i > 0 && src[i - 1].Argument?)
    && (forall i, k :: 0 <= i < |src| && 0 <= k < |src| && IsOption(src[i]) && IsOption(src[k])
          ==> src[i].lvalue != src[k].left.name)
  }

  lemma OriginIsDefinition(src: seq<Instr>, i: nat) returns (p: nat)
    requires OnlySetsOptions(src) && i < |src| && src[i].TmpCall? && OptionMember(Relink(src, i).ori)
    ensures p < |src| && IsOption(src[p]) && OriginOf(src[p]) == Relink(src, i).ori
  {
    LookupIsDefinition(src[..i + 1], src[i].called.name);
    p :| 0 <= p < i + 1 && Defines(src[..i + 1][p]) == Some(src[i].called.name)
      && Lookup(src[..i + 1], src[i].called.name) == OriginOf(src[..i + 1][p]);
  }

  /** Where an instruction that stays is found after the round. */
  lemma ResolveAt(l: seq<Instr>, i: nat)
    requires i < |l| && !Setter(l, i)
    ensures var a := |Kept(l, i)|;
      && a < |Resolve(l)| && |Kept(l, i + 1)| == a + 1
      && Kept(l, |l|)[a] == i && Resolve(l)[a] == Resolved(l, i)
  {
    var a := |Kept(l, i)|;
    KeptPrefix(l, i + 1, |l|);
    assert Kept(l, i + 1) == Kept(l, i) + [i];
    assert Kept(l, |l|)[a] == Kept(l, |l|)[..a + 1][a] == i;
  }

  predicate LookupsMatch(l: seq<Instr>, i: nat, n: Name)
    requires i <= |l|
  {
    |Kept(l, i)| <= |Resolve(l)| && Lookup(Resolve(l)[..|Kept(l, i)|], n) == Lookup(l[..i], n)
  }

  /** What assigns a name that no setter assigns is the same after the round. */
  lemma {:induction false} LookupKept(l: seq<Instr>, i: nat, n: Name)
    requires i <= |l| && FindSetter(l, |l|, n) < 0
    ensures LookupsMatch(l, i, n)
  {
    if i == 0 {
    } else {
      LookupKept(l, i - 1, n);
      if Setter(l, i - 1) {
        LookupSkipped(l, i - 1, n);
      } else {
        LookupKeptStep(l, i - 1, n);
      }
    }
  }

  lemma LookupSkipped(l: seq<Instr>, i: nat, n: Name)
    requires i < |l| && Setter(l, i) && FindSetter(l, |l|, n) < 0 && LookupsMatch(l, i, n)
    ensures LookupsMatch(l, i + 1, n)
  {
    assert Kept(l, i + 1) == Kept(l, i);
    LookupSnoc(l, i, n);
  }

  lemma LookupKeptStep(l: seq<Instr>, i: nat, n: Name)
    requires i < |l| && !Setter(l, i) && LookupsMatch(l, i, n)
    ensures LookupsMatch(l, i + 1, n)
  {
    ResolveAt(l, i);
    ResolvedDefines(l, i);
    LookupGrows(Resolve(l), |Kept(l, i)|, l, i, n);
  }

  lemma LookupGrows(r: seq<Instr>, a: nat, l: seq<Instr>, i: nat, n: Name)
    requires a < |r| && i < |l| && Lookup(r[..a], n) == Lookup(l[..i], n)
    requires Defines(r[a]) == Defines(l[i]) && (Defines(l[i]).Some? ==> OriginOf(r[a]) == OriginOf(l[i]))
    ensures Lookup(r[..a + 1], n) == Lookup(l[..i + 1], n)
  {
    LookupSnoc(l, i, n);
    LookupSnoc(r, a, n);
  }

  lemma ResolvedDefines(l: seq<Instr>, i: nat)
    requires i < |l|
    ensures Defines(Resolved(l, i)) == Defines(l[i])
    ensures Defines(l[i]).Some? ==> OriginOf(Resolved(l, i)) == OriginOf(l[i])
  {
    ResolvedShape(l, i);
  }

  lemma {:induction false} RootIsLeft(l: seq<Instr>, i: nat, s: Sym) returns (j: nat)
    requires i <= |l| && FindSetter(l, i, s.name) >= 0
    ensures Setter(l, j) && RootOf(l, i, s) == l[j].ori.left
    decreases i
  {
    j := FindSetter(l, i, s.name);
    if FindSetter(l, j, l[j].ori.left.name) < 0 {
    } else {
      j := RootIsLeft(l, j, l[j].ori.left);
    }
  }

  lemma KeptAt(l: seq<Instr>, a: nat)
    requires a < |Kept(l, |l|)|
    ensures var k := Kept(l, |l|)[a]; |Kept(l, k)| == a && |Kept(l, k + 1)| == a + 1 && Resolve(l)[a] == Resolved(l, k)
  {
    ResolveAt(l, Kept(l, |l|)[a]);
  }

  /** The callee of a kept call after the round, and what the input says assigns it. */
  lemma OriginAfterRound(src: seq<Instr>, a: nat)
    requires AssignedOnceBeforeUse(src)
    requires a < |OneRound(src)| && OneRound(src)[a].TmpCall?
    ensures var l := WithOrigins(src);
      var k := Kept(l, |l|)[a];
      var callee := Resolved(l, k).called;
      && l[k].TmpCall? && OneRound(src)[a].called == callee && FindSetter(l, |l|, callee.name) < 0
      && OneRound(src)[a].ori
         == if callee.Var? && Lookup(src[..k + 1], callee.name) != NoOrigin then Lookup(src[..k + 1], callee.name)
            else l[k].ori
  {
    var l := WithOrigins(src);
    var r, k := Resolve(l), Kept(l, |l|)[a];
    WithOriginsKeepsShape(src);
    ResolvedShape(l, k);
    RootIsNoSetter(l, |l|, l[k].called);
    KeptAt(l, a);
    LookupKept(l, k + 1, r[a].called.name);
    LookupIgnoresOrigins(src, k + 1, r[a].called.name);
    RelinkKeeps(r, a);
  }

  lemma NoSetterAt(src: seq<Instr>, a: nat)
    requires AssignedOnceBeforeUse(src) && OnlySetsOptions(src) && a < |OneRound(src)|
    ensures !Setter(OneRound(src), a)
  {
    var l := WithOrigins(src);
    if OneRound(src)[a].TmpCall? {
      OriginAfterRound(src, a);
      var k := Kept(l, |l|)[a];
      assert l[k] == Relink(src, k);
      if FindSetter(l, |l|, l[k].called.name) >= 0 && OptionMember(OneRound(src)[a].ori) {
        RootIsNoOption(src, k);
      }
    }
  }

  /** The callee that options were set on is not itself a `value` or `gas` member. */
  lemma RootIsNoOption(src: seq<Instr>, k: nat)
    requires AssignedOnceBeforeUse(src) && OnlySetsOptions(src) && k < |src| && src[k].TmpCall?
    requires var l := WithOrigins(src); FindSetter(l, |l|, l[k].called.name) >= 0
    ensures var l := WithOrigins(src); !OptionMember(Lookup(src[..k + 1], RootOf(l, |l|, l[k].called).name))
  {
    var l := WithOrigins(src);
    var root := RootOf(l, |l|, l[k].called);
    var j := RootIsLeft(l, |l|, l[k].called);
    assert l[j] == Relink(src, j);
    var q := OriginIsDefinition(src, j);
    assert src[q].left == root;
    NeverAnOption(src, k + 1, root.name);
  }

  lemma {:induction false} NeverAnOption(src: seq<Instr>, i: nat, n: Name)
    requires i <= |src| && forall p :: 0 <= p < |src| && IsOption(src[p]) ==> src[p].lvalue != n
    ensures !OptionMember(Lookup(src[..i], n))
  {
    if i == 0 {
    } else {
      LookupSnoc(src, i - 1, n);
      NeverAnOption(src, i - 1, n);
    }
  }

  /** On such an input one round is the whole pass. */
  lemma OneRoundIsEnough(src: seq<Instr>)
    requires AssignedOnceBeforeUse(src) && OnlySetsOptions(src)
    ensures NoSetter(OneRound(src)) && Integrated(src) == OneRound(src)
  {
    forall a | 0 <= a < |OneRound(src)| ensures !Setter(OneRound(src), a) { NoSetterAt(src, a); }
    OneRoundExact(src);
  }

  function OriginFor(src: seq<Instr>, k: nat, callee: Sym): Origin
    requires k < |src| && src[k].TmpCall?
  {
    if callee.Var? && Lookup(src[..k + 1], callee.name) != NoOrigin then Lookup(src[..k + 1], callee.name)
    else if src[k].called.Var? then Lookup(src[..k + 1], src[k].called.name)
    else NoOrigin
  }

  /** The `ori` of a call at exit, said on the input: the definition of the callee that its options were set on,
      if and only if the input assigns that callee by then; else what the call's own callee was assigned by. */
  lemma OriginAtExit(src: seq<Instr>, a: nat)
    requires AssignedOnceBeforeUse(src) && OnlySetsOptions(src)
    requires a < |Integrated(src)| && Integrated(src)[a].TmpCall?
    ensures var l := WithOrigins(src);
      && a < |Kept(l, |l|)|
      && var k := Kept(l, |l|)[a];
      && src[k].TmpCall? && Integrated(src)[a].called == RootOf(l, |l|, src[k].called)
      && Integrated(src)[a].ori == OriginFor(src, k, RootOf(l, |l|, src[k].called))
  {
    OneRoundIsEnough(src);
    OriginAfterRound(src, a);
    var l := WithOrigins(src);
    assert l[Kept(l, |l|)[a]] == Relink(src, Kept(l, |l|)[a]);
  }

  /** After position `k` stands a call through a member `field`. */
  predicate FollowedBy(src: seq<Instr>, k: nat, field: Field) {
    && k + 1 < |src| && src[k + 1].TmpCall?
    && var o := Relink(src, k + 1).ori; o.FromMember? && o.right == field
  }

  /** The callee that the option at `k` is for. */
  function CalleeAfter(src: seq<Instr>, k: nat): Name
    requires FollowedBy(src, k, ValueField) || FollowedBy(src, k, GasField)
  {
    RootOf(WithOrigins(src), |src|, Relink(src, k + 1).ori.left).name
  }

  lemma KeptPlace(src: seq<Instr>, k: nat)
    requires AssignedOnceBeforeUse(src) && OnlySetsOptions(src) && k < |src| && !Setter(WithOrigins(src), k)
    ensures var l, a := WithOrigins(src), |Kept(WithOrigins(src), k)|;
      && |Integrated(src)| == |Kept(l, |l|)| && a < |Integrated(src)| && Kept(l, |l|)[a] == k
      && Integrated(src)[a] == Relink(Resolve(l), a) && Resolve(l)[a] == Resolved(l, k) && |Kept(l, k + 1)| == a + 1
  {
    OneRoundIsEnough(src);
    ResolveAt(WithOrigins(src), k);
  }

  /** Where instruction `k` of the input stands at exit, given that it stays. */
  function AtExit(src: seq<Instr>, k: nat): Instr
    requires AssignedOnceBeforeUse(src) && OnlySetsOptions(src) && k < |src| && !Setter(WithOrigins(src), k)
  {
    KeptPlace(src, k);
    Integrated(src)[|Kept(WithOrigins(src), k)|]
  }

  /** Members and other instructions stay as they are. */
  lemma OthersAtExit(src: seq<Instr>, k: nat)
    requires AssignedOnceBeforeUse(src) && OnlySetsOptions(src) && k < |src| && (src[k].Member? || src[k].Other?)
    ensures !Setter(WithOrigins(src), k) && AtExit(src, k) == src[k]
  {
    KeptPlace(src, k);
    RelinkKeeps(src, k);
    RelinkKeeps(Resolve(WithOrigins(src)), |Kept(WithOrigins(src), k)|);
  }

  /** An argument passes what it passed; a setter right after it gives it its kind and the name of the callee, and
      nothing else changes it. */
  lemma ArgumentAtExit(src: seq<Instr>, k: nat)
    requires AssignedOnceBeforeUse(src) && OnlySetsOptions(src) && k < |src| && src[k].Argument?
    ensures !Setter(WithOrigins(src), k) && AtExit(src, k).Argument? && AtExit(src, k).arg == src[k].arg
    ensures FollowedBy(src, k, ValueField) ==>
      AtExit(src, k) == Argument(src[k].arg, ValueArg, Some(CalleeAfter(src, k)))
    ensures FollowedBy(src, k, GasField) ==>
      AtExit(src, k) == Argument(src[k].arg, GasArg, Some(CalleeAfter(src, k)))
    ensures !FollowedBy(src, k, ValueField) && !FollowedBy(src, k, GasField) ==>
      AtExit(src, k) == Argument(src[k].arg, src[k].kind,
        if src[k].callId.None? then None else Some(RootOf(WithOrigins(src), |src|, Var(src[k].callId.value)).name))
  {
    var l := WithOrigins(src);
    KeptPlace(src, k);
    RelinkKeeps(src, k);
    SetterAfter(src, k);
    RelinkKeeps(Resolve(l), |Kept(l, k)|);
  }

  lemma SetterAfter(src: seq<Instr>, k: nat)
    requires k < |src| && src[k].Argument?
    ensures Setter(WithOrigins(src), k + 1) <==> FollowedBy(src, k, ValueField) || FollowedBy(src, k, GasField)
    ensures k + 1 < |src| ==> WithOrigins(src)[k + 1] == Relink(src, k + 1)
  {
  }

  /** From `s` the setters at `chain` lead to `root`: each assigns the name that the one before was taken of. */
  predicate LeadsTo(l: seq<Instr>, s: Sym, chain: seq<nat>, root: Sym)
    decreases chain
  {
    if chain == [] then root == s
    else
      && chain[0] < |l| && Setter(l, chain[0]) && l[chain[0]].lvalue == s.name
      && LeadsTo(l, l[chain[0]].ori.left, chain[1..], root)
  }

  /** The callee that options were set on is where the setters lead, and no setter leads on from there. */
  lemma {:induction false} RootIsChainEnd(l: seq<Instr>, i: nat, s: Sym) returns (chain: seq<nat>)
    requires AssignedOnceBeforeUse(l) && i <= |l| && CallsBefore(l, s.name, i)
    ensures LeadsTo(l, s, chain, RootOf(l, |l|, s))
    ensures forall j :: 0 <= j < |l| && Setter(l, j) ==> l[j].lvalue != RootOf(l, |l|, s).name
    decreases i
  {
    var j := FindSetter(l, i, s.name);
    RootFromEnd(l, i, s);
    if j < 0 {
      chain := [];
    } else {
      RootStep(l, j, s);
      var rest := RootIsChainEnd(l, j, l[j].ori.left);
      chain := [j] + rest;
      assert chain[1..] == rest;
    }
  }

  /** A call keeps its result; its callee becomes the one that its options were set on, and then names its id. */
  lemma CallAtExit(src: seq<Instr>, k: nat)
    requires AssignedOnceBeforeUse(src) && OnlySetsOptions(src) && k < |src| && src[k].TmpCall?
    requires !Setter(WithOrigins(src), k)
    ensures var root := RootOf(WithOrigins(src), |src|, src[k].called);
      AtExit(src, k)
      == TmpCall(src[k].lvalue, root, OriginFor(src, k, root), if root == src[k].called then None else Some(root.name))
  {
    var l := WithOrigins(src);
    KeptPlace(src, k);
    RelinkKeeps(src, k);
    RelinkKeeps(Resolve(l), |Kept(l, k)|);
    OriginAtExit(src, |Kept(l, k)|);
    WithOriginsKeepsShape(src);
    RootIsNoSetter(l, |l|, src[k].called);
  }

  predicate IsPlain(src: seq<Instr>, k: nat)
    requires k < |src|
  {
    src[k].Argument? && !FollowedBy(src, k, ValueField) && !FollowedBy(src, k, GasField)
  }

  /** The arguments before `i` that no setter follows. */
  function PlainArguments(src: seq<Instr>, i: nat): seq<Instr>
    requires i <= |src|
  {
    if i == 0 then []
    else if IsPlain(src, i - 1) then PlainArguments(src, i - 1) + [src[i - 1]]
    else PlainArguments(src, i - 1)
  }

  /** The CALL arguments before `i`. */
  function CallArguments(l: seq<Instr>, i: nat): seq<Instr>
    requires i <= |l|
  {
    if i == 0 then []
    else if l[i - 1].Argument? && l[i - 1].kind == CallArg then CallArguments(l, i - 1) + [l[i - 1]]
    else CallArguments(l, i - 1)
  }

  predicate FreshArguments(l: seq<Instr>) {
    forall i :: 0 <= i < |l| && l[i].Argument? ==> l[i].kind == CallArg && l[i].callId == None
  }

  lemma KindAtExit(src: seq<Instr>, k: nat)
    requires AssignedOnceBeforeUse(src) && OnlySetsOptions(src) && FreshArguments(src)
    requires k < |src| && !Setter(WithOrigins(src), k)
    ensures AtExit(src, k).Argument? && AtExit(src, k).kind == CallArg <==> IsPlain(src, k)
    ensures IsPlain(src, k) ==> AtExit(src, k) == src[k]
  {
    match src[k]
    case Argument(_, _, _) => ArgumentAtExit(src, k);
    case TmpCall(_, _, _, _) => CallAtExit(src, k);
    case _ => OthersAtExit(src, k);
  }

  /** With `l` the linked input and `r` the result: the statement for the instructions before `i`. */
  predicate PlainSoFar(src: seq<Instr>, l: seq<Instr>, r: seq<Instr>, i: nat)
    requires i <= |src| == |l|
  {
    |Kept(l, i)| <= |r| && CallArguments(r, |Kept(l, i)|) == PlainArguments(src, i)
  }

  lemma NextIsPlain(src: seq<Instr>, l: seq<Instr>, r: seq<Instr>, i: nat)
    requires i < |src| == |l| && PlainSoFar(src, l, r, i)
    requires if Setter(l, i) then !src[i].Argument?
      else |Kept(l, i)| < |r| && |Kept(l, i + 1)| == |Kept(l, i)| + 1
           && (r[|Kept(l, i)|].Argument? && r[|Kept(l, i)|].kind == CallArg <==> IsPlain(src, i))
           && (IsPlain(src, i) ==> r[|Kept(l, i)|] == src[i])
    ensures PlainSoFar(src, l, r, i + 1)
  {
    if Setter(l, i) { assert Kept(l, i + 1) == Kept(l, i); }
  }

  lemma PlainArgumentsNext(src: seq<Instr>, i: nat)
    requires AssignedOnceBeforeUse(src) && OnlySetsOptions(src) && FreshArguments(src) && i < |src|
    requires PlainSoFar(src, WithOrigins(src), Integrated(src), i)
    ensures PlainSoFar(src, WithOrigins(src), Integrated(src), i + 1)
  {
    RelinkKeeps(src, i);
    if !Setter(WithOrigins(src), i) {
      KeptPlace(src, i);
      KindAtExit(src, i);
    }
    NextIsPlain(src, WithOrigins(src), Integrated(src), i);
  }

  lemma {:induction false} PlainArgumentsBefore(src: seq<Instr>, l: seq<Instr>, r: seq<Instr>, i: nat)
    requires i <= |src| == |l|
    requires forall k :: 0 <= k < i && PlainSoFar(src, l, r, k) ==> PlainSoFar(src, l, r, k + 1)
    ensures PlainSoFar(src, l, r, i)
  {
    if i == 0 {
    } else {
      PlainArgumentsBefore(src, l, r, i - 1);
      assert PlainSoFar(src, l, r, i - 1 + 1);
    }
  }

  /** The CALL arguments at exit are the arguments of the input that no setter follows: the same ones, in order. */
  lemma PlainArgumentsStay(src: seq<Instr>)
    requires AssignedOnceBeforeUse(src) && OnlySetsOptions(src) && FreshArguments(src)
    ensures CallArguments(Integrated(src), |Integrated(src)|) == PlainArguments(src, |src|)
  {
    var l, r := WithOrigins(src), Integrated(src);
    forall k | 0 <= k < |src| && PlainSoFar(src, l, r, k) ensures PlainSoFar(src, l, r, k + 1) {
      PlainArgumentsNext(src, k);
    }
    PlainArgumentsBefore(src, l, r, |src|);
    OneRoundIsEnough(src);
  }

  // `c.value(v)`, a call of a function that is itself named `value`
  function Shadowed(c: Name, v: Name): seq<Instr> {
    [Member(Ref(0), Var(c), ValueField), Argument(v, CallArg, None), TmpCall(Tmp(0), Var(Ref(0)), NoOrigin, None)]
  }

  function ShadowedLinked(c: Name, v: Name): seq<Instr> {
    [Member(Ref(0), Var(c), ValueField), Argument(v, CallArg, None),
     TmpCall(Tmp(0), Var(Ref(0)), FromMember(Ref(0), Var(c), ValueField), None)]
  }

  lemma ShadowedLinks(c: Name, v: Name)
    ensures WithOrigins(Shadowed(c, v)) == ShadowedLinked(c, v)
  {
    var l := Shadowed(c, v);
    LookupSnoc(l, 0, Ref(0)); LookupSnoc(l, 1, Ref(0)); LookupSnoc(l, 2, Ref(0));
    assert Relink(l, 2) == ShadowedLinked(c, v)[2];
  }

  lemma ShadowedSetters(c: Name, v: Name)
    requires c.Program?
    ensures var l := ShadowedLinked(c, v); Setter(l, 2) && Kept(l, 3) == [0, 1] && FindSetter(l, 3, c) == -1
  {
    var l := ShadowedLinked(c, v);
    assert Setter(l, 2) && !Setter(l, 0) && !Setter(l, 1);
    assert FindSetter(l, 1, c) == -1;
    assert FindSetter(l, 2, c) == -1;
    assert Kept(l, 1) == [0];
    assert Kept(l, 2) == [0, 1];
  }

  /** A function that is itself named `value` is taken for the option: the call is lost. */
  lemma CallToFunctionNamedValue(c: Name, v: Name)
    requires c.Program?
    ensures Integrated(Shadowed(c, v)) == [Member(Ref(0), Var(c), ValueField), Argument(v, ValueArg, Some(c))]
  {
    ShadowedLinks(c, v);
    ShadowedSetters(c, v);
    var r := Resolve(ShadowedLinked(c, v));
    assert r == [Member(Ref(0), Var(c), ValueField), Argument(v, ValueArg, Some(c))];
    assert WithOrigins(r) == r;
    assert !NoSetter(WithOrigins(Shadowed(c, v)));
    assert NoSetter(r);
  }

  // ---------------------------------------------------------------------------------------
  // Which call an option was written on

  datatype CallOption = CallOption(kind: ArgKind, arg: Name)

  /** The options written on a callee named `s`, innermost first: follow the setters backwards. */
  function OptionsOn(l: seq<Instr>, i: nat, s: Sym): seq<CallOption>
    requires i <= |l|
    decreases i
  {
    var j := FindSetter(l, i, s.name);
    if j < 0 then [] else OptionsOn(l, j, l[j].ori.left) + [CallOption(KindOf(l[j].ori), l[j - 1].arg)]
  }

  /** Setter `m` is one of those that were followed. */
  predicate WrittenOn(l: seq<Instr>, i: nat, s: Sym, m: int)
    requires i <= |l|
    decreases i
  {
    var j := FindSetter(l, i, s.name);
    j >= 0 && (m == j || WrittenOn(l, j, l[j].ori.left, m))
  }

  /** An option names the same callee as the call it was written on, and keeps its kind and value. */
  lemma {:induction false} OptionMeetsCall(l: seq<Instr>, k: nat, m: nat)
    requires AssignedOnceBeforeUse(l) && k < |l| && l[k].TmpCall? && !Setter(l, k)
    requires WrittenOn(l, |l|, l[k].called, m)
    ensures 0 < m < |l| && Setter(l, m)
    ensures Resolved(l, m - 1).Argument? && Resolved(l, k).TmpCall?
    ensures Resolved(l, m - 1) == Argument(l[m - 1].arg, KindOf(l[m].ori), Resolved(l, k).callId)
    ensures Resolved(l, k).callId == Some(Resolved(l, k).called.name)
  {
    WrittenOnRoot(l, |l|, l[k].called, m);
  }

  lemma {:induction false} WrittenOnRoot(l: seq<Instr>, i: nat, s: Sym, m: int)
    requires AssignedOnceBeforeUse(l) && i <= |l| && CallsBefore(l, s.name, i)
    requires WrittenOn(l, i, s, m)
    ensures 0 < m < i && Setter(l, m)
    ensures RootOf(l, |l|, l[m].ori.left) == RootOf(l, |l|, s) && FindSetter(l, |l|, s.name) >= 0
    decreases i
  {
    var j := FindSetter(l, i, s.name);
    RootFromEnd(l, i, s);
    RootStep(l, j, s);
    if m == j {
    } else {
      WrittenOnRoot(l, j, l[j].ori.left, m);
    }
  }

  lemma OptionMeetsCallInRound(l: seq<Instr>, a: nat, m: nat)
    requires AssignedOnceBeforeUse(l) && a < |Resolve(l)|
    requires l[Kept(l, |l|)[a]].TmpCall? && WrittenOn(l, |l|, l[Kept(l, |l|)[a]].called, m)
    ensures var r := Resolve(l);
      && 0 < m < |l| && Setter(l, m) && |Kept(l, m - 1)| < |r| && r[a].TmpCall?
      && r[|Kept(l, m - 1)|] == Argument(l[m - 1].arg, KindOf(l[m].ori), r[a].callId)
      && r[a].callId == Some(r[a].called.name)
  {
    KeptAt(l, a);
    OptionMeetsCall(l, Kept(l, |l|)[a], m);
    ResolveAt(l, m - 1);
  }

  lemma RelinkKeeps(l: seq<Instr>, a: nat)
    requires a < |l|
    ensures l[a].TmpCall? ==> Relink(l, a).TmpCall? && Relink(l, a).callId == l[a].callId && Relink(l, a).called == l[a].called
    ensures !l[a].TmpCall? ==> Relink(l, a) == l[a]
  {
  }

  /** In the list that the pass returns: every option written on a call, through any number of redirections,
      has become an argument of its kind, and carries the id of that call. */
  lemma OptionMeetsCallAtExit(src: seq<Instr>, a: nat, m: nat)
    requires AssignedOnceBeforeUse(src) && OnlySetsOptions(src) && a < |OneRound(src)|
    requires var l := WithOrigins(src);
      l[Kept(l, |l|)[a]].TmpCall? && WrittenOn(l, |l|, l[Kept(l, |l|)[a]].called, m)
    ensures var l, r := WithOrigins(src), Integrated(src);
      && 0 < m < |l| && Setter(l, m) && a < |r| && |Kept(l, m - 1)| < |r| && r[a].TmpCall? && l[m - 1].Argument?
      && r[|Kept(l, m - 1)|] == Argument(l[m - 1].arg, KindOf(l[m].ori), r[a].callId)
      && r[a].callId == Some(r[a].called.name)
  {
    var l := WithOrigins(src);
    WithOriginsKeepsShape(src);
    OneRoundIsEnough(src);
    OptionMeetsCallInRound(l, a, m);
    RelinkKeeps(Resolve(l), a);
    RelinkKeeps(Resolve(l), |Kept(l, m - 1)|);
  }

  /** The last argument of a kind among `options`. */
  function LastOf(options: seq<CallOption>, kind: ArgKind): Option<Name> {
    if options == [] then None
    else if options[|options| - 1].kind == kind then Some(options[|options| - 1].arg)
    else LastOf(options[..|options| - 1], kind)
  }

  /** A setter of the given kind whose callee resolves to `root`. */
  predicate Sets(l: seq<Instr>, m: int, kind: ArgKind, root: Name) {
    Setter(l, m) && KindOf(l[m].ori) == kind && RootOf(l, |l|, l[m].ori.left).name == root
  }

  /** The last such setter before `i`, or -1. */
  function LastSetter(l: seq<Instr>, i: nat, kind: ArgKind, root: Name): (m: int)
    requires i <= |l|
    ensures -1 <= m < i && (m >= 0 ==> Sets(l, m, kind, root))
    ensures forall k :: m < k < i && k >= 0 ==> !Sets(l, k, kind, root)
  {
    if i == 0 then -1 else if Sets(l, i - 1, kind, root) then i - 1 else LastSetter(l, i - 1, kind, root)
  }

  /** Its argument. */
  function LastSet(l: seq<Instr>, i: nat, kind: ArgKind, root: Name): Option<Name>
    requires i <= |l|
  {
    var m := LastSetter(l, i, kind, root);
    if m < 0 then None else Some(l[m - 1].arg)
  }

  /** No setter was written on another call and resolves to the callee after the last one that
      was written on this call. */
  predicate LastIsItsOwn(l: seq<Instr>, i: nat, s: Sym, kind: ArgKind)
    requires i <= |l|
  {
    var m := LastSetter(l, i, kind, RootOf(l, |l|, s).name);
    m >= 0 ==> WrittenOn(l, i, s, m)
  }

  lemma OwnSetterBefore(l: seq<Instr>, i: nat, s: Sym, kind: ArgKind, j: nat)
    requires AssignedOnceBeforeUse(l) && i <= |l| && CallsBefore(l, s.name, i) && LastIsItsOwn(l, i, s, kind)
    requires j < i && j == FindSetter(l, i, s.name) && j != LastSetter(l, i, kind, RootOf(l, |l|, s).name)
    ensures var root := RootOf(l, |l|, s).name;
      && RootOf(l, |l|, l[j].ori.left).name == root && CallsBefore(l, l[j].ori.left.name, j)
      && LastSetter(l, i, kind, root) < j
      && LastSetter(l, j, kind, root) == LastSetter(l, i, kind, root)
      && LastIsItsOwn(l, j, l[j].ori.left, kind)
  {
    var left, root := l[j].ori.left, RootOf(l, |l|, s).name;
    RootFromEnd(l, i, s);
    RootStep(l, j, s);
    var m := LastSetter(l, i, kind, root);
    if m >= 0 { WrittenOnRoot(l, j, left, m); }
    LastSetterEarlier(l, j, i, kind, root);
  }

  lemma {:induction false} LastSetIsWritten(l: seq<Instr>, i: nat, s: Sym, kind: ArgKind)
    requires AssignedOnceBeforeUse(l) && i <= |l| && CallsBefore(l, s.name, i)
    requires LastIsItsOwn(l, i, s, kind)
    ensures LastSet(l, i, kind, RootOf(l, |l|, s).name) == LastOf(OptionsOn(l, i, s), kind)
    decreases i
  {
    var j := FindSetter(l, i, s.name);
    if j < 0 {
    } else {
      FollowedSetter(l, i, s, kind);
      LastSetStep(l, i, s, kind, j);
      if LastSetter(l, i, kind, RootOf(l, |l|, s).name) != j { LastSetIsWritten(l, j, l[j].ori.left, kind); }
    }
  }

  lemma LastSetStep(l: seq<Instr>, i: nat, s: Sym, kind: ArgKind, j: nat)
    requires AssignedOnceBeforeUse(l) && i <= |l| && CallsBefore(l, s.name, i) && LastIsItsOwn(l, i, s, kind)
    requires j < i && j == FindSetter(l, i, s.name)
    ensures var root, left := RootOf(l, |l|, s).name, l[j].ori.left;
      if LastSetter(l, i, kind, root) == j then KindOf(l[j].ori) == kind && LastSet(l, i, kind, root) == Some(l[j - 1].arg)
      else KindOf(l[j].ori) != kind && LastIsItsOwn(l, j, left, kind) && RootOf(l, |l|, left).name == root
           && LastSet(l, i, kind, root) == LastSet(l, j, kind, root)
  {
    var root := RootOf(l, |l|, s).name;
    if LastSetter(l, i, kind, root) != j {
      OwnSetterBefore(l, i, s, kind, j);
      assert !Sets(l, j, kind, root);
    }
  }

  lemma {:induction false} LastSetterEarlier(l: seq<Instr>, j: nat, i: nat, kind: ArgKind, root: Name)
    requires j <= i <= |l| && LastSetter(l, i, kind, root) < j
    ensures LastSetter(l, j, kind, root) == LastSetter(l, i, kind, root)
  {
    if i <= j {
    } else {
      LastSetterEarlier(l, j, i - 1, kind, root);
    }
  }

  /** No two setters of the given kind for one callee have the same argument. */
  predicate DistinctSettings(l: seq<Instr>, kind: ArgKind, root: Name) {
    forall m, n :: 0 <= m < n < |l| && Sets(l, m, kind, root) && Sets(l, n, kind, root) ==> l[m - 1].arg != l[n - 1].arg
  }

  lemma FollowedSetter(l: seq<Instr>, i: nat, s: Sym, kind: ArgKind)
    requires AssignedOnceBeforeUse(l) && i <= |l| && CallsBefore(l, s.name, i) && FindSetter(l, i, s.name) >= 0
    ensures var j := FindSetter(l, i, s.name);
      && CallsBefore(l, l[j].ori.left.name, j) && RootOf(l, |l|, l[j].ori.left).name == RootOf(l, |l|, s).name
      && LastOf(OptionsOn(l, i, s), kind)
         == if KindOf(l[j].ori) == kind then Some(l[j - 1].arg) else LastOf(OptionsOn(l, j, l[j].ori.left), kind)
  {
    var j := FindSetter(l, i, s.name);
    RootFromEnd(l, i, s);
    RootStep(l, j, s);
    assert OptionsOn(l, i, s)[..|OptionsOn(l, i, s)| - 1] == OptionsOn(l, j, l[j].ori.left);
  }

  lemma {:induction false} LastOfIsWritten(l: seq<Instr>, i: nat, s: Sym, kind: ArgKind) returns (m: int)
    requires AssignedOnceBeforeUse(l) && i <= |l| && CallsBefore(l, s.name, i)
    requires LastOf(OptionsOn(l, i, s), kind).Some?
    ensures WrittenOn(l, i, s, m) && Sets(l, m, kind, RootOf(l, |l|, s).name)
    ensures Some(l[m - 1].arg) == LastOf(OptionsOn(l, i, s), kind)
    decreases i
  {
    var j := FindSetter(l, i, s.name);
    FollowedSetter(l, i, s, kind);
    if KindOf(l[j].ori) == kind {
      m := j;
    } else {
      m := LastOfIsWritten(l, j, l[j].ori.left, kind);
    }
  }

  lemma DistinctArguments(l: seq<Instr>, kind: ArgKind, root: Name, m: int, n: int)
    requires DistinctSettings(l, kind, root) && m != n && Sets(l, m, kind, root)
    ensures n >= 0 && Sets(l, n, kind, root) ==> l[m - 1].arg != l[n - 1].arg
  {
  }

  lemma NotWrittenNotLast(l: seq<Instr>, i: nat, s: Sym, kind: ArgKind)
    requires AssignedOnceBeforeUse(l) && i <= |l| && CallsBefore(l, s.name, i) && !LastIsItsOwn(l, i, s, kind)
    requires DistinctSettings(l, kind, RootOf(l, |l|, s).name)
    ensures LastSet(l, i, kind, RootOf(l, |l|, s).name) != LastOf(OptionsOn(l, i, s), kind)
  {
    if LastOf(OptionsOn(l, i, s), kind).Some? {
      var m := LastOfIsWritten(l, i, s, kind);
      var root := RootOf(l, |l|, s).name;
      var last := LastSetter(l, i, kind, root);
      assert m != last && Sets(l, m, kind, root);
      DistinctArguments(l, kind, root, m, last);
    }
  }

  // `f.value(v)(f.value(w)())`
  function NestedSource(f: Name, v: Name, w: Name): seq<Instr> {
    [Member(Ref(0), Var(f), ValueField), Argument(v, CallArg, None),
     TmpCall(Tmp(0), Var(Ref(0)), NoOrigin, None),
     Member(Ref(1), Var(f), ValueField), Argument(w, CallArg, None),
     TmpCall(Tmp(1), Var(Ref(1)), NoOrigin, None),
     TmpCall(Tmp(2), Var(Tmp(1)), NoOrigin, None),
     Argument(Tmp(2), CallArg, None), TmpCall(Tmp(3), Var(Tmp(0)), NoOrigin, None)]
  }

  // with the origins set
  function Nested(f: Name, v: Name, w: Name): seq<Instr> {
    [Member(Ref(0), Var(f), ValueField), Argument(v, CallArg, None),
     TmpCall(Tmp(0), Var(Ref(0)), FromMember(Ref(0), Var(f), ValueField), None),
     Member(Ref(1), Var(f), ValueField), Argument(w, CallArg, None),
     TmpCall(Tmp(1), Var(Ref(1)), FromMember(Ref(1), Var(f), ValueField), None),
     TmpCall(Tmp(2), Var(Tmp(1)), FromOther(Tmp(1)), None),
     Argument(Tmp(2), CallArg, None), TmpCall(Tmp(3), Var(Tmp(0)), FromOther(Tmp(0)), None)]
  }

  lemma NestedLookup(f: Name, v: Name, w: Name, i: nat, n: Name)
    requires f.Program? && i <= 9
    ensures Lookup(NestedSource(f, v, w)[..i], n) ==
      if n == Tmp(3) && i > 8 then FromOther(n)
      else if n == Tmp(2) && i > 6 then FromOther(n)
      else if n == Tmp(1) && i > 5 then FromOther(n)
      else if n == Ref(1) && i > 3 then FromMember(n, Var(f), ValueField)
      else if n == Tmp(0) && i > 2 then FromOther(n)
      else if n == Ref(0) && i > 0 then FromMember(n, Var(f), ValueField)
      else NoOrigin
    decreases i
  {
    if i == 0 {
    } else {
      LookupSnoc(NestedSource(f, v, w), i - 1, n);
      NestedLookup(f, v, w, i - 1, n);
    }
  }

  lemma NestedLinks(f: Name, v: Name, w: Name)
    requires f.Program?
    ensures WithOrigins(NestedSource(f, v, w)) == Nested(f, v, w)
  {
    var src, l := NestedSource(f, v, w), Nested(f, v, w);
    forall i | 0 <= i < 9 ensures Relink(src, i) == l[i] {
      if src[i].TmpCall? { NestedLookup(f, v, w, i + 1, src[i].called.name); }
    }
  }

  lemma NestedIsPlain(f: Name, v: Name, w: Name)
    requires f.Program?
    ensures AssignedOnceBeforeUse(NestedSource(f, v, w)) && OnlySetsOptions(NestedSource(f, v, w))
  {
    NestedAssignsOnce(f, v, w);
    NestedLinks(f, v, w);
    var src := NestedSource(f, v, w);
    forall i | 0 <= i < 9 && src[i].TmpCall? && OptionMember(Relink(src, i).ori) ensures i > 0 && src[i - 1].Argument? {
      assert Relink(src, i) == Nested(f, v, w)[i];
    }
  }

  lemma NestedAssignsOnce(f: Name, v: Name, w: Name)
    requires f.Program?
    ensures AssignedOnceBeforeUse(NestedSource(f, v, w))
  {
  }

  /** Two chains on one variable: the outer call was written with `v`, the last value set for its
      callee is `w`. */
  lemma NestedOptions(f: Name, v: Name, w: Name)
    requires f.Program?
    ensures var l := Nested(f, v, w);
      && LastOf(OptionsOn(l, 9, l[8].called), ValueArg) == Some(v)
      && LastSet(l, 8, ValueArg, RootOf(l, 9, l[8].called).name) == Some(w)
      && FindSetter(l, 9, l[8].called.name) >= 0 && Kept(l, 9) == [0, 1, 3, 4, 6, 7, 8]
  {
    var l := Nested(f, v, w);
    assert Setter(l, 2) && Setter(l, 5);
    assert !Setter(l, 0) && !Setter(l, 1) && !Setter(l, 3) && !Setter(l, 4);
    assert !Setter(l, 6) && !Setter(l, 7) && !Setter(l, 8);
    assert FindSetter(l, 9, Tmp(0)) == 2;
    assert FindSetter(l, 2, f) == -1 && FindSetter(l, 5, f) == -1 && FindSetter(l, 9, f) == -1;
    assert Sets(l, 5, ValueArg, f);
    assert OptionsOn(l, 2, Var(f)) == [];
    NestedKept(f, v, w);
  }

  lemma NestedKept(f: Name, v: Name, w: Name)
    requires f.Program?
    ensures Kept(Nested(f, v, w), 9) == [0, 1, 3, 4, 6, 7, 8]
  {
    var l := Nested(f, v, w);
    assert Setter(l, 2) && Setter(l, 5);
    assert Kept(l, 2) == [0, 1] == Kept(l, 3);
    assert Kept(l, 5) == [0, 1, 3, 4] == Kept(l, 6);
    assert Kept(l, 8) == [0, 1, 3, 4, 6, 7];
  }

  lemma {:induction false} KeptPrefix(l: seq<Instr>, i: nat, j: nat)
    requires i <= j <= |l|
    ensures |Kept(l, i)| <= |Kept(l, j)| && Kept(l, j)[..|Kept(l, i)|] == Kept(l, i)
  {
    if j <= i {
    } else {
      KeptPrefix(l, i, j - 1);
      assert Kept(l, j) == Kept(l, j - 1) || Kept(l, j) == Kept(l, j - 1) + [j - 1];
    }
  }
}
