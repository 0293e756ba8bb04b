/** `remove_unused`: member accesses whose result nobody uses are dropped, until none is left. */
module RemoveUnused {
  import opened Ir
  import opened Options

  datatype Sort = MemberAccess | IndexAccess | ElementaryTypeCall | OtherSort

  /** `id` stands for the identity of the instruction. */
  datatype Ins = Ins(id: nat, sort: Sort, lvalue: Option<Name>, operands: seq<Name>)

  /** An instruction that writes through its reference; index and member accesses bind theirs. */
  predicate WritesThrough(ins: Ins) {
    !ins.sort.IndexAccess? && !ins.sort.MemberAccess? && ins.lvalue.Some? && ins.lvalue.value.Ref?
  }

  predicate Uses(ins: Ins, n: Name) {
    n in ins.operands || (WritesThrough(ins) && ins.lvalue == Some(n))
  }

  predicate Used(l: seq<Ins>, n: Name) {
    exists i :: 0 <= i < |l| && Uses(l[i], n)
  }

  /** Members assign references; `type(T)` of an elementary type reads no variable and assigns a
      temporary; instructions are distinct objects. */
  predicate WellFormed(l: seq<Ins>) {
    && (forall i, j :: 0 <= i < j < |l| ==> l[i].id != l[j].id)
    && (forall i :: 0 <= i < |l| && l[i].sort.MemberAccess? ==> l[i].lvalue.Some?)
    && (forall i :: 0 <= i < |l| && l[i].sort.ElementaryTypeCall? ==>
          l[i].lvalue.Some? && !l[i].lvalue.value.Ref? && l[i].operands == [])
  }

  predicate Droppable(l: seq<Ins>, ins: Ins, last: nat) {
    ins.sort.ElementaryTypeCall? || DeadMember(l, ins, last)
  }

  predicate DeadMember(l: seq<Ins>, ins: Ins, last: nat) {
    ins.sort.MemberAccess? && ins.lvalue.Some? && !Used(l, ins.lvalue.value) && ins.id != last
  }

  /** One round over the first `i` instructions. */
  function Survivors(l: seq<Ins>, i: nat, last: nat): (r: seq<Ins>)
    requires i <= |l|
    ensures |r| <= i
    ensures forall a :: 0 <= a < |r| ==> r[a] in l[..i] && !Droppable(l, r[a], last)
  {
    if i == 0 then []
    else if Droppable(l, l[i - 1], last) then Survivors(l, i - 1, last)
    else Survivors(l, i - 1, last) + [l[i - 1]]
  }

  predicate NothingDead(l: seq<Ins>, last: nat) {
    forall i :: 0 <= i < |l| ==> !DeadMember(l, l[i], last)
  }

  lemma {:induction false} SurvivorsShrink(l: seq<Ins>, i: nat, last: nat, k: nat)
    requires k < i <= |l| && Droppable(l, l[k], last)
    ensures |Survivors(l, i, last)| < i
  {
    if i - 1 <= k {
    } else {
      SurvivorsShrink(l, i - 1, last, k);
    }
  }

  lemma RoundShrinks(l: seq<Ins>, last: nat)
    requires !NothingDead(l, last)
    ensures |Survivors(l, |l|, last)| < |l|
  {
    var k :| 0 <= k < |l| && DeadMember(l, l[k], last);
    SurvivorsShrink(l, |l|, last, k);
  }

  function Rounds(l: seq<Ins>, last: nat): seq<Ins>
    decreases |l|
  {
    var next := Survivors(l, |l|, last);
    if NothingDead(l, last) then next
    else
      RoundShrinks(l, last);
      Rounds(next, last)
  }

  method RemoveUnused(input: seq<Ins>) returns (result: seq<Ins>)
    requires WellFormed(input)
    ensures result == if input == [] then [] else Rounds(input, input[|input| - 1].id)
  {
    result := input;
    if result == [] { return; }
    var last := result[|result| - 1].id;
    var removed := true;
    while removed
      invariant WellFormed(result)
      invariant Rounds(input, last) == if removed then Rounds(result, last) else result
      decreases |result|, removed
    {
      var toKeep := NamesToKeep(result);
      var toRemove;
      toRemove, removed := MarkDead(result, last, toKeep);
      if removed { RoundShrinks(result, last); }
      SurvivorsWellFormed(result, |result|, last);
      result := Filter(result, last, toRemove);
    }
  }

  /** The names that are read, and the references that are written. */
  method NamesToKeep(l: seq<Ins>) returns (toKeep: set<Name>)
    ensures forall n :: n in toKeep <==> Used(l, n)
  {
    toKeep := {};
    for i := 0 to |l|
      invariant forall n :: n in toKeep <==> Used(l[..i], n)
    {
      UsedSnoc(l, i);
      toKeep := toKeep + (set n | n in l[i].operands);
      if l[i].lvalue.Some? && !l[i].sort.IndexAccess? && !l[i].sort.MemberAccess? {
        if l[i].lvalue.value.Ref? { toKeep := toKeep + {l[i].lvalue.value}; }
      }
    }
    assert l[..|l|] == l;
  }

  method MarkDead(l: seq<Ins>, last: nat, toKeep: set<Name>) returns (toRemove: set<nat>, removed: bool)
    requires WellFormed(l) && forall n :: n in toKeep <==> Used(l, n)
    ensures forall k :: 0 <= k < |l| ==> (l[k].id in toRemove <==> Droppable(l, l[k], last))
    ensures removed <==> !NothingDead(l, last)
  {
    toRemove, removed := {}, false;
    for i := 0 to |l|
      invariant forall k :: 0 <= k < i ==> (l[k].id in toRemove <==> Droppable(l, l[k], last))
      invariant forall k :: i <= k < |l| ==> l[k].id !in toRemove
      invariant removed <==> exists k :: 0 <= k < i && DeadMember(l, l[k], last)
    {
      if l[i].sort.MemberAccess? {
        if l[i].lvalue.value !in toKeep && l[i].id != last {
          toRemove := toRemove + {l[i].id};
          removed := true;
          assert DeadMember(l, l[i], last);
        }
      }
      if l[i].sort.ElementaryTypeCall? {
        toRemove := toRemove + {l[i].id};
      }
    }
  }

  method Filter(l: seq<Ins>, ghost last: nat, toRemove: set<nat>) returns (result: seq<Ins>)
    requires forall k :: 0 <= k < |l| ==> (l[k].id in toRemove <==> Droppable(l, l[k], last))
    ensures result == Survivors(l, |l|, last)
  {
    result := [];
    for i := 0 to |l|
      invariant result == Survivors(l, i, last)
    {
      if l[i].id !in toRemove { result := result + [l[i]]; }
    }
  }

  lemma UsedSnoc(l: seq<Ins>, i: nat)
    requires i < |l|
    ensures forall n :: Used(l[..i + 1], n) <==> Used(l[..i], n) || Uses(l[i], n)
  {
    forall n ensures Used(l[..i + 1], n) <==> Used(l[..i], n) || Uses(l[i], n) {
      if Used(l[..i], n) {
        var k :| 0 <= k < i && Uses(l[..i][k], n);
        assert Uses(l[..i + 1][k], n);
      }
      if Uses(l[i], n) { assert Uses(l[..i + 1][i], n); }
      if Used(l[..i + 1], n) {
        var k :| 0 <= k < i + 1 && Uses(l[..i + 1][k], n);
        if k < i { assert Uses(l[..i][k], n); }
      }
    }
  }

  lemma {:induction false} SurvivorsWellFormed(l: seq<Ins>, i: nat, last: nat)
    requires i <= |l| && WellFormed(l)
    ensures WellFormed(Survivors(l, i, last))
  {
    if i == 0 {
    } else {
      SurvivorsWellFormed(l, i - 1, last);
    }
  }

  // ---------------------------------------------------------------------------------------
  // Which instructions stay

  /** The ids of a selection of instructions in which every member but the last instruction is
      used by a selected instruction, and no `type(T)` is selected. */
  predicate SelfSupporting(l: seq<Ins>, s: set<nat>, last: nat) {
    forall i :: 0 <= i < |l| && l[i].id in s ==> !l[i].sort.ElementaryTypeCall? && Supported(l, l[i], s, last)
  }

  predicate Supported(l: seq<Ins>, ins: Ins, s: set<nat>, last: nat) {
    ins.sort.MemberAccess? && ins.lvalue.Some? && ins.id != last ==>
      exists j :: 0 <= j < |l| && l[j].id in s && Uses(l[j], ins.lvalue.value)
  }

  function Ids(l: seq<Ins>): set<nat> {
    set i | 0 <= i < |l| :: l[i].id
  }

  /** A selection that supports itself survives a round, and still supports itself. */
  lemma {:induction false} SupportedSurvive(l: seq<Ins>, i: nat, s: set<nat>, last: nat)
    requires i <= |l| && WellFormed(l) && SelfSupporting(l, s, last)
    ensures forall k :: 0 <= k < i && l[k].id in s ==> l[k] in Survivors(l, i, last)
  {
    if i == 0 {
    } else {
      SupportedSurvive(l, i - 1, s, last);
      if l[i - 1].id in s { assert !Droppable(l, l[i - 1], last); }
    }
  }

  lemma RoundKeepsSupport(l: seq<Ins>, s: set<nat>, last: nat)
    requires WellFormed(l) && SelfSupporting(l, s, last) && s <= Ids(l)
    ensures SelfSupporting(Survivors(l, |l|, last), s, last) && s <= Ids(Survivors(l, |l|, last))
  {
    var r := Survivors(l, |l|, last);
    SupportedSurvive(l, |l|, s, last);
    forall i | 0 <= i < |r| && r[i].id in s
      ensures !r[i].sort.ElementaryTypeCall? && Supported(r, r[i], s, last)
    {
      var k :| 0 <= k < |l| && l[k] == r[i];
      SupportSurvives(l, r[i], s, last);
    }
    forall n | n in s ensures n in Ids(r) {
      var k :| 0 <= k < |l| && l[k].id == n;
      var j :| 0 <= j < |r| && r[j] == l[k];
    }
  }

  lemma SupportSurvives(l: seq<Ins>, ins: Ins, s: set<nat>, last: nat)
    requires forall k :: 0 <= k < |l| && l[k].id in s ==> l[k] in Survivors(l, |l|, last)
    requires Supported(l, ins, s, last)
    ensures Supported(Survivors(l, |l|, last), ins, s, last)
  {
    var r := Survivors(l, |l|, last);
    if ins.sort.MemberAccess? && ins.lvalue.Some? && ins.id != last {
      var j :| 0 <= j < |l| && l[j].id in s && Uses(l[j], ins.lvalue.value);
      var j' :| 0 <= j' < |r| && r[j'] == l[j];
    }
  }

  /** The pass returns the greatest selection that supports itself. */
  lemma {:induction false} GreatestSupported(l: seq<Ins>, s: set<nat>, last: nat)
    requires WellFormed(l) && SelfSupporting(l, s, last) && s <= Ids(l)
    ensures s <= Ids(Rounds(l, last))
    decreases |l|
  {
    RoundKeepsSupport(l, s, last);
    if NothingDead(l, last) {
    } else {
      RoundShrinks(l, last);
      SurvivorsWellFormed(l, |l|, last);
      GreatestSupported(Survivors(l, |l|, last), s, last);
    }
  }

  /** Dropping `type(T)` calls alone takes no use away. */
  lemma {:induction false} UsesSurvive(l: seq<Ins>, i: nat, last: nat, n: Name)
    requires i <= |l| && WellFormed(l) && NothingDead(l, last) && Used(l[..i], n)
    ensures Used(Survivors(l, i, last), n)
  {
    UsedSnoc(l, i - 1);
    var before, after := Survivors(l, i - 1, last), Survivors(l, i, last);
    if Used(l[..i - 1], n) {
      UsesSurvive(l, i - 1, last, n);
      var k :| 0 <= k < |before| && Uses(before[k], n);
      assert Uses(after[k], n);
    } else {
      assert after == before + [l[i - 1]];
      assert Uses(after[|after| - 1], n);
    }
  }

  lemma {:induction false} RoundsSupported(l: seq<Ins>, last: nat)
    requires WellFormed(l)
    ensures var r := Rounds(l, last);
      && WellFormed(r)
      && (forall i :: 0 <= i < |r| ==> !r[i].sort.ElementaryTypeCall?)
      && (forall i :: 0 <= i < |r| && r[i].sort.MemberAccess? && r[i].id != last ==>
            exists j :: 0 <= j < |r| && (r[i].lvalue.value in r[j].operands
              || (r[j].lvalue == r[i].lvalue && r[i].lvalue.value.Ref?
                  && !r[j].sort.MemberAccess? && !r[j].sort.IndexAccess?)))
    decreases |l|
  {
    var r := Survivors(l, |l|, last);
    SurvivorsWellFormed(l, |l|, last);
    if NothingDead(l, last) {
      forall i | 0 <= i < |r| && r[i].sort.MemberAccess? && r[i].id != last ensures Used(r, r[i].lvalue.value) {
        assert l[..|l|] == l;
        UsesSurvive(l, |l|, last, r[i].lvalue.value);
      }
    } else {
      RoundShrinks(l, last);
      RoundsSupported(r, last);
    }
  }

  /** The surviving instructions, as positions of the input in order. */
  lemma {:induction false} SurvivorsEmbed(l: seq<Ins>, i: nat, last: nat) returns (at: seq<nat>)
    requires i <= |l|
    ensures |at| == |Survivors(l, i, last)|
    ensures forall a :: 0 <= a < |at| ==> at[a] < i && l[at[a]] == Survivors(l, i, last)[a]
    ensures forall a, b :: 0 <= a < b < |at| ==> at[a] < at[b]
  {
    if i == 0 {
      at := [];
    } else {
      at := SurvivorsEmbed(l, i - 1, last);
      if !Droppable(l, l[i - 1], last) { at := at + [i - 1]; }
    }
  }

  lemma {:induction false} RoundsEmbed(l: seq<Ins>, last: nat) returns (at: seq<nat>)
    ensures |at| == |Rounds(l, last)|
    ensures forall a :: 0 <= a < |at| ==> at[a] < |l| && l[at[a]] == Rounds(l, last)[a]
    ensures forall a, b :: 0 <= a < b < |at| ==> at[a] < at[b]
    decreases |l|
  {
    var first := SurvivorsEmbed(l, |l|, last);
    if NothingDead(l, last) {
      at := first;
    } else {
      RoundShrinks(l, last);
      var rest := RoundsEmbed(Survivors(l, |l|, last), last);
      at := seq(|rest|, a requires 0 <= a < |rest| => first[rest[a]]);
    }
  }

  /** The last instruction stays the last one, unless it is a `type(T)` call: the removal of those does not
      spare it. */
  lemma {:induction false} KeepsLast(l: seq<Ins>, last: nat)
    requires l != [] && WellFormed(l) && l[|l| - 1].id == last
    ensures var r := Rounds(l, last);
      (r != [] && r[|r| - 1] == l[|l| - 1]) <==> !l[|l| - 1].sort.ElementaryTypeCall?
    decreases |l|
  {
    if l[|l| - 1].sort.ElementaryTypeCall? {
      RoundsSupported(l, last);
    } else {
      var next := Survivors(l, |l|, last);
      assert next[|next| - 1] == l[|l| - 1];
      if !NothingDead(l, last) {
        RoundShrinks(l, last);
        SurvivorsWellFormed(l, |l|, last);
        KeepsLast(next, last);
      }
    }
  }

  // ---------------------------------------------------------------------------------------
  // Meaning: any semantics in which an instruction depends on what it reads

  datatype Machine<V, M> = Machine(env: map<Name, V>, mem: M)

  /** What an instruction binds its variable to, if it does, and what it does to memory. */
  datatype Semantics<!V, !M> = Semantics(bind: (Ins, seq<Option<V>>, M) -> Option<V>, effect: (Ins, seq<Option<V>>, M) -> M)

  function ValueOf<V, M>(m: Machine<V, M>, n: Name): Option<V> {
    if n in m.env then Some(m.env[n]) else None
  }

  /** The values of the operands, and of the reference the instruction writes through. */
  function Inputs<V, M>(ins: Ins, m: Machine<V, M>): seq<Option<V>> {
    seq(|ins.operands|, i requires 0 <= i < |ins.operands| => ValueOf(m, ins.operands[i]))
    + if ins.lvalue.Some? && ins.lvalue.value.Ref? && !ins.sort.MemberAccess? && !ins.sort.IndexAccess?
      then [ValueOf(m, ins.lvalue.value)] else []
  }

  /** Member accesses and `type(T)` only bind their variable. */
  function Exec<V, M>(ins: Ins, sem: Semantics<V, M>, m: Machine<V, M>): Machine<V, M> {
    var inputs := Inputs(ins, m);
    var bound := if ins.lvalue.Some? then sem.bind(ins, inputs, m.mem) else None;
    Machine(if bound.Some? then m.env[ins.lvalue.value := bound.value] else m.env,
            if ins.sort.MemberAccess? || ins.sort.ElementaryTypeCall? then m.mem else sem.effect(ins, inputs, m.mem))
  }

  function Run<V, M>(l: seq<Ins>, i: nat, sem: Semantics<V, M>, m: Machine<V, M>): Machine<V, M>
    requires i <= |l|
  {
    if i == 0 then m else Exec(l[i - 1], sem, Run(l, i - 1, sem, m))
  }

  ghost predicate AgreeExcept<V(!new), M(!new)>(a: Machine<V, M>, b: Machine<V, M>, d: set<Name>) {
    a.mem == b.mem && forall n :: n !in d ==> ValueOf(a, n) == ValueOf(b, n)
  }

  /** The variables of the instructions a round drops. */
  function DroppedNames(l: seq<Ins>, last: nat): set<Name> {
    set i | 0 <= i < |l| && Droppable(l, l[i], last) && l[i].lvalue.Some? :: l[i].lvalue.value
  }

  /** The variables of the instructions the pass drops. */
  function AllDropped(l: seq<Ins>, last: nat): set<Name>
    decreases |l|
  {
    if NothingDead(l, last) then DroppedNames(l, last)
    else
      RoundShrinks(l, last);
      DroppedNames(l, last) + AllDropped(Survivors(l, |l|, last), last)
  }

  /** No instruction uses the result of a `type(T)` call. */
  predicate TypeResultsUnused(l: seq<Ins>) {
    forall i :: 0 <= i < |l| && l[i].sort.ElementaryTypeCall? && l[i].lvalue.Some? ==> !Used(l, l[i].lvalue.value)
  }

  lemma ExecAgrees<V(!new), M(!new)>(ins: Ins, sem: Semantics<V, M>, a: Machine<V, M>, b: Machine<V, M>, d: set<Name>)
    requires AgreeExcept(a, b, d) && forall n :: n in d ==> !Uses(ins, n)
    ensures AgreeExcept(Exec(ins, sem, a), Exec(ins, sem, b), d)
  {
    assert Inputs(ins, a) == Inputs(ins, b);
    forall n | n !in d ensures ValueOf(Exec(ins, sem, a), n) == ValueOf(Exec(ins, sem, b), n) {
      assert ValueOf(a, n) == ValueOf(b, n);
    }
  }

  lemma {:induction false} RoundAgrees<V(!new), M(!new)>(
    l: seq<Ins>, i: nat, last: nat, sem: Semantics<V, M>, m: Machine<V, M>)
    requires i <= |l| && TypeResultsUnused(l)
    ensures var s := Survivors(l, i, last);
      AgreeExcept(Run(l, i, sem, m), Run(s, |s|, sem, m), DroppedNames(l, last))
  {
    if i == 0 {
    } else {
      RoundAgrees(l, i - 1, last, sem, m);
      var ins, d := l[i - 1], DroppedNames(l, last);
      var s := Survivors(l, i - 1, last);
      if Droppable(l, ins, last) {
        assert ins.lvalue.Some? ==> ins.lvalue.value in d;
      } else {
        forall n | n in d ensures !Uses(ins, n) {}
        ExecAgrees(ins, sem, Run(l, i - 1, sem, m), Run(s, |s|, sem, m), d);
        RunPrefix(s, [ins], |s|, sem, m);
      }
    }
  }

  lemma {:induction false} RunPrefix<V, M>(l: seq<Ins>, more: seq<Ins>, i: nat, sem: Semantics<V, M>, m: Machine<V, M>)
    requires i <= |l|
    ensures Run(l + more, i, sem, m) == Run(l, i, sem, m)
  {
    if i == 0 {
    } else {
      RunPrefix(l, more, i - 1, sem, m);
    }
  }

  /** Memory and every variable but those of dropped instructions end as they did. */
  lemma {:induction false} RemoveUnusedPreservesMeaning<V(!new), M(!new)>(
    l: seq<Ins>, last: nat, sem: Semantics<V, M>, m: Machine<V, M>)
    requires TypeResultsUnused(l)
    ensures var r := Rounds(l, last);
      AgreeExcept(Run(l, |l|, sem, m), Run(r, |r|, sem, m), AllDropped(l, last))
    decreases |l|
  {
    var s := Survivors(l, |l|, last);
    RoundAgrees(l, |l|, last, sem, m);
    if NothingDead(l, last) {
    } else {
      RoundShrinks(l, last);
      RemoveUnusedPreservesMeaning(s, last, sem, m);
      var r := Rounds(l, last);
      forall n | n !in AllDropped(l, last)
        ensures ValueOf(Run(l, |l|, sem, m), n) == ValueOf(Run(r, |r|, sem, m), n)
      {
        assert ValueOf(Run(l, |l|, sem, m), n) == ValueOf(Run(s, |s|, sem, m), n);
      }
    }
  }

  // ---------------------------------------------------------------------------------------
  // Meaning in a machine with memory

  /** References are bound to places, other variables hold values, and memory holds the values of places. */
  datatype Store<V, P> = Store(vars: map<Name, V>, refs: map<Name, P>, mem: map<P, V>)

  datatype Operand<V, P> = AtPlace(p: P, stored: Option<V>) | OfValue(v: V) | Unknown

  /** The place of a member or element, the value that any other instruction computes, and what it does to memory. */
  datatype Language<!V, !P(==)> = Language(
    place: (Ins, seq<Operand<V, P>>) -> P,
    value: (Ins, seq<Operand<V, P>>, map<P, V>) -> V,
    effect: (Ins, seq<Operand<V, P>>, map<P, V>) -> map<P, V>)

  function Fetch<V, P>(m: Store<V, P>, n: Name): Operand<V, P> {
    if n in m.refs then AtPlace(m.refs[n], if m.refs[n] in m.mem then Some(m.mem[m.refs[n]]) else None)
    else if n in m.vars then OfValue(m.vars[n])
    else Unknown
  }

  function Operands<V, P>(ins: Ins, m: Store<V, P>): seq<Operand<V, P>> {
    seq(|ins.operands|, i requires 0 <= i < |ins.operands| => Fetch(m, ins.operands[i]))
  }

  /** A member or index access binds its reference; every other instruction that assigns a reference writes memory
      where the reference points to, and goes wrong if it points nowhere; `type(T)` assigns its variable only. */
  function Perform<V, P>(ins: Ins, lang: Language<V, P>, m: Store<V, P>): Option<Store<V, P>> {
    var operands := Operands(ins, m);
    var mem := if ins.sort.OtherSort? then lang.effect(ins, operands, m.mem) else m.mem;
    match (ins.sort, ins.lvalue)
    case (_, None) => Some(m.(mem := mem))
    case (MemberAccess, Some(n)) => Some(m.(refs := m.refs[n := lang.place(ins, operands)]))
    case (IndexAccess, Some(n)) => Some(m.(refs := m.refs[n := lang.place(ins, operands)]))
    case (_, Some(Ref(k))) =>
      if Ref(k) in m.refs then Some(m.(mem := mem[m.refs[Ref(k)] := lang.value(ins, operands, m.mem)])) else None
    case (_, Some(n)) => Some(m.(vars := m.vars[n := lang.value(ins, operands, m.mem)], mem := mem))
  }

  function PerformAll<V, P>(l: seq<Ins>, i: nat, lang: Language<V, P>, m: Store<V, P>): Option<Store<V, P>>
    requires i <= |l|
  {
    if i == 0 then Some(m)
    else
      match PerformAll(l, i - 1, lang, m)
      case Some(next) => Perform(l[i - 1], lang, next)
      case None => None
  }

  ghost predicate SameBut<V(!new), P(!new)>(a: Store<V, P>, b: Store<V, P>, d: set<Name>) {
    && a.mem == b.mem
    && (forall n :: n !in d ==> (n in a.refs <==> n in b.refs) && (n in a.refs ==> a.refs[n] == b.refs[n]))
    && (forall n :: n !in d ==> (n in a.vars <==> n in b.vars) && (n in a.vars ==> a.vars[n] == b.vars[n]))
  }

  lemma OperandsAgree<V(!new), P(!new)>(ins: Ins, a: Store<V, P>, b: Store<V, P>, d: set<Name>)
    requires SameBut(a, b, d) && forall n :: n in d ==> !Uses(ins, n)
    ensures Operands(ins, a) == Operands(ins, b)
  {
    forall i | 0 <= i < |ins.operands| ensures Fetch(a, ins.operands[i]) == Fetch(b, ins.operands[i]) {
      assert Uses(ins, ins.operands[i]);
    }
  }

  lemma PerformAgrees<V(!new), P(!new)>(ins: Ins, lang: Language<V, P>, a: Store<V, P>, b: Store<V, P>, d: set<Name>)
    requires SameBut(a, b, d) && (forall n :: n in d ==> !Uses(ins, n)) && Perform(ins, lang, a).Some?
    ensures Perform(ins, lang, b).Some? && SameBut(Perform(ins, lang, a).value, Perform(ins, lang, b).value, d)
  {
    OperandsAgree(ins, a, b, d);
    if ins.lvalue.Some? && ins.lvalue.value.Ref? && !ins.sort.MemberAccess? && !ins.sort.IndexAccess? {
      assert Uses(ins, ins.lvalue.value);
    }
  }

  lemma {:induction false} RoundPerforms<V(!new), P(!new)>(
    l: seq<Ins>, i: nat, last: nat, lang: Language<V, P>, m: Store<V, P>)
    requires i <= |l| && WellFormed(l) && TypeResultsUnused(l) && PerformAll(l, i, lang, m).Some?
    ensures var s := Survivors(l, i, last);
      && PerformAll(s, |s|, lang, m).Some?
      && SameBut(PerformAll(l, i, lang, m).value, PerformAll(s, |s|, lang, m).value, DroppedNames(l, last))
  {
    if i == 0 {
    } else {
      RoundPerforms(l, i - 1, last, lang, m);
      var ins, d := l[i - 1], DroppedNames(l, last);
      var s := Survivors(l, i - 1, last);
      if Droppable(l, ins, last) {
        assert ins.lvalue.Some? && ins.lvalue.value in d;
      } else {
        forall n | n in d ensures !Uses(ins, n) {}
        PerformAgrees(ins, lang, PerformAll(l, i - 1, lang, m).value, PerformAll(s, |s|, lang, m).value, d);
        PerformPrefix(s, [ins], |s|, lang, m);
      }
    }
  }

  lemma {:induction false} PerformPrefix<V, P>(l: seq<Ins>, more: seq<Ins>, i: nat, lang: Language<V, P>, m: Store<V, P>)
    requires i <= |l|
    ensures PerformAll(l + more, i, lang, m) == PerformAll(l, i, lang, m)
  {
    if i == 0 {
    } else {
      PerformPrefix(l, more, i - 1, lang, m);
    }
  }

  /** If every reference that is written is bound in the input, so it is in the result; and memory, and every variable
      and reference but those of dropped instructions, end as they did. */
  lemma {:induction false} MemoryPreserved<V(!new), P(!new)>(l: seq<Ins>, last: nat, lang: Language<V, P>, m: Store<V, P>)
    requires WellFormed(l) && TypeResultsUnused(l) && PerformAll(l, |l|, lang, m).Some?
    ensures var r := Rounds(l, last);
      && PerformAll(r, |r|, lang, m).Some?
      && SameBut(PerformAll(l, |l|, lang, m).value, PerformAll(r, |r|, lang, m).value, AllDropped(l, last))
    decreases |l|
  {
    RoundPerforms(l, |l|, last, lang, m);
    if NothingDead(l, last) {
    } else {
      RoundShrinks(l, last);
      SurvivorsWellFormed(l, |l|, last);
      MemoryPreserved(Survivors(l, |l|, last), last, lang, m);
    }
  }

  /** Only variables of member accesses and `type(T)` calls of the input are given up. */
  lemma {:induction false} DroppedAreMembers(l: seq<Ins>, last: nat, n: Name)
    requires n in AllDropped(l, last)
    ensures exists i :: 0 <= i < |l| && l[i].lvalue == Some(n) && (l[i].sort.MemberAccess? || l[i].sort.ElementaryTypeCall?)
                        && (l[i].sort.MemberAccess? ==> l[i].id != last)
    decreases |l|
  {
    if n in DroppedNames(l, last) {
    } else {
      RoundShrinks(l, last);
      DroppedAreMembers(Survivors(l, |l|, last), last, n);
    }
  }
}
