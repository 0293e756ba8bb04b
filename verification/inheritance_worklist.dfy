/** The rotating work queues of `parse_contracts`: a contract is analyzed once all the contracts it
    inherits from are, and goes back to the end of the queue otherwise. */
module InheritanceWorklist {

  class ContractParser {
    const inheritance: seq<ContractParser>
    const isLibrary: bool
    var isAnalyzed: bool

    constructor (inheritance: seq<ContractParser>, isLibrary: bool)
      ensures this.inheritance == inheritance && this.isLibrary == isLibrary && !isAnalyzed
    {
      this.inheritance := inheritance;
      this.isLibrary := isLibrary;
      this.isAnalyzed := false;
    }
  }

  // ---------------------------------------------------------------------------------------
  // The queue as a transition system

  datatype State = State(queue: seq<ContractParser>, analyzed: set<ContractParser>, log: seq<ContractParser>)

  predicate Ready(c: ContractParser, analyzed: set<ContractParser>) {
    forall f :: f in c.inheritance ==> f in analyzed
  }

  function Next(s: State): State
    requires s.queue != []
  {
    var c := s.queue[0];
    if Ready(c, s.analyzed) then State(s.queue[1..], s.analyzed + {c}, s.log + [c])
    else State(s.queue[1..] + [c], s.analyzed, s.log)
  }

  /** The state after `k` iterations, or when the queue is empty. */
  function After(s: State, k: nat): State
    decreases k
  {
    if k == 0 || s.queue == [] then s else After(Next(s), k - 1)
  }

  function Elements(q: seq<ContractParser>): set<ContractParser> {
    set c | c in q
  }

  /** Every contract of `t` waits for one that is in `t` as well, or that nobody will analyze. */
  ghost predicate Stuck(s: State, t: set<ContractParser>) {
    && t != {} && t <= Elements(s.queue)
    && forall c {:trigger c.inheritance} :: c in t ==> exists f :: f in c.inheritance && f !in s.analyzed && (f in t || f !in s.queue)
  }

  ghost predicate CanDrain(s: State) {
    forall t: set<ContractParser> | t <= Elements(s.queue) :: !Stuck(s, t)
  }

  // ---------------------------------------------------------------------------------------
  // Termination

  lemma StuckNext(s: State, t: set<ContractParser>)
    requires Stuck(s, t) && s.queue != []
    ensures Stuck(Next(s), t)
  {
    var n, h := Next(s), s.queue[0];
    assert s.queue == [h] + s.queue[1..];
    assert Ready(h, s.analyzed) ==> h !in t;
    forall c | c in t
      ensures c in n.queue && exists f :: f in c.inheritance && f !in n.analyzed && (f in t || f !in n.queue)
    {
      assert c in s.queue;
      var f :| f in c.inheritance && f !in s.analyzed && (f in t || f !in s.queue);
      assert f !in n.analyzed && (f in t || f !in n.queue);
    }
  }

  lemma {:induction false} StuckStays(s: State, t: set<ContractParser>, k: nat)
    requires Stuck(s, t)
    ensures Stuck(After(s, k), t) && After(s, k).queue != []
    decreases k
  {
    var c0 :| c0 in t;
    assert c0 in s.queue;
    if k == 0 {
    } else {
      StuckNext(s, t);
      StuckStays(Next(s), t, k - 1);
    }
  }

  lemma CanDrainNext(s: State)
    requires CanDrain(s) && s.queue != []
    ensures CanDrain(Next(s))
  {
    var n, h := Next(s), s.queue[0];
    assert s.queue == [h] + s.queue[1..];
    assert forall c :: c in n.queue ==> c in s.queue;
    forall t: set<ContractParser> | t <= Elements(n.queue) ensures !Stuck(n, t) {
      if Stuck(n, t) {
        forall c | c in t
          ensures c in s.queue && exists f :: f in c.inheritance && f !in s.analyzed && (f in t || f !in s.queue)
        {
          assert c in n.queue;
          var f :| f in c.inheritance && f !in n.analyzed && (f in t || f !in n.queue);
          assert f !in s.analyzed && (f in t || f !in s.queue);
        }
        assert Stuck(s, t);
      }
    }
  }

  /** The position of the first contract that can be analyzed. */
  function FirstReady(q: seq<ContractParser>, analyzed: set<ContractParser>): (i: nat)
    ensures i <= |q| && (i < |q| ==> Ready(q[i], analyzed))
    ensures forall k :: 0 <= k < i ==> !Ready(q[k], analyzed)
  {
    if q == [] || Ready(q[0], analyzed) then 0 else 1 + FirstReady(q[1..], analyzed)
  }

  lemma SomeReady(s: State)
    requires CanDrain(s) && s.queue != []
    ensures FirstReady(s.queue, s.analyzed) < |s.queue|
  {
    var t := Elements(s.queue);
    assert s.queue[0] in t;
    assert !Stuck(s, t);
    var c :| c in t && forall f :: f in c.inheritance && f !in s.analyzed ==> f !in t && f in s.queue;
    assert Ready(c, s.analyzed);
  }

  function Triangle(n: nat): nat {
    if n == 0 then 0 else n + Triangle(n - 1)
  }

  lemma {:induction false} TriangleIs(n: nat)
    ensures 2 * Triangle(n) == n * (n + 1)
  {
    if n == 0 {
    } else {
      TriangleIs(n - 1);
    }
  }

  /** Iterations left: to the first contract that is ready, then at most once around for each other. */
  function Bound(s: State): nat {
    if s.queue == [] then 0 else Triangle(|s.queue| - 1) + FirstReady(s.queue, s.analyzed) + 1
  }

  lemma BoundDecreases(s: State)
    requires CanDrain(s) && s.queue != []
    ensures Bound(Next(s)) < Bound(s) <= Triangle(|s.queue|)
  {
    SomeReady(s);
    CanDrainNext(s);
    var n, h := Next(s), s.queue[0];
    if Ready(h, s.analyzed) {
      if n.queue != [] { SomeReady(n); }
    } else {
      var i := FirstReady(s.queue, s.analyzed);
      assert n.queue[i - 1] == s.queue[i];
      assert Ready(n.queue[i - 1], n.analyzed);
      assert FirstReady(n.queue, n.analyzed) <= i - 1;
    }
  }

  lemma {:induction false} DrainsWithin(s: State, k: nat)
    requires CanDrain(s) && k >= Bound(s)
    ensures After(s, k).queue == []
    decreases k
  {
    if s.queue == [] {
    } else {
      BoundDecreases(s);
      CanDrainNext(s);
      DrainsWithin(Next(s), k - 1);
    }
  }

  /** The loop ends exactly when no contracts wait for each other, or for a contract that is not
      in the queue; and then within n(n+1)/2 iterations. */
  lemma TerminatesExactly(s: State)
    ensures CanDrain(s) <==> After(s, |s.queue| * (|s.queue| + 1) / 2).queue == []
    ensures !CanDrain(s) ==> forall k: nat :: After(s, k).queue != []
  {
    TriangleIs(|s.queue|);
    assert |s.queue| * (|s.queue| + 1) / 2 == Triangle(|s.queue|);
    if CanDrain(s) {
      if s.queue != [] { BoundDecreases(s); }
      DrainsWithin(s, Triangle(|s.queue|));
    } else {
      var t: set<ContractParser> :| t <= Elements(s.queue) && Stuck(s, t);
      forall k: nat ensures After(s, k).queue != [] { StuckStays(s, t, k); }
    }
  }

  /** Acyclic inheritance that is closed over the queue and what was analyzed before. */
  ghost predicate Ranked(s: State, rank: map<ContractParser, nat>) {
    forall c, f :: c in s.queue && f in c.inheritance && f !in s.analyzed ==>
      f in s.queue && c in rank && f in rank && rank[f] < rank[c]
  }

  lemma RankedDrains(s: State, rank: map<ContractParser, nat>)
    requires Ranked(s, rank)
    ensures CanDrain(s)
  {
    forall t: set<ContractParser> | t <= Elements(s.queue) ensures !Stuck(s, t) {
      if Stuck(s, t) {
        var c :| c in t;
        NoDescent(s, rank, t, c);
      }
    }
  }

  lemma {:induction false} NoDescent(s: State, rank: map<ContractParser, nat>, t: set<ContractParser>, c: ContractParser)
    requires Ranked(s, rank)
    ensures Stuck(s, t) ==> c !in t
    decreases if c in rank then rank[c] else 0
  {
    if !Stuck(s, t) || c !in t {
    } else {
      var f := AwaitedBy(s, t, c);
      assert f in t && c in rank && f in rank && rank[f] < rank[c];
      NoDescent(s, rank, t, f);
    }
  }

  lemma AwaitedBy(s: State, t: set<ContractParser>, c: ContractParser) returns (f: ContractParser)
    requires Stuck(s, t) && c in t
    ensures c in s.queue && f in c.inheritance && f !in s.analyzed && (f in t || f !in s.queue)
  {
    assert c in Elements(s.queue);
    f :| f in c.inheritance && f !in s.analyzed && (f in t || f !in s.queue);
  }

  // ---------------------------------------------------------------------------------------
  // Order

  /** Every contract comes after all the contracts it inherits from, but those analyzed before. */
  ghost predicate AncestorsFirst(log: seq<ContractParser>, before: set<ContractParser>) {
    forall i, f :: 0 <= i < |log| && f in log[i].inheritance ==> f in before || f in log[..i]
  }

  ghost predicate Reached(start: State, s: State) {
    && s.analyzed == start.analyzed + Elements(s.log)
    && multiset(s.queue) + multiset(s.log) == multiset(start.queue)
    && AncestorsFirst(s.log, start.analyzed)
  }

  lemma ReachedNext(start: State, s: State)
    requires Reached(start, s) && s.queue != []
    ensures Reached(start, Next(s))
  {
    var n, c := Next(s), s.queue[0];
    assert s.queue == [c] + s.queue[1..];
    if Ready(c, s.analyzed) {
      assert n.log[..|s.log|] == s.log;
      forall i, f | 0 <= i < |n.log| && f in n.log[i].inheritance ensures f in start.analyzed || f in n.log[..i] {
        if i < |s.log| {
          assert n.log[..i] == s.log[..i];
          assert f in s.log[i].inheritance;
        } else {
          assert f in s.analyzed;
        }
      }
    }
  }

  // ---------------------------------------------------------------------------------------
  // The loops

  datatype Phase = Enums | FirstPart | SecondPart | ThirdPart | UsingFor

  datatype Event = Event(phase: Phase, contract: ContractParser)

  function Events(phase: Phase, log: seq<ContractParser>): seq<Event> {
    seq(|log|, i requires 0 <= i < |log| => Event(phase, log[i]))
  }

  /** The contracts of `all` that are flagged as analyzed. */
  function Flagged(all: set<ContractParser>): set<ContractParser>
    reads all
  {
    set c | c in all && c.isAnalyzed
  }

  predicate ClosedUnder(all: set<ContractParser>) {
    forall c, f :: c in all && f in c.inheritance ==> f in all
  }

  ghost predicate Progressing(start: State, s: State, steps: nat) {
    CanDrain(s) && Reached(start, s) && steps + Bound(s) <= Triangle(|start.queue|)
  }

  lemma ProgressingNext(start: State, s: State, steps: nat)
    requires Progressing(start, s, steps) && s.queue != []
    ensures Progressing(start, Next(s), steps + 1) && Bound(Next(s)) < Bound(s)
  {
    BoundDecreases(s);
    CanDrainNext(s);
    ReachedNext(start, s);
  }

  lemma ProgressingStart(start: State)
    requires CanDrain(start) && start.log == []
    ensures Progressing(start, start, 0)
  {
    if start.queue != [] { BoundDecreases(start); }
  }

  lemma ProgressingEnd(start: State, s: State, steps: nat)
    requires Progressing(start, s, steps) && s.queue == []
    ensures multiset(s.log) == multiset(start.queue) && AncestorsFirst(s.log, start.analyzed)
    ensures s.analyzed == start.analyzed + Elements(start.queue)
    ensures steps <= |start.queue| * (|start.queue| + 1) / 2
  {
    TriangleIs(|start.queue|);
    SameElements(s.log, start.queue);
  }

  lemma EventsConcat(phase: Phase, log: seq<ContractParser>, newLog: seq<ContractParser>)
    requires log <= newLog
    ensures Events(phase, newLog) == Events(phase, log) + Events(phase, newLog[|log|..])
  {
  }

  lemma EventsAppend(phase: Phase, log: seq<ContractParser>, c: ContractParser)
    ensures Events(phase, log + [c]) == Events(phase, log) + [Event(phase, c)]
  {
  }

  /** A Python list of contracts. */
  class List {
    var items: seq<ContractParser>

    constructor (items: seq<ContractParser>)
      ensures this.items == items
    {
      this.items := items;
    }

    /** `self[1:]`, which is a new list. */
    method Tail() returns (rest: List)
      requires items != []
      ensures fresh(rest) && rest.items == items[1..]
    {
      rest := new List(items[1..]);
    }

    /** `self += [c]`, which changes the list. */
    method Append(c: ContractParser)
      modifies this
      ensures items == old(items) + [c]
    {
      items := items + [c];
    }
  }

  class Compilation {
    var events: seq<Event>

    constructor ()
      ensures events == []
    {
      events := [];
    }

    /** One iteration.  What it appends to is the new list, not the one it was given. */
    method Rotate(phase: Phase, queue: List, ghost all: set<ContractParser>,
                  ghost log: seq<ContractParser>, ghost before: seq<Event>)
      returns (rest: List, ghost newLog: seq<ContractParser>)
      requires queue.items != [] && Elements(queue.items) <= all && ClosedUnder(all)
      requires events == before + Events(phase, log)
      modifies `events, all
      ensures fresh(rest) && queue.items == old(queue.items)
      ensures State(rest.items, Flagged(all), newLog) == Next(State(queue.items, old(Flagged(all)), log))
      ensures events == before + Events(phase, newLog)
      ensures Elements(rest.items) <= all
    {
      var contract := queue.items[0];
      rest := queue.Tail();
      newLog := log;
      assert contract in queue.items && contract in all;
      assert forall c :: c in rest.items ==> c in queue.items;
      var allFathersAnalyzed := AllAnalyzed(contract.inheritance, all);
      if contract.inheritance == [] || allFathersAnalyzed {
        events := events + [Event(phase, contract)];
        contract.isAnalyzed := true;
        newLog := log + [contract];
        EventsAppend(phase, log, contract);
        assert Flagged(all) == old(Flagged(all)) + {contract};
      } else {
        rest.Append(contract);
      }
    }

    /** One rotating queue. `steps` counts its iterations. The caller's list is left as it was. */
    method AnalyzeQueue(phase: Phase, contracts: List, ghost all: set<ContractParser>)
      returns (ghost log: seq<ContractParser>, ghost steps: nat)
      requires Elements(contracts.items) <= all && ClosedUnder(all)
      requires CanDrain(State(contracts.items, Flagged(all), []))
      modifies `events, all
      ensures contracts.items == old(contracts.items)
      ensures events == old(events) + Events(phase, log)
      ensures multiset(log) == multiset(contracts.items)
      ensures AncestorsFirst(log, old(Flagged(all)))
      ensures Flagged(all) == old(Flagged(all)) + Elements(contracts.items)
      ensures steps <= |contracts.items| * (|contracts.items| + 1) / 2
    {
      var queue := contracts;
      log, steps := [], 0;
      ghost var start := State(contracts.items, Flagged(all), []);
      ProgressingStart(start);
      ghost var s := start;
      while queue.items != []
        invariant queue == contracts || fresh(queue)
        invariant contracts.items == old(contracts.items)
        invariant s == State(queue.items, Flagged(all), log) && Elements(queue.items) <= all
        invariant Progressing(start, s, steps)
        invariant events == old(events) + Events(phase, log)
        decreases Bound(s)
      {
        ProgressingNext(start, s, steps);
        queue, log := Rotate(phase, queue, all, log, old(events));
        s := Next(s);
        steps := steps + 1;
      }
      ProgressingEnd(start, s, steps);
    }

    /** A phase after the first: the libraries in order, then the queue of the other contracts.
        The last phase does not flag the libraries. */
    method AnalyzePhase(phase: Phase, libraries: List, contracts: List,
                        ghost all: set<ContractParser>, ghost rank: map<ContractParser, nat>)
      returns (ghost log: seq<ContractParser>)
      requires Elements(libraries.items) <= all && Elements(contracts.items) <= all && ClosedUnder(all)
      requires Hierarchy(contracts.items, rank) && (forall c :: c in libraries.items ==> c.inheritance == [])
      requires Flagged(all) == {}
      modifies `events, all
      ensures libraries.items == old(libraries.items) && contracts.items == old(contracts.items)
      ensures events == old(events) + Events(phase, log)
      ensures libraries.items <= log && multiset(log[|libraries.items|..]) == multiset(contracts.items)
      ensures AncestorsFirst(log, {})
      ensures Flagged(all) == Elements(contracts.items) + (if phase == UsingFor then {} else Elements(libraries.items))
    {
      FlagLibraries(phase, libraries, all);
      ghost var flagged := Flagged(all);
      RankedDrains(State(contracts.items, flagged, []), rank);
      ghost var rest, steps := AnalyzeQueue(phase, contracts, all);
      MoreBefore(rest, flagged, Elements(libraries.items));
      log := libraries.items + rest;
      assert log[|libraries.items|..] == rest;
      EventsConcat(phase, libraries.items, log);
      LibrariesFirst(libraries.items, rest);
    }

    method FlagLibraries(phase: Phase, libraries: List, ghost all: set<ContractParser>)
      requires Elements(libraries.items) <= all && Flagged(all) == {}
      modifies `events, all
      ensures libraries.items == old(libraries.items)
      ensures events == old(events) + Events(phase, libraries.items)
      ensures Flagged(all) == if phase == UsingFor then {} else Elements(libraries.items)
    {
      var libs := libraries.items;
      for i := 0 to |libs|
        invariant libraries.items == libs
        invariant events == old(events) + Events(phase, libs[..i])
        invariant Flagged(all) == if phase == UsingFor then {} else Elements(libs[..i])
      {
        assert libs[i] in Elements(libs) && libs[..i + 1] == libs[..i] + [libs[i]];
        EventsAppend(phase, libs[..i], libs[i]);
        ElementsSnoc(libs[..i], libs[i]);
        ghost var before := Flagged(all);
        events := events + [Event(phase, libs[i])];
        if phase != UsingFor {
          libs[i].isAnalyzed := true;
          assert Flagged(all) == before + {libs[i]};
        }
      }
      assert libs[..|libs|] == libs;
    }

    method ResetFlags(parsers: seq<ContractParser>)
      modifies Elements(parsers)
      ensures Flagged(Elements(parsers)) == {}
    {
      for i := 0 to |parsers|
        invariant forall k :: 0 <= k < i ==> !parsers[k].isAnalyzed
      {
        assert parsers[i] in Elements(parsers);
        parsers[i].isAnalyzed := false;
      }
    }

    /** `parse_contracts` after the inheritance was resolved; contracts with missing ancestors may
        be flagged already. Each phase is over before the next one starts, visits every contract
        once, and visits ancestors first. */
    method ParseContracts(parsers: seq<ContractParser>, ghost rank: map<ContractParser, nat>)
      returns (ghost logs: seq<seq<ContractParser>>)
      requires ClosedUnder(Elements(parsers)) && Hierarchy(Contracts(parsers), rank)
      requires forall c :: c in Libraries(parsers) ==> c.inheritance == []
      modifies this, Elements(parsers)
      ensures |logs| == 5
      ensures events == old(events) + Events(Enums, logs[0]) + Events(FirstPart, logs[1]) + Events(SecondPart, logs[2])
                        + Events(ThirdPart, logs[3]) + Events(UsingFor, logs[4])
      ensures multiset(logs[0]) == multiset(parsers) && AncestorsFirst(logs[0], old(Flagged(Elements(parsers))))
      ensures forall p :: 1 <= p < 5 ==> VisitsAll(parsers, logs[p])
    {
      ghost var all := Elements(parsers);
      EnumsDrain(parsers, Flagged(all), rank);
      var everything := new List(parsers);
      ghost var l0, steps := AnalyzeQueue(Enums, everything, all);
      var libraries := new List(Libraries(everything.items));
      var contracts := new List(Contracts(everything.items));
      ghost var l1, l2, l3, l4;
      l1 := NextPhase(FirstPart, parsers, libraries, contracts, rank);
      l2 := NextPhase(SecondPart, parsers, libraries, contracts, rank);
      l3 := NextPhase(ThirdPart, parsers, libraries, contracts, rank);
      l4 := NextPhase(UsingFor, parsers, libraries, contracts, rank);
      logs := [l0, l1, l2, l3, l4];
    }

    /** The flags are cleared before each phase; all phases share the two lists. */
    method NextPhase(phase: Phase, parsers: seq<ContractParser>, libraries: List, contracts: List,
                     ghost rank: map<ContractParser, nat>)
      returns (ghost log: seq<ContractParser>)
      requires libraries.items == Libraries(parsers) && contracts.items == Contracts(parsers)
      requires ClosedUnder(Elements(parsers)) && Hierarchy(contracts.items, rank)
      requires forall c :: c in libraries.items ==> c.inheritance == []
      modifies `events, Elements(parsers)
      ensures libraries.items == old(libraries.items) && contracts.items == old(contracts.items)
      ensures events == old(events) + Events(phase, log)
      ensures VisitsAll(parsers, log)
    {
      ResetFlags(parsers);
      Split(parsers);
      log := AnalyzePhase(phase, libraries, contracts, Elements(parsers), rank);
      assert log == libraries.items + log[|libraries.items|..];
      Kinds(parsers);
      LibrariesInFront(libraries.items, log[|libraries.items|..], contracts.items);
    }
  }

  /** Every contract once, the libraries first and in order, and ancestors before those that inherit from them. */
  ghost predicate VisitsAll(parsers: seq<ContractParser>, log: seq<ContractParser>) {
    && multiset(log) == multiset(parsers) && Libraries(parsers) <= log && AncestorsFirst(log, {})
    && forall i, j :: 0 <= i < j < |log| && log[j].isLibrary ==> log[i].isLibrary
  }

  function Libraries(parsers: seq<ContractParser>): seq<ContractParser> {
    if parsers == [] then []
    else (if parsers[0].isLibrary then [parsers[0]] else []) + Libraries(parsers[1..])
  }

  function Contracts(parsers: seq<ContractParser>): seq<ContractParser> {
    if parsers == [] then []
    else (if parsers[0].isLibrary then [] else [parsers[0]]) + Contracts(parsers[1..])
  }

  /** The libraries are libraries, and the others are not. */
  lemma {:induction false} Kinds(parsers: seq<ContractParser>)
    ensures (forall c :: c in Libraries(parsers) ==> c.isLibrary) && forall c :: c in Contracts(parsers) ==> !c.isLibrary
  {
    if parsers == [] {
    } else {
      Kinds(parsers[1..]);
    }
  }

  /** And both keep their order. */
  lemma {:induction false} KeepOrder(parsers: seq<ContractParser>)
    ensures IsSubsequence(Libraries(parsers), parsers) && IsSubsequence(Contracts(parsers), parsers)
  {
    if parsers == [] {
    } else {
      var libraries, contracts := Libraries(parsers[1..]), Contracts(parsers[1..]);
      KeepOrder(parsers[1..]);
      if parsers[0].isLibrary {
        assert Libraries(parsers)[1..] == libraries && Contracts(parsers) == contracts;
      } else {
        assert Contracts(parsers)[1..] == contracts && Libraries(parsers) == libraries;
      }
    }
  }

  lemma LibrariesInFront(libraries: seq<ContractParser>, rest: seq<ContractParser>, contracts: seq<ContractParser>)
    requires multiset(rest) == multiset(contracts) && forall c :: c in contracts ==> !c.isLibrary
    requires forall c :: c in libraries ==> c.isLibrary
    ensures var log := libraries + rest; forall i, j :: 0 <= i < j < |log| && log[j].isLibrary ==> log[i].isLibrary
  {
    SameElements(rest, contracts);
    var log := libraries + rest;
    forall k | |libraries| <= k < |log| ensures !log[k].isLibrary {
      assert log[k] in Elements(rest);
    }
  }

  predicate IsSubsequence(s: seq<ContractParser>, l: seq<ContractParser>) {
    s == [] || (l != [] && (IsSubsequence(s, l[1..]) || (s[0] == l[0] && IsSubsequence(s[1..], l[1..]))))
  }

  /** Contracts inherit from contracts, and from none of which they are an ancestor. */
  ghost predicate Hierarchy(contracts: seq<ContractParser>, rank: map<ContractParser, nat>) {
    forall c, f :: c in contracts && f in c.inheritance ==>
      f in contracts && c in rank && f in rank && rank[f] < rank[c]
  }

  lemma Split(parsers: seq<ContractParser>)
    ensures multiset(Libraries(parsers)) + multiset(Contracts(parsers)) == multiset(parsers)
    ensures Elements(Libraries(parsers)) + Elements(Contracts(parsers)) == Elements(parsers)
  {
    SplitMultiset(parsers);
    SplitElements(parsers);
  }

  lemma {:induction false} SplitElements(parsers: seq<ContractParser>)
    ensures Elements(Libraries(parsers)) + Elements(Contracts(parsers)) == Elements(parsers)
  {
    if parsers == [] {
    } else {
      var h, rest := parsers[0], parsers[1..];
      SplitElements(rest);
      assert parsers == [h] + rest;
      ElementsCons(h, rest);
      if h.isLibrary {
        assert Contracts(parsers) == Contracts(rest);
        ElementsCons(h, Libraries(rest));
      } else {
        assert Libraries(parsers) == Libraries(rest);
        ElementsCons(h, Contracts(rest));
      }
    }
  }

  lemma ElementsSnoc(front: seq<ContractParser>, c: ContractParser)
    ensures Elements(front + [c]) == Elements(front) + {c}
  {
  }

  lemma ElementsCons(h: ContractParser, rest: seq<ContractParser>)
    ensures Elements([h] + rest) == {h} + Elements(rest)
  {
  }

  lemma {:induction false} SplitMultiset(parsers: seq<ContractParser>)
    ensures multiset(Libraries(parsers)) + multiset(Contracts(parsers)) == multiset(parsers)
  {
    if parsers == [] {
    } else {
      SplitMultiset(parsers[1..]);
      assert parsers == [parsers[0]] + parsers[1..];
    }
  }

  lemma EnumsDrain(parsers: seq<ContractParser>, flagged: set<ContractParser>, rank: map<ContractParser, nat>)
    requires Hierarchy(Contracts(parsers), rank)
    requires forall c :: c in Libraries(parsers) ==> c.inheritance == []
    ensures CanDrain(State(parsers, flagged, []))
  {
    Split(parsers);
    forall c, f | c in parsers && f in c.inheritance
      ensures f in parsers && c in rank && f in rank && rank[f] < rank[c]
    {
      assert c in Elements(parsers);
      assert c in Contracts(parsers);
      assert f in Elements(Contracts(parsers));
    }
    RankedDrains(State(parsers, flagged, []), rank);
  }

  lemma MoreBefore(log: seq<ContractParser>, before: set<ContractParser>, more: set<ContractParser>)
    requires AncestorsFirst(log, before) && before <= more
    ensures AncestorsFirst(log, more)
  {
  }

  lemma LibrariesFirst(libraries: seq<ContractParser>, log: seq<ContractParser>)
    requires AncestorsFirst(log, Elements(libraries))
    requires forall c :: c in libraries ==> c.inheritance == []
    ensures AncestorsFirst(libraries + log, {})
  {
    var l := libraries + log;
    forall i | 0 <= i < |libraries| ensures l[i].inheritance == [] {
      assert l[i] == libraries[i] && libraries[i] in libraries;
    }
    forall i, f | |libraries| <= i < |l| && f in l[i].inheritance ensures f in l[..i] {
      var k := i - |libraries|;
      assert f in log[k].inheritance;
      assert l[..i] == libraries + log[..k];
      assert f in Elements(libraries) || f in log[..k];
      assert f in libraries + log[..k];
    }
  }

  method AllAnalyzed(fathers: seq<ContractParser>, ghost all: set<ContractParser>) returns (b: bool)
    requires Elements(fathers) <= all
    ensures b <==> forall f :: f in fathers ==> f in Flagged(all)
  {
    for i := 0 to |fathers|
      invariant forall k :: 0 <= k < i ==> fathers[k] in Flagged(all)
    {
      assert fathers[i] in all;
      if !fathers[i].isAnalyzed { return false; }
    }
    return true;
  }

  lemma SameElements(a: seq<ContractParser>, b: seq<ContractParser>)
    requires multiset(a) == multiset(b)
    ensures Elements(a) == Elements(b)
  {
    forall c ensures c in a <==> c in b { assert c in multiset(a) <==> c in a; assert c in multiset(b) <==> c in b; }
  }
}
