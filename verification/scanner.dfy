/** `scanner_loop` as a transition system over its atomic steps: every database statement, remote
    call and assignment of the watermark is one step, and an exception, a crash or a write by an
    API handler may come between any two. `has_contract` and `add_contract` of one creation are one
    step, since the loop does not give up control between them and the insertion ignores duplicates. */
module Scanner {
  import opened Options

  type Address = nat

  /** Addresses created in each block; the same in every poll. */
  type Chain = int -> seq<Address>

  datatype Settings = Settings(startBlock: Option<int>, logEvery: int)

  /** `latest` is the block number of the current poll, `rest` the creations still to handle. */
  datatype Control =
    | Stopped
    | Seeding
    | Polling
    | Initializing(latest: int)
    | Handling(latest: int, rest: seq<Address>)
    | Added(latest: int, a: Address, rest: seq<Address>)
    | Analyzing(latest: int, a: Address, rest: seq<Address>)
    | Persisting
    | Dead

  /** The database survives a crash; `scanned` are the addresses with a stored result. `first` is the
      first watermark ever persisted, `started` the analyses the loop started, `logged` the warnings
      since the counters were last reset. */
  datatype State = State(
    watermark: Option<int>, contracts: set<Address>, scanned: set<Address>,
    pc: Control, last: Option<int>, errors: nat, suppressed: nat,
    first: Option<int>, started: seq<Address>, logged: nat)

  datatype Event =
    | Start
    | Seed
    | Poll(latest: int)
    | Initialize
    | Handle
    | Analyze
    | AnalysisDone
    | Persist
    | TransientError
    | UnexpectedError
    | Crash
    | ApiAdds(a: Address)

  /** `float * 2**k` raises for larger exponents. */
  const LARGEST_EXPONENT: nat := 1023

  function CreationsIn(chain: Chain, lo: int, hi: int): seq<Address>
    decreases hi - lo
  {
    if lo > hi then [] else chain(lo) + CreationsIn(chain, lo + 1, hi)
  }

  function Persisted(s: State, w: int): State {
    s.(watermark := Some(w), first := if s.first.None? then Some(w) else s.first)
  }

  function Recovered(s: State): State {
    s.(errors := 0, suppressed := 0, logged := 0)
  }

  /** After the watermark is known: nothing new, or the creations of the new blocks. */
  function Fetch(chain: Chain, s: State, latest: int): State
    requires s.last.Some?
  {
    if latest <= s.last.value then Recovered(s).(pc := Polling)
    else s.(pc := Handling(latest, CreationsIn(chain, s.last.value + 1, latest)))
  }

  function Max(a: int, b: int): int { if a > b then a else b }

  /** Exceptions inside the `try` lead back to polling; the back-off computation is outside. */
  predicate InsideTry(pc: Control) {
    pc.Polling? || pc.Initializing? || pc.Handling? || pc.Added? || pc.Analyzing? || pc.Persisting?
  }

  function Apply(chain: Chain, cfg: Settings, e: Event, s: State): Option<State> {
    match e
    case Start =>
      if !s.pc.Stopped? then None
      else if s.watermark.None? && cfg.startBlock.Some?
      then Some(s.(last := cfg.startBlock, pc := Seeding))
      else Some(s.(last := s.watermark, pc := Polling))
    case Seed =>
      if s.pc.Seeding? && s.last.Some? then Some(Persisted(s, s.last.value).(pc := Polling)) else None
    case Poll(latest) =>
      if !s.pc.Polling? then None
      else if s.last.None? then Some(s.(last := Some(latest - 1), pc := Initializing(latest)))
      else Some(Fetch(chain, s, latest))
    case Initialize =>
      if s.pc.Initializing? && s.last.Some? then Some(Fetch(chain, Persisted(s, s.last.value), s.pc.latest)) else None
    case Handle =>
      if !s.pc.Handling? then None
      else if s.pc.rest == [] then Some(s.(last := Some(s.pc.latest), pc := Persisting))
      else
        var a, rest := s.pc.rest[0], s.pc.rest[1..];
        if a in s.contracts then Some(s.(pc := Handling(s.pc.latest, rest)))
        else Some(s.(contracts := s.contracts + {a}, pc := Added(s.pc.latest, a, rest)))
    case Analyze =>
      if s.pc.Added? then Some(s.(started := s.started + [s.pc.a], pc := Analyzing(s.pc.latest, s.pc.a, s.pc.rest))) else None
    case AnalysisDone =>
      if s.pc.Analyzing? then Some(s.(scanned := s.scanned + {s.pc.a}, pc := Handling(s.pc.latest, s.pc.rest))) else None
    case Persist =>
      if s.pc.Persisting? && s.last.Some? then Some(Recovered(Persisted(s, s.last.value)).(pc := Polling)) else None
    case TransientError =>
      if !InsideTry(s.pc) then None
      else
        var n := s.errors + 1;
        if n - 1 > LARGEST_EXPONENT then Some(s.(errors := n, pc := Dead))
        else if n == 1 || n % Max(1, cfg.logEvery) == 0
        then Some(s.(errors := n, logged := s.logged + 1, pc := Polling))
        else Some(s.(errors := n, suppressed := s.suppressed + 1, pc := Polling))
    case UnexpectedError =>
      if InsideTry(s.pc) then Some(s.(pc := Polling))
      else if s.pc.Seeding? then Some(s.(pc := Dead)) else None
    case Crash => Some(Recovered(s).(pc := Stopped, last := None))
    case ApiAdds(a) => Some(s.(contracts := s.contracts + {a}))
  }

  /** The state after a sequence of events; events that are not possible are skipped. */
  function Run(chain: Chain, cfg: Settings, events: seq<Event>, s: State): State {
    if events == [] then s
    else
      match Apply(chain, cfg, events[0], s)
      case Some(next) => Run(chain, cfg, events[1..], next)
      case None => Run(chain, cfg, events[1..], s)
  }

  /** An empty database, and no loop running. */
  function Fresh(): State {
    State(None, {}, {}, Stopped, None, 0, 0, None, [], 0)
  }

  // ---------------------------------------------------------------------------------------
  // Invariant

  /** Everything created above `lo` and up to `hi` is in the table. */
  ghost predicate Covered(chain: Chain, contracts: set<Address>, lo: int, hi: int) {
    forall b, a :: lo < b <= hi && a in chain(b) ==> a in contracts
  }

  ghost predicate Distinct(s: seq<Address>) {
    forall i, j :: 0 <= i < j < |s| ==> s[i] != s[j]
  }

  /** What is still to be handled of the blocks of the current poll. */
  function Outstanding(pc: Control): seq<Address> {
    match pc
    case Handling(_, rest) => rest
    case Added(_, _, rest) => rest
    case Analyzing(_, _, rest) => rest
    case _ => []
  }

  predicate Scanning(pc: Control) {
    pc.Handling? || pc.Added? || pc.Analyzing?
  }

  /** Every creation of the blocks of the current poll is in the table or still to be handled. */
  ghost predicate InHand(chain: Chain, s: State)
    requires Scanning(s.pc) && s.last.Some?
  {
    forall b, a :: s.last.value < b <= s.pc.latest && a in chain(b) ==> a in s.contracts || a in Outstanding(s.pc)
  }

  /** Nothing was skipped, on disk or in memory, and memory is not behind the disk. */
  ghost predicate NothingSkipped(chain: Chain, s: State) {
    && (s.first.Some? <==> s.watermark.Some?)
    && (s.first.Some? ==> s.first.value <= s.watermark.value
                          && Covered(chain, s.contracts, s.first.value, s.watermark.value))
    && (s.first.Some? && s.last.Some? ==>
          s.watermark.value <= s.last.value && Covered(chain, s.contracts, s.first.value, s.last.value))
    && (Scanning(s.pc) ==> s.last.Some? && s.last.value < s.pc.latest)
    && (Scanning(s.pc) ==> InHand(chain, s))
  }

  /** What the program counter says about the watermark in memory. */
  predicate InStep(s: State) {
    && (s.pc.Stopped? ==> s.last.None?)
    && (s.first.Some? && !s.pc.Stopped? && !s.pc.Dead? ==> s.last.Some?)
    && (s.pc.Seeding? ==> s.last.Some? && s.watermark.None?)
    && (s.pc.Initializing? ==> s.last == Some(s.pc.latest - 1) && s.watermark.None?)
    && (s.pc.Persisting? || Scanning(s.pc) ==> s.last.Some?)
    && (s.first.Some? <==> s.watermark.Some?)
  }

  /** The loop starts an analysis only for what it has just put into the table. */
  ghost predicate StartedOnce(s: State) {
    && Distinct(s.started) && (forall a :: a in s.started ==> a in s.contracts)
    && (s.pc.Added? ==> s.pc.a in s.contracts && s.pc.a !in s.started)
  }

  predicate CountersAddUp(s: State) {
    if s.pc.Dead? then s.errors <= LARGEST_EXPONENT + 2
    else s.errors <= LARGEST_EXPONENT + 1 && s.errors == s.logged + s.suppressed
  }

  ghost predicate Inv(chain: Chain, s: State) {
    NothingSkipped(chain, s) && InStep(s) && StartedOnce(s) && CountersAddUp(s)
  }

  lemma {:induction false} CreationsCover(chain: Chain, lo: int, hi: int, b: int, a: Address)
    requires lo <= b <= hi && a in chain(b)
    ensures a in CreationsIn(chain, lo, hi)
    decreases hi - lo
  {
    if b <= lo {
    } else {
      CreationsCover(chain, lo + 1, hi, b, a);
    }
  }

  lemma FetchSkipsNothing(chain: Chain, s: State, latest: int)
    requires NothingSkipped(chain, s.(pc := Polling)) && s.last.Some?
    ensures NothingSkipped(chain, Fetch(chain, s, latest))
  {
    var t := Fetch(chain, s, latest);
    if latest > s.last.value {
      forall b, a | s.last.value < b <= latest && a in chain(b) ensures a in Outstanding(t.pc) {
        CreationsCover(chain, s.last.value + 1, latest, b, a);
      }
    }
  }

  lemma StepSkipsNothing(chain: Chain, cfg: Settings, e: Event, s: State)
    requires NothingSkipped(chain, s) && InStep(s) && Apply(chain, cfg, e, s).Some?
    ensures NothingSkipped(chain, Apply(chain, cfg, e, s).value)
  {
    match e
    case Poll(latest) =>
      if s.last.Some? { FetchSkipsNothing(chain, s, latest); }
    case Initialize =>
      FetchSkipsNothing(chain, Persisted(s, s.last.value), s.pc.latest);
    case Handle =>
      HandleSkipsNothing(chain, cfg, s);
    case Analyze => assert InHand(chain, s);
    case AnalysisDone => assert InHand(chain, s);
    case _ => OtherSkipsNothing(chain, cfg, e, s);
  }

  lemma OtherSkipsNothing(chain: Chain, cfg: Settings, e: Event, s: State)
    requires NothingSkipped(chain, s) && InStep(s) && Apply(chain, cfg, e, s).Some?
    requires !e.Poll? && !e.Initialize? && !e.Handle? && !e.Analyze? && !e.AnalysisDone?
    ensures NothingSkipped(chain, Apply(chain, cfg, e, s).value)
  {
  }

  lemma HandleSkipsNothing(chain: Chain, cfg: Settings, s: State)
    requires NothingSkipped(chain, s) && s.pc.Handling?
    ensures NothingSkipped(chain, Apply(chain, cfg, Handle, s).value)
  {
    assert InHand(chain, s);
    if s.pc.rest != [] {
      assert s.pc.rest == [s.pc.rest[0]] + s.pc.rest[1..];
      assert InHand(chain, Apply(chain, cfg, Handle, s).value);
    }
  }

  lemma StepKeepsControl(chain: Chain, cfg: Settings, e: Event, s: State)
    requires InStep(s) && Apply(chain, cfg, e, s).Some?
    ensures InStep(Apply(chain, cfg, e, s).value)
  {
  }

  lemma StepStartsOnce(chain: Chain, cfg: Settings, e: Event, s: State)
    requires StartedOnce(s) && Apply(chain, cfg, e, s).Some?
    ensures StartedOnce(Apply(chain, cfg, e, s).value)
  {
  }

  lemma StepCounts(chain: Chain, cfg: Settings, e: Event, s: State)
    requires CountersAddUp(s) && Apply(chain, cfg, e, s).Some?
    ensures CountersAddUp(Apply(chain, cfg, e, s).value)
  {
  }

  lemma StepKeepsInv(chain: Chain, cfg: Settings, e: Event, s: State)
    requires Inv(chain, s) && Apply(chain, cfg, e, s).Some?
    ensures Inv(chain, Apply(chain, cfg, e, s).value)
  {
    StepSkipsNothing(chain, cfg, e, s);
    StepKeepsControl(chain, cfg, e, s);
    StepStartsOnce(chain, cfg, e, s);
    StepCounts(chain, cfg, e, s);
  }

  // ---------------------------------------------------------------------------------------
  // Whole runs

  lemma {:induction false} RunKeepsInv(chain: Chain, cfg: Settings, events: seq<Event>, s: State)
    requires Inv(chain, s)
    ensures Inv(chain, Run(chain, cfg, events, s))
  {
    if events == [] {
    } else {
      var next := Apply(chain, cfg, events[0], s);
      if next.Some? {
        StepKeepsInv(chain, cfg, events[0], s);
        RunKeepsInv(chain, cfg, events[1..], next.value);
      } else {
        RunKeepsInv(chain, cfg, events[1..], s);
      }
    }
  }

  lemma FreshIsConsistent(chain: Chain)
    ensures Inv(chain, Fresh())
  {
  }

  lemma SafeFrom(chain: Chain, cfg: Settings, events: seq<Event>, start: State)
    requires Inv(chain, start)
    ensures var s := Run(chain, cfg, events, start);
      && (s.watermark.Some? ==> s.first.Some? && Covered(chain, s.contracts, s.first.value, s.watermark.value))
      && Distinct(s.started)
  {
    RunKeepsInv(chain, cfg, events, start);
  }

  /** Safety, over every run from an empty database: no creation between the first watermark and
      the current one is missing, and no address is analyzed twice. */
  lemma NothingMissedNothingTwice(chain: Chain, cfg: Settings, events: seq<Event>, start: State)
    requires start == Fresh()
    ensures var s := Run(chain, cfg, events, start);
      && (s.watermark.Some? ==> s.first.Some? && Covered(chain, s.contracts, s.first.value, s.watermark.value))
      && Distinct(s.started)
  {
    FreshIsConsistent(chain);
    SafeFrom(chain, cfg, events, start);
  }

  /** The persisted watermark never decreases, and the table never loses an address. */
  lemma {:induction false} WatermarkNeverDecreases(chain: Chain, cfg: Settings, events: seq<Event>, s: State)
    requires Inv(chain, s)
    ensures var t := Run(chain, cfg, events, s);
      && (s.watermark.Some? ==> t.watermark.Some? && s.watermark.value <= t.watermark.value && t.first == s.first)
      && s.contracts <= t.contracts && s.started <= t.started
  {
    if events == [] {
    } else {
      var next := Apply(chain, cfg, events[0], s);
      if next.Some? {
        StepKeepsInv(chain, cfg, events[0], s);
        StepIsMonotone(chain, cfg, events[0], s);
        WatermarkNeverDecreases(chain, cfg, events[1..], next.value);
      } else {
        WatermarkNeverDecreases(chain, cfg, events[1..], s);
      }
    }
  }

  lemma StepIsMonotone(chain: Chain, cfg: Settings, e: Event, s: State)
    requires Inv(chain, s) && Apply(chain, cfg, e, s).Some?
    ensures var t := Apply(chain, cfg, e, s).value;
      && (s.watermark.Some? ==> t.watermark.Some? && s.watermark.value <= t.watermark.value && t.first == s.first)
      && s.contracts <= t.contracts && s.started <= t.started
  {
  }

  // ---------------------------------------------------------------------------------------
  // Progress

  /** What the loop does next, unless it waits or is interrupted. */
  function OwnStep(pc: Control): Option<Event> {
    match pc
    case Seeding => Some(Seed)
    case Initializing(_) => Some(Initialize)
    case Handling(_, _) => Some(Handle)
    case Added(_, _, _) => Some(Analyze)
    case Analyzing(_, _, _) => Some(AnalysisDone)
    case Persisting => Some(Persist)
    case _ => None
  }

  lemma OneStepAtATime(chain: Chain, cfg: Settings, s: State, e: Event)
    requires InStep(s) && (e.Seed? || e.Initialize? || e.Handle? || e.Analyze? || e.AnalysisDone? || e.Persist?)
    ensures Apply(chain, cfg, e, s).Some? <==> OwnStep(s.pc) == Some(e)
  {
  }

  /** The steps for the creations of a poll, up to persisting the watermark. */
  function StepsFor(rest: seq<Address>, known: set<Address>): seq<Event> {
    if rest == [] then [Handle, Persist]
    else if rest[0] in known then [Handle] + StepsFor(rest[1..], known)
    else [Handle, Analyze, AnalysisDone] + StepsFor(rest[1..], known + {rest[0]})
  }

  /** The addresses that are not known yet, at their first occurrence. */
  function NewOnes(rest: seq<Address>, known: set<Address>): seq<Address> {
    if rest == [] then []
    else if rest[0] in known then NewOnes(rest[1..], known)
    else [rest[0]] + NewOnes(rest[1..], known + {rest[0]})
  }

  /** They are the unknown ones, each once. */
  lemma {:induction false} NewOnesExactly(rest: seq<Address>, known: set<Address>)
    ensures Distinct(NewOnes(rest, known))
    ensures forall a :: a in NewOnes(rest, known) <==> a in rest && a !in known
    decreases rest
  {
    if rest == [] {
    } else {
      var a, later := rest[0], rest[1..];
      assert forall x :: x in rest <==> x == a || x in later;
      if a in known {
        NewOnesExactly(later, known);
      } else {
        var others := NewOnes(later, known + {a});
        NewOnesExactly(later, known + {a});
        assert forall x :: x in [a] + others <==> x == a || x in others;
        DistinctCons(a, others);
      }
    }
  }

  lemma DistinctCons(a: Address, s: seq<Address>)
    requires Distinct(s) && a !in s
    ensures Distinct([a] + s)
  {
  }

  predicate IsSubsequence(s: seq<Address>, l: seq<Address>)
    decreases l
  {
    s == [] || (l != [] && (IsSubsequence(s, l[1..]) || (s[0] == l[0] && IsSubsequence(s[1..], l[1..]))))
  }

  /** And in their order. */
  lemma {:induction false} NewOnesInOrder(rest: seq<Address>, known: set<Address>)
    ensures IsSubsequence(NewOnes(rest, known), rest)
    decreases rest
  {
    if rest == [] {
    } else if rest[0] in known {
      NewOnesInOrder(rest[1..], known);
    } else {
      NewOnesInOrder(rest[1..], known + {rest[0]});
      assert NewOnes(rest, known)[1..] == NewOnes(rest[1..], known + {rest[0]});
    }
  }

  lemma RunNext(chain: Chain, cfg: Settings, e: Event, events: seq<Event>, s: State)
    ensures Run(chain, cfg, [e] + events, s)
      == match Apply(chain, cfg, e, s) case Some(next) => Run(chain, cfg, events, next) case None => Run(chain, cfg, events, s)
  {
    assert ([e] + events)[1..] == events;
  }

  lemma {:induction false} RunConcat(chain: Chain, cfg: Settings, a: seq<Event>, b: seq<Event>, s: State)
    ensures Run(chain, cfg, a + b, s) == Run(chain, cfg, b, Run(chain, cfg, a, s))
    decreases a
  {
    if a == [] {
      assert a + b == b;
    } else {
      assert (a + b)[1..] == a[1..] + b;
      match Apply(chain, cfg, a[0], s)
      case Some(next) => RunConcat(chain, cfg, a[1..], b, next);
      case None => RunConcat(chain, cfg, a[1..], b, s);
    }
  }

  lemma RunOne(chain: Chain, cfg: Settings, e: Event, events: seq<Event>, s: State)
    requires Apply(chain, cfg, e, s).Some?
    ensures Run(chain, cfg, [e] + events, s) == Run(chain, cfg, events, Apply(chain, cfg, e, s).value)
  {
    assert ([e] + events)[1..] == events;
  }

  /** The state after a new address was handled. */
  function AfterNew(s: State): State
    requires s.pc.Handling? && s.pc.rest != []
  {
    var a := s.pc.rest[0];
    s.(contracts := s.contracts + {a}, scanned := s.scanned + {a}, started := s.started + [a],
       pc := Handling(s.pc.latest, s.pc.rest[1..]))
  }

  /** A new address is put into the table, analyzed, and its result is stored. */
  lemma HandleNew(chain: Chain, cfg: Settings, s: State, events: seq<Event>)
    requires s.pc.Handling? && s.pc.rest != [] && s.pc.rest[0] !in s.contracts
    ensures Run(chain, cfg, [Handle, Analyze, AnalysisDone] + events, s) == Run(chain, cfg, events, AfterNew(s))
  {
    assert [Handle, Analyze, AnalysisDone] + events == [Handle] + ([Analyze] + ([AnalysisDone] + events));
    RunOne(chain, cfg, Handle, [Analyze] + ([AnalysisDone] + events), s);
    var t := Apply(chain, cfg, Handle, s).value;
    RunOne(chain, cfg, Analyze, [AnalysisDone] + events, t);
    RunOne(chain, cfg, AnalysisDone, events, Apply(chain, cfg, Analyze, t).value);
  }

  /** The state after the creations of a poll were handled. */
  function Handled(s: State): State
    requires s.pc.Handling?
  {
    var news := NewOnes(s.pc.rest, s.contracts);
    Recovered(Persisted(s, s.pc.latest)).(
      contracts := s.contracts + (set a | a in s.pc.rest), scanned := s.scanned + (set a | a in news),
      started := s.started + news, last := Some(s.pc.latest), pc := Polling)
  }

  lemma HandledKnown(s: State)
    requires s.pc.Handling? && s.pc.rest != [] && s.pc.rest[0] in s.contracts
    ensures Handled(s.(pc := Handling(s.pc.latest, s.pc.rest[1..]))) == Handled(s)
  {
    assert s.contracts + (set a | a in s.pc.rest) == s.contracts + (set a | a in s.pc.rest[1..]);
  }

  lemma HandledNew(s: State)
    requires s.pc.Handling? && s.pc.rest != [] && s.pc.rest[0] !in s.contracts
    ensures Handled(AfterNew(s)) == Handled(s)
  {
    var a, rest := s.pc.rest[0], s.pc.rest[1..];
    var news, others := NewOnes(s.pc.rest, s.contracts), NewOnes(rest, s.contracts + {a});
    assert s.contracts + {a} + (set x | x in rest) == s.contracts + (set x | x in s.pc.rest);
    assert news == [a] + others && s.scanned + {a} + (set x | x in others) == s.scanned + (set x | x in news);
    assert s.started + [a] + others == s.started + news;
  }

  lemma {:induction false} HandlesAll(chain: Chain, cfg: Settings, s: State)
    requires s.pc.Handling?
    ensures Run(chain, cfg, StepsFor(s.pc.rest, s.contracts), s) == Handled(s)
    decreases |s.pc.rest|
  {
    var rest := s.pc.rest;
    if rest == [] {
      NothingLeft(chain, cfg, s);
    } else if rest[0] in s.contracts {
      RunOne(chain, cfg, Handle, StepsFor(rest[1..], s.contracts), s);
      HandledKnown(s);
      HandlesAll(chain, cfg, s.(pc := Handling(s.pc.latest, rest[1..])));
    } else {
      HandleNew(chain, cfg, s, StepsFor(rest[1..], s.contracts + {rest[0]}));
      HandledNew(s);
      HandlesAll(chain, cfg, AfterNew(s));
    }
  }

  lemma NothingLeft(chain: Chain, cfg: Settings, s: State)
    requires s.pc.Handling? && s.pc.rest == []
    ensures Run(chain, cfg, [Handle, Persist], s) == Handled(s)
  {
    RunOne(chain, cfg, Handle, [Persist], s);
    RunOne(chain, cfg, Persist, [], Apply(chain, cfg, Handle, s).value);
    assert [Handle] + [Persist] == [Handle, Persist] && [Persist] + [] == [Persist];
    assert s.contracts + (set a | a in s.pc.rest) == s.contracts;
    assert s.scanned + (set a | a in NewOnes(s.pc.rest, s.contracts)) == s.scanned;
  }

  /** `a` was created after block `lo` and not after block `hi`. */
  ghost predicate Created(chain: Chain, lo: int, hi: int, a: Address) {
    exists b :: lo < b <= hi && a in chain(b)
  }

  lemma {:induction false} CreationsExactly(chain: Chain, lo: int, hi: int, a: Address)
    ensures a in CreationsIn(chain, lo + 1, hi) <==> Created(chain, lo, hi, a)
    decreases hi - lo
  {
    if lo + 1 > hi {
    } else {
      CreationsExactly(chain, lo + 1, hi, a);
      if a in chain(lo + 1) { assert Created(chain, lo, hi, a); }
      if Created(chain, lo + 1, hi, a) {
        var b :| lo + 1 < b <= hi && a in chain(b);
        assert Created(chain, lo, hi, a);
      }
    }
  }

  lemma PollRuns(chain: Chain, cfg: Settings, s: State, latest: int)
    requires s.pc.Polling? && s.last.Some? && latest > s.last.value
    ensures var created := CreationsIn(chain, s.last.value + 1, latest);
      var t := Run(chain, cfg, [Poll(latest)] + StepsFor(created, s.contracts), s);
      && t.pc.Polling? && t.last == Some(latest) && t.watermark == Some(latest)
      && t.errors == t.suppressed == t.logged == 0
      && t.contracts == s.contracts + (set a | a in created)
      && t.started == s.started + NewOnes(created, s.contracts)
      && t.scanned == s.scanned + (set a | a in NewOnes(created, s.contracts))
  {
    var created := CreationsIn(chain, s.last.value + 1, latest);
    RunOne(chain, cfg, Poll(latest), StepsFor(created, s.contracts), s);
    HandlesAll(chain, cfg, s.(pc := Handling(latest, created)));
  }

  /** What the loop does with new blocks when nothing interrupts it: it polls again with the newest block as its
      watermark, in memory and on disk; the table has gained everything created in the new blocks, and of that
      exactly what was not in the table was analyzed, and its result stored, each once and in the order of creation. */
  lemma PollMakesProgress(chain: Chain, cfg: Settings, s: State, latest: int) returns (events: seq<Event>, news: seq<Address>)
    requires s.pc.Polling? && s.last.Some? && latest > s.last.value
    ensures |events| > 0 && events[0] == Poll(latest)
    ensures forall k :: 0 < k < |events| ==>
      events[k].Handle? || events[k].Analyze? || events[k].AnalysisDone? || events[k].Persist?
    ensures var t := Run(chain, cfg, events, s);
      && t.pc.Polling? && t.last == Some(latest) && t.watermark == Some(latest)
      && t.errors == t.suppressed == t.logged == 0
      && (forall a :: a in t.contracts <==> a in s.contracts || Created(chain, s.last.value, latest, a))
      && t.started == s.started + news
      && (forall a :: a in t.scanned <==> a in s.scanned || a in news)
    ensures Distinct(news) && IsSubsequence(news, CreationsIn(chain, s.last.value + 1, latest))
    ensures forall a :: a in news <==> Created(chain, s.last.value, latest, a) && a !in s.contracts
  {
    var created := CreationsIn(chain, s.last.value + 1, latest);
    news := NewOnes(created, s.contracts);
    events := [Poll(latest)] + StepsFor(created, s.contracts);
    PollRuns(chain, cfg, s, latest);
    OwnStepsOnly(created, s.contracts);
    NewOnesExactly(created, s.contracts);
    NewOnesInOrder(created, s.contracts);
    forall a ensures a in created <==> Created(chain, s.last.value, latest, a) {
      CreationsExactly(chain, s.last.value, latest, a);
    }
  }

  lemma {:induction false} OwnStepsOnly(rest: seq<Address>, known: set<Address>)
    ensures forall e :: e in StepsFor(rest, known) ==> e.Handle? || e.Analyze? || e.AnalysisDone? || e.Persist?
    decreases rest
  {
    if rest == [] {
    } else {
      OwnStepsOnly(rest[1..], if rest[0] in known then known else known + {rest[0]});
    }
  }

  /** Without new blocks nothing changes but the counters of errors. */
  lemma NothingNew(chain: Chain, cfg: Settings, s: State, latest: int)
    requires s.pc.Polling? && s.last.Some? && latest <= s.last.value
    ensures Apply(chain, cfg, Poll(latest), s) == Some(s.(errors := 0, suppressed := 0, logged := 0))
  {
  }

  /** Where the loop takes up: after the persisted watermark; without one after the configured block, which it
      persists; and without either just before the newest block of its first poll. */
  lemma TakesUp(chain: Chain, cfg: Settings, s: State, latest: int)
    requires s.pc.Stopped? && InStep(s)
    ensures var t := Run(chain, cfg, [Start, Seed], s);
      && t.pc.Polling? && t.contracts == s.contracts && t.started == s.started
      && t.last == (if s.watermark.Some? then s.watermark else cfg.startBlock) && t.watermark == t.last
    ensures s.watermark.None? && cfg.startBlock.None? ==>
      var t := Run(chain, cfg, [Start, Seed, Poll(latest), Initialize], s);
      && t.pc == Handling(latest, CreationsIn(chain, latest, latest))
      && t.last == Some(latest - 1) && t.watermark == Some(latest - 1)
      && t.contracts == s.contracts && t.started == s.started
  {
    var t := Run(chain, cfg, [Start, Seed], s);
    RunNext(chain, cfg, Start, [Seed], s);
    RunNext(chain, cfg, Seed, [], Apply(chain, cfg, Start, s).value);
    assert [Seed] + [] == [Seed] && [Start] + [Seed] == [Start, Seed];
    RunConcat(chain, cfg, [Start, Seed], [Poll(latest), Initialize], s);
    assert [Start, Seed] + [Poll(latest), Initialize] == [Start, Seed, Poll(latest), Initialize];
    if t.last.None? {
      RunOne(chain, cfg, Poll(latest), [Initialize], t);
      RunOne(chain, cfg, Initialize, [], Apply(chain, cfg, Poll(latest), t).value);
      assert [Initialize] + [] == [Initialize] && [Poll(latest)] + [Initialize] == [Poll(latest), Initialize];
    }
  }

  // ---------------------------------------------------------------------------------------
  // What the loop does not promise

  /** The loop is about to analyze `a`. */
  predicate AboutToAnalyze(s: State, a: Address) {
    s.pc.Added? && s.pc.a == a
  }

  /** Once `a` is in the table, the loop analyzes it only if that is its very next own step. */
  lemma {:induction false} NeverAnalyzedLater(chain: Chain, cfg: Settings, events: seq<Event>, s: State, a: Address)
    requires a in s.contracts && !AboutToAnalyze(s, a)
    ensures a in Run(chain, cfg, events, s).started ==> a in s.started
  {
    if events == [] {
    } else {
      var next := Apply(chain, cfg, events[0], s);
      if next.Some? {
        NeverAnalyzedLater(chain, cfg, events[1..], next.value, a);
      } else {
        NeverAnalyzedLater(chain, cfg, events[1..], s, a);
      }
    }
  }

  /** A crash or an exception between the insertion and the analysis therefore loses the analysis
      for good; so does a failure of the analysis itself, for its result. */
  lemma CrashLosesAnalysis(chain: Chain, cfg: Settings, s: State, e: Event, events: seq<Event>)
    requires Inv(chain, s) && s.pc.Added? && (e == Crash || e == UnexpectedError || e == TransientError)
    ensures s.pc.a in s.contracts && s.pc.a !in Run(chain, cfg, [e] + events, s).started
  {
    var t := Apply(chain, cfg, e, s).value;
    assert ([e] + events)[1..] == events;
    NeverAnalyzedLater(chain, cfg, events, t, s.pc.a);
  }

  /** The first of the events that end the time between the insertion and the analysis. */
  function FirstDecisive(events: seq<Event>): Option<Event> {
    if events == [] then None
    else if events[0].Analyze? || events[0].Crash? || events[0].UnexpectedError? || events[0].TransientError?
    then Some(events[0])
    else FirstDecisive(events[1..])
  }

  /** Once inserted, an address is ever analyzed if and only if that happens before a crash or an exception. */
  lemma {:induction false} AnalyzedExactly(chain: Chain, cfg: Settings, s: State, events: seq<Event>)
    requires Inv(chain, s) && s.pc.Added?
    ensures s.pc.a in Run(chain, cfg, events, s).started <==> FirstDecisive(events) == Some(Analyze)
    decreases events
  {
    if events == [] {
    } else {
      var e, next := events[0], Apply(chain, cfg, events[0], s);
      if next.None? {
        AnalyzedExactly(chain, cfg, s, events[1..]);
      } else {
        StepKeepsInv(chain, cfg, e, s);
        if e.Analyze? {
          assert next.value.started[|s.started|] == s.pc.a;
          WatermarkNeverDecreases(chain, cfg, events[1..], next.value);
        } else if e.ApiAdds? {
          AnalyzedExactly(chain, cfg, next.value, events[1..]);
        } else {
          NeverAnalyzedLater(chain, cfg, events[1..], next.value, s.pc.a);
        }
      }
    }
  }

  // ---------------------------------------------------------------------------------------
  // Back-off

  function Repeat(e: Event, n: nat): seq<Event> {
    if n == 0 then [] else [e] + Repeat(e, n - 1)
  }

  /** The handler itself fails on a long outage: from a recovered state the loop survives any
      number of transient errors in a row up to 1024, and dies of one more. */
  lemma {:induction false} OutageKills(chain: Chain, cfg: Settings, s: State, n: nat)
    requires s.pc.Polling? && s.errors <= 1024
    ensures var t := Run(chain, cfg, Repeat(TransientError, n), s);
      if s.errors + n <= 1024 then t.pc.Polling? && t.errors == s.errors + n else t.pc.Dead?
    decreases n
  {
    if n == 0 {
    } else {
      var events := Repeat(TransientError, n);
      assert events[1..] == Repeat(TransientError, n - 1);
      var t := Apply(chain, cfg, TransientError, s).value;
      if t.pc.Dead? {
        DeadStaysDead(chain, cfg, t, n - 1);
      } else {
        OutageKills(chain, cfg, t, n - 1);
      }
    }
  }

  /** The errors among the first `n` in a row that are logged: the first one, and then every `logEvery`th. */
  function Logged(cfg: Settings, n: nat): set<nat> {
    set k: nat | 1 <= k <= n && (k == 1 || k % Max(1, cfg.logEvery) == 0)
  }

  /** The others are counted as suppressed. */
  lemma {:induction false} LogsExactly(chain: Chain, cfg: Settings, s: State, n: nat)
    requires s.pc.Polling? && s.errors == s.logged == s.suppressed == 0 && n <= LARGEST_EXPONENT + 1
    ensures var t := Run(chain, cfg, Repeat(TransientError, n), s);
      && t.pc.Polling? && t.errors == n && t.logged == |Logged(cfg, n)| && t.suppressed == n - t.logged
  {
    if n == 0 {
    } else {
      LogsExactly(chain, cfg, s, n - 1);
      RepeatSnoc(chain, cfg, s, n - 1);
      assert Logged(cfg, n)
          == Logged(cfg, n - 1) + if n == 1 || n % Max(1, cfg.logEvery) == 0 then {n} else {};
    }
  }

  lemma {:induction false} RepeatSnoc(chain: Chain, cfg: Settings, s: State, n: nat)
    ensures var t := Run(chain, cfg, Repeat(TransientError, n), s);
      Run(chain, cfg, Repeat(TransientError, n + 1), s)
      == match Apply(chain, cfg, TransientError, t) case Some(u) => u case None => t
    decreases n
  {
    var events := Repeat(TransientError, n + 1);
    assert events[1..] == Repeat(TransientError, n);
    if n == 0 {
    } else {
      assert Repeat(TransientError, n)[1..] == Repeat(TransientError, n - 1);
      match Apply(chain, cfg, TransientError, s)
      case Some(next) => RepeatSnoc(chain, cfg, next, n - 1);
      case None => RepeatSnoc(chain, cfg, s, n - 1);
    }
  }

  lemma {:induction false} DeadStaysDead(chain: Chain, cfg: Settings, s: State, n: nat)
    requires s.pc.Dead?
    ensures Run(chain, cfg, Repeat(TransientError, n), s) == s
  {
    if n == 0 {
    } else {
      assert Repeat(TransientError, n)[1..] == Repeat(TransientError, n - 1);
      DeadStaysDead(chain, cfg, s, n - 1);
    }
  }
}
