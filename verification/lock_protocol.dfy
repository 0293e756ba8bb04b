/** `LockFile` as a protocol between processes.  Creating the file exclusively, closing it and
    unlinking it are separate atomic steps, and a process may die before any of them. */
module LockProtocol {
  import opened Options

  type Pid = nat

  datatype Pc = Running | Trying | Created | Closing | Unlinked | Gone

  /** `depth` counts the `with` blocks on the object that the process is in. */
  datatype Process = Process(pc: Pc, isLocked: bool, depth: nat)

  /** The lock file, if it exists, with the process that created it. */
  datatype State = State(file: Option<Pid>, procs: map<Pid, Process>)

  datatype Action = Enter | TryCreate | GiveUp | SetLocked | Exit | Unlink | ClearFlag | Die

  datatype Step = Step(pid: Pid, action: Action)

  function Put(s: State, p: Pid, q: Process): State {
    s.(procs := s.procs[p := q])
  }

  /** One atomic step; `None` if the process cannot take it. A failing `TryCreate` sleeps and tries
      again; `GiveUp` is a timeout, or another error of `os.open`. */
  function Apply(st: Step, s: State): Option<State> {
    if st.pid !in s.procs then None
    else
      var p, q := st.pid, s.procs[st.pid];
      match st.action
      case Enter =>
        if !q.pc.Running? then None
        else if q.isLocked then Some(Put(s, p, q.(depth := q.depth + 1)))
        else Some(Put(s, p, q.(pc := Trying)))
      case TryCreate =>
        if !q.pc.Trying? then None
        else if s.file.None? then Some(Put(s.(file := Some(p)), p, q.(pc := Created)))
        else Some(s)
      case GiveUp =>
        if q.pc.Trying? then Some(Put(s, p, q.(pc := Running))) else None
      case SetLocked =>
        if q.pc.Created? then Some(Put(s, p, Process(Running, true, q.depth + 1))) else None
      case Exit =>
        if !q.pc.Running? || q.depth == 0 then None
        else if q.isLocked then Some(Put(s, p, q.(pc := Closing)))
        else Some(Put(s, p, q.(depth := q.depth - 1)))
      case Unlink =>
        if q.pc.Closing? && s.file.Some? then Some(Put(s.(file := None), p, q.(pc := Unlinked))) else None
      case ClearFlag =>
        if q.pc.Unlinked? && q.depth > 0 then Some(Put(s, p, Process(Running, false, q.depth - 1))) else None
      case Die =>
        if q.pc.Gone? then None else Some(Put(s, p, q.(pc := Gone)))
  }

  function Run(steps: seq<Step>, s: State): State {
    if steps == [] then s
    else match Apply(steps[0], s)
      case Some(next) => Run(steps[1..], next)
      case None => Run(steps[1..], s)
  }

  /** No file, and every process outside. */
  predicate Initial(s: State) {
    s.file.None? && forall p :: p in s.procs ==> s.procs[p] == Process(Running, false, 0)
  }

  // ---------------------------------------------------------------------------------------

  /** The process is between its successful create and its unlink. */
  predicate Holds(q: Process) {
    q.pc.Created? || q.pc.Closing? || (q.pc.Running? && q.isLocked)
  }

  predicate InBody(s: State, p: Pid) {
    p in s.procs && s.procs[p].pc.Running? && s.procs[p].depth > 0
  }

  /** Whoever holds the lock created the file that is there now; a file whose creator does not
      hold the lock was left behind by a dead process. */
  ghost predicate Inv(s: State) {
    && (forall p :: p in s.procs && Holds(s.procs[p]) ==> s.file == Some(p))
    && (s.file.Some? ==> s.file.value in s.procs && (Holds(s.procs[s.file.value]) || s.procs[s.file.value].pc.Gone?))
    && (forall p :: p in s.procs && !s.procs[p].pc.Gone? ==> Coherent(s.procs[p]))
  }

  predicate Coherent(q: Process) {
    && (q.pc.Created? || q.pc.Trying? ==> !q.isLocked)
    && (q.pc.Closing? || q.pc.Unlinked? ==> q.isLocked)
    && (q.isLocked ==> q.depth > 0)
  }

  lemma StepKeepsInv(st: Step, s: State)
    requires Inv(s) && Apply(st, s).Some?
    ensures Inv(Apply(st, s).value)
  {
  }

  lemma {:induction false} RunKeepsInv(steps: seq<Step>, s: State)
    requires Inv(s)
    ensures Inv(Run(steps, s))
  {
    if steps == [] {
    } else {
      if Apply(steps[0], s).Some? { StepKeepsInv(steps[0], s); }
      RunKeepsInv(steps[1..], if Apply(steps[0], s).Some? then Apply(steps[0], s).value else s);
    }
  }

  /** In every run: at most one process holds the lock, and when it unlinks, the file is its own. */
  lemma AtMostOneHolder(steps: seq<Step>, s: State, p: Pid, q: Pid)
    requires Initial(s)
    ensures var t := Run(steps, s);
      p in t.procs && q in t.procs && Holds(t.procs[p]) && Holds(t.procs[q]) ==> p == q
    ensures var t := Run(steps, s);
      p in t.procs && t.procs[p].pc.Closing? ==> t.file == Some(p)
  {
    RunKeepsInv(steps, s);
  }

  /** While no process dies, the file exists exactly when some process is between its create and
      its unlink. */
  lemma FileMeansHeld(steps: seq<Step>, s: State)
    requires Initial(s) && forall i :: 0 <= i < |steps| ==> !steps[i].action.Die?
    ensures var t := Run(steps, s);
      t.file.Some? <==> exists p :: p in t.procs && Holds(t.procs[p])
  {
    RunKeepsInv(steps, s);
    NobodyGone(steps, s);
    var t := Run(steps, s);
    if t.file.Some? { assert Holds(t.procs[t.file.value]); }
  }

  lemma {:induction false} NobodyGone(steps: seq<Step>, s: State)
    requires forall i :: 0 <= i < |steps| ==> !steps[i].action.Die?
    requires AllAlive(s)
    ensures AllAlive(Run(steps, s))
  {
    if steps == [] {
    } else {
      assert !steps[0].action.Die?;
      NobodyGone(steps[1..], if Apply(steps[0], s).Some? then Apply(steps[0], s).value else s);
    }
  }

  predicate AllAlive(s: State) {
    forall p :: p in s.procs ==> !s.procs[p].pc.Gone?
  }

  // ---------------------------------------------------------------------------------------
  // The bodies

  /** A process that uses the object again inside its own `with` block. */
  predicate Nests(st: Step, s: State) {
    st.action.Enter? && st.pid in s.procs && s.procs[st.pid].pc.Running? && s.procs[st.pid].depth > 0
  }

  predicate NeverNests(steps: seq<Step>, s: State) {
    steps == [] ||
    (!Nests(steps[0], s) && NeverNests(steps[1..], if Apply(steps[0], s).Some? then Apply(steps[0], s).value else s))
  }

  predicate BodiesLocked(s: State) {
    forall p :: p in s.procs && !s.procs[p].pc.Gone? ==>
      s.procs[p].depth <= 1 && (s.procs[p].depth == 1 ==> s.procs[p].isLocked)
  }

  lemma {:induction false} BodiesStayLocked(steps: seq<Step>, s: State)
    requires Inv(s) && BodiesLocked(s) && NeverNests(steps, s)
    ensures BodiesLocked(Run(steps, s))
  {
    if steps == [] {
    } else {
      var next := if Apply(steps[0], s).Some? then Apply(steps[0], s).value else s;
      if Apply(steps[0], s).Some? {
        StepKeepsInv(steps[0], s);
        StepKeepsBodiesLocked(steps[0], s);
      }
      BodiesStayLocked(steps[1..], next);
    }
  }

  lemma StepKeepsBodiesLocked(st: Step, s: State)
    requires Inv(s) && BodiesLocked(s) && !Nests(st, s) && Apply(st, s).Some?
    ensures BodiesLocked(Apply(st, s).value)
  {
    var q := s.procs[st.pid];
    assert !q.pc.Gone? ==> q.depth <= 1;
  }

  /** Mutual exclusion: if no process nests `with` blocks on one object, no two are in a body. */
  lemma MutualExclusion(steps: seq<Step>, s: State, p: Pid, q: Pid)
    requires Initial(s) && NeverNests(steps, s)
    ensures var t := Run(steps, s); InBody(t, p) && InBody(t, q) ==> p == q
  {
    RunKeepsInv(steps, s);
    BodiesStayLocked(steps, s);
  }

  function Acquire(p: Pid): seq<Step> { [Step(p, Enter), Step(p, TryCreate), Step(p, SetLocked)] }

  function Release(p: Pid): seq<Step> { [Step(p, Exit), Step(p, Unlink), Step(p, ClearFlag)] }

  function AcquiredBy(s: State, p: Pid): State { Put(s.(file := Some(p)), p, Process(Running, true, 1)) }

  predicate IsNested(s: State, p: Pid) {
    p in s.procs && s.procs[p].pc.Running? && s.procs[p].isLocked && s.procs[p].depth >= 2
  }

  predicate IsIdle(s: State, q: Pid) {
    q in s.procs && s.procs[q].pc.Running? && s.procs[q].depth == 0
  }

  /** Nesting breaks it, wherever a run gets to: if a process that holds the lock is in a nested block and
      another one is idle, the first one can leave the inner block, and both end up in a body. */
  lemma NestingBreaksExclusion(steps: seq<Step>, start: State, p: Pid, q: Pid)
    requires Initial(start) && p != q && IsNested(Run(steps, start), p) && IsIdle(Run(steps, start), q)
    ensures var t := Run(steps + (Release(p) + Acquire(q)), start); InBody(t, p) && InBody(t, q)
  {
    var s := Run(steps, start);
    RunKeepsInv(steps, start);
    var released := Put(s.(file := None), p, Process(Running, false, s.procs[p].depth - 1));
    Releases(s, p);
    Acquires(released, q);
    RunConcat(steps, Release(p) + Acquire(q), start);
    RunConcat(Release(p), Acquire(q), s);
  }

  /** Such a state is reached as soon as a process enters a second block on its object. */
  lemma NestedIsReached(s: State, p: Pid)
    requires Initial(s) && p in s.procs
    ensures IsNested(Run(Acquire(p) + [Step(p, Enter)], s), p)
    ensures Run(Acquire(p) + [Step(p, Enter)], s) == Put(s.(file := Some(p)), p, Process(Running, true, 2))
    ensures forall q :: q in s.procs && q != p ==> IsIdle(Run(Acquire(p) + [Step(p, Enter)], s), q)
  {
    Acquires(s, p);
    RunConcat(Acquire(p), [Step(p, Enter)], s);
    assert [Step(p, Enter)][1..] == [];
    assert Put(AcquiredBy(s, p), p, Process(Running, true, 2)) == Put(s.(file := Some(p)), p, Process(Running, true, 2));
  }

  /** An object outside of every block is not locked, so that the `release` of its deletion does nothing. */
  lemma IdleIsUnlocked(steps: seq<Step>, s: State, p: Pid)
    requires Initial(s) && IsIdle(Run(steps, s), p)
    ensures !Run(steps, s).procs[p].isLocked && Run(steps, s).file != Some(p)
  {
    RunKeepsInv(steps, s);
  }

  lemma Acquires(s: State, p: Pid)
    requires s.file.None? && p in s.procs && s.procs[p] == Process(Running, false, 0)
    ensures Run(Acquire(p), s) == AcquiredBy(s, p)
  {
    var out := Process(Running, false, 0);
    var s1 := Put(s, p, out.(pc := Trying));
    var s2 := Put(s1.(file := Some(p)), p, out.(pc := Created));
    assert Put(s2, p, Process(Running, true, 1)) == AcquiredBy(s, p);
    RunThree(Acquire(p), s, s1, s2, AcquiredBy(s, p));
  }

  lemma Releases(s: State, p: Pid)
    requires s.file.Some? && InBody(s, p) && s.procs[p].isLocked
    ensures Run(Release(p), s) == Put(s.(file := None), p, Process(Running, false, s.procs[p].depth - 1))
  {
    var depth := s.procs[p].depth;
    var s1 := Put(s, p, Process(Closing, true, depth));
    var s2 := Put(s1.(file := None), p, Process(Unlinked, true, depth));
    var s3 := Put(s.(file := None), p, Process(Running, false, depth - 1));
    assert Put(s2, p, Process(Running, false, depth - 1)) == s3;
    RunThree(Release(p), s, s1, s2, s3);
  }

  /** A block on an idle object and a free lock: inside, the file exists and is the process's own; leaving puts
      everything back as it was. */
  lemma BlockRoundTrip(s: State, p: Pid)
    requires s.file.None? && p in s.procs && s.procs[p] == Process(Running, false, 0)
    ensures var t := Run(Acquire(p), s); InBody(t, p) && t.file == Some(p) && Run(Release(p), t) == s
    ensures forall q :: q in s.procs && q != p ==> q in Run(Acquire(p), s).procs && Run(Acquire(p), s).procs[q] == s.procs[q]
  {
    Acquires(s, p);
    Releases(AcquiredBy(s, p), p);
    assert Put(AcquiredBy(s, p).(file := None), p, Process(Running, false, 0)) == s;
  }

  /** Only the block that finds the object locked unlocks it: the others leave the file alone. */
  lemma LeavesUnlocked(s: State, p: Pid)
    requires InBody(s, p) && !s.procs[p].isLocked
    ensures Run(Release(p), s) == Put(s, p, Process(Running, false, s.procs[p].depth - 1))
  {
    var t := Put(s, p, Process(Running, false, s.procs[p].depth - 1));
    assert Apply(Step(p, Exit), s) == Some(t) && Apply(Step(p, Unlink), t) == None && Apply(Step(p, ClearFlag), t) == None;
    assert Release(p)[1..] == [Step(p, Unlink), Step(p, ClearFlag)] && Release(p)[1..][1..] == [Step(p, ClearFlag)];
    assert Release(p)[1..][1..][1..] == [];
    assert Run([Step(p, ClearFlag)], t) == t;
  }

  /** While the file exists a process that tries neither gets in nor changes anything, and can give up. */
  lemma Waits(s: State, p: Pid)
    requires s.file.Some? && p in s.procs && s.procs[p].pc.Trying?
    ensures Apply(Step(p, TryCreate), s) == Some(s)
    ensures Apply(Step(p, GiveUp), s) == Some(s.(procs := s.procs[p := s.procs[p].(pc := Running)]))
  {
  }

  lemma RunThree(steps: seq<Step>, s0: State, s1: State, s2: State, s3: State)
    requires |steps| == 3
    requires Apply(steps[0], s0) == Some(s1) && Apply(steps[1], s1) == Some(s2) && Apply(steps[2], s2) == Some(s3)
    ensures Run(steps, s0) == s3
  {
    assert steps[1..][1..][1..] == [];
    assert Run(steps[1..][1..], s2) == s3;
  }

  lemma {:induction false} RunConcat(a: seq<Step>, b: seq<Step>, s: State)
    ensures Run(a + b, s) == Run(b, Run(a, s))
  {
    if a == [] {
      assert a + b == b;
    } else {
      assert (a + b)[1..] == a[1..] + b;
      RunConcat(a[1..], b, if Apply(a[0], s).Some? then Apply(a[0], s).value else s);
    }
  }

  // ---------------------------------------------------------------------------------------
  // Dead processes

  /** A process that dies while it holds the lock leaves a file that nobody removes: from then on
      no process enters a body that was not in one. */
  ghost predicate Stale(s: State) {
    s.file.Some? && s.file.value in s.procs && s.procs[s.file.value].pc.Gone?
  }

  /** That can happen at any time. */
  lemma HolderCanDie(s: State, p: Pid)
    requires Inv(s) && p in s.procs && Holds(s.procs[p])
    ensures Apply(Step(p, Die), s).Some? && Stale(Apply(Step(p, Die), s).value)
    ensures Apply(Step(p, Die), s).value.file == Some(p)
  {
  }

  lemma {:induction false} StaleLockBlocks(steps: seq<Step>, s: State, p: Pid)
    requires Inv(s) && Stale(s) && p in s.procs && s.procs[p].depth == 0
    ensures var t := Run(steps, s); Stale(t) && t.file == s.file && p in t.procs && !InBody(t, p)
  {
    if steps == [] {
    } else {
      var next := if Apply(steps[0], s).Some? then Apply(steps[0], s).value else s;
      if Apply(steps[0], s).Some? { StepKeepsInv(steps[0], s); }
      StaleLockBlocks(steps[1..], next, p);
    }
  }
}
