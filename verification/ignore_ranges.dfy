/** `slither-disable-start` and `slither-disable-end` comments of one file. */
module IgnoreRanges {
  import opened Options

  /** Detector names are compared only; `all` stands for every detector. */
  datatype Check = All | Detector(id: nat)

  /** What the comment on a line says; the list of checks is not empty. */
  datatype Line = Code | Start(checks: seq<Check>) | End(checks: seq<Check>) | NextLine(checks: seq<Check>)

  /** An ignored range, open at both ends; without an end it goes on for ever. */
  datatype Range = Range(start: nat, end: Option<nat>)

  // ---------------------------------------------------------------------------------------
  // Line by line

  datatype Event = Event(line: nat, isStart: bool)

  /** The occurrences of `c` among the first `j` checks, as events of line `n`. */
  function Occurrences(checks: seq<Check>, j: nat, c: Check, e: Event): seq<Event>
    requires j <= |checks|
  {
    if j == 0 then []
    else Occurrences(checks, j - 1, c, e) + (if checks[j - 1] == c then [e] else [])
  }

  function EventsOfLine(line: Line, n: nat, c: Check): seq<Event> {
    match line
    case Start(checks) => Occurrences(checks, |checks|, c, Event(n, true))
    case End(checks) => Occurrences(checks, |checks|, c, Event(n, false))
    case _ => []
  }

  /** The events of the first `n` lines; lines are numbered from 1. */
  function Events(lines: seq<Line>, n: nat, c: Check): seq<Event>
    requires n <= |lines|
  {
    if n == 0 then [] else Events(lines, n - 1, c) + EventsOfLine(lines[n - 1], n, c)
  }

  predicate Alternates(events: seq<Event>) {
    forall k :: 0 <= k < |events| ==> events[k].isStart == (k % 2 == 0)
  }

  /** The ranges between starts and ends. */
  function RangesOf(events: seq<Event>): (r: seq<Range>)
    ensures |r| == (|events| + 1) / 2
  {
    seq((|events| + 1) / 2, k requires 0 <= k < (|events| + 1) / 2 =>
      Range(events[2 * k].line, if 2 * k + 1 < |events| then Some(events[2 * k + 1].line) else None))
  }

  /** What one more event does to the ranges. */
  function Record(ranges: seq<Range>, e: Event): Option<seq<Range>> {
    var open := ranges != [] && ranges[|ranges| - 1].end.None?;
    if e.isStart then
      if open then None else Some(ranges + [Range(e.line, None)])
    else
      if !open then None
      else Some(ranges[|ranges| - 1 := Range(ranges[|ranges| - 1].start, Some(e.line))])
  }

  lemma RecordAlternates(events: seq<Event>, e: Event)
    requires Alternates(events)
    ensures Alternates(events + [e]) <==> Record(RangesOf(events), e).Some?
    ensures Alternates(events + [e]) ==> Record(RangesOf(events), e).value == RangesOf(events + [e])
  {
    var n := |events|;
    var more := events + [e];
    assert Alternates(more) <==> e.isStart == (n % 2 == 0) by {
      if e.isStart == (n % 2 == 0) {
        forall k | 0 <= k < |more| ensures more[k].isStart == (k % 2 == 0) { if k < n { assert more[k] == events[k]; } }
      } else {
        assert more[n] == e;
      }
    }
    if n % 2 == 0 {
      assert n > 0 ==> RangesOf(events)[|RangesOf(events)| - 1].end.Some?;
    } else {
      assert RangesOf(events)[|RangesOf(events)| - 1].end.None?;
    }
  }

  /** The events of `c` in the first `n` lines and among the first `j` checks of the next one. */
  function EventsUpTo(lines: seq<Line>, n: nat, j: nat, c: Check): seq<Event>
    requires n < |lines| && (lines[n].Start? || lines[n].End?) && j <= |lines[n].checks|
  {
    Events(lines, n, c) + Occurrences(lines[n].checks, j, c, Event(n + 1, lines[n].Start?))
  }

  lemma {:induction false} EventsGrow(lines: seq<Line>, n: nat, m: nat, c: Check)
    requires n <= m <= |lines|
    ensures Events(lines, n, c) <= Events(lines, m, c)
  {
    if m <= n {
    } else {
      EventsGrow(lines, n, m - 1, c);
    }
  }

  lemma {:induction false} OccurrencesGrow(checks: seq<Check>, j: nat, k: nat, c: Check, e: Event)
    requires j <= k <= |checks|
    ensures Occurrences(checks, j, c, e) <= Occurrences(checks, k, c, e)
  {
    if k <= j {
    } else {
      OccurrencesGrow(checks, j, k - 1, c, e);
    }
  }

  lemma PrefixAlternates(p: seq<Event>, q: seq<Event>)
    requires p <= q && Alternates(q)
    ensures Alternates(p)
  {
    forall k | 0 <= k < |p| ensures p[k].isStart == (k % 2 == 0) { assert p[k] == q[k]; }
  }

  // ---------------------------------------------------------------------------------------
  // The parser

  function RangesFor(m: map<Check, seq<Range>>, c: Check): seq<Range> {
    if c in m then m[c] else []
  }

  predicate Matches(m: map<Check, seq<Range>>, c: Check, events: seq<Event>) {
    Alternates(events) && RangesFor(m, c) == RangesOf(events)
  }

  /** The table holds the ranges of the first `n` lines. */
  ghost predicate Holds(m: map<Check, seq<Range>>, lines: seq<Line>, n: nat)
    requires n <= |lines|
  {
    forall c :: Matches(m, c, Events(lines, n, c))
  }

  ghost predicate HoldsUpTo(m: map<Check, seq<Range>>, lines: seq<Line>, n: nat, j: nat)
    requires n < |lines| && (lines[n].Start? || lines[n].End?) && j <= |lines[n].checks|
  {
    forall c :: Matches(m, c, EventsUpTo(lines, n, j, c))
  }

  lemma RecordStep(m: map<Check, seq<Range>>, lines: seq<Line>, n: nat, j: nat)
    requires n < |lines| && (lines[n].Start? || lines[n].End?) && j < |lines[n].checks|
    requires HoldsUpTo(m, lines, n, j)
    ensures var c := lines[n].checks[j];
      match Record(RangesFor(m, c), Event(n + 1, lines[n].Start?))
      case Some(r) => HoldsUpTo(m[c := r], lines, n, j + 1)
      case None => !Alternates(Events(lines, |lines|, c))
  {
    var c, e := lines[n].checks[j], Event(n + 1, lines[n].Start?);
    var before := EventsUpTo(lines, n, j, c);
    assert EventsUpTo(lines, n, j + 1, c) == before + [e];
    assert Matches(m, c, before);
    RecordAlternates(before, e);
    var r := Record(RangesFor(m, c), e);
    if r.Some? {
      OthersKeep(m, r.value, lines, n, j);
    } else {
      NotAlternating(lines, n, j + 1, c);
    }
  }

  lemma OthersKeep(m: map<Check, seq<Range>>, r: seq<Range>, lines: seq<Line>, n: nat, j: nat)
    requires n < |lines| && (lines[n].Start? || lines[n].End?) && j < |lines[n].checks|
    requires HoldsUpTo(m, lines, n, j)
    requires Matches(m[lines[n].checks[j] := r], lines[n].checks[j], EventsUpTo(lines, n, j + 1, lines[n].checks[j]))
    ensures HoldsUpTo(m[lines[n].checks[j] := r], lines, n, j + 1)
  {
    var c, next := lines[n].checks[j], j + 1;
    var m' := m[c := r];
    forall d: Check ensures Matches(m', d, EventsUpTo(lines, n, next, d)) {
      if d != c { OtherKeeps(m, r, lines, n, j, d); }
    }
  }

  lemma OtherKeeps(m: map<Check, seq<Range>>, r: seq<Range>, lines: seq<Line>, n: nat, j: nat, d: Check)
    requires n < |lines| && (lines[n].Start? || lines[n].End?) && j < |lines[n].checks| && d != lines[n].checks[j]
    requires Matches(m, d, EventsUpTo(lines, n, j, d))
    ensures Matches(m[lines[n].checks[j] := r], d, EventsUpTo(lines, n, j + 1, d))
  {
    var e := Event(n + 1, lines[n].Start?);
    assert Occurrences(lines[n].checks, j + 1, d, e) == Occurrences(lines[n].checks, j, d, e) + [];
    assert EventsUpTo(lines, n, j + 1, d) == EventsUpTo(lines, n, j, d);
    assert RangesFor(m[lines[n].checks[j] := r], d) == RangesFor(m, d);
  }

  lemma UpToGrows(lines: seq<Line>, n: nat, j: nat, c: Check)
    requires n < |lines| && (lines[n].Start? || lines[n].End?) && j <= |lines[n].checks|
    ensures EventsUpTo(lines, n, j, c) <= Events(lines, n + 1, c)
  {
    var e := Event(n + 1, lines[n].Start?);
    OccurrencesGrow(lines[n].checks, j, |lines[n].checks|, c, e);
    PrefixAppends(Events(lines, n, c), Occurrences(lines[n].checks, j, c, e), EventsOfLine(lines[n], n + 1, c));
  }

  lemma PrefixAppends(a: seq<Event>, b: seq<Event>, c: seq<Event>)
    requires b <= c
    ensures a + b <= a + c
  {
    assert c == b + c[|b|..];
    assert a + c == (a + b) + c[|b|..];
  }

  lemma NotAlternating(lines: seq<Line>, n: nat, j: nat, c: Check)
    requires n < |lines| && (lines[n].Start? || lines[n].End?) && j <= |lines[n].checks|
    requires !Alternates(EventsUpTo(lines, n, j, c))
    ensures !Alternates(Events(lines, |lines|, c))
  {
    var p, q, r := EventsUpTo(lines, n, j, c), Events(lines, n + 1, c), Events(lines, |lines|, c);
    UpToGrows(lines, n, j, c);
    EventsGrow(lines, n + 1, |lines|, c);
    if Alternates(r) {
      PrefixAlternates(q, r);
      PrefixAlternates(p, q);
    }
  }

  /** The checks of one comment line; fails at the first start inside an open range, or end outside of one. */
  method RecordChecks(m: map<Check, seq<Range>>, lines: seq<Line>, n: nat, checks: seq<Check>, isStart: bool)
    returns (recorded: Option<map<Check, seq<Range>>>)
    requires n < |lines| && lines[n] == (if isStart then Start(checks) else End(checks))
    requires Holds(m, lines, n)
    ensures recorded.Some? ==> Holds(recorded.value, lines, n + 1)
    ensures recorded.None? ==> exists c :: !Alternates(Events(lines, |lines|, c))
  {
    BeforeChecks(m, lines, n);
    var ranges := m;
    for j := 0 to |checks|
      invariant HoldsUpTo(ranges, lines, n, j)
    {
      var check := checks[j];
      RecordStep(ranges, lines, n, j);
      var updated := RecordOne(RangesFor(ranges, check), n + 1, isStart);
      if updated.None? { return None; }
      ranges := ranges[check := updated.value];
    }
    AfterChecks(ranges, lines, n);
    recorded := Some(ranges);
  }

  method RecordOne(vals: seq<Range>, lineNumber: nat, isStart: bool) returns (updated: Option<seq<Range>>)
    ensures updated == Record(vals, Event(lineNumber, isStart))
  {
    if isStart {
      if |vals| == 0 || vals[|vals| - 1].end.Some? {
        // no range of this check is open
        return Some(vals + [Range(lineNumber, None)]);
      }
      return None;
    }
    if |vals| == 0 || vals[|vals| - 1].end.Some? {
      return None;
    }
    return Some(vals[|vals| - 1 := Range(vals[|vals| - 1].start, Some(lineNumber))]);
  }

  lemma BeforeChecks(m: map<Check, seq<Range>>, lines: seq<Line>, n: nat)
    requires n < |lines| && (lines[n].Start? || lines[n].End?) && Holds(m, lines, n)
    ensures HoldsUpTo(m, lines, n, 0)
  {
    forall c: Check ensures Matches(m, c, EventsUpTo(lines, n, 0, c)) {
      assert EventsUpTo(lines, n, 0, c) == Events(lines, n, c);
    }
  }

  lemma AfterChecks(m: map<Check, seq<Range>>, lines: seq<Line>, n: nat)
    requires n < |lines| && (lines[n].Start? || lines[n].End?) && HoldsUpTo(m, lines, n, |lines[n].checks|)
    ensures Holds(m, lines, n + 1)
  {
    var next, all := n + 1, |lines[n].checks|;
    forall c: Check ensures Matches(m, c, Events(lines, next, c)) {
      assert EventsUpTo(lines, n, all, c) == Events(lines, next, c);
    }
  }

  // ---------------------------------------------------------------------------------------
  // What the ranges suppress

  /** The line-by-line flag before line `n`: the last start or end of `c` on an earlier line was a start. */
  function OnBefore(lines: seq<Line>, n: nat, c: Check): bool
    requires n <= |lines|
  {
    if n == 0 then false
    else match lines[n - 1]
      case Start(checks) => c in checks || OnBefore(lines, n - 1, c)
      case End(checks) => c !in checks && OnBefore(lines, n - 1, c)
      case _ => OnBefore(lines, n - 1, c)
  }

  /** The flag on line `l`: switched on by an earlier line, and not switched off by this one. */
  predicate On(lines: seq<Line>, l: nat, c: Check)
    requires l >= 1
  {
    if l > |lines| then OnBefore(lines, |lines|, c)
    else OnBefore(lines, l - 1, c) && !(lines[l - 1].End? && c in lines[l - 1].checks)
  }

  /** The whole finding lies strictly inside a range. */
  predicate Suppressed(ranges: seq<Range>, lo: nat, hi: nat) {
    exists k :: 0 <= k < |ranges| && ranges[k].start < lo && (ranges[k].end.None? || ranges[k].end.value > hi)
  }

  lemma {:induction false} OccurrencesOf(checks: seq<Check>, j: nat, c: Check, e: Event)
    requires j <= |checks|
    ensures c in checks[..j] <==> Occurrences(checks, j, c, e) != []
    ensures forall k :: 0 <= k < |Occurrences(checks, j, c, e)| ==> Occurrences(checks, j, c, e)[k] == e
  {
    if j == 0 {
    } else {
      OccurrencesOf(checks, j - 1, c, e);
      assert checks[..j] == checks[..j - 1] + [checks[j - 1]];
    }
  }

  /** In alternating events no line repeats a check, and the flag is their parity. */
  lemma {:induction false} EventsOfLines(lines: seq<Line>, n: nat, c: Check)
    requires n <= |lines| && Alternates(Events(lines, n, c))
    ensures Ordered(Events(lines, n, c), n)
    ensures OnBefore(lines, n, c) == IsOdd(|Events(lines, n, c)|)
  {
    if n == 0 {
    } else {
      var before := Events(lines, n - 1, c);
      PrefixAlternates(before, Events(lines, n, c));
      EventsOfLines(lines, n - 1, c);
      OneEvent(lines[n - 1], n, c, before);
      OrderedAppend(before, n, EventsOfLine(lines[n - 1], n, c));
      FlagNext(lines, n, c, |before|);
    }
  }

  predicate IsOdd(n: nat) {
    n % 2 == 1
  }

  lemma FlagNext(lines: seq<Line>, n: nat, c: Check, m: nat)
    requires 0 < n <= |lines| && m == |Events(lines, n - 1, c)| && OnBefore(lines, n - 1, c) == IsOdd(m)
    requires var line := lines[n - 1];
      var named := (line.Start? || line.End?) && c in line.checks;
      |EventsOfLine(line, n, c)| == (if named then 1 else 0) && (named ==> line.Start? == !IsOdd(m))
    ensures OnBefore(lines, n, c) == IsOdd(|Events(lines, n, c)|)
  {
    assert IsOdd(m + 1) == !IsOdd(m);
  }

  /** After events that alternate a line has at most one, a start when the flag is off or an end when it is on. */
  lemma OneEvent(line: Line, n: nat, c: Check, before: seq<Event>)
    requires Alternates(before + EventsOfLine(line, n, c))
    ensures EventsOfLine(line, n, c)
      == if (line.Start? || line.End?) && c in line.checks then [Event(n, !IsOdd(|before|))] else []
    ensures (line.Start? || line.End?) && c in line.checks ==> line.Start? == !IsOdd(|before|)
  {
    match line
    case Start(checks) => LineHasOneEvent(before, checks, c, Event(n, true));
    case End(checks) => LineHasOneEvent(before, checks, c, Event(n, false));
    case _ =>
  }

  /** The events are on the first `n` lines, each on a later one than the event before. */
  predicate Ordered(ev: seq<Event>, n: nat) {
    && (forall k :: 0 <= k < |ev| ==> 1 <= ev[k].line <= n)
    && (forall j, k :: 0 <= j < k < |ev| ==> ev[j].line < ev[k].line)
  }

  lemma OrderedAppend(before: seq<Event>, n: nat, line: seq<Event>)
    requires n >= 1 && Ordered(before, n - 1)
    requires line == [] || (|line| == 1 && line[0].line == n)
    ensures Ordered(before + line, n)
  {
  }

  lemma LineHasOneEvent(before: seq<Event>, checks: seq<Check>, c: Check, e: Event)
    requires Alternates(before + Occurrences(checks, |checks|, c, e))
    ensures var line := Occurrences(checks, |checks|, c, e);
      if c in checks then line == [e] && e.isStart == (|before| % 2 == 0) else line == []
  {
    var line := Occurrences(checks, |checks|, c, e);
    OccurrencesOf(checks, |checks|, c, e);
    assert checks[..|checks|] == checks;
    Shift(before, line);
    if |line| > 1 {
      AllSame(line, e);
    }
    assert |line| == 1 ==> line == [line[0]];
  }

  lemma AllSame(line: seq<Event>, e: Event)
    requires |line| > 1 && forall k :: 0 <= k < |line| ==> line[k] == e
    ensures line[0].isStart == line[1].isStart
  {
  }

  lemma Shift(before: seq<Event>, line: seq<Event>)
    requires Alternates(before + line)
    ensures forall k :: 0 <= k < |line| ==> line[k].isStart == ((|before| + k) % 2 == 0)
  {
    forall k | 0 <= k < |line| ensures line[k].isStart == ((|before| + k) % 2 == 0) {
      assert (before + line)[|before| + k] == line[k];
    }
  }

  /** Line `l` lies inside range `k` of the events. */
  predicate Inside(events: seq<Event>, k: nat, l: nat) {
    2 * k < |events| && events[2 * k].line < l && (2 * k + 1 < |events| ==> events[2 * k + 1].line > l)
  }

  lemma {:induction false} EventsAfter(lines: seq<Line>, n: nat, m: nat, c: Check)
    requires n <= m <= |lines|
    ensures |Events(lines, n, c)| <= |Events(lines, m, c)|
    ensures forall k :: |Events(lines, n, c)| <= k < |Events(lines, m, c)| ==> Events(lines, m, c)[k].line > n
  {
    if m <= n {
    } else {
      EventsAfter(lines, n, m - 1, c);
      match lines[m - 1]
      case Start(checks) => OccurrencesOf(checks, |checks|, c, Event(m, true));
      case End(checks) => OccurrencesOf(checks, |checks|, c, Event(m, false));
      case _ =>
    }
  }

  /** The first `p` events lie before line `l`, and no other does. */
  predicate SplitAt(ev: seq<Event>, p: nat, l: nat) {
    && p <= |ev|
    && (forall k :: 0 <= k < p ==> ev[k].line < l)
    && (forall k :: p <= k < |ev| ==> ev[k].line >= l)
  }

  /** The flag on a line is the parity of the events before it, unless the line itself ends the range. */
  lemma OnByParity(lines: seq<Line>, l: nat, c: Check) returns (p: nat)
    requires l >= 1 && Alternates(Events(lines, |lines|, c))
    ensures var ev := Events(lines, |lines|, c);
      SplitAt(ev, p, l) && (On(lines, l, c) <==> p % 2 == 1 && (p < |ev| ==> ev[p].line != l))
  {
    var ev := Events(lines, |lines|, c);
    var n := if l > |lines| then |lines| else l - 1;
    var before := Events(lines, n, c);
    p := |before|;
    EventsGrow(lines, n, |lines|, c);
    EventsAfter(lines, n, |lines|, c);
    PrefixAlternates(before, ev);
    EventsOfLines(lines, n, c);
    assert forall k :: 0 <= k < p ==> ev[k] == before[k];
    if l <= |lines| && p % 2 == 1 { EndOnLine(lines, l, c, ev, p); }
  }

  lemma InsideByParity(ev: seq<Event>, p: nat, l: nat)
    requires SplitAt(ev, p, l) && forall i, j :: 0 <= i < j < |ev| ==> ev[i].line < ev[j].line
    ensures p % 2 == 1 && (p < |ev| ==> ev[p].line != l) ==> Inside(ev, p / 2, l)
    ensures (exists k: nat :: Inside(ev, k, l)) ==> p % 2 == 1 && (p < |ev| ==> ev[p].line != l)
  {
    if p % 2 == 1 { assert p == 2 * (p / 2) + 1; }
    if k: nat :| Inside(ev, k, l) {
      assert 2 * k < p;
      if 2 * k + 1 < |ev| { assert 2 * k + 1 >= p; }
      assert p == 2 * k + 1;
    }
  }

  /** The flag is on exactly inside the ranges. */
  lemma OnIsInside(lines: seq<Line>, l: nat, c: Check)
    requires l >= 1 && Alternates(Events(lines, |lines|, c))
    ensures On(lines, l, c) <==> exists k: nat :: Inside(Events(lines, |lines|, c), k, l)
  {
    EventsOfLines(lines, |lines|, c);
    var p := OnByParity(lines, l, c);
    InsideByParity(Events(lines, |lines|, c), p, l);
  }

  lemma EndOnLine(lines: seq<Line>, l: nat, c: Check, ev: seq<Event>, p: nat)
    requires 1 <= l <= |lines| && ev == Events(lines, |lines|, c) && Alternates(ev)
    requires p == |Events(lines, l - 1, c)| && p % 2 == 1
    ensures (lines[l - 1].End? && c in lines[l - 1].checks) <==> p < |ev| && ev[p].line == l
  {
    var before, upto, line := Events(lines, l - 1, c), Events(lines, l, c), EventsOfLine(lines[l - 1], l, c);
    EventsGrow(lines, l, |lines|, c);
    EventsAfter(lines, l, |lines|, c);
    PrefixAlternates(upto, ev);
    OneEvent(lines[l - 1], l, c, before);
    assert |line| <= 1 && |upto| == p + |line|;
    if |line| == 1 { assert ev[p] == upto[p] == line[0]; }
  }

  lemma RangesInside(ev: seq<Event>, lo: nat, hi: nat)
    requires lo <= hi
    ensures Suppressed(RangesOf(ev), lo, hi) <==> exists k: nat :: InsideBoth(ev, k, lo, hi)
  {
    var ranges := RangesOf(ev);
    if k: nat :| k < |ranges| && ranges[k].start < lo && (ranges[k].end.None? || ranges[k].end.value > hi) {
      assert InsideBoth(ev, k, lo, hi);
    }
    if k: nat :| InsideBoth(ev, k, lo, hi) {
      assert k < |ranges| && ranges[k].start < lo && (ranges[k].end.None? || ranges[k].end.value > hi);
    }
  }

  predicate InsideBoth(ev: seq<Event>, k: nat, lo: nat, hi: nat) {
    2 * k < |ev| && ev[2 * k].line < lo && (2 * k + 1 < |ev| ==> ev[2 * k + 1].line > hi)
  }

  /** A range that does not hold all of `lo..hi` ends on one of those lines, where the flag is off. */
  lemma OffAtTheEnd(lines: seq<Line>, c: Check, k: nat, lo: nat, hi: nat)
    requires 1 <= lo <= hi && Alternates(Events(lines, |lines|, c))
    requires Inside(Events(lines, |lines|, c), k, lo) && !InsideBoth(Events(lines, |lines|, c), k, lo, hi)
    ensures exists l :: lo <= l <= hi && !On(lines, l, c)
  {
    var ev := Events(lines, |lines|, c);
    EventsOfLines(lines, |lines|, c);
    var e := ev[2 * k + 1].line;
    var p := OnByParity(lines, e, c);
    assert p == 2 * k + 1;
    assert !On(lines, e, c);
  }

  /** A finding is suppressed exactly when the flag is on at every one of its lines. */
  lemma SuppressedIsOnThroughout(lines: seq<Line>, lo: nat, hi: nat, c: Check)
    requires 1 <= lo <= hi && Alternates(Events(lines, |lines|, c))
    ensures Suppressed(RangesOf(Events(lines, |lines|, c)), lo, hi) <==> forall l :: lo <= l <= hi ==> On(lines, l, c)
  {
    var ev := Events(lines, |lines|, c);
    RangesInside(ev, lo, hi);
    if k: nat :| InsideBoth(ev, k, lo, hi) {
      forall l | lo <= l <= hi ensures On(lines, l, c) {
        assert Inside(ev, k, l);
        OnIsInside(lines, l, c);
      }
    } else {
      OnIsInside(lines, lo, c);
      if k: nat :| Inside(ev, k, lo) { OffAtTheEnd(lines, c, k, lo, hi); }
    }
  }

  /** The ranges of a check are ordered and disjoint. */
  lemma RangesAreDisjoint(lines: seq<Line>, c: Check)
    requires Alternates(Events(lines, |lines|, c))
    ensures var r := RangesOf(Events(lines, |lines|, c));
      && (forall k :: 0 <= k < |r| && r[k].end.Some? ==> r[k].start < r[k].end.value)
      && (forall j, k :: 0 <= j < k < |r| ==> r[j].end.Some? && r[j].end.value < r[k].start)
  {
    EventsOfLines(lines, |lines|, c);
  }

  // ---------------------------------------------------------------------------------------
  // The object

  type File = nat

  /** The place of one reported element: consecutive lines, or none at all. */
  datatype Element = Element(file: File, lines: seq<nat>)

  predicate WellFormed(e: Element) {
    forall i :: 0 <= i < |e.lines| ==> e.lines[i] == e.lines[0] + i && e.lines[i] >= 1
  }

  predicate ThroughoutOn(source: seq<Line>, e: Element, c: Check)
    requires WellFormed(e)
  {
    forall l :: l in e.lines ==> On(source, l, c)
  }

  /** The comment on line `l`, if there is such a line, asks to ignore the next one. */
  predicate AsksForNext(source: seq<Line>, l: int, c: Check) {
    1 <= l <= |source| && source[l - 1].NextLine? && (c in source[l - 1].checks || All in source[l - 1].checks)
  }

  /** What the comments ask for, read line by line. */
  predicate Ignored(source: seq<Line>, e: Element, c: Check)
    requires WellFormed(e)
  {
    e.lines != [] && (ThroughoutOn(source, e, c) || ThroughoutOn(source, e, All) || AsksForNext(source, e.lines[0] - 1, c))
  }

  lemma RangesIgnore(source: seq<Line>, e: Element, c: Check)
    requires WellFormed(e) && e.lines != [] && Alternates(Events(source, |source|, c))
    ensures Suppressed(RangesOf(Events(source, |source|, c)), e.lines[0], e.lines[|e.lines| - 1])
      <==> ThroughoutOn(source, e, c)
  {
    var lo, hi := e.lines[0], e.lines[|e.lines| - 1];
    SuppressedIsOnThroughout(source, lo, hi, c);
    forall l: nat ensures lo <= l <= hi <==> l in e.lines {
      if lo <= l <= hi { assert e.lines[l - lo] == l; }
    }
  }

  class SlitherCore {
    var ignoreRanges: map<File, map<Check, seq<Range>>>

    constructor ()
      ensures ignoreRanges == map[]
    {
      ignoreRanges := map[];
    }

    /** The table holds the whole of a file. */
    ghost predicate Parsed(file: File, lines: seq<Line>)
      reads this
    {
      file in ignoreRanges && Holds(ignoreRanges[file], lines, |lines|)
    }

    /** Called the first time a file is seen. */
    method ParseIgnoreComments(file: File, lines: seq<Line>) returns (ok: bool)
      requires file !in ignoreRanges
      modifies this
      ensures ok <==> forall c :: Alternates(Events(lines, |lines|, c))
      ensures ok ==> Parsed(file, lines)
      ensures ignoreRanges.Keys == old(ignoreRanges.Keys) + {file} && ignoreRanges - {file} == old(ignoreRanges)
    {
      ignoreRanges := ignoreRanges[file := map[]];
      for n := 0 to |lines|
        invariant ignoreRanges.Keys == old(ignoreRanges.Keys) + {file} && ignoreRanges - {file} == old(ignoreRanges)
        invariant Holds(ignoreRanges[file], lines, n)
      {
        match lines[n] {
          case Start(checks) =>
            var recorded := RecordChecks(ignoreRanges[file], lines, n, checks, true);
            if recorded.None? { return false; }
            ignoreRanges := ignoreRanges[file := recorded.value];
          case End(checks) =>
            var recorded := RecordChecks(ignoreRanges[file], lines, n, checks, false);
            if recorded.None? { return false; }
            ignoreRanges := ignoreRanges[file := recorded.value];
          case _ =>
            assert forall c :: Events(lines, n + 1, c) == Events(lines, n, c);
        }
      }
      ok := true;
    }

    /** True exactly when the comments of a file, read line by line, ask to ignore one of the elements. */
    method HasIgnoreComment(check: Check, elements: seq<Element>, source: map<File, seq<Line>>) returns (ignored: bool)
      requires forall e :: e in elements ==> WellFormed(e) && e.file in source && Parsed(e.file, source[e.file])
      ensures ignored <==> exists e ::
        e in elements && e.lines != []
        && (ThroughoutOn(source[e.file], e, check) || ThroughoutOn(source[e.file], e, All)
            || AsksForNext(source[e.file], e.lines[0] - 1, check))
    {
      for i := 0 to |elements|
        invariant forall j :: 0 <= j < i ==> !Ignored(source[elements[j].file], elements[j], check)
      {
        var e := elements[i];
        if |e.lines| > 0 {
          var lines, ranges := source[e.file], ignoreRanges[e.file];
          assert Matches(ranges, check, Events(lines, |lines|, check)) && Matches(ranges, All, Events(lines, |lines|, All));
          RangesIgnore(lines, e, check);
          RangesIgnore(lines, e, All);
          var inRange := AnyAround(RangesFor(ranges, check) + RangesFor(ranges, All), e.lines[0], e.lines[|e.lines| - 1]);
          SuppressedByEither(RangesFor(ranges, check), RangesFor(ranges, All), e.lines[0], e.lines[|e.lines| - 1]);
          if inRange { return true; }
          var index := e.lines[0] - 1;
          if 1 <= index <= |lines| && lines[index - 1].NextLine? {
            if All in lines[index - 1].checks || check in lines[index - 1].checks { return true; }
          }
        }
      }
      ignored := false;
    }
  }

  method AnyAround(ranges: seq<Range>, first: nat, last: nat) returns (found: bool)
    ensures found <==> Suppressed(ranges, first, last)
  {
    for k := 0 to |ranges|
      invariant !Suppressed(ranges[..k], first, last)
    {
      if ranges[k].start < first && (ranges[k].end.None? || ranges[k].end.value > last) { return true; }
    }
    assert ranges[..|ranges|] == ranges;
    found := false;
  }

  lemma SuppressedByEither(a: seq<Range>, b: seq<Range>, lo: nat, hi: nat)
    ensures Suppressed(a + b, lo, hi) <==> Suppressed(a, lo, hi) || Suppressed(b, lo, hi)
  {
    if k :| 0 <= k < |b| && b[k].start < lo && (b[k].end.None? || b[k].end.value > hi) { assert (a + b)[|a| + k] == b[k]; }
    if k :| 0 <= k < |a| && a[k].start < lo && (a[k].end.None? || a[k].end.value > hi) { assert (a + b)[k] == a[k]; }
  }
}
