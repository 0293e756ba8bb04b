/** Sorting strings by code point. */
module StringOrder {

  predicate Less(a: string, b: string) {
    b != [] && (a == [] || a[0] < b[0] || (a[0] == b[0] && Less(a[1..], b[1..])))
  }

  /** Strings are compared at the first position where they differ; a proper prefix comes first. */
  lemma {:induction false} LessExactly(a: string, b: string)
    ensures Less(a, b) <==> a != b && exists k: nat :: IsFirstDifference(a, b, k) && (k == |a| || (k < |b| && a[k] < b[k]))
  {
    if a == [] || b == [] || a[0] != b[0] {
      assert IsFirstDifference(a, b, 0);
      forall k: nat | IsFirstDifference(a, b, k) ensures k == 0 {
        if k > 0 { SameStart(a, b, k); }
      }
    } else {
      LessExactly(a[1..], b[1..]);
      assert a == [a[0]] + a[1..] && b == [b[0]] + b[1..];
      if k: nat :| IsFirstDifference(a[1..], b[1..], k) && (k == |a[1..]| || (k < |b[1..]| && a[1..][k] < b[1..][k])) {
        DifferenceInTail(a, b, k + 1);
      }
      if k: nat :| IsFirstDifference(a, b, k) && (k == |a| || (k < |b| && a[k] < b[k])) {
        DifferenceInTail(a, b, k);
      }
    }
  }

  /** `a` and `b` agree up to `k`, and not at `k`, where one of them may end. */
  predicate IsFirstDifference(a: string, b: string, k: nat) {
    k <= |a| && k <= |b| && a[..k] == b[..k] && (k == |a| || k == |b| || a[k] != b[k])
  }

  lemma SameStart(a: string, b: string, k: nat)
    requires k > 0 && IsFirstDifference(a, b, k)
    ensures a != [] && b != [] && a[0] == b[0]
  {
    assert a[..k][0] == a[0] && b[..k][0] == b[0];
  }

  lemma DifferenceInTail(a: string, b: string, k: nat)
    requires a != [] && b != [] && a[0] == b[0] && k > 0
    ensures IsFirstDifference(a, b, k) <==> IsFirstDifference(a[1..], b[1..], k - 1)
  {
    if k <= |a| && k <= |b| {
      assert a[..k] == [a[0]] + a[1..][..k - 1] && b[..k] == [b[0]] + b[1..][..k - 1];
      assert a[..k][1..] == a[1..][..k - 1] && b[..k][1..] == b[1..][..k - 1];
    }
  }

  predicate Increasing(s: seq<string>) {
    forall i, k :: 0 <= i < k < |s| ==> Less(s[i], s[k])
  }

  lemma {:induction false} LessTotal(a: string, b: string)
    ensures a == b || Less(a, b) || Less(b, a)
  {
    if a == [] || b == [] || a[0] != b[0] {
    } else {
      LessTotal(a[1..], b[1..]);
      assert a == [a[0]] + a[1..] && b == [b[0]] + b[1..];
    }
  }

  lemma {:induction false} LessTransitive(a: string, b: string, c: string)
    requires Less(a, b) && Less(b, c)
    ensures Less(a, c)
  {
    if a == [] || a[0] != b[0] || b[0] != c[0] {
    } else {
      LessTransitive(a[1..], b[1..], c[1..]);
    }
  }

  predicate IsLeast(m: string, s: set<string>) {
    m in s && forall x :: x in s && x != m ==> Less(m, x)
  }

  method LeastOf(s: set<string>) returns (m: string)
    requires s != {}
    ensures IsLeast(m, s)
  {
    m :| m in s;
    var rest := s - {m};
    while rest != {}
      invariant rest <= s && IsLeast(m, s - rest)
      decreases |rest|
    {
      var x :| x in rest;
      LessTotal(m, x);
      if Less(x, m) {
        forall y | y in s - rest && y != m ensures Less(x, y) { LessTransitive(x, m, y); }
        m := x;
      }
      rest := rest - {x};
    }
    assert s - rest == s;
  }

  method Sorted(s: set<string>) returns (keys: seq<string>)
    ensures Increasing(keys) && forall x :: x in keys <==> x in s
  {
    keys := [];
    var rest := s;
    while rest != {}
      invariant rest <= s && Increasing(keys)
      invariant forall x :: x in keys <==> x in s - rest
      invariant forall x, y :: x in keys && y in rest ==> Less(x, y)
      decreases |rest|
    {
      var m := LeastOf(rest);
      assert forall k :: 0 <= k < |keys| ==> keys[k] in keys;
      keys := keys + [m];
      rest := rest - {m};
    }
  }
}

/** Contract profiles, their snapshots, and the difference between the last two. */
module ProfileStore {
  import opened FlatJson
  import opened Options
  import opened StringOrder

  datatype Row = Row(profile: Json, updatedAt: nat, lastAttempt: Option<nat>, lastError: Option<string>)

  /** The id of a snapshot is its position. */
  datatype Snapshot = Snapshot(address: string, profile: Json, createdAt: nat)

  datatype Change = Change(field: string, old_: string, new_: string)

  datatype Diff = Diff(changedCount: nat, fromAt: Option<nat>, toAt: Option<nat>, changes: seq<Change>)

  const NO_PROFILE := Obj([])

  function Lower(s: string): (r: string)
    ensures |r| == |s| && forall k :: 0 <= k < |s| ==>
      !('A' <= r[k] <= 'Z') && (r[k] == s[k] || ('A' <= s[k] <= 'Z' && r[k] as int == s[k] as int + 32))
  {
    seq(|s|, k requires 0 <= k < |s| => if 'A' <= s[k] <= 'Z' then s[k] - 'A' + 'a' else s[k])
  }

  /** The snapshots of one address, newest first. */
  function History(snapshots: seq<Snapshot>, address: string): seq<Snapshot> {
    if snapshots == [] then []
    else
      var last, earlier := snapshots[|snapshots| - 1], History(snapshots[..|snapshots| - 1], address);
      if last.address == address then [last] + earlier else earlier
  }

  /** `at` are positions of snapshots of one address, from the last one to the first, which hold `h`. */
  ghost predicate HeldAt(snapshots: seq<Snapshot>, address: string, at: seq<nat>, h: seq<Snapshot>) {
    && |at| == |h|
    && (forall i :: 0 <= i < |at| ==> at[i] < |snapshots| && snapshots[at[i]] == h[i] && h[i].address == address)
    && (forall i, k :: 0 <= i < k < |at| ==> at[i] > at[k])
  }

  /** No snapshot of the address is missing. */
  ghost predicate HoldsAll(snapshots: seq<Snapshot>, address: string, at: seq<nat>) {
    forall n: nat :: n < |snapshots| && snapshots[n].address == address ==> n in at
  }

  lemma HistoryMore(snapshots: seq<Snapshot>, address: string, at: seq<nat>, h: seq<Snapshot>)
    requires snapshots != [] && snapshots[|snapshots| - 1].address == address
    requires HeldAt(snapshots[..|snapshots| - 1], address, at, h)
    ensures HeldAt(snapshots, address, [|snapshots| - 1] + at, [snapshots[|snapshots| - 1]] + h)
  {
    var n: nat := |snapshots| - 1;
    var before, more := snapshots[..n], [n] + at;
    forall i | 0 <= i < |more|
      ensures more[i] < |snapshots| && snapshots[more[i]] == ([snapshots[n]] + h)[i]
    {
      if i > 0 { assert more[i] == at[i - 1] && before[at[i - 1]] == h[i - 1]; }
    }
  }

  lemma AllMore(snapshots: seq<Snapshot>, address: string, at: seq<nat>)
    requires snapshots != [] && HoldsAll(snapshots[..|snapshots| - 1], address, at)
    ensures HoldsAll(snapshots, address, [|snapshots| - 1] + at)
    ensures snapshots[|snapshots| - 1].address != address ==> HoldsAll(snapshots, address, at)
  {
    var n: nat := |snapshots| - 1;
    forall m: nat | m < n && snapshots[m].address == address ensures m in at && m in [n] + at {
      assert snapshots[..n][m] == snapshots[m];
    }
  }

  /** They are exactly the snapshots of that address, in the opposite order. */
  lemma {:induction false} HistoryExactly(snapshots: seq<Snapshot>, address: string) returns (at: seq<nat>)
    ensures HeldAt(snapshots, address, at, History(snapshots, address)) && HoldsAll(snapshots, address, at)
  {
    if snapshots == [] {
      at := [];
    } else {
      var n: nat := |snapshots| - 1;
      var earlier := HistoryExactly(snapshots[..n], address);
      AllMore(snapshots, address, earlier);
      if snapshots[n].address == address {
        at := [n] + earlier;
        HistoryMore(snapshots, address, earlier, History(snapshots[..n], address));
      } else {
        at := earlier;
      }
    }
  }

  /** `changes[:n]`; a negative `n` drops from the end. */
  function UpTo(changes: seq<Change>, n: int): seq<Change> {
    if n >= |changes| then changes
    else if n >= 0 then changes[..n]
    else if |changes| + n >= 0 then changes[..|changes| + n]
    else []
  }

  function TextIn(flat: map<string, string>, key: string): string {
    if key in flat then flat[key] else []
  }

  predicate IsChange(c: Change, before: map<string, string>, after: map<string, string>) {
    c.old_ == TextIn(before, c.field) && c.new_ == TextIn(after, c.field) && c.old_ != c.new_
  }

  predicate Lists(changes: seq<Change>, key: string) {
    exists k :: 0 <= k < |changes| && changes[k].field == key
  }

  /** `changes` is, in order, every key with different texts. */
  ghost predicate AllChanges(changes: seq<Change>, before: map<string, string>, after: map<string, string>) {
    && InOrder(changes)
    && (forall k :: 0 <= k < |changes| ==> IsChange(changes[k], before, after))
    && (forall key :: TextIn(before, key) != TextIn(after, key) ==> Lists(changes, key))
  }

  class Storage {
    var profiles: map<string, Row>
    var snapshots: seq<Snapshot>

    constructor ()
      ensures profiles == map[] && snapshots == [] && RowsAreNewest()
    {
      profiles, snapshots := map[], [];
    }

    /** A row holds the newest snapshot, or the empty profile if there is none. */
    predicate RowIsNewest(address: string)
      reads this
    {
      var h := History(snapshots, address);
      if h == [] then address in profiles ==> profiles[address].profile == NO_PROFILE
      else address in profiles && profiles[address].profile == h[0].profile
    }

    ghost predicate RowsAreNewest()
      reads this
    {
      forall address :: RowIsNewest(address)
    }

    method UpsertContractProfile(address: string, profile: Json, now: nat)
      requires RowsAreNewest()
      modifies this
      ensures RowsAreNewest()
      ensures snapshots == old(snapshots) + [Snapshot(Lower(address), profile, now)]
      ensures var a := Lower(address);
        profiles == old(profiles)[a := Row(profile, now, if a in old(profiles) then Some(now) else None, None)]
    {
      var key := Lower(address);
      ghost var before := snapshots;
      if key in profiles {
        profiles := profiles[key := Row(profile, now, Some(now), None)];
      } else {
        profiles := profiles[key := Row(profile, now, None, None)];
      }
      snapshots := snapshots + [Snapshot(key, profile, now)];
      assert snapshots[..|snapshots| - 1] == before;
      forall a: string ensures RowIsNewest(a) {
        assert old(RowIsNewest(a));
      }
    }

    method MarkProfileRefreshError(address: string, message: string, now: nat)
      requires RowsAreNewest()
      modifies this
      ensures RowsAreNewest() && snapshots == old(snapshots)
      ensures var a := Lower(address);
        profiles == old(profiles)[a :=
          if a in old(profiles) then old(profiles)[a].(lastAttempt := Some(now), lastError := Some(message))
          else Row(NO_PROFILE, now, Some(now), Some(message))]
    {
      var key := Lower(address);
      if key in profiles {
        profiles := profiles[key := profiles[key].(lastAttempt := Some(now), lastError := Some(message))];
      } else {
        profiles := profiles[key := Row(NO_PROFILE, now, Some(now), Some(message))];
      }
      forall a: string ensures RowIsNewest(a) {
        assert old(RowIsNewest(a));
      }
    }

    method ListProfileSnapshots(address: string, limit: int) returns (rows: seq<Snapshot>)
      ensures rows <= History(snapshots, Lower(address))
      ensures |rows| == if 0 <= limit < |History(snapshots, Lower(address))| then limit else |History(snapshots, Lower(address))|
    {
      var key := Lower(address);
      rows := [];
      var i: nat := |snapshots|;
      assert snapshots[..i] == snapshots;
      while i > 0 && (limit < 0 || |rows| < limit)
        invariant i <= |snapshots| && (limit >= 0 ==> |rows| <= limit)
        invariant rows + History(snapshots[..i], key) == History(snapshots, key)
      {
        i := i - 1;
        assert snapshots[..i + 1][..i] == snapshots[..i];
        ghost var earlier := History(snapshots[..i], key);
        if snapshots[i].address == key {
          assert rows + ([snapshots[i]] + earlier) == (rows + [snapshots[i]]) + earlier;
          rows := rows + [snapshots[i]];
        }
      }
    }

    /** The differences between the last two snapshots, in order of their paths, at most `maxChanges` of them. */
    method LatestProfileDiff(address: string, maxChanges: int) returns (diff: Diff)
      ensures var h := History(snapshots, Lower(address));
        if |h| < 2 then diff == Diff(0, None, if h == [] then None else Some(h[0].createdAt), [])
        else exists changes ::
          && AllChanges(changes, Flatten(h[1].profile, []), Flatten(h[0].profile, []))
          && diff == Diff(|changes|, Some(h[1].createdAt), Some(h[0].createdAt), diff.changes)
          && diff.changes <= changes
          && |diff.changes| == (if maxChanges >= |changes| then |changes|
                                else if maxChanges >= 0 then maxChanges
                                else if |changes| + maxChanges >= 0 then |changes| + maxChanges else 0)
    {
      var latest := ListProfileSnapshots(address, 2);
      if |latest| < 2 {
        return Diff(0, None, if latest == [] then None else Some(latest[0].createdAt), []);
      }
      var newest, previous := latest[0], latest[1];
      var flatNew := FlattenJson(newest.profile, []);
      var flatOld := FlattenJson(previous.profile, []);
      var changes := ChangesBetween(flatOld, flatNew);
      diff := Diff(|changes|, Some(previous.createdAt), Some(newest.createdAt), UpTo(changes, maxChanges));
    }
  }

  function ChangesOf(keys: seq<string>, before: map<string, string>, after: map<string, string>): seq<Change> {
    if keys == [] then []
    else
      var n, key := |keys| - 1, keys[|keys| - 1];
      ChangesOf(keys[..n], before, after)
      + (if TextIn(before, key) != TextIn(after, key) then [Change(key, TextIn(before, key), TextIn(after, key))] else [])
  }

  method ChangesBetween(flatOld: map<string, string>, flatNew: map<string, string>) returns (changes: seq<Change>)
    ensures AllChanges(changes, flatOld, flatNew)
  {
    var allKeys := Sorted(flatNew.Keys + flatOld.Keys);
    changes := [];
    for i := 0 to |allKeys|
      invariant changes == ChangesOf(allKeys[..i], flatOld, flatNew)
    {
      var key := allKeys[i];
      var before, after := TextIn(flatOld, key), TextIn(flatNew, key);
      assert allKeys[..i + 1][..i] == allKeys[..i];
      if before != after {
        changes := changes + [Change(key, before, after)];
      }
    }
    assert allKeys[..|allKeys|] == allKeys;
    ChangesInOrder(allKeys, flatOld, flatNew);
    forall k: nat | k < |changes| ensures IsChange(changes[k], flatOld, flatNew) {
      assert ChangeAt(changes, k, allKeys, flatOld, flatNew);
    }
    forall key | TextIn(flatOld, key) != TextIn(flatNew, key) ensures Lists(changes, key) {
      assert key in allKeys;
      ChangeIsListed(allKeys, flatOld, flatNew, key);
    }
  }

  predicate InOrder(changes: seq<Change>) {
    forall i, k :: 0 <= i < k < |changes| ==> Less(changes[i].field, changes[k].field)
  }

  predicate ChangeAt(changes: seq<Change>, k: nat, keys: seq<string>, before: map<string, string>, after: map<string, string>)
    requires k < |changes|
  {
    IsChange(changes[k], before, after) && changes[k].field in keys
  }

  lemma {:induction false} ChangesInOrder(keys: seq<string>, before: map<string, string>, after: map<string, string>)
    requires Increasing(keys)
    ensures InOrder(ChangesOf(keys, before, after))
    ensures forall k: nat :: k < |ChangesOf(keys, before, after)| ==>
      ChangeAt(ChangesOf(keys, before, after), k, keys, before, after)
  {
    if keys == [] {
    } else {
      var n := |keys| - 1;
      var earlier, changes := ChangesOf(keys[..n], before, after), ChangesOf(keys, before, after);
      ChangesInOrder(keys[..n], before, after);
      forall k: nat | k < |changes| ensures ChangeAt(changes, k, keys, before, after) {
        if k < |earlier| { assert ChangeAt(earlier, k, keys[..n], before, after); }
      }
      forall i, k | 0 <= i < k < |changes| ensures Less(changes[i].field, changes[k].field) {
        assert ChangeAt(earlier, i, keys[..n], before, after) && changes[i] == earlier[i];
        if k < |earlier| {
          assert changes[k] == earlier[k];
        } else {
          var m :| 0 <= m < n && keys[m] == changes[i].field;
          assert Less(keys[m], keys[n]);
        }
      }
    }
  }

  lemma {:induction false} ChangeIsListed(
    keys: seq<string>, before: map<string, string>, after: map<string, string>, key: string)
    requires key in keys && TextIn(before, key) != TextIn(after, key)
    ensures Lists(ChangesOf(keys, before, after), key)
  {
    var n := |keys| - 1;
    var earlier, changes := ChangesOf(keys[..n], before, after), ChangesOf(keys, before, after);
    if keys[n] == key {
      assert changes[|earlier|].field == key;
    } else {
      ChangeIsListed(keys[..n], before, after, key);
      var k :| 0 <= k < |earlier| && earlier[k].field == key;
      assert changes[k] == earlier[k];
    }
  }

  // ---------------------------------------------------------------------------------------
  // What a difference means

  /** What is shown of a leaf; an empty list or object shows as nothing, like no leaf at all. */
  function ShownAs(leaf: Option<Json>): string {
    match leaf
    case Some(v) => if IsScalar(v) then TextOf(v) else []
    case None => []
  }

  /** One side has no leaf, and the other one shows nothing: null, the empty string, or an empty list or object. */
  ghost predicate MissingOrEmpty(a: Json, b: Json, p: Path) {
    LeafOf(a, p).None? != LeafOf(b, p).None? && ShownAs(LeafOf(a, p)) == ShownAs(LeafOf(b, p)) == []
  }

  /** Two different leaves that show the same text, such as 1 and "1". */
  ghost predicate ShownAlike(a: Json, b: Json, p: Path) {
    && LeafOf(a, p).Some? && LeafOf(b, p).Some? && LeafOf(a, p) != LeafOf(b, p)
    && ShownAs(LeafOf(a, p)) == ShownAs(LeafOf(b, p))
  }

  /** The table of a profile holds what is shown. */
  lemma ShownInTable(j: Json, p: Path)
    requires Clean(j) && CleanPath(p)
    ensures TextIn(Flatten(j, []), Render(p)) == ShownAs(LeafOf(j, p))
  {
    var flat := Flatten(j, []);
    if Render(p) in flat {
      assert HasEntry(flat, Render(p), flat[Render(p)]);
      FlattenIsLeaves(j, p, flat[Render(p)]);
      var v :| LeafAt(j, p, v) && IsScalar(v) && TextOf(v) == flat[Render(p)];
      LeafOfIs(j, p, v);
    } else if LeafOf(j, p).Some? {
      LeafOfIs(j, p, LeafOf(j, p).value);
      FlattenIsLeaves(j, p, ShownAs(LeafOf(j, p)));
    }
  }

  /** A path is listed if and only if the clean profiles differ there, and not only in a way that is not
      shown: nothing against a leaf that shows nothing, or two leaves that show the same. */
  lemma DiffIsExact(before: Json, after: Json, changes: seq<Change>, p: Path)
    requires Clean(before) && Clean(after) && CleanPath(p)
    requires AllChanges(changes, Flatten(before, []), Flatten(after, []))
    ensures Lists(changes, Render(p)) <==> ShownAs(LeafOf(before, p)) != ShownAs(LeafOf(after, p))
    ensures Lists(changes, Render(p))
      <==> DifferAt(before, after, p) && !MissingOrEmpty(before, after, p) && !ShownAlike(before, after, p)
  {
    ShownInTable(before, p);
    ShownInTable(after, p);
  }

  /** If nothing is listed, the profiles are equal but for the order of keys if and only if there is no path
      where they differ in one of those two ways. */
  lemma NothingListed(before: Json, after: Json)
    requires Clean(before) && Clean(after) && AllChanges([], Flatten(before, []), Flatten(after, []))
    ensures Same(before, after)
      <==> forall p :: CleanPath(p) ==> !MissingOrEmpty(before, after, p) && !ShownAlike(before, after, p)
  {
    LeavesTellApart(before, after);
    forall p | CleanPath(p)
      ensures DifferAt(before, after, p) <==> MissingOrEmpty(before, after, p) || ShownAlike(before, after, p)
    {
      DiffIsExact(before, after, [], p);
    }
  }

  /** The profiles differ at the path, and nothing is listed for it. */
  ghost predicate Hidden(before: Json, after: Json, p: Path) {
    && Clean(before) && Clean(after) && CleanPath(p)
    && DifferAt(before, after, p)
    && TextIn(Flatten(before, []), Render(p)) == TextIn(Flatten(after, []), Render(p))
  }

  function Single(v: Json): Json {
    Obj([("a", v)])
  }

  lemma SingleLeaf(v: Json)
    requires IsLeaf(v)
    ensures Clean(Single(v)) && CleanPath([Key("a")]) && LeafOf(Single(v), [Key("a")]) == Some(v)
  {
    var j, p := Single(v), [Key("a")];
    assert Children(j)[0] == (Key("a"), v) && p[1..] == [];
    assert LeafBelow(j, 0, p, v);
    LeafOfIs(j, p, v);
  }

  /** Two leaves that show the same are taken for one. */
  lemma ShownAlikeIsHidden(v: Json, w: Json)
    requires IsLeaf(v) && IsLeaf(w) && v != w && ShownAs(Some(v)) == ShownAs(Some(w))
    ensures Hidden(Single(v), Single(w), [Key("a")])
  {
    SingleLeaf(v);
    SingleLeaf(w);
    ShownInTable(Single(v), [Key("a")]);
    ShownInTable(Single(w), [Key("a")]);
  }

  /** A number that becomes its own text is not listed, and neither is a null that becomes the empty string. */
  lemma NumberBecomesText(t: string)
    ensures Hidden(Single(Number(t)), Single(Str(t)), [Key("a")]) && Hidden(Single(Null), Single(Str([])), [Key("a")])
  {
    ShownAlikeIsHidden(Number(t), Str(t));
    ShownAlikeIsHidden(Null, Str([]));
  }

  /** A field that was null, or an empty list, and is gone is not listed. */
  lemma NullLooksMissing(v: Json)
    requires IsLeaf(v) && ShownAs(Some(v)) == []
    ensures Hidden(Single(v), Obj([]), [Key("a")])
  {
    SingleLeaf(v);
    ShownInTable(Single(v), [Key("a")]);
    ShownInTable(Obj([]), [Key("a")]);
  }
}
