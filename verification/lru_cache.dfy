/** The least-recently-used cache, and the cache of solver models built on it. */
module LruCache {
  import opened Options
  import opened Sequences

  // ---------------------------------------------------------------------------------------
  // Ordered dictionaries, oldest entry first

  predicate HasKey<K(==), V>(s: seq<(K, V)>, key: K) {
    exists i :: 0 <= i < |s| && s[i].0 == key
  }

  predicate Distinct<K(==), V>(s: seq<(K, V)>) {
    forall i, j :: 0 <= i < j < |s| ==> s[i].0 != s[j].0
  }

  function Without<K(==), V>(s: seq<(K, V)>, key: K): seq<(K, V)> {
    if s == [] then []
    else (if s[0].0 == key then [] else [s[0]]) + Without(s[1..], key)
  }

  /** `key` becomes the newest entry, with value `v`. */
  function Renewed<K(==), V>(s: seq<(K, V)>, key: K, v: V): seq<(K, V)> {
    Without(s, key) + [(key, v)]
  }

  /** The `n` newest entries. */
  function Newest<K, V>(s: seq<(K, V)>, n: nat): seq<(K, V)> {
    if |s| <= n then s else s[|s| - n..]
  }

  lemma {:induction false} WithoutAppend<K, V>(a: seq<(K, V)>, b: seq<(K, V)>, key: K)
    ensures Without(a + b, key) == Without(a, key) + Without(b, key)
  {
    if a == [] {
      assert a + b == b;
    } else {
      assert (a + b)[1..] == a[1..] + b;
      WithoutAppend(a[1..], b, key);
    }
  }

  lemma {:induction false} WithoutKeeps<K, V>(s: seq<(K, V)>, key: K)
    requires !HasKey(s, key)
    ensures Without(s, key) == s
  {
    if s == [] {
    } else {
      WithoutKeeps(s[1..], key);
    }
  }

  lemma {:induction false} WithoutAt<K, V>(s: seq<(K, V)>, i: nat)
    requires i < |s| && Distinct(s)
    ensures Without(s, s[i].0) == s[..i] + s[i + 1..]
  {
    if i == 0 {
      WithoutKeeps(s[1..], s[0].0);
      assert s[..0] + s[1..] == s[1..];
    } else {
      WithoutAt(s[1..], i - 1);
      assert s[1..][i..] == s[i + 1..];
      assert s[..i] == [s[0]] + s[1..][..i - 1];
    }
  }

  lemma WithoutLength<K, V>(s: seq<(K, V)>, key: K)
    requires Distinct(s) && HasKey(s, key)
    ensures |Without(s, key)| == |s| - 1
  {
    var i: nat :| i < |s| && s[i].0 == key;
    WithoutAt(s, i);
  }

  lemma NewestSplits<K, V>(s: seq<(K, V)>, n: nat) returns (older: seq<(K, V)>)
    ensures s == older + Newest(s, n) && (older != [] ==> |Newest(s, n)| == n)
  {
    older := s[..|s| - |Newest(s, n)|];
  }

  lemma RenewedDistinct<K, V>(s: seq<(K, V)>, key: K, v: V)
    requires Distinct(s)
    ensures Distinct(Renewed(s, key, v))
  {
    if i: nat :| i < |s| && s[i].0 == key {
      WithoutAt(s, i);
    } else {
      WithoutKeeps(s, key);
    }
  }

  lemma OnlyOnce<K, V>(older: seq<(K, V)>, recent: seq<(K, V)>, key: K)
    requires Distinct(older + recent) && HasKey(recent, key)
    ensures !HasKey(older, key)
  {
    var s := older + recent;
    var i: nat :| i < |recent| && recent[i].0 == key;
    assert s[|older| + i] == recent[i];
    assert forall k :: 0 <= k < |older| ==> older[k] == s[k];
  }

  /** Renewing an entry among the `n` newest only moves it to the end of them. */
  lemma RenewNew<K, V>(s: seq<(K, V)>, n: nat, key: K, v: V)
    requires Distinct(s) && HasKey(Newest(s, n), key)
    ensures Newest(Renewed(s, key, v), n) == Renewed(Newest(s, n), key, v)
  {
    var recent := Newest(s, n);
    var older := NewestSplits(s, n);
    OnlyOnce(older, recent, key);
    WithoutKeeps(older, key);
    WithoutAppend(older, recent, key);
    WithoutLength(recent, key);
    Associates(older, Without(recent, key), [(key, v)]);
  }

  /** Renewing any other entry drops the oldest of the `n` newest, if there are `n`. */
  lemma RenewOld<K, V>(s: seq<(K, V)>, n: nat, key: K, v: V)
    requires n >= 1 && !HasKey(Newest(s, n), key)
    ensures Newest(Renewed(s, key, v), n) == AfterPut(Newest(s, n), n, key, v)
  {
    var recent, new_ := Newest(s, n), [(key, v)];
    var older := NewestSplits(s, n);
    WithoutAppend(older, recent, key);
    WithoutKeeps(recent, key);
    var rest := Without(older, key);
    Associates(rest, recent, new_);
    if |recent| >= n {
      var first, later := [recent[0]], recent[1..];
      assert recent == first + later;
      Associates(first, later, new_);
      Associates(rest, first, later + new_);
    } else {
      assert rest == [];
    }
  }

  /** A new key in a cache of `n` entries. */
  function AfterPut<K, V>(recent: seq<(K, V)>, n: nat, key: K, v: V): seq<(K, V)>
    requires n >= 1
  {
    (if |recent| >= n then recent[1..] else recent) + [(key, v)]
  }

  lemma {:induction false} WithoutElements<K, V>(s: seq<(K, V)>, key: K)
    ensures forall k :: 0 <= k < |Without(s, key)| ==> Without(s, key)[k] in s && Without(s, key)[k].0 != key
  {
    if s == [] {
    } else {
      WithoutElements(s[1..], key);
      assert s == [s[0]] + s[1..];
    }
  }

  lemma RenewedElements<K, V>(s: seq<(K, V)>, key: K, v: V, x: (K, V))
    requires x in Renewed(s, key, v)
    ensures x in s || x == (key, v)
  {
    WithoutElements(s, key);
  }

  lemma RenewTwice<K, V>(s: seq<(K, V)>, key: K, v: V, w: V)
    ensures Renewed(Renewed(s, key, v), key, w) == Renewed(s, key, w)
  {
    WithoutElements(s, key);
    WithoutAppend(Without(s, key), [(key, v)], key);
    WithoutKeeps(Without(s, key), key);
    assert Without([(key, v)], key) == [];
    assert Without(s, key) + [] == Without(s, key);
  }

  // ---------------------------------------------------------------------------------------
  // The cache

  class LRUCache<K(==), V> {
    const size: nat
    /** What `get` returns for a key that is not there. */
    const absent: V
    var entries: seq<(K, V)>
    /** Every key ever put, by its last put or hit, with the value of its last put. */
    ghost var table: seq<(K, V)>

    constructor (size: nat, absent: V)
      requires size >= 1
      ensures this.size == size && this.absent == absent
      ensures Valid() && table == []
    {
      this.size, this.absent := size, absent;
      entries := [];
      table := [];
    }

    /** The cache is the newest part of the table. */
    ghost predicate Valid()
      reads this
    {
      size >= 1 && Distinct(table) && entries == Newest(table, size)
    }

    method Pop(key: K) returns (popped: Option<V>)
      requires Distinct(entries)
      modifies this`entries
      ensures HasKey(old(entries), key) <==> popped.Some?
      ensures popped.Some? ==> (key, popped.value) in old(entries)
      ensures entries == Without(old(entries), key)
    {
      for i := 0 to |entries|
        invariant entries == old(entries) && !HasKey(entries[..i], key)
      {
        if entries[i].0 == key {
          popped := Some(entries[i].1);
          WithoutAt(entries, i);
          entries := entries[..i] + entries[i + 1..];
          return;
        }
        assert entries[..i + 1] == entries[..i] + [entries[i]];
      }
      assert entries[..|entries|] == entries;
      WithoutKeeps(entries, key);
      popped := None;
    }

    /** A hit makes the key the newest; a miss changes nothing. */
    method Get(key: K) returns (value: V)
      requires Valid()
      modifies this
      ensures Valid()
      ensures if HasKey(old(entries), key)
        then (key, value) in old(entries) && table == Renewed(old(table), key, value)
        else value == absent && table == old(table)
    {
      var popped := Pop(key);
      if popped.None? {
        WithoutKeeps(old(entries), key);
        return absent;
      }
      value := popped.value;
      entries := entries + [(key, value)];
      RenewNew(table, size, key, value);
      RenewedDistinct(table, key, value);
      table := Renewed(table, key, value);
    }

    /** Renews the key in the table; what leaves the cache is what is no longer among the newest. */
    method Put(key: K, value: V)
      requires Valid()
      modifies this
      ensures Valid()
      ensures table == Renewed(old(table), key, value)
    {
      var popped := Pop(key);
      if popped.None? {
        WithoutKeeps(old(entries), key);
        RenewOld(table, size, key, value);
        if |entries| >= size {
          entries := entries[1..];
        }
      } else {
        RenewNew(table, size, key, value);
      }
      entries := entries + [(key, value)];
      RenewedDistinct(table, key, value);
      table := Renewed(table, key, value);
    }
  }

  /** A put evicts only when the key is new and the cache full, and then the least recently used key. */
  lemma PutEvictsOldest<K, V>(table: seq<(K, V)>, size: nat, key: K, value: V, other: K)
    requires size >= 1 && Distinct(table) && other != key && HasKey(Newest(table, size), other)
    ensures var before, after := Newest(table, size), Newest(Renewed(table, key, value), size);
      !HasKey(after, other) <==> !HasKey(before, key) && |before| == size && before[0].0 == other
  {
    var before, after := Newest(table, size), Newest(Renewed(table, key, value), size);
    var i: nat :| i < |before| && before[i].0 == other;
    assert Distinct(before);
    if k: nat :| k < |before| && before[k].0 == key {
      RenewNew(table, size, key, value);
      WithoutAt(before, k);
      assert after[if i < k then i else i - 1].0 == other;
    } else {
      RenewOld(table, size, key, value);
      if |before| < size {
        assert after[i].0 == other;
      } else if i > 0 {
        assert after[i - 1].0 == other;
      }
    }
  }

  // ---------------------------------------------------------------------------------------
  // Models

  /** Solver models tried again for later constraints; an answer is a model, or none. */
  class ModelCache<Model(==,!new), Constraints(==,!new)> {
    /** Evaluation by the solver. */
    const IsTrue: (Model, Constraints) -> bool
    const modelCache: LRUCache<Model, int>
    /** The decorator of `check_quick_sat` remembers the answers to the last 1024 different constraints. */
    const answers: LRUCache<Constraints, Option<Option<Model>>>

    constructor (isTrue: (Model, Constraints) -> bool)
      ensures Valid() && IsTrue == isTrue && fresh(modelCache) && fresh(answers)
      ensures modelCache.table == [] && modelCache.size == 100 && modelCache.absent == -1
      ensures answers.table == [] && answers.size == 1024
    {
      IsTrue := isTrue;
      modelCache := new LRUCache(100, -1);
      answers := new LRUCache(1024, None);
    }

    predicate Right(answered: (Constraints, Option<Option<Model>>)) {
      answered.1.Some? && (answered.1.value.Some? ==> IsTrue(answered.1.value.value, answered.0))
    }

    /** A remembered model satisfies its constraints. */
    ghost predicate Valid()
      reads this, modelCache, answers
    {
      && modelCache as object != answers as object
      && modelCache.Valid() && answers.Valid()
      && answers.absent == None
      && forall a :: a in answers.table ==> Right(a)
    }

    predicate IsNewestTrue(models: seq<(Model, int)>, i: nat, constraints: Constraints) {
      i < |models| && IsTrue(models[i].0, constraints) && forall k :: i < k < |models| ==> !IsTrue(models[k].0, constraints)
    }

    /** The newest of the models that satisfies the constraints, counted once more; none if there is none. */
    ghost predicate Answers(models: seq<(Model, int)>, before: seq<(Model, int)>, constraints: Constraints,
                            answer: Option<Model>, after: seq<(Model, int)>) {
      match answer
      case None => after == before && forall i: nat :: i < |models| ==> !IsTrue(models[i].0, constraints)
      case Some(model) => exists i: nat ::
        (IsNewestTrue(models, i, constraints) && models[i].0 == model
         && after == Renewed(before, model, models[i].1 + 1))
    }

    /** A model of the answer satisfies the constraints.  For new constraints it is the newest cached model that
        does, and its count goes up; there is none exactly if no cached model does.  For remembered constraints
        it is the old answer, whatever models have been cached since. */
    method CheckQuickSat(constraints: Constraints) returns (answer: Option<Model>)
      requires Valid()
      modifies modelCache, answers
      ensures Valid()
      ensures answer.Some? ==> IsTrue(answer.value, constraints)
      ensures var models := old(modelCache.entries);
        if HasKey(old(answers.entries), constraints) then
          (constraints, Some(answer)) in old(answers.entries) && modelCache.table == old(modelCache.table)
        else Answers(models, old(modelCache.table), constraints, answer, modelCache.table)
    {
      var remembered := answers.Get(constraints);
      RightAfter(old(answers.table), constraints, remembered);
      if remembered.Some? {
        return remembered.value;
      }
      answer := TryModels(constraints);
      ghost var table := answers.table;
      answers.Put(constraints, Some(answer));
      RightAfter(table, constraints, Some(answer));
    }

    lemma RightAfter(table: seq<(Constraints, Option<Option<Model>>)>, c: Constraints, v: Option<Option<Model>>)
      requires forall a :: a in table ==> Right(a)
      ensures Right((c, v)) ==> forall a :: a in Renewed(table, c, v) ==> Right(a)
    {
      forall a | Right((c, v)) && a in Renewed(table, c, v) ensures Right(a) { RenewedElements(table, c, v, a); }
    }

    /** The loop over the cached models, newest first. */
    method TryModels(constraints: Constraints) returns (answer: Option<Model>)
      requires modelCache.Valid()
      modifies modelCache
      ensures modelCache.Valid()
      ensures Answers(old(modelCache.entries), old(modelCache.table), constraints, answer, modelCache.table)
    {
      ghost var models := modelCache.entries;
      var i: nat := |modelCache.entries|;
      answer := None;
      while i > 0
        invariant i <= |models| && modelCache.entries == models && modelCache.table == old(modelCache.table)
        invariant forall k :: i <= k < |models| ==> !IsTrue(models[k].0, constraints)
      {
        i := i - 1;
        var model := modelCache.entries[i].0;
        if IsTrue(model, constraints) {
          assert IsNewestTrue(models, i, constraints);
          Increment(model, i);
          return Some(model);
        }
      }
    }

    /** `put(model, get(model) + 1)` */
    method Increment(model: Model, ghost i: nat)
      requires modelCache.Valid() && i < |modelCache.entries| && modelCache.entries[i].0 == model
      modifies modelCache
      ensures modelCache.Valid()
      ensures modelCache.table == Renewed(old(modelCache.table), model, old(modelCache.entries)[i].1 + 1)
    {
      var count := modelCache.Get(model);
      assert Distinct(old(modelCache.entries));
      RenewTwice(old(modelCache.table), model, count, count + 1);
      modelCache.Put(model, count + 1);
    }
  }
}
