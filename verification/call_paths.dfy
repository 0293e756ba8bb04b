/** Paths through the call graph that lead to a function: `possible_paths.py`. */
module CallPaths {

  type Function = nat
  type Contract = nat

  datatype Program = Program(
    contracts: seq<Contract>,
    inheritance: map<Contract, seq<Contract>>,
    declared: map<Contract, seq<Function>>,    // functions and modifiers
    contractOf: map<Function, Contract>,
    fullName: map<Function, string>,
    calls: map<Function, set<Function>>,       // high-level, library and internal calls
    accessible: set<Function>)                 // public or external

  predicate WellFormed(p: Program) {
    && (forall c :: c in p.contracts ==> c in p.declared)
    && (forall c :: c in p.declared ==> forall f :: f in p.declared[c] ==>
          f in p.contractOf && f in p.fullName && f in p.calls)
    && (forall f :: f in p.contractOf ==> p.contractOf[f] in p.inheritance && f in p.fullName)
    && (forall c :: c in p.inheritance ==> forall b :: b in p.inheritance[c] ==> b in p.declared)
  }

  predicate Known(p: Program, f: Function) {
    WellFormed(p) && f in p.contractOf
  }

  /** The functions declared by the first `k` contracts, and the first `i` of contract `k`. */
  function DeclaredBefore(p: Program, k: nat, i: nat): set<Function>
    requires WellFormed(p) && k <= |p.contracts| && (k < |p.contracts| ==> i <= |p.declared[p.contracts[k]]|)
  {
    (set c, f | c in p.contracts[..k] && f in p.declared[c] :: f)
    + if k < |p.contracts| then (set f | f in p.declared[p.contracts[k]][..i]) else {}
  }

  function Functions(p: Program): set<Function>
    requires WellFormed(p)
  {
    DeclaredBefore(p, |p.contracts|, 0)
  }

  /** The function itself and the definitions it overrides. */
  predicate IsDefinitionOf(p: Program, d: Function, f: Function)
    requires Known(p, f)
  {
    d == f || exists c :: c in p.inheritance[p.contractOf[f]] && d in p.declared[c] && p.fullName[d] == p.fullName[f]
  }

  predicate CallsInto(p: Program, f: Function, g: Function)
    requires Known(p, f) && Known(p, g) && f in p.calls
  {
    exists d :: d in p.calls[f] && IsDefinitionOf(p, d, g)
  }

  /** `w` leads into `suffix` by new functions, each calling the next, from an accessible one. */
  ghost predicate LeadsTo(p: Program, w: seq<Function>, suffix: seq<Function>)
    requires WellFormed(p)
  {
    && 0 < |suffix| <= |w| && w[|w| - |suffix|..] == suffix && |w| > 1 && w[0] in p.accessible
    && (forall i :: 0 <= i < |w| ==> Known(p, w[i]))
    && (forall i :: 0 <= i < |w| - |suffix| ==>
          w[i] in Functions(p) && w[i] in p.calls && CallsInto(p, w[i], w[i + 1]) && w[i] !in w[i + 1..])
  }

  /** The function before the suffix is one of `fs`. */
  ghost predicate Extends(p: Program, w: seq<Function>, suffix: seq<Function>, fs: set<Function>)
    requires WellFormed(p)
  {
    LeadsTo(p, w, suffix) && |w| > |suffix| && w[|w| - |suffix| - 1] in fs
  }

  // ---------------------------------------------------------------------------------------
  // One step back along a path

  lemma StepBack(p: Program, w: seq<Function>, suffix: seq<Function>, f: Function)
    requires WellFormed(p) && suffix != [] && Known(p, suffix[0]) && Known(p, f)
    requires f in Functions(p) && f in p.calls && f !in suffix && CallsInto(p, f, suffix[0])
    ensures LeadsTo(p, w, [f] + suffix) <==> Extends(p, w, suffix, {f})
  {
    var n := |w| - |suffix| - 1;
    if n >= 0 {
      assert w[n..] == [w[n]] + w[n + 1..];
      if w[n..] == [f] + suffix { assert w[n + 1..] == suffix; }
      if w[n + 1..] == suffix && w[n] == f { assert w[n..] == [f] + suffix; }
    }
  }

  lemma SmallerSearch(all: set<Function>, path: seq<Function>, f: Function)
    requires f in all && f !in path
    ensures all - (set g | g in [f] + path) < all - (set g | g in path)
  {
    assert f in all - (set g | g in path);
    assert f in [f] + path;
  }

  lemma DeclaredStep(p: Program, k: nat, i: nat)
    requires WellFormed(p) && k < |p.contracts| && i < |p.declared[p.contracts[k]]|
    ensures var f := p.declared[p.contracts[k]][i];
      DeclaredBefore(p, k, i + 1) == DeclaredBefore(p, k, i) + {f} && f in Functions(p) && Known(p, f) && f in p.calls
  {
    var fs := p.declared[p.contracts[k]];
    assert fs[..i + 1] == fs[..i] + [fs[i]];
    var c, f := p.contracts[k], fs[i];
    assert p.contracts[..|p.contracts|] == p.contracts;
    assert c in p.contracts[..|p.contracts|] && f in p.declared[c];
  }

  lemma DeclaredNext(p: Program, k: nat)
    requires WellFormed(p) && k < |p.contracts|
    ensures DeclaredBefore(p, k + 1, 0) == DeclaredBefore(p, k, |p.declared[p.contracts[k]]|)
  {
    var fs := p.declared[p.contracts[k]];
    assert fs[..|fs|] == fs;
    assert p.contracts[..k + 1] == p.contracts[..k] + [p.contracts[k]];
  }

  // ---------------------------------------------------------------------------------------
  // The search

  method AllFunctionDefinitions(p: Program, f: Function) returns (r: set<Function>)
    requires Known(p, f)
    ensures forall d :: d in r <==> IsDefinitionOf(p, d, f)
  {
    r := {f} + set c, d | c in p.inheritance[p.contractOf[f]] && d in p.declared[c] && p.fullName[d] == p.fullName[f] :: d;
  }

  ghost predicate Collected(p: Program, results: set<seq<Function>>, path: seq<Function>, fs: set<Function>)
    requires WellFormed(p)
  {
    forall w :: w in results <==> Extends(p, w, path, fs)
  }

  lemma CollectNothing(p: Program, results: set<seq<Function>>, path: seq<Function>, fs: set<Function>, f: Function)
    requires WellFormed(p) && path != [] && Known(p, path[0]) && Known(p, f) && f in p.calls
    requires Collected(p, results, path, fs) && (f in path || !CallsInto(p, f, path[0]))
    ensures Collected(p, results, path, fs + {f})
  {
    forall w ensures w in results <==> Extends(p, w, path, fs + {f}) {
      assert Extends(p, w, path, fs + {f}) <==> Extends(p, w, path, fs) || Extends(p, w, path, {f});
    }
  }

  lemma CollectPaths(p: Program, results: set<seq<Function>>, found: set<seq<Function>>,
                     path: seq<Function>, fs: set<Function>, f: Function)
    requires WellFormed(p) && path != [] && Known(p, path[0]) && Known(p, f)
    requires f in Functions(p) && f in p.calls && f !in path && CallsInto(p, f, path[0])
    requires Collected(p, results, path, fs) && forall w :: w in found <==> LeadsTo(p, w, [f] + path)
    ensures Collected(p, results + found, path, fs + {f})
  {
    forall w ensures w in results + found <==> Extends(p, w, path, fs + {f}) {
      StepBack(p, w, path, f);
      assert Extends(p, w, path, fs + {f}) <==> Extends(p, w, path, fs) || Extends(p, w, path, {f});
    }
  }

  lemma IntersectionIsCall(p: Program, f: Function, target: Function, definitions: set<Function>)
    requires Known(p, target) && Known(p, f) && f in p.calls
    requires forall d :: d in definitions <==> IsDefinitionOf(p, d, target)
    ensures definitions * p.calls[f] != {} <==> CallsInto(p, f, target)
  {
    if definitions * p.calls[f] != {} {
      var d :| d in definitions * p.calls[f];
    }
    if CallsInto(p, f, target) {
      var d :| d in p.calls[f] && IsDefinitionOf(p, d, target);
      assert d in definitions * p.calls[f];
    }
  }

  /** Terminates on cyclic graphs: the functions that are not on the path yet get fewer. */
  method FindPathsFrom(p: Program, target: Function, path: seq<Function>) returns (results: set<seq<Function>>)
    requires Known(p, target) && forall i :: 0 <= i < |path| ==> Known(p, path[i])
    ensures forall w :: w in results <==> LeadsTo(p, w, [target] + path)
    decreases Functions(p) - (set f | f in [target] + path)
  {
    results := {};
    var currentPath := [target] + path;
    var allTargets := AllFunctionDefinitions(p, target);
    for k := 0 to |p.contracts|
      invariant Collected(p, results, currentPath, DeclaredBefore(p, k, 0))
    {
      var functions := p.declared[p.contracts[k]];
      for i := 0 to |functions|
        invariant Collected(p, results, currentPath, DeclaredBefore(p, k, i))
      {
        var f := functions[i];
        ghost var seen := DeclaredBefore(p, k, i);
        DeclaredStep(p, k, i);
        IntersectionIsCall(p, f, target, allTargets);
        if f in currentPath {
          CollectNothing(p, results, currentPath, seen, f);
          continue;
        }
        if allTargets * p.calls[f] != {} {
          SmallerSearch(Functions(p), currentPath, f);
          var pathResults := FindPathsFrom(p, f, currentPath);
          CollectPaths(p, results, pathResults, currentPath, seen, f);
          results := results + pathResults;
        } else {
          CollectNothing(p, results, currentPath, seen, f);
        }
      }
      DeclaredNext(p, k);
    }
    Whole(p, results, currentPath);
    if target in p.accessible && |currentPath| > 1 {
      results := results + {currentPath};
    }
  }

  /** What is collected over all functions is everything but the path itself. */
  lemma Whole(p: Program, results: set<seq<Function>>, path: seq<Function>)
    requires WellFormed(p) && path != [] && (forall i :: 0 <= i < |path| ==> Known(p, path[i]))
    requires Collected(p, results, path, Functions(p))
    ensures forall w :: LeadsTo(p, w, path) <==> w in results || (w == path && path[0] in p.accessible && |path| > 1)
  {
    forall w ensures LeadsTo(p, w, path) <==> w in results || (w == path && path[0] in p.accessible && |path| > 1) {
      assert w in results <==> Extends(p, w, path, Functions(p));
      if |w| == |path| { assert w[0..] == w; }
    }
  }

  // ---------------------------------------------------------------------------------------
  // All targets

  /** The simple paths of more than one function that end at `target` and start at an accessible
      function, where each function calls the next one or a definition it overrides. */
  ghost predicate IsPathTo(p: Program, w: seq<Function>, target: Function)
    requires WellFormed(p)
  {
    && |w| > 1 && w[|w| - 1] == target && w[0] in p.accessible
    && (forall i, j :: 0 <= i < j < |w| ==> w[i] != w[j])
    && (forall i :: 0 <= i < |w| ==> Known(p, w[i]))
    && (forall i :: 0 <= i < |w| - 1 ==> w[i] in Functions(p) && w[i] in p.calls && CallsInto(p, w[i], w[i + 1]))
  }

  lemma PathsAreSimple(p: Program, w: seq<Function>, target: Function)
    requires WellFormed(p)
    ensures LeadsTo(p, w, [target]) <==> IsPathTo(p, w, target)
  {
    if LeadsTo(p, w, [target]) {
      assert w[|w| - 1] == w[|w| - 1..][0];
      forall i, j | 0 <= i < j < |w| ensures w[i] != w[j] {
        assert w[j] == w[i + 1..][j - i - 1];
      }
    }
  }

  method FindTargetPaths(p: Program, targets: seq<Function>) returns (results: set<seq<Function>>)
    requires WellFormed(p) && forall i :: 0 <= i < |targets| ==> Known(p, targets[i])
    ensures forall w :: w in results <==> exists i :: 0 <= i < |targets| && IsPathTo(p, w, targets[i])
  {
    results := {};
    for k := 0 to |targets|
      invariant forall w :: w in results <==> exists i :: 0 <= i < k && IsPathTo(p, w, targets[i])
    {
      var found := FindPathsFrom(p, targets[k], []);
      assert [targets[k]] + [] == [targets[k]];
      forall w ensures w in found <==> IsPathTo(p, w, targets[k]) { PathsAreSimple(p, w, targets[k]); }
      results := results + found;
    }
  }
}
