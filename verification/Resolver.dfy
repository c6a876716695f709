/** The import resolver: depth-first, dependencies first, with cycle reporting. */
module Resolver {
  import opened Wrappers

  type File = string

  /** An import either names a file under the project root or is refused by the sandbox. */
  datatype Import = Module(file: File) | Refused

  /** The readable files and their imports in order. A file that is not there cannot be read. */
  type Files = map<File, seq<Import>>

  datatype Error = Io | SandboxViolation | CircularDependency(chain: seq<File>)

  // ----- the import graph -----

  predicate Imports(fs: Files, a: File, b: File) {
    a in fs && Module(b) in fs[a]
  }

  ghost predicate Path(fs: Files, p: seq<File>) {
    p != [] && forall i :: 0 <= i < |p| - 1 ==> Imports(fs, p[i], p[i + 1])
  }

  ghost predicate PathFrom(fs: Files, p: seq<File>, a: File, b: File) {
    Path(fs, p) && p[0] == a && p[|p| - 1] == b
  }

  ghost predicate Reaches(fs: Files, a: File, b: File) {
    exists p :: PathFrom(fs, p, a, b)
  }

  /** A chain of imports that returns to where it started. */
  ghost predicate Cycle(fs: Files, chain: seq<File>) {
    |chain| >= 2 && Path(fs, chain) && chain[0] == chain[|chain| - 1]
  }

  ghost predicate CycleReachable(fs: Files, entry: File) {
    exists chain :: Cycle(fs, chain) && Reaches(fs, entry, chain[0])
  }

  /** Everything reachable can be read and stays inside the sandbox. */
  ghost predicate Clean(fs: Files, entry: File) {
    forall f :: Reaches(fs, entry, f) ==> f in fs && Refused !in fs[f]
  }

  lemma ReachesSelf(fs: Files, a: File)
    ensures Reaches(fs, a, a)
  {
    assert PathFrom(fs, [a], a, a);
  }

  lemma ReachesNext(fs: Files, a: File, b: File, c: File)
    requires Reaches(fs, a, b) && Imports(fs, b, c)
    ensures Reaches(fs, a, c)
  {
    var p :| PathFrom(fs, p, a, b);
    assert PathFrom(fs, p + [c], a, c);
  }

  // ----- orderings -----

  ghost predicate NoDuplicates(s: seq<File>) {
    forall i, j :: 0 <= i < j < |s| ==> s[i] != s[j]
  }

  /** Every import of a listed file is listed before it. */
  ghost predicate DependenciesFirst(fs: Files, order: seq<File>) {
    forall i :: 0 <= i < |order| ==> order[i] in fs && Refused !in fs[order[i]] &&
                                     forall f :: Imports(fs, order[i], f) ==> f in order[..i]
  }

  lemma DependenciesFirstAppend(fs: Files, order: seq<File>, f: File)
    requires DependenciesFirst(fs, order) && f in fs && Refused !in fs[f]
    requires forall g :: Imports(fs, f, g) ==> g in order
    ensures DependenciesFirst(fs, order + [f])
  {
    var longer := order + [f];
    forall i | 0 <= i < |longer|
      ensures longer[i] in fs && Refused !in fs[longer[i]] && forall g :: Imports(fs, longer[i], g) ==> g in longer[..i]
    {
      assert i < |order| ==> longer[..i] == order[..i];
      assert i == |order| ==> longer[..i] == order;
    }
  }

  /** Following imports from a listed file leads to strictly earlier ones. */
  lemma {:induction false} PathGoesBack(fs: Files, order: seq<File>, p: seq<File>, i: nat)
    requires DependenciesFirst(fs, order) && NoDuplicates(order) && Path(fs, p) && i < |order| && order[i] == p[0]
    ensures |p| > 1 ==> p[|p| - 1] in order[..i]
    ensures p[|p| - 1] in order
    decreases |p|
  {
    if |p| > 1 {
      assert Imports(fs, p[0], p[0 + 1]);
      var j :| 0 <= j < i && order[..i][j] == p[1];
      forall k | 0 <= k < |p[1..]| - 1
        ensures Imports(fs, p[1..][k], p[1..][k + 1])
      {
        assert Imports(fs, p[k + 1], p[(k + 1) + 1]);
      }
      PathGoesBack(fs, order, p[1..], j);
      if |p| > 2 {
        var k :| 0 <= k < j && order[..j][k] == p[|p| - 1];
        assert order[..i][k] == p[|p| - 1];
      }
    }
  }

  /** A list with dependencies first that contains the entry contains all that is reachable, and no
      cycle is. */
  lemma OrderIsComplete(fs: Files, order: seq<File>, entry: File)
    requires DependenciesFirst(fs, order) && NoDuplicates(order) && entry in order
    ensures forall f :: Reaches(fs, entry, f) ==> f in order
    ensures !CycleReachable(fs, entry)
    ensures Clean(fs, entry)
  {
    var i :| 0 <= i < |order| && order[i] == entry;
    forall f | Reaches(fs, entry, f)
      ensures f in order
    {
      var p :| PathFrom(fs, p, entry, f);
      PathGoesBack(fs, order, p, i);
    }
    forall chain | Cycle(fs, chain) && Reaches(fs, entry, chain[0])
      ensures false
    {
      var j :| 0 <= j < |order| && order[j] == chain[0];
      PathGoesBack(fs, order, chain, j);
    }
  }

  // ----- the order of independent imports -----

  /** One of the first `i` imports leads to `g`. */
  ghost predicate FromFirst(fs: Files, imports: seq<Import>, i: nat, g: File) {
    exists j :: 0 <= j < i && j < |imports| && imports[j].Module? && Reaches(fs, imports[j].file, g)
  }

  /** A front part of the order consists of what was there before and what the first `i` imports lead to. */
  ghost predicate InFront(fs: Files, imports: seq<Import>, i: nat, before: seq<File>, order: seq<File>) {
    exists n :: 0 <= n <= |order| && Exactly(fs, imports, i, before, order[..n])
  }

  ghost predicate Exactly(fs: Files, imports: seq<Import>, i: nat, before: seq<File>, files: seq<File>) {
    forall g :: g in files <==> g in before || FromFirst(fs, imports, i, g)
  }

  lemma InFrontLonger(fs: Files, imports: seq<Import>, i: nat, before: seq<File>, order: seq<File>, longer: seq<File>)
    requires InFront(fs, imports, i, before, order) && order <= longer
    ensures InFront(fs, imports, i, before, longer)
  {
    var n :| 0 <= n <= |order| && Exactly(fs, imports, i, before, order[..n]);
    assert longer[..n] == order[..n];
  }

  lemma ReachesThrough(fs: Files, a: File, b: File, c: File)
    requires Imports(fs, a, b) && Reaches(fs, b, c)
    ensures Reaches(fs, a, c)
  {
    var p :| PathFrom(fs, p, b, c);
    assert PathFrom(fs, [a] + p, a, c);
  }

  lemma NothingInFront(fs: Files, imports: seq<Import>, order: seq<File>)
    ensures Exactly(fs, imports, 0, order, order) && InFront(fs, imports, 0, order, order)
  {
    assert order[..|order|] == order;
  }

  /** The next import adds what it leads to, and no more. */
  lemma NextInFront(fs: Files, imports: seq<Import>, i: nat, before: seq<File>, order: seq<File>, longer: seq<File>)
    requires i < |imports| && imports[i].Module? && Exactly(fs, imports, i, before, order) && order <= longer
    requires DependenciesFirst(fs, longer) && NoDuplicates(longer) && imports[i].file in longer
    requires forall g :: g in longer ==> g in order || Reaches(fs, imports[i].file, g)
    ensures Exactly(fs, imports, i + 1, before, longer) && InFront(fs, imports, i + 1, before, longer)
  {
    OrderIsComplete(fs, longer, imports[i].file);
    hide Reaches, DependenciesFirst, NoDuplicates;
    assert forall g :: FromFirst(fs, imports, i + 1, g) <==> FromFirst(fs, imports, i, g) || Reaches(fs, imports[i].file, g);
    assert longer[..|longer|] == longer;
  }

  // ----- the search -----

  class Resolution {
    const fs: Files
    const entry: File
    var resolved: seq<File>
    var visited: set<File>
    var stack: seq<File>
    var importMap: map<File, seq<Import>>

    constructor (fs: Files, entry: File)
      ensures this.fs == fs && this.entry == entry
      ensures resolved == [] && visited == {} && stack == [] && importMap == map[]
    {
      this.fs, this.entry := fs, entry;
      resolved, visited, stack, importMap := [], {}, [], map[];
    }

    ghost predicate Valid()
      reads this
    {
      && (forall f :: f in visited <==> f in resolved)
      && NoDuplicates(resolved) && DependenciesFirst(fs, resolved)
      && (forall f :: f in resolved ==> Reaches(fs, entry, f))
      && NoDuplicates(stack) && (forall f :: f in stack ==> f !in visited && f in fs && Reaches(fs, entry, f))
      && (forall i :: 0 <= i < |stack| - 1 ==> Imports(fs, stack[i], stack[i + 1]))
      && importMap.Keys == visited
      && (forall f :: f in visited ==> f in fs && importMap[f] == fs[f])
    }

    /** The files that neither search nor result has met. */
    ghost function Unseen(): set<File>
      reads this
    {
      set f | f in fs && f !in visited && f !in stack
    }

    /** What an error says about the import graph. */
    ghost predicate Justified(e: Error) {
      match e
      case Io => exists f :: Reaches(fs, entry, f) && f !in fs
      case SandboxViolation => exists f :: Reaches(fs, entry, f) && f in fs && Refused in fs[f]
      case CircularDependency(chain) => Cycle(fs, chain) && Reaches(fs, entry, chain[0])
    }

    method ResolveRecursive(f: File) returns (e: Option<Error>)
      requires Valid() && Reaches(fs, entry, f) && (stack != [] ==> Imports(fs, stack[|stack| - 1], f))
      modifies this
      ensures e.Some? ==> Justified(e.value)
      ensures e.None? ==>
                && Valid() && stack == old(stack) && f in visited && old(visited) <= visited
                && old(resolved) <= resolved
                && (if f in old(visited) then resolved == old(resolved) else resolved[|resolved| - 1] == f)
                && (forall g :: g in resolved ==> g in old(resolved) || Reaches(fs, f, g))
                && (f !in old(visited) ==> forall i :: 0 <= i <= |fs[f]| ==> InFront(fs, fs[f], i, old(resolved), resolved))
      decreases Unseen(), 0
    {
      if f !in fs {
        return Some(Io);
      }
      if f in visited {
        return None;
      }
      if f in stack {
        var start := Position(f);
        var chain := stack[start..] + [f];
        ReportedCycle(fs, stack, start, f);
        return Some(CircularDependency(chain));
      }
      Push(f);
      hide Valid, Reaches, Justified, InFront;
      var failed, directives := ResolveDirectives(f);
      if failed.Some? {
        return failed;
      }
      ReachesSelf(fs, f);
      ghost var order := resolved;
      Finish(f, directives);
      forall i | 0 <= i <= |fs[f]|
        ensures InFront(fs, fs[f], i, old(resolved), resolved)
      {
        InFrontLonger(fs, fs[f], i, old(resolved), order, resolved);
      }
      return None;
    }

    /** Resolves the imports of the file on top of the stack, in order. */
    method ResolveDirectives(f: File) returns (e: Option<Error>, directives: seq<Import>)
      requires Valid() && stack != [] && stack[|stack| - 1] == f && f in fs && Reaches(fs, entry, f)
      modifies this
      ensures e.Some? ==> Justified(e.value)
      ensures e.None? ==>
                && Valid() && stack == old(stack) && old(visited) <= visited && old(resolved) <= resolved
                && directives == fs[f]
                && (forall j :: 0 <= j < |fs[f]| ==> fs[f][j].Module? && fs[f][j].file in visited)
                && (forall g :: g in resolved ==> g in old(resolved) || Reaches(fs, f, g))
                && forall i :: 0 <= i <= |fs[f]| ==> InFront(fs, fs[f], i, old(resolved), resolved)
      decreases Unseen(), 1
    {
      hide Valid, Reaches, Unseen, InFront, Exactly;
      var tops := fs[f];
      directives := [];
      UnseenShrinks();
      NothingInFront(fs, tops, resolved);
      for i := 0 to |tops|
        invariant Valid() && stack == old(stack) && old(visited) <= visited && old(resolved) <= resolved
        invariant directives == tops[..i]
        invariant forall j :: 0 <= j < i ==> tops[j].Module? && tops[j].file in visited
        invariant Unseen() <= old(Unseen())
        invariant forall g :: g in resolved ==> g in old(resolved) || Reaches(fs, f, g)
        invariant Exactly(fs, tops, i, old(resolved), resolved)
        invariant forall k :: 0 <= k <= i ==> InFront(fs, tops, k, old(resolved), resolved)
      {
        if tops[i].Refused? {
          assert Refused in fs[f];
          return Some(SandboxViolation), directives;
        }
        assert Imports(fs, f, tops[i].file);
        ReachesNext(fs, entry, f, tops[i].file);
        ghost var order := resolved;
        var inner := ResolveRecursive(tops[i].file);
        if inner.Some? {
          return inner, directives;
        }
        UnseenShrinks();
        Advance(f, i, old(resolved), order);
        directives := directives + [tops[i]];
      }
      assert tops[..|tops|] == tops;
      return None, directives;
    }

    lemma Advance(f: File, i: nat, before: seq<File>, order: seq<File>)
      requires Valid() && f in fs && i < |fs[f]| && fs[f][i].Module? && fs[f][i].file in visited && order <= resolved
      requires Exactly(fs, fs[f], i, before, order)
      requires forall k :: 0 <= k <= i ==> InFront(fs, fs[f], k, before, order)
      requires forall g :: g in order ==> g in before || Reaches(fs, f, g)
      requires forall g :: g in resolved ==> g in order || Reaches(fs, fs[f][i].file, g)
      ensures forall g :: g in resolved ==> g in before || Reaches(fs, f, g)
      ensures Exactly(fs, fs[f], i + 1, before, resolved)
      ensures forall k :: 0 <= k <= i + 1 ==> InFront(fs, fs[f], k, before, resolved)
    {
      hide Reaches, DependenciesFirst, NoDuplicates, Exactly, InFront;
      NextInFront(fs, fs[f], i, before, order, resolved);
      forall g | Reaches(fs, fs[f][i].file, g)
        ensures Reaches(fs, f, g)
      {
        assert Imports(fs, f, fs[f][i].file);
        ReachesThrough(fs, f, fs[f][i].file, g);
      }
      forall k | 0 <= k <= i
        ensures InFront(fs, fs[f], k, before, resolved)
      {
        InFrontLonger(fs, fs[f], k, before, order, resolved);
      }
    }

    twostate lemma UnseenShrinks()
      requires old(visited) <= visited && stack == old(stack)
      ensures Unseen() <= old(Unseen())
    {
    }

    method Push(f: File)
      requires Valid() && Reaches(fs, entry, f) && (stack != [] ==> Imports(fs, stack[|stack| - 1], f))
      requires f in fs && f !in visited && f !in stack
      modifies this`stack
      ensures Valid() && stack == old(stack) + [f] && Unseen() < old(Unseen())
    {
      assert f in Unseen();
      hide DependenciesFirst, Reaches;
      stack := stack + [f];
    }

    method Position(f: File) returns (start: nat)
      requires f in stack
      ensures start < |stack| && stack[start] == f
    {
      start := 0;
      while stack[start] != f
        invariant 0 <= start < |stack| && f in stack[start..]
        decreases |stack| - start
      {
        start := start + 1;
      }
    }

    /** Moves a file whose imports are all resolved from the stack to the result. */
    method Finish(f: File, directives: seq<Import>)
      requires Valid() && stack != [] && stack[|stack| - 1] == f && f in fs && directives == fs[f]
      requires forall j :: 0 <= j < |fs[f]| ==> fs[f][j].Module? && fs[f][j].file in visited
      modifies this
      ensures Valid() && stack == old(stack)[..|old(stack)| - 1]
      ensures resolved == old(resolved) + [f] && f in visited
    {
      DependenciesFirstAppend(fs, resolved, f);
      assert Reaches(fs, entry, f);
      hide DependenciesFirst, Reaches;
      importMap := importMap[f := directives];
      visited := visited + {f};
      stack := stack[..|stack| - 1];
      resolved := resolved + [f];
    }

    /** The whole resolution from the entry file. */
    method ResolveImports() returns (e: Option<Error>)
      requires resolved == [] && visited == {} && stack == [] && importMap == map[]
      modifies this
      ensures e.Some? ==> Justified(e.value)
      ensures e.None? ==>
                && (forall f :: f in resolved <==> Reaches(fs, entry, f)) && NoDuplicates(resolved)
                && DependenciesFirst(fs, resolved) && resolved != [] && resolved[|resolved| - 1] == entry
                && importMap.Keys == (set f | f in resolved) && (forall f :: f in resolved ==> f in fs && importMap[f] == fs[f])
      ensures e.None? ==> forall i :: 0 <= i <= |fs[entry]| ==> InFront(fs, fs[entry], i, [], resolved)
      ensures e.None? <==> Clean(fs, entry) && !CycleReachable(fs, entry)
      ensures Clean(fs, entry) ==> (CycleReachable(fs, entry) <==> e.Some? && e.value.CircularDependency?)
    {
      ReachesSelf(fs, entry);
      e := ResolveRecursive(entry);
      if e.None? {
        OrderIsComplete(fs, resolved, entry);
      }
    }
  }

  /** The part of the stack from an earlier visit of a file, closed by the file, is a cycle. */
  lemma ReportedCycle(fs: Files, stack: seq<File>, start: nat, f: File)
    requires start < |stack| && stack[start] == f && Imports(fs, stack[|stack| - 1], f)
    requires forall i :: 0 <= i < |stack| - 1 ==> Imports(fs, stack[i], stack[i + 1])
    ensures Cycle(fs, stack[start..] + [f])
  {
    var chain := stack[start..] + [f];
    forall i | 0 <= i < |chain| - 1
      ensures Imports(fs, chain[i], chain[i + 1])
    {
      if i < |chain| - 2 {
        assert Imports(fs, stack[start + i], stack[(start + i) + 1]);
      }
    }
  }
}
