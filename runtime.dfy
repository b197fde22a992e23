/** The mutable objects of the runtime (ad_astra_runtime/src/lib.rs:20-41,
    137-143, 198-292, 298-390): a neighborhood, whose combinators rewrite its
    path list in place, and the runtime that collects neighborhoods and owns
    the external grammar's symbols. Each method is proved against the value
    functions of `Combinators`, `Lowering` and `Symbols`. */
module Runtime {
  import opened Steps
  import opened Combinators
  import opened Lowering
  import opened Symbols

  /** Stands for gearley's compiled grammar, which this model never builds. */
  datatype InternalGrammar = Compiled

  class Neighborhood {
    var paths: seq<Path>

    /** `Neighborhood::new` */
    constructor Empty()
      ensures paths == []
    {
      paths := [];
    }

    /** `Matcher::into_neighborhood`: one path with no steps. */
    constructor FromMatcher(m: Matcher)
      ensures paths == [Path([], m)]
    {
      paths := [Path([], m)];
    }

    /** Put `step` in front of the steps of every path, one path at a time
        (lib.rs:212-214). */
    method InsertFront(step: Step)
      modifies this
      ensures paths == PrependAll(old(paths), step)
    {
      ghost var before := paths;
      var k := 0;
      while k < |paths|
        invariant 0 <= k <= |paths| == |before|
        invariant forall t :: 0 <= t < k ==> paths[t] == Prepend(before[t], step)
        invariant forall t :: k <= t < |paths| ==> paths[t] == before[t]
      {
        paths := paths[k := Prepend(paths[k], step)];
        k := k + 1;
      }
      ghost var want := PrependAll(before, step);
      assert forall t :: 0 <= t < |paths| ==> paths[t] == want[t];
    }

    /** `introduce_param`: every path gets `IntroduceParam(param)` in front. */
    method IntroduceParam(param: string)
      modifies this
      ensures paths == PrependAll(old(paths), Step.IntroduceParam(param))
    {
      InsertFront(Step.IntroduceParam(param));
    }

    /** `repeat`: every path gets `Repeat` in front. */
    method Repeat()
      modifies this
      ensures paths == PrependAll(old(paths), Step.Repeat)
    {
      InsertFront(Step.Repeat);
    }

    /** `then`: sequence `next` after this fragment. The paths of `next` are
        moved into this one; `next` is left holding them as marked. */
    method Then(next: Neighborhood)
      requires next != this
      modifies this, next
      ensures paths == ThenPaths(old(paths), old(next.paths))
      ensures next.paths == PrependAll(old(next.paths), Idx(NextIdx(old(paths))))
    {
      ghost var a, b := paths, next.paths;
      ghost var marked := Mark(a, Idx(0));
      ThenMarked(a, b);
      if !AllLeadWithIdx(paths) {
        InsertFront(Idx(0));
      }
      assert paths == marked && next.paths == b;
      var lastNum := MaxLeading(paths);
      assert lastNum + 1 == NextIdx(a);
      next.InsertFront(Idx(lastNum + 1));
      paths := paths + next.paths;
    }

    /** `or`: `next` becomes a further alternative of this fragment. The guard
        tests `is_idx` as the source does; a non-empty fragment whose paths
        all lead with an `Idx` reaches `unreachable!()`, hence the
        precondition. */
    method Or(next: Neighborhood)
      requires next != this
      requires paths == [] || !AllLeadWithIdx(paths)
      modifies this, next
      ensures paths == OrPaths(old(paths), old(next.paths))
      ensures next.paths == PrependAll(old(next.paths), Alternative(NextAlternative(old(paths))))
    {
      ghost var a, b := paths, next.paths;
      ghost var marked := Mark(a, Alternative(0));
      OrMarked(a, b);
      if !AllLeadWithIdx(paths) {
        InsertFront(Alternative(0));
      }
      assert paths == marked && next.paths == b;
      var lastNum := MaxLeading(paths);
      assert lastNum + 1 == NextAlternative(a);
      next.InsertFront(Alternative(lastNum + 1));
      paths := paths + next.paths;
    }

    /** `offshoot`, whose code is that of `or` line for line. */
    method Offshoot(next: Neighborhood)
      requires next != this
      requires paths == [] || !AllLeadWithIdx(paths)
      modifies this, next
      ensures paths == OrPaths(old(paths), old(next.paths))
      ensures next.paths == PrependAll(old(next.paths), Alternative(NextAlternative(old(paths))))
    {
      Or(next);
    }

    /** `lhs_then`: this single left-hand path behind `Lhs`, then the paths of
        `rhs`, in order, each behind `Rhs`. The source returns `rhs`; the
        fragment it evidently means to return is this one, which is what the
        model keeps. */
    method LhsThen(rhs: Neighborhood)
      requires rhs != this
      requires |paths| == 1
      modifies this
      ensures paths == LhsThenPaths(old(paths)[0], rhs.paths)
    {
      ghost var lhs := paths[0];
      InsertFront(Lhs);
      var k := 0;
      while k < |rhs.paths|
        invariant 0 <= k <= |rhs.paths|
        invariant paths == LhsThenPaths(lhs, rhs.paths[..k])
      {
        ghost var done := PrependAll(rhs.paths[..k + 1], Rhs);
        assert done == PrependAll(rhs.paths[..k], Rhs) + [Prepend(rhs.paths[k], Rhs)];
        paths := paths + [Prepend(rhs.paths[k], Rhs)];
        k := k + 1;
      }
      assert rhs.paths[..k] == rhs.paths;
    }

    /** `externalize`: fold the markers of every path, strip its
        `IntroduceParam`s, then give every proper prefix of every path a
        symbol of the external grammar. The source writes the symbol table
        and the grammar as fields of the neighborhood; they belong to the
        runtime, which is passed in. */
    method Externalize(rt: NeighborhoodRuntime)
      requires AllFold(paths)
      requires rt.Valid()
      modifies this, rt, rt.externalGrammar
      ensures AllFold(old(paths)) && paths == LowerAll(old(paths))
      ensures rt.Valid()
      ensures rt.Table() == InternAll(old(rt.Table()), PrefixKeys(paths))
      ensures rt.stmts == old(rt.stmts) && rt.internalGrammar == old(rt.internalGrammar)
    {
      ghost var before := paths;
      FoldPaths();
      StripPaths();
      assert forall t :: 0 <= t < |paths| ==> paths[t] == Lower(before[t]);
      rt.InternPaths(paths);
      InternAllWellNumbered(old(rt.Table()), PrefixKeys(paths));
    }

    /** The first pass of `externalize` (lib.rs:300-359) over every path. */
    method FoldPaths()
      requires AllFold(paths)
      modifies this
      ensures |paths| == |old(paths)|
      ensures forall t :: 0 <= t < |paths| ==>
        paths[t] == Path(Fold(old(paths)[t].steps).value, old(paths)[t].matcher)
    {
      ghost var before := paths;
      var k := 0;
      while k < |paths|
        invariant 0 <= k <= |paths| == |before|
        invariant forall t :: 0 <= t < k ==> paths[t] == Path(Fold(before[t].steps).value, before[t].matcher)
        invariant forall t :: k <= t < |paths| ==> paths[t] == before[t]
      {
        var ok, s := FoldSteps(paths[k].steps);
        paths := paths[k := paths[k].(steps := s)];
        k := k + 1;
      }
    }

    /** The second pass of `externalize` (lib.rs:361-383) over every path. */
    method StripPaths()
      modifies this
      ensures |paths| == |old(paths)|
      ensures forall t :: 0 <= t < |paths| ==>
        paths[t] == Path(Strip(old(paths)[t].steps), old(paths)[t].matcher)
    {
      ghost var before := paths;
      var k := 0;
      while k < |paths|
        invariant 0 <= k <= |paths| == |before|
        invariant forall t :: 0 <= t < k ==> paths[t] == Path(Strip(before[t].steps), before[t].matcher)
        invariant forall t :: k <= t < |paths| ==> paths[t] == before[t]
      {
        var s := StripParams(paths[k].steps);
        paths := paths[k := paths[k].(steps := s)];
        k := k + 1;
      }
    }
  }

  class NeighborhoodRuntime {
    var stmts: seq<Neighborhood>
    var externalSyms: map<seq<Step>, GrammarSymbol>
    const externalGrammar: Grammar
    var internalGrammar: Option<InternalGrammar>

    /** The prefix symbols together with the allocator's next symbol. */
    function Table(): SymTable
      reads this, externalGrammar
    {
      SymTable(externalSyms, externalGrammar.symCount)
    }

    /** Every prefix symbol came from the external grammar, and no two
        prefixes share one. */
    predicate Valid()
      reads this, externalGrammar
    {
      WellNumbered(Table())
    }

    /** `NeighborhoodRuntime::new` */
    constructor ()
      ensures stmts == [] && externalSyms == map[] && internalGrammar == None
      ensures fresh(externalGrammar) && externalGrammar.symCount == 0
      ensures Valid()
    {
      stmts := [];
      externalSyms := map[];
      externalGrammar := new Grammar();
      internalGrammar := None;
    }

    /** `rule`: append a neighborhood to the statements; nothing else changes. */
    method Rule(n: Neighborhood)
      modifies this
      ensures stmts == old(stmts) + [n]
      ensures externalSyms == old(externalSyms) && internalGrammar == old(internalGrammar)
      ensures Table() == old(Table())
    {
      stmts := stmts + [n];
    }

    /** The third pass of `externalize` (lib.rs:385-390) over the paths `ps`. */
    method InternPaths(ps: seq<Path>)
      modifies this, externalGrammar
      ensures Table() == InternAll(old(Table()), PrefixKeys(ps))
      ensures stmts == old(stmts) && internalGrammar == old(internalGrammar)
    {
      ghost var table0 := Table();
      var k := 0;
      while k < |ps|
        invariant 0 <= k <= |ps|
        invariant Table() == InternAll(table0, PrefixKeys(ps[..k]))
        invariant stmts == old(stmts) && internalGrammar == old(internalGrammar)
      {
        InternPrefixes(ps[k].steps);
        assert ps[..k + 1][..k] == ps[..k];
        InternAllAppend(table0, PrefixKeys(ps[..k]), ProperPrefixes(ps[k].steps));
        k := k + 1;
      }
      assert ps[..k] == ps;
    }

    /** The third pass for one path (lib.rs:386-389): each prefix of length
        1 to |steps|-1 is looked up, and one missing from the table gets the
        grammar's next symbol. */
    method InternPrefixes(steps: seq<Step>)
      modifies this, externalGrammar
      ensures Table() == InternAll(old(Table()), ProperPrefixes(steps))
      ensures stmts == old(stmts) && internalGrammar == old(internalGrammar)
    {
      ghost var table0 := Table();
      var i := 1;
      while i < |steps|
        invariant 1 <= i <= if |steps| == 0 then 1 else |steps|
        invariant Table() == InternAll(table0, ProperPrefixes(steps)[..i - 1])
        invariant stmts == old(stmts) && internalGrammar == old(internalGrammar)
      {
        var key := steps[..i];
        ghost var keys := ProperPrefixes(steps)[..i];
        assert keys[..i - 1] == ProperPrefixes(steps)[..i - 1] && keys[i - 1] == key;
        if key !in externalSyms {
          var sym := externalGrammar.Sym();
          externalSyms := externalSyms[key := sym];
        }
        i := i + 1;
      }
      assert ProperPrefixes(steps)[..i - 1] == ProperPrefixes(steps);
    }
  }
}
