/** The first two passes of `Neighborhood::externalize`
    (ad_astra_runtime/src/lib.rs:298-383), path by path: folding runs of
    `Rhs`/`Alternative`/`Idx` markers into one `ExtAlternativeAndIdx`, and
    stripping `IntroduceParam` markers. Each pass is a function that states it
    and a method that performs it on a step list, the way the source does. */
module Lowering {
  import opened Steps

  /** What the forward scan behind an `Rhs` or `Alternative` collects: the
      alternative numbers, the index that stopped it if any, and how many
      steps it consumed. */
  datatype Run = Run(alts: seq<nat>, idx: Option<nat>, len: nat)

  /** The scan of lib.rs:307-321 (and 332-346) over the steps that follow the
      marker. `Rhs` and `AlternativeAndIdx` are `unreachable!()` there, and the
      match leaves `Lhs` and `ExtIntroduceParam` out; all four fail the scan. */
  function ScanRun(rest: seq<Step>): (r: Option<Run>)
    decreases |rest|
    ensures r.Some? ==>
      r.value.len == |r.value.alts| + (if r.value.idx.Some? then 1 else 0) <= |rest|
  {
    if rest == [] then Some(Run([], None, 0))
    else
      match rest[0]
      case Alternative(a) =>
        (match ScanRun(rest[1..])
         case None => None
         case Some(run) => Some(Run([a] + run.alts, run.idx, run.len + 1)))
      case Idx(k) => Some(Run([], Some(k), 1))
      case Repeat => Some(Run([], None, 0))
      case IntroduceParam(_) => Some(Run([], None, 0))
      case _ => None
  }

  /** The scan consumes exactly a run of alternatives, whose numbers it
      collects, and the `Idx` that ends the run if there is one; when no `Idx`
      ends it, the run ends at the end of the list or at a `Repeat` or
      `IntroduceParam`, which stays. */
  lemma {:induction false} ScanRunConsumes(rest: seq<Step>)
    requires ScanRun(rest).Some?
    ensures var run := ScanRun(rest).value;
      && (forall k :: 0 <= k < |run.alts| ==> rest[k] == Alternative(run.alts[k]))
      && (run.idx.Some? ==> rest[|run.alts|] == Idx(run.idx.value))
      && (run.idx.None? ==>
            run.len == |rest| || rest[run.len].Repeat? || rest[run.len].IntroduceParam?)
    decreases |rest|
  {
    if rest != [] && rest[0].Alternative? {
      ScanRunConsumes(rest[1..]);
      var inner := ScanRun(rest[1..]).value;
      var run := ScanRun(rest).value;
      assert run.alts == [rest[0].n] + inner.alts;
      forall k | 0 <= k < |run.alts| ensures rest[k] == Alternative(run.alts[k]) {
        if k > 0 {
          assert rest[k] == rest[1..][k - 1];
        }
      }
    }
  }

  /** `alts` collected in front of whatever the rest of the scan yields. */
  function Glue(alts: seq<nat>, r: Option<Run>): Option<Run> {
    match r
    case None => None
    case Some(run) => Some(Run(alts + run.alts, run.idx, |alts| + run.len))
  }

  /** Position i, an `Rhs` (first == []) or an `Alternative(a)` (first == [a]),
      becomes one `ExtAlternativeAndIdx` and the steps the scan consumed go. */
  function Collapse(cur: seq<Step>, i: nat, first: seq<nat>): (r: Option<seq<Step>>)
    requires i < |cur|
    ensures r.Some? ==> i < |r.value| <= |cur| && r.value[..i] == cur[..i]
    ensures r.Some? ==> r.value[i].ExtAlternativeAndIdx?
  {
    match ScanRun(cur[i + 1..])
    case None => None
    case Some(run) =>
      Some(cur[..i] + [ExtAlternativeAndIdx(first + run.alts, run.idx.GetOr(0))] + cur[i + 1 + run.len..])
  }

  /** The rewrite of one position by the folding loop (lib.rs:302-356),
      reading the match arms' `i` as the outer position, which the arms
      shadow in the source. */
  function FoldAt(cur: seq<Step>, i: nat): (r: Option<seq<Step>>)
    requires i < |cur|
    ensures r.Some? ==> i < |r.value| <= |cur| && r.value[..i] == cur[..i]
    ensures r.Some? ==> !r.value[i].IsFoldMarker()
    ensures !cur[i].IsFoldMarker() ==> r == Some(cur)
  {
    match cur[i]
    case Rhs => Collapse(cur, i, [])
    case Alternative(a) => Collapse(cur, i, [a])
    case Idx(n) => Some(cur[i := ExtAlternativeAndIdx([], n)])
    case _ => Some(cur)
  }

  /** The folding loop from position i on, for as long as i is a position of
      the list as it now is. */
  function FoldFrom(cur: seq<Step>, i: nat): Option<seq<Step>>
    decreases |cur| - i
  {
    if i >= |cur| then Some(cur)
    else
      match FoldAt(cur, i)
      case None => None
      case Some(next) => FoldFrom(next, i + 1)
  }

  /** The folding pass over one path; None where the source panics. */
  function Fold(s: seq<Step>): Option<seq<Step>> {
    FoldFrom(s, 0)
  }

  /** The folding loop as written (lib.rs:301): the range of positions is
      fixed from the path's original length before any step is consumed, so indexing position i panics once
      the list has become shorter than i. */
  function FoldFixedFrom(cur: seq<Step>, i: nat, bound: nat): Option<seq<Step>>
    decreases bound - i
  {
    if i >= bound then Some(cur)
    else if i >= |cur| then None
    else
      match FoldAt(cur, i)
      case None => None
      case Some(next) => FoldFixedFrom(next, i + 1, bound)
  }

  function FoldFixedBound(s: seq<Step>): Option<seq<Step>> {
    FoldFixedFrom(s, 0, |s|)
  }

  /** The stripping pass: the path without its `IntroduceParam` markers. */
  function Strip(s: seq<Step>): seq<Step>
    decreases |s|
  {
    if s == [] then []
    else Strip(s[..|s| - 1]) + (if s[|s| - 1].IntroduceParam? then [] else [s[|s| - 1]])
  }

  /** The steps left when the positions in `gone` are removed. */
  function Without(s: seq<Step>, gone: set<nat>): seq<Step>
    decreases |s|
  {
    if s == [] then []
    else Without(s[..|s| - 1], gone) + (if |s| - 1 in gone then [] else [s[|s| - 1]])
  }

  function Elements(xs: seq<nat>): set<nat> {
    set k | 0 <= k < |xs| :: xs[k]
  }

  predicate StrictlyIncreasing(xs: seq<nat>) {
    forall a, b :: 0 <= a < b < |xs| ==> xs[a] < xs[b]
  }

  // ---------------------------------------------------------------------
  // Folding: what it produces

  /** Once folded, a path holds no `Rhs`, `Alternative` or `Idx` marker. */
  lemma {:induction false} FoldFromLowers(cur: seq<Step>, i: nat)
    requires i <= |cur|
    requires forall k :: 0 <= k < i ==> !cur[k].IsFoldMarker()
    requires FoldFrom(cur, i).Some?
    ensures forall k :: 0 <= k < |FoldFrom(cur, i).value| ==> !FoldFrom(cur, i).value[k].IsFoldMarker()
    decreases |cur| - i
  {
    if i < |cur| {
      var next := FoldAt(cur, i).value;
      forall k | 0 <= k < i + 1 ensures !next[k].IsFoldMarker() {
        if k < i {
          assert next[k] == next[..i][k] == cur[..i][k];
        }
      }
      FoldFromLowers(next, i + 1);
    }
  }

  lemma FoldLowers(s: seq<Step>)
    requires Fold(s).Some?
    ensures forall k :: 0 <= k < |Fold(s).value| ==> !Fold(s).value[k].IsFoldMarker()
    ensures |Fold(s).value| <= |s|
  {
    FoldFromLowers(s, 0);
    FoldFromShrinks(s, 0);
  }

  lemma {:induction false} FoldFromShrinks(cur: seq<Step>, i: nat)
    requires FoldFrom(cur, i).Some?
    ensures |FoldFrom(cur, i).value| <= |cur|
    decreases |cur| - i
  {
    if i < |cur| {
      FoldFromShrinks(FoldAt(cur, i).value, i + 1);
    }
  }

  /** A list without fold markers is left as it is. */
  lemma {:induction false} FoldFromFixes(cur: seq<Step>, i: nat)
    requires forall k :: 0 <= k < |cur| ==> !cur[k].IsFoldMarker()
    ensures FoldFrom(cur, i) == Some(cur)
    decreases |cur| - i
  {
    if i < |cur| {
      FoldFromFixes(cur, i + 1);
    }
  }

  /** Folding twice is folding once. */
  lemma FoldIdempotent(s: seq<Step>)
    requires Fold(s).Some?
    ensures Fold(Fold(s).value) == Fold(s)
  {
    FoldLowers(s);
    FoldFromFixes(Fold(s).value, 0);
  }

  /** `n` alternatives in a row, numbered as given. */
  function Alternatives(ns: seq<nat>): (r: seq<Step>)
    ensures |r| == |ns|
    ensures forall k :: 0 <= k < |ns| ==> r[k] == Alternative(ns[k])
  {
    seq(|ns|, k requires 0 <= k < |ns| => Alternative(ns[k]))
  }

  lemma GlueNothing(r: Option<Run>)
    ensures Glue([], r) == r
  {
    match r {
      case None =>
      case Some(run) => assert [] + run.alts == run.alts;
    }
  }

  /** One alternative taken by the scan moves from the rest of the scan to
      what has been collected. */
  lemma ScanStep(collected: seq<nat>, rest: seq<Step>)
    requires rest != [] && rest[0].Alternative?
    ensures Glue(collected, ScanRun(rest)) == Glue(collected + [rest[0].n], ScanRun(rest[1..]))
  {
    ScanAlternativeHead(rest);
    GlueGlue(collected, [rest[0].n], ScanRun(rest[1..]));
  }

  lemma ScanAlternativeHead(rest: seq<Step>)
    requires rest != [] && rest[0].Alternative?
    ensures ScanRun(rest) == Glue([rest[0].n], ScanRun(rest[1..]))
  {
  }

  lemma GlueGlue(xs: seq<nat>, ys: seq<nat>, r: Option<Run>)
    ensures Glue(xs, Glue(ys, r)) == Glue(xs + ys, r)
  {
    match r {
      case None =>
      case Some(run) => assert xs + (ys + run.alts) == xs + ys + run.alts;
    }
  }

  /** The scan takes a run of alternatives and stops where the run ends. */
  lemma {:induction false} ScanAlternativesAfter(collected: seq<nat>, ns: seq<nat>, tail: seq<Step>)
    ensures Glue(collected, ScanRun(Alternatives(ns) + tail)) == Glue(collected + ns, ScanRun(tail))
    decreases |ns|
  {
    var s := Alternatives(ns) + tail;
    if ns == [] {
      assert s == tail;
      assert collected + ns == collected;
    } else {
      assert s[0] == Alternative(ns[0]);
      assert s[1..] == Alternatives(ns[1..]) + tail;
      ScanStep(collected, s);
      ScanAlternativesAfter(collected + [ns[0]], ns[1..], tail);
      assert collected + [ns[0]] + ns[1..] == collected + ns;
    }
  }

  lemma ScanAlternatives(ns: seq<nat>, tail: seq<Step>)
    ensures ScanRun(Alternatives(ns) + tail) == Glue(ns, ScanRun(tail))
  {
    ScanAlternativesAfter([], ns, tail);
    GlueNothing(ScanRun(Alternatives(ns) + tail));
    assert [] + ns == ns;
  }

  /** An `Rhs` followed by alternatives `ns` and an `Idx(k)` folds to
      `ExtAlternativeAndIdx(ns, k)`; the steps after the `Idx` are kept. */
  lemma RhsRunFolds(pre: seq<Step>, ns: seq<nat>, k: nat, post: seq<Step>)
    ensures var cur := pre + [Rhs] + Alternatives(ns) + [Idx(k)] + post;
      FoldAt(cur, |pre|) == Some(pre + [ExtAlternativeAndIdx(ns, k)] + post)
  {
    var cur := pre + [Rhs] + Alternatives(ns) + [Idx(k)] + post;
    var i := |pre|;
    assert cur[i] == Rhs;
    assert cur[i + 1..] == Alternatives(ns) + ([Idx(k)] + post);
    ScanAlternatives(ns, [Idx(k)] + post);
    assert ScanRun([Idx(k)] + post) == Some(Run([], Some(k), 1));
    assert ScanRun(cur[i + 1..]) == Some(Run(ns, Some(k), |ns| + 1)) by {
      assert ns + [] == ns;
    }
    assert cur[..i] == pre;
    assert cur[i + 1 + |ns| + 1..] == post;
    assert [] + ns == ns;
  }

  /** An `Alternative(a)` followed by alternatives `ns` and a `Repeat` or
      `IntroduceParam` folds to `ExtAlternativeAndIdx([a] + ns, 0)`; the
      boundary marker stays. */
  lemma AlternativeRunFolds(pre: seq<Step>, a: nat, ns: seq<nat>, boundary: Step, post: seq<Step>)
    requires boundary.Repeat? || boundary.IntroduceParam?
    ensures var cur := pre + [Alternative(a)] + Alternatives(ns) + [boundary] + post;
      FoldAt(cur, |pre|) == Some(pre + [ExtAlternativeAndIdx([a] + ns, 0), boundary] + post)
  {
    var cur := pre + [Alternative(a)] + Alternatives(ns) + [boundary] + post;
    var i := |pre|;
    assert cur[i] == Alternative(a);
    assert cur[i + 1..] == Alternatives(ns) + ([boundary] + post);
    ScanAlternatives(ns, [boundary] + post);
    assert ScanRun([boundary] + post) == Some(Run([], None, 0));
    assert ScanRun(cur[i + 1..]) == Some(Run(ns, None, |ns|)) by {
      assert ns + [] == ns;
    }
    assert cur[..i] == pre;
    assert cur[i + 1 + |ns|..] == [boundary] + post;
    assert pre + [ExtAlternativeAndIdx([a] + ns, 0)] + ([boundary] + post)
        == pre + [ExtAlternativeAndIdx([a] + ns, 0), boundary] + post;
  }

  /** A bare `Idx(n)` becomes `ExtAlternativeAndIdx([], n)` in place. */
  lemma BareIdxFolds(pre: seq<Step>, n: nat, post: seq<Step>)
    ensures FoldAt(pre + [Idx(n)] + post, |pre|) == Some(pre + [ExtAlternativeAndIdx([], n)] + post)
  {
    var cur := pre + [Idx(n)] + post;
    assert cur[|pre| := ExtAlternativeAndIdx([], n)] == pre + [ExtAlternativeAndIdx([], n)] + post;
  }

  /** The whole folding rule for a marker at position |pre|: an `Rhs` or an
      `Alternative(a)`, then the alternatives `ns`, then a run end, which is
      the end of the list, an `Idx(k)` (consumed), or a `Repeat` or
      `IntroduceParam` (kept). The marker becomes one `ExtAlternativeAndIdx`
      carrying `a` (for an `Alternative`) and `ns`, with `k` or 0. */
  lemma RunFolds(pre: seq<Step>, m: Step, ns: seq<nat>, tail: seq<Step>)
    requires m.Rhs? || m.Alternative?
    requires tail == [] || tail[0].Idx? || tail[0].Repeat? || tail[0].IntroduceParam?
    ensures var first := if m.Alternative? then [m.n] else [];
      var endsWithIdx := tail != [] && tail[0].Idx?;
      var idx := if endsWithIdx then tail[0].n else 0;
      var rest := if endsWithIdx then tail[1..] else tail;
      FoldAt(pre + [m] + Alternatives(ns) + tail, |pre|)
        == Some(pre + [ExtAlternativeAndIdx(first + ns, idx)] + rest)
  {
    var cur := pre + [m] + Alternatives(ns) + tail;
    var i := |pre|;
    var first := if m.Alternative? then [m.n] else [];
    var endsWithIdx := tail != [] && tail[0].Idx?;
    var idx := if endsWithIdx then tail[0].n else 0;
    var rest := if endsWithIdx then tail[1..] else tail;
    var used := if endsWithIdx then 1 else 0;
    assert cur[i] == m;
    assert cur[i + 1..] == Alternatives(ns) + tail;
    ScanAlternatives(ns, tail);
    assert ScanRun(tail) == Some(Run([], if endsWithIdx then Some(idx) else None, used));
    assert ScanRun(cur[i + 1..]) == Some(Run(ns, if endsWithIdx then Some(idx) else None, |ns| + used)) by {
      assert ns + [] == ns;
    }
    assert cur[..i] == pre;
    assert cur[i + 1 + |ns| + used..] == rest;
    assert FoldAt(cur, i) == Collapse(cur, i, first);
  }

  // ---------------------------------------------------------------------
  // The fixed loop bound

  /** Run on the same list, the loop as written agrees with the corrected
      loop exactly when nothing was consumed, and panics otherwise. */
  lemma {:induction false} FixedBoundAgreement(cur: seq<Step>, i: nat, bound: nat)
    requires i <= |cur| <= bound
    requires FoldFrom(cur, i).Some?
    ensures FoldFixedFrom(cur, i, bound) ==
      if |FoldFrom(cur, i).value| == bound then FoldFrom(cur, i) else None
    decreases |cur| - i
  {
    if i < |cur| {
      FixedBoundAgreement(FoldAt(cur, i).value, i + 1, bound);
    }
  }

  lemma FixedBoundPanicsOnConsumption(s: seq<Step>)
    requires Fold(s).Some?
    ensures FoldFixedBound(s).Some? <==> |Fold(s).value| == |s|
    ensures FoldFixedBound(s).Some? ==> FoldFixedBound(s) == Fold(s)
  {
    FixedBoundAgreement(s, 0, |s|);
  }

  /** The smallest right-hand path `lhs_then` and `then` build,
      `[Rhs, Idx(0)]`, folds to one marker, and the loop as written panics on
      it. */
  lemma FixedBoundPanicsOnRhsIdx()
    ensures Fold([Rhs, Idx(0)]) == Some([ExtAlternativeAndIdx([], 0)])
    ensures FoldFixedBound([Rhs, Idx(0)]) == None
  {
    RhsRunFolds([], [], 0, []);
    assert [] + [Rhs] + Alternatives([]) + [Idx(0)] + [] == [Rhs, Idx(0)];
    var folded := [ExtAlternativeAndIdx([], 0)];
    assert [] + [ExtAlternativeAndIdx([], 0)] + [] == folded;
    assert FoldAt([Rhs, Idx(0)], 0) == Some(folded);
    assert FoldFrom(folded, 1) == Some(folded);
    FixedBoundPanicsOnConsumption([Rhs, Idx(0)]);
  }

  // ---------------------------------------------------------------------
  // Stripping and removal by position

  lemma {:induction false} StripAppend(a: seq<Step>, b: seq<Step>)
    ensures Strip(a + b) == Strip(a) + Strip(b)
    decreases |b|
  {
    if b == [] {
      assert a + b == a;
    } else {
      var ab := a + b;
      assert ab[..|ab| - 1] == a + b[..|b| - 1];
      StripAppend(a, b[..|b| - 1]);
    }
  }

  /** No `IntroduceParam` survives, and every other step does. */
  lemma {:induction false} StripMembers(s: seq<Step>)
    ensures forall x :: x in Strip(s) <==> x in s && !x.IntroduceParam?
    decreases |s|
  {
    if s != [] {
      StripMembers(s[..|s| - 1]);
      assert s == s[..|s| - 1] + [s[|s| - 1]];
    }
  }

  /** A list without `IntroduceParam` markers is left as it is. */
  lemma {:induction false} StripFixes(s: seq<Step>)
    requires forall k :: 0 <= k < |s| ==> !s[k].IntroduceParam?
    ensures Strip(s) == s
    decreases |s|
  {
    if s != [] {
      StripFixes(s[..|s| - 1]);
    }
  }

  /** Removing no position below |s| leaves `s`. */
  lemma {:induction false} WithoutNothing(s: seq<Step>, gone: set<nat>)
    requires forall x :: x in gone ==> x >= |s|
    ensures Without(s, gone) == s
    decreases |s|
  {
    if s != [] {
      WithoutNothing(s[..|s| - 1], gone);
    }
  }

  /** Removing position u from a list that already lost only positions above
      u is removing u together with them. */
  lemma {:induction false} RemoveBelow(s: seq<Step>, gone: set<nat>, u: nat)
    requires u < |s| && u !in gone
    requires forall x :: x in gone ==> x > u
    ensures u < |Without(s, gone)|
    ensures Without(s, gone)[..u] + Without(s, gone)[u + 1..] == Without(s, gone + {u})
    decreases |s|
  {
    var last := |s| - 1;
    var init := s[..last];
    if last == u {
      WithoutNothing(init, gone);
      WithoutNothing(init, gone + {u});
      assert Without(s, gone) == init + [s[u]];
      assert Without(s, gone + {u}) == init;
    } else {
      var w := Without(init, gone);
      var tail := if last in gone then [] else [s[last]];
      assert u < |w| && w[..u] + w[u + 1..] == Without(init, gone + {u}) by {
        RemoveBelow(init, gone, u);
      }
      assert last in gone + {u} <==> last in gone;
      assert Without(s, gone) == w + tail;
      assert Without(s, gone + {u}) == Without(init, gone + {u}) + tail;
      DropBeforeTail(w, tail, u);
    }
  }

  /** Dropping position u of `w + tail`, where u is a position of `w`. */
  lemma DropBeforeTail(w: seq<Step>, tail: seq<Step>, u: nat)
    requires u < |w|
    ensures (w + tail)[..u] + (w + tail)[u + 1..] == (w[..u] + w[u + 1..]) + tail
  {
    assert (w + tail)[..u] == w[..u];
    assert (w + tail)[u + 1..] == w[u + 1..] + tail;
  }

  /** Removing the positions of the `IntroduceParam` markers is stripping. */
  lemma {:induction false} WithoutParams(s: seq<Step>, gone: set<nat>)
    requires forall k :: 0 <= k < |s| ==> (k in gone <==> s[k].IntroduceParam?)
    ensures Without(s, gone) == Strip(s)
    decreases |s|
  {
    if s != [] {
      WithoutParams(s[..|s| - 1], gone);
    }
  }

  /** Removing the positions lo .. hi-1 cuts that slice out. */
  lemma {:induction false} WithoutSlice(s: seq<Step>, gone: set<nat>, lo: nat, hi: nat)
    requires lo <= hi <= |s|
    requires forall k :: 0 <= k < |s| ==> (k in gone <==> lo <= k < hi)
    ensures Without(s, gone) == s[..lo] + s[hi..]
    decreases |s|
  {
    if |s| == hi {
      if lo == hi {
        WithoutNothing(s, set k | k in gone && k >= |s|);
        WithoutAgree(s, gone, set k | k in gone && k >= |s|);
      } else {
        WithoutSlice(s[..|s| - 1], gone, lo, hi - 1);
        assert s[..|s| - 1][..lo] == s[..lo];
      }
    } else {
      WithoutSlice(s[..|s| - 1], gone, lo, hi);
      assert s[..|s| - 1][..lo] == s[..lo];
      assert s[hi..] == s[hi..|s| - 1] + [s[|s| - 1]];
    }
  }

  /** Only positions of `s` matter to `Without`. */
  lemma {:induction false} WithoutAgree(s: seq<Step>, g1: set<nat>, g2: set<nat>)
    requires forall k :: 0 <= k < |s| ==> (k in g1 <==> k in g2)
    ensures Without(s, g1) == Without(s, g2)
    decreases |s|
  {
    if s != [] {
      WithoutAgree(s[..|s| - 1], g1, g2);
    }
  }

  // ---------------------------------------------------------------------
  // The passes as the source performs them

  /** The scan of lib.rs:307-321: collect the alternatives and the indices of
      the consumed steps, stop after an `Idx` or before a `Repeat` or
      `IntroduceParam`. */
  method ScanFrom(s: seq<Step>, start: nat) returns (ok: bool, alts: seq<nat>, idx: Option<nat>, used: seq<nat>)
    requires start <= |s|
    ensures ok <==> ScanRun(s[start..]).Some?
    ensures ok ==> alts == ScanRun(s[start..]).value.alts && idx == ScanRun(s[start..]).value.idx
    ensures ok ==> |used| == ScanRun(s[start..]).value.len
    ensures ok ==> forall k :: 0 <= k < |used| ==> used[k] == start + k
  {
    alts, idx, used := [], None, [];
    var j := start;
    GlueNothing(ScanRun(s[start..]));
    while j < |s|
      invariant start <= j <= |s|
      invariant |alts| == |used| == j - start
      invariant forall k :: 0 <= k < |used| ==> used[k] == start + k
      invariant ScanRun(s[start..]) == Glue(alts, ScanRun(s[j..]))
    {
      assert s[j..][1..] == s[j + 1..];
      match s[j] {
        case Alternative(a) =>
          ScanStep(alts, s[j..]);
          alts := alts + [a];
          used := used + [j];
        case Idx(k) =>
          idx := Some(k);
          used := used + [j];
          return true, alts, idx, used;
        case Repeat =>
          return true, alts, idx, used;
        case IntroduceParam(_) =>
          return true, alts, idx, used;
        case _ =>
          return false, alts, idx, used;
      }
      j := j + 1;
    }
    assert alts + [] == alts;
    ok := true;
  }

  /** Remove the collected positions one at a time, the highest first, so
      that the lower ones are not shifted (lib.rs:322-325); the positions
      arrive already in increasing order. */
  method RemoveAll(s0: seq<Step>, used: seq<nat>) returns (s: seq<Step>)
    requires StrictlyIncreasing(used)
    requires forall k :: 0 <= k < |used| ==> used[k] < |s0|
    ensures s == Without(s0, Elements(used))
  {
    s := s0;
    var t := |used|;
    WithoutNothing(s0, {});
    assert Elements(used[t..]) == {};
    while t > 0
      invariant 0 <= t <= |used|
      invariant s == Without(s0, Elements(used[t..]))
    {
      var u := used[t - 1];
      var later := Elements(used[t..]);
      assert forall x :: x in later ==> x > u;
      RemoveBelow(s0, later, u);
      s := s[..u] + s[u + 1..];
      assert Elements(used[t - 1..]) == later + {u};
      t := t - 1;
    }
    assert used[0..] == used;
  }

  /** The folding loop, reading its bound as the current length (see
      `FoldFixedBound` for the loop as written). */
  method FoldSteps(s0: seq<Step>) returns (ok: bool, s: seq<Step>)
    ensures ok <==> Fold(s0).Some?
    ensures ok ==> s == Fold(s0).value
  {
    s := s0;
    var i := 0;
    while i < |s|
      invariant i <= |s|
      invariant FoldFrom(s, i) == Fold(s0)
      decreases |s| - i
    {
      var stepped, next := FoldStepAt(s, i);
      if !stepped {
        return false, s;
      }
      s := next;
      i := i + 1;
    }
    ok := true;
  }

  /** One iteration of the folding loop: the match on the step at position i
      (lib.rs:302-356). */
  method FoldStepAt(s0: seq<Step>, i: nat) returns (ok: bool, s: seq<Step>)
    requires i < |s0|
    ensures ok <==> FoldAt(s0, i).Some?
    ensures ok ==> Some(s) == FoldAt(s0, i)
  {
    ok, s := true, s0;
    match s0[i] {
      case Rhs =>
        var scanned, alts, idx, used := ScanFrom(s0, i + 1);
        if !scanned {
          return false, s0;
        }
        s := CollapseAt(s0, i, [], alts, idx, used);
      case Alternative(a) =>
        var scanned, alts, idx, used := ScanFrom(s0, i + 1);
        if !scanned {
          return false, s0;
        }
        s := CollapseAt(s0, i, [a], alts, idx, used);
      case Idx(n) =>
        s := s0[i := ExtAlternativeAndIdx([], n)];
      case _ =>
    }
  }

  /** Remove the consumed steps, then overwrite position i
      (lib.rs:322-326, 347-351). */
  method CollapseAt(s0: seq<Step>, i: nat, first: seq<nat>, alts: seq<nat>, idx: Option<nat>, used: seq<nat>)
    returns (s: seq<Step>)
    requires i < |s0| && ScanRun(s0[i + 1..]).Some?
    requires alts == ScanRun(s0[i + 1..]).value.alts && idx == ScanRun(s0[i + 1..]).value.idx
    requires |used| == ScanRun(s0[i + 1..]).value.len
    requires forall k :: 0 <= k < |used| ==> used[k] == i + 1 + k
    ensures Some(s) == Collapse(s0, i, first)
  {
    var hi := i + 1 + |used|;
    s := RemoveAll(s0, used);
    forall k | 0 <= k < |s0| ensures k in Elements(used) <==> i + 1 <= k < hi {
      if i + 1 <= k < hi {
        assert used[k - i - 1] == k;
      }
    }
    WithoutSlice(s0, Elements(used), i + 1, hi);
    s := s[i := ExtAlternativeAndIdx(first + alts, idx.GetOr(0))];
    assert s == s0[..i] + [ExtAlternativeAndIdx(first + alts, idx.GetOr(0))] + s0[hi..];
  }

  /** The stripping pass over one path (lib.rs:361-383, without the
      cross-path propagation): collect the positions of the `IntroduceParam`
      markers, then remove them from the back. */
  method StripParams(s0: seq<Step>) returns (s: seq<Step>)
    ensures s == Strip(s0)
  {
    var used: seq<nat> := [];
    for j := 0 to |s0|
      invariant StrictlyIncreasing(used)
      invariant forall k :: 0 <= k < |used| ==> used[k] < j
      invariant forall k :: 0 <= k < j ==> (s0[k].IntroduceParam? <==> k in used)
    {
      if s0[j].IntroduceParam? {
        used := used + [j];
      }
    }
    s := RemoveAll(s0, used);
    forall k | 0 <= k < |s0| ensures k in Elements(used) <==> s0[k].IntroduceParam? {
      if k in used {
        var t :| 0 <= t < |used| && used[t] == k;
        assert k in Elements(used);
      }
    }
    WithoutParams(s0, Elements(used));
  }

  // ---------------------------------------------------------------------
  // Whole paths: the first two passes of `externalize`

  /** Stripping never lengthens a path. */
  lemma {:induction false} StripShrinks(s: seq<Step>)
    ensures |Strip(s)| <= |s|
    decreases |s|
  {
    if s != [] {
      StripShrinks(s[..|s| - 1]);
    }
  }

  /** A path after folding and stripping; its matcher is kept. */
  function Lower(p: Path): Path
    requires Fold(p.steps).Some?
  {
    Path(Strip(Fold(p.steps).value), p.matcher)
  }

  /** Every path folds: the scan never reaches its `unreachable!()`. */
  predicate AllFold(ps: seq<Path>) {
    forall k :: 0 <= k < |ps| ==> Fold(ps[k].steps).Some?
  }

  function LowerAll(ps: seq<Path>): seq<Path>
    requires AllFold(ps)
  {
    seq(|ps|, k requires 0 <= k < |ps| => Lower(ps[k]))
  }

  /** A lowered path keeps its matcher, is no longer than before, and holds
      none of the markers the first two passes rewrite or remove. */
  lemma LowerClean(p: Path)
    requires Fold(p.steps).Some?
    ensures Lower(p).matcher == p.matcher
    ensures |Lower(p).steps| <= |p.steps|
    ensures forall x :: x in Lower(p).steps ==> !x.IsFoldMarker() && !x.IntroduceParam?
  {
    var folded := Fold(p.steps).value;
    FoldLowers(p.steps);
    StripMembers(folded);
    StripShrinks(folded);
  }

  /** Lowering a lowered path changes nothing. */
  lemma LowerIdempotent(p: Path)
    requires Fold(p.steps).Some?
    ensures Fold(Lower(p).steps) == Some(Lower(p).steps)
    ensures Lower(Lower(p)) == Lower(p)
  {
    var q := Lower(p);
    LowerClean(p);
    forall k | 0 <= k < |q.steps| ensures !q.steps[k].IsFoldMarker() && !q.steps[k].IntroduceParam? {
      assert q.steps[k] in q.steps;
    }
    FoldFromFixes(q.steps, 0);
    StripFixes(q.steps);
  }
}
