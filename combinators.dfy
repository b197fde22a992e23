/** What the rule-fragment combinators do to a neighborhood's path list
    (ad_astra_runtime/src/lib.rs:210-292), as functions on values. The class
    `Runtime.Neighborhood` performs them in place and is proved against these. */
module Combinators {
  import opened Steps

  /** Every path with `step` inserted at the front, in the same order. */
  function PrependAll(ps: seq<Path>, step: Step): (r: seq<Path>)
    ensures |r| == |ps|
    ensures forall k :: 0 <= k < |ps| ==> r[k] == Prepend(ps[k], step)
  {
    if ps == [] then [] else [Prepend(ps[0], step)] + PrependAll(ps[1..], step)
  }

  /** The path has a first step and it is an `Idx`; a path with no steps
      does not qualify (lib.rs:226). */
  predicate LeadsWithIdx(p: Path) {
    |p.steps| > 0 && p.steps[0].IsIdx()
  }

  predicate AllLeadWithIdx(ps: seq<Path>) {
    forall k :: 0 <= k < |ps| ==> LeadsWithIdx(ps[k])
  }

  /** True of the paths whose first marker carries a number. */
  predicate LeadsNumbered(p: Path) {
    |p.steps| > 0 && (p.steps[0].Idx? || p.steps[0].Alternative?)
  }

  /** The number carried by a path's first marker. */
  function Lead(p: Path): nat
    requires LeadsNumbered(p)
  {
    p.steps[0].n
  }

  /** The largest number carried by the paths' first markers, or -1 when
      there are no paths (lib.rs:231-236). */
  function MaxLeading(ps: seq<Path>): (m: int)
    requires forall k :: 0 <= k < |ps| ==> LeadsNumbered(ps[k])
    ensures m >= -1
    ensures ps == [] <==> m == -1
    ensures forall k :: 0 <= k < |ps| ==> Lead(ps[k]) <= m
    ensures ps != [] ==> exists k :: 0 <= k < |ps| && Lead(ps[k]) == m
  {
    if ps == [] then -1
    else
      var m' := MaxLeading(ps[..|ps| - 1]);
      var last := Lead(ps[|ps| - 1]);
      if m' < last then last else m'
  }

  /** The guard shared by `then`, `or` and `offshoot`: unless every path
      already leads with an `Idx`, every path gets `step` in front. */
  function Mark(a: seq<Path>, step: Step): seq<Path> {
    if AllLeadWithIdx(a) then a else PrependAll(a, step)
  }

  /** `then`: mark `a` with `Idx(0)` unless every path of it already leads
      with an `Idx`, then give every path of `b` the next index. */
  function ThenPaths(a: seq<Path>, b: seq<Path>): seq<Path> {
    var marked := Mark(a, Idx(0));
    marked + PrependAll(b, Idx(MaxLeading(marked) + 1))
  }

  /** `or` and `offshoot`, which are the same code. The guard tests `is_idx`,
      as the source does; when `a` is non-empty and every path of it leads with
      an `Idx`, the maximum over leading `Alternative`s reaches `unreachable!()`,
      hence the precondition. */
  function OrPaths(a: seq<Path>, b: seq<Path>): seq<Path>
    requires a == [] || !AllLeadWithIdx(a)
  {
    var marked := Mark(a, Alternative(0));
    marked + PrependAll(b, Alternative(MaxLeading(marked) + 1))
  }

  /** `lhs_then`: the single left-hand path marked `Lhs`, then every
      right-hand path marked `Rhs`. */
  function LhsThenPaths(lhs: Path, rhs: seq<Path>): seq<Path> {
    [Prepend(lhs, Lhs)] + PrependAll(rhs, Rhs)
  }

  /** The index `then` gives to the paths of its second operand. */
  function NextIdx(a: seq<Path>): nat {
    if a == [] then 0
    else if !AllLeadWithIdx(a) then 1
    else MaxLeading(a) + 1
  }

  /** The alternative number `or` gives to the paths of its second operand. */
  function NextAlternative(a: seq<Path>): nat
    requires a == [] || !AllLeadWithIdx(a)
  {
    if a == [] then 0 else 1
  }

  /** The number `then` gives to its second operand is one past the largest
      leading index of the first operand once it is marked. */
  lemma ThenMarked(a: seq<Path>, b: seq<Path>)
    ensures var marked := Mark(a, Idx(0));
      && (forall k :: 0 <= k < |marked| ==> LeadsNumbered(marked[k]))
      && MaxLeading(marked) + 1 == NextIdx(a)
      && ThenPaths(a, b) == marked + PrependAll(b, Idx(NextIdx(a)))
  {
    var marked := Mark(a, Idx(0));
    if AllLeadWithIdx(a) {
      forall k | 0 <= k < |a| ensures LeadsNumbered(a[k]) {
        assert LeadsWithIdx(a[k]);
      }
    } else {
      MarkedLeads(a, Idx(0));
      if a != [] {
        MaxLeadingOfMarked(a, Idx(0));
      }
    }
    assert MaxLeading(marked) + 1 == NextIdx(a);
  }

  /** The number `or` gives to its second operand is one past the largest
      leading alternative of the first operand once it is marked. */
  lemma OrMarked(a: seq<Path>, b: seq<Path>)
    requires a == [] || !AllLeadWithIdx(a)
    ensures var marked := Mark(a, Alternative(0));
      && (forall k :: 0 <= k < |marked| ==> LeadsNumbered(marked[k]))
      && MaxLeading(marked) + 1 == NextAlternative(a)
      && OrPaths(a, b) == marked + PrependAll(b, Alternative(NextAlternative(a)))
  {
    var marked := Mark(a, Alternative(0));
    if a == [] {
      assert marked == [];
    } else {
      assert marked == PrependAll(a, Alternative(0));
      MarkedLeads(a, Alternative(0));
      MaxLeadingOfMarked(a, Alternative(0));
    }
    assert MaxLeading(marked) + 1 == NextAlternative(a);
  }

  lemma MarkedLeads(a: seq<Path>, step: Step)
    requires step.Idx? || step.Alternative?
    ensures forall k :: 0 <= k < |a| ==> LeadsNumbered(PrependAll(a, step)[k])
  {
    var r := PrependAll(a, step);
    forall k | 0 <= k < |a| ensures LeadsNumbered(r[k]) {
      assert r[k].steps[0] == step;
    }
  }

  lemma MaxLeadingOfMarked(a: seq<Path>, step: Step)
    requires step.Idx? || step.Alternative?
    requires a != []
    ensures MaxLeading(PrependAll(a, step)) == step.n
  {
    var r := PrependAll(a, step);
    forall k | 0 <= k < |r| ensures r[k].steps[0] == step {
    }
  }

  /** `then` keeps the count and order of both operands: the first |a| paths
      are `a`'s, marked `Idx(0)` unless all already lead with an `Idx`, and the
      rest are `b`'s, each with exactly one `Idx(NextIdx(a))` in front. */
  lemma ThenLayout(a: seq<Path>, b: seq<Path>)
    ensures var r := ThenPaths(a, b);
      && |r| == |a| + |b|
      && (forall k :: 0 <= k < |a| ==>
            r[k] == if AllLeadWithIdx(a) then a[k] else Prepend(a[k], Idx(0)))
      && (forall k :: 0 <= k < |b| ==> r[|a| + k] == Prepend(b[k], Idx(NextIdx(a))))
  {
    var r := ThenPaths(a, b);
    var marked := Mark(a, Idx(0));
    ThenMarked(a, b);
    var tail := PrependAll(b, Idx(NextIdx(a)));
    assert r == marked + tail;
    forall k | 0 <= k < |a|
      ensures r[k] == if AllLeadWithIdx(a) then a[k] else Prepend(a[k], Idx(0))
    {
      assert r[k] == marked[k];
    }
    forall k | 0 <= k < |b| ensures r[|a| + k] == Prepend(b[k], Idx(NextIdx(a))) {
      assert r[|a| + k] == tail[k];
    }
  }

  /** After `then` every path leads with an `Idx`, and each of `b`'s indices
      is larger than every index that leads a path of `a`; so a chain of
      `then`s numbers its operands in order. */
  lemma ThenNumbersInOrder(a: seq<Path>, b: seq<Path>)
    ensures AllLeadWithIdx(ThenPaths(a, b))
    ensures forall k, j :: 0 <= k < |a| <= j < |a| + |b| ==>
      Lead(ThenPaths(a, b)[k]) < Lead(ThenPaths(a, b)[j])
  {
    ThenLayout(a, b);
    var r := ThenPaths(a, b);
    forall k, j | 0 <= k < |a| <= j < |a| + |b| ensures Lead(r[k]) < Lead(r[j]) {
      assert r[j] == Prepend(b[j - |a|], Idx(NextIdx(a)));
      if AllLeadWithIdx(a) {
        assert r[k] == a[k];
      }
    }
  }

  /** Three fragments sequenced as the rule macro does, `p.then(q).then(s)`,
      lead with `Idx(0)`, `Idx(1)`, `Idx(2)` when `p` is not already
      index-marked. */
  lemma {:induction false} ThenChainNumbers(p: Path, q: Path, s: Path)
    requires !LeadsWithIdx(p)
    ensures ThenPaths(ThenPaths([p], [q]), [s]) ==
      [Prepend(p, Idx(0)), Prepend(q, Idx(1)), Prepend(s, Idx(2))]
  {
    ThenLayout([p], [q]);
    var pq := ThenPaths([p], [q]);
    assert pq == [Prepend(p, Idx(0)), Prepend(q, Idx(1))];
    ThenNumbersInOrder([p], [q]);
    assert MaxLeading(pq) == 1 by {
      assert pq[1].steps[0].n == 1;
    }
    ThenLayout(pq, [s]);
  }

  /** `or` keeps the count and order of both operands: `a`'s paths each get
      one `Alternative(0)` in front (unless `a` is empty), and `b`'s paths
      each get one `Alternative(NextAlternative(a))`. */
  lemma OrLayout(a: seq<Path>, b: seq<Path>)
    requires a == [] || !AllLeadWithIdx(a)
    ensures var r := OrPaths(a, b);
      && |r| == |a| + |b|
      && (forall k :: 0 <= k < |a| ==> r[k] == Prepend(a[k], Alternative(0)))
      && (forall k :: 0 <= k < |b| ==> r[|a| + k] == Prepend(b[k], Alternative(NextAlternative(a))))
  {
    var r := OrPaths(a, b);
    var marked := Mark(a, Alternative(0));
    OrMarked(a, b);
    var tail := PrependAll(b, Alternative(NextAlternative(a)));
    assert r == marked + tail;
    forall k | 0 <= k < |a| ensures r[k] == Prepend(a[k], Alternative(0)) {
      assert r[k] == marked[k];
    }
    forall k | 0 <= k < |b| ensures r[|a| + k] == Prepend(b[k], Alternative(NextAlternative(a))) {
      assert r[|a| + k] == tail[k];
    }
  }

  /** Every path of an `or` leads with an `Alternative`, so a second `or` marks
      all of them with `Alternative(0)` again: `p.or(q).or(s)` nests the first
      two operands one level deeper instead of numbering the three 0, 1, 2. */
  lemma {:induction false} OrChainNests(p: Path, q: Path, s: Path)
    requires !LeadsWithIdx(p)
    ensures !AllLeadWithIdx(OrPaths([p], [q]))
    ensures OrPaths(OrPaths([p], [q]), [s]) == [
      Prepend(Prepend(p, Alternative(0)), Alternative(0)),
      Prepend(Prepend(q, Alternative(1)), Alternative(0)),
      Prepend(s, Alternative(1))]
  {
    assert [p][0] == p && !AllLeadWithIdx([p]);
    OrLayout([p], [q]);
    var pq := OrPaths([p], [q]);
    assert pq[0] == Prepend(p, Alternative(0));
    assert !LeadsWithIdx(pq[0]);
    assert !AllLeadWithIdx(pq);
    OrLayout(pq, [s]);
  }

  /** `lhs_then` yields one more path than the right-hand side has: the
      left-hand path behind an `Lhs`, then each right-hand path, in order,
      behind an `Rhs`; no matcher and no older marker changes. */
  lemma LhsThenLayout(lhs: Path, rhs: seq<Path>)
    ensures var r := LhsThenPaths(lhs, rhs);
      && |r| == 1 + |rhs|
      && r[0].steps == [Lhs] + lhs.steps && r[0].matcher == lhs.matcher
      && (forall k :: 0 <= k < |rhs| ==>
            r[k + 1].steps == [Rhs] + rhs[k].steps && r[k + 1].matcher == rhs[k].matcher)
  {
  }
}
