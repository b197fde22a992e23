/** The third pass of `Neighborhood::externalize` (ad_astra_runtime/src/lib.rs:385-390):
    every proper prefix of every lowered path gets a grammar symbol, shared
    by all paths that have that prefix. The map from prefixes to symbols is
    the runtime's `external_syms`; new symbols come from the external
    grammar's allocator. */
module Symbols {
  import opened Steps

  /** The external grammar (`cfg::earley::Grammar`), reduced to the one use the
      lowering makes of it: `sym()` hands out the next unused symbol. */
  class Grammar {
    var symCount: nat

    constructor ()
      ensures symCount == 0
    {
      symCount := 0;
    }

    method Sym() returns (s: GrammarSymbol)
      modifies this
      ensures s == old(symCount) && symCount == old(symCount) + 1
    {
      s := symCount;
      symCount := symCount + 1;
    }
  }

  /** `external_syms` together with the allocator's next symbol. */
  datatype SymTable = SymTable(syms: map<seq<Step>, GrammarSymbol>, next: GrammarSymbol)

  /** Every symbol in the table has been handed out, and no two prefixes
      share one. */
  predicate WellNumbered(t: SymTable) {
    && (forall key :: key in t.syms ==> t.syms[key] < t.next)
    && (forall k1, k2 :: k1 in t.syms && k2 in t.syms && k1 != k2 ==> t.syms[k1] != t.syms[k2])
  }

  /** A key already in the table keeps its symbol; a missing key gets the
      allocator's next symbol, and the allocator advances (lib.rs:388). */
  function Intern(t: SymTable, key: seq<Step>): SymTable {
    if key in t.syms then t else SymTable(t.syms[key := t.next], t.next + 1)
  }

  /** `Intern` of each key in turn. */
  function InternAll(t: SymTable, keys: seq<seq<Step>>): SymTable
    decreases |keys|
  {
    if keys == [] then t else Intern(InternAll(t, keys[..|keys| - 1]), keys[|keys| - 1])
  }

  /** `steps[..i]` for i in 1 .. |steps|. */
  function ProperPrefixes(steps: seq<Step>): seq<seq<Step>> {
    if |steps| <= 1 then []
    else seq(|steps| - 1, i requires 0 <= i < |steps| - 1 => steps[..i + 1])
  }

  /** The keys the third pass interns, path by path, in order. */
  function PrefixKeys(ps: seq<Path>): seq<seq<Step>>
    decreases |ps|
  {
    if ps == [] then [] else PrefixKeys(ps[..|ps| - 1]) + ProperPrefixes(ps[|ps| - 1].steps)
  }

  /** The prefix `steps[..i]` of path k is among the keys. */
  lemma {:induction false} PrefixKeysHas(ps: seq<Path>, k: nat, i: nat)
    requires k < |ps| && 1 <= i < |ps[k].steps|
    ensures ps[k].steps[..i] in PrefixKeys(ps)
    decreases |ps|
  {
    var init := ps[..|ps| - 1];
    var pre := ProperPrefixes(ps[|ps| - 1].steps);
    assert PrefixKeys(ps) == PrefixKeys(init) + pre;
    if k < |ps| - 1 {
      assert ps[k] == init[k];
      PrefixKeysHas(init, k, i);
    } else {
      assert pre[i - 1] == ps[k].steps[..i];
    }
  }

  /** Every non-empty proper prefix of every path is among the keys. */
  lemma PrefixKeysCover(ps: seq<Path>)
    ensures forall k, i :: 0 <= k < |ps| && 1 <= i < |ps[k].steps| ==> ps[k].steps[..i] in PrefixKeys(ps)
  {
    forall k, i | 0 <= k < |ps| && 1 <= i < |ps[k].steps|
      ensures ps[k].steps[..i] in PrefixKeys(ps)
    {
      PrefixKeysHas(ps, k, i);
    }
  }

  /** Every key is a non-empty proper prefix of some path. */
  lemma {:induction false} PrefixKeysOnly(ps: seq<Path>)
    ensures forall key :: key in PrefixKeys(ps) ==>
      exists k, i :: 0 <= k < |ps| && 1 <= i < |ps[k].steps| && key == ps[k].steps[..i]
    decreases |ps|
  {
    if ps != [] {
      var init := ps[..|ps| - 1];
      var last := ps[|ps| - 1];
      var pre := ProperPrefixes(last.steps);
      assert PrefixKeys(ps) == PrefixKeys(init) + pre;
      PrefixKeysOnly(init);
      forall key | key in PrefixKeys(ps)
        ensures exists k, i :: 0 <= k < |ps| && 1 <= i < |ps[k].steps| && key == ps[k].steps[..i]
      {
        if key in PrefixKeys(init) {
          var k, i :| 0 <= k < |init| && 1 <= i < |init[k].steps| && key == init[k].steps[..i];
          assert ps[k] == init[k];
        } else {
          var j :| 0 <= j < |pre| && pre[j] == key;
          assert key == ps[|ps| - 1].steps[..j + 1];
        }
      }
    }
  }

  lemma {:induction false} InternAllAppend(t: SymTable, xs: seq<seq<Step>>, ys: seq<seq<Step>>)
    ensures InternAll(t, xs + ys) == InternAll(InternAll(t, xs), ys)
    decreases |ys|
  {
    if ys == [] {
      assert xs + ys == xs;
    } else {
      var xy := xs + ys;
      assert xy[..|xy| - 1] == xs + ys[..|ys| - 1];
      InternAllAppend(t, xs, ys[..|ys| - 1]);
    }
  }

  /** Interning never overwrites an entry and never takes back a symbol; the
      keys afterwards are the old ones and the interned ones. */
  lemma {:induction false} InternAllKeeps(t: SymTable, keys: seq<seq<Step>>)
    ensures var r := InternAll(t, keys);
      && r.syms.Keys == t.syms.Keys + (set key | key in keys)
      && (forall key :: key in t.syms ==> key in r.syms && r.syms[key] == t.syms[key])
      && t.next <= r.next
    decreases |keys|
  {
    if keys != [] {
      var init := keys[..|keys| - 1];
      InternAllKeeps(t, init);
      assert keys == init + [keys[|keys| - 1]];
      assert (set key | key in keys) == (set key | key in init) + {keys[|keys| - 1]};
    }
  }

  /** A prefix that was not in the table gets a symbol the allocator had not
      handed out before, and the allocator advances by exactly one symbol per
      new prefix. */
  lemma {:induction false} InternAllFresh(t: SymTable, keys: seq<seq<Step>>)
    ensures var r := InternAll(t, keys);
      && (forall key :: key in r.syms && key !in t.syms ==> t.next <= r.syms[key] < r.next)
      && r.next - t.next == |r.syms| - |t.syms|
    decreases |keys|
  {
    if keys != [] {
      var init := keys[..|keys| - 1];
      InternAllFresh(t, init);
      InternAllKeeps(t, init);
    }
  }

  /** Interning keeps the table well numbered: equal prefixes share one symbol
      (the table is a map) and distinct prefixes get distinct symbols. */
  lemma {:induction false} InternAllWellNumbered(t: SymTable, keys: seq<seq<Step>>)
    requires WellNumbered(t)
    ensures WellNumbered(InternAll(t, keys))
    decreases |keys|
  {
    if keys != [] {
      var init := keys[..|keys| - 1];
      InternAllWellNumbered(t, init);
      var m := InternAll(t, init);
      var key := keys[|keys| - 1];
      if key !in m.syms {
        var r := Intern(m, key);
        forall k1, k2 | k1 in r.syms && k2 in r.syms && k1 != k2
          ensures r.syms[k1] != r.syms[k2]
        {
          if k1 != key && k2 != key {
            assert r.syms[k1] == m.syms[k1] && r.syms[k2] == m.syms[k2];
          }
        }
      }
    }
  }

  /** After the third pass every proper prefix of every path has a symbol and
      the table is still well numbered. */
  lemma PrefixesGetSymbols(t: SymTable, ps: seq<Path>)
    requires WellNumbered(t)
    ensures var r := InternAll(t, PrefixKeys(ps));
      && WellNumbered(r)
      && (forall k, i :: 0 <= k < |ps| && 1 <= i < |ps[k].steps| ==> ps[k].steps[..i] in r.syms)
      && (forall key :: key in t.syms ==> key in r.syms && r.syms[key] == t.syms[key])
  {
    PrefixKeysCover(ps);
    InternAllKeeps(t, PrefixKeys(ps));
    InternAllWellNumbered(t, PrefixKeys(ps));
  }
}
