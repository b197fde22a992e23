# ad-astra runtime: neighborhoods and their lowering, in Dafny

ad-astra describes grammars with rule fragments called *neighborhoods*. A
neighborhood is a list of *paths*. Each path is a sequence of positional
*steps* followed by a leaf *matcher*, which is a rule name, a rule applied to a
type parameter, or a host predicate.

The combinators build fragments by putting a step in front of every path:

- `introduce_param` and `repeat` add one marker to every path.
- `then` numbers sequenced operands with `Idx` markers.
- `or` and `offshoot` number alternatives with `Alternative` markers.
- `lhs_then` joins a left-hand side (`Lhs`) to right-hand paths (`Rhs`).

`externalize` then lowers a neighborhood in three passes:

1. Folding: every `Rhs`/`Alternative` marker, together with the run of
   alternatives and the `Idx` that follow it, becomes one
   `ExtAlternativeAndIdx(alts, idx)`. A bare `Idx(n)` becomes
   `ExtAlternativeAndIdx([], n)`.
2. Stripping: the `IntroduceParam` markers are removed.
3. Prefix symbols: every non-empty proper prefix of every path gets a symbol of
   the external grammar. Paths that share a prefix share its symbol.

`NeighborhoodRuntime` collects the neighborhoods of a program with `rule`. It
owns the prefix-symbol table and the grammar that hands out symbols.

The model has five modules, one per file:

- `Steps` (steps.dfy): the values. `Step`, `Matcher` and `Path` are datatypes.
  `Step.IsAlternative`/`Step.IsIdx` are `is_alternative`/`is_idx`. Also
  `Matcher::variant`, `apply` and `match_pattern`.
- `Combinators` (combinators.dfy): what each combinator does to a path list,
  as functions on values, with lemmas about numbering and layout.
- `Lowering` (lowering.dfy): the first two passes on one step list. Each pass
  is a specification function (`Fold`, `Strip`) plus a method with loops that
  performs it the way the source does (`FoldSteps`, `StripParams`). The method
  is proved equal to the function.
- `Symbols` (symbols.dfy): the symbol allocator and the prefix table, with
  lemmas on freshness and injectivity.
- `Runtime` (runtime.dfy): the classes `Neighborhood` (field `paths`, whose
  combinators rewrite it in place) and `NeighborhoodRuntime`. Every method is
  proved against the functions above.

Where the source and its evident intent differ, the model follows the intent
and says so at the member:

- `Matcher::apply` builds `Matcher::Param`, which does not exist. It means
  `ParamApply` (lib.rs:191).
- Folding writes `Step::AlternativeAndIdx`, which does not exist. It means
  `ExtAlternativeAndIdx` (lib.rs:326, 351, 354).
- The match arms of the folding loop bind `i` again (`Alternative(i)`,
  `Idx(i)`). This shadows the loop position, so the scan start and the
  overwritten position would be the marker's number. The model uses the loop
  position (lib.rs:309-313, 328-329, 353-354).
- `lhs_then` returns `rhs`, whose paths it has just moved away. The model
  returns the extended left-hand fragment (lib.rs:291).
- `externalize` writes `external_syms` and `external_grammar` as fields of the
  neighborhood, but they are fields of the runtime. The model passes the
  runtime in (lib.rs:385-390).
- The stripping pass removes from `path`, which is not in scope there. The
  model removes from the path being scanned (lib.rs:379-382).
- `external_syms` is declared with `ExtPath` keys, yet it is filled with step
  prefixes. The model keys it by the step sequence (lib.rs:23, 387).

## Model

| member | source | states |
|---|---|---|
| Steps.Variant | ad_astra_runtime/src/lib.rs:186-188 | a resolvable rule-name matcher that carries exactly the given name |
| Steps.Apply | ad_astra_runtime/src/lib.rs:190-192 | a resolvable parameterised matcher that carries the rule and the type parameter; it is not a plain symbol |
| Steps.MatchPattern | ad_astra_runtime/src/lib.rs:194-196 | a pattern matcher; a pattern never resolves to a grammar symbol |
| Combinators.PrependAll | ad_astra_runtime/src/lib.rs:212-214 | count, order and matchers are kept; each path gains exactly the one step at its front |
| Combinators.MaxLeading | ad_astra_runtime/src/lib.rs:231-236 | -1 exactly when there are no paths; otherwise an upper bound on every leading number that some path attains |
| Combinators.MaxLeadingOfMarked | ad_astra_runtime/src/lib.rs:226-236 | after every path is marked with one number, the maximum is that number |
| Combinators.ThenMarked | ad_astra_runtime/src/lib.rs:225-242 | after the guard every path of the first operand leads with a number, the next index is one past their maximum, and `then` is the marked first operand followed by the second under `Idx(NextIdx(a))` |
| Combinators.OrMarked | ad_astra_runtime/src/lib.rs:244-261 | the same for `or`, with the next alternative number |
| Combinators.ThenLayout | ad_astra_runtime/src/lib.rs:225-242 | `then` keeps both operands' paths in order; the first operand is marked `Idx(0)` unless all its paths already lead with an `Idx`; every path of the second gets `Idx(NextIdx(a))` |
| Combinators.ThenNumbersInOrder | ad_astra_runtime/src/lib.rs:225-242 | after `then` every path leads with an `Idx`, and each index of the second operand is larger than every index of the first |
| Combinators.ThenChainNumbers | ad_astra_runtime/src/lib.rs:225-242 | `p.then(q).then(s)` numbers its three operands `Idx(0)`, `Idx(1)`, `Idx(2)` |
| Combinators.OrLayout | ad_astra_runtime/src/lib.rs:244-261 | `or` keeps both operands' paths in order; the first gets `Alternative(0)`; the second gets `Alternative(1)`, or `Alternative(0)` when the first is empty |
| Combinators.OrChainNests | ad_astra_runtime/src/lib.rs:244-261 | because the guard tests `is_idx`, a second `or` marks the first two operands again, so they nest instead of being numbered 0, 1, 2 |
| Combinators.LhsThenLayout | ad_astra_runtime/src/lib.rs:282-292 | one path more than the right-hand side: the left path behind `Lhs`, then each right path in order behind `Rhs`, with matchers kept |
| Lowering.ScanRun | ad_astra_runtime/src/lib.rs:307-321 | the scan consumes its alternatives plus the `Idx` that ends it, never more steps than follow the marker |
| Lowering.ScanRunConsumes | ad_astra_runtime/src/lib.rs:307-321 | the consumed steps are exactly the collected alternatives, then the `Idx`; a run without an `Idx` ends at the end of the list or at a `Repeat` or `IntroduceParam`, which stays |
| Lowering.Collapse | ad_astra_runtime/src/lib.rs:303-327 | the steps before the marker are kept; the marker becomes an `ExtAlternativeAndIdx`; the list does not grow |
| Lowering.FoldAt | ad_astra_runtime/src/lib.rs:302-356 | one position is rewritten into a non-marker; the earlier steps are kept; a position without a fold marker leaves the list unchanged |
| Lowering.RhsRunFolds | ad_astra_runtime/src/lib.rs:303-327 | `Rhs`, then alternatives `ns`, then `Idx(k)` folds to `ExtAlternativeAndIdx(ns, k)`; the rest is kept |
| Lowering.AlternativeRunFolds | ad_astra_runtime/src/lib.rs:328-352 | `Alternative(a)`, then alternatives `ns`, then a `Repeat` or `IntroduceParam` folds to `ExtAlternativeAndIdx([a] + ns, 0)`; the boundary stays |
| Lowering.RunFolds | ad_astra_runtime/src/lib.rs:303-352 | an `Rhs` or `Alternative(a)` marker, then alternatives `ns`, then the end of the list, an `Idx(k)` (consumed) or a `Repeat`/`IntroduceParam` (kept) folds to one `ExtAlternativeAndIdx` carrying `a` (if any) and `ns` with `k` or 0 |
| Lowering.BareIdxFolds | ad_astra_runtime/src/lib.rs:353-355 | a bare `Idx(n)` becomes `ExtAlternativeAndIdx([], n)` in place |
| Lowering.FoldLowers | ad_astra_runtime/src/lib.rs:300-359 | a folded path holds no `Rhs`, `Alternative` or `Idx` and is no longer than before |
| Lowering.FoldFromFixes | ad_astra_runtime/src/lib.rs:300-359 | a list without fold markers passes through folding unchanged |
| Lowering.FoldIdempotent | ad_astra_runtime/src/lib.rs:300-359 | folding a folded path changes nothing |
| Lowering.FixedBoundAgreement | ad_astra_runtime/src/lib.rs:301 | with the loop bound fixed at the start, the loop agrees with the corrected loop exactly when nothing was consumed, and panics otherwise |
| Lowering.FixedBoundPanicsOnConsumption | ad_astra_runtime/src/lib.rs:301 | the loop as written succeeds exactly when folding leaves the length unchanged, and then gives the same list |
| Lowering.FixedBoundPanicsOnRhsIdx | ad_astra_runtime/src/lib.rs:301-326 | `[Rhs, Idx(0)]` folds to `[ExtAlternativeAndIdx([], 0)]`, but the loop as written panics on it |
| Lowering.ScanFrom | ad_astra_runtime/src/lib.rs:304-321 | the scan loop succeeds exactly when `ScanRun` does; it returns the same alternatives and index, and the consecutive positions it consumed |
| Lowering.RemoveAll | ad_astra_runtime/src/lib.rs:322-325 | removing sorted positions from the back removes exactly those positions |
| Lowering.FoldStepAt | ad_astra_runtime/src/lib.rs:302-356 | one iteration of the folding loop fails exactly when `FoldAt` does, and otherwise gives its result |
| Lowering.CollapseAt | ad_astra_runtime/src/lib.rs:322-326 | removal followed by the overwrite of the marker is `Collapse` |
| Lowering.FoldSteps | ad_astra_runtime/src/lib.rs:300-359 | the folding loop succeeds exactly when `Fold` does, and returns its result |
| Lowering.StripParams | ad_astra_runtime/src/lib.rs:361-383 | collecting the `IntroduceParam` positions and removing them from the back is `Strip` |
| Lowering.StripMembers | ad_astra_runtime/src/lib.rs:361-383 | no `IntroduceParam` survives stripping, and every other step does |
| Lowering.StripFixes | ad_astra_runtime/src/lib.rs:361-383 | a list without `IntroduceParam` is unchanged by stripping |
| Lowering.StripAppend | ad_astra_runtime/src/lib.rs:361-383 | stripping distributes over concatenation |
| Lowering.WithoutParams | ad_astra_runtime/src/lib.rs:379-382 | removing exactly the `IntroduceParam` positions is stripping |
| Lowering.WithoutSlice | ad_astra_runtime/src/lib.rs:322-325 | removing a run of consecutive positions cuts that slice out |
| Lowering.LowerClean | ad_astra_runtime/src/lib.rs:298-383 | a lowered path keeps its matcher, is no longer than before, and holds no `Rhs`, `Alternative`, `Idx` or `IntroduceParam` |
| Lowering.LowerIdempotent | ad_astra_runtime/src/lib.rs:298-383 | lowering a lowered path changes nothing |
| Symbols.Grammar.constructor | ad_astra_runtime/src/lib.rs:34 | a new grammar has handed out no symbol |
| Symbols.Grammar.Sym | ad_astra_runtime/src/lib.rs:388 | each call hands out the next unused symbol |
| Symbols.PrefixKeysHas | ad_astra_runtime/src/lib.rs:385-390 | the prefix `steps[..i]` of any path, for 1 <= i < its length, is among the keys interned |
| Symbols.PrefixKeysCover | ad_astra_runtime/src/lib.rs:385-390 | every non-empty proper prefix of every path is among the keys interned |
| Symbols.PrefixKeysOnly | ad_astra_runtime/src/lib.rs:385-390 | every key interned is a non-empty proper prefix of some path |
| Symbols.InternAllKeeps | ad_astra_runtime/src/lib.rs:388 | entries are never overwritten; the keys become the old ones plus the interned ones; the allocator never goes back |
| Symbols.InternAllFresh | ad_astra_runtime/src/lib.rs:388 | a new prefix gets a symbol not handed out before, and the allocator advances by one symbol per new prefix |
| Symbols.InternAllWellNumbered | ad_astra_runtime/src/lib.rs:388 | distinct prefixes keep distinct symbols, all of them handed out by the grammar |
| Symbols.InternAllAppend | ad_astra_runtime/src/lib.rs:385-390 | interning two key lists one after the other is interning their concatenation |
| Symbols.PrefixesGetSymbols | ad_astra_runtime/src/lib.rs:385-390 | after the pass every proper prefix of every path has a symbol, old symbols are kept, and the table stays well numbered |
| Runtime.Neighborhood.Empty | ad_astra_runtime/src/lib.rs:137-143 | a new neighborhood has no paths |
| Runtime.Neighborhood.FromMatcher | ad_astra_runtime/src/lib.rs:198-207 | one path with no steps and the given matcher |
| Runtime.Neighborhood.InsertFront | ad_astra_runtime/src/lib.rs:212-214 | the in-place loop puts the step in front of every path: `PrependAll` |
| Runtime.Neighborhood.IntroduceParam | ad_astra_runtime/src/lib.rs:211-216 | every path gains `IntroduceParam(param)` in front |
| Runtime.Neighborhood.Repeat | ad_astra_runtime/src/lib.rs:218-223 | every path gains `Repeat` in front |
| Runtime.Neighborhood.Then | ad_astra_runtime/src/lib.rs:225-242 | the paths become `ThenPaths` of the old paths and next's; next's paths are those marked with `Idx(NextIdx)` |
| Runtime.Neighborhood.Or | ad_astra_runtime/src/lib.rs:244-261 | the paths become `OrPaths` of the old paths and next's; next's paths are those marked with the next alternative |
| Runtime.Neighborhood.Offshoot | ad_astra_runtime/src/lib.rs:263-280 | the same new state as `or` |
| Runtime.Neighborhood.LhsThen | ad_astra_runtime/src/lib.rs:282-292 | the paths become `LhsThenPaths` of the single left path and rhs's paths |
| Runtime.Neighborhood.FoldPaths | ad_astra_runtime/src/lib.rs:300-359 | every path is replaced by its folded steps, with the matcher and the order kept |
| Runtime.Neighborhood.StripPaths | ad_astra_runtime/src/lib.rs:361-383 | every path is replaced by its stripped steps, with the matcher and the order kept |
| Runtime.Neighborhood.Externalize | ad_astra_runtime/src/lib.rs:298-391 | the paths become their lowered forms; the runtime's table becomes the old one with every proper prefix interned; it stays well numbered; nothing else in the runtime changes |
| Runtime.NeighborhoodRuntime.constructor | ad_astra_runtime/src/lib.rs:29-37 | no statements, an empty table, a fresh grammar with no symbols, no compiled grammar; well numbered |
| Runtime.NeighborhoodRuntime.Rule | ad_astra_runtime/src/lib.rs:39-41 | the neighborhood is appended to the statements; nothing else changes |
| Runtime.NeighborhoodRuntime.InternPaths | ad_astra_runtime/src/lib.rs:385-390 | the table becomes the old one with the proper prefixes of each path interned in order |
| Runtime.NeighborhoodRuntime.InternPrefixes | ad_astra_runtime/src/lib.rs:386-389 | the table becomes the old one with `steps[..i]` interned for i = 1 .. |steps|-1 |

## Left out

- `process_rules` and `validate_steps` (lib.rs:43-60): their bodies are unfinished. They use names that are not in scope (`neighborhood`, `external`, `cfg`, `recognizer`) and build the compiled grammar and the recognizer, which are not modelled.
- `separate_alternatives` (lib.rs:294-296): the body is empty.
- The propagation loop inside the stripping pass (lib.rs:366-376): `ExtIntroduceParam()` is built with no argument, the assignment on line 369 has no semicolon, `k` never advances (so after the first stamp the prefix test fails and only path i+1 could ever be stamped), and the closing braces from line 373 on do not pair with the match arms, so lines 374-376 fall outside the `IntroduceParam` arm. With no well-formed reading of which later paths it is meant to stamp, the model strips each path on its own.
- `param_map` and the `Interner` (lib.rs:6, 18, 22): no modelled operation uses them.
- `Path::segments` (lib.rs:63-68): nothing in the modelled operations calls it.
- `ExtStep`, `ExtPath` and the `Ext` matchers (lib.rs:86-91, 111-131): no modelled operation builds them. The `Ext` matchers appear only as datatype cases.
- Pattern closures: a `Pattern` holds a host closure that cannot be modelled. It is modelled as an opaque tag.
- The external grammar's productions, gearley's `InternalGrammar`, the recognizer and the forest: only the symbol allocator is used by the modelled code. `InternalGrammar` is a placeholder value.
- Moves and ownership: `then`, `or` and `offshoot` consume `next`. In the model `next` stays allocated and keeps its marked paths; its later state is not used.
- Runtime.Neighborhood.Or / Runtime.Neighborhood.Offshoot: they require that the fragment be empty or not all `Idx`-led. Otherwise the source reaches `unreachable!()`.
- Runtime.Neighborhood.LhsThen: it requires exactly one left path, which is the source's `assert_eq!`.
- Runtime.Neighborhood.Externalize: it requires every path to fold (`AllFold`). Otherwise the scan reaches `unreachable!()` or an arm the match does not cover.
- `usize` overflow in marker numbers: numbers are unbounded naturals.
- The `macros.rs` rule macro, the compile-time crate and the tests: they are outside the runtime library.

## Findings

| source | as written | input that shows it | evidently intended | confidence | as-written member | corrected member |
|---|---|---|---|---|---|---|
| ad_astra_runtime/src/lib.rs:301-326 | `for i in 0 .. path.steps.len()` fixes the bound before folding removes consumed steps. Once any step has been removed, a later `path.steps[i]` indexes past the end and panics. | `[Rhs, Idx(0)]`, the smallest right-hand path that `lhs_then` after `then` produces | loop while `i` is below the current length | high, not executed | Lowering.FixedBoundPanicsOnRhsIdx | Lowering.FoldSteps |
