/** The values rule fragments are made of: positional step markers, leaf
    matchers and paths (ad_astra_runtime/src/lib.rs:78-135, 169-208). */
module Steps {

  datatype Option<T> = None | Some(value: T) {
    function GetOr(default: T): T {
      if Some? then value else default
    }
  }

  /** A symbol of the external grammar; the grammar library numbers them densely. */
  type GrammarSymbol = nat

  /** One positional marker of a path. The combinators write the first six;
      the lowering pass writes the two `Ext` markers. The source's folding pass
      writes `Step::AlternativeAndIdx`, which does not exist: the variant it
      means is `ExtAlternativeAndIdx`, modelled here. */
  datatype Step =
    | Alternative(n: nat)
    | Idx(n: nat)
    | Repeat
    | IntroduceParam(param: string)
    | Lhs
    | Rhs
    | ExtIntroduceParam(paramId: nat)
    | ExtAlternativeAndIdx(alts: seq<nat>, pos: nat)
  {
    predicate IsAlternative() {
      Alternative?
    }

    predicate IsIdx() {
      Idx?
    }

    /** The markers the folding pass rewrites into `ExtAlternativeAndIdx`. */
    predicate IsFoldMarker() {
      Rhs? || Alternative? || Idx?
    }
  }

  /** The leaf test of a path. A `Pattern` is a host predicate over concrete
      steps; it is opaque here and stands as a tag. */
  datatype Matcher =
    | Symbol(name: string)
    | ParamApply(rhs: string, tyParam: string)
    | Pattern(tag: nat)
    | ExtSymbol(sym: GrammarSymbol)
    | ExtParamApply(rhsSym: GrammarSymbol, tyParamId: nat)
  {
    /** The matchers that name a rule and so must become a grammar symbol. */
    predicate Resolvable() {
      Symbol? || ParamApply?
    }
  }

  /** `Matcher::variant`: a matcher for the rule named `s`. */
  function Variant(s: string): (m: Matcher)
    ensures m.Resolvable() && !m.ParamApply?
    ensures m.name == s
  {
    Symbol(s)
  }

  /** `Matcher::apply`: the rule `ty` applied to the type parameter `parameter`.
      The source builds `Matcher::Param`, which does not exist; the variant it
      means is `ParamApply`. */
  function Apply(ty: string, parameter: string): (m: Matcher)
    ensures m.Resolvable() && !m.Symbol?
    ensures m.rhs == ty && m.tyParam == parameter
  {
    ParamApply(ty, parameter)
  }

  /** `Matcher::match_pattern`: an opaque predicate, never resolvable. */
  function MatchPattern(tag: nat): (m: Matcher)
    ensures !m.Resolvable()
    ensures m.Pattern? && m.tag == tag
  {
    Pattern(tag)
  }

  /** One candidate production: its markers, outermost first, then its leaf. */
  datatype Path = Path(steps: seq<Step>, matcher: Matcher)

  /** The path with `step` added in front of its first step (lib.rs:213). */
  function Prepend(p: Path, step: Step): Path {
    Path([step] + p.steps, p.matcher)
  }
}
