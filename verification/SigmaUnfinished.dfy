/** The conditions on which the parser runs off the end of its token list, where the source raises
    an index error in place of its own exception. */
module SigmaUnfinished {
  import opened Text
  import opened SigmaSyntax
  import opened SigmaGrammar
  import opened SigmaTokenizer

  /** A condition that breaks off where `of`, a pattern or a closing parenthesis is due, and what
      encloses that place. */
  datatype Cut =
    | BeforeOf(all: bool)
    | BeforePattern(all: bool)
    | BeforeClose(inner: Expr)
    | Inside(cut: Cut)
    | AfterNot(cut: Cut)
    | AfterOperator(left: Expr, conj: bool, cut: Cut)

  /** What stands before the place is well formed and refers to selections that exist. */
  predicate IsCut(p: Cut, names: seq<string>) {
    match p
    case BeforeClose(inner) => IsExpr(inner) && Resolvable(inner, names)
    case Inside(c) => IsCut(c, names)
    case AfterNot(c) => IsCut(c, names) && !c.AfterNot? && !c.AfterOperator?
    case AfterOperator(left, _, c) => IsExpr(left) && Resolvable(left, names) && IsCut(c, names) && !c.AfterOperator?
    case _ => true
  }

  function CountToken(all: bool): Token {
    if all then All else One
  }

  /** The tokens up to the place. */
  function Written(p: Cut): (toks: seq<Token>)
    ensures |toks| >= 1
  {
    match p
    case BeforeOf(all) => [CountToken(all)]
    case BeforePattern(all) => [CountToken(all), Of]
    case BeforeClose(inner) => [Open] + Yield(inner)
    case Inside(c) => [Open] + Written(c)
    case AfterNot(c) => [Not] + Written(c)
    case AfterOperator(left, conj, c) => Yield(left) + ([OpToken(conj)] + Written(c))
  }

  // ---------------------------------------------------------------------------
  // Every list that runs out is such a condition.
  // ---------------------------------------------------------------------------

  predicate IsCutOf(p: Cut, names: seq<string>, toks: seq<Token>) {
    IsCut(p, names) && Written(p) == toks
  }

  lemma {:induction false} ExprRunsOut(names: seq<string>, toks: seq<Token>) returns (p: Cut)
    requires ParseExpr(names, toks) == Err(OutOfTokens)
    ensures IsCutOf(p, names, toks)
    decreases |toks|, 3
  {
    var r := ParseTerm(names, toks);
    if r.Err? {
      p := TermRunsOut(names, toks);
    } else {
      TermSound(names, toks);
      p := TailRunsOut(names, r.tree, r.rest);
    }
  }

  lemma {:induction false} TailRunsOut(names: seq<string>, left: Expr, toks: seq<Token>) returns (p: Cut)
    requires ParseTail(names, left, toks) == Err(OutOfTokens) && IsExpr(left) && Resolvable(left, names)
    ensures IsCutOf(p, names, Yield(left) + toks)
    decreases |toks|, 3
  {
    var r := ParseTerm(names, toks[1..]);
    if r.Err? {
      var c := TermRunsOut(names, toks[1..]);
      p := AfterOperator(left, toks[0] == And, c);
      assert toks == [toks[0]] + toks[1..];
    } else {
      TermSound(names, toks[1..]);
      YieldOfBin(left, r.tree, toks, r.rest);
      p := TailRunsOut(names, Bin(toks[0] == And, left, r.tree), r.rest);
    }
  }

  lemma {:induction false} TermRunsOut(names: seq<string>, toks: seq<Token>) returns (p: Cut)
    requires ParseTerm(names, toks) == Err(OutOfTokens)
    ensures IsCutOf(p, names, toks) && !p.AfterOperator?
    decreases |toks|, 2
  {
    if toks != [] && toks[0] == Not {
      var c := FactorRunsOut(names, toks[1..]);
      p := AfterNot(c);
      assert toks == [Not] + toks[1..];
    } else {
      p := FactorRunsOut(names, toks);
    }
  }

  lemma {:induction false} FactorRunsOut(names: seq<string>, toks: seq<Token>) returns (p: Cut)
    requires ParseFactor(names, toks) == Err(OutOfTokens)
    ensures IsCutOf(p, names, toks) && !p.AfterOperator? && !p.AfterNot?
    decreases |toks|, 1
  {
    if toks[0] == Open {
      assert toks == [Open] + toks[1..];
      var r := ParseExpr(names, toks[1..]);
      if r.Err? {
        var c := ExprRunsOut(names, toks[1..]);
        p := Inside(c);
      } else {
        ExprSound(names, toks[1..]);
        p := BeforeClose(r.tree);
        assert Yield(r.tree) + [] == Yield(r.tree);
      }
    } else {
      var all := toks[0] == All;
      p := if |toks| == 1 then BeforeOf(all) else BeforePattern(all);
      assert toks[0] == CountToken(all);
      assert |toks| == 1 || (|toks| == 2 && toks[1] == Of);
    }
  }

  // ---------------------------------------------------------------------------
  // Every such condition runs out.
  // ---------------------------------------------------------------------------

  lemma {:induction false} CutFactorFails(p: Cut, names: seq<string>)
    requires IsCut(p, names) && !p.AfterOperator? && !p.AfterNot?
    ensures ParseFactor(names, Written(p)) == Err(OutOfTokens) && Written(p)[0] != Not
    decreases p, 0
  {
    match p
    case BeforeClose(inner) =>
      assert Written(p)[1..] == Yield(inner) + [];
      ExprComplete(names, inner, []);
    case Inside(c) =>
      assert Written(p)[1..] == Written(c);
      CutFails(c, names);
    case _ =>
  }

  lemma {:induction false} CutTermFails(p: Cut, names: seq<string>)
    requires IsCut(p, names) && !p.AfterOperator?
    ensures ParseTerm(names, Written(p)) == Err(OutOfTokens)
    decreases p, 1
  {
    if p.AfterNot? {
      assert Written(p)[1..] == Written(p.cut);
      CutFactorFails(p.cut, names);
    } else {
      CutFactorFails(p, names);
    }
  }

  lemma {:induction false} CutFails(p: Cut, names: seq<string>)
    requires IsCut(p, names)
    ensures ParseExpr(names, Written(p)) == Err(OutOfTokens)
    decreases p, 2
  {
    if p.AfterOperator? {
      var more := [OpToken(p.conj)] + Written(p.cut);
      ExprThenTail(names, p.left, more);
      assert more[1..] == Written(p.cut);
      CutTermFails(p.cut, names);
    } else {
      CutTermFails(p, names);
    }
  }

  /** The parser runs off the end of the list if and only if the list is a condition that breaks off
      where `of`, a pattern or a closing parenthesis is due. */
  lemma RunsOutIff(names: seq<string>, toks: seq<Token>)
    ensures ParseExpr(names, toks) == Err(OutOfTokens) <==> exists p :: IsCutOf(p, names, toks)
  {
    if ParseExpr(names, toks) == Err(OutOfTokens) {
      var p := ExprRunsOut(names, toks);
    }
    if p :| IsCutOf(p, names, toks) {
      CutFails(p, names);
    }
  }

  // ---------------------------------------------------------------------------
  // They could be finished.
  // ---------------------------------------------------------------------------

  const THEM := Word("them")

  /** The condition with what is due: `of them`, `them` or a closing parenthesis. */
  function Finished(p: Cut): Expr {
    match p
    case BeforeOf(all) => Quant(all, THEM)
    case BeforePattern(all) => Quant(all, THEM)
    case BeforeClose(inner) => Group(inner)
    case Inside(c) => Group(Finished(c))
    case AfterNot(c) => Negate(Finished(c))
    case AfterOperator(left, conj, c) => Bin(conj, left, Finished(c))
  }

  function Missing(p: Cut): (toks: seq<Token>)
    ensures |toks| >= 1
  {
    match p
    case BeforeOf(_) => [Of, THEM]
    case BeforePattern(_) => [THEM]
    case BeforeClose(_) => [Close]
    case Inside(c) => Missing(c) + [Close]
    case AfterNot(c) => Missing(c)
    case AfterOperator(_, _, c) => Missing(c)
  }

  lemma {:induction false} FinishedWrites(p: Cut)
    ensures Yield(Finished(p)) == Written(p) + Missing(p)
  {
    match p
    case Inside(c) =>
      FinishedWrites(c);
    case AfterNot(c) =>
      FinishedWrites(c);
    case AfterOperator(left, conj, c) =>
      FinishedWrites(c);
    case _ =>
  }

  lemma {:induction false} FinishedWellFormed(p: Cut, names: seq<string>)
    requires IsCut(p, names)
    ensures IsExpr(Finished(p)) && Resolvable(Finished(p), names)
    ensures !p.AfterOperator? ==> IsTerm(Finished(p))
    ensures !p.AfterOperator? && !p.AfterNot? ==> IsFactor(Finished(p))
  {
    match p
    case Inside(c) => FinishedWellFormed(c, names);
    case AfterNot(c) => FinishedWellFormed(c, names);
    case AfterOperator(_, _, c) => FinishedWellFormed(c, names);
    case _ =>
  }

  /** Every list on which the parser runs off the end is the beginning of one that it accepts. */
  lemma RunsOutIsUnfinished(names: seq<string>, toks: seq<Token>) returns (more: seq<Token>)
    requires ParseExpr(names, toks) == Err(OutOfTokens)
    ensures more != [] && ParseExpr(names, toks + more).Ok? && ParseExpr(names, toks + more).rest == []
  {
    var p := ExprRunsOut(names, toks);
    more := Missing(p);
    FinishedWrites(p);
    FinishedWellFormed(p, names);
    ParseIffTree(names, toks + more, Finished(p));
  }

  lemma ThreeCuts(names: seq<string>, name: string)
    requires NameResolves(names, name)
    ensures ParseExpr(names, [Open, Word(name)]) == Err(OutOfTokens)
    ensures ParseExpr(names, [One]) == Err(OutOfTokens)
    ensures ParseExpr(names, [One, Of]) == Err(OutOfTokens)
  {
    var inner := Atom(Word(name));
    assert IsTerm(inner) && IsExpr(inner) && Resolvable(inner, names);
    assert Written(BeforeClose(inner)) == [Open, Word(name)];
    CutFails(BeforeClose(inner), names);
    CutFails(BeforeOf(false), names);
    CutFails(BeforePattern(false), names);
  }

  /** The three places: the conditions `(name`, `1` and `1 of`, however they are spaced. */
  lemma ThreePlaces(names: seq<string>, name: string, gaps: seq<string>)
    requires IsPlainName(name) && NameResolves(names, name) && |gaps| == 2 && AllGaps(gaps)
    ensures ParseExpr(names, Classified(Tokens(Render([Open, Word(name)], gaps)))) == Err(OutOfTokens)
    ensures ParseExpr(names, Classified(Tokens(Render([One], [gaps[0]])))) == Err(OutOfTokens)
    ensures ParseExpr(names, Classified(Tokens(Render([One, Of], gaps)))) == Err(OutOfTokens)
  {
    ThreeCuts(names, name);
    ScanRenderedIff([Open, Word(name)], gaps);
    ScanRenderedIff([One], [gaps[0]]);
    ScanRenderedIff([One, Of], gaps);
  }
}
