/** How the compiler's reading of a condition compares with that of the Sigma Rules Specification,
    where `and` binds tighter than `or`. */
module SigmaPrecedence {
  import Text
  import opened SigmaSyntax
  import opened SigmaGrammar
  import opened SigmaTokenizer

  // ---------------------------------------------------------------------------
  // The two grammars.
  // ---------------------------------------------------------------------------

  predicate IsOr(e: Expr) {
    e.Bin? && !e.conj
  }

  /** What a single operand may be. `not` counts as a name only directly under a `not`. */
  predicate IsLeaf(e: Expr) {
    match e
    case Atom(t) => t != Open && t != One && t != All && t != Not
    case Quant(_, _) => true
    case _ => false
  }

  /** The compiler's grammar: a chain of operators folds to the left. */
  predicate IsFold(e: Expr) {
    match e
    case Group(x) => IsFold(x)
    case Negate(x) => x == Atom(Not) || (!x.Bin? && !x.Negate? && IsFold(x))
    case Bin(_, l, r) => IsFold(l) && IsFold(r) && !r.Bin?
    case _ => IsLeaf(e)
  }

  /** The grammar of the specification: the operands of an `and` are no `or`, and chains of the same
      operator fold to the left. */
  predicate IsStd(e: Expr) {
    match e
    case Group(x) => IsStd(x)
    case Negate(x) => x == Atom(Not) || (!x.Bin? && !x.Negate? && IsStd(x))
    case Bin(conj, l, r) => IsStd(l) && IsStd(r) && if conj then !IsOr(l) && !r.Bin? else !IsOr(r)
    case _ => IsLeaf(e)
  }

  lemma {:induction false} FoldIsExpr(e: Expr)
    ensures IsFactor(e) <==> e == Atom(Not) || (IsFold(e) && !e.Bin? && !e.Negate?)
    ensures IsTerm(e) <==> IsFold(e) && !e.Bin?
    ensures IsExpr(e) <==> IsFold(e)
  {
    match e
    case Group(x) =>
      FoldIsExpr(x);
      assert IsTerm(e) == IsFactor(e) == IsExpr(x);
    case Negate(x) =>
      FoldIsExpr(x);
      assert IsExpr(e) == IsTerm(e) == IsFactor(x) && !IsFactor(e);
    case Bin(_, l, r) =>
      FoldIsExpr(l);
      FoldIsExpr(r);
      assert !IsTerm(e) && !IsFactor(e);
    case _ =>
      assert IsExpr(e) == IsTerm(e);
  }

  // ---------------------------------------------------------------------------
  // From one reading to the other.
  // ---------------------------------------------------------------------------

  /** `l and t`, the `and` taking only the last operand of an `or`. */
  function Attach(l: Expr, t: Expr): Expr {
    if l.Bin? && !l.conj then Bin(false, l.left, Bin(true, l.right, t)) else Bin(true, l, t)
  }

  /** The tree regrouped so that `and` binds tighter, within every pair of parentheses. */
  function Tighten(e: Expr): Expr {
    match e
    case Group(x) => Group(Tighten(x))
    case Negate(x) => Negate(Tighten(x))
    case Bin(conj, l, r) => if conj then Attach(Tighten(l), Tighten(r)) else Bin(false, Tighten(l), Tighten(r))
    case _ => e
  }

  /** `l or r`, the operands of the conjunction `r` following one by one. */
  function Graft(l: Expr, r: Expr): Expr
    decreases r, 1
  {
    if r.Bin? && r.conj then Bin(true, Graft(l, r.left), Loosen(r.right)) else Bin(false, l, Loosen(r))
  }

  /** The tree regrouped as the compiler folds it. */
  function Loosen(s: Expr): Expr
    decreases s, 0
  {
    match s
    case Group(x) => Group(Loosen(x))
    case Negate(x) => Negate(Loosen(x))
    case Bin(conj, l, r) => if conj then Bin(true, Loosen(l), Loosen(r)) else Graft(Loosen(l), r)
    case _ => s
  }

  /** Written with the same tokens over the same names. */
  predicate SameText(a: Expr, b: Expr, names: seq<string>) {
    Yield(a) == Yield(b) && (Resolvable(a, names) <==> Resolvable(b, names))
  }

  lemma AttachIsStd(l: Expr, t: Expr)
    requires IsStd(l) && IsStd(t) && !t.Bin?
    ensures IsStd(Attach(l, t))
  {
    if IsOr(l) { assert IsStd(Bin(true, l.right, t)); }
  }

  lemma AttachSameText(l: Expr, t: Expr, names: seq<string>)
    ensures SameText(Attach(l, t), Bin(true, l, t), names)
  {
    if IsOr(l) {
      assert Yield(l.left) + [Or] + (Yield(l.right) + [And] + Yield(t)) ==
             Yield(l.left) + [Or] + Yield(l.right) + [And] + Yield(t);
    }
  }

  lemma SameTextBin(conj: bool, l: Expr, r: Expr, l': Expr, r': Expr, names: seq<string>)
    requires SameText(l', l, names) && SameText(r', r, names)
    ensures SameText(Bin(conj, l', r'), Bin(conj, l, r), names)
  {
  }

  lemma {:induction false} TightenSameText(e: Expr, names: seq<string>)
    ensures SameText(Tighten(e), e, names)
  {
    match e
    case Group(x) => TightenSameText(x, names);
    case Negate(x) => TightenSameText(x, names);
    case Bin(conj, l, r) =>
      TightenSameText(l, names);
      TightenSameText(r, names);
      SameTextBin(conj, l, r, Tighten(l), Tighten(r), names);
      if conj { AttachSameText(Tighten(l), Tighten(r), names); }
    case _ =>
  }

  lemma {:induction false} TightenIsStd(e: Expr)
    requires IsFold(e)
    ensures IsStd(Tighten(e)) && (Tighten(e).Bin? <==> e.Bin?) && (Tighten(e).Negate? <==> e.Negate?)
  {
    match e
    case Group(x) => TightenIsStd(x);
    case Negate(x) => if x != Atom(Not) { TightenIsStd(x); }
    case Bin(conj, l, r) =>
      TightenIsStd(l);
      TightenIsStd(r);
      if conj { AttachIsStd(Tighten(l), Tighten(r)); }
    case _ =>
  }

  lemma YieldOfChain(l: Expr, m: Expr, r: Expr, chain: Expr, last: Expr)
    requires Yield(chain) == Yield(l) + [Or] + Yield(m) && Yield(last) == Yield(r)
    ensures Yield(Bin(true, chain, last)) == Yield(Bin(false, l, Bin(true, m, r)))
  {
    assert Yield(l) + [Or] + Yield(m) + [And] + Yield(r) == Yield(l) + [Or] + (Yield(m) + [And] + Yield(r));
  }

  lemma {:induction false} GraftFolds(l: Expr, r: Expr, names: seq<string>)
    requires IsFold(l) && IsStd(r) && !IsOr(r)
    ensures IsFold(Graft(l, r)) && SameText(Graft(l, r), Bin(false, l, r), names)
    decreases r, 1
  {
    if r.Bin? {
      GraftFolds(l, r.left, names);
      LoosenFolds(r.right, names);
      YieldOfChain(l, r.left, r.right, Graft(l, r.left), Loosen(r.right));
    } else {
      LoosenFolds(r, names);
    }
  }

  lemma {:induction false} GraftTightens(l: Expr, r: Expr, names: seq<string>)
    requires IsStd(r) && !IsOr(r)
    ensures Tighten(Graft(l, r)) == Bin(false, Tighten(l), r)
    decreases r, 1
  {
    if r.Bin? {
      GraftTightens(l, r.left, names);
      LoosenFolds(r.right, names);
    } else {
      LoosenFolds(r, names);
    }
  }

  /** What a standard tree is folded into is a tree of the compiler's grammar with the same text,
      and regrouping that gives the standard tree back. */
  lemma {:induction false} LoosenFolds(s: Expr, names: seq<string>)
    requires IsStd(s)
    ensures IsFold(Loosen(s)) && SameText(Loosen(s), s, names) && Tighten(Loosen(s)) == s
    ensures !s.Bin? ==> !Loosen(s).Bin? && (Loosen(s).Negate? <==> s.Negate?)
    decreases s, 0
  {
    match s
    case Group(x) => LoosenFolds(x, names);
    case Negate(x) => if x != Atom(Not) { LoosenFolds(x, names); }
    case Bin(conj, l, r) =>
      LoosenFolds(l, names);
      if conj { LoosenFolds(r, names); } else {
        GraftFolds(Loosen(l), r, names);
        GraftTightens(Loosen(l), r, names);
      }
    case _ =>
  }

  /** A condition that compiles has exactly one standard reading: the compiler's tree regrouped. */
  lemma StandardReading(names: seq<string>, toks: seq<Token>, s: Expr)
    ensures (IsStd(s) && Resolvable(s, names) && Yield(s) == toks) <==>
            (var r := ParseExpr(names, toks); r.Ok? && r.rest == [] && s == Tighten(r.tree))
  {
    if IsStd(s) && Resolvable(s, names) && Yield(s) == toks {
      LoosenFolds(s, names);
      FoldIsExpr(Loosen(s));
      ParseIffTree(names, toks, Loosen(s));
    }
    var r := ParseExpr(names, toks);
    if r.Ok? && r.rest == [] && s == Tighten(r.tree) {
      ParseIffTree(names, toks, r.tree);
      FoldIsExpr(r.tree);
      TightenIsStd(r.tree);
      TightenSameText(r.tree, names);
    }
  }

  // ---------------------------------------------------------------------------
  // When they are the same.
  // ---------------------------------------------------------------------------

  /** An `or` joins operands of the chain of operators that ends at the top of `e`. */
  predicate HasOr(e: Expr) {
    e.Bin? && (!e.conj || HasOr(e.left))
  }

  /** In no chain of operators does an `and` come after an `or`; parentheses start a new chain. */
  predicate NoAndAfterOr(e: Expr) {
    match e
    case Group(x) => NoAndAfterOr(x)
    case Negate(x) => NoAndAfterOr(x)
    case Bin(conj, l, r) => NoAndAfterOr(l) && NoAndAfterOr(r) && (conj ==> !HasOr(l))
    case _ => true
  }

  lemma {:induction false} TopIsOr(e: Expr)
    ensures HasOr(e) <==> Tighten(e).Bin? && !Tighten(e).conj
  {
    if e.Bin? && e.conj { TopIsOr(e.left); }
  }

  lemma {:induction false} SameTreeIff(e: Expr)
    ensures Tighten(e) == e <==> NoAndAfterOr(e)
  {
    match e
    case Group(x) => SameTreeIff(x);
    case Negate(x) => SameTreeIff(x);
    case Bin(conj, l, r) =>
      SameTreeIff(l);
      SameTreeIff(r);
      TopIsOr(l);
    case _ =>
  }

  /** The compiler reads a condition as the specification does if and only if no `and` comes after
      an `or` in one chain of operators. */
  lemma ReadingsAgreeIff(names: seq<string>, toks: seq<Token>)
    requires ParseExpr(names, toks).Ok? && ParseExpr(names, toks).rest == []
    ensures var tree := ParseExpr(names, toks).tree;
            (IsStd(tree) && Resolvable(tree, names) && Yield(tree) == toks) <==> NoAndAfterOr(tree)
  {
    var tree := ParseExpr(names, toks).tree;
    StandardReading(names, toks, tree);
    SameTreeIff(tree);
  }

  /** Where the readings part, `a or b and c`, they give different answers exactly when `a` holds
      and `c` does not. */
  lemma MeaningsDifferIff(a: Expr, b: Expr, c: Expr, names: seq<string>, holds: seq<bool>)
    requires |holds| == |names|
    ensures Eval(Bin(true, Bin(false, a, b), c), names, holds) != Eval(Bin(false, a, Bin(true, b, c)), names, holds)
            <==> Eval(a, names, holds) && !Eval(c, names, holds)
  {
  }

  const ABC: seq<string> := ["a", "b", "c"]

  /** One-letter names refer to themselves. */
  lemma LetterNamed(i: nat, holds: seq<bool>)
    requires i < 3 && |holds| == 3
    ensures NameResolves(ABC, ABC[i]) && NamedHolds(ABC[i], ABC, holds) == holds[i]
  {
    var n := ABC[i];
    forall j | 0 <= j < 3 ensures Text.Lower(ABC[j]) == ABC[j] && |ABC[j]| == 1 {
      assert ABC[j] == [ABC[j][0]];
    }
    assert "a"[0] != "b"[0] && "b"[0] != "c"[0] && "a"[0] != "c"[0];
    assert !IsThem(n) && !Text.EndsWithStar(n);
    assert IsFirstNamed(n, ABC, i);
  }

  /** A chain of three names, `x or y and z`, as the compiler reads it. */
  lemma ThreeNamesParse(x: string, y: string, z: string, names: seq<string>)
    requires NameResolves(names, x) && NameResolves(names, y) && NameResolves(names, z)
    ensures ParseExpr(names, [Word(x), Or, Word(y), And, Word(z)]) ==
            Ok(Bin(true, Bin(false, Atom(Word(x)), Atom(Word(y))), Atom(Word(z))), [])
  {
    var (a, b, c) := (Atom(Word(x)), Atom(Word(y)), Atom(Word(z)));
    var tree := Bin(true, Bin(false, a, b), c);
    assert Yield(a) == [Word(x)] && Yield(b) == [Word(y)] && Yield(c) == [Word(z)];
    assert Yield(Bin(false, a, b)) == [Word(x), Or, Word(y)];
    assert Yield(tree) == [Word(x), Or, Word(y), And, Word(z)];
    FoldIsExpr(tree);
    assert IsFold(a) && IsFold(b) && IsFold(c) && IsFold(Bin(false, a, b));
    assert Resolvable(a, names) && Resolvable(b, names) && Resolvable(c, names) && Resolvable(Bin(false, a, b), names);
    ParseIffTree(names, Yield(tree), tree);
  }

  /** The tokens of `a or b and c`. */
  function OrAnd(): seq<Token> {
    [Word(ABC[0]), Or, Word(ABC[1]), And, Word(ABC[2])]
  }

  lemma OrAndScannable()
    ensures AllScannable(OrAnd())
  {
    forall i | 0 <= i < 3 ensures IsPlainName(ABC[i]) {
      var n := ABC[i];
      assert |n| == 1 && 'a' <= n[0] <= 'c';
      KeywordOfOpens(n);
      NameLengthOf(n, 1);
      assert forall w :: w in KEYWORDS && |w| == 1 ==> w[0] == '1';
    }
  }

  lemma OrAndParses(b: bool)
    ensures var (holds, r) := ([true, b, false], ParseExpr(ABC, OrAnd()));
            r.Ok? && r.rest == [] && !Eval(r.tree, ABC, holds) && Eval(Tighten(r.tree), ABC, holds)
  {
    var holds := [true, b, false];
    LetterNamed(0, holds);
    LetterNamed(1, holds);
    LetterNamed(2, holds);
    ThreeNamesParse(ABC[0], ABC[1], ABC[2], ABC);
    ThreeNamesMean(ABC[0], ABC[1], ABC[2], ABC, holds);
  }

  /** The condition `a or b and c`, however it is spaced, where `a` holds and `c` does not: the
      compiler says no, the specification yes. */
  lemma OrThenAnd(b: bool, gaps: seq<string>)
    requires |gaps| == |OrAnd()| && AllGaps(gaps) && Separated(OrAnd(), gaps)
    ensures var (text, holds) := (Render(OrAnd(), gaps), [true, b, false]);
            var r := ParseExpr(ABC, Classified(Tokens(text)));
            r.Ok? && r.rest == [] && !Eval(r.tree, ABC, holds) && Eval(Tighten(r.tree), ABC, holds)
  {
    OrAndScannable();
    ScanRenderedIff(OrAnd(), gaps);
    OrAndParses(b);
  }

  lemma ThreeNamesMean(x: string, y: string, z: string, names: seq<string>, holds: seq<bool>)
    requires |holds| == |names|
    requires NamedHolds(x, names, holds) && !NamedHolds(z, names, holds)
    ensures var tree := Bin(true, Bin(false, Atom(Word(x)), Atom(Word(y))), Atom(Word(z)));
            !Eval(tree, names, holds) && Eval(Tighten(tree), names, holds)
  {
    var (a, b, c) := (Atom(Word(x)), Atom(Word(y)), Atom(Word(z)));
    var either := Bin(false, a, b);
    assert Eval(a, names, holds) && !Eval(c, names, holds);
    assert Tighten(a) == a && Tighten(b) == b && Tighten(c) == c && Tighten(either) == either;
    assert Tighten(Bin(true, either, c)) == Attach(either, c) == Bin(false, a, Bin(true, b, c));
  }
}
