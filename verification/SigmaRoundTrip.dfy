/** Writing a condition out with as few parentheses as the grammar allows, and reading the
    text back. */
module SigmaRoundTrip {
  import opened Text
  import opened SigmaSyntax
  import opened SigmaGrammar
  import opened SigmaTokenizer

  /** A condition without parentheses: what its author means. `Ref` is a selection name, a
      pattern or `them`. */
  datatype Cond =
    | Ref(name: string)
    | Some(pattern: string)
    | Every(pattern: string)
    | Neg(operand: Cond)
    | Join(conj: bool, left: Cond, right: Cond)

  predicate PlainNames(c: Cond) {
    match c
    case Ref(n) => IsPlainName(n)
    case Some(p) => IsPlainName(p)
    case Every(p) => IsPlainName(p)
    case Neg(x) => PlainNames(x)
    case Join(_, l, r) => PlainNames(l) && PlainNames(r)
  }

  /** The meaning, said directly. */
  ghost predicate Means(c: Cond, names: seq<string>, holds: seq<bool>)
    requires |holds| == |names|
  {
    match c
    case Ref(n) => NamedHolds(n, names, holds)
    case Some(p) => SomeCoveredHolds(p, names, holds)
    case Every(p) => AllCoveredHold(p, names, holds)
    case Neg(x) => !Means(x, names, holds)
    case Join(conj, l, r) =>
      if conj then Means(l, names, holds) && Means(r, names, holds)
      else Means(l, names, holds) || Means(r, names, holds)
  }

  /** Parentheses where a right operand or a negated one would otherwise be read differently,
      and nowhere else. */
  function Write(c: Cond): Expr
    decreases c, 0
  {
    match c
    case Ref(n) => Atom(Word(n))
    case Some(p) => Quant(false, Word(p))
    case Every(p) => Quant(true, Word(p))
    case Neg(x) => Negate(WriteFactor(x))
    case Join(conj, l, r) => Bin(conj, Write(l), WriteTerm(r))
  }

  function WriteTerm(c: Cond): Expr
    decreases c, 1
  {
    if c.Join? then Group(Write(c)) else Write(c)
  }

  function WriteFactor(c: Cond): Expr
    decreases c, 1
  {
    if c.Join? || c.Neg? then Group(Write(c)) else Write(c)
  }

  /** Forget the parentheses of a tree. */
  function Read(e: Expr): Cond {
    match e
    case Atom(t) => Ref(Spelling(t))
    case Quant(all, t) => if all then Every(Spelling(t)) else Some(Spelling(t))
    case Group(x) => Read(x)
    case Negate(x) => Neg(Read(x))
    case Bin(conj, l, r) => Join(conj, Read(l), Read(r))
  }

  lemma {:induction false} WriteIsExpr(c: Cond)
    requires PlainNames(c)
    ensures IsExpr(Write(c)) && IsTerm(WriteTerm(c)) && IsFactor(WriteFactor(c))
  {
    match c
    case Ref(n) =>
    case Neg(x) => WriteIsExpr(x);
    case Join(_, l, r) =>
      WriteIsExpr(l);
      WriteIsExpr(r);
    case _ =>
  }

  lemma {:induction false} ReadWrite(c: Cond)
    ensures Read(Write(c)) == c
  {
    match c
    case Neg(x) => ReadWrite(x);
    case Join(_, l, r) =>
      ReadWrite(l);
      ReadWrite(r);
    case _ =>
  }

  lemma {:induction false} WriteScannable(c: Cond)
    requires PlainNames(c)
    ensures AllScannable(Yield(Write(c)))
    ensures AllScannable(Yield(WriteTerm(c))) && AllScannable(Yield(WriteFactor(c)))
  {
    match c
    case Neg(x) => WriteScannable(x);
    case Join(_, l, r) =>
      WriteScannable(l);
      WriteScannable(r);
    case _ =>
  }

  lemma {:induction false} WriteMeans(c: Cond, names: seq<string>, holds: seq<bool>)
    requires |holds| == |names|
    ensures Eval(Write(c), names, holds) == Means(c, names, holds)
  {
    match c
    case Neg(x) => WriteMeans(x, names, holds);
    case Join(_, l, r) =>
      WriteMeans(l, names, holds);
      WriteMeans(r, names, holds);
    case _ =>
  }

  /** No well-formed tree with the same meaning-tree is shorter. */
  lemma {:induction false} WriteShortest(e: Expr)
    ensures IsExpr(e) ==> |Yield(Write(Read(e)))| <= |Yield(e)|
    ensures IsTerm(e) ==> |Yield(WriteTerm(Read(e)))| <= |Yield(e)|
    ensures IsFactor(e) ==> |Yield(WriteFactor(Read(e)))| <= |Yield(e)|
  {
    match e
    case Group(x) =>
      WriteShortest(x);
      assert IsTerm(e) == IsFactor(e) == IsExpr(x);
    case Negate(x) =>
      WriteShortest(x);
      assert !IsFactor(e) && IsExpr(e) == IsTerm(e) == IsFactor(x);
      assert |Yield(Write(Read(e)))| == 1 + |Yield(WriteFactor(Read(x)))|;
    case Bin(_, l, r) =>
      assert !IsTerm(e);
      WriteShortest(l);
      WriteShortest(r);
    case _ =>
  }

  /** Any condition over plain names, written out with white space before it, after any token, and
      wherever a name would run on, is read back as itself and keeps its meaning. */
  lemma {:induction false} WriteScanParse(c: Cond, names: seq<string>, lead: string, gaps: seq<string>)
    requires PlainNames(c) && Resolvable(Write(c), names)
    requires forall i :: 0 <= i < |lead| ==> IsGapChar(lead[i])
    requires |gaps| == |Yield(Write(c))| && AllGaps(gaps) && Separated(Yield(Write(c)), gaps)
    ensures var text := lead + Render(Yield(Write(c)), gaps);
            var r := ParseExpr(names, Classified(Tokens(text)));
            r.Ok? && r.rest == [] && Read(r.tree) == c
            && forall holds: seq<bool> :: |holds| == |names| ==> Eval(r.tree, names, holds) == Means(c, names, holds)
  {
    WriteIsExpr(c);
    ReadWrite(c);
    WriteScannable(c);
    var toks := Yield(Write(c));
    SkipGap(lead, Render(toks, gaps));
    ScanRenderedIff(toks, gaps);
    ExprComplete(names, Write(c), []);
    assert toks + [] == toks;
    forall holds: seq<bool> | |holds| == |names|
      ensures Eval(Write(c), names, holds) == Means(c, names, holds)
    {
      WriteMeans(c, names, holds);
    }
  }

  /** One token more at the front of a text. */
  lemma TokenMore(t: Token, gap: string, rest: string, toks: seq<Token>)
    requires Scannable(t) && IsGap(gap) && (t.Word? ==> Stops(t.text, gap + rest))
    requires Classified(Tokens(rest)) == toks
    ensures Classified(Tokens(Spelling(t) + (gap + rest))) == [t] + toks
  {
    HeadScans(t, gap, rest);
    ClassifiedHead(Spelling(t), Tokens(rest));
  }

  lemma UsualTokens(a: string, op: Token, b: string, sp: string)
    requires IsPlainName(a) && IsPlainName(b) && !op.Word? && IsGap(sp) && sp != ""
    ensures Classified(Tokens(a + (sp + (Spelling(op) + (sp + b))))) == [Word(a)] + ([op] + [Word(b)])
  {
    NameSurvivesIff(b);
    TokenMore(op, sp, b, [Word(b)]);
    TokenMore(Word(a), sp, Spelling(op) + (sp + b), [op] + [Word(b)]);
  }

  /** The usual text needs no white space at its end: two names around an operator, `sp` between. */
  lemma UsualText(a: string, conj: bool, b: string, sp: string, names: seq<string>)
    requires IsPlainName(a) && IsPlainName(b) && NameResolves(names, a) && NameResolves(names, b)
    requires IsGap(sp) && sp != ""
    ensures ParseExpr(names, Classified(Tokens(a + (sp + (Spelling(OpToken(conj)) + (sp + b)))))) ==
            Ok(Bin(conj, Atom(Word(a)), Atom(Word(b))), [])
  {
    UsualTokens(a, OpToken(conj), b, sp);
    TwoNamesParse(Word(a), conj, Word(b), names);
  }

  lemma TwoNamesParse(a: Token, conj: bool, b: Token, names: seq<string>)
    requires IsTerm(Atom(a)) && IsTerm(Atom(b)) && NameResolves(names, Spelling(a)) && NameResolves(names, Spelling(b))
    ensures ParseExpr(names, [a] + ([OpToken(conj)] + [b])) == Ok(Bin(conj, Atom(a), Atom(b)), [])
  {
    var tree := Bin(conj, Atom(a), Atom(b));
    assert IsExpr(Atom(a)) && Resolvable(Atom(a), names) && Resolvable(Atom(b), names);
    assert Yield(Atom(a)) == [a] && Yield(Atom(b)) == [b];
    assert Yield(tree) == [a] + ([OpToken(conj)] + [b]);
    ParseIffTree(names, Yield(tree), tree);
  }
}
