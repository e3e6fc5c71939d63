/** The recursive-descent parse of a condition as a function on token lists, and the proof
    that it accepts exactly the token lists that the grammar writes down. */
module SigmaGrammar {
  import opened Text
  import opened SigmaSyntax

  /** Why a condition is refused. `OutOfTokens` is the list index error that the source lets
      escape; the other four are its own `UnsupportedSigmaConstruct`. */
  datatype ParseError =
    | UnexpectedEnd
    | Expected(token: Token, got: Token)
    | NoMatch(pattern: Token)
    | UnknownSelection(name: Token)
    | OutOfTokens

  datatype Parsed = Ok(tree: Expr, rest: seq<Token>) | Err(error: ParseError)

  predicate Continues(toks: seq<Token>) {
    toks != [] && (toks[0] == And || toks[0] == Or)
  }

  function ParseExpr(names: seq<string>, toks: seq<Token>): (r: Parsed)
    ensures r.Ok? ==> |r.rest| < |toks|
    decreases |toks|, 3
  {
    match ParseTerm(names, toks)
    case Err(x) => Err(x)
    case Ok(t, rest) => ParseTail(names, t, rest)
  }

  /** What the operator loop makes of the tokens that follow the operand `left`. */
  function ParseTail(names: seq<string>, left: Expr, toks: seq<Token>): (r: Parsed)
    ensures r.Ok? ==> |r.rest| <= |toks|
    decreases |toks|, 3
  {
    if Continues(toks) then
      match ParseTerm(names, toks[1..])
      case Err(x) => Err(x)
      case Ok(t, rest) => ParseTail(names, Bin(toks[0] == And, left, t), rest)
    else Ok(left, toks)
  }

  function ParseTerm(names: seq<string>, toks: seq<Token>): (r: Parsed)
    ensures r.Ok? ==> |r.rest| < |toks|
    decreases |toks|, 2
  {
    if toks != [] && toks[0] == Not then
      match ParseFactor(names, toks[1..])
      case Err(x) => Err(x)
      case Ok(f, rest) => Ok(Negate(f), rest)
    else ParseFactor(names, toks)
  }

  function ParseFactor(names: seq<string>, toks: seq<Token>): (r: Parsed)
    ensures r.Ok? ==> |r.rest| < |toks|
    decreases |toks|, 1
  {
    if toks == [] then Err(UnexpectedEnd)
    else if toks[0] == Open then
      match ParseExpr(names, toks[1..])
      case Err(x) => Err(x)
      case Ok(e, rest) =>
        if rest == [] then Err(OutOfTokens)
        else if rest[0] != Close then Err(Expected(Close, rest[0]))
        else Ok(Group(e), rest[1..])
    else if toks[0] == One || toks[0] == All then ParseQuantifier(names, toks)
    else ParseName(names, toks[0], toks[1..])
  }

  function ParseQuantifier(names: seq<string>, toks: seq<Token>): (r: Parsed)
    requires toks != []
    ensures r.Ok? ==> |r.rest| < |toks|
    decreases |toks|, 0
  {
    if |toks| == 1 then Err(OutOfTokens)
    else if toks[1] != Of then Err(Expected(Of, toks[1]))
    else if |toks| == 2 then Err(OutOfTokens)
    else if PatternResolves(names, Spelling(toks[2])) then Ok(Quant(toks[0] != One, toks[2]), toks[3..])
    else Err(NoMatch(toks[2]))
  }

  function ParseName(names: seq<string>, name: Token, rest: seq<Token>): Parsed {
    if NameResolves(names, Spelling(name)) then Ok(Atom(name), rest)
    else if EndsWithStar(Spelling(name)) then Err(NoMatch(name))
    else Err(UnknownSelection(name))
  }

  // ---------------------------------------------------------------------------
  // Soundness: an accepted prefix is what the tree writes down.
  // ---------------------------------------------------------------------------

  lemma {:induction false} ExprSound(names: seq<string>, toks: seq<Token>)
    ensures var r := ParseExpr(names, toks);
            r.Ok? ==> IsExpr(r.tree) && Resolvable(r.tree, names) && Yield(r.tree) + r.rest == toks && !Continues(r.rest)
    decreases |toks|, 3
  {
    TermSound(names, toks);
    var r := ParseTerm(names, toks);
    if r.Ok? { TailSound(names, r.tree, r.rest); }
  }

  lemma YieldOfBin(left: Expr, right: Expr, toks: seq<Token>, rest: seq<Token>)
    requires Continues(toks) && Yield(right) + rest == toks[1..]
    ensures Yield(Bin(toks[0] == And, left, right)) + rest == Yield(left) + toks
  {
    assert toks == [toks[0]] + (Yield(right) + rest);
  }

  lemma YieldOfGroup(inner: Expr, toks: seq<Token>, rest: seq<Token>)
    requires toks != [] && toks[0] == Open && rest != [] && rest[0] == Close
    requires Yield(inner) + rest == toks[1..]
    ensures Yield(Group(inner)) + rest[1..] == toks
  {
    assert toks == [Open] + (Yield(inner) + rest);
    assert rest == [Close] + rest[1..];
  }

  lemma YieldOfNot(operand: Expr, toks: seq<Token>, rest: seq<Token>)
    requires toks != [] && toks[0] == Not && Yield(operand) + rest == toks[1..]
    ensures Yield(Negate(operand)) + rest == toks
  {
    assert toks == [Not] + (Yield(operand) + rest);
  }

  lemma {:induction false} TailSound(names: seq<string>, left: Expr, toks: seq<Token>)
    requires IsExpr(left) && Resolvable(left, names)
    ensures var r := ParseTail(names, left, toks);
            r.Ok? ==> IsExpr(r.tree) && Resolvable(r.tree, names) && Yield(r.tree) + r.rest == Yield(left) + toks
                      && !Continues(r.rest)
    decreases |toks|, 3
  {
    if Continues(toks) {
      TermSound(names, toks[1..]);
      var t := ParseTerm(names, toks[1..]);
      if t.Ok? {
        YieldOfBin(left, t.tree, toks, t.rest);
        TailSound(names, Bin(toks[0] == And, left, t.tree), t.rest);
      }
    }
  }

  lemma {:induction false} TermSound(names: seq<string>, toks: seq<Token>)
    ensures var r := ParseTerm(names, toks);
            r.Ok? ==> IsTerm(r.tree) && IsExpr(r.tree) && Resolvable(r.tree, names) && Yield(r.tree) + r.rest == toks
    decreases |toks|, 2
  {
    if toks != [] && toks[0] == Not {
      FactorSound(names, toks[1..]);
      var f := ParseFactor(names, toks[1..]);
      if f.Ok? { YieldOfNot(f.tree, toks, f.rest); }
    } else {
      FactorSound(names, toks);
    }
  }

  lemma {:induction false} FactorSound(names: seq<string>, toks: seq<Token>)
    ensures var r := ParseFactor(names, toks);
            r.Ok? ==> IsFactor(r.tree) && Resolvable(r.tree, names) && Yield(r.tree) + r.rest == toks
                      && (r.tree.Atom? ==> r.tree.name == toks[0])
    decreases |toks|, 1
  {
    if toks != [] && toks[0] == Open {
      ExprSound(names, toks[1..]);
      var r := ParseExpr(names, toks[1..]);
      if r.Ok? && r.rest != [] && r.rest[0] == Close {
        YieldOfGroup(r.tree, toks, r.rest);
      }
    }
  }

  // ---------------------------------------------------------------------------
  // Completeness: the tokens of any well-formed tree parse back to that tree.
  // ---------------------------------------------------------------------------

  lemma QuantComplete(names: seq<string>, e: Expr, rest: seq<Token>)
    requires e.Quant? && IsFactor(e) && Resolvable(e, names)
    ensures ParseFactor(names, Yield(e) + rest) == Ok(e, rest)
  {
    var toks := Yield(e) + rest;
    assert toks[0] == Yield(e)[0] && toks[1] == Of && toks[2] == e.pattern && toks[3..] == rest;
  }

  lemma AtomComplete(names: seq<string>, e: Expr, rest: seq<Token>)
    requires e.Atom? && IsFactor(e) && Resolvable(e, names)
    ensures ParseFactor(names, Yield(e) + rest) == Ok(e, rest)
  {
    assert (Yield(e) + rest)[1..] == rest;
  }

  lemma GroupComplete(names: seq<string>, inner: Expr, rest: seq<Token>)
    requires ParseExpr(names, Yield(inner) + ([Close] + rest)) == Ok(inner, [Close] + rest)
    ensures ParseFactor(names, Yield(Group(inner)) + rest) == Ok(Group(inner), rest)
  {
    var toks := Yield(Group(inner)) + rest;
    assert toks == [Open] + (Yield(inner) + ([Close] + rest));
    assert toks[1..] == Yield(inner) + ([Close] + rest);
    assert ([Close] + rest)[1..] == rest;
  }

  lemma {:induction false} FactorComplete(names: seq<string>, e: Expr, rest: seq<Token>)
    requires IsFactor(e) && Resolvable(e, names)
    ensures ParseFactor(names, Yield(e) + rest) == Ok(e, rest)
    decreases e, 0
  {
    match e
    case Group(inner) =>
      ExprComplete(names, inner, [Close] + rest);
      GroupComplete(names, inner, rest);
    case Quant(_, _) => QuantComplete(names, e, rest);
    case _ => AtomComplete(names, e, rest);
  }

  lemma FirstAhead(t: Token, ts: seq<Token>, rest: seq<Token>)
    ensures var all := [t] + ts + rest; all != [] && all[0] == t && all[1..] == ts + rest
  {
    assert [t] + ts + rest == [t] + (ts + rest);
  }

  /** `not` is read over what follows it. */
  lemma NotTurn(names: seq<string>, toks: seq<Token>, operand: Expr, rest: seq<Token>)
    requires toks != [] && toks[0] == Not && ParseFactor(names, toks[1..]) == Ok(operand, rest)
    ensures ParseTerm(names, toks) == Ok(Negate(operand), rest)
  {
  }

  lemma NegateComplete(names: seq<string>, operand: Expr, rest: seq<Token>)
    requires ParseFactor(names, Yield(operand) + rest) == Ok(operand, rest)
    ensures ParseTerm(names, Yield(Negate(operand)) + rest) == Ok(Negate(operand), rest)
  {
    FirstAhead(Not, Yield(operand), rest);
    NotTurn(names, Yield(Negate(operand)) + rest, operand, rest);
  }

  lemma {:induction false} TermComplete(names: seq<string>, e: Expr, rest: seq<Token>)
    requires IsTerm(e) && Resolvable(e, names)
    ensures ParseTerm(names, Yield(e) + rest) == Ok(e, rest)
    decreases e, 1
  {
    if e.Negate? {
      FactorComplete(names, e.operand, rest);
      NegateComplete(names, e.operand, rest);
    } else {
      FactorComplete(names, e, rest);
    }
  }

  /** One turn of the operator loop. */
  lemma TailTurn(names: seq<string>, left: Expr, conj: bool, right: Expr, more: seq<Token>, rest: seq<Token>)
    requires more != [] && more[0] == OpToken(conj) && ParseTerm(names, more[1..]) == Ok(right, rest)
    ensures ParseTail(names, left, more) == ParseTail(names, Bin(conj, left, right), rest)
  {
  }

  lemma YieldAhead(e: Expr, rest: seq<Token>, more: seq<Token>)
    requires e.Bin? && more == [OpToken(e.conj)] + (Yield(e.right) + rest)
    ensures Yield(e) + rest == Yield(e.left) + more && more[0] == OpToken(e.conj) && more[1..] == Yield(e.right) + rest
  {
  }

  /** Reading a whole expression brings the operator loop to where it holds that expression. */
  lemma {:induction false} ExprThenTail(names: seq<string>, e: Expr, rest: seq<Token>)
    requires IsExpr(e) && Resolvable(e, names)
    ensures ParseExpr(names, Yield(e) + rest) == ParseTail(names, e, rest)
    decreases e, 2
  {
    if e.Bin? {
      var more := [OpToken(e.conj)] + (Yield(e.right) + rest);
      YieldAhead(e, rest, more);
      ExprThenTail(names, e.left, more);
      TermComplete(names, e.right, rest);
      TailTurn(names, e.left, e.conj, e.right, more, rest);
    } else {
      TermComplete(names, e, rest);
    }
  }

  lemma {:induction false} ExprComplete(names: seq<string>, e: Expr, rest: seq<Token>)
    requires IsExpr(e) && Resolvable(e, names) && !Continues(rest)
    ensures ParseExpr(names, Yield(e) + rest) == Ok(e, rest)
    decreases e, 3
  {
    ExprThenTail(names, e, rest);
  }

  // ---------------------------------------------------------------------------
  // The two together.
  // ---------------------------------------------------------------------------

  /** `e` is a well-formed condition over these selections, written as these tokens. */
  predicate IsTreeOf(e: Expr, names: seq<string>, toks: seq<Token>) {
    IsExpr(e) && Resolvable(e, names) && Yield(e) == toks
  }

  /** The parser consumes a whole token list exactly when some well-formed tree writes it
      down, and then it returns that tree, which is the only one. */
  lemma {:induction false} ParseIffTree(names: seq<string>, toks: seq<Token>, e: Expr)
    ensures ParseExpr(names, toks) == Ok(e, []) <==> IsTreeOf(e, names, toks)
  {
    if IsTreeOf(e, names, toks) {
      ExprComplete(names, e, []);
      assert Yield(e) + [] == toks;
    }
    if ParseExpr(names, toks) == Ok(e, []) {
      ExprSound(names, toks);
      assert Yield(e) + [] == Yield(e);
    }
  }
}
