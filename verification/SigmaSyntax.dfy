/** The condition language of a Sigma rule: its tokens, its syntax trees, and what a tree
    says about the selections of a rule. */
module SigmaSyntax {
  import opened Text

  /** A token as the parser tells tokens apart: the eight it compares for, case ignored, and
      every other text. */
  datatype Token = Open | Close | One | All | Of | Not | And | Or | Word(text: string)

  function Classify(tok: string): Token {
    var w := Lower(tok);
    if w == "(" then Open
    else if w == ")" then Close
    else if w == "1" then One
    else if w == "all" then All
    else if w == "of" then Of
    else if w == "not" then Not
    else if w == "and" then And
    else if w == "or" then Or
    else Word(tok)
  }

  /** The text of a token, as far as name lookup can tell. */
  function Spelling(t: Token): string {
    match t
    case Open => "("
    case Close => ")"
    case One => "1"
    case All => "all"
    case Of => "of"
    case Not => "not"
    case And => "and"
    case Or => "or"
    case Word(text) => text
  }

  /** A condition with its parentheses kept as `Group`, so that a tree writes down exactly
      one token list. */
  datatype Expr =
    | Atom(name: Token)
    | Quant(all: bool, pattern: Token)
    | Group(inner: Expr)
    | Negate(operand: Expr)
    | Bin(conj: bool, left: Expr, right: Expr)

  function OpToken(conj: bool): Token {
    if conj then And else Or
  }

  /** The tokens that a tree writes down. */
  function Yield(e: Expr): (toks: seq<Token>)
    ensures |toks| >= 1
  {
    match e
    case Atom(name) => [name]
    case Quant(all, pattern) => [if all then All else One, Of, pattern]
    case Group(x) => [Open] + Yield(x) + [Close]
    case Negate(x) => [Not] + Yield(x)
    case Bin(conj, l, r) => Yield(l) + [OpToken(conj)] + Yield(r)
  }

  /** The grammar. `and` and `or` bind equally and to the left; `not` takes one factor. A
      name is any token but the three that open another kind of factor, and `not` counts as
      a name only directly under a `not`. */
  predicate IsFactor(e: Expr)
    decreases e, 0
  {
    match e
    case Atom(t) => t != Open && t != One && t != All
    case Quant(_, _) => true
    case Group(x) => IsExpr(x)
    case _ => false
  }

  predicate IsTerm(e: Expr)
    decreases e, 1
  {
    if e.Negate? then IsFactor(e.operand) else IsFactor(e) && e != Atom(Not)
  }

  predicate IsExpr(e: Expr)
    decreases e, 2
  {
    if e.Bin? then IsExpr(e.left) && IsTerm(e.right) else IsTerm(e)
  }

  predicate IsThem(name: string) {
    Lower(name) == "them"
  }

  /** Some selection name matches the pattern, case ignored. */
  predicate SomeMatch(names: seq<string>, pattern: string) {
    exists i :: 0 <= i < |names| && GlobMatch(Lower(names[i]), Lower(pattern))
  }

  predicate SomeNamed(names: seq<string>, name: string) {
    exists i :: 0 <= i < |names| && Lower(names[i]) == Lower(name)
  }

  predicate NameResolves(names: seq<string>, name: string) {
    IsThem(name) || if EndsWithStar(name) then SomeMatch(names, name) else SomeNamed(names, name)
  }

  predicate PatternResolves(names: seq<string>, pattern: string) {
    IsThem(pattern) || SomeMatch(names, pattern)
  }

  /** Every name and pattern in the tree refers to some selection. */
  predicate Resolvable(e: Expr, names: seq<string>) {
    match e
    case Atom(t) => NameResolves(names, Spelling(t))
    case Quant(_, t) => PatternResolves(names, Spelling(t))
    case Group(x) => Resolvable(x, names)
    case Negate(x) => Resolvable(x, names)
    case Bin(_, l, r) => Resolvable(l, names) && Resolvable(r, names)
  }

  /** `pattern` covers selection `i`: `them` covers every selection. */
  predicate Covers(pattern: string, names: seq<string>, i: int)
    requires 0 <= i < |names|
  {
    IsThem(pattern) || GlobMatch(Lower(names[i]), Lower(pattern))
  }

  lemma StarKept(before: string)
    ensures Lower(before + "*") == Lower(before) + "*" && !IsThem(before + "*")
  {
    LowerAppend(before, "*");
    LowerWord("*");
    assert (Lower(before) + "*")[|Lower(before)|] == '*' && '*' !in "them";
  }

  lemma StarMatches(name: string, start: string)
    ensures GlobMatch(name, start + "*") <==> exists after :: name == start + after
  {
    assert (start + "*")[..|start|] == start;
    if start <= name { assert name == start + name[|start|..]; }
  }

  /** A star stands for any end: the pattern covers the names that begin with what is before it. */
  lemma StarCovers(before: string, names: seq<string>, i: int)
    requires 0 <= i < |names|
    ensures Covers(before + "*", names, i) <==> exists after :: Lower(names[i]) == Lower(before) + after
  {
    StarKept(before);
    StarMatches(Lower(names[i]), Lower(before));
  }

  /** `i` is the first selection with that name, case ignored. */
  predicate IsFirstNamed(name: string, names: seq<string>, i: int) {
    0 <= i < |names| && Lower(names[i]) == Lower(name)
    && forall j :: 0 <= j < i ==> Lower(names[j]) != Lower(name)
  }

  lemma {:induction false} FirstNamed(name: string, names: seq<string>, k: nat) returns (i: nat)
    requires k < |names| && Lower(names[k]) == Lower(name)
    ensures IsFirstNamed(name, names, i)
  {
    if j :| 0 <= j < k && Lower(names[j]) == Lower(name) { i := FirstNamed(name, names, j); } else { i := k; }
  }

  /** The name stands for selection `i`: a pattern for one that it covers, another name for the first
      that is called so. */
  predicate StandsFor(name: string, names: seq<string>, i: int) {
    0 <= i < |names| && if EndsWithStar(name) then Covers(name, names, i) else IsFirstNamed(name, names, i)
  }

  /** A name is accepted exactly when it is `them` or stands for some selection. */
  lemma ResolvesIff(names: seq<string>, name: string)
    ensures NameResolves(names, name) <==> IsThem(name) || exists i :: StandsFor(name, names, i)
    ensures PatternResolves(names, name) <==> IsThem(name) || exists i :: 0 <= i < |names| && Covers(name, names, i)
  {
    if !IsThem(name) {
      forall i | 0 <= i < |names| ensures Covers(name, names, i) <==> GlobMatch(Lower(names[i]), Lower(name)) {}
      if EndsWithStar(name) {
        forall i | 0 <= i < |names| ensures Covers(name, names, i) <==> StandsFor(name, names, i) {}
      } else if SomeNamed(names, name) {
        var k :| 0 <= k < |names| && Lower(names[k]) == Lower(name);
        var i := FirstNamed(name, names, k);
        assert StandsFor(name, names, i);
      }
    }
  }

  /** `them` is that word in any letter case, and covers every selection. */
  lemma ThemIff(name: string, names: seq<string>, i: int)
    requires 0 <= i < |names|
    ensures IsThem(name) <==> |name| == 4 && name[0] in "tT" && name[1] in "hH" && name[2] in "eE" && name[3] in "mM"
    ensures IsThem(name) ==> Covers(name, names, i)
  {
    if IsThem(name) {
      LowerEqualsWord(name, "them");
    } else if |name| == 4 && name[0] in "tT" && name[1] in "hH" && name[2] in "eE" && name[3] in "mM" {
      LowerFour(name, "them");
    }
  }

  lemma LowerFour(s: string, w: string)
    requires |s| == 4 == |w| && forall i :: 0 <= i < 4 ==> LowerChar(s[i]) == [w[i]]
    ensures Lower(s) == w
  {
    assert s[1..][1..] == s[2..] && s[2..][1..] == s[3..] && s[3..][1..] == "";
    assert Lower(s[3..]) == [w[3]] && Lower(s[2..]) == [w[2], w[3]] && Lower(s[1..]) == [w[1], w[2], w[3]];
  }

  ghost predicate SomeCoveredHolds(pattern: string, names: seq<string>, holds: seq<bool>)
    requires |holds| == |names|
  {
    exists i :: 0 <= i < |names| && Covers(pattern, names, i) && holds[i]
  }

  ghost predicate AllCoveredHold(pattern: string, names: seq<string>, holds: seq<bool>)
    requires |holds| == |names|
  {
    forall i :: 0 <= i < |names| && Covers(pattern, names, i) ==> holds[i]
  }

  ghost predicate NamedHolds(name: string, names: seq<string>, holds: seq<bool>)
    requires |holds| == |names|
  {
    if IsThem(name) || EndsWithStar(name) then SomeCoveredHolds(name, names, holds)
    else exists i :: IsFirstNamed(name, names, i) && holds[i]
  }

  /** The meaning of a condition, given which selections hold: `holds[i]` for `names[i]`. */
  ghost predicate Eval(e: Expr, names: seq<string>, holds: seq<bool>)
    requires |holds| == |names|
  {
    match e
    case Atom(t) => NamedHolds(Spelling(t), names, holds)
    case Quant(all, t) =>
      if all then AllCoveredHold(Spelling(t), names, holds) else SomeCoveredHolds(Spelling(t), names, holds)
    case Group(x) => Eval(x, names, holds)
    case Negate(x) => !Eval(x, names, holds)
    case Bin(conj, l, r) =>
      if conj then Eval(l, names, holds) && Eval(r, names, holds)
      else Eval(l, names, holds) || Eval(r, names, holds)
  }
}
