/** When the two readings of a condition mean the same: for conditions that name each of their
    selections once, exactly when they are the same tree. */
module SigmaMeanings {
  import opened Text
  import opened SigmaSyntax
  import opened SigmaPrecedence

  // ---------------------------------------------------------------------------
  // Conditions over single selections.
  // ---------------------------------------------------------------------------

  predicate IsSingle(name: string, names: seq<string>) {
    !IsThem(name) && !EndsWithStar(name) && SomeNamed(names, name)
  }

  /** The first selection of that name from position `i` on. */
  function FirstFrom(names: seq<string>, name: string, i: nat): (k: nat)
    requires i <= |names| && SomeNamed(names, name)
    requires forall j :: 0 <= j < i ==> Lower(names[j]) != Lower(name)
    ensures IsFirstNamed(name, names, k)
    decreases |names| - i
  {
    if i == |names| || Lower(names[i]) == Lower(name) then i else FirstFrom(names, name, i + 1)
  }

  /** Every leaf names one selection. */
  predicate Plain(e: Expr, names: seq<string>) {
    match e
    case Atom(t) => IsSingle(Spelling(t), names)
    case Quant(_, _) => false
    case Group(x) => Plain(x, names)
    case Negate(x) => Plain(x, names)
    case Bin(_, l, r) => Plain(l, names) && Plain(r, names)
  }

  /** The selections that it names. */
  function Vars(e: Expr, names: seq<string>): (vars: set<nat>)
    requires Plain(e, names)
    ensures forall v :: v in vars ==> v < |names|
  {
    match e
    case Atom(t) => {FirstFrom(names, Spelling(t), 0)}
    case Group(x) => Vars(x, names)
    case Negate(x) => Vars(x, names)
    case Bin(_, l, r) => Vars(l, names) + Vars(r, names)
  }

  /** It names none of them twice. */
  predicate ReadOnce(e: Expr, names: seq<string>) {
    Plain(e, names) &&
    match e
    case Group(x) => ReadOnce(x, names)
    case Negate(x) => ReadOnce(x, names)
    case Bin(_, l, r) => ReadOnce(l, names) && ReadOnce(r, names) && Vars(l, names) !! Vars(r, names)
    case _ => true
  }

  predicate Value(e: Expr, names: seq<string>, holds: seq<bool>)
    requires Plain(e, names) && |holds| == |names|
  {
    match e
    case Atom(t) => holds[FirstFrom(names, Spelling(t), 0)]
    case Group(x) => Value(x, names, holds)
    case Negate(x) => !Value(x, names, holds)
    case Bin(conj, l, r) =>
      if conj then Value(l, names, holds) && Value(r, names, holds) else Value(l, names, holds) || Value(r, names, holds)
  }

  lemma {:induction false} EvalIsValue(e: Expr, names: seq<string>, holds: seq<bool>)
    requires Plain(e, names) && |holds| == |names|
    ensures Eval(e, names, holds) == Value(e, names, holds)
  {
    match e
    case Atom(t) =>
      var k := FirstFrom(names, Spelling(t), 0);
      assert forall i :: IsFirstNamed(Spelling(t), names, i) ==> i == k;
    case Group(x) => EvalIsValue(x, names, holds);
    case Negate(x) => EvalIsValue(x, names, holds);
    case Bin(_, l, r) =>
      EvalIsValue(l, names, holds);
      EvalIsValue(r, names, holds);
  }

  predicate SameOn(vars: set<nat>, h: seq<bool>, h': seq<bool>) {
    |h| == |h'| && forall v :: v in vars && v < |h| ==> h[v] == h'[v]
  }

  lemma {:induction false} ValueDepends(e: Expr, names: seq<string>, h: seq<bool>, h': seq<bool>)
    requires Plain(e, names) && |h| == |names| && SameOn(Vars(e, names), h, h')
    ensures Value(e, names, h) == Value(e, names, h')
  {
    match e
    case Group(x) => ValueDepends(x, names, h, h');
    case Negate(x) => ValueDepends(x, names, h, h');
    case Bin(_, l, r) =>
      ValueDepends(l, names, h, h');
      ValueDepends(r, names, h, h');
    case _ =>
  }

  /** Regrouping names the same selections. */
  lemma {:induction false} TightenVars(e: Expr, names: seq<string>)
    requires Plain(e, names)
    ensures Plain(Tighten(e), names) && Vars(Tighten(e), names) == Vars(e, names)
  {
    match e
    case Group(x) => TightenVars(x, names);
    case Negate(x) => TightenVars(x, names);
    case Bin(conj, l, r) =>
      TightenVars(l, names);
      TightenVars(r, names);
      if conj { AttachVars(Tighten(l), Tighten(r), names); }
    case _ =>
  }

  lemma AttachVars(l: Expr, t: Expr, names: seq<string>)
    requires Plain(l, names) && Plain(t, names)
    ensures Plain(Attach(l, t), names) && Vars(Attach(l, t), names) == Vars(l, names) + Vars(t, names)
  {
    if IsOr(l) { assert Plain(Bin(true, l.right, t), names); }
  }

  // ---------------------------------------------------------------------------
  // Choosing which selections hold.
  // ---------------------------------------------------------------------------

  /** Both readings are `b`, and so is all that comes before the last `or` of the regrouped one. */
  predicate Makes(e: Expr, names: seq<string>, b: bool, h: seq<bool>)
    requires Plain(e, names) && |h| == |names|
  {
    TightenVars(e, names);
    var t := Tighten(e);
    Value(e, names, h) == b && Value(t, names, h) == b && (IsOr(t) ==> Value(t.left, names, h) == b)
  }

  predicate Differs(e: Expr, names: seq<string>, h: seq<bool>)
    requires Plain(e, names) && |h| == |names|
  {
    TightenVars(e, names);
    Value(e, names, h) != Value(Tighten(e), names, h)
  }

  lemma BothDepend(e: Expr, names: seq<string>, b: bool, h: seq<bool>, h': seq<bool>)
    requires Plain(e, names) && |h| == |names| && SameOn(Vars(e, names), h, h')
    ensures Makes(e, names, b, h) == Makes(e, names, b, h') && Differs(e, names, h) == Differs(e, names, h')
  {
    TightenVars(e, names);
    var t := Tighten(e);
    ValueDepends(e, names, h, h');
    ValueDepends(t, names, h, h');
    if IsOr(t) { ValueDepends(t.left, names, h, h'); }
  }

  /** Outside the selections of the condition nothing is chosen. */
  predicate Elsewhere(e: Expr, names: seq<string>, h: seq<bool>, h': seq<bool>)
    requires Plain(e, names)
  {
    |h| == |h'| && forall v: nat :: v < |h| && v !in Vars(e, names) ==> h[v] == h'[v]
  }

  lemma JoinMakes(conj: bool, l: Expr, r: Expr, names: seq<string>, b: bool, h: seq<bool>)
    requires Plain(l, names) && Plain(r, names) && |h| == |names|
    requires Makes(l, names, b, h) && Makes(r, names, b, h)
    ensures Makes(Bin(conj, l, r), names, b, h)
  {
    TightenVars(l, names);
    TightenVars(r, names);
    TightenVars(Bin(conj, l, r), names);
    var (tl, tr) := (Tighten(l), Tighten(r));
    if conj && IsOr(tl) {
      assert Tighten(Bin(conj, l, r)) == Bin(false, tl.left, Bin(true, tl.right, tr));
      assert Value(Bin(true, tl.right, tr), names, h) == (Value(tl.right, names, h) && Value(tr, names, h));
    }
  }

  /** Any condition that names each selection once can be made true, or false, in both readings. */
  lemma {:induction false} Make(e: Expr, names: seq<string>, b: bool, h: seq<bool>) returns (h': seq<bool>)
    requires ReadOnce(e, names) && |h| == |names|
    ensures Elsewhere(e, names, h, h') && Makes(e, names, b, h')
  {
    match e
    case Atom(t) => h' := h[FirstFrom(names, Spelling(t), 0) := b];
    case Group(x) =>
      h' := Make(x, names, b, h);
      TightenVars(x, names);
    case Negate(x) =>
      h' := Make(x, names, !b, h);
      TightenVars(x, names);
    case Bin(conj, l, r) =>
      var h1 := Make(l, names, b, h);
      h' := Make(r, names, b, h1);
      BothDepend(l, names, b, h1, h');
      JoinMakes(conj, l, r, names, b, h');
  }

  // ---------------------------------------------------------------------------
  // Telling the readings apart.
  // ---------------------------------------------------------------------------

  /** An `and` after an `or`: with everything true before it and the operand after it false, the
      compiler says no and the specification yes. */
  lemma AndAfterOrDiffers(l: Expr, r: Expr, names: seq<string>, h: seq<bool>)
    requires Plain(l, names) && Plain(r, names) && |h| == |names|
    requires HasOr(l) && Makes(l, names, true, h) && Makes(r, names, false, h)
    ensures Differs(Bin(true, l, r), names, h)
  {
    TopIsOr(l);
    TightenVars(l, names);
    TightenVars(r, names);
    TightenVars(Bin(true, l, r), names);
    assert Tighten(Bin(true, l, r)) == Bin(false, Tighten(l).left, Bin(true, Tighten(l).right, Tighten(r)));
  }

  /** A difference in one operand shows, if the other is true beside an `and`, false beside an `or`. */
  lemma OperandShows(conj: bool, l: Expr, r: Expr, names: seq<string>, h: seq<bool>)
    requires Plain(l, names) && Plain(r, names) && |h| == |names| && (conj ==> !HasOr(l))
    requires (Differs(l, names, h) && Makes(r, names, conj, h)) || (Makes(l, names, conj, h) && Differs(r, names, h))
    ensures Differs(Bin(conj, l, r), names, h)
  {
    TopIsOr(l);
    TightenVars(l, names);
    TightenVars(r, names);
    TightenVars(Bin(conj, l, r), names);
    assert Tighten(Bin(conj, l, r)) == Bin(conj, Tighten(l), Tighten(r));
  }

  lemma {:induction false} TellApart(e: Expr, names: seq<string>, h: seq<bool>) returns (h': seq<bool>)
    requires ReadOnce(e, names) && |h| == |names| && !NoAndAfterOr(e)
    ensures Elsewhere(e, names, h, h') && Differs(e, names, h')
  {
    match e
    case Group(x) =>
      h' := TellApart(x, names, h);
      TightenVars(x, names);
    case Negate(x) =>
      h' := TellApart(x, names, h);
      TightenVars(x, names);
    case Bin(conj, l, r) =>
      if conj && HasOr(l) {
        var h1 := Make(l, names, true, h);
        h' := Make(r, names, false, h1);
        BothDepend(l, names, true, h1, h');
        AndAfterOrDiffers(l, r, names, h');
      } else if !NoAndAfterOr(l) {
        var h1 := TellApart(l, names, h);
        h' := Make(r, names, conj, h1);
        BothDepend(l, names, conj, h1, h');
        OperandShows(conj, l, r, names, h');
      } else {
        var h1 := TellApart(r, names, h);
        h' := Make(l, names, conj, h1);
        BothDepend(r, names, conj, h1, h');
        OperandShows(conj, l, r, names, h');
      }
  }

  /** A condition that names each of its selections once means the same in both readings, whichever
      selections hold, if and only if no `and` comes after an `or` in one chain of operators. */
  lemma MeaningsAgreeIff(e: Expr, names: seq<string>)
    requires ReadOnce(e, names)
    ensures (forall holds: seq<bool> :: |holds| == |names| ==>
               Eval(e, names, holds) == Eval(Tighten(e), names, holds))
            <==> NoAndAfterOr(e)
  {
    SameTreeIff(e);
    TightenVars(e, names);
    if !NoAndAfterOr(e) {
      var holds := TellApart(e, names, seq(|names|, _ => false));
      EvalIsValue(e, names, holds);
      EvalIsValue(Tighten(e), names, holds);
      assert Eval(e, names, holds) != Eval(Tighten(e), names, holds);
    }
  }
}
