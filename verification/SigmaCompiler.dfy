/** `compile_rule`: selections become predicates over events, the condition is parsed into
    closures over those predicates, and the result is the rule's predicate. */
module SigmaCompiler {
  import opened Options
  import opened Text
  import opened SigmaFields
  import opened SigmaSyntax
  import opened SigmaGrammar
  import opened SigmaTokenizer

  datatype Outcome<T, E> = Good(value: T) | Bad(error: E)

  type Pred = Event -> bool

  datatype CompileError =
    | NoEventKinds
    | NoCondition
    | BadSelection
    | BadCondition(error: ParseError)
    | TrailingTokens

  // ---------------------------------------------------------------------------
  // Selections.
  // ---------------------------------------------------------------------------

  function KindsFor(category: Option<string>): seq<string> {
    match category
    case Some("process_creation") => ["process.created"]
    case Some("authentication") => ["auth.succeeded", "auth.failed"]
    case Some("network_connection") => ["network.connection"]
    case Some("file_event") => ["file.created"]
    case _ => []
  }

  /** The rule categories that look at each kind of event. */
  lemma CategoriesFor(category: Option<string>)
    ensures "process.created" in KindsFor(category) <==> category == Some("process_creation")
    ensures "auth.succeeded" in KindsFor(category) <==> category == Some("authentication")
    ensures "auth.failed" in KindsFor(category) <==> category == Some("authentication")
    ensures "network.connection" in KindsFor(category) <==> category == Some("network_connection")
    ensures "file.created" in KindsFor(category) <==> category == Some("file_event")
  {
  }

  ghost predicate BodyReadable(body: Body) {
    body.Mapping? && forall i :: 0 <= i < |body.fields| ==> Readable(body.fields[i].0, body.fields[i].1)
  }

  /** A selection holds when every one of its fields does. */
  ghost predicate BodyHolds(lib: Library, body: Body, ev: Event) {
    body.Mapping? && forall i :: 0 <= i < |body.fields| ==> FieldSays(lib, body.fields[i].0, body.fields[i].1, ev)
  }

  function AllHold(ps: seq<Pred>, ev: Event): (r: bool)
    ensures r <==> forall i :: 0 <= i < |ps| ==> ps[i](ev)
  {
    if ps == [] then true
    else
      assert forall i :: 0 < i < |ps| ==> ps[i] == ps[1..][i - 1];
      ps[0](ev) && AllHold(ps[1..], ev)
  }

  /** The matcher of one field: what it says of an event's text. */
  method CompileField(lib: Library, key: string, raw: RawValues) returns (r: Outcome<Pred, CompileError>)
    ensures r.Good? <==> Readable(key, raw)
    ensures r.Good? ==> forall ev: Event :: r.value(ev) == FieldSays(lib, key, raw, ev)
    ensures r.Bad? ==> r.error == BadSelection
  {
    var field := ReadField((key, raw));
    ReadIsReadable(key, raw);
    if field.None? {
      return Bad(BadSelection);
    }
    var f := field.value;
    forall ev: Event ensures FieldHolds(lib, f, ev) == FieldSays(lib, key, raw, ev) {
      MatcherMeans(lib, key, raw, ev);
    }
    return Good(ev => FieldHolds(lib, f, ev));
  }

  /** One matcher for each field, and their conjunction. */
  method CompileSelection(lib: Library, body: Body) returns (r: Outcome<Pred, CompileError>)
    ensures r.Good? <==> BodyReadable(body)
    ensures r.Good? ==> forall ev: Event :: r.value(ev) == BodyHolds(lib, body, ev)
    ensures r.Bad? ==> r.error == BadSelection
  {
    if body.NotMapping? {
      return Bad(BadSelection);
    }
    var matchers: seq<Pred> := [];
    for i := 0 to |body.fields|
      invariant |matchers| == i
      invariant forall j :: 0 <= j < i ==> Readable(body.fields[j].0, body.fields[j].1)
      invariant forall j, ev: Event :: 0 <= j < i ==>
                  matchers[j](ev) == FieldSays(lib, body.fields[j].0, body.fields[j].1, ev)
    {
      var (key, raw) := body.fields[i];
      var p := CompileField(lib, key, raw);
      if p.Bad? {
        return p;
      }
      matchers := matchers + [p.value];
    }
    var ms := matchers;
    return Good(ev => AllHold(ms, ev));
  }

  // ---------------------------------------------------------------------------
  // The condition parser.
  // ---------------------------------------------------------------------------

  type Selections = seq<(string, Pred)>

  function NamesOf<T>(entries: seq<(string, T)>): (names: seq<string>)
    ensures |names| == |entries|
  {
    seq(|entries|, i requires 0 <= i < |entries| => entries[i].0)
  }

  function HoldsOf(sels: Selections, ev: Event): (holds: seq<bool>)
    ensures |holds| == |sels|
  {
    seq(|sels|, i requires 0 <= i < |sels| => sels[i].1(ev))
  }

  /** `p` is the meaning of the tree `e` over these selections. */
  ghost predicate Compiles(p: Pred, e: Expr, sels: Selections) {
    forall ev: Event :: p(ev) == Eval(e, NamesOf(sels), HoldsOf(sels, ev))
  }

  /** The positions of the selections that the pattern covers, in order. */
  function Covered(names: seq<string>, pattern: string): (ks: seq<nat>)
    ensures forall i :: i in ks <==> 0 <= i < |names| && Covers(pattern, names, i)
  {
    if names == [] then []
    else
      var front, last := names[..|names| - 1], |names| - 1;
      var ks := Covered(front, pattern);
      assert forall i :: 0 <= i < last ==> Covers(pattern, front, i) == Covers(pattern, names, i);
      if Covers(pattern, names, last) then ks + [last] else ks
  }

  predicate AnyOf(sels: Selections, ks: seq<nat>, ev: Event)
    requires forall k :: k in ks ==> k < |sels|
  {
    exists k :: k in ks && sels[k].1(ev)
  }

  predicate AllOf(sels: Selections, ks: seq<nat>, ev: Event)
    requires forall k :: k in ks ==> k < |sels|
  {
    forall k :: k in ks ==> sels[k].1(ev)
  }

  lemma CoveredEmpty(names: seq<string>, pattern: string)
    requires !IsThem(pattern)
    ensures Covered(names, pattern) == [] <==> !SomeMatch(names, pattern)
  {
    var ks := Covered(names, pattern);
    if ks != [] {
      assert ks[0] in ks && Covers(pattern, names, ks[0]);
    }
    forall i | 0 <= i < |names| && Covers(pattern, names, i) ensures ks != [] {
      assert i in ks;
    }
    if SomeMatch(names, pattern) {
      var i :| 0 <= i < |names| && GlobMatch(Lower(names[i]), Lower(pattern));
      assert Covers(pattern, names, i);
    }
  }

  lemma AnyOfCovered(sels: Selections, pattern: string)
    ensures forall ev: Event ::
              AnyOf(sels, Covered(NamesOf(sels), pattern), ev) == SomeCoveredHolds(pattern, NamesOf(sels), HoldsOf(sels, ev))
  {
    forall ev: Event
      ensures AnyOf(sels, Covered(NamesOf(sels), pattern), ev) == SomeCoveredHolds(pattern, NamesOf(sels), HoldsOf(sels, ev))
    {
      var names, holds, ks := NamesOf(sels), HoldsOf(sels, ev), Covered(NamesOf(sels), pattern);
      assert forall i :: 0 <= i < |sels| ==> holds[i] == sels[i].1(ev);
      forall i | 0 <= i < |names| && Covers(pattern, names, i) && holds[i] ensures AnyOf(sels, ks, ev) {
        assert i in ks;
      }
    }
  }

  lemma AllOfCovered(sels: Selections, pattern: string)
    ensures forall ev: Event ::
              AllOf(sels, Covered(NamesOf(sels), pattern), ev) == AllCoveredHold(pattern, NamesOf(sels), HoldsOf(sels, ev))
  {
    forall ev: Event
      ensures AllOf(sels, Covered(NamesOf(sels), pattern), ev) == AllCoveredHold(pattern, NamesOf(sels), HoldsOf(sels, ev))
    {
      var holds := HoldsOf(sels, ev);
      assert forall i :: 0 <= i < |sels| ==> holds[i] == sels[i].1(ev);
    }
  }

  class Parser {
    const tokens: seq<Token>
    const selections: Selections
    var pos: nat

    constructor (tokens: seq<Token>, selections: Selections)
      ensures this.tokens == tokens && this.selections == selections && pos == 0
    {
      this.tokens := tokens;
      this.selections := selections;
      pos := 0;
    }

    /** The closure returned and the cursor agree with a parse of the tokens ahead. */
    ghost predicate Agrees(r: Outcome<Pred, ParseError>, parse: Parsed)
      reads this
    {
      match parse
      case Err(x) => r.Bad? && r.error == x
      case Ok(tree, rest) => r.Good? && pos <= |tokens| && rest == tokens[pos..] && Compiles(r.value, tree, selections)
    }

    function Peek(): Option<Token>
      reads this
    {
      if pos < |tokens| then Some(tokens[pos]) else None
    }

    method Consume(expected: Option<Token>) returns (r: Outcome<Token, ParseError>)
      modifies this`pos
      ensures pos == if r.Good? then old(pos) + 1 else old(pos)
      ensures r == if old(pos) >= |tokens| then Bad(OutOfTokens)
                   else if expected.Some? && tokens[old(pos)] != expected.value
                   then Bad(Expected(expected.value, tokens[old(pos)]))
                   else Good(tokens[old(pos)])
    {
      if pos >= |tokens| {
        return Bad(OutOfTokens);
      }
      var tok := tokens[pos];
      if expected.Some? && tok != expected.value {
        return Bad(Expected(expected.value, tok));
      }
      pos := pos + 1;
      return Good(tok);
    }

    method ParseExpression() returns (r: Outcome<Pred, ParseError>)
      requires pos <= |tokens|
      modifies this`pos
      ensures Agrees(r, ParseExpr(NamesOf(selections), old(tokens[pos..])))
      decreases |tokens| - pos, 3
    {
      ghost var names, all := NamesOf(selections), tokens[pos..];
      r := ParseOperand();
      if r.Bad? {
        return;
      }
      var left := r.value;
      ghost var tree := ParseTerm(names, all).tree;
      while Peek() == Some(And) || Peek() == Some(Or)
        invariant old(pos) < pos <= |tokens|
        invariant Compiles(left, tree, selections)
        invariant ParseExpr(names, all) == ParseTail(names, tree, tokens[pos..])
        decreases |tokens| - pos
      {
        ghost var before := tokens[pos..];
        var op := tokens[pos];
        pos := pos + 1;
        assert before[0] == op && before[1..] == tokens[pos..];
        r := ParseOperand();
        if r.Bad? {
          return;
        }
        ghost var right := ParseTerm(names, before[1..]).tree;
        left := Combine(op == And, left, r.value, tree, right);
        tree := Bin(op == And, tree, right);
      }
      r := Good(left);
    }

    method Combine(conj: bool, l: Pred, r: Pred, ghost lt: Expr, ghost rt: Expr) returns (p: Pred)
      requires Compiles(l, lt, selections) && Compiles(r, rt, selections)
      ensures Compiles(p, Bin(conj, lt, rt), selections)
    {
      if conj {
        p := ev => l(ev) && r(ev);
      } else {
        p := ev => l(ev) || r(ev);
      }
    }

    method ParseOperand() returns (r: Outcome<Pred, ParseError>)
      requires pos <= |tokens|
      modifies this`pos
      ensures r.Good? ==> old(pos) < pos
      ensures Agrees(r, ParseTerm(NamesOf(selections), old(tokens[pos..])))
      decreases |tokens| - pos, 2
    {
      if Peek() == Some(Not) {
        assert tokens[pos..][1..] == tokens[pos + 1..];
        pos := pos + 1;
        r := ParsePrimary();
        if r.Good? {
          var f := r.value;
          r := Good(ev => !f(ev));
        }
      } else {
        r := ParsePrimary();
      }
    }

    method ParsePrimary() returns (r: Outcome<Pred, ParseError>)
      requires pos <= |tokens|
      modifies this`pos
      ensures r.Good? ==> old(pos) < pos
      ensures Agrees(r, ParseFactor(NamesOf(selections), old(tokens[pos..])))
      decreases |tokens| - pos, 1
    {
      var tok := Peek();
      if tok.None? {
        return Bad(UnexpectedEnd);
      }
      assert tokens[pos..][1..] == tokens[pos + 1..];
      if tok.value == Open {
        pos := pos + 1;
        r := ParseExpression();
        if r.Good? {
          assert pos < |tokens| ==> tokens[pos..][1..] == tokens[pos + 1..];
          var close := Consume(Some(Close));
          if close.Bad? {
            r := Bad(close.error);
          }
        }
      } else if tok.value == One || tok.value == All {
        r := ParseCount();
      } else {
        pos := pos + 1;
        r := Reference(tok.value);
      }
    }

    /** The first selection of that name, case ignored; the number of selections for none. */
    method FindNamed(name: string) returns (i: nat)
      ensures i <= |selections|
      ensures i < |selections| ==> IsFirstNamed(name, NamesOf(selections), i)
      ensures i == |selections| ==> !SomeNamed(NamesOf(selections), name)
    {
      i := 0;
      while i < |selections| && Lower(selections[i].0) != Lower(name)
        invariant 0 <= i <= |selections|
        invariant forall j :: 0 <= j < i ==> Lower(NamesOf(selections)[j]) != Lower(name)
      {
        i := i + 1;
      }
    }

    /** A selection name, a pattern or `them`. */
    method Reference(tok: Token) returns (r: Outcome<Pred, ParseError>)
      requires pos <= |tokens|
      ensures Agrees(r, ParseName(NamesOf(selections), tok, tokens[pos..]))
    {
      var sels, name := selections, Spelling(tok);
      if IsThem(name) || EndsWithStar(name) {
        var ks := Covered(NamesOf(sels), name);
        if !IsThem(name) {
          CoveredEmpty(NamesOf(sels), name);
          if ks == [] {
            return Bad(NoMatch(tok));
          }
        }
        AnyOfCovered(sels, name);
        return Good(ev => AnyOf(sels, ks, ev));
      }
      var i := FindNamed(name);
      if i == |sels| {
        return Bad(UnknownSelection(tok));
      }
      assert IsFirstNamed(name, NamesOf(sels), i);
      var p := sels[i].1;
      return Good(ev => p(ev));
    }

    method ParseCount() returns (r: Outcome<Pred, ParseError>)
      requires pos < |tokens|
      modifies this`pos
      ensures r.Good? ==> old(pos) < pos
      ensures Agrees(r, ParseQuantifier(NamesOf(selections), old(tokens[pos..])))
    {
      var sels := selections;
      ghost var all := tokens[pos..];
      var quant := tokens[pos];
      pos := pos + 1;
      r := Bad(OutOfTokens);
      var of_ := Consume(Some(Of));
      if of_.Bad? {
        return Bad(of_.error);
      }
      var tok := Consume(None);
      if tok.Bad? {
        return Bad(tok.error);
      }
      assert all[3..] == tokens[pos..];
      var pattern := Spelling(tok.value);
      var ks := Covered(NamesOf(sels), pattern);
      if !IsThem(pattern) {
        CoveredEmpty(NamesOf(sels), pattern);
        if ks == [] {
          return Bad(NoMatch(tok.value));
        }
      }
      if quant == One {
        AnyOfCovered(sels, pattern);
        return Good(ev => AnyOf(sels, ks, ev));
      }
      AllOfCovered(sels, pattern);
      return Good(ev => AllOf(sels, ks, ev));
    }
  }

  // ---------------------------------------------------------------------------
  // compile_rule.
  // ---------------------------------------------------------------------------

  /** A rule as read from YAML. `detection` lists the entries of the detection mapping, whose
      keys are distinct; `condition` is the text under that key. */
  datatype Rule = Rule(category: Option<string>, condition: Option<string>, detection: seq<(string, Body)>)

  datatype CompiledRule = CompiledRule(kinds: seq<string>, predicate_: Pred)

  /** The named selections: every entry but `condition` and `timeframe`. */
  function Bodies(detection: seq<(string, Body)>): (bodies: seq<(string, Body)>)
    ensures forall b :: b in bodies ==> b in detection
  {
    if detection == [] then []
    else
      var front, last := detection[..|detection| - 1], detection[|detection| - 1];
      if last.0 == "condition" || last.0 == "timeframe" then Bodies(front) else Bodies(front) + [last]
  }

  /** They are the entries of the detection, in its order, whose key is neither of the two. */
  lemma {:induction false} BodiesAre(detection: seq<(string, Body)>, more: seq<(string, Body)>)
    ensures forall b :: b in Bodies(detection) <==> b in detection && b.0 != "condition" && b.0 != "timeframe"
    ensures Bodies(detection + more) == Bodies(detection) + Bodies(more)
    decreases |detection| + |more|
  {
    if more != [] {
      var front := more[..|more| - 1];
      BodiesAre(detection, front);
      assert (detection + more)[..|detection + more| - 1] == detection + front;
    } else {
      assert detection + more == detection;
      if detection != [] {
        var front := detection[..|detection| - 1];
        assert detection == front + [detection[|detection| - 1]];
        BodiesAre(front, []);
      }
    }
  }

  ghost predicate AllReadable(bodies: seq<(string, Body)>) {
    forall i :: 0 <= i < |bodies| ==> BodyReadable(bodies[i].1)
  }

  /** Which selections hold of an event. */
  ghost function BodiesHold(lib: Library, bodies: seq<(string, Body)>, ev: Event): (holds: seq<bool>)
    ensures |holds| == |bodies|
  {
    seq(|bodies|, i requires 0 <= i < |bodies| => BodyHolds(lib, bodies[i].1, ev))
  }

  /** A rule that compiles: a known category, a condition, readable selections, and a condition
      text that some well-formed tree over those selections writes down. */
  ghost predicate Compilable(rule: Rule) {
    && KindsFor(rule.category) != []
    && rule.condition.Some? && rule.condition.value != ""
    && AllReadable(Bodies(rule.detection))
    && exists e :: IsTreeOf(e, NamesOf(Bodies(rule.detection)), Classified(Tokens(rule.condition.value)))
  }

  method CompileSelections(lib: Library, detection: seq<(string, Body)>) returns (r: Outcome<Selections, CompileError>)
    ensures r.Good? <==> AllReadable(Bodies(detection))
    ensures r.Good? ==> NamesOf(r.value) == NamesOf(Bodies(detection))
    ensures r.Good? ==> forall ev: Event :: HoldsOf(r.value, ev) == BodiesHold(lib, Bodies(detection), ev)
    ensures r.Bad? ==> r.error == BadSelection
  {
    var sels: Selections := [];
    assert detection[..0] == [];
    for i := 0 to |detection|
      invariant AllReadable(Bodies(detection[..i]))
      invariant NamesOf(sels) == NamesOf(Bodies(detection[..i]))
      invariant forall ev: Event :: HoldsOf(sels, ev) == BodiesHold(lib, Bodies(detection[..i]), ev)
    {
      var (name, body) := detection[i];
      assert detection[..i + 1][..i] == detection[..i];
      if name != "condition" && name != "timeframe" {
        var p := CompileSelection(lib, body);
        assert Bodies(detection[..i + 1]) == Bodies(detection[..i]) + [(name, body)];
        if p.Bad? {
          BodiesPrefix(detection, i + 1);
          assert !AllReadable(Bodies(detection[..i + 1])) by {
            assert Bodies(detection[..i + 1])[|Bodies(detection[..i])|] == (name, body);
          }
          return Bad(p.error);
        }
        ghost var done := Bodies(detection[..i]);
        ExtendSelections(lib, sels, done, name, body, p.value);
        sels := sels + [(name, p.value)];
      }
    }
    assert detection[..|detection|] == detection;
    return Good(sels);
  }

  lemma ExtendSelections(
    lib: Library, sels: Selections, bodies: seq<(string, Body)>, name: string, body: Body, p: Pred)
    requires AllReadable(bodies) && BodyReadable(body)
    requires NamesOf(sels) == NamesOf(bodies)
    requires forall ev: Event :: HoldsOf(sels, ev) == BodiesHold(lib, bodies, ev)
    requires forall ev: Event :: p(ev) == BodyHolds(lib, body, ev)
    ensures NamesOf(sels + [(name, p)]) == NamesOf(bodies + [(name, body)])
    ensures forall ev: Event :: HoldsOf(sels + [(name, p)], ev) == BodiesHold(lib, bodies + [(name, body)], ev)
  {
    assert NamesOf(sels + [(name, p)]) == NamesOf(sels) + [name];
    assert NamesOf(bodies + [(name, body)]) == NamesOf(bodies) + [name];
    forall ev: Event
      ensures HoldsOf(sels + [(name, p)], ev) == BodiesHold(lib, bodies + [(name, body)], ev)
    {
      assert HoldsOf(sels + [(name, p)], ev) == HoldsOf(sels, ev) + [p(ev)];
      assert BodiesHold(lib, bodies + [(name, body)], ev) == BodiesHold(lib, bodies, ev) + [BodyHolds(lib, body, ev)];
    }
  }

  lemma {:induction false} BodiesPrefix(detection: seq<(string, Body)>, n: nat)
    requires n <= |detection|
    ensures Bodies(detection[..n]) <= Bodies(detection)
    decreases |detection|
  {
    if n == |detection| {
      assert detection[..n] == detection;
    } else {
      var front := detection[..|detection| - 1];
      assert front[..n] == detection[..n];
      BodiesPrefix(front, n);
    }
  }

  /** Why a rule is refused: the first of the checks, in the order they are made, that fails. */
  ghost function Refusal(rule: Rule): CompileError {
    if KindsFor(rule.category) == [] then NoEventKinds
    else if rule.condition.None? || rule.condition.value == "" then NoCondition
    else if !AllReadable(Bodies(rule.detection)) then BadSelection
    else
      match ParseExpr(NamesOf(Bodies(rule.detection)), Classified(Tokens(rule.condition.value)))
      case Err(x) => BadCondition(x)
      case Ok(_, _) => TrailingTokens
  }

  /** A rule compiles exactly when its parts are well formed, and then its predicate is the
      meaning of the one tree that its condition is written from, for every event. */
  method CompileRule(lib: Library, rule: Rule) returns (r: Outcome<CompiledRule, CompileError>)
    ensures r.Good? <==> Compilable(rule)
    ensures r.Bad? ==> r.error == Refusal(rule)
    ensures r.Good? ==> r.value.kinds == KindsFor(rule.category)
    ensures r.Good? ==>
              forall e, ev: Event ::
                IsTreeOf(e, NamesOf(Bodies(rule.detection)), Classified(Tokens(rule.condition.value))) ==>
                  r.value.predicate_(ev) ==
                  Eval(e, NamesOf(Bodies(rule.detection)), BodiesHold(lib, Bodies(rule.detection), ev))
  {
    var kinds := KindsFor(rule.category);
    if kinds == [] {
      return Bad(NoEventKinds);
    }
    if rule.condition.None? || rule.condition.value == "" {
      return Bad(NoCondition);
    }
    var sels := CompileSelections(lib, rule.detection);
    if sels.Bad? {
      return Bad(sels.error);
    }
    var texts := Tokenize(rule.condition.value);
    var tokens := Classified(texts);
    var parser := new Parser(tokens, sels.value);
    assert tokens[0..] == tokens;
    ghost var names := NamesOf(sels.value);
    var p := parser.ParseExpression();
    forall e ensures IsTreeOf(e, names, tokens) <==> ParseExpr(names, tokens) == Ok(e, []) {
      ParseIffTree(names, tokens, e);
    }
    if p.Bad? {
      return Bad(BadCondition(p.error));
    }
    if parser.pos < |tokens| {
      return Bad(TrailingTokens);
    }
    assert IsTreeOf(ParseExpr(names, tokens).tree, names, tokens);
    return Good(CompiledRule(kinds, p.value));
  }
}
