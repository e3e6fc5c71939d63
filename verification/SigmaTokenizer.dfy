/** The condition tokenizer: a scan that takes, at each position, the first of a bracket, a
    keyword and an identifier that fits there, and steps over any other character. */
module SigmaTokenizer {
  import opened Text
  import opened SigmaSyntax

  /** `[a-z]` under IGNORECASE also takes four letters outside ASCII. */
  predicate IsLetter(c: char) {
    'a' <= c <= 'z' || 'A' <= c <= 'Z' || c == '\U{0130}' || c == '\U{0131}' || c == '\U{017F}' || c == '\U{212A}'
  }

  predicate StartsName(c: char) {
    IsLetter(c) || c == '_'
  }

  predicate InName(c: char) {
    StartsName(c) || '0' <= c <= '9'
  }

  /** White space and punctuation end a name, but for the underscore. */
  lemma EndsName(c: char)
    requires c <= '/' || ':' <= c <= '@' || '[' <= c <= '^' || c == '`' || '{' <= c <= '\U{7F}'
    ensures !InName(c) && InName('_') && StartsName('_') && !StartsName('0') && InName('0')
  {
  }

  /** Length of the longest run of name characters that `s` opens with. */
  function NameLength(s: string): (n: nat)
    ensures n <= |s|
    ensures forall i :: 0 <= i < n ==> InName(s[i])
    ensures n < |s| ==> !InName(s[n])
  {
    if s != "" && InName(s[0]) then
      var n := NameLength(s[1..]);
      assert forall i :: 0 < i < n + 1 ==> s[i] == s[1..][i - 1];
      1 + n
    else 0
  }

  /** A character against a keyword's character, case ignored: none of the four letters
      outside ASCII folds to a letter of a keyword. */
  predicate Folds(c: char, k: char) {
    c == k || ('A' <= c <= 'Z' && c as int + 32 == k as int)
  }

  /** `s` opens with the keyword, case ignored. */
  predicate OpensWith(s: string, keyword: string) {
    |keyword| <= |s| && forall i :: 0 <= i < |keyword| ==> Folds(s[i], keyword[i])
  }

  const KEYWORDS: seq<string> := ["1", "all", "of", "not", "and", "or"]

  function FirstOpening(s: string, keywords: seq<string>): string {
    if keywords == [] then ""
    else if keywords[0] != "" && OpensWith(s, keywords[0]) then keywords[0]
    else FirstOpening(s, keywords[1..])
  }

  lemma {:induction false} FirstOpeningOpens(s: string, keywords: seq<string>)
    ensures var k := FirstOpening(s, keywords);
            if k != "" then k in keywords && OpensWith(s, k)
            else forall w :: w in keywords && w != "" ==> !OpensWith(s, w)
  {
    if keywords != [] && (keywords[0] == "" || !OpensWith(s, keywords[0])) {
      FirstOpeningOpens(s, keywords[1..]);
    }
  }

  /** The keyword that `s` opens with, the earliest in the pattern's order; "" when none. A
      keyword needs no boundary after it: `order` opens with `or`. */
  function KeywordOf(s: string): string {
    FirstOpening(s, KEYWORDS)
  }

  lemma KeywordOfOpens(s: string)
    ensures var k := KeywordOf(s);
            if k != "" then k in KEYWORDS && OpensWith(s, k) else forall w :: w in KEYWORDS ==> !OpensWith(s, w)
  {
    FirstOpeningOpens(s, KEYWORDS);
  }

  /** The token at the head of `s`, with the number of characters it takes; an empty token
      for a character to step over. */
  function Lexeme(s: string): (string, nat) {
    if s == "" then ("", 0)
    else if s[0] == '(' then ("(", 1)
    else if s[0] == ')' then (")", 1)
    else if KeywordOf(s) != "" then (KeywordOf(s), |KeywordOf(s)|)
    else if StartsName(s[0]) then
      var n := NameLength(s);
      var m := if n < |s| && s[n] == '*' then n + 1 else n;
      (s[..m], m)
    else ("", 1)
  }

  lemma LexemeProgress(s: string)
    requires s != ""
    ensures 1 <= Lexeme(s).1 <= |s|
  {
    KeywordOfOpens(s);
  }

  function Kept(tok: string): seq<string> {
    if tok == "" then [] else [tok]
  }

  /** Every match of a pattern, one after another; the scan stops where the pattern makes no
      progress. */
  function FindAll(pattern: string -> (string, nat), s: string): seq<string> {
    if s == "" then []
    else
      var (tok, n) := pattern(s);
      if 1 <= n <= |s| then Kept(tok) + FindAll(pattern, s[n..]) else []
  }

  method Scan(pattern: string -> (string, nat), s: string) returns (tokens: seq<string>)
    ensures tokens == FindAll(pattern, s)
  {
    tokens := [];
    var ahead := s;
    while ahead != ""
      invariant FindAll(pattern, s) == tokens + FindAll(pattern, ahead)
      decreases |ahead|
    {
      var match_ := pattern(ahead);
      if match_.1 == 0 || match_.1 > |ahead| {
        return;
      }
      tokens := tokens + Kept(match_.0);
      ahead := ahead[match_.1..];
    }
  }

  function Tokens(s: string): seq<string> {
    FindAll(Lexeme, s)
  }

  /** The scan as the source runs it: every match, kept unless it is blank. */
  method Tokenize(condition: string) returns (tokens: seq<string>)
    ensures tokens == Tokens(condition)
  {
    tokens := Scan(Lexeme, condition);
  }

  /** The scan never stops before the end: every lexeme is followed by the scan of the rest. */
  lemma ScanGoesOn(s: string)
    requires s != ""
    ensures 1 <= Lexeme(s).1 <= |s|
    ensures Tokens(s) == Kept(Lexeme(s).0) + Tokens(s[Lexeme(s).1..])
  {
    LexemeProgress(s);
  }

  predicate IsBracket(c: char) {
    c == '(' || c == ')'
  }

  /** A lexeme holds a bracket only if it is that bracket. */
  lemma LexemeBrackets(s: string, b: char)
    requires s != "" && IsBracket(b)
    ensures var (tok, n) := Lexeme(s);
            && n <= |s|
            && (tok == [b] ==> n == 1 && s[0] == b)
            && (tok != [b] ==> forall i :: 0 <= i < n ==> s[i] != b)
  {
    LexemeProgress(s);
    KeywordOfOpens(s);
    var k := KeywordOf(s);
    if !IsBracket(s[0]) && k != "" {
      KeywordHasNoBracket(k);
      assert forall i :: 0 <= i < |k| ==> Folds(s[i], k[i]) && !IsBracket(k[i]);
    }
  }

  lemma KeywordHasNoBracket(k: string)
    requires k in KEYWORDS
    ensures forall i :: 0 <= i < |k| ==> !IsBracket(k[i])
  {
    assert k == "1" || k == "all" || k == "of" || k == "not" || k == "and" || k == "or";
  }

  lemma BracketsOfLexeme(s: string, b: char)
    requires s != "" && IsBracket(b)
    ensures var (tok, n) := Lexeme(s);
            n <= |s| && multiset(s[..n])[b] == multiset(Kept(tok))[[b]]
  {
    LexemeBrackets(s, b);
    var (tok, n) := Lexeme(s);
    if tok == [b] {
      assert s[..1] == [b];
    } else {
      assert b !in s[..n];
    }
  }

  lemma CountSplit<T>(s: seq<T>, n: nat, x: T)
    requires n <= |s|
    ensures multiset(s)[x] == multiset(s[..n])[x] + multiset(s[n..])[x]
  {
    assert s == s[..n] + s[n..];
  }

  lemma CountAppend<T>(s: seq<T>, t: seq<T>, x: T)
    ensures multiset(s + t)[x] == multiset(s)[x] + multiset(t)[x]
  {
  }

  /** Every bracket of a condition reaches the parser, and no other token looks like one. */
  lemma {:induction false} BracketsKept(s: string, b: char)
    requires IsBracket(b)
    ensures multiset(Tokens(s))[[b]] == multiset(s)[b]
  {
    if s != "" {
      ScanGoesOn(s);
      var (tok, n) := Lexeme(s);
      BracketsOfLexeme(s, b);
      BracketsKept(s[n..], b);
      CountSplit(s, n, b);
      CountAppend(Kept(tok), Tokens(s[n..]), [b]);
    }
  }

  /** The tokens as the parser tells them apart. */
  function Classified(toks: seq<string>): (r: seq<Token>)
    ensures |r| == |toks|
  {
    seq(|toks|, i requires 0 <= i < |toks| => Classify(toks[i]))
  }

  // ---------------------------------------------------------------------------
  // Writing a token list out and scanning it again.
  // ---------------------------------------------------------------------------

  /** A character that can only separate tokens. */
  predicate IsGapChar(c: char) {
    c == ' ' || c == '\t' || c == '\n' || c == '\r'
  }

  predicate IsGap(g: string) {
    forall i :: 0 <= i < |g| ==> IsGapChar(g[i])
  }

  /** An identifier, with or without a star at its end. */
  predicate IsIdentifier(tok: string) {
    tok != "" && StartsName(tok[0])
    && (NameLength(tok) == |tok| || (NameLength(tok) == |tok| - 1 && EndsWithStar(tok)))
  }

  /** A name that the scan takes whole: no keyword opens it. */
  predicate IsPlainName(tok: string) {
    IsIdentifier(tok) && KeywordOf(tok) == ""
  }

  predicate Scannable(t: Token) {
    t.Word? ==> IsPlainName(t.text)
  }

  predicate AllScannable(toks: seq<Token>) {
    forall i :: 0 <= i < |toks| ==> Scannable(toks[i])
  }

  /** A name without a star runs on into whatever follows it, unless that is a bracket. */
  predicate NeedsGap(t: Token, u: Token) {
    t.Word? && !EndsWithStar(t.text) && u != Open && u != Close
  }

  /** White space, possibly none, after every token, and some where a name would run on. */
  predicate Separated(toks: seq<Token>, gaps: seq<string>)
    requires |gaps| == |toks|
  {
    forall i :: 0 <= i < |toks| - 1 && NeedsGap(toks[i], toks[i + 1]) ==> gaps[i] != ""
  }

  predicate AllGaps(gaps: seq<string>) {
    forall i :: 0 <= i < |gaps| ==> IsGap(gaps[i])
  }

  /** Every token followed by its own gap. */
  function Render(toks: seq<Token>, gaps: seq<string>): string
    requires |gaps| == |toks|
  {
    if toks == [] then "" else Spelling(toks[0]) + (gaps[0] + Render(toks[1..], gaps[1..]))
  }

  lemma SkipGapChar(s: string)
    requires s != "" && IsGapChar(s[0])
    ensures Lexeme(s) == ("", 1)
  {
    KeywordOfOpens(s);
    forall w | w in KEYWORDS ensures !OpensWith(s, w) {
      assert !Folds(s[0], w[0]);
    }
  }

  lemma {:induction false} SkipGap(g: string, s: string)
    requires forall i :: 0 <= i < |g| ==> IsGapChar(g[i])
    ensures Tokens(g + s) == Tokens(s)
  {
    if g == "" {
      assert g + s == s;
    } else {
      SkipGapChar(g + s);
      assert (g + s)[1..] == g[1..] + s;
      SkipGap(g[1..], s);
    }
  }

  /** No keyword opens another, so at most one opens a given text. */
  lemma KeywordUnique(s: string, k: string, w: string)
    requires k in KEYWORDS && w in KEYWORDS && OpensWith(s, k) && OpensWith(s, w)
    ensures k == w
  {
    assert Folds(s[0], k[0]) && Folds(s[0], w[0]);
    if |k| >= 2 && |w| >= 2 {
      assert Folds(s[1], k[1]) && Folds(s[1], w[1]);
    }
  }

  lemma ScanKeyword(t: Token, s: string)
    requires !t.Word?
    ensures Lexeme(Spelling(t) + s) == (Spelling(t), |Spelling(t)|)
  {
    var tok := Spelling(t);
    var all := tok + s;
    assert all[0] == tok[0];
    if t != Open && t != Close {
      KeywordOpensItself(tok);
      assert forall i :: 0 <= i < |tok| ==> all[i] == tok[i];
      KeywordOfOpens(all);
      KeywordUnique(all, tok, KeywordOf(all));
    }
  }

  lemma KeywordOpensItself(w: string)
    requires w in KEYWORDS
    ensures OpensWith(w, w)
  {
    assert forall i :: 0 <= i < |w| ==> Folds(w[i], w[i]);
  }

  lemma {:induction false} LowersToKeyword(tok: string, w: string)
    requires Lower(tok) == w && (w in KEYWORDS || w == "(" || w == ")")
    ensures OpensWith(tok, w) && |tok| == |w|
  {
    LowerEqualsWord(tok, w);
    assert forall i :: 0 <= i < |w| ==> LowerChar(tok[i])[0] == w[i] && w[i] != 'k';
  }

  /** A plain name is none of the texts that the parser compares for. */
  lemma {:induction false} PlainNameIsWord(tok: string)
    requires IsPlainName(tok)
    ensures Classify(tok) == Word(tok)
  {
    var w := Lower(tok);
    KeywordOfOpens(tok);
    if w in KEYWORDS + ["(", ")"] { LowersToKeyword(tok, w); }
    assert w !in KEYWORDS + ["(", ")"];
  }

  lemma LowerKeywords()
    ensures Lower("1") == "1" && Lower("all") == "all" && Lower("of") == "of" && Lower("not") == "not"
    ensures Lower("and") == "and" && Lower("or") == "or" && Lower("(") == "(" && Lower(")") == ")"
  {
    assert "all"[1..] == "ll" && "ll"[1..] == "l" && "of"[1..] == "f" && "or"[1..] == "r";
    assert "not"[1..] == "ot" && "ot"[1..] == "t" && "and"[1..] == "nd" && "nd"[1..] == "d";
  }

  lemma KeywordClassified(t: Token)
    requires !t.Word?
    ensures Classify(Spelling(t)) == t
  {
    LowerKeywords();
    var first := Spelling(t)[0];
    assert t != Open ==> first != "("[0];
    assert t == And ==> |"and"| == 3 && "and"[1] == 'n' && "all"[1] == 'l';
  }

  /** `s` does not go on with the name or star that precedes it. */
  predicate Stops(tok: string, s: string) {
    EndsWithStar(tok) || s == "" || (!InName(s[0]) && s[0] != '*')
  }

  lemma ScanName(tok: string, s: string)
    requires IsPlainName(tok) && Stops(tok, s)
    ensures Lexeme(tok + s) == (tok, |tok|)
  {
    var (all, n) := (tok + s, NameLength(tok));
    assert all[0] == tok[0] && all[..|tok|] == tok;
    assert n < |tok| ==> all[n] == tok[n] == '*';
    assert n == |tok| ==> !EndsWithStar(tok);
    assert n == |tok| && s != "" ==> all[n] == s[0];
    KeywordNotSplit(tok, all, n);
    NameLengthOf(all, n);
  }

  lemma NameLengthOf(s: string, n: nat)
    requires n <= |s|
    requires forall i :: 0 <= i < n ==> InName(s[i])
    requires n < |s| ==> !InName(s[n])
    ensures NameLength(s) == n
  {
  }

  /** No keyword reaches across a character that is in no name. */
  lemma KeywordNotSplit(tok: string, all: string, n: nat)
    requires tok != "" && KeywordOf(tok) == "" && n <= |tok| <= |all| && all[..|tok|] == tok
    requires n < |all| ==> !InName(all[n])
    ensures KeywordOf(all) == ""
  {
    KeywordOfOpens(tok);
    KeywordOfOpens(all);
    forall w | w in KEYWORDS ensures !OpensWith(all, w) {
      if |w| <= n {
        assert forall i :: 0 <= i < |w| ==> all[i] == tok[i];
        assert OpensWith(all, w) ==> OpensWith(tok, w);
      } else if n < |all| {
        assert !Folds(all[n], w[n]);
      }
    }
  }

  /** What is written next stops a name exactly when there is a gap or a bracket, or nothing. */
  lemma StopsIff(t: Token, gap: string, toks: seq<Token>, gaps: seq<string>)
    requires Scannable(t) && IsGap(gap) && |gaps| == |toks| && AllScannable(toks)
    ensures t.Word? ==>
              (Stops(t.text, gap + Render(toks, gaps)) <==> gap != "" || toks == [] || !NeedsGap(t, toks[0]))
    ensures t.Word? && !Stops(t.text, gap + Render(toks, gaps)) ==> InName((gap + Render(toks, gaps))[0])
  {
    var s := gap + Render(toks, gaps);
    if gap != "" {
      assert s[0] == gap[0];
    } else if toks != [] {
      assert s == Render(toks, gaps);
      assert s[0] == Spelling(toks[0])[0];
    }
  }

  lemma HeadScans(t: Token, gap: string, rest: string)
    requires Scannable(t) && IsGap(gap) && (t.Word? ==> Stops(t.text, gap + rest))
    ensures Tokens(Spelling(t) + (gap + rest)) == [Spelling(t)] + Tokens(rest)
    ensures Classify(Spelling(t)) == t
  {
    if t.Word? {
      ScanName(t.text, gap + rest);
      PlainNameIsWord(t.text);
    } else {
      ScanKeyword(t, gap + rest);
      KeywordClassified(t);
    }
    TokenThenRest(Spelling(t), gap + rest);
    SkipGap(gap, rest);
  }

  /** A name that runs on is scanned as something else. */
  lemma HeadRunsOn(tok: string, s: string)
    requires IsPlainName(tok) && s != "" && InName(s[0]) && !EndsWithStar(tok)
    ensures Tokens(tok + s) != [] && Tokens(tok + s)[0] != tok
  {
    var all := tok + s;
    assert all[0] == tok[0] && all[|tok|] == s[0];
    ScanGoesOn(all);
    KeywordOfOpens(tok);
    KeywordOfOpens(all);
    var k := KeywordOf(all);
    if k == "" {
      var n := NameLength(all);
      assert forall i :: 0 <= i < |tok| ==> all[i] == tok[i];
      assert n > |tok|;
    } else if k == tok {
      KeywordOpensItself(k);
    }
  }

  lemma ClassifiedHead(tok: string, rest: seq<string>)
    ensures Classified([tok] + rest) == [Classify(tok)] + Classified(rest)
  {
  }

  lemma WordKeepsText(toks: seq<string>, t: Token, rest: seq<Token>)
    requires t.Word? && toks != [] && toks[0] != t.text
    ensures Classified(toks) != [t] + rest
  {
    assert Classified(toks)[0] == Classify(toks[0]);
  }

  lemma SeparatedTail(toks: seq<Token>, gaps: seq<string>)
    requires |gaps| == |toks| && toks != []
    ensures Separated(toks, gaps) <==>
            Separated(toks[1..], gaps[1..]) && (|toks| > 1 && NeedsGap(toks[0], toks[1]) ==> gaps[0] != "")
  {
    if Separated(toks[1..], gaps[1..]) {
      assert forall i :: 0 < i < |toks| - 1 ==> toks[i] == toks[1..][i - 1] && toks[i + 1] == toks[1..][i] && gaps[i] == gaps[1..][i - 1];
    }
    if Separated(toks, gaps) {
      forall i | 0 <= i < |toks[1..]| - 1 && NeedsGap(toks[1..][i], toks[1..][i + 1]) ensures gaps[1..][i] != "" {
        assert gaps[1..][i] == gaps[i + 1] && toks[1..][i] == toks[i + 1] && toks[1..][i + 1] == toks[i + 2];
      }
    }
  }

  /** Tokens written out with any white space after each, or none, are scanned back exactly when
      every name without a star is separated from a following name or keyword. */
  lemma {:induction false} ScanRenderedIff(toks: seq<Token>, gaps: seq<string>)
    requires |gaps| == |toks| && AllScannable(toks) && AllGaps(gaps)
    ensures Classified(Tokens(Render(toks, gaps))) == toks <==> Separated(toks, gaps)
    decreases |toks|
  {
    if toks != [] {
      var (t, gap, rest) := (toks[0], gaps[0], Render(toks[1..], gaps[1..]));
      ScanRenderedIff(toks[1..], gaps[1..]);
      SeparatedTail(toks, gaps);
      StopsIff(t, gap, toks[1..], gaps[1..]);
      assert toks == [t] + toks[1..];
      if t.Word? && !Stops(t.text, gap + rest) {
        HeadRunsOn(t.text, gap + rest);
        WordKeepsText(Tokens(t.text + (gap + rest)), t, toks[1..]);
      } else {
        HeadScans(t, gap, rest);
        ClassifiedHead(Spelling(t), Tokens(rest));
        HeadFirst(t, Classified(Tokens(rest)), toks[1..]);
      }
    }
  }

  lemma HeadFirst<T>(t: T, a: seq<T>, b: seq<T>)
    ensures [t] + a == [t] + b <==> a == b
  {
    assert ([t] + a)[1..] == a && ([t] + b)[1..] == b;
  }

  lemma TokenThenRest(tok: string, rest: string)
    requires tok != "" && Lexeme(tok + rest) == (tok, |tok|)
    ensures Tokens(tok + rest) == [tok] + Tokens(rest)
  {
    assert (tok + rest)[|tok|..] == rest;
  }

  lemma KeywordIsNoWord(k: string)
    requires k in KEYWORDS
    ensures !Classify(k).Word?
  {
    LowerKeywords();
    assert k == "1" || k == "all" || k == "of" || k == "not" || k == "and" || k == "or";
  }

  lemma KeywordFirst(tok: string)
    requires IsIdentifier(tok) && KeywordOf(tok) != ""
    ensures Tokens(tok) != [] && Tokens(tok)[0] == KeywordOf(tok) && KeywordOf(tok) in KEYWORDS
  {
    KeywordOfOpens(tok);
  }

  /** A name is scanned as one name exactly when no keyword opens it: there is no other way for
      a selection to be out of reach. */
  lemma NameSurvivesIff(tok: string)
    requires IsIdentifier(tok)
    ensures Classified(Tokens(tok)) == [Word(tok)] <==> KeywordOf(tok) == ""
  {
    if KeywordOf(tok) == "" {
      assert tok + "" == tok;
      ScanName(tok, "");
      TokenThenRest(tok, "");
      PlainNameIsWord(tok);
      assert Tokens(tok) == [tok];
    } else {
      KeywordFirst(tok);
      KeywordIsNoWord(KeywordOf(tok));
      assert Classified(Tokens(tok))[0] == Classify(KeywordOf(tok));
    }
  }

  lemma KeywordOfIs(s: string, k: string)
    requires k in KEYWORDS && OpensWith(s, k)
    ensures KeywordOf(s) == k
  {
    KeywordOfOpens(s);
    KeywordUnique(s, k, KeywordOf(s));
  }

  lemma CutByKeyword(name: string, k: string)
    requires name != "" && StartsName(name[0]) && forall i :: 0 <= i < |name| ==> InName(name[i])
    requires k in KEYWORDS && k != "" && OpensWith(name, k)
    ensures IsIdentifier(name) && KeywordOf(name) == k && Classified(Tokens(name)) != [Word(name)]
  {
    NameLengthOf(name, |name|);
    KeywordOfIs(name, k);
    NameSurvivesIff(name);
  }

  const ORDER := "order"
  const ALLOWED := "allowed"

  lemma OrOpensOrder()
    ensures KEYWORDS[5] in KEYWORDS && OpensWith(ORDER, KEYWORDS[5])
    ensures StartsName(ORDER[0]) && forall i :: 0 <= i < |ORDER| ==> InName(ORDER[i])
  {
  }

  lemma AllOpensAllowed()
    ensures KEYWORDS[1] in KEYWORDS && OpensWith(ALLOWED, KEYWORDS[1])
    ensures StartsName(ALLOWED[0]) && forall i :: 0 <= i < |ALLOWED| ==> InName(ALLOWED[i])
  {
  }

  /** Two identifiers that a keyword opens, `or` and `all`, and that are not scanned as one name. */
  lemma CutNames()
    ensures IsIdentifier(ORDER) && KeywordOf(ORDER) == KEYWORDS[5] && Classified(Tokens(ORDER)) != [Word(ORDER)]
    ensures IsIdentifier(ALLOWED) && KeywordOf(ALLOWED) == KEYWORDS[1] && Classified(Tokens(ALLOWED)) != [Word(ALLOWED)]
  {
    OrOpensOrder();
    AllOpensAllowed();
    CutByKeyword(ORDER, KEYWORDS[5]);
    CutByKeyword(ALLOWED, KEYWORDS[1]);
  }
}
