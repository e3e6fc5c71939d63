/** Strings as the Sigma compiler sees them: lower-casing, keyword comparison and the
    glob patterns that a condition can write. */
module Text {
  /** `str.lower()` on one character. Exact on every character that a condition token can
      hold, and on every character that lower-cases to one of those. */
  function LowerChar(c: char): (r: string)
    ensures |r| >= 1
    ensures |r| != 1 ==> '\U{0307}' in r
  {
    if 'A' <= c <= 'Z' then [(c as int + 32) as char]
    else if c == '\U{212A}' then "k"            // KELVIN SIGN
    else if c == '\U{0130}' then "i\U{0307}"    // LATIN CAPITAL LETTER I WITH DOT ABOVE
    else [c]
  }

  function Lower(s: string): (r: string)
    ensures |r| >= |s|
  {
    if s == "" then "" else LowerChar(s[0]) + Lower(s[1..])
  }

  predicate EndsWithStar(s: string) {
    s != "" && s[|s| - 1] == '*'
  }

  /** `fnmatch` of a lower-cased name against a lower-cased token: a token holds at most one
      star, at its end, and none of the other glob characters. */
  predicate GlobMatch(name: string, pattern: string) {
    if EndsWithStar(pattern) then pattern[..|pattern| - 1] <= name else name == pattern
  }

  /** `s` holds `part` somewhere. */
  predicate Contains(s: string, part: string) {
    exists i :: 0 <= i <= |s| && part <= s[i..]
  }

  predicate EndsWith(s: string, suffix: string) {
    |suffix| <= |s| && s[|s| - |suffix|..] == suffix
  }

  /** A string of lower-case word `w` is one that `w` itself differs from in case only,
      character by character, when no character of `w` is written with two. */
  lemma {:induction false} LowerEqualsWord(s: string, w: string)
    requires Lower(s) == w
    requires '\U{0307}' !in w
    ensures |s| == |w|
    ensures forall i :: 0 <= i < |s| ==> LowerChar(s[i]) == [w[i]]
  {
    if s != "" {
      var head, rest := LowerChar(s[0]), Lower(s[1..]);
      assert w == head + rest;
      assert forall c :: c in head ==> c in w;
      assert w[1..] == rest;
      LowerEqualsWord(s[1..], w[1..]);
      forall i | 0 <= i < |s| ensures LowerChar(s[i]) == [w[i]] {
        if i > 0 { assert s[i] == s[1..][i - 1] && w[i] == w[1..][i - 1]; }
      }
    }
  }

  // ---------------------------------------------------------------------------
  // Splitting at a character and joining with it.
  // ---------------------------------------------------------------------------

  function SplitAt(s: string, at: char): (parts: seq<string>)
    ensures |parts| >= 1
  {
    if s == "" then [""]
    else
      var rest := SplitAt(s[1..], at);
      if s[0] == at then [""] + rest else [[s[0]] + rest[0]] + rest[1..]
  }

  function JoinWith(parts: seq<string>, at: char): string {
    if parts == [] then "" else if |parts| == 1 then parts[0] else parts[0] + [at] + JoinWith(parts[1..], at)
  }

  /** The character is in none of the parts. */
  predicate FreeOf(parts: seq<string>, at: char) {
    forall i :: 0 <= i < |parts| ==> at !in parts[i]
  }

  lemma {:induction false} SplitJoins(s: string, at: char)
    ensures JoinWith(SplitAt(s, at), at) == s && FreeOf(SplitAt(s, at), at)
  {
    if s != "" {
      SplitJoins(s[1..], at);
      var rest := SplitAt(s[1..], at);
      assert s == [s[0]] + s[1..];
      if s[0] == at {
        assert ([""] + rest)[1..] == rest;
      } else {
        var parts := [[s[0]] + rest[0]] + rest[1..];
        assert parts[1..] == rest[1..];
      }
    }
  }

  lemma {:induction false} FirstPart(part: string, tail: string, at: char)
    requires at !in part
    ensures SplitAt(part + [at] + tail, at) == [part] + SplitAt(tail, at)
    ensures SplitAt(part, at) == [part]
  {
    if part != "" {
      FirstPart(part[1..], tail, at);
      var whole := part + [at] + tail;
      assert whole[1..] == part[1..] + [at] + tail && whole[0] == part[0];
      assert [part[0]] + part[1..] == part;
    } else {
      assert (part + [at] + tail)[1..] == tail;
    }
  }

  lemma {:induction false} JoinSplits(parts: seq<string>, at: char)
    requires parts != [] && FreeOf(parts, at)
    ensures SplitAt(JoinWith(parts, at), at) == parts
  {
    if |parts| == 1 {
      FirstPart(parts[0], "", at);
      assert parts == [parts[0]];
    } else {
      JoinSplits(parts[1..], at);
      FirstPart(parts[0], JoinWith(parts[1..], at), at);
      assert parts == [parts[0]] + parts[1..];
    }
  }

  lemma TailOfAppend(s: string, t: string)
    requires s != ""
    ensures s + t != "" && (s + t)[0] == s[0] && (s + t)[1..] == s[1..] + t
  {
  }

  lemma AppendTwice(a: string, b: string, c: string)
    ensures (a + b) + c == a + (b + c)
  {
  }

  lemma {:induction false} LowerAppend(s: string, t: string)
    ensures Lower(s + t) == Lower(s) + Lower(t)
  {
    if s == "" {
      assert s + t == t;
    } else {
      LowerAppend(s[1..], t);
      TailOfAppend(s, t);
      AppendTwice(LowerChar(s[0]), Lower(s[1..]), Lower(t));
    }
  }

  /** A word without upper-case letters is its own lower case. */
  lemma {:induction false} LowerWord(s: string)
    requires forall i :: 0 <= i < |s| ==> LowerChar(s[i]) == [s[i]]
    ensures Lower(s) == s
  {
    if s != "" { LowerWord(s[1..]); }
  }
}
