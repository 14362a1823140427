/**
 The file-name matcher of the Win32 shim (WasmWindowsWildcardMatch in
 WebAssembly/shims/windows.h): a greedy loop that remembers only the most
 recent star, against the usual recursive meaning of a wildcard pattern.
 */
module Wildcard {
  import opened Common

  /** std::tolower in the "C" locale. */
  function ToLower(c: Byte): Byte {
    if 65 <= c <= 90 then c + 32 else c
  }

  const STAR: Byte := 42
  const QUESTION: Byte := 63

  /** The characters of a C string: every byte before the terminating NUL. */
  ghost predicate IsCString(s: Bytes) {
    forall i :: 0 <= i < |s| ==> s[i] != 0
  }

  /** What the loop reads through a pointer `i` characters into the C string `s`. */
  function At(s: Bytes, i: nat): Byte
    requires i <= |s|
  {
    if i < |s| then s[i] else 0
  }

  predicate MatchesOne(p: Byte, c: Byte) {
    p == QUESTION || ToLower(p) == ToLower(c)
  }

  /** The meaning of a pattern: a star stands for any run, a question mark for any character. */
  ghost predicate Matches(pattern: Bytes, name: Bytes)
    decreases |pattern| + |name|
  {
    if pattern == [] then name == []
    else if pattern[0] == STAR then
      Matches(pattern[1..], name) || (name != [] && Matches(pattern, name[1..]))
    else
      name != [] && MatchesOne(pattern[0], name[0]) && Matches(pattern[1..], name[1..])
  }

  /** The characters of `literal`, none of them a star, match `text` one for one. */
  ghost predicate MatchesLiterally(literal: Bytes, text: Bytes) {
    |literal| == |text| &&
    forall i :: 0 <= i < |literal| ==> literal[i] != STAR && MatchesOne(literal[i], text[i])
  }

  /** A pattern that starts with a star matches whatever one of the name's suffixes matches. */
  lemma {:induction false} StarAbsorbs(pattern: Bytes, name: Bytes, k: nat)
    requires pattern != [] && pattern[0] == STAR && k <= |name|
    requires Matches(pattern, name[k..])
    ensures Matches(pattern, name)
    decreases k
  {
    if k > 0 {
      assert name[1..][k - 1..] == name[k..];
      StarAbsorbs(pattern, name[1..], k - 1);
    } else {
      assert name[0..] == name;
    }
  }

  /** A star matches exactly when the rest of the pattern matches some suffix. */
  lemma {:induction false} StarChoosesASuffix(pattern: Bytes, name: Bytes) returns (k: nat)
    requires pattern != [] && pattern[0] == STAR
    requires Matches(pattern, name)
    ensures k <= |name| && Matches(pattern[1..], name[k..])
    decreases |name|
  {
    if Matches(pattern[1..], name) {
      k := 0;
      assert name[0..] == name;
    } else {
      k := StarChoosesASuffix(pattern, name[1..]);
      assert name[1..][k..] == name[k + 1..];
      k := k + 1;
    }
  }

  /** Literal pattern characters consume exactly as many characters of the name. */
  lemma {:induction false} LiteralPrefix(literal: Bytes, rest: Bytes, name: Bytes)
    requires forall i :: 0 <= i < |literal| ==> literal[i] != STAR
    ensures Matches(literal + rest, name) <==>
            |literal| <= |name| && MatchesLiterally(literal, name[..|literal|]) && Matches(rest, name[|literal|..])
    decreases |literal|
  {
    var pattern := literal + rest;
    if literal == [] {
      assert pattern == rest && name[0..] == name;
    } else {
      assert pattern[1..] == literal[1..] + rest && pattern[0] == literal[0];
      if name != [] {
        LiteralPrefix(literal[1..], rest, name[1..]);
        assert |literal| <= |name| ==> name[1..][..|literal| - 1] == name[..|literal|][1..];
        assert |literal| <= |name| ==> name[1..][|literal| - 1..] == name[|literal|..];
        if |literal| <= |name| {
          assert MatchesLiterally(literal, name[..|literal|]) <==>
                 MatchesOne(literal[0], name[0]) && MatchesLiterally(literal[1..], name[..|literal|][1..]) by {
            var text := name[..|literal|];
            assert literal == [literal[0]] + literal[1..] && text == [text[0]] + text[1..];
          }
        }
      }
    }
  }

  /**
   The reason one remembered star is enough. Suppose the pattern is a star, a
   literal stretch and another star, and the literal matches at the earliest
   place tried so far. Then nothing is lost by committing to that place.
   */
  lemma {:induction false} EarlierStarIsObsolete(literal: Bytes, rest: Bytes, name: Bytes)
    requires |literal| <= |name| && MatchesLiterally(literal, name[..|literal|])
    requires rest != [] && rest[0] == STAR
    ensures Matches([STAR] + literal + rest, name) <==> Matches(rest, name[|literal|..])
  {
    var pattern := [STAR] + literal + rest;
    assert pattern[1..] == literal + rest;
    LiteralPrefix(literal, rest, name);
    if Matches(pattern, name) {
      var k := StarChoosesASuffix(pattern, name);
      LiteralPrefix(literal, rest, name[k..]);
      assert name[k..][|literal|..] == name[|literal|..][k..];
      StarAbsorbs(rest, name[|literal|..], k);
    }
  }

  /** When the literal after the star fails at the first place, the star must swallow a character. */
  lemma {:induction false} RetryAdvances(literal: Bytes, next: Byte, rest: Bytes, name: Bytes)
    requires |literal| < |name| && MatchesLiterally(literal, name[..|literal|])
    requires next != STAR && !MatchesOne(next, name[|literal|])
    ensures Matches([STAR] + literal + [next] + rest, name) <==> Matches([STAR] + literal + [next] + rest, name[1..])
  {
    var pattern := [STAR] + literal + [next] + rest;
    var stretch := literal + [next];
    assert pattern[1..] == stretch + rest;
    LiteralPrefix(stretch, rest, name);
    if |stretch| <= |name| {
      assert stretch[|literal|] == next && name[..|stretch|][|literal|] == name[|literal|];
      assert !MatchesLiterally(stretch, name[..|stretch|]);
    }
  }

  /** The pattern is exhausted after a star: the star must swallow a character. */
  lemma {:induction false} RetryAtPatternEnd(literal: Bytes, name: Bytes)
    requires |literal| < |name| && MatchesLiterally(literal, name[..|literal|])
    ensures Matches([STAR] + literal, name) <==> Matches([STAR] + literal, name[1..])
  {
    var pattern := [STAR] + literal;
    assert pattern[1..] == literal + [];
    LiteralPrefix(literal, [], name);
  }

  /** Only stars match the empty name. */
  lemma {:induction false} EmptyName(pattern: Bytes)
    ensures Matches(pattern, []) <==> forall i :: 0 <= i < |pattern| ==> pattern[i] == STAR
    decreases |pattern|
  {
    if pattern != [] {
      EmptyName(pattern[1..]);
      assert pattern == [pattern[0]] + pattern[1..];
    }
  }

  /** What the loop knows: the original question equals the one left to answer. */
  ghost predicate LoopInvariant(pattern: Bytes, name: Bytes, p: nat, n: nat, star: int, retry: nat)
  {
    p <= |pattern| && n <= |name| && -1 <= star &&
    if star < 0 then
      Matches(pattern, name) == Matches(pattern[p..], name[n..]) &&
      forall i :: 0 <= i < p ==> pattern[i] != STAR
    else
      star < p && pattern[star] == STAR && retry <= n &&
      MatchesLiterally(pattern[star + 1..p], name[retry..n]) &&
      Matches(pattern, name) == Matches(pattern[star..], name[retry..])
  }

  lemma {:induction false} StepStar(pattern: Bytes, name: Bytes, p: nat, n: nat, star: int, retry: nat)
    requires LoopInvariant(pattern, name, p, n, star, retry)
    requires p < |pattern| && pattern[p] == STAR
    ensures LoopInvariant(pattern, name, p + 1, n, p, n)
  {
    if star >= 0 {
      var literal, rest, text := pattern[star + 1..p], pattern[p..], name[retry..];
      assert pattern[star..] == [STAR] + literal + rest;
      assert name[retry..n] == text[..|literal|] && text[|literal|..] == name[n..];
      EarlierStarIsObsolete(literal, rest, text);
    }
    assert pattern[p + 1..p + 1] == [] && name[n..n] == [];
  }

  lemma {:induction false} StepLiteral(pattern: Bytes, name: Bytes, p: nat, n: nat, star: int, retry: nat)
    requires LoopInvariant(pattern, name, p, n, star, retry)
    requires p < |pattern| && n < |name| && pattern[p] != STAR && MatchesOne(pattern[p], name[n])
    ensures LoopInvariant(pattern, name, p + 1, n + 1, star, retry)
  {
    if star < 0 {
      assert pattern[p..][1..] == pattern[p + 1..] && name[n..][1..] == name[n + 1..];
    } else {
      assert pattern[star + 1..p + 1] == pattern[star + 1..p] + [pattern[p]];
      assert name[retry..n + 1] == name[retry..n] + [name[n]];
    }
  }

  lemma PatternFromStar(pattern: Bytes, star: nat, p: nat)
    requires star < p <= |pattern| && pattern[star] == STAR
    ensures p == |pattern| ==> pattern[star..] == [STAR] + pattern[star + 1..p]
    ensures p < |pattern| ==> pattern[star..] == [STAR] + pattern[star + 1..p] + [pattern[p]] + pattern[p + 1..]
  {
  }

  lemma {:induction false} StepRetry(pattern: Bytes, name: Bytes, p: nat, n: nat, star: nat, retry: nat)
    requires LoopInvariant(pattern, name, p, n, star, retry)
    requires n < |name|
    requires p == |pattern| || (pattern[p] != STAR && !MatchesOne(pattern[p], name[n]))
    ensures LoopInvariant(pattern, name, star + 1, retry + 1, star, retry + 1)
  {
    hide Matches;
    var literal, text := pattern[star + 1..p], name[retry..];
    assert name[retry..n] == text[..|literal|] && text[|literal|] == name[n];
    assert text[1..] == name[retry + 1..];
    PatternFromStar(pattern, star, p);
    if p == |pattern| {
      RetryAtPatternEnd(literal, text);
    } else {
      RetryAdvances(literal, pattern[p], pattern[p + 1..], text);
    }
    assert pattern[star + 1..star + 1] == [] && name[retry + 1..retry + 1] == [];
  }

  lemma Mismatch(pattern: Bytes, name: Bytes, p: nat, n: nat, star: int, retry: nat)
    requires LoopInvariant(pattern, name, p, n, star, retry) && star < 0 && n < |name|
    requires p == |pattern| || (pattern[p] != STAR && !MatchesOne(pattern[p], name[n]))
    ensures !Matches(pattern, name)
  {
  }

  /** The loop has run out of name: what is left of the pattern decides. */
  lemma {:induction false} AtNameEnd(pattern: Bytes, name: Bytes, p: nat, star: int, retry: nat)
    requires LoopInvariant(pattern, name, p, |name|, star, retry)
    ensures Matches(pattern, name) <==> forall i :: p <= i < |pattern| ==> pattern[i] == STAR
  {
    var rest := pattern[p..];
    EmptyName(rest);
    assert (forall i :: 0 <= i < |rest| ==> rest[i] == STAR) <==>
           (forall i :: p <= i < |pattern| ==> pattern[i] == STAR) by {
      if forall i :: 0 <= i < |rest| ==> rest[i] == STAR {
        forall i | p <= i < |pattern| ensures pattern[i] == STAR { assert rest[i - p] == pattern[i]; }
      }
    }
    if star < 0 {
      assert name[|name|..] == [];
    } else {
      AfterLastStar(pattern[star + 1..p], rest, name[retry..]);
      assert pattern[star..] == [STAR] + pattern[star + 1..p] + rest;
    }
  }

  /** A star, then a literal as long as the name, then the rest, against a name the literal uses up. */
  lemma {:induction false} AfterLastStar(literal: Bytes, rest: Bytes, name: Bytes)
    requires MatchesLiterally(literal, name)
    ensures Matches([STAR] + literal + rest, name) <==> Matches(rest, [])
  {
    var pattern := [STAR] + literal + rest;
    assert pattern[1..] == literal + rest;
    LiteralPrefix(literal, rest, name);
    assert name[..|literal|] == name && name[|literal|..] == [];
    if Matches(pattern, name) {
      var k := StarChoosesASuffix(pattern, name);
      LiteralPrefix(literal, rest, name[k..]);
      assert k == 0;
    }
  }

  /**
   The matcher itself. It returns the recursive meaning of the pattern, and it
   terminates because the star only moves forward, then the retry point, then
   the name.
   */
  method WildcardMatch(pattern: Bytes, name: Bytes) returns (matched: bool)
    requires IsCString(pattern) && IsCString(name)
    ensures matched == Matches(pattern, name)
  {
    hide Matches, MatchesLiterally;
    var p: nat, n: nat := 0, 0;
    var star: int, retry: nat := -1, 0;
    assert pattern[0..] == pattern && name[0..] == name;
    while At(name, n) != 0
      invariant n <= |name|
      invariant LoopInvariant(pattern, name, p, n, star, retry)
      decreases |pattern| - star, |name| - retry, |name| - n
    {
      if At(pattern, p) == STAR {
        StepStar(pattern, name, p, n, star, retry);
        star := p;
        p := p + 1;
        retry := n;
        continue;
      }
      if At(pattern, p) == QUESTION || ToLower(At(pattern, p)) == ToLower(At(name, n)) {
        StepLiteral(pattern, name, p, n, star, retry);
        p := p + 1;
        n := n + 1;
        continue;
      }
      if star >= 0 {
        StepRetry(pattern, name, p, n, star, retry);
        p := star + 1;
        retry := retry + 1;
        n := retry;
        continue;
      }
      Mismatch(pattern, name, p, n, star, retry);
      return false;
    }
    AtNameEnd(pattern, name, p, star, retry);
    ghost var stop := p;
    while At(pattern, p) == STAR
      invariant stop <= p <= |pattern|
      invariant forall i :: stop <= i < p ==> pattern[i] == STAR
      decreases |pattern| - p
    {
      p := p + 1;
    }
    return At(pattern, p) == 0;
  }

  // ----- What patterns mean

  function LowerAll(s: Bytes): (r: Bytes)
    ensures |r| == |s| && forall i :: 0 <= i < |s| ==> r[i] == ToLower(s[i])
  {
    seq(|s|, i requires 0 <= i < |s| => ToLower(s[i]))
  }

  lemma TailOfLower(s: Bytes)
    requires s != []
    ensures LowerAll(s)[1..] == LowerAll(s[1..])
  {
  }

  /** Upper and lower case of A to Z are the same to a pattern and to a name. */
  lemma {:induction false} CaseDoesNotMatter(pattern: Bytes, name: Bytes)
    ensures Matches(LowerAll(pattern), LowerAll(name)) <==> Matches(pattern, name)
    decreases |pattern| + |name|
  {
    if pattern != [] {
      TailOfLower(pattern);
      if name != [] {
        TailOfLower(name);
      }
      if pattern[0] == STAR {
        CaseDoesNotMatter(pattern[1..], name);
        if name != [] {
          CaseDoesNotMatter(pattern, name[1..]);
        }
      } else if name != [] {
        CaseDoesNotMatter(pattern[1..], name[1..]);
      }
    }
  }

  /** A pattern without wildcards matches the name itself, up to case, and no other. */
  lemma {:induction false} PlainPatternsAreNames(pattern: Bytes, name: Bytes)
    requires forall i :: 0 <= i < |pattern| ==> pattern[i] != STAR && pattern[i] != QUESTION
    ensures Matches(pattern, name) <==> LowerAll(pattern) == LowerAll(name)
  {
    if pattern != [] && name != [] {
      TailOfLower(pattern);
      TailOfLower(name);
      PlainPatternsAreNames(pattern[1..], name[1..]);
      assert LowerAll(pattern) == [ToLower(pattern[0])] + LowerAll(pattern[1..]);
      assert LowerAll(name) == [ToLower(name[0])] + LowerAll(name[1..]);
    } else {
      assert |LowerAll(pattern)| == |pattern| && |LowerAll(name)| == |name|;
    }
  }

  /** As many question marks match the names of that length. */
  lemma {:induction false} QuestionMarksCount(pattern: Bytes, name: Bytes)
    requires forall i :: 0 <= i < |pattern| ==> pattern[i] == '?' as int
    ensures Matches(pattern, name) <==> |name| == |pattern|
  {
    if pattern != [] && name != [] {
      QuestionMarksCount(pattern[1..], name[1..]);
    }
  }

  predicate IsPlain(pattern: Bytes) {
    forall i :: 0 <= i < |pattern| ==> pattern[i] != '*' as int && pattern[i] != '?' as int
  }

  lemma EndsPlainly(ending: Bytes, name: Bytes)
    requires IsPlain(ending) && Matches([STAR] + ending, name)
    ensures |ending| <= |name| && LowerAll(ending) == LowerAll(name[|name| - |ending|..])
  {
    hide Matches, LowerAll;
    var pattern := [STAR] + ending;
    assert pattern[1..] == ending;
    var k := StarChoosesASuffix(pattern, name);
    PlainPatternsAreNames(ending, name[k..]);
    assert |LowerAll(ending)| == |LowerAll(name[k..])|;
    assert k == |name| - |ending|;
  }

  lemma StarTakesNothing(ending: Bytes, name: Bytes)
    requires Matches(ending, name)
    ensures Matches([STAR] + ending, name)
  {
    assert ([STAR] + ending)[1..] == ending;
  }

  /** A star before a plain ending matches the names that end so. */
  lemma StarMatchesEndings(ending: Bytes, name: Bytes)
    requires IsPlain(ending)
    ensures Matches(['*' as int] + ending, name) <==>
            |ending| <= |name| && LowerAll(ending) == LowerAll(name[|name| - |ending|..])
  {
    hide Matches, LowerAll;
    var pattern := [STAR] + ending;
    if Matches(pattern, name) {
      EndsPlainly(ending, name);
    }
    if |ending| <= |name| && LowerAll(ending) == LowerAll(name[|name| - |ending|..]) {
      PlainPatternsAreNames(ending, name[|name| - |ending|..]);
      StarTakesNothing(ending, name[|name| - |ending|..]);
      StarAbsorbs(pattern, name, |name| - |ending|);
    }
  }
}
