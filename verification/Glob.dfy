/** The wildcard comparison that selects test names by mask. */
module Glob {
  import Text

  function LowerCase(c: char): char {
    if 'A' <= c <= 'Z' then c - 'A' + 'a' else c
  }

  predicate SameChar(c: char, d: char, caseSensitive: bool) {
    if caseSensitive then c == d else LowerCase(c) == LowerCase(d)
  }

  /** Does the single mask character `w`, which is no star, accept `c`? */
  predicate Accepts(w: char, c: char, caseSensitive: bool) {
    SameChar(w, c, caseSensitive) || w == '?'
  }

  /** The meaning of a mask: `?` stands for one character, `*` for any run of characters. */
  predicate Matches(str: string, wild: string, cs: bool)
    decreases |str| + |wild|
  {
    if wild == [] then str == []
    else if wild[0] == '*' then
      Matches(str, wild[1..], cs) || (str != [] && Matches(str[1..], wild, cs))
    else
      str != [] && Accepts(wild[0], str[0], cs) && Matches(str[1..], wild[1..], cs)
  }

  /** `lit` has no star and accepts the characters of `str` from its start on. */
  ghost predicate Literal(str: string, lit: string, cs: bool) {
    |lit| <= |str| && forall i | 0 <= i < |lit| :: lit[i] != '*' && Accepts(lit[i], str[i], cs)
  }

  /** A literal prefix is matched character by character. */
  lemma {:induction false} LiteralPrefix(str: string, lit: string, rest: string, cs: bool)
    requires forall i | 0 <= i < |lit| :: lit[i] != '*'
    ensures Matches(str, lit + rest, cs) <==> Literal(str, lit, cs) && Matches(str[|lit|..], rest, cs)
  {
    if lit == [] {
      assert lit + rest == rest && str[0..] == str;
    } else {
      assert (lit + rest)[1..] == lit[1..] + rest;
      if str != [] && Accepts(lit[0], str[0], cs) {
        LiteralPrefix(str[1..], lit[1..], rest, cs);
        assert |lit| <= |str| ==> str[1..][|lit[1..]|..] == str[|lit|..];
        if Literal(str[1..], lit[1..], cs) {
          forall i | 0 <= i < |lit| ensures Accepts(lit[i], str[i], cs) {
            if i > 0 { assert str[1..][i - 1] == str[i] && lit[1..][i - 1] == lit[i]; }
          }
        }
        if Literal(str, lit, cs) {
          forall i | 0 <= i < |lit[1..]| ensures Accepts(lit[1..][i], str[1..][i], cs) {
            assert lit[i + 1] != '*';
          }
        }
      }
    }
  }

  /** A mask that begins with a star still matches when more text is put in front. */
  lemma {:induction false} StarAbsorbs(str: string, k: nat, wild: string, cs: bool)
    requires wild != [] && wild[0] == '*' && k <= |str|
    requires Matches(str[k..], wild, cs)
    ensures Matches(str, wild, cs)
  {
    if k == 0 {
      assert str[0..] == str;
    } else {
      assert str[1..][k - 1..] == str[k..];
      StarAbsorbs(str[1..], k - 1, wild, cs);
    }
  }

  /** A leading star matches exactly when the rest of the mask matches some suffix. */
  lemma {:induction false} StarSuffix(str: string, wild: string, cs: bool) returns (k: nat)
    requires wild != [] && wild[0] == '*' && Matches(str, wild, cs)
    ensures k <= |str| && Matches(str[k..], wild[1..], cs)
  {
    if Matches(str, wild[1..], cs) {
      assert str[0..] == str;
      k := 0;
    } else {
      k := StarSuffix(str[1..], wild, cs);
      assert str[1..][k..] == str[k + 1..];
      k := k + 1;
    }
  }

  /** Why it is enough to backtrack to the last star: the first place where the literal after a
      star fits is as good as any later one once a second star follows. */
  lemma EarliestFitSuffices(str: string, lit: string, rest: string, cs: bool)
    requires rest != [] && rest[0] == '*' && Literal(str, lit, cs)
    ensures Matches(str, ['*'] + lit + rest, cs) <==> Matches(str[|lit|..], rest, cs)
  {
    var wild := ['*'] + lit + rest;
    assert wild[1..] == lit + rest;
    LiteralPrefix(str, lit, rest, cs);
    if Matches(str, wild, cs) {
      var k := StarSuffix(str, wild, cs);
      LiteralPrefix(str[k..], lit, rest, cs);
      assert str[k..][|lit|..] == str[|lit|..][k..];
      StarAbsorbs(str[|lit|..], k, rest, cs);
    }
  }

  /** When the text ends inside the literal after a star, no later start can help. */
  lemma EndOfText(str: string, lit: string, rest: string, cs: bool)
    requires Literal(str, lit, cs) && |lit| == |str|
    ensures Matches(str, ['*'] + lit + rest, cs) <==> Matches([], rest, cs)
  {
    var wild := ['*'] + lit + rest;
    assert wild[1..] == lit + rest;
    LiteralPrefix(str, lit, rest, cs);
    assert str[|lit|..] == [];
    if Matches(str, wild, cs) {
      var k := StarSuffix(str, wild, cs);
      LiteralPrefix(str[k..], lit, rest, cs);
      assert k == 0 && str[0..] == str;
    }
  }

  /** A mismatch after a literal moves the restart point of the last star by one character. */
  lemma Restart(str: string, lit: string, rest: string, cs: bool)
    requires Literal(str, lit, cs) && |lit| < |str|
    requires rest == [] || (rest[0] != '*' && !Accepts(rest[0], str[|lit|], cs))
    ensures Matches(str, ['*'] + lit + rest, cs) <==> Matches(str[1..], ['*'] + lit + rest, cs)
  {
    assert (['*'] + lit + rest)[1..] == lit + rest;
    LiteralPrefix(str, lit, rest, cs);
  }

  /** Only stars match the empty text. */
  lemma {:induction false} EmptyText(wild: string, cs: bool)
    ensures Matches([], wild, cs) <==> forall i | 0 <= i < |wild| :: wild[i] == '*'
  {
    if wild != [] && wild[0] == '*' {
      EmptyText(wild[1..], cs);
      assert wild == [wild[0]] + wild[1..];
    }
  }

  /** Reading a C string: the terminating NUL comes after the last character. */
  function At(s: string, i: nat): char
    requires i <= |s|
  {
    if i < |s| then s[i] else '\0'
  }

  /** `Matches` between the positions `s` and `w`. */
  ghost predicate MatchesFrom(str: string, wild: string, cs: bool, s: nat, w: nat) {
    s <= |str| && w <= |wild| && Matches(str[s..], wild[w..], cs)
  }

  /** State of the comparison once a star has been seen: `mp` is the position after the last star,
      `cp` the next restart position in the text, and the mask between `mp` and `w` is fitted to the
      text between `cp - 1` and `s`. */
  ghost predicate Attempt(str: string, wild: string, cs: bool, s: nat, w: nat, cp: nat, mp: nat) {
    && s <= |str| && w <= |wild|
    && 0 < mp <= w && wild[mp - 1] == '*'
    && 0 < cp && s == cp - 1 + (w - mp)
    && Literal(str[cp - 1..], wild[mp..w], cs)
    && (Matches(str, wild, cs) <==> Matches(str[cp - 1..], wild[mp - 1..], cs))
  }

  lemma AttemptRange(str: string, wild: string, cs: bool, s: nat, w: nat, cp: nat, mp: nat)
    requires Attempt(str, wild, cs, s, w, cp, mp)
    ensures s <= |str| && mp <= w <= |wild| && 0 < cp <= s + 1 && s == cp - 1 + (w - mp)
  {
  }

  lemma AttemptSplit(str: string, wild: string, cs: bool, s: nat, w: nat, cp: nat, mp: nat)
    requires Attempt(str, wild, cs, s, w, cp, mp)
    ensures wild[mp - 1..] == ['*'] + wild[mp..w] + wild[w..]
    ensures str[cp - 1..][w - mp..] == str[s..]
  {
  }

  /** Passing a star starts a fresh attempt right after it. */
  lemma FirstStar(str: string, wild: string, cs: bool, s: nat, w: nat)
    requires s < |str| && w < |wild| && wild[w] == '*'
    requires Matches(str, wild, cs) == MatchesFrom(str, wild, cs, s, w)
    ensures Attempt(str, wild, cs, s, w + 1, s + 1, w + 1)
    ensures w + 1 == |wild| ==> Matches(str, wild, cs)
  {
    if w + 1 == |wild| {
      assert wild[w..] == ['*'];
      StarMatchesAll(str[s..], cs);
    }
  }

  lemma NextStar(str: string, wild: string, cs: bool, s: nat, w: nat, cp: nat, mp: nat)
    requires Attempt(str, wild, cs, s, w, cp, mp) && w < |wild| && wild[w] == '*'
    ensures Matches(str, wild, cs) == MatchesFrom(str, wild, cs, s, w)
  {
    AttemptSplit(str, wild, cs, s, w, cp, mp);
    EarliestFitSuffices(str[cp - 1..], wild[mp..w], wild[w..], cs);
  }

  lemma Advance(str: string, wild: string, cs: bool, s: nat, w: nat, cp: nat, mp: nat)
    requires Attempt(str, wild, cs, s, w, cp, mp) && w < |wild| && s < |str|
    requires wild[w] != '*' && Accepts(wild[w], str[s], cs)
    ensures Attempt(str, wild, cs, s + 1, w + 1, cp, mp)
  {
    assert wild[mp..w + 1] == wild[mp..w] + [wild[w]];
  }

  lemma Backtrack(str: string, wild: string, cs: bool, s: nat, w: nat, cp: nat, mp: nat)
    requires Attempt(str, wild, cs, s, w, cp, mp) && s < |str|
    requires w == |wild| || (wild[w] != '*' && !Accepts(wild[w], str[s], cs))
    ensures Attempt(str, wild, cs, cp, mp, cp + 1, mp)
  {
    AttemptSplit(str, wild, cs, s, w, cp, mp);
    Restart(str[cp - 1..], wild[mp..w], wild[w..], cs);
    assert str[cp - 1..][1..] == str[cp..] == str[cp + 1 - 1..];
  }

  lemma TextExhausted(str: string, wild: string, cs: bool, w: nat, cp: nat, mp: nat)
    requires Attempt(str, wild, cs, |str|, w, cp, mp)
    ensures Matches(str, wild, cs) <==> Matches([], wild[w..], cs)
  {
    AttemptSplit(str, wild, cs, |str|, w, cp, mp);
    EndOfText(str[cp - 1..], wild[mp..w], wild[w..], cs);
  }

  lemma PrefixStep(str: string, wild: string, cs: bool, s: nat, w: nat)
    requires s < |str| && w <= |wild| && (w < |wild| ==> wild[w] != '*')
    ensures MatchesFrom(str, wild, cs, s, w)
       <==> w < |wild| && Accepts(wild[w], str[s], cs) && MatchesFrom(str, wild, cs, s + 1, w + 1)
  {
    if w < |wild| {
      assert str[s..][1..] == str[s + 1..] && wild[w..][1..] == wild[w + 1..];
    }
  }

  /** The four-pointer comparison loop. It remembers only the last star and yet decides `Matches`. */
  method Wildcmp(str: string, wild: string, caseSensitive: bool) returns (r: bool)
    requires '\0' !in str && '\0' !in wild
    ensures r <==> Matches(str, wild, caseSensitive)
  {
    ghost var goal := Matches(str, wild, caseSensitive);
    var s, w := 0, 0;
    assert str[0..] == str && wild[0..] == wild;
    while s < |str| && At(wild, w) != '*'
      invariant 0 <= s <= |str| && 0 <= w <= |wild|
      invariant goal == MatchesFrom(str, wild, caseSensitive, s, w)
    {
      PrefixStep(str, wild, caseSensitive, s, w);
      if !SameChar(At(wild, w), str[s], caseSensitive) && At(wild, w) != '?' {
        return false;
      }
      w := w + 1;
      s := s + 1;
    }
    r := AfterStar(str, wild, caseSensitive, s, w);
  }

  /** The second and third loop of the comparison, entered at a star or at the end of the text. */
  method AfterStar(str: string, wild: string, caseSensitive: bool, s0: nat, w0: nat) returns (r: bool)
    requires '\0' !in str && '\0' !in wild
    requires s0 <= |str| && w0 <= |wild| && (s0 < |str| ==> At(wild, w0) == '*')
    requires Matches(str, wild, caseSensitive) == MatchesFrom(str, wild, caseSensitive, s0, w0)
    ensures r <==> Matches(str, wild, caseSensitive)
  {
    hide Matches, Attempt;
    var s, w := s0, w0;
    var cp, mp := 0, 0;
    while s < |str|
      invariant 0 <= s <= |str| && 0 <= w <= |wild| && mp <= |wild| && 0 <= cp <= |str| + 1
      invariant mp == 0 ==> s == s0 && w == w0
      invariant mp != 0 ==> Attempt(str, wild, caseSensitive, s, w, cp, mp)
      decreases |wild| - mp, |str| + 1 - cp, |str| - s
    {
      if mp != 0 {
        AttemptRange(str, wild, caseSensitive, s, w, cp, mp);
      }
      if At(wild, w) == '*' {
        if mp != 0 {
          NextStar(str, wild, caseSensitive, s, w, cp, mp);
        }
        FirstStar(str, wild, caseSensitive, s, w);
        w := w + 1;
        if w == |wild| {
          return true;
        }
        mp := w;
        cp := s + 1;
      } else if SameChar(At(wild, w), str[s], caseSensitive) || At(wild, w) == '?' {
        Advance(str, wild, caseSensitive, s, w, cp, mp);
        w := w + 1;
        s := s + 1;
      } else {
        Backtrack(str, wild, caseSensitive, s, w, cp, mp);
        w := mp;
        s := cp;
        cp := cp + 1;
      }
    }
    if mp != 0 {
      TextExhausted(str, wild, caseSensitive, w, cp, mp);
    } else {
      assert str[s..] == [];
    }
    EmptyText(wild[w..], caseSensitive);
    r := OnlyStars(wild, w);
  }

  /** The closing loop: the rest of the mask may hold nothing but stars. */
  method OnlyStars(wild: string, w0: nat) returns (r: bool)
    requires w0 <= |wild|
    ensures r <==> forall i | 0 <= i < |wild[w0..]| :: wild[w0..][i] == '*'
  {
    var w := w0;
    while At(wild, w) == '*'
      invariant w0 <= w <= |wild|
      invariant forall i | w0 <= i < w :: wild[i] == '*'
      decreases |wild| - w
    {
      w := w + 1;
    }
    r := w == |wild|;
    assert !r ==> wild[w0..][w - w0] != '*';
  }

  lemma {:induction false} StarMatchesAll(str: string, cs: bool)
    ensures Matches(str, ['*'], cs)
  {
    if str != [] {
      StarMatchesAll(str[1..], cs);
    } else {
      assert ['*'][1..] == [];
    }
  }

  // ---------------------------------------------------------------- what masks mean

  /** The same letter in the same or the other case; any other character only itself. */
  predicate SameLetter(c: char, d: char) {
    || c == d
    || ('A' <= c <= 'Z' && d as int == c as int + 32)
    || ('A' <= d <= 'Z' && c as int == d as int + 32)
  }

  predicate SameLetters(s: string, t: string) { |s| == |t| && forall i | 0 <= i < |s| :: SameLetter(s[i], t[i]) }

  /** Characters are taken for equal exactly if they are the same letter up to case. */
  lemma CaseIgnored(c: char, d: char)
    ensures SameChar(c, d, false) <==> SameLetter(c, d)
    ensures SameChar(c, d, true) <==> c == d
  {
  }

  /** Without case sensitivity no change of case, in the text or in the mask, changes the verdict. */
  lemma {:induction false} MatchesAnyCase(str: string, wild: string, str2: string, wild2: string)
    requires SameLetters(str, str2) && SameLetters(wild, wild2)
    ensures Matches(str, wild, false) <==> Matches(str2, wild2, false)
    decreases |str| + |wild|
  {
    if wild != [] {
      if wild[0] == '*' {
        MatchesAnyCase(str, wild[1..], str2, wild2[1..]);
        if str != [] {
          MatchesAnyCase(str[1..], wild, str2[1..], wild2);
        }
      } else if str != [] {
        MatchesAnyCase(str[1..], wild[1..], str2[1..], wild2[1..]);
      }
    }
  }

  /** A mask without wildcards matches itself alone. */
  lemma PlainMask(str: string, wild: string)
    requires '*' !in wild && '?' !in wild
    ensures Matches(str, wild, true) <==> str == wild
    ensures Matches(str, wild, false) <==> SameLetters(str, wild)
  {
    LiteralPrefix(str, wild, [], true);
    LiteralPrefix(str, wild, [], false);
    assert wild + [] == wild;
  }

  /** A star at the front stands for any run of characters. */
  lemma StarMeans(str: string, wild: string, cs: bool)
    ensures Matches(str, ['*'] + wild, cs) <==> exists k :: 0 <= k <= |str| && Matches(str[k..], wild, cs)
  {
    var star := ['*'] + wild;
    assert star[1..] == wild;
    if Matches(str, star, cs) {
      var k := StarSuffix(str, star, cs);
    }
    if exists k :: 0 <= k <= |str| && Matches(str[k..], wild, cs) {
      var k :| 0 <= k <= |str| && Matches(str[k..], wild, cs);
      StarAbsorbs(str, k, star, cs);
    }
  }

  lemma LiteralThenStar(str: string, lit: string)
    requires '*' !in lit && '?' !in lit
    ensures Matches(str, lit + ['*'], true) <==> lit <= str
  {
    LiteralPrefix(str, lit, ['*'], true);
    if |lit| <= |str| {
      StarMatchesAll(str[|lit|..], true);
    }
  }

  /** A text between two stars is found wherever it occurs. */
  lemma Contains(str: string, lit: string)
    requires '*' !in lit && '?' !in lit
    ensures Matches(str, ['*'] + (lit + ['*']), true) <==> exists k :: Text.At(str, k, lit)
  {
    hide Matches;
    StarMeans(str, lit + ['*'], true);
    forall k: nat | k <= |str| ensures Matches(str[k..], lit + ['*'], true) <==> Text.At(str, k, lit) {
      LiteralThenStar(str[k..], lit);
      assert k + |lit| <= |str| ==> str[k..k + |lit|] == str[k..][..|lit|];
    }
  }
}
