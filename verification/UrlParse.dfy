/** Parsing of a URL by one regular expression, and the port check that follows it. */
module UrlParse {
  import opened Text

  /** The character classes of the expression. */
  datatype Class = Lower | UserName | HostName | Number | Dot

  predicate Is(k: Class, c: char) {
    match k
    case Lower => 'a' <= c <= 'z'
    case UserName => 'a' <= c <= 'z' || 'A' <= c <= 'Z' || IsDigit(c) || c == '_' || c == '-' || c == '.'
    case HostName => 'a' <= c <= 'z' || IsDigit(c) || c == '.' || c == '-'
    case Number => IsDigit(c)
    case Dot => c != '\n' && c != '\r'
  }

  ghost predicate AllIn(s: string, from: nat, to: nat, k: Class)
    requires from <= to <= |s|
  {
    forall i {:trigger Is(k, s[i])} | from <= i < to :: Is(k, s[i])
  }

  /** End of the longest run of characters of class `k` that begins at `from`. */
  function Run(s: string, from: nat, k: Class): (to: nat)
    requires from <= |s|
    ensures from <= to <= |s| && AllIn(s, from, to, k)
    ensures to < |s| ==> !Is(k, s[to])
    decreases |s| - from
  {
    if from < |s| && Is(k, s[from]) then Run(s, from + 1, k) else from
  }

  /** A run ends where the class ends. */
  lemma RunUnique(s: string, from: nat, to: nat, k: Class)
    requires from <= to <= |s| && AllIn(s, from, to, k)
    requires to < |s| ==> !Is(k, s[to])
    ensures Run(s, from, k) == to
  {
  }

  lemma RunCovers(s: string, from: nat, to: nat, k: Class)
    requires from <= to <= |s| && AllIn(s, from, to, k)
    ensures to <= Run(s, from, k)
  {
  }

  // ---------------------------------------------------------------- what the expression matches

  /** Host from the start to `h`, then a port up to `d` if there is one, then the path. */
  datatype TailCut = TailCut(h: nat, port: bool, d: nat)

  /** Captures as positions: the protocol ends at `n`, the user at `u`, the password at `k`. A group
      that takes no part in the match is empty. */
  datatype Cuts = Cuts(n: nat, user: bool, u: nat, pw: bool, k: nat, tail: TailCut)

  function TailStart(c: Cuts): nat { if c.user then c.k + 1 else c.n + 3 }

  ghost predicate GoodTail(s: string, b: nat, t: TailCut) {
    && b < t.h <= t.d <= |s| && AllIn(s, b, t.h, HostName)
    && (if t.port then t.h + 1 < t.d && s[t.h] == ':' && AllIn(s, t.h + 1, t.d, Number) else t.d == t.h)
    && (t.d < |s| ==> s[t.d] == '/' && AllIn(s, t.d, |s|, Dot))
  }

  ghost predicate GoodUser(s: string, b: nat, u: nat, pw: bool, k: nat) {
    && b < u <= k < |s| && AllIn(s, b, u, UserName) && s[k] == '@'
    && (if pw then s[u] == ':' && u + 1 < k && AllIn(s, u + 1, k, Dot) else k == u)
  }

  /** `s` matches the expression as a whole, with captures `c`. */
  ghost predicate Derives(s: string, c: Cuts) {
    && 0 < c.n && c.n + 3 <= |s| && AllIn(s, 0, c.n, Lower)
    && s[c.n] == ':' && s[c.n + 1] == '/' && s[c.n + 2] == '/'
    && (if c.user then GoodUser(s, c.n + 3, c.u, c.pw, c.k) else !c.pw && c.u == c.k == c.n + 3)
    && GoodTail(s, TailStart(c), c.tail)
  }

  /** The order in which backtracking tries captures: every quantifier is greedy, and earlier ones
      decide before later ones. */
  ghost predicate TriedFirst(a: Cuts, b: Cuts) {
    if a.n != b.n then a.n > b.n
    else if a.user != b.user then a.user
    else if a.u != b.u then a.u > b.u
    else if a.pw != b.pw then a.pw
    else if a.k != b.k then a.k > b.k
    else if a.tail.h != b.tail.h then a.tail.h > b.tail.h
    else if a.tail.port != b.tail.port then a.tail.port
    else a.tail.d >= b.tail.d
  }

  // ---------------------------------------------------------------- the matcher

  predicate PathFrom(s: string, d: nat)
    requires d <= |s|
  {
    d == |s| || (s[d] == '/' && Run(s, d, Dot) == |s|)
  }

  /** Host, optional port and optional path: here every choice of the expression is forced. */
  function MatchTail(s: string, b: nat): (r: Option<TailCut>)
    requires b <= |s|
    ensures r.Some? ==> GoodTail(s, b, r.value)
  {
    var h := Run(s, b, HostName);
    if h == b then None
    else if h < |s| && s[h] == ':' then
      var d := Run(s, h + 1, Number);
      if d > h + 1 && PathFrom(s, d) then Some(TailCut(h, true, d)) else None
    else if PathFrom(s, h) then Some(TailCut(h, false, h))
    else None
  }

  /** May the password, which begins after `u`, end before the `@` at `k`? */
  predicate EndsPassword(s: string, u: nat, k: int)
    requires u < |s|
  {
    u + 2 <= k < |s| && s[k] == '@' && k <= Run(s, u + 1, Dot) && MatchTail(s, k + 1).Some?
  }

  /** Greedy `.+`: the last possible end of the password below `hi`. */
  function LastEnd(s: string, u: nat, hi: nat): (r: Option<nat>)
    requires u < |s|
    ensures r.Some? ==> r.value < hi && EndsPassword(s, u, r.value)
    ensures forall k | (r.Some? ==> r.value < k) && k < hi :: !EndsPassword(s, u, k)
  {
    if hi == 0 then None
    else if EndsPassword(s, u, hi - 1) then Some(hi - 1)
    else LastEnd(s, u, hi - 1)
  }

  /** The group of user and password, tried before the match without it. */
  function MatchUser(s: string, n: nat): (r: Option<Cuts>)
    requires n + 3 <= |s|
    ensures r.Some? ==>
              && r.value.n == n && r.value.user
              && GoodUser(s, n + 3, r.value.u, r.value.pw, r.value.k)
              && GoodTail(s, r.value.k + 1, r.value.tail)
  {
    var u := Run(s, n + 3, UserName);
    if u == n + 3 || u == |s| then None
    else if s[u] == '@' then
      (match MatchTail(s, u + 1)
       case None => None
       case Some(t) => Some(Cuts(n, true, u, false, u, t)))
    else if s[u] == ':' then
      (match LastEnd(s, u, |s|)
       case None => None
       case Some(k) => Some(Cuts(n, true, u, true, k, MatchTail(s, k + 1).value)))
    else None
  }

  /** The text after the protocol: with a user if possible, otherwise without. */
  function MatchRest(s: string, n: nat): (r: Option<Cuts>)
    requires n + 3 <= |s|
    ensures r.Some? ==>
              && r.value.n == n
              && (if r.value.user then GoodUser(s, n + 3, r.value.u, r.value.pw, r.value.k)
                  else !r.value.pw && r.value.u == r.value.k == n + 3)
              && GoodTail(s, TailStart(r.value), r.value.tail)
  {
    match MatchUser(s, n)
    case Some(c) => Some(c)
    case None =>
      match MatchTail(s, n + 3)
      case None => None
      case Some(t) => Some(Cuts(n, false, n + 3, false, n + 3, t))
  }

  /** `std::regex_match`. */
  function RegexMatch(s: string): (r: Option<Cuts>)
    ensures r.Some? ==> Derives(s, r.value)
  {
    var n := Run(s, 0, Lower);
    if n == 0 || n + 3 > |s| || s[n] != ':' || s[n + 1] != '/' || s[n + 2] != '/' then None
    else MatchRest(s, n)
  }

  // ---------------------------------------------------------------- the matcher is the expression

  /** There is no choice in a tail: the only captures are the computed ones. */
  lemma TailForced(s: string, b: nat, t: TailCut)
    requires GoodTail(s, b, t)
    ensures b <= |s| && MatchTail(s, b) == Some(t)
  {
    RunUnique(s, b, t.h, HostName);
    if t.port {
      RunUnique(s, t.h + 1, t.d, Number);
    }
    RunUnique(s, t.d, |s|, Dot) by {
      assert AllIn(s, t.d, |s|, Dot);
    }
  }

  lemma ProtocolForced(s: string, c: Cuts)
    requires Derives(s, c)
    ensures RegexMatch(s) == MatchRest(s, c.n)
  {
    RunUnique(s, 0, c.n, Lower);
  }

  lemma RestWithPassword(s: string, n: nat, u: nat, k: nat)
    requires n + 3 < u < |s| && Run(s, n + 3, UserName) == u && s[u] == ':' && LastEnd(s, u, |s|) == Some(k)
    ensures MatchRest(s, n) == Some(Cuts(n, true, u, true, k, MatchTail(s, k + 1).value))
  {
  }

  lemma RestWithUser(s: string, n: nat, u: nat)
    requires n + 3 < u < |s| && Run(s, n + 3, UserName) == u && s[u] == '@' && MatchTail(s, u + 1).Some?
    ensures MatchRest(s, n) == Some(Cuts(n, true, u, false, u, MatchTail(s, u + 1).value))
  {
  }

  lemma RestWithTail(s: string, n: nat)
    requires n + 3 <= |s| && MatchTail(s, n + 3).Some?
    ensures var r := MatchRest(s, n);
            r.Some? && (!r.value.user ==> r.value == Cuts(n, false, n + 3, false, n + 3, MatchTail(s, n + 3).value))
  {
  }

  /** The user is forced, and a password ends at one of the recorded places. */
  lemma UserForced(s: string, c: Cuts)
    requires Derives(s, c) && c.user
    ensures Run(s, c.n + 3, UserName) == c.u < |s|
    ensures MatchTail(s, c.k + 1) == Some(c.tail)
    ensures c.pw ==> s[c.u] == ':' && EndsPassword(s, c.u, c.k)
  {
    RunUnique(s, c.n + 3, c.u, UserName);
    TailForced(s, c.k + 1, c.tail);
    if c.pw {
      RunCovers(s, c.u + 1, c.k, Dot);
    }
  }

  /** No text of the expression's language is rejected, and the captures are those that
      backtracking tries first. */
  lemma MatchComplete(s: string, c: Cuts)
    requires Derives(s, c)
    ensures RegexMatch(s).Some? && TriedFirst(RegexMatch(s).value, c)
  {
    hide AllIn, Run, RegexMatch, MatchRest, MatchTail, EndsPassword, LastEnd;
    ProtocolForced(s, c);
    if c.user {
      UserForced(s, c);
      if c.pw {
        RestWithPassword(s, c.n, c.u, LastEnd(s, c.u, |s|).value);
      } else {
        RestWithUser(s, c.n, c.u);
      }
    } else {
      TailForced(s, c.n + 3, c.tail);
      RestWithTail(s, c.n);
    }
  }

  /** `RegexMatch` is the declarative meaning of the expression: it accepts exactly its language, and
      of all captures it returns the ones tried first. */
  lemma MatchIsExpression(s: string)
    ensures RegexMatch(s).Some? <==> exists c :: Derives(s, c)
    ensures forall c | Derives(s, c) :: RegexMatch(s).Some? && TriedFirst(RegexMatch(s).value, c)
  {
    forall c | Derives(s, c) ensures RegexMatch(s).Some? && TriedFirst(RegexMatch(s).value, c) {
      MatchComplete(s, c);
    }
  }

  // ---------------------------------------------------------------- when captures are recovered

  /** Can an `@` of the path be taken for the end of a password? Only behind something that looks
      like one, and only if host, port and path can be read after it. */
  ghost predicate PathMistaken(s: string, c: Cuts) {
    (c.pw || (!c.user && c.tail.port)) &&
    exists j :: c.tail.d <= j < |s| && s[j] == '@' && MatchTail(s, j + 1).Some?
  }

  /** In a tail, an `@` can only be in the path. */
  lemma AtOnlyInPath(s: string, b: nat, t: TailCut, j: nat)
    requires GoodTail(s, b, t) && b <= j < |s| && s[j] == '@'
    ensures t.d <= j
  {
    assert j < t.h ==> Is(HostName, s[j]);
    assert t.h < j < t.d ==> Is(Number, s[j]);
  }

  lemma TailDots(s: string, b: nat, t: TailCut)
    requires GoodTail(s, b, t)
    ensures AllIn(s, b, |s|, Dot)
  {
    forall i | b <= i < |s| ensures Is(Dot, s[i]) {
      assert i < t.h ==> Is(HostName, s[i]);
      assert t.h < i < t.d ==> Is(Number, s[i]);
      assert t.d <= i ==> Is(Dot, s[i]);
    }
  }

  /** From `u` on everything is free of line terminators, so any `@` before a tail is an end. */
  lemma EndsAnywhere(s: string, u: nat, j: nat)
    requires u + 2 <= j < |s| && AllIn(s, u + 1, |s|, Dot) && s[j] == '@' && MatchTail(s, j + 1).Some?
    ensures EndsPassword(s, u, j)
  {
    RunUnique(s, u + 1, |s|, Dot);
  }

  /** Behind a password, the last end is its own one exactly unless the path has a later one. */
  lemma LastEndOfPassword(s: string, c: Cuts)
    requires Derives(s, c) && c.user && c.pw
    ensures LastEnd(s, c.u, |s|).Some? && LastEnd(s, c.u, |s|).value >= c.k
    ensures LastEnd(s, c.u, |s|) == Some(c.k) <==> !PathMistaken(s, c)
  {
    hide MatchTail, LastEnd, Run;
    UserForced(s, c);
    TailDots(s, c.k + 1, c.tail);
    assert AllIn(s, c.u + 1, |s|, Dot);
    var last := LastEnd(s, c.u, |s|).value;
    if last > c.k {
      AtOnlyInPath(s, c.k + 1, c.tail, last);
    } else if PathMistaken(s, c) {
      var j :| c.tail.d <= j < |s| && s[j] == '@' && MatchTail(s, j + 1).Some?;
      EndsAnywhere(s, c.u, j);
    }
  }

  lemma PasswordRecovered(s: string, c: Cuts)
    requires Derives(s, c) && c.user && c.pw
    ensures MatchRest(s, c.n) == Some(c) <==> !PathMistaken(s, c)
  {
    hide AllIn, Run, MatchRest, MatchTail, EndsPassword, LastEnd, PathMistaken;
    UserForced(s, c);
    LastEndOfPassword(s, c);
    var last := LastEnd(s, c.u, |s|).value;
    RestWithPassword(s, c.n, c.u, last);
    assert MatchRest(s, c.n).value.k == last;
    if last == c.k {
      assert MatchRest(s, c.n) == Some(c);
    }
  }

  /** Without a user, a port makes the host look like a user and the port like a password. */
  lemma LastEndOfPort(s: string, c: Cuts)
    requires Derives(s, c) && !c.user && c.tail.port
    ensures LastEnd(s, c.tail.h, |s|).None? <==> !PathMistaken(s, c)
  {
    var b, t := c.n + 3, c.tail;
    TailDots(s, b, t);
    var last := LastEnd(s, t.h, |s|);
    if last.Some? {
      AtOnlyInPath(s, b, t, last.value);
    } else if PathMistaken(s, c) {
      var j :| t.d <= j < |s| && s[j] == '@' && MatchTail(s, j + 1).Some?;
      EndsAnywhere(s, t.h, j);
    }
  }

  lemma PortRecovered(s: string, c: Cuts)
    requires Derives(s, c) && !c.user && c.tail.port
    ensures MatchRest(s, c.n) == Some(c) <==> !PathMistaken(s, c)
  {
    HostIsUser(s, c.n + 3, c.tail);
    TailForced(s, c.n + 3, c.tail);
    LastEndOfPort(s, c);
  }

  lemma HostIsUser(s: string, b: nat, t: TailCut)
    requires GoodTail(s, b, t)
    ensures Run(s, b, UserName) == t.h
  {
    RunUnique(s, b, t.h, UserName) by {
      forall i | b <= i < t.h ensures Is(UserName, s[i]) {
        assert Is(HostName, s[i]);
      }
    }
  }

  /** A user without password leaves no choice. */
  lemma UserRecovered(s: string, c: Cuts)
    requires Derives(s, c) && c.user && !c.pw
    ensures MatchRest(s, c.n) == Some(c)
  {
    UserForced(s, c);
    RestWithUser(s, c.n, c.u);
  }

  /** Neither does a host without user and port: no `:` or `@` follows it. */
  lemma HostRecovered(s: string, c: Cuts)
    requires Derives(s, c) && !c.user && !c.tail.port
    ensures MatchRest(s, c.n) == Some(c)
  {
    HostIsUser(s, c.n + 3, c.tail);
    TailForced(s, c.n + 3, c.tail);
  }

  lemma NoAtNoMistake(s: string, c: Cuts)
    requires c.tail.d <= |s| && '@' !in s[c.tail.d..]
    ensures !PathMistaken(s, c)
  {
    forall j | c.tail.d <= j < |s| ensures s[j] != '@' {
      assert s[j] == s[c.tail.d..][j - c.tail.d];
    }
  }

  /** Any captures that derive a text are the ones returned, exactly unless an `@` of the path is
      mistaken for the end of a password; a password may itself hold `@`, `:` and `/`. */
  lemma CapturesRecovered(s: string, c: Cuts)
    requires Derives(s, c)
    ensures RegexMatch(s) == Some(c) <==> !PathMistaken(s, c)
    ensures '@' !in s[c.tail.d..] ==> !PathMistaken(s, c)
  {
    if '@' !in s[c.tail.d..] {
      NoAtNoMistake(s, c);
    }
    ProtocolForced(s, c);
    if c.user {
      if c.pw {
        PasswordRecovered(s, c);
      } else {
        UserRecovered(s, c);
      }
    } else if c.tail.port {
      PortRecovered(s, c);
    } else {
      HostRecovered(s, c);
    }
  }

  /** A port makes the host look like a user, and the `@` of the path ends what looks like a password. */
  lemma MistakenWitness()
    ensures var s, c := "ws://a:1/@b", Cuts(2, false, 5, false, 5, TailCut(6, true, 8));
            Derives(s, c) && PathMistaken(s, c) && RegexMatch(s).Some? && RegexMatch(s) != Some(c)
  {
    var s, c := "ws://a:1/@b", Cuts(2, false, 5, false, 5, TailCut(6, true, 8));
    assert Derives(s, c);
    TailForced(s, 10, TailCut(11, false, 11));
    assert s[9] == '@';
    CapturesRecovered(s, c);
    MatchComplete(s, c);
  }

  // ---------------------------------------------------------------- parts and recomposition

  datatype Parts = Parts(protocol: string, user: Option<string>, password: Option<string>,
                         host: string, port: Option<string>, path: string)

  function PartsOf(s: string, c: Cuts): Parts
    requires Derives(s, c)
  {
    Parts(s[..c.n], if c.user then Some(s[c.n + 3..c.u]) else None, if c.pw then Some(s[c.u + 1..c.k]) else None,
          s[TailStart(c)..c.tail.h], if c.tail.port then Some(s[c.tail.h + 1..c.tail.d]) else None, s[c.tail.d..])
  }

  function ComposeTail(p: Parts): string {
    p.host + ((if p.port.Some? then [':'] + p.port.value else []) + p.path)
  }

  function ComposeUser(p: Parts): string {
    if p.user.None? then []
    else p.user.value + ((if p.password.Some? then [':'] + p.password.value else []) + ['@'])
  }

  function Compose(p: Parts): string {
    p.protocol + ([':', '/', '/'] + (ComposeUser(p) + ComposeTail(p)))
  }

  /** Gluing the pieces of a tail. */
  lemma GlueTail(s: string, b: nat, h: nat, port: bool, d: nat)
    requires b <= h <= d <= |s| && (if port then h < d && s[h] == ':' else d == h)
    ensures s[b..h] + ((if port then [':'] + s[h + 1..d] else []) + s[d..]) == s[b..]
  {
    if port {
      assert s[h..] == [s[h]] + s[h + 1..d] + s[d..];
    }
  }

  /** Gluing the pieces of a user group. */
  lemma GlueUser(s: string, b: nat, u: nat, pw: bool, k: nat)
    requires b <= u <= k < |s| && s[k] == '@' && (if pw then u < k && s[u] == ':' else k == u)
    ensures s[b..u] + ((if pw then [':'] + s[u + 1..k] else []) + ['@']) == s[b..k + 1]
  {
    if pw {
      assert s[u..k + 1] == [s[u]] + s[u + 1..k] + [s[k]];
    }
  }

  lemma GlueAll(s: string, n: nat, b: nat)
    requires n + 3 <= b <= |s| && s[n] == ':' && s[n + 1] == '/' && s[n + 2] == '/'
    ensures s == s[..n] + ([':', '/', '/'] + (s[n + 3..b] + s[b..]))
  {
    assert s[n..] == [s[n], s[n + 1], s[n + 2]] + s[n + 3..];
  }

  lemma TailText(s: string, c: Cuts)
    requires Derives(s, c)
    ensures ComposeTail(PartsOf(s, c)) == s[TailStart(c)..]
  {
    hide AllIn, GoodUser;
    GlueTail(s, TailStart(c), c.tail.h, c.tail.port, c.tail.d);
  }

  lemma UserText(s: string, c: Cuts)
    requires Derives(s, c)
    ensures ComposeUser(PartsOf(s, c)) == s[c.n + 3..TailStart(c)]
  {
    hide AllIn, GoodTail;
    if c.user {
      GlueUser(s, c.n + 3, c.u, c.pw, c.k);
    }
  }

  /** Every derivation recomposes the text: no character is lost or invented. */
  lemma Recomposed(s: string, c: Cuts)
    requires Derives(s, c)
    ensures s == Compose(PartsOf(s, c))
  {
    TailText(s, c);
    UserText(s, c);
    GlueAll(s, c.n, TailStart(c));
  }

  ghost predicate AllOf(s: string, k: Class) { AllIn(s, 0, |s|, k) }

  ghost predicate GoodParts(p: Parts) {
    && p.protocol != [] && AllOf(p.protocol, Lower)
    && (p.user.Some? ==> p.user.value != [] && AllOf(p.user.value, UserName))
    && (p.password.Some? ==> p.user.Some? && p.password.value != [] && AllOf(p.password.value, Dot))
    && p.host != [] && AllOf(p.host, HostName)
    && (p.port.Some? ==> p.port.value != [] && AllOf(p.port.value, Number))
    && (p.path != [] ==> p.path[0] == '/' && AllOf(p.path, Dot))
  }

  function CutsOf(p: Parts): Cuts {
    var n := |p.protocol|;
    var u := n + 3 + (if p.user.Some? then |p.user.value| else 0);
    var k := u + (if p.password.Some? then 1 + |p.password.value| else 0);
    var h := k + (if p.user.Some? then 1 else 0) + |p.host|;
    Cuts(n, p.user.Some?, u, p.password.Some?, k,
         TailCut(h, p.port.Some?, h + (if p.port.Some? then 1 + |p.port.value| else 0)))
  }

  lemma AtAll(s: string, from: nat, part: string, k: Class)
    requires At(s, from, part) && AllOf(part, k)
    ensures AllIn(s, from, from + |part|, k)
  {
    forall i | from <= i < from + |part| ensures Is(k, s[i]) {
      assert s[i] == part[i - from];
    }
  }

  /** `s` is the composition of `p`, told by places. */
  ghost predicate Laid(s: string, p: Parts) {
    var c := CutsOf(p);
    && At(s, 0, p.protocol) && At(s, c.n, [':', '/', '/'])
    && |ComposeUser(p)| == TailStart(c) - c.n - 3 && At(s, c.n + 3, ComposeUser(p))
    && At(s, TailStart(c), ComposeTail(p)) && |s| == TailStart(c) + |ComposeTail(p)|
  }

  lemma Placed(p: Parts)
    requires p.password.Some? ==> p.user.Some?
    ensures Laid(Compose(p), p)
  {
    var s, c := Compose(p), CutsOf(p);
    var rest := ComposeUser(p) + ComposeTail(p);
    assert At(s, 0, p.protocol + ([':', '/', '/'] + rest));
    AtSplit(s, 0, p.protocol, [':', '/', '/'] + rest);
    AtSplit(s, c.n, [':', '/', '/'], rest);
    AtSplit(s, c.n + 3, ComposeUser(p), ComposeTail(p));
  }

  lemma PlacedHost(s: string, b: nat, host: string)
    requires At(s, b, host) && AllOf(host, HostName)
    ensures b + |host| <= |s| && AllIn(s, b, b + |host|, HostName) && s[b..b + |host|] == host
  {
    hide AllIn, AllOf;
    AtAll(s, b, host, HostName);
  }

  lemma PlacedPort(s: string, h: nat, text: string)
    requires At(s, h, [':'] + text) && text != [] && AllOf(text, Number)
    ensures var d := h + 1 + |text|;
            h + 1 < d <= |s| && s[h] == ':' && AllIn(s, h + 1, d, Number) && s[h + 1..d] == text
  {
    hide AllIn;
    AtSplit(s, h, [':'], text);
    AtAll(s, h + 1, text, Number);
    assert s[h] == s[h..h + 1][0];
  }

  lemma PlacedPath(s: string, d: nat, path: string)
    requires At(s, d, path) && |s| == d + |path| && (path != [] ==> path[0] == '/' && AllOf(path, Dot))
    ensures s[d..] == path && (d < |s| ==> s[d] == '/' && AllIn(s, d, |s|, Dot))
  {
    hide AllIn;
    assert s[d..] == s[d..d + |path|];
    if path != [] {
      AtAll(s, d, path, Dot);
      assert s[d] == s[d..][0];
    }
  }

  lemma PlacedTail(s: string, b: nat, p: Parts)
    requires At(s, b, ComposeTail(p)) && |s| == b + |ComposeTail(p)|
    requires p.host != [] && AllOf(p.host, HostName)
    requires p.port.Some? ==> p.port.value != [] && AllOf(p.port.value, Number)
    requires p.path != [] ==> p.path[0] == '/' && AllOf(p.path, Dot)
    ensures var h := b + |p.host|;
            var d := h + (if p.port.Some? then 1 + |p.port.value| else 0);
            && GoodTail(s, b, TailCut(h, p.port.Some?, d))
            && s[b..h] == p.host && s[d..] == p.path
            && (p.port.Some? ==> s[h + 1..d] == p.port.value)
  {
    hide AllIn, AllOf, At;
    var port := if p.port.Some? then [':'] + p.port.value else [];
    var h := b + |p.host|;
    AtSplit(s, b, p.host, port + p.path);
    AtSplit(s, h, port, p.path);
    PlacedHost(s, b, p.host);
    if p.port.Some? {
      PlacedPort(s, h, p.port.value);
    }
    PlacedPath(s, h + |port|, p.path);
  }

  lemma PlacedUser(s: string, b: nat, p: Parts)
    requires At(s, b, ComposeUser(p)) && p.user.Some?
    requires p.user.value != [] && AllOf(p.user.value, UserName)
    requires p.password.Some? ==> p.password.value != [] && AllOf(p.password.value, Dot)
    ensures var u := b + |p.user.value|;
            var k := u + (if p.password.Some? then 1 + |p.password.value| else 0);
            && GoodUser(s, b, u, p.password.Some?, k)
            && s[b..u] == p.user.value && (p.password.Some? ==> s[u + 1..k] == p.password.value)
  {
    var pw := if p.password.Some? then [':'] + p.password.value else [];
    var u := b + |p.user.value|;
    AtSplit(s, b, p.user.value, pw + ['@']);
    AtSplit(s, u, pw, ['@']);
    AtAll(s, b, p.user.value, UserName);
    var k := u + |pw|;
    assert s[k] == s[k..k + 1][0];
    if p.password.Some? {
      AtSplit(s, u, [':'], p.password.value);
      AtAll(s, u + 1, p.password.value, Dot);
      assert s[u] == s[u..u + 1][0];
    }
  }

  lemma LaidFront(s: string, p: Parts)
    requires GoodParts(p) && Laid(s, p)
    ensures var n := |p.protocol|;
            && 0 < n && n + 3 <= |s| && AllIn(s, 0, n, Lower) && s[..n] == p.protocol
            && s[n] == ':' && s[n + 1] == '/' && s[n + 2] == '/'
  {
    var n := |p.protocol|;
    AtAll(s, 0, p.protocol, Lower);
    var sep := s[n..n + 3];
    assert s[n] == sep[0] && s[n + 1] == sep[1] && s[n + 2] == sep[2];
  }

  lemma LaidUser(s: string, p: Parts)
    requires GoodParts(p) && Laid(s, p) && p.user.Some?
    ensures var c := CutsOf(p);
            && GoodUser(s, c.n + 3, c.u, c.pw, c.k)
            && s[c.n + 3..c.u] == p.user.value && (c.pw ==> s[c.u + 1..c.k] == p.password.value)
  {
    PlacedUser(s, |p.protocol| + 3, p);
  }

  lemma LaidTail(s: string, p: Parts)
    requires GoodParts(p)
    requires At(s, TailStart(CutsOf(p)), ComposeTail(p)) && |s| == TailStart(CutsOf(p)) + |ComposeTail(p)|
    ensures var c := CutsOf(p);
            && GoodTail(s, TailStart(c), c.tail)
            && s[TailStart(c)..c.tail.h] == p.host && s[c.tail.d..] == p.path
            && (c.tail.port ==> s[c.tail.h + 1..c.tail.d] == p.port.value)
  {
    PlacedTail(s, TailStart(CutsOf(p)), p);
  }

  lemma LaidWithUser(s: string, p: Parts)
    requires GoodParts(p) && Laid(s, p) && p.user.Some?
    ensures Derives(s, CutsOf(p)) && PartsOf(s, CutsOf(p)) == p
  {
    hide AllIn, AllOf, At, GoodUser, GoodTail, ComposeUser, ComposeTail;
    LaidFront(s, p);
    LaidUser(s, p);
    LaidTail(s, p);
    SameParts(s, p, CutsOf(p));
  }

  lemma LaidWithoutUser(s: string, p: Parts)
    requires GoodParts(p) && Laid(s, p) && p.user.None?
    ensures Derives(s, CutsOf(p)) && PartsOf(s, CutsOf(p)) == p
  {
    hide AllIn, AllOf, At, GoodTail, ComposeUser, ComposeTail;
    LaidFront(s, p);
    LaidTail(s, p);
    SameParts(s, p, CutsOf(p));
  }

  /** Parts that are found at the cuts are the parts of the cuts. */
  lemma SameParts(s: string, p: Parts, c: Cuts)
    requires Derives(s, c) && c.user == p.user.Some? && c.pw == p.password.Some? && c.tail.port == p.port.Some?
    requires s[..c.n] == p.protocol && s[c.tail.d..] == p.path && s[TailStart(c)..c.tail.h] == p.host
    requires c.user ==> s[c.n + 3..c.u] == p.user.value
    requires c.pw ==> s[c.u + 1..c.k] == p.password.value
    requires c.tail.port ==> s[c.tail.h + 1..c.tail.d] == p.port.value
    ensures PartsOf(s, c) == p
  {
    hide AllIn;
  }

  lemma LaidDerives(s: string, p: Parts)
    requires GoodParts(p) && Laid(s, p)
    ensures Derives(s, CutsOf(p)) && PartsOf(s, CutsOf(p)) == p
  {
    hide GoodParts, Laid, Derives, PartsOf, CutsOf;
    if p.user.Some? {
      LaidWithUser(s, p);
    } else {
      LaidWithoutUser(s, p);
    }
  }

  /** Well-formed parts are captured by the expression in their composition, at their own places. */
  lemma ComposedDerives(p: Parts)
    requires GoodParts(p)
    ensures Derives(Compose(p), CutsOf(p)) && PartsOf(Compose(p), CutsOf(p)) == p
  {
    Placed(p);
    LaidDerives(Compose(p), p);
  }

  /** Parsing well-formed parts back: exactly unless an `@` of the path is mistaken, and always when
      the path has none. */
  lemma PartsBack(p: Parts)
    requires GoodParts(p)
    ensures Derives(Compose(p), CutsOf(p))
    ensures RegexMatch(Compose(p)) == Some(CutsOf(p)) <==> !PathMistaken(Compose(p), CutsOf(p))
    ensures '@' !in p.path ==> RegexMatch(Compose(p)) == Some(CutsOf(p)) && PartsOf(Compose(p), CutsOf(p)) == p
  {
    ComposedDerives(p);
    CapturesRecovered(Compose(p), CutsOf(p));
    assert PartsOf(Compose(p), CutsOf(p)).path == p.path;
  }

  // ---------------------------------------------------------------- the class

  /** `std::stoul` on a 64-bit platform followed by the narrowing to `unsigned int`; `None` is the
      exception. */
  function PortNumber(text: string): Option<nat> {
    if AllDigits(text) && NumValue(text) < 0x1_0000_0000_0000_0000
    then Some(NumValue(text) % 0x1_0000_0000) else None
  }

  predicate PortAccepted(text: string) {
    PortNumber(text).Some? && 1 <= PortNumber(text).value <= 65535
  }

  /** The captured parts of an accepted text. */
  function Captures(s: string): Option<Parts> {
    match RegexMatch(s)
    case None => None
    case Some(c) => Some(PartsOf(s, c))
  }

  /** Every accepted text equals the recomposition of its captured parts, and a captured port consists
      of digits. */
  lemma CapturesRecompose(s: string)
    ensures Captures(s).Some? ==> s == Compose(Captures(s).value)
    ensures Captures(s).Some? && Captures(s).value.port.Some? ==> AllDigits(Captures(s).value.port.value)
  {
    hide RegexMatch, Derives, Compose, AllDigits;
    if RegexMatch(s).Some? {
      var c := RegexMatch(s).value;
      Recomposed(s, c);
      if c.tail.port {
        PortDigits(s, c);
      }
    }
  }

  /** Exactly the texts of the expression's language are accepted. */
  lemma CapturesIffDerives(s: string)
    ensures Captures(s).Some? <==> exists c :: Derives(s, c)
  {
    hide RegexMatch, Derives;
    MatchIsExpression(s);
  }

  /** Well-formed parts with an `@`-free path are captured from their composition. */
  lemma CapturesOfComposed(p: Parts)
    requires GoodParts(p) && '@' !in p.path
    ensures Captures(Compose(p)) == Some(p)
  {
    hide RegexMatch, GoodParts, PathMistaken;
    PartsBack(p);
  }

  /** A URL as its user means it: well-formed parts, an `@`-free path, and a port from 1 to 65535 or none. */
  ghost predicate Meant(p: Parts) {
    && GoodParts(p) && '@' !in p.path
    && (p.port.Some? ==> AllDigits(p.port.value) && 1 <= NumValue(p.port.value) <= 65535)
  }

  /** Two such URLs. */
  lemma MeantSamples()
    ensures var p := Parts("ws", None, None, "localhost", Some("8080"), "/ocpp");
            Meant(p) && Compose(p) == "ws://localhost:8080/ocpp" && NumValue(p.port.value) == 8080
    ensures var p := Parts("wss", Some("C_1-."), Some("p@/"), "1.a-", None, "");
            Meant(p) && Compose(p) == "wss://C_1-.:p@/@1.a-"
  {
    hide Digits, NumValue, Compose;
    SampleNumber();
    SampleText();
    SampleUserText();
  }

  /** A host in upper case is refused, with or without a user. */
  lemma UpperCaseHostRefused()
    ensures Captures("ws://A") == None && Captures("ws://u@A") == None
  {
    var s, t := "ws://A", "ws://u@A";
    RunUnique(s, 0, 2, Lower);
    RunUnique(s, 5, 6, UserName);
    RunUnique(s, 5, 5, HostName);
    RunUnique(t, 0, 2, Lower);
    RunUnique(t, 5, 6, UserName);
    RunUnique(t, 5, 6, HostName);
    RunUnique(t, 7, 7, HostName);
  }

  lemma SampleNumber()
    ensures AllDigits("8080") && NumValue("8080") == 8080
  {
    assert Digits(8) == "8" && Digits(80) == "80";
    assert Digits(808) == "808";
    assert Digits(8080) == "8080";
    NumValueOfDigits(8080);
  }

  lemma SampleText()
    ensures Compose(Parts("ws", None, None, "localhost", Some("8080"), "/ocpp")) == "ws://localhost:8080/ocpp"
  {
  }

  lemma SampleUserText()
    ensures Compose(Parts("wss", Some("C_1-."), Some("p@/"), "1.a-", None, "")) == "wss://C_1-.:p@/@1.a-"
  {
    var p := Parts("wss", Some("C_1-."), Some("p@/"), "1.a-", None, "");
    assert ComposeUser(p) == "C_1-.:p@/@";
    assert ComposeTail(p) == "1.a-";
  }

  ghost function MeantNumber(p: Parts): nat
    requires Meant(p)
  {
    if p.port.None? then 0 else NumValue(p.port.value)
  }

  lemma MeantParts(p: Parts)
    requires Meant(p)
    ensures Captures(Compose(p)) == Some(p)
  {
    hide GoodParts, Captures, Compose;
    CapturesOfComposed(p);
  }

  lemma MeantPort(p: Parts)
    requires Meant(p)
    ensures if p.port.None? then MeantNumber(p) == 0
            else PortAccepted(p.port.value) && PortNumber(p.port.value) == Some(MeantNumber(p))
  {
    hide GoodParts;
  }

  lemma PortDigits(s: string, c: Cuts)
    requires Derives(s, c) && c.tail.port
    ensures AllDigits(s[c.tail.h + 1..c.tail.d])
  {
    var text := s[c.tail.h + 1..c.tail.d];
    forall i | 0 <= i < |text| ensures IsDigit(text[i]) {
      assert Is(Number, s[c.tail.h + 1 + i]);
    }
  }

  class Url {
    var url: string
    var isValid: bool
    var parts: Option<Parts>
    var port: nat

    /** Captures become fields; a port that is out of range makes the URL invalid. */
    constructor (text: string)
      ensures url == text
      ensures parts == Captures(CStr(text)) && (parts.Some? <==> exists c :: Derives(CStr(text), c))
      ensures isValid <==> parts.Some? && (parts.value.port.Some? ==> PortAccepted(parts.value.port.value))
      ensures isValid ==> port == if parts.value.port.None? then 0 else PortNumber(parts.value.port.value).value
      ensures forall p | Meant(p) && text == Compose(p) && '\0' !in text ::
                isValid && parts == Some(p) && port == MeantNumber(p)
    {
      hide Captures, Derives, Compose, Meant, PortAccepted, PortNumber, NumValue;
      url, isValid, port, parts := text, false, 0, None;
      new;
      parts := Captures(CStr(url));
      isValid := parts.Some?;
      if isValid {
        CheckPort(parts.value.port);
      }
      CapturesIffDerives(CStr(text));
      forall p | Meant(p) && text == Compose(p) && '\0' !in text
        ensures isValid && parts == Some(p) && port == MeantNumber(p)
      {
        MeantParts(p);
        MeantPort(p);
      }
    }

    /** Conversion and check of the captured port. */
    method CheckPort(sport: Option<string>)
      requires isValid && port == 0
      modifies this`isValid, this`port
      ensures isValid <==> (sport.Some? ==> PortAccepted(sport.value))
      ensures isValid ==> port == if sport.None? then 0 else PortNumber(sport.value).value
    {
      if sport.Some? {
        var n := PortNumber(sport.value);
        if n.Some? {
          port := n.value;
        } else {
          isValid := false;
        }
        if port == 0 || port > 65535 {
          isValid := false;
        }
      }
    }
  }

  /** Below 2^32 the check accepts exactly the ports 1 to 65535; above, it accepts what is congruent
      to one of them, up to the range of `stoul`. */
  lemma PortRange(text: string)
    requires AllDigits(text)
    ensures NumValue(text) < 0x1_0000_0000 ==> (PortAccepted(text) <==> 1 <= NumValue(text) <= 65535)
    ensures PortAccepted(text)
       <==> NumValue(text) < 0x1_0000_0000_0000_0000 && 1 <= NumValue(text) % 0x1_0000_0000 <= 65535
  {
  }

  /** Port numbers that are far out of range and yet accepted, as the port they are congruent to. */
  lemma PortWraps(n: nat)
    requires 1 <= n <= 65535
    ensures var text := Digits(0x1_0000_0000 + n); PortAccepted(text) && PortNumber(text) == Some(n)
  {
    hide Digits, NumValue, AllDigits;
    assert (0x1_0000_0000 + n) % 0x1_0000_0000 == n;
    NumValueOfDigits(0x1_0000_0000 + n);
  }
}
