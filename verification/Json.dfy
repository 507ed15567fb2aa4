/** A small model of the JSON reader and writer that frames pass through (RFC 8259): a writer that
    emits tokens, and a reader that splits a text into tokens and parses them. */
module Json {
  import opened Text

  /** `Real` is a number that is not an integer in range; it keeps its text. */
  datatype Json =
    | Null
    | Bool(b: bool)
    | Num(n: int)
    | Real(text: string)
    | Str(s: string)
    | Arr(items: seq<Json>)
    | Obj(members: seq<Member>)
  datatype Member = Member(key: string, value: Json)

  predicate IntRange(n: int) { -0x8000_0000_0000_0000 <= n < 0x1_0000_0000_0000_0000 }

  /** Tokens; `Gap` is a space between tokens, which only the writer of frames emits. */
  datatype Token =
    | LBracket | RBracket | LBrace | RBrace | Comma | Colon | Gap
    | TStr(s: string) | TNum(n: int) | TReal(text: string) | TNull | TTrue | TFalse

  // ---------------------------------------------------------------- writer

  function EscapeChar(c: char): (r: string)
    ensures r != []
  {
    if c == '"' then ['\\', '"']
    else if c == '\\' then ['\\', '\\']
    else if c == 8 as char then ['\\', 'b']
    else if c == 12 as char then ['\\', 'f']
    else if c == '\n' then ['\\', 'n']
    else if c == '\r' then ['\\', 'r']
    else if c == '\t' then ['\\', 't']
    else if c < ' ' then ['\\', 'u', '0', '0', HexChar(c as nat / 16), HexChar(c as nat % 16)]
    else [c]
  }

  function Escape(s: string): string {
    if s == [] then [] else EscapeChar(s[0]) + Escape(s[1..])
  }

  function PrintInt(n: int): string {
    if n < 0 then ['-'] + Digits(-n) else Digits(n)
  }

  /** `SetMaxDecimalPlaces(1)`: of the digits after the point only the first is written. */
  function CutDecimals(t: string): string {
    var p := Span(t, 0, c => c != '.');
    if p < |t| && Span(t, p + 1, IsDigit) == |t| && p + 2 <= |t| then t[..p + 2] else t
  }

  function PrintStr(s: string): string { ['"'] + (Escape(s) + ['"']) }

  function TokenText(t: Token): string {
    match t
    case LBracket => "["
    case RBracket => "]"
    case LBrace => "{"
    case RBrace => "}"
    case Comma => ","
    case Colon => ":"
    case Gap => " "
    case TStr(s) => PrintStr(s)
    case TNum(n) => PrintInt(n)
    case TReal(text) => CutDecimals(text)
    case TNull => "null"
    case TTrue => "true"
    case TFalse => "false"
  }

  function TokensText(ts: seq<Token>): string {
    if ts == [] then [] else TokenText(ts[0]) + TokensText(ts[1..])
  }

  /** The tokens of a value. */
  function Emit(j: Json): seq<Token>
    decreases j, 1
  {
    match j
    case Null => [TNull]
    case Bool(b) => [if b then TTrue else TFalse]
    case Num(n) => [TNum(n)]
    case Real(t) => [TReal(t)]
    case Str(s) => [TStr(s)]
    case Arr(items) => [LBracket] + (EmitItems(items) + [RBracket])
    case Obj(members) => [LBrace] + (EmitMembers(members) + [RBrace])
  }

  function EmitItems(items: seq<Json>): seq<Token>
    decreases items, 0
  {
    if items == [] then []
    else if |items| == 1 then Emit(items[0])
    else Emit(items[0]) + ([Comma] + EmitItems(items[1..]))
  }

  function EmitMember(m: Member): seq<Token>
    decreases m, 0
  {
    [TStr(m.key), Colon] + Emit(m.value)
  }

  function EmitMembers(members: seq<Member>): seq<Token>
    decreases members, 0
  {
    if members == [] then []
    else if |members| == 1 then EmitMember(members[0])
    else EmitMember(members[0]) + ([Comma] + EmitMembers(members[1..]))
  }

  function Print(j: Json): string { TokensText(Emit(j)) }

  // ---------------------------------------------------------------- reading tokens

  predicate IsSpace(c: char) { c == ' ' || c == '\t' || c == '\n' || c == '\r' }

  function SkipSpace(s: string, i: nat): (j: nat)
    requires i <= |s|
    ensures i <= j <= |s| && (j < |s| ==> !IsSpace(s[j]))
    decreases |s| - i
  {
    if i < |s| && IsSpace(s[i]) then SkipSpace(s, i + 1) else i
  }

  function HexVal(c: char): int {
    if '0' <= c <= '9' then (c - '0') as int
    else if 'A' <= c <= 'F' then (c - 'A') as int + 10
    else if 'a' <= c <= 'f' then (c - 'a') as int + 10
    else -1
  }

  /** Four hexadecimal digits, or -1. */
  function Hex4(s: string, i: nat): (v: int)
    ensures -1 <= v < 0x1_0000
    ensures v >= 0 ==> i + 4 <= |s|
  {
    if i + 4 > |s| then -1
    else
      var a, b, c, d := HexVal(s[i]), HexVal(s[i + 1]), HexVal(s[i + 2]), HexVal(s[i + 3]);
      if a < 0 || b < 0 || c < 0 || d < 0 then -1 else ((a * 16 + b) * 16 + c) * 16 + d
  }

  /** One character of a string literal: the character and the position after it. */
  function ReadChar(s: string, i: nat): (r: Option<(char, nat)>)
    requires i < |s|
    ensures r.Some? ==> i < r.value.1 <= |s|
  {
    if s[i] < ' ' then None
    else if s[i] != '\\' then Some((s[i], i + 1))
    else if i + 1 >= |s| then None
    else
      match s[i + 1]
      case '"' => Some(('"', i + 2))
      case '\\' => Some(('\\', i + 2))
      case '/' => Some(('/', i + 2))
      case 'b' => Some((8 as char, i + 2))
      case 'f' => Some((12 as char, i + 2))
      case 'n' => Some(('\n', i + 2))
      case 'r' => Some(('\r', i + 2))
      case 't' => Some(('\t', i + 2))
      case 'u' => ReadUnicode(s, i)
      case _ => None
  }

  /** A `\u` escape, or a pair of them for a character outside the basic plane. */
  function ReadUnicode(s: string, i: nat): (r: Option<(char, nat)>)
    requires i + 1 < |s|
    ensures r.Some? ==> i < r.value.1 <= |s|
  {
    var v := Hex4(s, i + 2);
    if v < 0 then None
    else if v < 0xD800 || 0xE000 <= v then Some((v as char, i + 6))
    else if v >= 0xDC00 || i + 8 > |s| || s[i + 6] != '\\' || s[i + 7] != 'u' then None
    else
      var w := Hex4(s, i + 8);
      if 0xDC00 <= w < 0xE000 then Some((((v - 0xD800) * 0x400 + (w - 0xDC00) + 0x1_0000) as char, i + 12))
      else None
  }

  /** The rest of a string literal after its opening quote. */
  function ReadString(s: string, i: nat): (r: Option<(string, nat)>)
    requires i <= |s|
    ensures r.Some? ==> i < r.value.1 <= |s|
    decreases |s| - i
  {
    if i == |s| then None
    else if s[i] == '"' then Some(([], i + 1))
    else
      match ReadChar(s, i)
      case None => None
      case Some((c, j)) =>
        match ReadString(s, j)
        case None => None
        case Some((t, k)) => Some(([c] + t, k))
  }

  function DigitsEnd(s: string, i: nat): (j: nat)
    requires i <= |s|
    ensures i <= j <= |s| && (j < |s| ==> !IsDigit(s[j])) && forall k | i <= k < j :: IsDigit(s[k])
  {
    Span(s, i, IsDigit)
  }

  /** End of the fraction and exponent that follow the integer part, or `i` if there are none;
      `None` when they are malformed. */
  function FractionEnd(s: string, i: nat): (r: Option<nat>)
    requires i <= |s|
    ensures r.Some? ==> i <= r.value <= |s|
    ensures i == |s| || (s[i] != '.' && s[i] != 'e' && s[i] != 'E') ==> r == Some(i)
  {
    var f := if i < |s| && s[i] == '.' then DigitsEnd(s, i + 1) else i;
    if f == i + 1 then None
    else if f < |s| && (s[f] == 'e' || s[f] == 'E') then
      var g := if f + 1 < |s| && (s[f + 1] == '+' || s[f + 1] == '-') then f + 2 else f + 1;
      var e := DigitsEnd(s, g);
      if e == g then None else Some(e)
    else Some(f)
  }

  /** The number that stands from `i` to `f`, its integer part from `b` to `e`. */
  function NumberToken(s: string, i: nat, b: nat, e: nat, f: nat): Token
    requires i <= b <= e <= f <= |s| && forall k | b <= k < e :: IsDigit(s[k])
  {
    var v: int := NumValue(s[b..e]);
    var n := if b == i then v else 0 - v;
    if f == e && IntRange(n) then TNum(n) else TReal(s[i..f])
  }

  function ReadNumber(s: string, i: nat): (r: Option<(Token, nat)>)
    requires i <= |s|
    ensures r.Some? ==> i < r.value.1 <= |s|
  {
    var b := if i < |s| && s[i] == '-' then i + 1 else i;
    var e := DigitsEnd(s, b);
    if e == b || (s[b] == '0' && e > b + 1) then None
    else
      match FractionEnd(s, e)
      case None => None
      case Some(f) => Some((NumberToken(s, i, b, e, f), f))
  }

  function ReadWord(s: string, i: nat, t: Token): (r: Option<(Token, nat)>)
    requires t == TNull || t == TTrue || t == TFalse
    ensures r.Some? ==> i < r.value.1 <= |s|
  {
    if At(s, i, TokenText(t)) then Some((t, i + |TokenText(t)|)) else None
  }

  /** The token that begins at `i`, and the position after it. */
  function ReadToken(s: string, i: nat): (r: Option<(Token, nat)>)
    requires i < |s|
    ensures r.Some? ==> i < r.value.1 <= |s|
  {
    match s[i]
    case '[' => Some((LBracket, i + 1))
    case ']' => Some((RBracket, i + 1))
    case '{' => Some((LBrace, i + 1))
    case '}' => Some((RBrace, i + 1))
    case ',' => Some((Comma, i + 1))
    case ':' => Some((Colon, i + 1))
    case 'n' => ReadWord(s, i, TNull)
    case 't' => ReadWord(s, i, TTrue)
    case 'f' => ReadWord(s, i, TFalse)
    case '"' =>
      (match ReadString(s, i + 1)
       case None => None
       case Some((t, j)) => Some((TStr(t), j)))
    case _ => ReadNumber(s, i)
  }

  /** All tokens from `i` to the end of the text. */
  function Lex(s: string, i: nat): Option<seq<Token>>
    requires i <= |s|
    decreases |s| - i
  {
    var j := SkipSpace(s, i);
    if j == |s| then Some([])
    else
      match ReadToken(s, j)
      case None => None
      case Some((t, k)) =>
        match Lex(s, k)
        case None => None
        case Some(ts) => Some([t] + ts)
  }

  // ---------------------------------------------------------------- parsing tokens

  /** A value that begins at `i`, and the position after it. */
  function ReadValue(ts: seq<Token>, i: nat): (r: Option<(Json, nat)>)
    requires i <= |ts|
    ensures r.Some? ==> i < r.value.1 <= |ts|
    decreases |ts| - i, 1
  {
    if i == |ts| then None
    else
      match ts[i]
      case TNull => Some((Null, i + 1))
      case TTrue => Some((Bool(true), i + 1))
      case TFalse => Some((Bool(false), i + 1))
      case TNum(n) => Some((Num(n), i + 1))
      case TReal(t) => Some((Real(t), i + 1))
      case TStr(s) => Some((Str(s), i + 1))
      case LBracket =>
        (match ReadItems(ts, i + 1)
         case None => None
         case Some((items, j)) => Some((Arr(items), j)))
      case LBrace =>
        (match ReadMembers(ts, i + 1)
         case None => None
         case Some((members, j)) => Some((Obj(members), j)))
      case _ => None
  }

  /** The rest of an array after its opening bracket. */
  function ReadItems(ts: seq<Token>, i: nat): (r: Option<(seq<Json>, nat)>)
    requires i <= |ts|
    ensures r.Some? ==> i < r.value.1 <= |ts|
    decreases |ts| - i, 3
  {
    if i < |ts| && ts[i] == RBracket then Some(([], i + 1)) else ReadMoreItems(ts, i)
  }

  /** At least one item and the rest of the array. */
  function ReadMoreItems(ts: seq<Token>, i: nat): (r: Option<(seq<Json>, nat)>)
    requires i <= |ts|
    ensures r.Some? ==> i < r.value.1 <= |ts|
    decreases |ts| - i, 2
  {
    match ReadValue(ts, i)
    case None => None
    case Some((v, k)) =>
      if k < |ts| && ts[k] == RBracket then Some(([v], k + 1))
      else if k < |ts| && ts[k] == Comma then
        match ReadMoreItems(ts, k + 1)
        case None => None
        case Some((vs, m)) => Some(([v] + vs, m))
      else None
  }

  /** The rest of an object after its opening brace. */
  function ReadMembers(ts: seq<Token>, i: nat): (r: Option<(seq<Member>, nat)>)
    requires i <= |ts|
    ensures r.Some? ==> i < r.value.1 <= |ts|
    decreases |ts| - i, 3
  {
    if i < |ts| && ts[i] == RBrace then Some(([], i + 1)) else ReadMoreMembers(ts, i)
  }

  function ReadMoreMembers(ts: seq<Token>, i: nat): (r: Option<(seq<Member>, nat)>)
    requires i <= |ts|
    ensures r.Some? ==> i < r.value.1 <= |ts|
    decreases |ts| - i, 2
  {
    match ReadMember(ts, i)
    case None => None
    case Some((v, k)) =>
      if k < |ts| && ts[k] == RBrace then Some(([v], k + 1))
      else if k < |ts| && ts[k] == Comma then
        match ReadMoreMembers(ts, k + 1)
        case None => None
        case Some((vs, m)) => Some(([v] + vs, m))
      else None
  }

  /** A key, a colon and a value. */
  function ReadMember(ts: seq<Token>, i: nat): (r: Option<(Member, nat)>)
    requires i <= |ts|
    ensures r.Some? ==> i < r.value.1 <= |ts|
    decreases |ts| - i, 1
  {
    if i + 2 > |ts| || !ts[i].TStr? || ts[i + 1] != Colon then None
    else
      match ReadValue(ts, i + 2)
      case None => None
      case Some((v, m)) => Some((Member(ts[i].s, v), m))
  }

  function ParseTokens(ts: seq<Token>): Option<Json> {
    match ReadValue(ts, 0)
    case None => None
    case Some((j, k)) => if k == |ts| then Some(j) else None
  }

  /** A whole text: one value, with space around it and nothing else. */
  function Parse(s: string): Option<Json> {
    match Lex(s, 0)
    case None => None
    case Some(ts) => ParseTokens(ts)
  }

  // ---------------------------------------------------------------- texts and their tokens

  lemma {:induction false} ReadEscapedChar(s: string, i: nat, c: char)
    requires At(s, i, EscapeChar(c)) && i < |s|
    ensures s[i] != '"' && ReadChar(s, i) == Some((c, i + |EscapeChar(c)|))
  {
    var e := EscapeChar(c);
    AtIndex(s, i, e, 0);
    if |e| > 1 {
      AtIndex(s, i, e, 1);
    }
    if |e| == 6 {
      AtIndex(s, i, e, 2);
      AtIndex(s, i, e, 3);
      AtIndex(s, i, e, 4);
      AtIndex(s, i, e, 5);
      assert Hex4(s, i + 2) == c as int;
    }
  }

  /** From `i` on the text spells the string `t` and its closing quote, which ends at `k`. */
  ghost predicate Spells(s: string, i: nat, t: string, k: nat) {
    i <= |s| && ReadString(s, i) == Some((t, k))
  }

  /** From `i` on the text spells the character `c`, up to `j`. */
  ghost predicate SpellsChar(s: string, i: nat, c: char, j: nat) {
    i < |s| && s[i] != '"' && ReadChar(s, i) == Some((c, j))
  }

  lemma {:induction false} SpellsEnd(s: string, i: nat)
    requires i < |s| && s[i] == '"'
    ensures Spells(s, i, [], i + 1)
  {
  }

  lemma {:induction false} SpellsStep(s: string, i: nat, c: char, j: nat, t: string, k: nat)
    requires SpellsChar(s, i, c, j) && Spells(s, j, t, k)
    ensures Spells(s, i, [c] + t, k)
  {
  }

  lemma {:induction false} EscapeSplit(t: string)
    ensures t != [] ==> Escape(t) + ['"'] == EscapeChar(t[0]) + (Escape(t[1..]) + ['"'])
  {
  }

  lemma {:induction false} ReadEscapedHead(s: string, i: nat, t: string, j: nat)
    requires At(s, i, Escape(t) + ['"']) && t != [] && j == i + |EscapeChar(t[0])|
    ensures SpellsChar(s, i, t[0], j)
    ensures At(s, j, Escape(t[1..]) + ['"']) && |Escape(t)| == j - i + |Escape(t[1..])|
  {
    EscapeSplit(t);
    AtSplit(s, i, EscapeChar(t[0]), Escape(t[1..]) + ['"']);
    ReadEscapedChar(s, i, t[0]);
  }

  lemma {:induction false} ReadEscaped(s: string, i: nat, t: string)
    requires At(s, i, Escape(t) + ['"'])
    ensures Spells(s, i, t, i + |Escape(t)| + 1)
    decreases |t|
  {
    hide Spells, SpellsChar, EscapeChar;
    if t == [] {
      AtIndex(s, i, Escape(t) + ['"'], 0);
      SpellsEnd(s, i);
    } else {
      var j := i + |EscapeChar(t[0])|;
      ReadEscapedHead(s, i, t, j);
      ReadEscaped(s, j, t[1..]);
      SpellsStep(s, i, t[0], j, t[1..], j + |Escape(t[1..])| + 1);
      assert t == [t[0]] + t[1..];
    }
  }

  lemma {:induction false} DigitsEndAt(s: string, i: nat, t: string)
    requires At(s, i, t) && AllDigits(t) && (i + |t| < |s| ==> !IsDigit(s[i + |t|]))
    ensures DigitsEnd(s, i) == i + |t|
  {
    var e := DigitsEnd(s, i);
    forall k | i <= k < i + |t| ensures IsDigit(s[k]) {
      AtIndex(s, i, t, k - i);
    }
    assert e == i + |t|;
  }

  /** Decimal numerals have no superfluous leading zero. */
  lemma {:induction false} NoLeadingZero(n: nat)
    ensures Digits(n)[0] == '0' ==> |Digits(n)| == 1
    ensures n > 0 ==> Digits(n)[0] != '0'
  {
    if n >= 10 {
      NoLeadingZero(n / 10);
    }
  }

  /** What may follow a value without becoming part of it. */
  predicate Stops(s: string, i: nat) {
    i >= |s| || (!IsDigit(s[i]) && s[i] != '.' && s[i] != 'e' && s[i] != 'E')
  }

  lemma {:induction false} PlainToken(s: string, i: nat, b: nat, d: string)
    requires i <= b && At(s, b, d) && AllDigits(d) && forall k | b <= k < b + |d| :: IsDigit(s[k])
    requires IntRange(if b == i then NumValue(d) else 0 - NumValue(d))
    ensures NumberToken(s, i, b, b + |d|, b + |d|) == TNum(if b == i then NumValue(d) else 0 - NumValue(d))
  {
  }

  /** A number whose integer part is `d` and which has no fraction. */
  lemma {:induction false} ReadPlainNumber(s: string, i: nat, b: nat, d: string)
    requires i <= b <= i + 1 && b < |s| && At(s, b, d) && d != [] && AllDigits(d) && Stops(s, b + |d|)
    requires (b == i + 1 <==> s[i] == '-') && (s[b] == '0' ==> |d| == 1)
    ensures forall k | b <= k < b + |d| :: IsDigit(s[k])
    ensures ReadNumber(s, i) == Some((NumberToken(s, i, b, b + |d|, b + |d|), b + |d|))
  {
    DigitsEndAt(s, b, d);
    assert FractionEnd(s, b + |d|) == Some(b + |d|);
  }

  /** At `i` the text shows the token `t`, up to `k`. */
  ghost predicate Shows(s: string, i: nat, t: Token, k: nat) {
    i < |s| && !IsSpace(s[i]) && ReadToken(s, i) == Some((t, k))
  }

  lemma {:induction false} DigitToken(s: string, i: nat)
    requires i < |s| && (s[i] == '-' || IsDigit(s[i]))
    ensures ReadToken(s, i) == ReadNumber(s, i) && !IsSpace(s[i])
  {
  }

  lemma {:induction false} ReadNumeral(s: string, i: nat, b: nat, n: nat)
    requires At(s, b, Digits(n)) && Stops(s, b + |Digits(n)|)
    requires b == i || (b == i + 1 && i < |s| && s[i] == '-')
    requires IntRange(if b == i then n else 0 - n)
    ensures Shows(s, i, TNum(if b == i then n else 0 - n), b + |Digits(n)|)
  {
    hide ReadToken, ReadNumber, NumberToken, NumValue, Digits;
    var d := Digits(n);
    NumValueOfDigits(n);
    NoLeadingZero(n);
    AtIndex(s, b, d, 0);
    ReadPlainNumber(s, i, b, d);
    PlainToken(s, i, b, d);
    DigitToken(s, i);
  }

  lemma {:induction false} ShowsInt(s: string, i: nat, n: int)
    requires At(s, i, PrintInt(n)) && Stops(s, i + |PrintInt(n)|) && IntRange(n)
    ensures Shows(s, i, TNum(n), i + |PrintInt(n)|)
  {
    hide Shows, Digits;
    if n < 0 {
      AtSplit(s, i, ['-'], Digits(-n));
      AtIndex(s, i, ['-'], 0);
      ReadNumeral(s, i, i + 1, -n);
    } else {
      ReadNumeral(s, i, i, n);
    }
  }

  lemma {:induction false} StringToken(s: string, i: nat, t: string, k: nat)
    requires i < |s| && s[i] == '"' && Spells(s, i + 1, t, k)
    ensures Shows(s, i, TStr(t), k)
  {
  }

  lemma {:induction false} ShowsString(s: string, i: nat, t: string)
    requires At(s, i, PrintStr(t))
    ensures Shows(s, i, TStr(t), i + |PrintStr(t)|)
  {
    hide Shows, Spells, Escape;
    AtSplit(s, i, ['"'], Escape(t) + ['"']);
    AtIndex(s, i, ['"'], 0);
    ReadEscaped(s, i + 1, t);
    StringToken(s, i, t, i + |PrintStr(t)|);
  }

  predicate Fixed(t: Token) { t != Gap && !t.TStr? && !t.TNum? && !t.TReal? }

  lemma {:induction false} ShowsFixed(s: string, i: nat, t: Token)
    requires Fixed(t) && At(s, i, TokenText(t)) && i < |s| && s[i] == TokenText(t)[0]
    ensures Shows(s, i, t, i + |TokenText(t)|)
  {
  }

  /** A written token is read back. */
  lemma {:induction false} ShowsToken(s: string, i: nat, t: Token)
    requires At(s, i, TokenText(t)) && t != Gap && !t.TReal?
    requires t.TNum? ==> IntRange(t.n) && Stops(s, i + |TokenText(t)|)
    ensures Shows(s, i, t, i + |TokenText(t)|)
  {
    hide Shows, PrintStr, PrintInt;
    if t.TStr? {
      ShowsString(s, i, t.s);
    } else if t.TNum? {
      ShowsInt(s, i, t.n);
    } else {
      AtIndex(s, i, TokenText(t), 0);
      ShowsFixed(s, i, t);
    }
  }

  /** The token at `k` reads back as it is: a number in range, not followed by another number. */
  ghost predicate SpacedAt(ts: seq<Token>, k: nat) {
    && k < |ts|
    && !ts[k].TReal?
    && (ts[k].TNum? ==> IntRange(ts[k].n) && (k + 1 < |ts| ==> !ts[k + 1].TNum?))
  }

  ghost predicate Spaced(ts: seq<Token>) { forall k: nat | k < |ts| :: SpacedAt(ts, k) }

  lemma {:induction false} SpacedTail(ts: seq<Token>)
    requires ts != [] && Spaced(ts)
    ensures Spaced(ts[1..])
  {
    forall k: nat | k < |ts| - 1 ensures SpacedAt(ts[1..], k) {
      assert SpacedAt(ts, k + 1);
    }
  }

  function Solid(ts: seq<Token>): seq<Token> {
    if ts == [] then [] else if ts[0] == Gap then Solid(ts[1..]) else [ts[0]] + Solid(ts[1..])
  }

  lemma {:induction false} TokenStops(s: string, i: nat, t: Token)
    requires At(s, i, TokenText(t)) && !t.TNum? && !t.TReal?
    ensures i < |s| && Stops(s, i)
  {
    AtIndex(s, i, TokenText(t), 0);
  }

  /** From `i` to its end the text consists of the tokens `ts`. */
  ghost predicate Lexed(s: string, i: nat, ts: seq<Token>) {
    i <= |s| && Lex(s, i) == Some(ts)
  }

  lemma {:induction false} LexStep(s: string, i: nat, t: Token, k: nat, ts: seq<Token>)
    requires Shows(s, i, t, k) && Lexed(s, k, ts)
    ensures Lexed(s, i, [t] + ts)
  {
  }

  lemma {:induction false} LexEnd(s: string)
    ensures Lexed(s, |s|, [])
  {
  }

  lemma {:induction false} LexGap(s: string, i: nat, ts: seq<Token>)
    requires i < |s| && IsSpace(s[i]) && Lexed(s, i + 1, ts)
    ensures Lexed(s, i, ts)
  {
  }

  lemma {:induction false} NoTokens()
    ensures TokensText([]) == [] && Solid([]) == []
  {
  }

  /** The first token of a text, and what is left of the text. */
  lemma {:induction false} FirstToken(s: string, i: nat, ts: seq<Token>, k: nat)
    requires ts != [] && At(s, i, TokensText(ts)) && k == i + |TokenText(ts[0])|
    ensures At(s, i, TokenText(ts[0])) && At(s, k, TokensText(ts[1..]))
    ensures i + |TokensText(ts)| == k + |TokensText(ts[1..])|
  {
    hide At, TokenText;
    AtSplit(s, i, TokenText(ts[0]), TokensText(ts[1..]));
  }

  /** Splitting a written text gives back its tokens, without the gaps. */
  lemma {:induction false} LexText(s: string, i: nat, ts: seq<Token>)
    requires At(s, i, TokensText(ts)) && i + |TokensText(ts)| == |s| && Spaced(ts)
    ensures Lexed(s, i, Solid(ts))
    decreases |ts|
  {
    hide Lexed, At, TokensText, Shows;
    if ts == [] {
      NoTokens();
      LexEnd(s);
    } else {
      var k := i + |TokenText(ts[0])|;
      FirstToken(s, i, ts, k);
      SpacedTail(ts);
      LexText(s, k, ts[1..]);
      if ts[0] == Gap {
        AtIndex(s, i, " ", 0);
        LexGap(s, i, Solid(ts[1..]));
      } else {
        assert SpacedAt(ts, 0);
        NextStops(s, k, ts);
        ShowsToken(s, i, ts[0]);
        LexStep(s, i, ts[0], k, Solid(ts[1..]));
      }
    }
  }

  lemma {:induction false} NextStops(s: string, k: nat, ts: seq<Token>)
    requires ts != [] && Spaced(ts) && At(s, k, TokensText(ts[1..])) && k + |TokensText(ts[1..])| == |s|
    ensures ts[0].TNum? ==> Stops(s, k)
  {
    if ts[0].TNum? && |ts| > 1 {
      assert SpacedAt(ts, 0) && SpacedAt(ts, 1);
      var rest := ts[1..];
      AtSplit(s, k, TokenText(rest[0]), TokensText(rest[1..]));
      TokenStops(s, k, ts[1]);
    }
  }

  // ---------------------------------------------------------------- tokens and their values

  /** Values without numbers that the writer shortens. */
  ghost predicate Exact(j: Json)
    decreases j
  {
    match j
    case Num(n) => IntRange(n)
    case Real(_) => false
    case Arr(items) => forall i | 0 <= i < |items| :: Exact(items[i])
    case Obj(members) => forall i | 0 <= i < |members| :: Exact(members[i].value)
    case _ => true
  }

  /** `part` stands in `ts` at `i`. */
  ghost predicate Has(ts: seq<Token>, i: nat, part: seq<Token>) {
    i + |part| <= |ts| && ts[i..i + |part|] == part
  }

  lemma {:induction false} HasSplit(ts: seq<Token>, i: nat, a: seq<Token>, b: seq<Token>)
    requires Has(ts, i, a + b)
    ensures Has(ts, i, a) && Has(ts, i + |a|, b)
  {
    assert ts[i..i + |a|] == (a + b)[..|a|] == a;
    assert ts[i + |a|..i + |a| + |b|] == (a + b)[|a|..] == b;
  }

  lemma {:induction false} HasIndex(ts: seq<Token>, i: nat, part: seq<Token>, k: nat)
    requires Has(ts, i, part) && k < |part|
    ensures i + k < |ts| && ts[i + k] == part[k]
  {
    assert ts[i + k] == ts[i..i + |part|][k];
  }

  lemma {:induction false} EmitOpens(j: Json)
    ensures Emit(j) != [] && Emit(j)[0] != RBracket && Emit(j)[0] != RBrace && Emit(j)[0] != Gap
  {
  }

  /** At `i` the tokens show the value `j`, up to `k`. */
  ghost predicate ShowsValue(ts: seq<Token>, i: nat, j: Json, k: nat) {
    i <= |ts| && ReadValue(ts, i) == Some((j, k))
  }

  ghost predicate ShowsItems(ts: seq<Token>, i: nat, items: seq<Json>, k: nat) {
    i <= |ts| && ReadMoreItems(ts, i) == Some((items, k))
  }

  ghost predicate ShowsMember(ts: seq<Token>, i: nat, m: Member, k: nat) {
    i <= |ts| && ReadMember(ts, i) == Some((m, k))
  }

  ghost predicate ShowsMembers(ts: seq<Token>, i: nat, members: seq<Member>, k: nat) {
    i <= |ts| && ReadMoreMembers(ts, i) == Some((members, k))
  }

  lemma {:induction false} ShowsArray(ts: seq<Token>, i: nat, items: seq<Json>, k: nat)
    requires i < |ts| && ts[i] == LBracket
    requires if items == [] then k == i + 2 && i + 1 < |ts| && ts[i + 1] == RBracket
             else i + 1 < |ts| && ts[i + 1] != RBracket && ShowsItems(ts, i + 1, items, k)
    ensures ShowsValue(ts, i, Arr(items), k)
  {
  }

  lemma {:induction false} ShowsObject(ts: seq<Token>, i: nat, members: seq<Member>, k: nat)
    requires i < |ts| && ts[i] == LBrace
    requires if members == [] then k == i + 2 && i + 1 < |ts| && ts[i + 1] == RBrace
             else i + 1 < |ts| && ts[i + 1] != RBrace && ShowsMembers(ts, i + 1, members, k)
    ensures ShowsValue(ts, i, Obj(members), k)
  {
  }

  lemma {:induction false} ShowsLeaf(ts: seq<Token>, i: nat, j: Json)
    requires i < |ts| && !j.Arr? && !j.Obj? && ts[i] == Emit(j)[0]
    ensures ShowsValue(ts, i, j, i + 1) && |Emit(j)| == 1
  {
  }

  lemma {:induction false} HasArray(ts: seq<Token>, i: nat, items: seq<Json>, part: seq<Token>)
    requires Has(ts, i, part) && part == [LBracket] + (EmitItems(items) + [RBracket])
    ensures i + 1 < |ts| && ts[i] == LBracket && Has(ts, i + 1, EmitItems(items) + [RBracket])
    ensures if items == [] then ts[i + 1] == RBracket else ts[i + 1] != RBracket
  {
    hide EmitItems;
    ItemsOpen(items);
    HasSplit(ts, i, [LBracket], EmitItems(items) + [RBracket]);
    HasIndex(ts, i, [LBracket], 0);
    HasIndex(ts, i + 1, EmitItems(items) + [RBracket], 0);
  }

  lemma {:induction false} ItemsOpen(items: seq<Json>)
    ensures if items == [] then EmitItems(items) == [] else EmitItems(items) != [] && EmitItems(items)[0] != RBracket
  {
    if items != [] {
      EmitOpens(items[0]);
    }
  }

  lemma {:induction false} HasObject(ts: seq<Token>, i: nat, members: seq<Member>, part: seq<Token>)
    requires Has(ts, i, part) && part == [LBrace] + (EmitMembers(members) + [RBrace])
    ensures i + 1 < |ts| && ts[i] == LBrace && Has(ts, i + 1, EmitMembers(members) + [RBrace])
    ensures if members == [] then ts[i + 1] == RBrace else ts[i + 1] != RBrace
  {
    hide EmitMembers;
    MembersOpen(members);
    HasSplit(ts, i, [LBrace], EmitMembers(members) + [RBrace]);
    HasIndex(ts, i, [LBrace], 0);
    HasIndex(ts, i + 1, EmitMembers(members) + [RBrace], 0);
  }

  lemma {:induction false} MembersOpen(members: seq<Member>)
    ensures if members == [] then EmitMembers(members) == []
            else EmitMembers(members) != [] && EmitMembers(members)[0] != RBrace
  {
  }

  /** The tokens of a value are parsed back to the value. */
  lemma {:induction false} ShowsEmitted(ts: seq<Token>, i: nat, j: Json)
    requires Has(ts, i, Emit(j))
    ensures ShowsValue(ts, i, j, i + |Emit(j)|)
    decreases j, 1
  {
    if j.Arr? {
      ShowsEmittedArray(ts, i, j.items, Emit(j));
    } else if j.Obj? {
      ShowsEmittedObject(ts, i, j.members, Emit(j));
    } else {
      HasIndex(ts, i, Emit(j), 0);
      ShowsLeaf(ts, i, j);
    }
  }

  lemma {:induction false} ShowsEmittedArray(ts: seq<Token>, i: nat, items: seq<Json>, part: seq<Token>)
    requires Has(ts, i, part) && part == [LBracket] + (EmitItems(items) + [RBracket])
    ensures ShowsValue(ts, i, Arr(items), i + |part|)
    decreases items, 1
  {
    HasArray(ts, i, items, part);
    if items != [] {
      ShowsEmittedItems(ts, i + 1, items);
    }
    ShowsArray(ts, i, items, i + |part|);
  }

  lemma {:induction false} ShowsEmittedObject(ts: seq<Token>, i: nat, members: seq<Member>, part: seq<Token>)
    requires Has(ts, i, part) && part == [LBrace] + (EmitMembers(members) + [RBrace])
    ensures ShowsValue(ts, i, Obj(members), i + |part|)
    decreases members, 1
  {
    HasObject(ts, i, members, part);
    if members != [] {
      ShowsEmittedMembers(ts, i + 1, members);
    }
    ShowsObject(ts, i, members, i + |part|);
  }

  /** A value and what follows it: the end of the array, or a comma and further items. */
  lemma {:induction false} NextItem(ts: seq<Token>, i: nat, v: Json, k: nat, vs: seq<Json>, m: nat)
    requires ShowsValue(ts, i, v, k) && k < |ts|
    requires if vs == [] then ts[k] == RBracket && m == k + 1 else ts[k] == Comma && ShowsItems(ts, k + 1, vs, m)
    ensures ShowsItems(ts, i, [v] + vs, m)
  {
    if vs == [] {
      assert [v] + vs == [v];
    }
  }

  lemma {:induction false} ItemsCons(items: seq<Json>)
    requires items != []
    ensures if |items| == 1 then EmitItems(items) == Emit(items[0])
            else EmitItems(items) == Emit(items[0]) + ([Comma] + EmitItems(items[1..]))
  {
  }

  lemma {:induction false} SplitItems(ts: seq<Token>, i: nat, items: seq<Json>, k: nat)
    requires |items| > 1 && Has(ts, i, EmitItems(items) + [RBracket]) && k == i + |Emit(items[0])|
    ensures Has(ts, i, Emit(items[0])) && k < |ts| && ts[k] == Comma
    ensures Has(ts, k + 1, EmitItems(items[1..]) + [RBracket])
    ensures |EmitItems(items)| == k - i + 1 + |EmitItems(items[1..])|
  {
    var rest := EmitItems(items[1..]) + [RBracket];
    hide EmitItems, Emit;
    ItemsCons(items);
    Regroup(Emit(items[0]), [Comma], EmitItems(items[1..]), [RBracket]);
    HasSplit(ts, i, Emit(items[0]), [Comma] + rest);
    HasSplit(ts, k, [Comma], rest);
    HasIndex(ts, k, [Comma], 0);
  }

  lemma {:induction false} Regroup(a: seq<Token>, b: seq<Token>, c: seq<Token>, d: seq<Token>)
    ensures (a + (b + c)) + d == a + (b + (c + d))
  {
  }

  lemma {:induction false} ShowsEmittedItems(ts: seq<Token>, i: nat, items: seq<Json>)
    requires items != [] && Has(ts, i, EmitItems(items) + [RBracket])
    ensures ShowsItems(ts, i, items, i + |EmitItems(items)| + 1)
    decreases items, 0
  {
    hide Has, EmitItems, Emit, ShowsValue, ShowsItems, ShowsMember, ShowsMembers;
    ItemsCons(items);
    var k := i + |Emit(items[0])|;
    if |items| == 1 {
      HasSplit(ts, i, Emit(items[0]), [RBracket]);
      HasIndex(ts, k, [RBracket], 0);
      ShowsEmitted(ts, i, items[0]);
      NextItem(ts, i, items[0], k, [], k + 1);
      assert items == [items[0]] + [];
    } else {
      SplitItems(ts, i, items, k);
      ShowsEmitted(ts, i, items[0]);
      ShowsEmittedItems(ts, k + 1, items[1..]);
      NextItem(ts, i, items[0], k, items[1..], k + 2 + |EmitItems(items[1..])|);
      assert items == [items[0]] + items[1..];
    }
  }

  lemma {:induction false} MemberStep(ts: seq<Token>, i: nat, m: Member, k: nat)
    requires i + 2 <= |ts| && ts[i] == TStr(m.key) && ts[i + 1] == Colon && ShowsValue(ts, i + 2, m.value, k)
    ensures ShowsMember(ts, i, m, k)
  {
  }

  lemma {:induction false} ShowsEmittedMember(ts: seq<Token>, i: nat, m: Member)
    requires Has(ts, i, EmitMember(m))
    ensures ShowsMember(ts, i, m, i + |EmitMember(m)|)
    decreases m, 0
  {
    HasSplit(ts, i, [TStr(m.key), Colon], Emit(m.value));
    HasIndex(ts, i, [TStr(m.key), Colon], 0);
    HasIndex(ts, i, [TStr(m.key), Colon], 1);
    ShowsEmitted(ts, i + 2, m.value);
    MemberStep(ts, i, m, i + |EmitMember(m)|);
  }

  lemma {:induction false} NextMember(ts: seq<Token>, i: nat, v: Member, k: nat, vs: seq<Member>, m: nat)
    requires ShowsMember(ts, i, v, k) && k < |ts|
    requires if vs == [] then ts[k] == RBrace && m == k + 1 else ts[k] == Comma && ShowsMembers(ts, k + 1, vs, m)
    ensures ShowsMembers(ts, i, [v] + vs, m)
  {
    if vs == [] {
      assert [v] + vs == [v];
    }
  }

  lemma {:induction false} MembersCons(members: seq<Member>)
    requires members != []
    ensures if |members| == 1 then EmitMembers(members) == EmitMember(members[0])
            else EmitMembers(members) == EmitMember(members[0]) + ([Comma] + EmitMembers(members[1..]))
  {
  }

  lemma {:induction false} SplitMembers(ts: seq<Token>, i: nat, members: seq<Member>, k: nat)
    requires |members| > 1 && Has(ts, i, EmitMembers(members) + [RBrace]) && k == i + |EmitMember(members[0])|
    ensures Has(ts, i, EmitMember(members[0])) && k < |ts| && ts[k] == Comma
    ensures Has(ts, k + 1, EmitMembers(members[1..]) + [RBrace])
    ensures |EmitMembers(members)| == k - i + 1 + |EmitMembers(members[1..])|
  {
    var rest := EmitMembers(members[1..]) + [RBrace];
    hide EmitMembers, EmitMember;
    MembersCons(members);
    Regroup(EmitMember(members[0]), [Comma], EmitMembers(members[1..]), [RBrace]);
    HasSplit(ts, i, EmitMember(members[0]), [Comma] + rest);
    HasSplit(ts, k, [Comma], rest);
    HasIndex(ts, k, [Comma], 0);
  }

  lemma {:induction false} ShowsEmittedMembers(ts: seq<Token>, i: nat, members: seq<Member>)
    requires members != [] && Has(ts, i, EmitMembers(members) + [RBrace])
    ensures ShowsMembers(ts, i, members, i + |EmitMembers(members)| + 1)
    decreases members, 0
  {
    hide Has, EmitMembers, EmitMember, ShowsValue, ShowsItems, ShowsMember, ShowsMembers;
    MembersCons(members);
    var k := i + |EmitMember(members[0])|;
    if |members| == 1 {
      HasSplit(ts, i, EmitMember(members[0]), [RBrace]);
      HasIndex(ts, k, [RBrace], 0);
      ShowsEmittedMember(ts, i, members[0]);
      NextMember(ts, i, members[0], k, [], k + 1);
      assert members == [members[0]] + [];
    } else {
      SplitMembers(ts, i, members, k);
      ShowsEmittedMember(ts, i, members[0]);
      ShowsEmittedMembers(ts, k + 1, members[1..]);
      NextMember(ts, i, members[0], k, members[1..], k + 2 + |EmitMembers(members[1..])|);
      assert members == [members[0]] + members[1..];
    }
  }

  // ---------------------------------------------------------------- the tokens of a value are spaced

  lemma {:induction false} SpacedConcat(a: seq<Token>, b: seq<Token>)
    requires Spaced(a) && Spaced(b)
    requires a != [] && b != [] ==> !a[|a| - 1].TNum? || !b[0].TNum?
    ensures Spaced(a + b)
  {
    var c := a + b;
    forall k: nat | k < |c| ensures SpacedAt(c, k) {
      if k < |a| {
        assert SpacedAt(a, k);
      } else {
        assert SpacedAt(b, k - |a|);
      }
    }
  }

  /** No gaps, and spaced when the value is exact. */
  ghost predicate Tidy(ts: seq<Token>) { Spaced(ts) && Gap !in ts }

  lemma {:induction false} TidyConcat(a: seq<Token>, b: seq<Token>)
    requires Tidy(a) && Tidy(b) && (a != [] && b != [] ==> !b[0].TNum?)
    ensures Tidy(a + b)
  {
    SpacedConcat(a, b);
  }

  lemma {:induction false} EmitTidy(j: Json)
    requires Exact(j)
    ensures Tidy(Emit(j))
    decreases j, 1
  {
    match j {
      case Arr(items) =>
        EmitItemsTidy(items);
        TidyConcat(EmitItems(items), [RBracket]);
        WrapTidy(LBracket, EmitItems(items) + [RBracket]);
      case Obj(members) =>
        EmitMembersTidy(members);
        TidyConcat(EmitMembers(members), [RBrace]);
        WrapTidy(LBrace, EmitMembers(members) + [RBrace]);
      case _ =>
    }
  }

  lemma {:induction false} WrapTidy(t: Token, ts: seq<Token>)
    requires !t.TNum? && !t.TReal? && t != Gap && Tidy(ts)
    ensures Tidy([t] + ts)
  {
    SpacedConcat([t], ts);
  }

  lemma {:induction false} EmitItemsTidy(items: seq<Json>)
    requires forall k | 0 <= k < |items| :: Exact(items[k])
    ensures Tidy(EmitItems(items))
    decreases items, 0
  {
    if items != [] {
      EmitTidy(items[0]);
      if |items| > 1 {
        EmitItemsTidy(items[1..]);
        WrapTidy(Comma, EmitItems(items[1..]));
        TidyConcat(Emit(items[0]), [Comma] + EmitItems(items[1..]));
      }
    }
  }

  lemma {:induction false} EmitMembersTidy(members: seq<Member>)
    requires forall k | 0 <= k < |members| :: Exact(members[k].value)
    ensures Tidy(EmitMembers(members))
    decreases members, 0
  {
    if members != [] {
      var m := members[0];
      EmitTidy(m.value);
      WrapTidy(Colon, Emit(m.value));
      WrapTidy(TStr(m.key), [Colon] + Emit(m.value));
      assert EmitMember(m) == [TStr(m.key)] + ([Colon] + Emit(m.value));
      if |members| > 1 {
        EmitMembersTidy(members[1..]);
        WrapTidy(Comma, EmitMembers(members[1..]));
        TidyConcat(EmitMember(m), [Comma] + EmitMembers(members[1..]));
      }
    }
  }

  lemma {:induction false} SolidTidy(ts: seq<Token>)
    requires Gap !in ts
    ensures Solid(ts) == ts
  {
    if ts != [] {
      SolidTidy(ts[1..]);
    }
  }

  /** A text whose solid tokens are those of an exact value is parsed to that value. */
  lemma {:induction false} ParseText(ts: seq<Token>, j: Json)
    requires Spaced(ts) && Solid(ts) == Emit(j)
    ensures Parse(TokensText(ts)) == Some(j)
  {
    var s := TokensText(ts);
    assert s[0..|s|] == s;
    LexText(s, 0, ts);
    var es := Emit(j);
    assert es[0..|es|] == es;
    ShowsEmitted(es, 0, j);
  }

  /** Reading undoes writing for every value without decimals. */
  lemma {:induction false} ParsePrint(j: Json)
    requires Exact(j)
    ensures Parse(Print(j)) == Some(j)
  {
    EmitTidy(j);
    SolidTidy(Emit(j));
    ParseText(Emit(j), j);
  }
}
