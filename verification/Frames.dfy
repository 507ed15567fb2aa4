/** The three frames of OCPP-J as the RPC layer writes and reads them. Identifiers, actions, error codes and
    messages are written between quotes as they are, without JSON escaping. */
module Frames {
  import opened Text
  import opened Json

  datatype Frame =
    | Call(id: string, action: string, payload: Json)
    | Result(id: string, payload: Json)
    | Error(id: string, code: string, message: string, payload: Json)
    | Malformed

  const CALL := "2"
  const CALLRESULT := "3"
  const CALLERROR := "4"
  const PROTOCOL_ERROR := "ProtocolError"

  // ---------------------------------------------------------------- writing

  function Quoted(s: string): string { "\"" + (s + "\", ") }

  function CallText(id: string, action: string, payload: Json): string {
    "[" + (CALL + (", " + (Quoted(id) + (Quoted(action) + (CStr(Print(payload)) + "]")))))
  }

  function ResultText(id: string, payload: Json): string {
    "[" + (CALLRESULT + (", " + (Quoted(id) + (CStr(Print(payload)) + "]"))))
  }

  /** The error code arrives as a C string. */
  function ErrorText(id: string, code: string, message: string): string {
    "[" + (CALLERROR + (", " + (Quoted(id) + (Quoted(CStr(code)) + (Quoted(message) + ("{}" + "]"))))))
  }

  const PROTOCOL_ERROR_FRAME := ErrorText("", PROTOCOL_ERROR, "")

  /** What a listener makes of a request: `rpcCallReceived` returns true with a response, or false with an
      error code, which may be empty. */
  datatype Outcome = Accepted(response: Json) | Refused(code: string, message: string)

  /** The reply that `processIncomingRequest` attempts, if any. */
  function Reply(id: string, o: Outcome): seq<string> {
    match o
    case Accepted(response) => [ResultText(id, response)]
    case Refused(code, message) => if code == [] then [] else [ErrorText(id, code, message)]
  }

  lemma ReplyAtMostOnce(id: string, o: Outcome)
    ensures |Reply(id, o)| <= 1
  {
  }

  // ---------------------------------------------------------------- reading

  /** The decision tree of `processReceivedData` on a parsed text. Strings are taken over as C strings. */
  function Classify(j: Json): Frame {
    if !j.Arr? || |j.items| < 3 then Malformed
    else
      var t := j.items;
      if !t[0].Num? || !(0 <= t[0].n < 0x1_0000_0000) then Malformed
      else if t[0].n == 2 && |t| == 4 && t[1].Str? then DecodeCall(CStr(t[1].s), t[2], t[3])
      else if t[0].n == 3 && |t| == 3 && t[1].Str? then DecodeResult(CStr(t[1].s), t[2])
      else if t[0].n == 4 && |t| == 5 && t[1].Str? then DecodeError(CStr(t[1].s), t[2], t[3], t[4])
      else Malformed
  }

  function DecodeCall(id: string, action: Json, payload: Json): Frame {
    if action.Str? && payload.Obj? then Call(id, CStr(action.s), payload) else Malformed
  }

  function DecodeResult(id: string, payload: Json): Frame {
    if payload.Obj? then Result(id, payload) else Malformed
  }

  function DecodeError(id: string, code: Json, message: Json, payload: Json): Frame {
    if code.Str? && message.Str? && payload.Obj? then Error(id, CStr(code.s), CStr(message.s), payload)
    else Malformed
  }

  function Decode(text: string): Frame {
    match Parse(CStr(text))
    case None => Malformed
    case Some(j) => Classify(j)
  }

  /** Exactly three shapes of array are frames, with nothing missing, nothing more, and an object as payload; every
      other value is malformed. */
  lemma FrameShapes(j: Json, id: string, action: string, code: string, message: string, members: seq<Member>)
    ensures Classify(CallJson(id, action, members)) == Call(CStr(id), CStr(action), Obj(members))
    ensures Classify(ResultJson(id, members)) == Result(CStr(id), Obj(members))
    ensures Classify(ErrorJson(id, code, message, members)) == Error(CStr(id), CStr(code), CStr(message), Obj(members))
    ensures Classify(j).Malformed? <==> !IsCall(j) && !IsResult(j) && !IsError(j)
  {
    hide Classify, CallJson, ResultJson, ErrorJson;
    CallShape(id, action, members);
    ResultShape(id, members);
    ErrorShape(id, code, message, members);
    if IsCall(j) {
      var i, a, ms :| j == CallJson(i, a, ms);
      CallShape(i, a, ms);
    }
    if IsResult(j) {
      var i, ms :| j == ResultJson(i, ms);
      ResultShape(i, ms);
    }
    if IsError(j) {
      var i, c, m, ms :| j == ErrorJson(i, c, m, ms);
      ErrorShape(i, c, m, ms);
    }
    if !Classify(j).Malformed? {
      ShapeOf(j);
    }
  }

  lemma CallShape(id: string, action: string, members: seq<Member>)
    ensures Classify(CallJson(id, action, members)) == Call(CStr(id), CStr(action), Obj(members))
  {
    hide CStr;
  }

  lemma ResultShape(id: string, members: seq<Member>)
    ensures Classify(ResultJson(id, members)) == Result(CStr(id), Obj(members))
  {
    hide CStr;
  }

  lemma ErrorShape(id: string, code: string, message: string, members: seq<Member>)
    ensures Classify(ErrorJson(id, code, message, members)) == Error(CStr(id), CStr(code), CStr(message), Obj(members))
  {
    hide CStr;
  }

  lemma ShapeOf(j: Json)
    requires !Classify(j).Malformed?
    ensures IsCall(j) || IsResult(j) || IsError(j)
  {
    hide CStr;
    var t := j.items;
    if |t| == 4 {
      assert t == [t[0], t[1], t[2], t[3]];
      assert j == CallJson(t[1].s, t[2].s, t[3].members);
    } else if |t| == 3 {
      assert t == [t[0], t[1], t[2]];
      assert j == ResultJson(t[1].s, t[2].members);
    } else {
      assert t == [t[0], t[1], t[2], t[3], t[4]];
      assert j == ErrorJson(t[1].s, t[2].s, t[3].s, t[4].members);
    }
  }

  function CallJson(id: string, action: string, members: seq<Member>): Json {
    Arr([Num(2), Str(id), Str(action), Obj(members)])
  }

  function ResultJson(id: string, members: seq<Member>): Json { Arr([Num(3), Str(id), Obj(members)]) }

  function ErrorJson(id: string, code: string, message: string, members: seq<Member>): Json {
    Arr([Num(4), Str(id), Str(code), Str(message), Obj(members)])
  }

  ghost predicate IsCall(j: Json) { exists id, action, members :: j == CallJson(id, action, members) }

  ghost predicate IsResult(j: Json) { exists id, members :: j == ResultJson(id, members) }

  ghost predicate IsError(j: Json) { exists id, code, message, members :: j == ErrorJson(id, code, message, members) }

  // ---------------------------------------------------------------- what is written is a sequence of tokens

  /** Characters that a JSON string may hold as they are (section 7 of RFC 8259). */
  predicate PlainChar(c: char) { c >= ' ' && c != '"' && c != '\\' }

  predicate Plain(s: string) { forall i | 0 <= i < |s| :: PlainChar(s[i]) }

  lemma {:induction false} PlainEscape(s: string)
    requires Plain(s)
    ensures Escape(s) == s && CStr(s) == s
  {
    if s != [] {
      PlainEscape(s[1..]);
      assert s == [s[0]] + s[1..];
    }
  }

  lemma Regroup3(a: string, b: string, c: string)
    ensures (a + b) + c == a + (b + c)
  {
  }

  lemma {:induction false} TokensConcat(a: seq<Token>, b: seq<Token>)
    ensures TokensText(a + b) == TokensText(a) + TokensText(b)
  {
    hide TokenText;
    if a == [] {
      assert a + b == b;
    } else {
      TokensConcat(a[1..], b);
      assert (a + b)[1..] == a[1..] + b;
      Regroup3(TokenText(a[0]), TokensText(a[1..]), TokensText(b));
    }
  }

  lemma RegroupTokens(a: seq<Token>, b: seq<Token>, c: seq<Token>)
    ensures (a + b) + c == a + (b + c)
  {
  }

  lemma {:induction false} SolidConcat(a: seq<Token>, b: seq<Token>)
    ensures Solid(a + b) == Solid(a) + Solid(b)
  {
    if a == [] {
      assert a + b == b;
    } else {
      SolidConcat(a[1..], b);
      assert (a + b)[1..] == a[1..] + b;
      RegroupTokens([a[0]], Solid(a[1..]), Solid(b));
    }
  }

  function Head(n: int): seq<Token> { [LBracket, TNum(n), Comma, Gap] }

  function QuotedTokens(s: string): seq<Token> { [TStr(s), Comma, Gap] }

  lemma CommaGap()
    ensures TokensText([Comma, Gap]) == ", " && Solid([Comma, Gap]) == [Comma] && Spaced([Comma, Gap])
  {
    assert [Comma, Gap][1..] == [Gap];
    assert TokensText([Gap]) == " ";
    assert SpacedAt([Comma, Gap], 0) && SpacedAt([Comma, Gap], 1);
  }

  lemma QuoteText(s: string)
    ensures (['"'] + (s + ['"'])) + ", " == Quoted(s)
  {
  }

  lemma WrapSpaced(t: Token, ts: seq<Token>)
    requires !t.TNum? && !t.TReal? && Spaced(ts)
    ensures Spaced([t] + ts)
  {
    assert SpacedAt([t], 0);
    SpacedConcat([t], ts);
  }

  /** `text` is what the tokens `ts` look like when written, and `solid` are those of them that are not gaps. */
  ghost predicate Written(text: string, ts: seq<Token>, solid: seq<Token>) {
    TokensText(ts) == text && Solid(ts) == solid && Spaced(ts) && ts != []
  }

  lemma {:induction false} JoinWritten(s: string, a: seq<Token>, sa: seq<Token>, t: string, b: seq<Token>, sb: seq<Token>)
    requires Written(s, a, sa) && Written(t, b, sb) && !a[|a| - 1].TNum?
    ensures Written(s + t, a + b, sa + sb)
  {
    hide TokensText, Solid;
    TokensConcat(a, b);
    SolidConcat(a, b);
    SpacedConcat(a, b);
  }

  lemma WrittenValue(j: Json)
    requires Exact(j)
    ensures Written(Print(j), Emit(j), Emit(j)) && CStr(Print(j)) == Print(j)
  {
    hide Emit, Exact;
    EmitTidy(j);
    EmitOpens(j);
    SolidTidy(Emit(j));
    TokensNoNul(Emit(j));
  }

  /** An object ends with a token that is not a number. */
  lemma ObjectCloses(members: seq<Member>)
    ensures var e := Emit(Obj(members)); e != [] && e[|e| - 1] == RBrace
  {
  }

  lemma {:induction false} EscapeNoNul(s: string)
    ensures '\0' !in Escape(s)
  {
    if s != [] {
      EscapeNoNul(s[1..]);
    }
  }

  lemma {:induction false} TokensNoNul(ts: seq<Token>)
    requires Spaced(ts)
    ensures '\0' !in TokensText(ts)
  {
    if ts != [] {
      SpacedTail(ts);
      TokensNoNul(ts[1..]);
      assert SpacedAt(ts, 0);
      TokenNoNul(ts[0]);
    }
  }

  lemma {:induction false} TokenNoNul(t: Token)
    requires !t.TReal?
    ensures '\0' !in TokenText(t)
  {
    if t.TStr? {
      EscapeNoNul(t.s);
    }
  }

  /** A written text is decoded as the value whose tokens it consists of. */
  lemma DecodeWritten(text: string, ts: seq<Token>, j: Json)
    requires Written(text, ts, Emit(j))
    ensures Decode(text) == Classify(j)
  {
    hide TokensText, Emit, Parse, Classify;
    TokensNoNul(ts);
    ParseText(ts, j);
  }

  // ---------------------------------------------------------------- round trips

  /** Quoted strings one after the other. */
  function Fields(strs: seq<string>): string {
    if strs == [] then [] else Quoted(strs[0]) + Fields(strs[1..])
  }

  function Strs(strs: seq<string>): seq<Json> {
    if strs == [] then [] else [Str(strs[0])] + Strs(strs[1..])
  }

  /** The shape that all three frames share. */
  function FrameText(n: nat, strs: seq<string>, payload: Json): string {
    "[" + (Digits(n) + (", " + (Fields(strs) + (CStr(Print(payload)) + "]"))))
  }

  function FrameTokens(strs: seq<string>, payload: Json): seq<Token> {
    if strs == [] then Emit(payload) + [RBracket] else QuotedTokens(strs[0]) + FrameTokens(strs[1..], payload)
  }

  predicate AllPlain(strs: seq<string>) { forall i | 0 <= i < |strs| :: Plain(strs[i]) }

  lemma EmitLeaf(j: Json)
    ensures j.Num? ==> Emit(j) == [TNum(j.n)]
    ensures j.Str? ==> Emit(j) == [TStr(j.s)]
    ensures j.Arr? ==> Emit(j) == [LBracket] + (EmitItems(j.items) + [RBracket])
  {
  }

  lemma ItemsPrepend(j: Json, items: seq<Json>)
    requires items != []
    ensures EmitItems([j] + items) == Emit(j) + ([Comma] + EmitItems(items))
  {
    hide EmitItems, Emit;
    ItemsCons([j] + items);
    assert ([j] + items)[1..] == items;
  }

  lemma WrittenBracket()
    ensures Written("]", [RBracket], [RBracket])
  {
    assert SpacedAt([RBracket], 0);
  }

  lemma WrittenHead(n: nat)
    requires 2 <= n <= 4
    ensures Written("[" + (Digits(n) + ", "), Head(n), [LBracket, TNum(n), Comma])
  {
    CommaGap();
    assert Head(n)[1..] == [TNum(n), Comma, Gap];
    assert [TNum(n), Comma, Gap][1..] == [Comma, Gap];
    assert Solid([TNum(n), Comma, Gap]) == [TNum(n), Comma];
  }

  lemma WrittenQuoted(s: string)
    requires Plain(s)
    ensures Written(Quoted(s), QuotedTokens(s), [TStr(s), Comma])
  {
    hide Escape, Plain, Quoted;
    PlainEscape(s);
    CommaGap();
    QuoteText(s);
    assert QuotedTokens(s)[1..] == [Comma, Gap];
    WrapSpaced(TStr(s), [Comma, Gap]);
    assert [TStr(s)] + [Comma, Gap] == QuotedTokens(s);
  }

  lemma RegroupField(s: string, e: seq<Token>)
    ensures [TStr(s), Comma] + (e + [RBracket]) == ([TStr(s)] + ([Comma] + e)) + [RBracket]
  {
  }

  lemma FieldsPrepend(s: string, strs: seq<string>)
    ensures Fields([s] + strs) == Quoted(s) + Fields(strs)
    ensures Strs([s] + strs) == [Str(s)] + Strs(strs)
  {
    hide Quoted;
    assert ([s] + strs)[1..] == strs;
  }

  /** The text of fields, each before what follows it. */
  lemma {:induction false} FieldsThen(s: string, strs: seq<string>, tail: string)
    ensures Fields([s] + strs) + tail == Quoted(s) + (Fields(strs) + tail)
  {
    hide Quoted, Fields;
    FieldsPrepend(s, strs);
    Regroup3(Quoted(s), Fields(strs), tail);
  }

  lemma NoFields(tail: string)
    ensures Fields([]) + tail == tail && Strs([]) == []
  {
  }

  lemma {:induction false} WrittenFields(strs: seq<string>, payload: Json)
    requires AllPlain(strs) && Exact(payload) && payload.Obj?
    ensures Written(Fields(strs) + (CStr(Print(payload)) + "]"), FrameTokens(strs, payload),
                    EmitItems(Strs(strs) + [payload]) + [RBracket])
  {
    hide Written, Emit, EmitItems, Exact, Plain, Print, Quoted, Fields, Strs;
    var tail := CStr(Print(payload)) + "]";
    if strs == [] {
      NoFields(tail);
      WrittenBracket();
      WrittenValue(payload);
      ObjectCloses(payload.members);
      ItemsCons([payload]);
      assert Strs(strs) + [payload] == [payload];
      JoinWritten(Print(payload), Emit(payload), Emit(payload), "]", [RBracket], [RBracket]);
    } else {
      var s, rest := strs[0], Strs(strs[1..]) + [payload];
      var text := Fields(strs[1..]) + tail;
      assert strs == [s] + strs[1..];
      FieldsPrepend(s, strs[1..]);
      FieldsThen(s, strs[1..], tail);
      WrittenFields(strs[1..], payload);
      WrittenQuoted(s);
      JoinWritten(Quoted(s), QuotedTokens(s), [TStr(s), Comma],
                  text, FrameTokens(strs[1..], payload), EmitItems(rest) + [RBracket]);
      ItemsPrepend(Str(s), rest);
      EmitLeaf(Str(s));
      RegroupField(s, EmitItems(rest));
      assert Strs(strs) + [payload] == [Str(s)] + rest;
    }
  }

  lemma RegroupHead(n: int, e: seq<Token>)
    ensures [LBracket, TNum(n), Comma] + (e + [RBracket]) == [LBracket] + (([TNum(n)] + ([Comma] + e)) + [RBracket])
  {
  }

  /** Reading a frame of unescaped fields gives back its fields. */
  lemma FrameRoundTrip(n: nat, strs: seq<string>, payload: Json)
    requires 2 <= n <= 4 && AllPlain(strs) && Exact(payload) && payload.Obj?
    ensures Decode(FrameText(n, strs, payload)) == Classify(Arr([Num(n)] + (Strs(strs) + [payload])))
  {
    hide Written, Emit, EmitItems, Exact, Plain, Print, Quoted, Decode, Classify, Digits, Fields, Strs;
    var items := Strs(strs) + [payload];
    var text := Fields(strs) + (CStr(Print(payload)) + "]");
    WrittenFields(strs, payload);
    WrittenHead(n);
    JoinWritten("[" + (Digits(n) + ", "), Head(n), [LBracket, TNum(n), Comma],
                text, FrameTokens(strs, payload), EmitItems(items) + [RBracket]);
    var j := Arr([Num(n)] + items);
    ItemsPrepend(Num(n), items);
    EmitLeaf(Num(n));
    EmitLeaf(j);
    RegroupHead(n, EmitItems(items));
    assert FrameText(n, strs, payload) == ("[" + (Digits(n) + ", ")) + text;
    DecodeWritten(FrameText(n, strs, payload), Head(n) + FrameTokens(strs, payload), j);
  }

  lemma TypeDigits()
    ensures Digits(2) == CALL && Digits(3) == CALLRESULT && Digits(4) == CALLERROR
  {
  }

  lemma CallFields(id: string, action: string, payload: Json)
    ensures CallText(id, action, payload) == FrameText(2, [id, action], payload)
    ensures Strs([id, action]) == [Str(id), Str(action)]
  {
    hide Quoted, Fields, Strs, Print, CStr, Digits;
    var tail := CStr(Print(payload)) + "]";
    TypeDigits();
    NoFields(tail);
    FieldsThen(action, [], tail);
    FieldsThen(id, [action], tail);
    FieldsPrepend(action, []);
    FieldsPrepend(id, [action]);
    assert [action] + [] == [action] && [id] + [action] == [id, action];
  }

  /** Decoding a written CALL gives back its id, action and payload. */
  lemma CallRoundTrip(id: string, action: string, payload: Json)
    requires Plain(id) && Plain(action) && Exact(payload) && payload.Obj?
    ensures Decode(CallText(id, action, payload)) == Call(id, action, payload)
  {
    hide Decode, Exact, FrameText, CallText;
    CallFields(id, action, payload);
    FrameRoundTrip(2, [id, action], payload);
    assert [Num(2)] + (Strs([id, action]) + [payload]) == [Num(2), Str(id), Str(action), payload];
    PlainEscape(id);
    PlainEscape(action);
  }

  lemma ResultFields(id: string, payload: Json)
    ensures ResultText(id, payload) == FrameText(3, [id], payload) && Strs([id]) == [Str(id)]
  {
    hide Quoted, Fields, Strs, Print, CStr, Digits;
    var tail := CStr(Print(payload)) + "]";
    TypeDigits();
    NoFields(tail);
    FieldsThen(id, [], tail);
    FieldsPrepend(id, []);
    assert [id] + [] == [id];
  }

  /** Decoding a written CALLRESULT gives back its id and payload. */
  lemma ResultRoundTrip(id: string, payload: Json)
    requires Plain(id) && Exact(payload) && payload.Obj?
    ensures Decode(ResultText(id, payload)) == Result(id, payload)
  {
    hide Decode, Exact, FrameText, ResultText;
    ResultFields(id, payload);
    FrameRoundTrip(3, [id], payload);
    assert [Num(3)] + (Strs([id]) + [payload]) == [Num(3), Str(id), payload];
    PlainEscape(id);
  }

  lemma PrintEmptyObject()
    ensures Print(Obj([])) == "{}" && CStr("{}") == "{}"
  {
    assert Emit(Obj([])) == [LBrace, RBrace];
    assert [LBrace, RBrace][1..] == [RBrace];
    assert TokensText([RBrace]) == "}";
  }

  /** One frame of each kind. */
  lemma FrameSamples()
    ensures CallText("7", "A", Obj([])) == "[2, \"7\", \"A\", {}]"
    ensures ResultText("7", Obj([])) == "[3, \"7\", {}]"
    ensures ErrorText("7", "E", "m") == "[4, \"7\", \"E\", \"m\", {}]"
  {
    hide Print, CStr, ErrorText;
    PrintEmptyObject();
    ErrorSample();
  }

  lemma ErrorSample()
    ensures ErrorText("7", "E", "m") == "[4, \"7\", \"E\", \"m\", {}]"
  {
    hide CStr;
    assert CStr("E") == "E";
  }

  lemma ErrorFields(id: string, code: string, message: string)
    requires CStr(code) == code
    ensures ErrorText(id, code, message) == FrameText(4, [id, code, message], Obj([]))
    ensures Strs([id, code, message]) == [Str(id), Str(code), Str(message)]
  {
    hide Quoted, Fields, Strs, Print, CStr, Digits;
    var tail := "{}" + "]";
    TypeDigits();
    PrintEmptyObject();
    NoFields(tail);
    FieldsThen(message, [], tail);
    FieldsThen(code, [message], tail);
    FieldsThen(id, [code, message], tail);
    FieldsPrepend(message, []);
    FieldsPrepend(code, [message]);
    FieldsPrepend(id, [code, message]);
    assert [message] + [] == [message] && [code] + [message] == [code, message];
    assert [id] + [code, message] == [id, code, message];
  }

  /** Decoding a written CALLERROR gives back its id, code and message, and an empty payload. */
  lemma ErrorRoundTrip(id: string, code: string, message: string)
    requires Plain(id) && Plain(code) && Plain(message)
    ensures Decode(ErrorText(id, code, message)) == Error(id, code, message, Obj([]))
  {
    hide Decode, FrameText, ErrorText;
    PlainEscape(id);
    PlainEscape(code);
    PlainEscape(message);
    ErrorFields(id, code, message);
    FrameRoundTrip(4, [id, code, message], Obj([]));
    assert [Num(4)] + (Strs([id, code, message]) + [Obj([])]) == [Num(4), Str(id), Str(code), Str(message), Obj([])];
  }

  /** The frame that answers a malformed one is well formed, and its id is that of no call. */
  lemma ProtocolErrorFrame(n: nat)
    ensures Decode(PROTOCOL_ERROR_FRAME) == Error("", PROTOCOL_ERROR, "", Obj([]))
    ensures Digits(n) != ""
  {
    ErrorRoundTrip("", PROTOCOL_ERROR, "");
  }

  // ---------------------------------------------------------------- the first tokens of a text

  lemma LexInverse(s: string, i: nat, ts: seq<Token>, t: Token, k: nat)
    requires Lexed(s, i, ts) && Shows(s, i, t, k)
    ensures ts != [] && ts[0] == t && Lexed(s, k, ts[1..])
  {
    hide ReadToken;
    assert SkipSpace(s, i) == i;
  }

  lemma LexGapInverse(s: string, i: nat, ts: seq<Token>)
    requires i < |s| && IsSpace(s[i]) && Lexed(s, i, ts)
    ensures Lexed(s, i + 1, ts)
  {
    hide ReadToken;
  }

  lemma ShowsMark(s: string, i: nat, t: Token)
    requires i < |s| && (t == LBracket || t == Comma) && s[i] == TokenText(t)[0]
    ensures Shows(s, i, t, i + 1)
  {
    hide ReadNumber, ReadString, ReadWord;
  }

  lemma ShowsType(s: string, i: nat, n: nat)
    requires 2 <= n <= 4 && i + 1 < |s| && s[i] == DigitChar(n) && s[i + 1] == ','
    ensures Shows(s, i, TNum(n), i + 1)
  {
    hide Shows;
    assert Digits(n) == [DigitChar(n)];
    assert s[i..i + 1] == Digits(n);
    ReadNumeral(s, i, i, n);
  }

  lemma HeadLexed(s: string, n: nat, ts: seq<Token>)
    requires 2 <= n <= 4 && |s| >= 3 && s[0] == '[' && s[1] == DigitChar(n) && s[2] == ',' && Lexed(s, 0, ts)
    ensures |ts| >= 3 && ts[0] == LBracket && ts[1] == TNum(n) && ts[2] == Comma && Lexed(s, 3, ts[3..])
  {
    hide Lexed, Shows;
    ShowsMark(s, 0, LBracket);
    LexInverse(s, 0, ts, LBracket, 1);
    ShowsType(s, 1, n);
    LexInverse(s, 1, ts[1..], TNum(n), 2);
    ShowsMark(s, 2, Comma);
    LexInverse(s, 2, ts[1..][1..], Comma, 3);
    assert ts[1..][1..][1..] == ts[3..];
  }

  lemma ArrayInverse(ts: seq<Token>, j: Json)
    requires ParseTokens(ts) == Some(j) && ts != [] && ts[0] == LBracket && !(|ts| > 1 && ts[1] == RBracket)
    ensures j.Arr? && ShowsItems(ts, 1, j.items, |ts|)
  {
    hide ReadMoreItems, ReadMoreMembers;
    assert ReadItems(ts, 1) == ReadMoreItems(ts, 1);
    assert ReadValue(ts, 0) == Some((j, |ts|));
  }

  lemma ItemInverse(ts: seq<Token>, i: nat, items: seq<Json>, m: nat)
    requires ShowsItems(ts, i, items, m) && i < |ts| && (ts[i].TNum? || ts[i].TStr?)
    ensures i + 1 < |ts| && items != [] && items[0] == if ts[i].TNum? then Num(ts[i].n) else Str(ts[i].s)
    ensures ts[i + 1] == Comma ==> |items| > 1 && ShowsItems(ts, i + 2, items[1..], m)
  {
    hide ReadItems, ReadMembers;
    assert ReadValue(ts, i) == Some((if ts[i].TNum? then Num(ts[i].n) else Str(ts[i].s), i + 1));
    if ts[i + 1] == Comma {
      NextItemInverse(ts, i, items, m);
    }
  }

  lemma NextItemInverse(ts: seq<Token>, i: nat, items: seq<Json>, m: nat)
    requires ShowsItems(ts, i, items, m) && i + 1 < |ts| && ts[i + 1] == Comma
    requires ReadValue(ts, i).Some? && ReadValue(ts, i).value.1 == i + 1
    ensures |items| > 1 && ShowsItems(ts, i + 2, items[1..], m)
  {
    hide ReadValue;
    var v, rest := ReadValue(ts, i).value.0, ReadMoreItems(ts, i + 2).value.0;
    assert items == [v] + rest;
    MoreItemsNonEmpty(ts, i + 2);
  }

  lemma MoreItemsNonEmpty(ts: seq<Token>, i: nat)
    requires i <= |ts| && ReadMoreItems(ts, i).Some?
    ensures ReadMoreItems(ts, i).value.0 != []
  {
    hide ReadValue;
  }

  lemma CStrStart(s: string, k: nat)
    requires k <= |s| && forall i | 0 <= i < k :: s[i] != '\0'
    ensures |CStr(s)| >= k && CStr(s)[..k] == s[..k]
  {
    if k > 0 {
      CStrStart(s[1..], k - 1);
    }
  }

  /** A text that begins like a reply is never taken for a CALL, whatever follows. */
  lemma ReplyIsNoCall(text: string)
    requires |text| >= 3 && text[0] == '[' && (text[1] == '3' || text[1] == '4') && text[2] == ','
    ensures !Decode(text).Call?
  {
    hide Lex, ParseTokens, CStr, Digits;
    CStrStart(text, 3);
    var s := CStr(text);
    assert s[0] == s[..3][0] && s[1] == s[..3][1] && s[2] == s[..3][2];
    if Lex(s, 0).Some? && ParseTokens(Lex(s, 0).value).Some? {
      var ts := Lex(s, 0).value;
      var j := ParseTokens(ts).value;
      HeadLexed(s, if text[1] == '3' then 3 else 4, ts);
      ArrayInverse(ts, j);
      ItemInverse(ts, 1, j.items, |ts|);
      assert Parse(s) == Some(j);
      assert !Classify(j).Call?;
      assert Decode(text) == Classify(j);
    } else {
      assert Parse(s) == None;
      assert Decode(text) == Malformed;
    }
  }

  // ---------------------------------------------------------------- only plain fields survive

  lemma EscapeHasQuote(s: string, i: nat, r: nat)
    requires i < |s| && s[i] != '"' && ReadChar(s, i).Some? && i <= r < ReadChar(s, i).value.1 && s[r] == '"'
    ensures ReadChar(s, i).value.0 == '"' && r == i + 1
  {
  }

  /** A quote inside a string literal is escaped, so the string has a quote too, and earlier. */
  lemma {:induction false} InnerQuote(s: string, i: nat, t: string, k: nat, r: nat) returns (q: nat)
    requires Spells(s, i, t, k) && i <= r < k - 1 && s[r] == '"'
    ensures q < |t| && q < r - i && t[q] == '"'
    decreases |s| - i
  {
    hide ReadUnicode;
    var c, j := ReadChar(s, i).value.0, ReadChar(s, i).value.1;
    assert t == [c] + t[1..] && Spells(s, j, t[1..], k);
    if r < j {
      EscapeHasQuote(s, i, r);
      q := 0;
    } else {
      var p := InnerQuote(s, j, t[1..], k, r);
      q := p + 1;
    }
  }

  lemma OneCharPlain(s: string, i: nat)
    requires i < |s| && s[i] != '"' && ReadChar(s, i).Some? && ReadChar(s, i).value.1 == i + 1
    ensures PlainChar(s[i]) && ReadChar(s, i).value.0 == s[i]
  {
  }

  /** A string is no longer than its literal, and as long only if it is written as it is. */
  lemma {:induction false} LiteralLength(s: string, i: nat, t: string, k: nat)
    requires Spells(s, i, t, k)
    ensures |t| <= k - 1 - i
    ensures |t| == k - 1 - i ==> Plain(t)
    decreases |s| - i
  {
    hide ReadUnicode;
    if s[i] != '"' {
      var c, j := ReadChar(s, i).value.0, ReadChar(s, i).value.1;
      assert t == [c] + t[1..] && Spells(s, j, t[1..], k);
      LiteralLength(s, j, t[1..], k);
      if |t| == k - 1 - i {
        OneCharPlain(s, i);
      }
    }
  }

  /** No quote at or before the place where the unescaped field `id` ends, by descent on its position. */
  lemma {:induction false} NoQuoteBefore(s: string, i: nat, t: string, k: nat, id: string, r: nat)
    requires Spells(s, i, t, k) && id <= t && At(s, i, id) && i <= r <= i + |id| && r < k - 1
    ensures s[r] != '"'
    decreases r
  {
    hide Spells;
    SpellsEnds(s, i, t, k);
    if s[r] == '"' {
      var q := InnerQuote(s, i, t, k, r);
      AtIndex(s, i, id, q);
      NoQuoteBefore(s, i, t, k, id, i + q);
      assert false;
    }
  }

  lemma SpellsEnds(s: string, i: nat, t: string, k: nat)
    requires Spells(s, i, t, k)
    ensures i < k <= |s|
  {
  }

  /** A field that is written between quotes as it is and read back at the head of a string is plain. */
  lemma FieldPlain(s: string, i: nat, t: string, k: nat, id: string)
    requires Spells(s, i, t, k) && id <= t && At(s, i, id + "\"")
    ensures Plain(id) && k == i + |id| + 1
  {
    hide Spells, Plain;
    AtSplit(s, i, id, "\"");
    AtIndex(s, i + |id|, "\"", 0);
    LiteralLength(s, i, t, k);
    if i + |id| < k - 1 {
      NoQuoteBefore(s, i, t, k, id, i + |id|);
      assert false;
    }
    assert id == t;
  }

  lemma LexQuote(s: string, i: nat, ts: seq<Token>) returns (k: nat)
    requires Lexed(s, i, ts) && i < |s| && s[i] == '"'
    ensures ts != [] && ts[0].TStr? && Spells(s, i + 1, ts[0].s, k) && Lexed(s, k, ts[1..])
  {
    hide ReadString, ReadNumber, ReadWord;
    assert SkipSpace(s, i) == i;
    k := ReadString(s, i + 1).value.1;
    assert ts == [TStr(ReadString(s, i + 1).value.0)] + ts[1..];
  }

  /** The strings that were read are the fields that were written. */
  ghost predicate Kept(strs: seq<string>, items: seq<Json>) {
    |strs| <= |items| && forall i | 0 <= i < |strs| :: items[i].Str? && CStr(items[i].s) == strs[i]
  }

  lemma QuotedAt(s: string, i: nat, f: string, rest: string)
    requires At(s, i, Quoted(f) + rest)
    ensures i + |f| + 3 < |s| && s[i] == '"' && At(s, i + 1, f + "\"")
    ensures s[i + |f| + 2] == ',' && s[i + |f| + 3] == ' ' && At(s, i + |f| + 4, rest)
  {
    AtSplit(s, i, Quoted(f), rest);
    AtSplit(s, i, "\"", f + "\", ");
    AtIndex(s, i, "\"", 0);
    assert f + "\", " == (f + "\"") + ", ";
    AtSplit(s, i + 1, f + "\"", ", ");
    AtIndex(s, i + |f| + 2, ", ", 0);
    AtIndex(s, i + |f| + 2, ", ", 1);
  }

  /** Fields that are read back as they were written are plain. */
  lemma {:induction false} FieldsPlain(s: string, i: nat, strs: seq<string>, ts: seq<Token>, q: nat, items: seq<Json>, m: nat)
    requires At(s, i, Fields(strs)) && q <= |ts| && Lexed(s, i, ts[q..]) && ShowsItems(ts, q, items, m)
    requires Kept(strs, items)
    ensures AllPlain(strs)
    decreases |strs|
  {
    hide Lexed, Spells, ShowsItems, Quoted, At, Shows, Plain, CStr;
    if strs != [] {
      var f, us := strs[0], ts[q..];
      QuotedAt(s, i, f, Fields(strs[1..]));
      var k := LexQuote(s, i, us);
      assert ts[q] == us[0];
      ItemInverse(ts, q, items, m);
      FieldPlain(s, i + 1, us[0].s, k, f);
      ShowsMark(s, k, Comma);
      LexInverse(s, k, us[1..], Comma, k + 1);
      assert ts[q + 1] == us[1..][0];
      LexGapInverse(s, k + 1, us[1..][1..]);
      assert us[1..][1..] == ts[q + 2..];
      FieldsPlain(s, k + 2, strs[1..], ts, q + 2, items[1..], m);
    }
  }

  lemma FrameHead(n: nat, strs: seq<string>, payload: Json)
    requires 2 <= n <= 4
    ensures var s := FrameText(n, strs, payload);
            |s| > 3 && s[0] == '[' && s[1] == DigitChar(n) && s[2] == ',' && s[3] == ' ' && At(s, 4, Fields(strs))
  {
    hide Fields, Print;
    var s, tail := FrameText(n, strs, payload), CStr(Print(payload)) + "]";
    assert Digits(n) == [DigitChar(n)];
    assert s == ("[" + [DigitChar(n)] + ", ") + (Fields(strs) + tail);
    assert s[4..4 + |Fields(strs)|] == Fields(strs);
  }

  lemma FrameItemsPlain(n: nat, strs: seq<string>, payload: Json, items: seq<Json>)
    requires 2 <= n <= 4 && Parse(FrameText(n, strs, payload)) == Some(Arr(items))
    requires items != [] && Kept(strs, items[1..])
    ensures AllPlain(strs)
  {
    hide FrameText, Fields, Lexed, ShowsItems, ParseTokens, At, Kept, Plain;
    var s := FrameText(n, strs, payload);
    var ts := Lex(s, 0).value;
    FrameHead(n, strs, payload);
    LexedAll(s);
    HeadLexed(s, n, ts);
    LexGapInverse(s, 3, ts[3..]);
    ArrayInverse(ts, Arr(items));
    ItemInverse(ts, 1, items, |ts|);
    FieldsPlain(s, 4, strs, ts, 3, items[1..], |ts|);
  }

  lemma LexedAll(s: string)
    requires Lex(s, 0).Some?
    ensures Lexed(s, 0, Lex(s, 0).value)
  {
  }

  lemma {:induction false} FieldsNoNul(strs: seq<string>)
    requires forall i | 0 <= i < |strs| :: '\0' !in strs[i]
    ensures '\0' !in Fields(strs)
  {
    if strs != [] {
      FieldsNoNul(strs[1..]);
    }
  }

  lemma FrameNoNul(n: nat, strs: seq<string>, payload: Json)
    requires 2 <= n <= 4 && forall i | 0 <= i < |strs| :: '\0' !in strs[i]
    ensures CStr(FrameText(n, strs, payload)) == FrameText(n, strs, payload)
  {
    hide Fields, CStr, Print;
    FieldsNoNul(strs);
    assert Digits(n) == [DigitChar(n)];
  }

  /** A CALL survives being written and read exactly when its id and action need no escaping. */
  lemma CallSurvives(id: string, action: string, payload: Json)
    requires Exact(payload) && payload.Obj?
    ensures Decode(CallText(id, action, payload)) == Call(id, action, payload) <==> Plain(id) && Plain(action)
  {
    hide CallText, FrameText, Exact, Plain, Parse;
    if Plain(id) && Plain(action) {
      CallRoundTrip(id, action, payload);
    }
    if Decode(CallText(id, action, payload)) == Call(id, action, payload) {
      CallFields(id, action, payload);
      FrameNoNul(2, [id, action], payload);
      var items := Parse(CallText(id, action, payload)).value.items;
      FrameItemsPlain(2, [id, action], payload, items);
      assert Plain([id, action][0]) && Plain([id, action][1]);
    }
  }

  /** A CALLRESULT survives exactly when its id, which is echoed from the CALL, needs no escaping. */
  lemma ResultSurvives(id: string, payload: Json)
    requires Exact(payload) && payload.Obj?
    ensures Decode(ResultText(id, payload)) == Result(id, payload) <==> Plain(id)
  {
    hide ResultText, FrameText, Exact, Plain, Parse;
    if Plain(id) {
      ResultRoundTrip(id, payload);
    }
    if Decode(ResultText(id, payload)) == Result(id, payload) {
      ResultFields(id, payload);
      FrameNoNul(3, [id], payload);
      var items := Parse(ResultText(id, payload)).value.items;
      FrameItemsPlain(3, [id], payload, items);
      assert Plain([id][0]);
    }
  }

  /** A CALLERROR survives exactly when its id, code and message need no escaping. */
  lemma ErrorSurvives(id: string, code: string, message: string)
    ensures Decode(ErrorText(id, code, message)) == Error(id, code, message, Obj([]))
            <==> Plain(id) && Plain(code) && Plain(message)
  {
    hide ErrorText, FrameText, Plain, Parse;
    if Plain(id) && Plain(code) && Plain(message) {
      ErrorRoundTrip(id, code, message);
    }
    if Decode(ErrorText(id, code, message)) == Error(id, code, message, Obj([])) {
      ErrorFields(id, code, message);
      FrameNoNul(4, [id, code, message], Obj([]));
      var items := Parse(ErrorText(id, code, message)).value.items;
      FrameItemsPlain(4, [id, code, message], Obj([]), items);
      assert Plain([id, code, message][0]) && Plain([id, code, message][1]) && Plain([id, code, message][2]);
    }
  }

  /** A quote in any one field is enough for a frame to come back as another or not at all. */
  lemma QuoteWitness(payload: Json)
    requires Exact(payload) && payload.Obj?
    ensures Decode(CallText("\"", "Heartbeat", payload)) != Call("\"", "Heartbeat", payload)
    ensures Decode(ResultText("\"", payload)) != Result("\"", payload)
    ensures Decode(ErrorText("1", "GenericError", "\"")) != Error("1", "GenericError", "\"", Obj([]))
  {
    hide Decode, CallText, ResultText, ErrorText, Exact;
    assert !PlainChar("\""[0]);
    CallSurvives("\"", "Heartbeat", payload);
    ResultSurvives("\"", payload);
    ErrorSurvives("1", "GenericError", "\"");
  }

  // ---------------------------------------------------------------- a reply finds its call

  lemma DigitsPlain(n: nat)
    ensures Plain(Digits(n))
  {
    hide Digits;
    forall i | 0 <= i < |Digits(n)| ensures PlainChar(Digits(n)[i]) {
      assert IsDigit(Digits(n)[i]);
    }
  }

  /** The text before the fields that follow the id. */
  function ReplyStart(n: char, id: string): string {
    "[" + ([n] + (", " + PrintStr(id)))
  }

  lemma ReplyStarts(id: string, o: Outcome)
    requires Plain(id) && Reply(id, o) != []
    ensures ReplyStart(DigitChar(if o.Accepted? then 3 else 4), id) <= Reply(id, o)[0]
  {
    hide Print, Escape;
    PlainEscape(id);
    var n, text := if o.Accepted? then 3 else 4, Reply(id, o)[0];
    var rest := if o.Accepted? then CStr(Print(o.response)) + "]"
                else Quoted(CStr(o.code)) + (Quoted(o.message) + ("{}" + "]"));
    QuotedSplit(DigitChar(n), id, rest);
  }

  lemma QuotedSplit(n: char, id: string, rest: string)
    ensures Escape(id) == id ==> "[" + ([n] + (", " + (Quoted(id) + rest))) == ReplyStart(n, id) + (", " + rest)
  {
    hide Escape;
    assert Escape(id) == id ==> Quoted(id) == PrintStr(id) + ", ";
  }

  lemma StartNoNul(n: char, id: string)
    ensures n != '\0' ==> '\0' !in ReplyStart(n, id)
  {
    hide Escape;
    EscapeNoNul(id);
  }

  lemma StartLaid(s: string, n: nat, id: string)
    requires 2 <= n <= 4 && ReplyStart(DigitChar(n), id) <= s
    ensures |s| > 4 && s[0] == '[' && s[1] == DigitChar(n) && s[2] == ',' && s[3] == ' ' && At(s, 4, PrintStr(id))
  {
    hide PrintStr;
    var p := ReplyStart(DigitChar(n), id);
    assert p[0] == '[' && p[1] == DigitChar(n) && p[2] == ',' && p[3] == ' ';
    assert p[4..] == PrintStr(id);
    assert s[4..4 + |PrintStr(id)|] == p[4..];
    PrintStrLong(id);
  }

  lemma PrintStrLong(id: string)
    ensures |PrintStr(id)| >= 2
  {
  }

  /** The first two items of a text that starts like this are fixed by its start. */
  lemma StartDecides(s: string, n: nat, id: string)
    requires 2 <= n <= 4 && ReplyStart(DigitChar(n), id) <= s && Parse(s).Some?
    ensures var j := Parse(s).value; j.Arr? && |j.items| >= 2 && j.items[0] == Num(n) && j.items[1] == Str(id)
  {
    hide Lexed, Shows, ShowsItems, ReplyStart, PrintStr, ParseTokens;
    StartLaid(s, n, id);
    LexedAll(s);
    var ts := Lex(s, 0).value;
    HeadLexed(s, n, ts);
    LexGapInverse(s, 3, ts[3..]);
    ShowsString(s, 4, id);
    LexInverse(s, 4, ts[3..], TStr(id), 4 + |PrintStr(id)|);
    assert ts[3] == ts[3..][0];
    var j := Parse(s).value;
    ArrayInverse(ts, j);
    ItemInverse(ts, 1, j.items, |ts|);
    ItemInverse(ts, 3, j.items[1..], |ts|);
  }

  /** Whatever the handler puts into its answer, the reply to a request with a plain id is malformed or carries
      that id: it can never be taken for the answer to another call, nor for a CALL. */
  lemma ReplyKeepsId(id: string, o: Outcome)
    requires Plain(id) && Reply(id, o) != []
    ensures var f := Decode(Reply(id, o)[0]); f.Malformed? || ((f.Result? || f.Error?) && f.id == id)
  {
    hide Reply, ReplyStart, Plain, Parse;
    var n, text := if o.Accepted? then 3 else 4, Reply(id, o)[0];
    var p := ReplyStart(DigitChar(n), id);
    ReplyStarts(id, o);
    StartNoNul(DigitChar(n), id);
    CStrStart(text, |p|);
    PlainEscape(id);
    var s := CStr(text);
    assert p == text[..|p|] == s[..|p|];
    if Parse(s).Some? {
      StartDecides(s, n, id);
    }
  }

  /** Two endpoints that run this code understand each other: the CALL is decoded as it was meant, and the reply,
      if its fields need no escaping, as the answer to that very call. */
  lemma CallAndReply(n: nat, action: string, payload: Json, o: Outcome)
    requires Plain(action) && Exact(payload) && payload.Obj?
    requires match o
             case Accepted(response) => Exact(response) && response.Obj?
             case Refused(code, message) => code != [] && Plain(code) && Plain(message)
    ensures Decode(CallText(Digits(n), action, payload)) == Call(Digits(n), action, payload)
    ensures |Reply(Digits(n), o)| == 1
    ensures Decode(Reply(Digits(n), o)[0]) ==
            match o
            case Accepted(response) => Result(Digits(n), response)
            case Refused(code, message) => Error(Digits(n), code, message, Obj([]))
  {
    hide Digits, Decode, CallText, ResultText, ErrorText, Exact, Plain;
    DigitsPlain(n);
    CallRoundTrip(Digits(n), action, payload);
    match o {
      case Accepted(response) => ResultRoundTrip(Digits(n), response);
      case Refused(code, message) => ErrorRoundTrip(Digits(n), code, message);
    }
  }
}
