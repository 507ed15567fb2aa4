/** Percent encoding of a part of a URL (sections 2.1 and 2.3 of RFC 3986). */
module UrlEncode {
  import opened Text

  type Byte = b: int | 0 <= b < 256

  predicate IsAlphaNum(c: char) {
    'A' <= c <= 'Z' || 'a' <= c <= 'z' || '0' <= c <= '9'
  }

  /** The unreserved characters of section 2.3 of RFC 3986. */
  predicate IsUnreserved(c: char) {
    IsAlphaNum(c) || c == '-' || c == '_' || c == '.' || c == '~'
  }

  /** `std::hex << std::uppercase` of a non-negative number. */
  function Hex(n: nat): (s: string)
    ensures s != [] && forall i | 0 <= i < |s| :: IsUpperHex(s[i])
  {
    if n < 16 then [HexChar(n)] else Hex(n / 16) + [HexChar(n % 16)]
  }

  /** `setw(2) << setfill('0')`. */
  function Padded(s: string): string {
    if |s| < 2 then ['0'] + s else s
  }

  /** `static_cast<int>(c)` printed in hexadecimal: a negative value shows as its 32-bit pattern. */
  function CharAsHex(b: Byte, signedChar: bool): string {
    var v := if signedChar && b >= 128 then b - 256 else b;
    Padded(Hex(if v < 0 then 0x1_0000_0000 + v else v))
  }

  function Code(b: Byte, signedChar: bool): string {
    if IsUnreserved(b as char) then [b as char] else ['%'] + CharAsHex(b, signedChar)
  }

  function Encoded(url: seq<Byte>, signedChar: bool): string {
    if url == [] then [] else Code(url[0], signedChar) + Encoded(url[1..], signedChar)
  }

  lemma EncodedStep(url: seq<Byte>, k: nat, signedChar: bool)
    requires k < |url|
    ensures Encoded(url[k..], signedChar) == Code(url[k], signedChar) + Encoded(url[k + 1..], signedChar)
  {
    assert url[k..][1..] == url[k + 1..];
  }

  /** The decision for one character, with the scan of the table of unreserved punctuation. */
  method MustEncode(c: char) returns (encode: bool)
    ensures encode <==> !IsUnreserved(c)
  {
    var unreserved := ['-', '_', '.', '~'];
    encode := true;
    if IsAlphaNum(c) {
      encode := false;
    } else {
      var i := 0;
      while i < |unreserved|
        invariant 0 <= i <= |unreserved| && encode
        invariant forall j | 0 <= j < i :: c != unreserved[j]
      {
        if c == unreserved[i] {
          encode := false;
          break;
        }
        i := i + 1;
      }
      assert encode ==> c != unreserved[0] && c != unreserved[1] && c != unreserved[2] && c != unreserved[3];
    }
  }

  /** The loop over the characters of the part to encode. */
  method Encode(url: seq<Byte>, signedChar: bool) returns (r: string)
    ensures r == Encoded(url, signedChar)
  {
    hide Encoded, CharAsHex, IsUnreserved;
    r := "";
    var k := 0;
    assert url[0..] == url;
    while k < |url|
      invariant 0 <= k <= |url|
      invariant r + Encoded(url[k..], signedChar) == Encoded(url, signedChar)
    {
      var encode := MustEncode(url[k] as char);
      EncodedStep(url, k, signedChar);
      Regrouped(r, Code(url[k], signedChar), Encoded(url[k + 1..], signedChar));
      if encode {
        r := r + (['%'] + CharAsHex(url[k], signedChar));
      } else {
        r := r + [url[k] as char];
      }
      k := k + 1;
    }
    assert url[k..] == [];
    NothingEncoded(signedChar);
  }

  lemma Regrouped(a: string, b: string, c: string)
    ensures a + (b + c) == (a + b) + c
  {
  }

  lemma NothingEncoded(signedChar: bool)
    ensures Encoded([], signedChar) == []
  {
  }

  // ---------------------------------------------------------------- the shape of the codes

  lemma HexTwoDigits(n: nat)
    requires n < 256
    ensures Padded(Hex(n)) == [HexChar(n / 16), HexChar(n % 16)]
  {
    if n >= 16 {
      assert Hex(n / 16) == [HexChar(n / 16)];
    }
  }

  /** Two levels of `Hex` at once. */
  lemma HexUnfold(n: nat, hi: nat, lo: nat)
    requires hi >= 1 && lo < 0x100 && n == hi * 0x100 + lo
    ensures Hex(n) == Hex(hi) + [HexChar(lo / 16), HexChar(lo % 16)]
  {
    assert n / 16 == hi * 16 + lo / 16 && n % 16 == lo % 16;
    assert (n / 16) / 16 == hi && (n / 16) % 16 == lo / 16;
    assert Hex(n / 16) == Hex(hi) + [HexChar(lo / 16)];
    assert Hex(n) == Hex(n / 16) + [HexChar(n % 16)];
  }

  lemma HexSixFs()
    ensures Hex(0xFFFFFF) == "FFFFFF"
  {
    HexTwoDigits(0xFF);
    HexUnfold(0xFFFF, 0xFF, 0xFF);
    HexUnfold(0xFFFFFF, 0xFFFF, 0xFF);
  }

  /** A negative `char` prints as eight digits that begin with FFFFFF. */
  lemma NegativeHex(b: Byte)
    requires b >= 128
    ensures CharAsHex(b, true) == "FFFFFF" + [HexChar(b / 16), HexChar(b % 16)]
  {
    HexSixFs();
    HexUnfold(0xFFFFFF00 + b, 0xFFFFFF, b);
  }

  // ---------------------------------------------------------------- decoding

  /** Percent-decoding of section 2.1 of RFC 3986. */
  function Decode(s: string): Option<seq<Byte>> {
    if s == [] then Some([])
    else if s[0] == '%' then
      if |s| < 3 || !IsUpperHex(s[1]) || !IsUpperHex(s[2]) then None
      else
        match Decode(s[3..])
        case None => None
        case Some(t) => Some([(16 * HexValue(s[1]) + HexValue(s[2])) as Byte] + t)
    else if s[0] as int >= 256 then None
    else
      match Decode(s[1..])
      case None => None
      case Some(t) => Some([s[0] as int] + t)
  }

  lemma DecodeCode(b: Byte, signedChar: bool, rest: string)
    requires b < 128 || !signedChar
    ensures Decode(Code(b, signedChar) + rest)
            == match Decode(rest) case None => None case Some(t) => Some([b] + t)
  {
    var s := Code(b, signedChar) + rest;
    if IsUnreserved(b as char) {
      assert s[1..] == rest;
    } else {
      HexTwoDigits(b);
      assert s[1] == HexChar(b / 16) && s[2] == HexChar(b % 16) && s[3..] == rest;
    }
  }

  /** A negative `char` decodes to the byte 255 and six stray characters. */
  lemma DecodeNegative(b: Byte, rest: string)
    requires b >= 128
    ensures match Decode(Code(b, true) + rest)
            case None => Decode(rest).None?
            case Some(u) => Decode(rest).Some? && |u| == 7 + |Decode(rest).value|
  {
    NegativeHex(b);
    var tail := "FFFF" + [HexChar(b / 16), HexChar(b % 16)];
    assert Code(b, true) + rest == "%FF" + (tail + rest);
    assert (Code(b, true) + rest)[3..] == tail + rest;
    DecodePlain(tail, rest);
  }

  lemma {:induction false} DecodePlain(plain: string, rest: string)
    requires forall i | 0 <= i < |plain| :: IsUpperHex(plain[i])
    ensures match Decode(plain + rest)
            case None => Decode(rest).None?
            case Some(u) => Decode(rest).Some? && |u| == |plain| + |Decode(rest).value|
  {
    if plain == [] {
      assert plain + rest == rest;
    } else {
      assert (plain + rest)[1..] == plain[1..] + rest;
      DecodePlain(plain[1..], rest);
    }
  }

  ghost predicate SevenBit(url: seq<Byte>) { forall i | 0 <= i < |url| :: url[i] < 128 }

  /** Decoding undoes encoding exactly for 7-bit text where `char` is signed, and always where it
      is not. */
  lemma {:induction false} RoundTrip(url: seq<Byte>, signedChar: bool)
    ensures Decode(Encoded(url, signedChar)) == Some(url) <==> !signedChar || SevenBit(url)
    ensures match Decode(Encoded(url, signedChar)) case None => false case Some(u) => |u| >= |url|
    ensures signedChar && !SevenBit(url) ==> |Decode(Encoded(url, true)).value| > |url|
  {
    if url != [] {
      var rest := Encoded(url[1..], signedChar);
      RoundTrip(url[1..], signedChar);
      assert url == [url[0]] + url[1..];
      if url[0] < 128 || !signedChar {
        DecodeCode(url[0], signedChar, rest);
        if signedChar && !SevenBit(url) {
          assert !SevenBit(url[1..]);
        }
      } else {
        DecodeNegative(url[0], rest);
      }
    }
  }

  /** Encoding is a homomorphism: parts may be encoded separately. */
  lemma {:induction false} EncodeConcat(a: seq<Byte>, b: seq<Byte>, signedChar: bool)
    ensures Encoded(a + b, signedChar) == Encoded(a, signedChar) + Encoded(b, signedChar)
  {
    if a == [] {
      assert a + b == b;
    } else {
      assert (a + b)[1..] == a[1..] + b;
      EncodeConcat(a[1..], b, signedChar);
    }
  }

  /** Upper-case hexadecimal digits stand in `s` from `i` on, `n` of them. */
  ghost predicate HexRun(s: string, i: nat, n: nat) {
    i + n <= |s| && forall k | i <= k < i + n :: IsUpperHex(s[k])
  }

  /** The character at `i` is unreserved, or a `%` before two digits, or before eight where `char` is signed and the
      first digit tells that it is negative. */
  ghost predicate PercentCoded(s: string, i: nat, signedChar: bool) {
    && i < |s|
    && (if s[i] == '%' then HexRun(s, i + 1, 2) && (signedChar && s[i + 1] == 'F' ==> HexRun(s, i + 1, 8))
    else IsUnreserved(s[i]))
  }

  lemma CodeShape(b: Byte, signedChar: bool, rest: string)
    ensures forall i | 0 <= i < |Code(b, signedChar)| :: PercentCoded(Code(b, signedChar) + rest, i, signedChar)
  {
    if !IsUnreserved(b as char) {
      if signedChar && b >= 128 {
        NegativeHex(b);
      } else {
        HexTwoDigits(b);
        assert signedChar ==> HexChar(b / 16) != 'F';
      }
    }
  }

  lemma ShapeStays(code: string, rest: string, i: nat, signedChar: bool)
    requires i < |rest| && PercentCoded(rest, i, signedChar)
    ensures PercentCoded(code + rest, |code| + i, signedChar)
  {
    var s := code + rest;
    assert forall k | 0 <= k < |rest| :: s[|code| + k] == rest[k];
    if rest[i] == '%' {
      assert HexRun(s, |code| + i + 1, 2) by {
        forall k | |code| + i + 1 <= k < |code| + i + 3 ensures IsUpperHex(s[k]) {
          assert s[k] == rest[k - |code|];
        }
      }
      if signedChar && rest[i + 1] == 'F' {
        forall k | |code| + i + 1 <= k < |code| + i + 9 ensures IsUpperHex(s[k]) {
          assert s[k] == rest[k - |code|];
        }
      }
    }
  }

  /** Only unreserved characters and `%` are emitted, and each `%` is followed by its upper-case digits: two, or
      eight where `char` is signed and negative. */
  lemma {:induction false} EncodedAlphabet(url: seq<Byte>, signedChar: bool)
    ensures forall i | 0 <= i < |Encoded(url, signedChar)| :: PercentCoded(Encoded(url, signedChar), i, signedChar)
  {
    hide PercentCoded, Code;
    if url != [] {
      var code, rest := Code(url[0], signedChar), Encoded(url[1..], signedChar);
      EncodedAlphabet(url[1..], signedChar);
      CodeShape(url[0], signedChar, rest);
      forall i | 0 <= i < |code + rest| ensures PercentCoded(code + rest, i, signedChar) {
        if i >= |code| {
          ShapeStays(code, rest, i - |code|, signedChar);
        }
      }
    }
  }

  /** The codes of a signed `char` can be told apart from their first characters. */
  function FirstByte(s: string): (r: (int, nat))
    requires s != []
  {
    if s[0] != '%' then (s[0] as int, 1)
    else if |s| >= 9 && s[1] == 'F' && IsUpperHex(s[7]) && IsUpperHex(s[8]) then
      (16 * HexValue(s[7]) + HexValue(s[8]), 9)
    else if |s| >= 3 && IsUpperHex(s[1]) && IsUpperHex(s[2]) then
      (16 * HexValue(s[1]) + HexValue(s[2]), 3)
    else (0, 0)
  }

  lemma PrefixCode(b: Byte, rest: string)
    ensures FirstByte(Code(b, true) + rest) == (b, |Code(b, true)|)
  {
    if !IsUnreserved(b as char) {
      if b >= 128 {
        NegativeHex(b);
      } else {
        HexTwoDigits(b);
        assert HexChar(b / 16) != 'F';
      }
    }
  }

  /** Different byte strings have different encodings, whatever the signedness of `char`. */
  lemma {:induction false} EncodeInjective(a: seq<Byte>, b: seq<Byte>, signedChar: bool)
    requires Encoded(a, signedChar) == Encoded(b, signedChar)
    ensures a == b
  {
    if !signedChar {
      RoundTrip(a, false);
      RoundTrip(b, false);
    } else if a != [] && b != [] {
      var ra, rb := Encoded(a[1..], true), Encoded(b[1..], true);
      PrefixCode(a[0], ra);
      PrefixCode(b[0], rb);
      assert ra == Encoded(a, true)[|Code(a[0], true)|..];
      assert rb == Encoded(b, true)[|Code(b[0], true)|..];
      EncodeInjective(a[1..], b[1..], true);
    }
  }
}
