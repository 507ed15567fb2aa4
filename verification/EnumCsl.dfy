/** Enumerations and their names, and lists of them written with commas. */
module EnumCsl {
  import opened Text

  /** A C++ enumerator. */
  type EnumValue = int

  // ---------------------------------------------------------------- text helpers

  function TrimLeft(s: string): (r: string)
    ensures |r| <= |s| && (r == [] || r[0] != ' ')
  {
    if s != [] && s[0] == ' ' then TrimLeft(s[1..]) else s
  }

  function TrimRight(s: string): (r: string)
    ensures r <= s && (r == [] || r[|r| - 1] != ' ')
  {
    if s != [] && s[|s| - 1] == ' ' then TrimRight(s[..|s| - 1]) else s
  }

  /** Removal of the spaces at both ends; no other character counts as space. */
  function Trim(s: string): string { TrimRight(TrimLeft(s)) }

  function Spaces(n: nat): string { seq(n, _ => ' ') }

  ghost predicate Trimmed(s: string) { s == [] || (s[0] != ' ' && s[|s| - 1] != ' ') }

  lemma {:induction false} TrimLeftSpaces(n: nat, s: string)
    ensures TrimLeft(Spaces(n) + s) == TrimLeft(s)
  {
    if n > 0 {
      assert (Spaces(n) + s)[1..] == Spaces(n - 1) + s;
      TrimLeftSpaces(n - 1, s);
    } else {
      assert Spaces(0) + s == s;
    }
  }

  lemma {:induction false} TrimRightSpaces(s: string, n: nat)
    ensures TrimRight(s + Spaces(n)) == TrimRight(s)
  {
    if n > 0 {
      assert (s + Spaces(n))[..|s| + n - 1] == s + Spaces(n - 1);
      TrimRightSpaces(s, n - 1);
    } else {
      assert s + Spaces(0) == s;
    }
  }

  /** Any number of spaces around a trimmed text are removed, and nothing else is. */
  lemma TrimPadded(a: nat, s: string, b: nat)
    requires Trimmed(s)
    ensures Trim(Spaces(a) + s + Spaces(b)) == s
  {
    assert Spaces(a) + s + Spaces(b) == Spaces(a) + (s + Spaces(b));
    TrimLeftSpaces(a, s + Spaces(b));
    if s == [] {
      assert s + Spaces(b) == Spaces(b) + [];
      TrimLeftSpaces(b, []);
    } else {
      TrimRightSpaces(s, b);
    }
  }

  lemma NoCommaPadded(a: nat, s: string, b: nat)
    ensures ',' !in s ==> ',' !in Spaces(a) + s + Spaces(b)
  {
  }

  predicate NotComma(c: char) { c != ',' }

  /** The pieces between commas, in order; a text without comma is one piece. */
  function Split(s: string): (r: seq<string>)
    ensures r != []
  {
    var i := Span(s, 0, NotComma);
    if i == |s| then [s] else [s[..i]] + Split(s[i + 1..])
  }

  function Join(pieces: seq<string>): string
    requires pieces != []
  {
    if |pieces| == 1 then pieces[0] else pieces[0] + [','] + Join(pieces[1..])
  }

  lemma SplitOne(piece: string)
    requires ',' !in piece
    ensures Split(piece) == [piece]
  {
    SpanUnique(piece, 0, |piece|, NotComma);
  }

  lemma SplitFirst(piece: string, rest: string)
    requires ',' !in piece
    ensures Split(piece + ([','] + rest)) == [piece] + Split(rest)
  {
    var s, n := piece + ([','] + rest), |piece|;
    assert forall k | 0 <= k < n :: s[k] == piece[k];
    SpanUnique(s, 0, n, NotComma);
    assert s[..n] == piece && s[n + 1..] == rest;
  }

  /** Comma-free pieces come back from their comma-separated list. */
  lemma {:induction false} SplitJoin(pieces: seq<string>)
    requires pieces != [] && forall i | 0 <= i < |pieces| :: ',' !in pieces[i]
    ensures Split(Join(pieces)) == pieces
  {
    hide Split;
    if |pieces| == 1 {
      SplitOne(pieces[0]);
      assert pieces == [pieces[0]];
    } else {
      SplitJoin(pieces[1..]);
      SplitFirst(pieces[0], Join(pieces[1..]));
      assert Join(pieces) == pieces[0] + ([','] + Join(pieces[1..]));
      assert pieces == [pieces[0]] + pieces[1..];
    }
  }

  // ---------------------------------------------------------------- the two lookup tables

  function NameTable(mapping: seq<(EnumValue, string)>): map<EnumValue, string> {
    if mapping == [] then map[]
    else var last := mapping[|mapping| - 1]; NameTable(mapping[..|mapping| - 1])[last.0 := last.1]
  }

  function ValueTable(mapping: seq<(EnumValue, string)>): map<string, EnumValue> {
    if mapping == [] then map[]
    else var last := mapping[|mapping| - 1]; ValueTable(mapping[..|mapping| - 1])[last.1 := last.0]
  }

  predicate Clash(mapping: seq<(EnumValue, string)>, i: int, j: int) {
    0 <= i < j < |mapping| && (mapping[i].0 == mapping[j].0 || mapping[i].1 == mapping[j].1)
  }

  /** No enumerator and no name is listed twice. */
  ghost predicate OneToOne(mapping: seq<(EnumValue, string)>) {
    forall i, j :: !Clash(mapping, i, j)
  }

  ghost predicate Entry(mapping: seq<(EnumValue, string)>, e: EnumValue, n: string) {
    exists i :: 0 <= i < |mapping| && mapping[i] == (e, n)
  }

  /** For a one-to-one mapping the two tables hold exactly its entries, so they are inverse to each
      other. */
  lemma {:induction false} TablesInverse(mapping: seq<(EnumValue, string)>)
    requires OneToOne(mapping)
    ensures forall e | e in NameTable(mapping) ::
              && Entry(mapping, e, NameTable(mapping)[e])
              && NameTable(mapping)[e] in ValueTable(mapping)
              && ValueTable(mapping)[NameTable(mapping)[e]] == e
    ensures forall n | n in ValueTable(mapping) ::
              && ValueTable(mapping)[n] in NameTable(mapping)
              && NameTable(mapping)[ValueTable(mapping)[n]] == n
    ensures forall i | 0 <= i < |mapping| :: mapping[i].0 in NameTable(mapping) && mapping[i].1 in ValueTable(mapping)
  {
    if mapping != [] {
      var n := |mapping| - 1;
      var rest, last := mapping[..n], mapping[n];
      forall i, j ensures !Clash(rest, i, j) {
        assert !Clash(mapping, i, j);
      }
      TablesInverse(rest);
      forall i | 0 <= i < n ensures rest[i] == mapping[i] && rest[i].0 != last.0 && rest[i].1 != last.1 {
        assert !Clash(mapping, i, n);
      }
      assert last.0 !in NameTable(rest) && last.1 !in ValueTable(rest);
    }
  }

  /** Of several entries for an enumerator, or for a name, the last one counts; what has no entry is in no table. */
  lemma {:induction false} LastEntryCounts(mapping: seq<(EnumValue, string)>, e: EnumValue, n: string)
    ensures e in NameTable(mapping) <==> exists i :: 0 <= i < |mapping| && mapping[i].0 == e
    ensures n in ValueTable(mapping) <==> exists i :: 0 <= i < |mapping| && mapping[i].1 == n
    ensures forall i | 0 <= i < |mapping| && mapping[i].0 == e ::
              (forall j | i < j < |mapping| :: mapping[j].0 != e) ==> NameTable(mapping)[e] == mapping[i].1
    ensures forall i | 0 <= i < |mapping| && mapping[i].1 == n ::
              (forall j | i < j < |mapping| :: mapping[j].1 != n) ==> ValueTable(mapping)[n] == mapping[i].0
  {
    if mapping != [] {
      var k := |mapping| - 1;
      var rest := mapping[..k];
      LastEntryCounts(rest, e, n);
      assert forall i | 0 <= i < k :: rest[i] == mapping[i];
      assert mapping[k].0 == e ==> e in NameTable(mapping);
      assert mapping[k].1 == n ==> n in ValueTable(mapping);
      assert forall i | 0 <= i < |mapping| :: i == k || mapping[i] == rest[i];
    }
  }

  /** Look up one piece, dropping it when it is unknown. */
  function KnownPiece(piece: string, table: map<string, EnumValue>): seq<EnumValue> {
    var name := Trim(piece);
    if name in table then [table[name]] else []
  }

  function Known(pieces: seq<string>, table: map<string, EnumValue>): seq<EnumValue> {
    if pieces == [] then [] else KnownPiece(pieces[0], table) + Known(pieces[1..], table)
  }

  /** What remains to be collected from position `from` on, when the next comma is at `to`. */
  lemma KnownFrom(s: string, from: nat, to: nat, table: map<string, EnumValue>)
    requires from <= to <= |s|
    requires forall i | from <= i < to :: s[i] != ','
    requires to < |s| ==> s[to] == ','
    ensures Known(Split(s[from..]), table) ==
            if to == |s| then KnownPiece(s[from..], table)
            else KnownPiece(s[from..to], table) + Known(Split(s[to + 1..]), table)
  {
    hide KnownPiece;
    var t := s[from..];
    SpanUnique(t, 0, to - from, NotComma);
    if to < |s| {
      assert t[..to - from] == s[from..to] && t[to - from + 1..] == s[to + 1..];
      assert ([s[from..to]] + Split(s[to + 1..]))[1..] == Split(s[to + 1..]);
    } else {
      var none: seq<string> := [];
      assert Split(t) == [t] && [t][1..] == none;
      assert Known(none, table) == [];
    }
  }

  /** Collecting the piece before a comma leaves the rest to be collected. */
  lemma Collect(had: seq<EnumValue>, s: string, from: nat, to: nat, table: map<string, EnumValue>)
    requires from <= to < |s| && s[to] == ','
    requires forall i | from <= i < to :: s[i] != ','
    ensures had + Known(Split(s[from..]), table)
            == had + KnownPiece(s[from..to], table) + Known(Split(s[to + 1..]), table)
    ensures KnownPiece(s[from..to], table) == [] ==> had + KnownPiece(s[from..to], table) == had
  {
    KnownFrom(s, from, to, table);
    Regroup(had, KnownPiece(s[from..to], table), Known(Split(s[to + 1..]), table));
  }

  lemma Regroup(a: seq<EnumValue>, b: seq<EnumValue>, c: seq<EnumValue>)
    ensures a + (b + c) == a + b + c
    ensures b == [] ==> a + b == a
  {
  }

  class EnumHelper {
    var enumToString: map<EnumValue, string>
    var stringToEnum: map<string, EnumValue>

    constructor (mapping: seq<(EnumValue, string)>)
      ensures enumToString == NameTable(mapping) && stringToEnum == ValueTable(mapping)
    {
      var names: map<EnumValue, string>, values: map<string, EnumValue> := map[], map[];
      var i := 0;
      while i < |mapping|
        invariant 0 <= i <= |mapping|
        invariant names == NameTable(mapping[..i]) && values == ValueTable(mapping[..i])
      {
        names := names[mapping[i].0 := mapping[i].1];
        values := values[mapping[i].1 := mapping[i].0];
        assert mapping[..i + 1][..i] == mapping[..i];
        i := i + 1;
      }
      assert mapping[..i] == mapping;
      enumToString, stringToEnum := names, values;
    }

    /** The name of a value; unknown values have the empty name. */
    function ToString(value: EnumValue): string
      reads this
    {
      if value in enumToString then enumToString[value] else ""
    }

    function FromString(str: string): Option<EnumValue>
      reads this
    {
      if str in stringToEnum then Some(stringToEnum[str]) else None
    }

    /** The position-driven parser: it yields the known names among the pieces between commas. */
    method EnumsFromCsl(csl: string) returns (values: seq<EnumValue>)
      ensures values == Known(Split(csl), stringToEnum)
    {
      hide Known, Split, Trim, Span;
      values := [];
      var firstPos, pos := 0, 0;
      assert csl[0..] == csl;
      while pos != |csl|
        invariant 0 <= firstPos <= |csl| && 0 <= pos <= |csl|
        invariant values + Known(Split(csl[firstPos..]), stringToEnum) == Known(Split(csl), stringToEnum)
        invariant pos == |csl| ==> forall i | firstPos <= i < |csl| :: csl[i] != ','
        decreases pos != |csl|, |csl| - firstPos
      {
        pos := Span(csl, firstPos, NotComma);
        if pos != |csl| {
          Collect(values, csl, firstPos, pos, stringToEnum);
          var found := FromString(Trim(csl[firstPos..pos]));
          if found.Some? {
            values := values + [found.value];
          }
          firstPos := pos + 1;
        }
      }
      KnownFrom(csl, firstPos, |csl|, stringToEnum);
      var found := FromString(Trim(csl[firstPos..]));
      if found.Some? {
        values := values + [found.value];
      }
    }
  }

  /** For a one-to-one mapping the helper gives every enumerator its name and finds it by that name; other enumerators
      have the empty name and other names lead nowhere. */
  lemma NamesRoundTrip(h: EnumHelper, mapping: seq<(EnumValue, string)>, e: EnumValue, n: string)
    requires OneToOne(mapping) && h.enumToString == NameTable(mapping) && h.stringToEnum == ValueTable(mapping)
    ensures Entry(mapping, e, n) <==> e in h.enumToString && h.ToString(e) == n
    ensures Entry(mapping, e, n) <==> h.FromString(n) == Some(e)
    ensures (forall i | 0 <= i < |mapping| :: mapping[i].0 != e) ==> h.ToString(e) == ""
    ensures (forall i | 0 <= i < |mapping| :: mapping[i].1 != n) ==> h.FromString(n) == None
  {
    TablesInverse(mapping);
    LastEntryCounts(mapping, e, n);
    if Entry(mapping, e, n) {
      var i :| 0 <= i < |mapping| && mapping[i] == (e, n);
      forall j | i < j < |mapping| ensures mapping[j].0 != e && mapping[j].1 != n {
        assert !Clash(mapping, i, j);
      }
    }
  }

  lemma {:induction false} KnownConcat(a: seq<string>, b: seq<string>, table: map<string, EnumValue>)
    ensures Known(a + b, table) == Known(a, table) + Known(b, table)
  {
    hide KnownPiece;
    if a == [] {
      assert a + b == b;
    } else {
      KnownConcat(a[1..], b, table);
      assert (a + b)[1..] == a[1..] + b;
      Regroup(KnownPiece(a[0], table), Known(a[1..], table), Known(b, table));
    }
  }

  lemma KnownSkips(a: seq<string>, unknown: string, b: seq<string>, table: map<string, EnumValue>)
    requires KnownPiece(unknown, table) == []
    ensures Known(a + ([unknown] + b), table) == Known(a + b, table)
  {
    hide KnownPiece;
    KnownConcat(a, [unknown] + b, table);
    KnownConcat(a, b, table);
    assert ([unknown] + b)[1..] == b;
    assert Known([unknown] + b, table) == Known(b, table);
  }

  ghost predicate CommaFree(pieces: seq<string>) { forall i | 0 <= i < |pieces| :: ',' !in pieces[i] }

  lemma CommaFreeConcat(a: seq<string>, b: seq<string>)
    requires CommaFree(a) && CommaFree(b)
    ensures CommaFree(a + b)
  {
  }

  /** A piece whose trimmed text is no name is skipped, wherever it stands in the list. */
  lemma UnknownSkipped(a: seq<string>, unknown: string, b: seq<string>, table: map<string, EnumValue>)
    requires Trim(unknown) !in table && ',' !in unknown && CommaFree(a) && CommaFree(b)
    ensures Known(Split(Join(a + ([unknown] + b))), table) == Known(a + b, table)
    ensures a + b != [] ==> Known(Split(Join(a + b)), table) == Known(a + b, table)
  {
    hide Split, Join, Trim, Known;
    CommaFreeConcat([unknown], b);
    CommaFreeConcat(a, [unknown] + b);
    CommaFreeConcat(a, b);
    SplitJoin(a + ([unknown] + b));
    KnownSkips(a, unknown, b, table);
    if a + b != [] {
      SplitJoin(a + b);
    }
  }

  /** The names of the values, each with its own number of spaces before and after. */
  ghost function PaddedNames(values: seq<EnumValue>, padding: seq<(nat, nat)>, names: map<EnumValue, string>): (r: seq<string>)
    requires |padding| == |values|
    requires forall i | 0 <= i < |values| :: values[i] in names
    ensures |r| == |values|
    ensures forall i | 0 <= i < |r| :: r[i] == Spaces(padding[i].0) + names[values[i]] + Spaces(padding[i].1)
  {
    seq(|values|, i requires 0 <= i < |values| =>
      Spaces(padding[i].0) + names[values[i]] + Spaces(padding[i].1))
  }

  /** Writing a list of enumerators by name, with any spaces around the names, and parsing it gives
      the list back. */
  lemma CslRoundTrip(mapping: seq<(EnumValue, string)>, values: seq<EnumValue>, padding: seq<(nat, nat)>)
    requires OneToOne(mapping)
    requires forall e, n | Entry(mapping, e, n) :: Trimmed(n) && ',' !in n
    requires values != [] && |padding| == |values|
    requires forall i | 0 <= i < |values| :: values[i] in NameTable(mapping)
    ensures Known(Split(Join(PaddedNames(values, padding, NameTable(mapping)))), ValueTable(mapping)) == values
  {
    TablesInverse(mapping);
    forall i | 0 <= i < |values| ensures PlainName(values[i], NameTable(mapping), ValueTable(mapping)) {
      assert values[i] in NameTable(mapping);
    }
    PiecesRoundTrip(values, padding, NameTable(mapping), ValueTable(mapping));
  }

  /** The name of `value` can stand in a list and leads back to `value`. */
  ghost predicate PlainName(value: EnumValue, names: map<EnumValue, string>, table: map<string, EnumValue>) {
    value in names && var n := names[value]; Trimmed(n) && ',' !in n && n in table && table[n] == value
  }

  lemma PiecesRoundTrip(values: seq<EnumValue>, padding: seq<(nat, nat)>,
                        names: map<EnumValue, string>, table: map<string, EnumValue>)
    requires values != [] && |padding| == |values|
    requires forall i | 0 <= i < |values| :: values[i] in names && PlainName(values[i], names, table)
    ensures Known(Split(Join(PaddedNames(values, padding, names))), table) == values
  {
    var pieces := PaddedNames(values, padding, names);
    forall i | 0 <= i < |pieces|
      ensures ',' !in pieces[i] && KnownPiece(pieces[i], table) == [values[i]]
    {
      assert PlainName(values[i], names, table);
      NoCommaPadded(padding[i].0, names[values[i]], padding[i].1);
      TrimPadded(padding[i].0, names[values[i]], padding[i].1);
    }
    SplitJoin(pieces);
    KnownAll(pieces, table, values);
  }

  lemma {:induction false} KnownAll(pieces: seq<string>, table: map<string, EnumValue>, values: seq<EnumValue>)
    requires |pieces| == |values|
    requires forall i | 0 <= i < |pieces| :: KnownPiece(pieces[i], table) == [values[i]]
    ensures Known(pieces, table) == values
  {
    if pieces != [] {
      KnownAll(pieces[1..], table, values[1..]);
    }
  }
}
