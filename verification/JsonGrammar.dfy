/** The JSON parser accepts exactly what RFC 8259 allows. */
module JsonGrammar {
  import opened Text
  import opened Utf8
  import opened Json
  import opened JsonReadBack
  import opened JsonLayout

  // ---- what was read is a layout --------------------------------------------

  lemma {:induction false} SkippedIsBlank(s: string) returns (b: string)
    ensures Blanks(b) && s == b + SkipSpace(s)
  {
    b := "";
    if s != "" && IsBlankChar(s[0]) {
      var more := SkippedIsBlank(s[1..]);
      b := [s[0]] + more;
      assert s == [s[0]] + s[1..];
    } else {
      assert s == b + s;
    }
  }

  lemma NibbleOf(c: char) returns (upper: bool)
    requires HexVal(c).Some?
    ensures Nibble(HexVal(c).value, upper) == c
  {
    upper := 'A' <= c <= 'F';
    var d := HexVal(c).value;
    if d < 8 {
      if d == 0 {} else if d == 1 {} else if d == 2 {} else if d == 3 {} else if d == 4 {} else if d == 5 {} else if d == 6 {} else {}
    } else {
      if d == 8 {} else if d == 9 {} else if d == 10 {} else if d == 11 {} else if d == 12 {} else if d == 13 {} else if d == 14 {} else {}
    }
  }

  lemma HexParts(a: nat, b: nat, c: nat, d: nat)
    requires a < 16 && b < 16 && c < 16 && d < 16
    ensures var n := ((a * 16 + b) * 16 + c) * 16 + d;
            n < 0x10000 && n / 4096 == a && n / 256 % 16 == b && n / 16 % 16 == c && n % 16 == d
  {
  }

  lemma HexOf(s: string) returns (upper: seq<bool>)
    requires Hex4(s).Some?
    ensures |upper| == 4 && Hex(Hex4(s).value.0, upper, Hex4(s).value.1) == s
  {
    hide Nibble, HexVal;
    var u0 := NibbleOf(s[0]);
    var u1 := NibbleOf(s[1]);
    var u2 := NibbleOf(s[2]);
    var u3 := NibbleOf(s[3]);
    upper := [u0, u1, u2, u3];
    HexParts(HexVal(s[0]).value, HexVal(s[1]).value, HexVal(s[2]).value, HexVal(s[3]).value);
    assert s == [s[0], s[1], s[2], s[3]] + s[4..];
  }

  lemma UnicodeOf(s: string) returns (p: Piece)
    requires UnicodeAt(s).Some?
    ensures LegalPiece(p) && Spell(p, UnicodeAt(s).value.1) == "\\u" + s && PieceBytes(p) == UnicodeAt(s).value.0
  {
    hide Hex4, Hex, Encode;
    var (cp, rest) := Hex4(s).value;
    var upper := HexOf(s);
    if HighSurrogate(cp) {
      var (lo, rest') := Hex4(rest[2..]).value;
      var lower := HexOf(rest[2..]);
      var all := 0x10000 + (cp - 0xD800) * 1024 + (lo - 0xDC00);
      p := Pair(all, upper + lower);
      assert (upper + lower)[..4] == upper && (upper + lower)[4..] == lower;
      PairParts(cp, lo);
      assert rest == "\\u" + rest[2..];
    } else {
      p := Code(cp, upper);
    }
  }

  lemma PairParts(hi: nat, lo: nat)
    requires HighSurrogate(hi) && LowSurrogate(lo)
    ensures var cp := 0x10000 + (hi - 0xD800) * 1024 + (lo - 0xDC00);
            0x10000 <= cp <= 0x10FFFF && High(cp) == hi && Low(cp) == lo
  {
  }

  lemma EscapeOf(s: string) returns (p: Piece)
    requires EscapeAt(s).Some?
    ensures LegalPiece(p) && Spell(p, EscapeAt(s).value.1) == "\\" + s && PieceBytes(p) == EscapeAt(s).value.0
  {
    hide UnicodeAt, Encode, Hex;
    assert s == [s[0]] + s[1..];
    if s[0] == 'u' {
      p := UnicodeOf(s[1..]);
      assert "\\u" + s[1..] == "\\" + s;
    } else {
      p := Short(s[0]);
      assert "\\" + ([s[0]] + s[1..]) == "\\" + s;
    }
  }

  lemma {:induction false} PiecesOf(s: string, size: nat, lim: Limits) returns (ps: seq<Piece>)
    requires CharsAt(s, size, lim).Some?
    ensures LegalPieces(ps) && Spelled(ps, "\"" + CharsAt(s, size, lim).value.1) == s && BytesOf(ps) == CharsAt(s, size, lim).value.0
    decreases |s|
  {
    hide EscapeAt, PieceBytes, Spell;
    ps := [];
    if s[0] == '"' {
      assert s == "\"" + s[1..];
    } else {
      CharsAtStep(s, size, lim);
      var p, rest := Raw(s[0]), s[1..];
      if s[0] == '\\' {
        p := EscapeOf(s[1..]);
        rest := EscapeAt(s[1..]).value.1;
        assert "\\" + s[1..] == s;
      } else {
        RawIs(s);
      }
      var more := PiecesOf(rest, size + |PieceBytes(p)|, lim);
      ps := [p] + more;
      assert ps[0] == p && ps[1..] == more;
    }
  }

  lemma RawIs(s: string)
    requires s != "" && s[0] >= ' ' && s[0] != '"' && s[0] != '\\'
    ensures LegalPiece(Raw(s[0])) && Spell(Raw(s[0]), s[1..]) == s && PieceBytes(Raw(s[0])) == [s[0]]
  {
    assert s == [s[0]] + s[1..];
  }

  lemma StringOf(s: string, lim: Limits) returns (ps: seq<Piece>)
    requires StringAt(s, lim).Some?
    ensures LegalPieces(ps) && Spelled(ps, "\"" + StringAt(s, lim).value.1) == s && BytesOf(ps) == StringAt(s, lim).value.0
  {
    ps := PiecesOf(s, 0, lim);
  }

  // ---- numbers --------------------------------------------------------------

  lemma {:induction false} RunIsDigits(s: string)
    ensures forall i :: 0 <= i < DigitRun(s) ==> '0' <= s[i] <= '9'
  {
    if s != "" && IsDigit(s[0]) {
      RunIsDigits(s[1..]);
      forall i | 0 <= i < DigitRun(s)
        ensures '0' <= s[i] <= '9'
      {
        if i > 0 {
          assert s[i] == s[1..][i - 1];
        }
      }
    }
  }

  lemma Cut(s: string, n: nat)
    requires n <= |s|
    ensures s == s[..n] + s[n..]
  {
  }

  lemma FractionOf(s: string) returns (f: Option<string>)
    requires FractionAt(s).Some?
    ensures (f.Some? ==> Digits(f.value)) && FractionPut(f, FractionAt(s).value) == s
    ensures f.None? <==> FractionAt(s).value == s
  {
    f := None;
    if s != "" && s[0] == '.' {
      var t := s[1..];
      RunIsDigits(t);
      f := Some(t[..DigitRun(t)]);
      Cut(t, DigitRun(t));
      assert s == "." + t && s[1 + DigitRun(t)..] == t[DigitRun(t)..];
      assert |FractionAt(s).value| < |s|;
    }
  }

  lemma SignOf(u: string) returns (sign: string)
    ensures u == sign + AfterSign(u) && sign in ["", "+", "-"]
  {
    sign := if u != "" && (u[0] == '+' || u[0] == '-') then [u[0]] else "";
    assert sign == "" || sign == "+" || sign == "-";
    assert u == sign + AfterSign(u);
  }

  lemma ExponentOf(s: string) returns (e: Option<Exponent>)
    requires ExponentAt(s).Some?
    ensures e.Some? ==> e.value.letter in "eE" && e.value.sign in ["", "+", "-"] && Digits(e.value.digits)
    ensures ExponentPut(e, ExponentAt(s).value) == s
    ensures e.None? <==> ExponentAt(s).value == s
  {
    hide AfterSign;
    e := None;
    if s != "" && (s[0] == 'e' || s[0] == 'E') {
      var t := AfterSign(s[1..]);
      var sign := SignOf(s[1..]);
      RunIsDigits(t);
      e := Some(Exponent(s[0], sign, t[..DigitRun(t)]));
      Cut(t, DigitRun(t));
      Cut(s, 1);
      assert s[..1] == [s[0]];
    }
  }

  lemma WholeOf(t: string)
    requires WholeDigits(t) > 0
    ensures var whole := t[..WholeDigits(t)]; Digits(whole) && (whole[0] == '0' ==> |whole| == 1)
  {
    RunIsDigits(t);
  }

  lemma NumeralOf(s: string) returns (n: Numeral)
    requires NumberAt(s).Some?
    ensures LegalNumeral(n) && NumeralPut(n, NumberAt(s).value.1) == s && NumeralValue(n) == NumberAt(s).value.0
  {
    hide WholeDigits, FractionAt, ExponentAt, FractionPut, ExponentPut, DecValue, Digits;
    var minus := s[0] == '-';
    var t := if minus then s[1..] else s;
    var k := WholeDigits(t);
    WholeOf(t);
    Cut(t, k);
    var f := FractionOf(t[k..]);
    var u := FractionAt(t[k..]).value;
    var e := ExponentOf(u);
    var rest := ExponentAt(u).value;
    n := Numeral(minus, t[..k], f, e);
    assert s == (if minus then "-" else "") + t;
    PutTail(n, rest);
    assert NumeralPut(n, rest) == s;
    assert s[..|s| - |rest|] == NumeralPut(n, "");
    NothingPut(f, e, rest);
  }

  // ---- values ---------------------------------------------------------------

  lemma LiteralIs(word: string, v: Value, s: string, nodes: nat)
    requires word != "" && LiteralAt(word, v, s, nodes).Some?
    ensures LiteralAt(word, v, s, nodes).value.0 == v && s == word + LiteralAt(word, v, s, nodes).value.1
  {
  }

  lemma {:induction false} DocOf(s: string, depth: nat, nodes: nat, lim: Limits) returns (d: Doc)
    requires ValueAt(s, depth, nodes, lim).Some?
    ensures var r := ValueAt(s, depth, nodes, lim).value; Legal(d) && Put(d, r.1) == s && ValueOf(d) == r.0
    decreases |s|, 2
  {
    hide ArrayAt, ObjectAt, StringAt, NumberAt, NumeralPut, NumeralValue, LiteralAt, PutItems, PutEntries, ItemValues, EntryValues, Spelled,
      BytesOf, LegalItems, LegalEntries;
    Cut(s, 1);
    assert s[..1] == [s[0]];
    if s[0] == '{' {
      d := RecordOf(s[1..], depth, nodes + 1, lim);
    } else if s[0] == '[' {
      d := ListOf(s[1..], depth, nodes + 1, lim);
    } else if s[0] == '"' {
      var ps := StringOf(s[1..], lim);
      d := Chars(ps);
    } else if s[0] == 't' {
      LiteralIs("true", Bool(true), s, nodes + 1);
      d := Truth(true);
    } else if s[0] == 'f' {
      LiteralIs("false", Bool(false), s, nodes + 1);
      d := Truth(false);
    } else if s[0] == 'n' {
      LiteralIs("null", Null, s, nodes + 1);
      d := Nil;
    } else {
      var n := NumeralOf(s);
      d := Figure(n);
    }
  }

  lemma {:induction false} ListOf(s: string, depth: nat, nodes: nat, lim: Limits) returns (d: Doc)
    requires ArrayAt(s, depth, nodes, lim).Some?
    ensures var r := ArrayAt(s, depth, nodes, lim).value; Legal(d) && Put(d, r.1) == "[" + s && ValueOf(d) == r.0
    decreases |s|, 4
  {
    hide ItemsAt, PutItems, ItemValues, LegalItems;
    var t := SkipSpace(s);
    var b := SkippedIsBlank(s);
    if t != "" && t[0] == ']' {
      Cut(t, 1);
      d := List(b, []);
      ListOfNothing(b, t[1..]);
      assert t[..1] == "]";
    } else {
      var items := ItemsOf(t, depth, nodes, lim);
      d := ListOfItems(b, items, s, ItemsAt(t, depth, nodes, lim).value.1);
    }
  }

  lemma ListOfNothing(b: string, rest: string)
    requires Blanks(b)
    ensures Legal(List(b, [])) && Put(List(b, []), rest) == "[" + (b + ("]" + rest)) && ValueOf(List(b, [])) == Arr([])
  {
  }

  /** White space in front of the first item is part of that item. */
  lemma ListOfItems(b: string, items: seq<Item>, s: string, rest: string) returns (d: Doc)
    requires Blanks(b) && items != [] && LegalItems(items) && s == b + PutItems(items, rest)
    ensures Legal(d) && Put(d, rest) == "[" + s && ValueOf(d) == Arr(ItemValues(items))
  {
    hide Put, Legal, ValueOf;
    var it := items[0];
    var first := it.(before := b + it.before);
    var all := [first] + items[1..];
    assert all[0] == first && all[1..] == items[1..] && |all| == |items|;
    d := List("", all);
    BlanksJoin(b, it.before);
    var tail := Put(it.doc, it.after + (if |items| == 1 then "]" + rest else "," + PutItems(items[1..], rest)));
    Assoc(b, it.before, tail);
    assert PutItems(all, rest) == s;
    ListIs(all, rest);
  }

  lemma ListIs(items: seq<Item>, rest: string)
    requires items != [] && LegalItems(items)
    ensures var d := List("", items); Legal(d) && Put(d, rest) == "[" + PutItems(items, rest) && ValueOf(d) == Arr(ItemValues(items))
  {
  }

  lemma BlanksJoin(a: string, b: string)
    requires Blanks(a) && Blanks(b)
    ensures Blanks(a + b)
  {
  }

  lemma {:induction false} ItemsOf(s: string, depth: nat, nodes: nat, lim: Limits) returns (items: seq<Item>)
    requires ItemsAt(s, depth, nodes, lim).Some?
    ensures var r := ItemsAt(s, depth, nodes, lim).value;
            items != [] && LegalItems(items) && PutItems(items, r.1) == s && ItemValues(items) == r.0
    decreases |s|, 3
  {
    hide ValueAt, Put, ValueOf, Legal, ItemsAt;
    var first := SkipSpace(s);
    ItemStep(s, first, depth, nodes, lim);
    var before := SkippedIsBlank(s);
    var (v, rest, nodes') := ValueAt(first, depth + 1, nodes, lim).value;
    var d := DocOf(first, depth + 1, nodes, lim);
    var after := SkippedIsBlank(rest);
    var t := SkipSpace(rest);
    var it := Item(before, d, after);
    Cut(t, 1);
    if t[0] == ',' {
      var more := ItemsOf(t[1..], depth, nodes', lim);
      items := [it] + more;
      assert items[0] == it && items[1..] == more && |items| > 1 && t[..1] == ",";
    } else {
      items := [it];
      assert items[1..] == [] && t[..1] == "]";
      assert ItemValues(items) == [v] + [] == [v];
    }
  }

  lemma {:induction false} RecordOf(s: string, depth: nat, nodes: nat, lim: Limits) returns (d: Doc)
    requires ObjectAt(s, depth, nodes, lim).Some?
    ensures var r := ObjectAt(s, depth, nodes, lim).value; Legal(d) && Put(d, r.1) == "{" + s && ValueOf(d) == r.0
    decreases |s|, 4
  {
    hide MembersAt, PutEntries, EntryValues, LegalEntries;
    var t := SkipSpace(s);
    var b := SkippedIsBlank(s);
    if t != "" && t[0] == '}' {
      Cut(t, 1);
      d := Record(b, []);
      RecordOfNothing(b, t[1..]);
      assert t[..1] == "}";
    } else {
      var es := EntriesOf(t, depth, nodes, lim);
      d := RecordOfEntries(b, es, s, MembersAt(t, depth, nodes, lim).value.1);
    }
  }

  lemma RecordOfNothing(b: string, rest: string)
    requires Blanks(b)
    ensures Legal(Record(b, [])) && Put(Record(b, []), rest) == "{" + (b + ("}" + rest)) && ValueOf(Record(b, [])) == Obj([])
  {
  }

  lemma RecordOfEntries(b: string, es: seq<Entry>, s: string, rest: string) returns (d: Doc)
    requires Blanks(b) && es != [] && LegalEntries(es) && s == b + PutEntries(es, rest)
    ensures Legal(d) && Put(d, rest) == "{" + s && ValueOf(d) == Obj(EntryValues(es))
  {
    hide Put, Legal, ValueOf, Spelled, BytesOf;
    var e := es[0];
    var first := e.(before := b + e.before);
    var all := [first] + es[1..];
    assert all[0] == first && all[1..] == es[1..] && |all| == |es|;
    d := Record("", all);
    BlanksJoin(b, e.before);
    var tail := "\"" + Spelled(e.name, "\"" + (e.colonBefore + (":" + (e.colonAfter + Put(e.doc,
                  e.after + (if |es| == 1 then "}" + rest else "," + PutEntries(es[1..], rest)))))));
    Assoc(b, e.before, tail);
    assert PutEntries(all, rest) == s;
    RecordIs(all, rest);
  }

  lemma RecordIs(es: seq<Entry>, rest: string)
    requires es != [] && LegalEntries(es)
    ensures var d := Record("", es); Legal(d) && Put(d, rest) == "{" + PutEntries(es, rest) && ValueOf(d) == Obj(EntryValues(es))
  {
  }

  lemma NameOf(s: string, lim: Limits) returns (before: string, name: seq<Piece>, colon: string)
    requires NameAt(s, lim).Some?
    ensures Blanks(before) && LegalPieces(name) && Blanks(colon) && BytesOf(name) == NameAt(s, lim).value.0
    ensures s == before + ("\"" + Spelled(name, "\"" + (colon + (":" + NameAt(s, lim).value.1))))
  {
    hide StringAt, Spelled, BytesOf;
    before := SkippedIsBlank(s);
    var t := SkipSpace(s);
    name := StringOf(t[1..], lim);
    var rest := StringAt(t[1..], lim).value.1;
    colon := SkippedIsBlank(rest);
    Cut(t, 1);
    Cut(SkipSpace(rest), 1);
    assert t[..1] == "\"" && SkipSpace(rest)[..1] == ":";
  }

  lemma {:induction false} EntriesOf(s: string, depth: nat, nodes: nat, lim: Limits) returns (es: seq<Entry>)
    requires MembersAt(s, depth, nodes, lim).Some?
    ensures var r := MembersAt(s, depth, nodes, lim).value;
            es != [] && LegalEntries(es) && PutEntries(es, r.1) == s && EntryValues(es) == r.0
    decreases |s|, 3
  {
    hide ValueAt, NameAt, Put, ValueOf, Legal, Spelled, BytesOf, MembersAt;
    EntryStep(s, depth, nodes, lim);
    var before, name, colon := NameOf(s, lim);
    var after := NameAt(s, lim).value.1;
    var gap := SkippedIsBlank(after);
    var (v, rest, nodes') := ValueAt(SkipSpace(after), depth + 1, nodes, lim).value;
    var d := DocOf(SkipSpace(after), depth + 1, nodes, lim);
    var behind := SkippedIsBlank(rest);
    var t := SkipSpace(rest);
    var e := Entry(before, name, colon, gap, d, behind);
    Cut(t, 1);
    if t[0] == ',' {
      var more := EntriesOf(t[1..], depth, nodes', lim);
      es := [e] + more;
      assert es[0] == e && es[1..] == more && |es| > 1 && t[..1] == ",";
    } else {
      es := [e];
      assert es[1..] == [] && t[..1] == "}";
      assert EntryValues(es) == [Member(BytesOf(name), v)] + [] == [Member(BytesOf(name), v)];
    }
  }

  // ---- the grammar ----------------------------------------------------------

  /** `s` writes `v` in some way that is within the limits. */
  ghost predicate Writes(s: string, v: Value, lim: Limits) {
    && Depth(v) <= lim.maxDepth && Count(v) <= lim.maxNodes
    && exists front, d, back :: LaidOut(s, v, front, d, back) && SpellingsFit(d, lim)
  }

  predicate LaidOut(s: string, v: Value, front: string, d: Doc, back: string) {
    Blanks(front) && Legal(d) && Blanks(back) && s == front + Put(d, back) && ValueOf(d) == v
  }

  /** Every layout and spelling of a value within the limits reads as the value. */
  lemma LayoutReads(front: string, d: Doc, back: string, lim: Limits)
    requires Blanks(front) && Legal(d) && Blanks(back)
    ensures var v := ValueOf(d);
            DocumentOf(front + Put(d, back), lim) ==
            if Depth(v) <= lim.maxDepth && Count(v) <= lim.maxNodes && SpellingsFit(d, lim) then Some(v) else None
  {
    hide ValueAt, Put, ValueOf, Legal, DocFits, SpellingsFit, Depth, Count;
    DocBegins(d, back);
    SkipsTo(front, Put(d, back));
    assert Ends(back);
    DocReads(d, back, 0, 0, lim);
    DocFitsMeans(d, 0, 0, lim);
    SkipsTo(back, "");
    assert back + "" == back;
  }

  /** The parser accepts a text with a value exactly when the text writes the value, in any layout and spelling. */
  lemma AcceptsExactly(s: string, v: Value, lim: Limits)
    ensures DocumentOf(s, lim) == Some(v) <==> Writes(s, v, lim)
  {
    hide ValueAt, Put, ValueOf, Legal, SpellingsFit, Depth, Count;
    if DocumentOf(s, lim) == Some(v) {
      var front := SkippedIsBlank(s);
      var d := DocOf(SkipSpace(s), 0, 0, lim);
      var back := ValueAt(SkipSpace(s), 0, 0, lim).value.1;
      var b := SkippedIsBlank(back);
      assert back == b + "" == b;
      LayoutReads(front, d, back, lim);
      assert LaidOut(s, v, front, d, back);
    }
    if Writes(s, v, lim) {
      var front, d, back :| LaidOut(s, v, front, d, back) && SpellingsFit(d, lim);
      LayoutReads(front, d, back, lim);
    }
  }

  /** A document may be spread over lines. */
  lemma LineBreaksAreAllowed(lim: Limits)
    requires lim.maxDepth >= 1 && lim.maxNodes >= 2
    ensures DocumentOf("[\n1]", lim) == Some(Arr([Int(1)]))
  {
    hide Put, ValueOf, Legal, DocumentOf, SpellingsFit;
    var n := Numeral(false, "1", None, None);
    OneItem(n, lim);
    LayoutReads("", List("", [Item("\n", Figure(n), "")]), "", lim);
    assert "" + "[\n1]" == "[\n1]";
  }

  lemma OneItem(n: Numeral, lim: Limits)
    requires n == Numeral(false, "1", None, None)
    ensures var d := List("", [Item("\n", Figure(n), "")]);
            && Legal(d) && Put(d, "") == "[\n1]" && ValueOf(d) == Arr([Int(1)])
            && Depth(ValueOf(d)) == 1 && Count(ValueOf(d)) == 2 && SpellingsFit(d, lim)
  {
    var it, rest := Item("\n", Figure(n), ""), "]" + "";
    OneFigure(n);
    assert Legal(Figure(n)) && Blanks("\n") && Blanks("") && [it][1..] == [];
    assert LegalItems([it][1..]) && ItemSpellingsFit([it][1..], lim);
    assert LegalItems([it]) && ItemSpellingsFit([it], lim);
    assert "" + rest == rest;
    assert PutItems([it], "") == "\n" + Put(Figure(n), "" + rest) == "\n" + "1]";
    assert ItemValues([it][1..]) == [];
    assert ItemValues([it]) == [Int(1)] + [] == [Int(1)];
    assert [Int(1)][1..] == [] && ItemsCount([]) == 0 && ItemsDepth([]) == 0;
    assert Put(List("", [it]), "") == "[" + ("\n" + "1]");
  }

  lemma OneFigure(n: Numeral)
    requires n == Numeral(false, "1", None, None)
    ensures LegalNumeral(n) && NumeralPut(n, "]" + "") == "1]" && NumeralValue(n) == Int(1)
  {
    assert "1"[..0] == "" && DecValue("") == 0;
    assert DecValue("1") == 1;
    assert NumeralPut(n, "]" + "") == "" + ("1" + ("]" + ""));
  }
}
