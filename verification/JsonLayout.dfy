/** JSON texts as they may be written (RFC 8259): any white space between the tokens, any spelling of each character of a
    string, any number; and the bounded parser of core/src/json.cpp reads each of them as what it spells. */
module JsonLayout {
  import opened Text
  import opened Utf8
  import opened Json
  import opened JsonReadBack

  // ---- spellings ----------------------------------------------------------

  /** A character of a string: as it is, with a short escape, by its code, or by two surrogate codes. */
  datatype Piece = Raw(c: char) | Short(letter: char) | Code(cp: nat, upper: seq<bool>) | Pair(cp: nat, upper: seq<bool>)

  predicate LegalPiece(p: Piece) {
    match p
    case Raw(c) => c >= ' ' && c != '"' && c != '\\'
    case Short(letter) => letter in "\"\\/bfnrt"
    case Code(cp, upper) => cp < 0x10000 && !(0xD800 <= cp <= 0xDFFF) && |upper| == 4
    case Pair(cp, upper) => 0x10000 <= cp <= 0x10FFFF && |upper| == 8
  }

  function Nibble(d: nat, upper: bool): char
    requires d < 16
  {
    if upper then "0123456789ABCDEF"[d] else "0123456789abcdef"[d]
  }

  /** Four hexadecimal digits in front of a text. */
  function Hex(n: nat, upper: seq<bool>, rest: string): string
    requires n < 0x10000 && |upper| == 4
  {
    [Nibble(n / 4096, upper[0]), Nibble(n / 256 % 16, upper[1]), Nibble(n / 16 % 16, upper[2]), Nibble(n % 16, upper[3])] + rest
  }

  function High(cp: nat): nat {
    0xD800 + (if cp >= 0x10000 then cp - 0x10000 else 0) / 0x400
  }

  function Low(cp: nat): nat {
    0xDC00 + (if cp >= 0x10000 then cp - 0x10000 else 0) % 0x400
  }

  /** A spelled character in front of a text. */
  function Spell(p: Piece, rest: string): string
    requires LegalPiece(p)
  {
    match p
    case Raw(c) => [c] + rest
    case Short(letter) => "\\" + ([letter] + rest)
    case Code(cp, upper) => "\\u" + Hex(cp, upper, rest)
    case Pair(cp, upper) =>
      HalvesAreSmall(cp);
      "\\u" + Hex(High(cp), upper[..4], "\\u" + Hex(Low(cp), upper[4..], rest))
  }

  lemma HalvesAreSmall(cp: nat)
    requires 0x10000 <= cp <= 0x10FFFF
    ensures 0xD800 <= High(cp) <= 0xDBFF && 0xDC00 <= Low(cp) <= 0xDFFF
    ensures 0x10000 + (High(cp) - 0xD800) * 1024 + (Low(cp) - 0xDC00) == cp
  {
  }

  /** The bytes that a spelled character stands for. */
  function PieceBytes(p: Piece): string
    requires LegalPiece(p)
  {
    match p
    case Raw(c) => [c]
    case Short(letter) =>
      if letter == 'b' then "\U{8}" else if letter == 'f' then "\U{c}" else if letter == 'n' then "\n"
      else if letter == 'r' then "\r" else if letter == 't' then "\t" else [letter]
    case Code(cp, _) => Encode(cp)
    case Pair(cp, _) => Encode(cp)
  }

  predicate LegalPieces(ps: seq<Piece>) {
    forall i :: 0 <= i < |ps| ==> LegalPiece(ps[i])
  }

  function Spelled(ps: seq<Piece>, rest: string): string
    requires LegalPieces(ps)
  {
    if ps == [] then rest else Spell(ps[0], Spelled(ps[1..], rest))
  }

  function BytesOf(ps: seq<Piece>): string
    requires LegalPieces(ps)
  {
    if ps == [] then "" else PieceBytes(ps[0]) + BytesOf(ps[1..])
  }

  // ---- numbers ------------------------------------------------------------

  predicate Digits(ds: string) {
    ds != "" && forall i :: 0 <= i < |ds| ==> '0' <= ds[i] <= '9'
  }

  /** A number (section 6): the fraction and the exponent may be missing. */
  datatype Numeral = Numeral(minus: bool, whole: string, fraction: Option<string>, exponent: Option<Exponent>)

  datatype Exponent = Exponent(letter: char, sign: string, digits: string)

  predicate LegalNumeral(n: Numeral) {
    && Digits(n.whole) && (n.whole[0] == '0' ==> |n.whole| == 1)
    && (n.fraction.Some? ==> Digits(n.fraction.value))
    && (n.exponent.Some? ==>
          && n.exponent.value.letter in "eE" && n.exponent.value.sign in ["", "+", "-"]
          && Digits(n.exponent.value.digits))
  }

  function ExponentPut(e: Option<Exponent>, rest: string): string {
    match e case None => rest case Some(x) => [x.letter] + (x.sign + (x.digits + rest))
  }

  function FractionPut(f: Option<string>, rest: string): string {
    match f case None => rest case Some(ds) => "." + (ds + rest)
  }

  function NumeralPut(n: Numeral, rest: string): string {
    (if n.minus then "-" else "") + (n.whole + FractionPut(n.fraction, ExponentPut(n.exponent, rest)))
  }

  /** An integer up to 2^53 is a number; anything else stays text. */
  function NumeralValue(n: Numeral): Value {
    var size: int := DecValue(n.whole);
    if n.fraction.None? && n.exponent.None? && size <= 0x20_0000_0000_0000 then Int(if n.minus then -size else size)
    else Real(NumeralPut(n, ""))
  }

  // ---- documents ----------------------------------------------------------

  /** White space of section 2. */
  predicate Blanks(b: string) {
    forall i :: 0 <= i < |b| ==> b[i] == ' ' || b[i] == '\t' || b[i] == '\n' || b[i] == '\r'
  }

  /** A written value. `gap` is the inside of an empty array or object. */
  datatype Doc =
    | Nil
    | Truth(b: bool)
    | Figure(n: Numeral)
    | Chars(ps: seq<Piece>)
    | List(gap: string, items: seq<Item>)
    | Record(gap: string, entries: seq<Entry>)

  datatype Item = Item(before: string, doc: Doc, after: string)

  datatype Entry = Entry(before: string, name: seq<Piece>, colonBefore: string, colonAfter: string, doc: Doc, after: string)

  predicate Legal(d: Doc) {
    match d
    case Nil => true
    case Truth(_) => true
    case Figure(n) => LegalNumeral(n)
    case Chars(ps) => LegalPieces(ps)
    case List(gap, items) => Blanks(gap) && LegalItems(items)
    case Record(gap, entries) => Blanks(gap) && LegalEntries(entries)
  }

  predicate LegalItems(items: seq<Item>) {
    items == [] || (Blanks(items[0].before) && Legal(items[0].doc) && Blanks(items[0].after) && LegalItems(items[1..]))
  }

  predicate LegalEntries(es: seq<Entry>) {
    es == [] ||
    (Blanks(es[0].before) && LegalPieces(es[0].name) && Blanks(es[0].colonBefore) && Blanks(es[0].colonAfter) && Legal(es[0].doc) &&
     Blanks(es[0].after) && LegalEntries(es[1..]))
  }

  /** A written value in front of a text. */
  function Put(d: Doc, rest: string): string
    requires Legal(d)
    decreases d, 1
  {
    match d
    case Nil => "null" + rest
    case Truth(b) => (if b then "true" else "false") + rest
    case Figure(n) => NumeralPut(n, rest)
    case Chars(ps) => "\"" + Spelled(ps, "\"" + rest)
    case List(gap, items) => "[" + (if items == [] then gap + ("]" + rest) else PutItems(items, rest))
    case Record(gap, entries) => "{" + (if entries == [] then gap + ("}" + rest) else PutEntries(entries, rest))
  }

  function PutItems(items: seq<Item>, rest: string): string
    requires LegalItems(items) && items != []
    decreases items, 0
  {
    var it := items[0];
    it.before + Put(it.doc, it.after + (if |items| == 1 then "]" + rest else "," + PutItems(items[1..], rest)))
  }

  function PutEntries(es: seq<Entry>, rest: string): string
    requires LegalEntries(es) && es != []
    decreases es, 0
  {
    var e := es[0];
    e.before + ("\"" + Spelled(e.name, "\"" + (e.colonBefore + (":" + (e.colonAfter + Put(e.doc,
      e.after + (if |es| == 1 then "}" + rest else "," + PutEntries(es[1..], rest))))))))
  }

  /** The value that is written. */
  function ValueOf(d: Doc): Value
    requires Legal(d)
    decreases d, 1
  {
    match d
    case Nil => Null
    case Truth(b) => Bool(b)
    case Figure(n) => NumeralValue(n)
    case Chars(ps) => Str(BytesOf(ps))
    case List(_, items) => Arr(ItemValues(items))
    case Record(_, entries) => Obj(EntryValues(entries))
  }

  function ItemValues(items: seq<Item>): seq<Value>
    requires LegalItems(items)
    decreases items, 0
  {
    if items == [] then [] else [ValueOf(items[0].doc)] + ItemValues(items[1..])
  }

  function EntryValues(es: seq<Entry>): seq<Member>
    requires LegalEntries(es)
    decreases es, 0
  {
    if es == [] then [] else [Member(BytesOf(es[0].name), ValueOf(es[0].doc))] + EntryValues(es[1..])
  }

  // ---- strings within the limit -------------------------------------------

  /** The bytes before the last character are within the limit, and all are valid UTF-8. */
  predicate SpellingFits(ps: seq<Piece>, lim: Limits)
    requires LegalPieces(ps)
  {
    Valid(BytesOf(ps)) && (ps == [] || |BytesOf(ps[..|ps| - 1])| <= lim.maxString)
  }

  predicate SpellingsFit(d: Doc, lim: Limits)
    requires Legal(d)
    decreases d, 1
  {
    match d
    case Chars(ps) => SpellingFits(ps, lim)
    case List(_, items) => ItemSpellingsFit(items, lim)
    case Record(_, entries) => EntrySpellingsFit(entries, lim)
    case _ => true
  }

  predicate ItemSpellingsFit(items: seq<Item>, lim: Limits)
    requires LegalItems(items)
    decreases items, 0
  {
    items == [] || (SpellingsFit(items[0].doc, lim) && ItemSpellingsFit(items[1..], lim))
  }

  predicate EntrySpellingsFit(es: seq<Entry>, lim: Limits)
    requires LegalEntries(es)
    decreases es, 0
  {
    es == [] || (SpellingFits(es[0].name, lim) && SpellingsFit(es[0].doc, lim) && EntrySpellingsFit(es[1..], lim))
  }

  // ---- reading white space ------------------------------------------------

  lemma {:induction false} BlanksSkipped(b: string, s: string)
    requires Blanks(b)
    ensures SkipSpace(b + s) == SkipSpace(s)
  {
    if b == "" {
      assert b + s == s;
    } else {
      assert (b + s)[0] == b[0] && (b + s)[1..] == b[1..] + s;
      BlanksSkipped(b[1..], s);
    }
  }

  predicate Begins(s: string) {
    s != "" && !IsBlankChar(s[0])
  }

  lemma SkipsTo(b: string, s: string)
    requires Blanks(b) && (s == "" || Begins(s))
    ensures SkipSpace(b + s) == s
  {
    BlanksSkipped(b, s);
  }

  lemma {:induction false} SkipTwice(s: string)
    ensures SkipSpace(SkipSpace(s)) == SkipSpace(s)
  {
    if s != "" && IsBlankChar(s[0]) {
      SkipTwice(s[1..]);
    }
  }

  // ---- reading strings ----------------------------------------------------

  lemma NibbleReads(d: nat, upper: bool)
    requires d < 16
    ensures HexVal(Nibble(d, upper)) == Some(d)
  {
    if d < 8 {
      if d == 0 {} else if d == 1 {} else if d == 2 {} else if d == 3 {} else if d == 4 {} else if d == 5 {} else if d == 6 {} else {}
    } else {
      if d == 8 {} else if d == 9 {} else if d == 10 {} else if d == 11 {} else if d == 12 {} else if d == 13 {} else if d == 14 {} else {}
    }
  }

  lemma HexAdds(n: nat)
    ensures ((n / 4096 * 16 + n / 256 % 16) * 16 + n / 16 % 16) * 16 + n % 16 == n
  {
    assert n / 4096 * 16 + n / 256 % 16 == n / 256;
    assert n / 256 * 16 + n / 16 % 16 == n / 16;
  }

  lemma HexReads(n: nat, upper: seq<bool>, rest: string)
    requires n < 0x10000 && |upper| == 4
    ensures Hex4(Hex(n, upper, rest)) == Some((n, rest))
  {
    hide Nibble, HexVal;
    NibbleReads(n / 4096, upper[0]);
    NibbleReads(n / 256 % 16, upper[1]);
    NibbleReads(n / 16 % 16, upper[2]);
    NibbleReads(n % 16, upper[3]);
    assert Hex(n, upper, rest)[4..] == rest;
    HexAdds(n);
  }

  lemma PairReads(cp: nat, upper: seq<bool>, rest: string)
    requires LegalPiece(Pair(cp, upper))
    ensures Spell(Pair(cp, upper), rest)[0] == '\\' && EscapeAt(Spell(Pair(cp, upper), rest)[1..]) == Some((Encode(cp), rest))
  {
    hide Hex, Hex4, Encode;
    HalvesAreSmall(cp);
    var low := Hex(Low(cp), upper[4..], rest);
    var high := Hex(High(cp), upper[..4], "\\u" + low);
    HexReads(Low(cp), upper[4..], rest);
    HexReads(High(cp), upper[..4], "\\u" + low);
    assert ("\\u" + low)[2..] == low;
    assert ("\\u" + high)[1..] == "u" + high && ("u" + high)[1..] == high;
  }

  lemma CodeReads(cp: nat, upper: seq<bool>, rest: string)
    requires LegalPiece(Code(cp, upper))
    ensures Spell(Code(cp, upper), rest)[0] == '\\' && EscapeAt(Spell(Code(cp, upper), rest)[1..]) == Some((Encode(cp), rest))
  {
    hide Hex, Hex4, Encode;
    var hex := Hex(cp, upper, rest);
    HexReads(cp, upper, rest);
    assert ("\\u" + hex)[1..] == "u" + hex && ("u" + hex)[1..] == hex;
  }

  /** Reading one spelled character. */
  lemma PieceReads(p: Piece, rest: string, size: nat, lim: Limits)
    requires LegalPiece(p)
    ensures CharsAt(Spell(p, rest), size, lim) ==
            if size > lim.maxString then None else Prefixed(PieceBytes(p), CharsAt(rest, size + |PieceBytes(p)|, lim))
  {
    hide CharsAt, Encode, Hex;
    var s := Spell(p, rest);
    CharsAtStep(s, size, lim) by {
      assert s[0] != '"';
    }
    match p
    case Raw(c) => assert s[1..] == rest;
    case Short(letter) => assert s[1..] == [letter] + rest && s[1..][1..] == rest;
    case Code(cp, upper) => CodeReads(cp, upper, rest);
    case Pair(cp, upper) => PairReads(cp, upper, rest);
  }

  predicate FitsFrom(ps: seq<Piece>, size: nat, lim: Limits)
    requires LegalPieces(ps)
  {
    ps == [] || (size <= lim.maxString && FitsFrom(ps[1..], size + |PieceBytes(ps[0])|, lim))
  }

  lemma {:induction false} FitsFromMeans(ps: seq<Piece>, size: nat, lim: Limits)
    requires LegalPieces(ps)
    ensures FitsFrom(ps, size, lim) <==> ps == [] || size + |BytesOf(ps[..|ps| - 1])| <= lim.maxString
  {
    hide PieceBytes;
    if |ps| == 1 {
      assert ps[..0] == [] && ps[1..] == [];
    } else if ps != [] {
      FitsFromMeans(ps[1..], size + |PieceBytes(ps[0])|, lim);
      var front := ps[..|ps| - 1];
      assert front[0] == ps[0] && front[1..] == ps[1..][..|ps| - 2];
    }
  }

  lemma {:induction false} PiecesRead(ps: seq<Piece>, rest: string, size: nat, lim: Limits)
    requires LegalPieces(ps)
    ensures CharsAt(Spelled(ps, "\"" + rest), size, lim) == if FitsFrom(ps, size, lim) then Some((BytesOf(ps), rest)) else None
    decreases |ps|
  {
    hide CharsAt, PieceBytes, Spell;
    if ps == [] {
      QuoteEnds("\"" + rest, size, lim);
      assert ("\"" + rest)[1..] == rest;
    } else {
      PieceReads(ps[0], Spelled(ps[1..], "\"" + rest), size, lim);
      PiecesRead(ps[1..], rest, size + |PieceBytes(ps[0])|, lim);
    }
  }

  /** A spelled string reads as its bytes exactly when they fit. */
  lemma SpellingReads(ps: seq<Piece>, rest: string, lim: Limits)
    requires LegalPieces(ps)
    ensures StringAt(Spelled(ps, "\"" + rest), lim) == if SpellingFits(ps, lim) then Some((BytesOf(ps), rest)) else None
  {
    hide CharsAt, Valid, BytesOf, FitsFrom, Spelled;
    PiecesRead(ps, rest, 0, lim);
    FitsFromMeans(ps, 0, lim);
  }

  // ---- reading numbers ----------------------------------------------------

  /** What may follow a value: the end, a comma, a closing bracket or white space. */
  predicate Ends(rest: string) {
    rest == "" || rest[0] in ",]} \t\n\r"
  }

  lemma {:induction false} RunOf(ds: string, rest: string)
    requires Digits(ds) || ds == ""
    requires rest == "" || !IsDigit(rest[0])
    ensures DigitRun(ds + rest) == |ds|
  {
    if ds == "" {
      assert ds + rest == rest;
    } else {
      assert (ds + rest)[0] == ds[0] && (ds + rest)[1..] == ds[1..] + rest;
      RunOf(ds[1..], rest);
    }
  }

  lemma ExponentReads(e: Option<Exponent>, rest: string)
    requires e.Some? ==> e.value.letter in "eE" && e.value.sign in ["", "+", "-"] && Digits(e.value.digits)
    requires Ends(rest)
    ensures ExponentAt(ExponentPut(e, rest)) == Some(rest)
    ensures var s := ExponentPut(e, rest); s == "" || (!IsDigit(s[0]) && s[0] != '.')
    ensures e.Some? ==> |ExponentPut(e, rest)| > |rest|
  {
    if e.Some? {
      var x := e.value;
      var s, t := ExponentPut(e, rest), x.digits + rest;
      assert s[1..] == x.sign + t;
      RunOf(x.digits, rest);
      assert t[0] == x.digits[0] && t[|x.digits|..] == rest;
      if x.sign == "" {
        assert x.sign + t == t;
      } else {
        assert (x.sign + t)[0] == x.sign[0] && (x.sign + t)[1..] == t;
      }
    }
  }

  lemma FractionReads(f: Option<string>, rest: string)
    requires f.Some? ==> Digits(f.value)
    requires rest == "" || (!IsDigit(rest[0]) && rest[0] != '.')
    ensures FractionAt(FractionPut(f, rest)) == Some(rest)
    ensures var s := FractionPut(f, rest); s == "" || !IsDigit(s[0])
    ensures f.Some? ==> |FractionPut(f, rest)| > |rest|
  {
    if f.Some? {
      var s := FractionPut(f, rest);
      assert s[1..] == f.value + rest;
      RunOf(f.value, rest);
      assert s[1 + |f.value|..] == rest;
    }
  }

  lemma WholeReads(whole: string, rest: string)
    requires Digits(whole) && (whole[0] == '0' ==> |whole| == 1) && (rest == "" || !IsDigit(rest[0]))
    ensures WholeDigits(whole + rest) == |whole| && (whole + rest)[..|whole|] == whole && (whole + rest)[|whole|..] == rest
  {
    RunOf(whole, rest);
    assert (whole + rest)[0] == whole[0];
  }

  lemma {:induction false} PutTail(n: Numeral, rest: string)
    ensures NumeralPut(n, rest) == NumeralPut(n, "") + rest
  {
    ExponentTail(n.exponent, rest);
    FractionTail(n.fraction, ExponentPut(n.exponent, ""), rest);
    var tail := FractionPut(n.fraction, ExponentPut(n.exponent, ""));
    Assoc(n.whole, tail, rest);
    Assoc(if n.minus then "-" else "", n.whole + tail, rest);
  }

  lemma ExponentTail(e: Option<Exponent>, rest: string)
    ensures ExponentPut(e, rest) == ExponentPut(e, "") + rest
  {
    if e.Some? {
      var x := e.value;
      assert x.digits + "" == x.digits;
      Assoc(x.sign, x.digits, rest);
      Assoc([x.letter], x.sign + x.digits, rest);
    } else {
      assert "" + rest == rest;
    }
  }

  lemma FractionTail(f: Option<string>, tail: string, rest: string)
    ensures FractionPut(f, tail + rest) == FractionPut(f, tail) + rest
  {
    if f.Some? {
      Assoc(f.value, tail, rest);
      Assoc(".", f.value + tail, rest);
    }
  }

  /** A written number reads as its value. */
  lemma NumeralReads(n: Numeral, rest: string)
    requires LegalNumeral(n) && Ends(rest)
    ensures NumberAt(NumeralPut(n, rest)) == Some((NumeralValue(n), rest))
    ensures var s := NumeralPut(n, rest); s[0] == '-' || IsDigit(s[0])
  {
    hide ExponentAt, FractionAt, WholeDigits, ExponentPut, FractionPut, DecValue;
    var u := ExponentPut(n.exponent, rest);
    var f := FractionPut(n.fraction, u);
    var s, t := NumeralPut(n, rest), n.whole + f;
    ExponentReads(n.exponent, rest);
    FractionReads(n.fraction, u);
    WholeReads(n.whole, f);
    NothingPut(n.fraction, n.exponent, rest);
    assert t[0] == n.whole[0];
    if n.minus {
      assert s == "-" + t && s[0] == '-' && s[1..] == t;
    } else {
      assert s == t;
    }
    PutTail(n, rest);
    assert s[..|s| - |rest|] == NumeralPut(n, "");
  }

  lemma NothingPut(f: Option<string>, e: Option<Exponent>, rest: string)
    ensures f.None? && e.None? ==> FractionPut(f, ExponentPut(e, rest)) == rest
    ensures f.Some? || e.Some? ==> FractionPut(f, ExponentPut(e, rest)) != rest
  {
    var s := FractionPut(f, ExponentPut(e, rest));
    assert |s| >= |rest|;
    if f.Some? || e.Some? {
      assert |s| > |rest|;
    }
  }

  // ---- reading values -----------------------------------------------------

  lemma DocBegins(d: Doc, rest: string)
    requires Legal(d)
    ensures Begins(Put(d, rest)) && Put(d, rest)[0] != ']' && Put(d, rest)[0] != '}'
  {
    hide Spelled, PutItems, PutEntries, FractionPut, ExponentPut;
    if d.Figure? {
      var s := Put(d, rest);
      assert s[0] == '-' || s[0] == d.n.whole[0];
    }
  }

  /** The limits as the parser meets them. */
  predicate DocFits(d: Doc, depth: nat, nodes: nat, lim: Limits)
    requires Legal(d)
    decreases d, 1
  {
    && depth <= lim.maxDepth && nodes + 1 <= lim.maxNodes
    && match d
       case Chars(ps) => SpellingFits(ps, lim)
       case List(_, items) => ItemDocsFit(items, depth, nodes + 1, lim)
       case Record(_, entries) => EntryDocsFit(entries, depth, nodes + 1, lim)
       case _ => true
  }

  predicate ItemDocsFit(items: seq<Item>, depth: nat, nodes: nat, lim: Limits)
    requires LegalItems(items)
    decreases items, 0
  {
    items == [] ||
    (DocFits(items[0].doc, depth + 1, nodes, lim) && ItemDocsFit(items[1..], depth, nodes + Count(ValueOf(items[0].doc)), lim))
  }

  predicate EntryDocsFit(es: seq<Entry>, depth: nat, nodes: nat, lim: Limits)
    requires LegalEntries(es)
    decreases es, 0
  {
    es == [] ||
    (SpellingFits(es[0].name, lim) && DocFits(es[0].doc, depth + 1, nodes, lim) &&
     EntryDocsFit(es[1..], depth, nodes + Count(ValueOf(es[0].doc)), lim))
  }

  lemma {:induction false} DocFitsMeans(d: Doc, depth: nat, nodes: nat, lim: Limits)
    requires Legal(d)
    ensures DocFits(d, depth, nodes, lim) <==>
            depth + Depth(ValueOf(d)) <= lim.maxDepth && nodes + Count(ValueOf(d)) <= lim.maxNodes && SpellingsFit(d, lim)
    decreases d, 1
  {
    hide SpellingFits, NumeralValue, BytesOf;
    if depth <= lim.maxDepth && nodes + 1 <= lim.maxNodes {
      match d
      case List(_, items) => ItemDocsFitMeans(items, depth, nodes + 1, lim);
      case Record(_, entries) => EntryDocsFitMeans(entries, depth, nodes + 1, lim);
      case Figure(n) => FigureIsFlat(n);
      case _ =>
    }
  }

  lemma FigureIsFlat(n: Numeral)
    ensures Depth(NumeralValue(n)) == 0 && Count(NumeralValue(n)) == 1
  {
  }

  lemma {:induction false} ItemDocsFitMeans(items: seq<Item>, depth: nat, nodes: nat, lim: Limits)
    requires LegalItems(items) && depth <= lim.maxDepth && nodes <= lim.maxNodes
    ensures var vs := ItemValues(items);
            ItemDocsFit(items, depth, nodes, lim) <==>
            depth + ItemsDepth(vs) <= lim.maxDepth && nodes + ItemsCount(vs) <= lim.maxNodes && ItemSpellingsFit(items, lim)
    decreases items, 0
  {
    hide DocFits, Depth, Count, SpellingsFit, ValueOf;
    if items != [] {
      var v, vs := ValueOf(items[0].doc), ItemValues(items[1..]);
      assert ([v] + vs)[1..] == vs;
      DocFitsMeans(items[0].doc, depth + 1, nodes, lim);
      if nodes + Count(v) <= lim.maxNodes {
        ItemDocsFitMeans(items[1..], depth, nodes + Count(v), lim);
      }
    }
  }

  lemma {:induction false} EntryDocsFitMeans(es: seq<Entry>, depth: nat, nodes: nat, lim: Limits)
    requires LegalEntries(es) && depth <= lim.maxDepth && nodes <= lim.maxNodes
    ensures var ms := EntryValues(es);
            EntryDocsFit(es, depth, nodes, lim) <==>
            depth + MembersDepth(ms) <= lim.maxDepth && nodes + MembersCount(ms) <= lim.maxNodes && EntrySpellingsFit(es, lim)
    decreases es, 0
  {
    hide DocFits, Depth, Count, SpellingsFit, ValueOf, SpellingFits, BytesOf;
    if es != [] {
      var m, ms := Member(BytesOf(es[0].name), ValueOf(es[0].doc)), EntryValues(es[1..]);
      assert ([m] + ms)[1..] == ms;
      DocFitsMeans(es[0].doc, depth + 1, nodes, lim);
      if nodes + Count(m.value) <= lim.maxNodes {
        EntryDocsFitMeans(es[1..], depth, nodes + Count(m.value), lim);
      }
    }
  }

  lemma ItemStep(s: string, first: string, depth: nat, nodes: nat, lim: Limits)
    requires SkipSpace(s) == first
    ensures ItemsAt(s, depth, nodes, lim) ==
            match ValueAt(first, depth + 1, nodes, lim)
            case None => None
            case Some((item, rest, nodes')) =>
              var t := SkipSpace(rest);
              if t != "" && t[0] == ',' then
                match ItemsAt(t[1..], depth, nodes', lim)
                case None => None
                case Some((more, rest', nodes'')) => Some(([item] + more, rest', nodes''))
              else if t != "" && t[0] == ']' then Some(([item], t[1..], nodes'))
              else None
  {
    hide ValueAt;
  }

  /** What follows a value in a list of values. */
  lemma AfterDoc(after: string, next: string)
    requires Blanks(after) && Begins(next) && next[0] in ",]}"
    ensures Ends(after + next) && SkipSpace(after + next) == next
  {
    SkipsTo(after, next);
    if after == "" {
      assert after + next == next;
    } else {
      assert (after + next)[0] == after[0];
    }
  }

  lemma ListEnds(close: char, rest: string)
    requires close in ",]}"
    ensures Begins([close] + rest) && ([close] + rest)[0] == close && ([close] + rest)[1..] == rest
  {
  }

  lemma {:induction false} DocReads(d: Doc, rest: string, depth: nat, nodes: nat, lim: Limits)
    requires Legal(d) && Ends(rest)
    ensures ValueAt(Put(d, rest), depth, nodes, lim) ==
            if DocFits(d, depth, nodes, lim) then Some((ValueOf(d), rest, nodes + Count(ValueOf(d)))) else None
    decreases d, 2
  {
    hide PutItems, PutEntries, NumeralPut, NumeralValue, NumberAt, ArrayAt, ObjectAt, StringAt, SpellingFits, LiteralAt, ItemDocsFit,
      EntryDocsFit, LegalItems, LegalEntries, Spelled, BytesOf, ItemValues, EntryValues;
    match d {
      case Nil => LiteralReadsBack("null", Null, rest, nodes + 1);
      case Truth(b) =>
        LiteralReadsBack("true", Bool(true), rest, nodes + 1);
        LiteralReadsBack("false", Bool(false), rest, nodes + 1);
      case Figure(n) =>
        NumeralReads(n, rest);
        FigureIsFlat(n);
      case Chars(ps) =>
        SpellingReads(ps, rest, lim);
        assert ("\"" + Spelled(ps, "\"" + rest))[1..] == Spelled(ps, "\"" + rest);
      case List(gap, items) =>
        var inner := Put(d, rest)[1..];
        ListReads(gap, items, inner, rest, depth, nodes + 1, lim);
      case Record(gap, entries) =>
        var inner := Put(d, rest)[1..];
        RecordReads(gap, entries, inner, rest, depth, nodes + 1, lim);
    }
  }

  lemma {:induction false} ListReads(gap: string, items: seq<Item>, inner: string, rest: string, depth: nat, nodes: nat, lim: Limits)
    requires Blanks(gap) && LegalItems(items)
    requires inner == if items == [] then gap + ("]" + rest) else PutItems(items, rest)
    ensures ArrayAt(inner, depth, nodes, lim) ==
            if ItemDocsFit(items, depth, nodes, lim) then Some((Arr(ItemValues(items)), rest, nodes + ItemsCount(ItemValues(items))))
            else None
    decreases items, 1
  {
    hide ItemsAt, Put, DocFits, Count, ValueOf, Legal;
    ListEnds(']', rest);
    if items == [] {
      SkipsTo(gap, "]" + rest);
    } else {
      ItemsRead(items, rest, depth, nodes, lim);
      ItemsBegin(items, rest);
      ItemsAnyway(inner, depth, nodes, lim);
    }
  }

  lemma ItemsAnyway(s: string, depth: nat, nodes: nat, lim: Limits)
    ensures ItemsAt(SkipSpace(s), depth, nodes, lim) == ItemsAt(s, depth, nodes, lim)
  {
    hide ValueAt;
    SkipTwice(s);
    ItemStep(s, SkipSpace(s), depth, nodes, lim);
    ItemStep(SkipSpace(s), SkipSpace(s), depth, nodes, lim);
  }

  lemma ItemsBegin(items: seq<Item>, rest: string)
    requires items != [] && LegalItems(items)
    ensures var t := SkipSpace(PutItems(items, rest)); t != "" && t[0] != ']'
  {
    hide Put, Legal;
    var it := items[0];
    var tail := Put(it.doc, it.after + (if |items| == 1 then "]" + rest else "," + PutItems(items[1..], rest)));
    DocBegins(it.doc, it.after + (if |items| == 1 then "]" + rest else "," + PutItems(items[1..], rest)));
    SkipsTo(it.before, tail);
  }

  lemma {:induction false} ItemsRead(items: seq<Item>, rest: string, depth: nat, nodes: nat, lim: Limits)
    requires items != [] && LegalItems(items)
    ensures ItemsAt(PutItems(items, rest), depth, nodes, lim) ==
            if ItemDocsFit(items, depth, nodes, lim) then Some((ItemValues(items), rest, nodes + ItemsCount(ItemValues(items)))) else None
    decreases items, 0
  {
    hide ItemsAt, ValueAt, Put, DocFits, Count, ValueOf, Legal;
    var it := items[0];
    var next := if |items| == 1 then "]" + rest else "," + PutItems(items[1..], rest);
    ListEnds(']', rest);
    if |items| > 1 {
      ListEnds(',', PutItems(items[1..], rest));
    } else {
      assert items[1..] == [];
    }
    AfterDoc(it.after, next);
    DocBegins(it.doc, it.after + next);
    SkipsTo(it.before, Put(it.doc, it.after + next));
    ItemStep(PutItems(items, rest), Put(it.doc, it.after + next), depth, nodes, lim);
    DocReads(it.doc, it.after + next, depth + 1, nodes, lim);
    var v := ValueOf(it.doc);
    assert ItemsCount([v] + ItemValues(items[1..])) == Count(v) + ItemsCount(ItemValues(items[1..])) by {
      assert ([v] + ItemValues(items[1..]))[1..] == ItemValues(items[1..]);
    }
    if |items| > 1 {
      ItemsRead(items[1..], rest, depth, nodes + Count(v), lim);
    } else {
      assert ItemValues(items[1..]) == [] && ItemValues(items) == [v] + [] == [v];
      assert ItemDocsFit(items[1..], depth, nodes + Count(v), lim);
    }
  }

  // ---- objects ------------------------------------------------------------

  /** A member, from its value on. */
  lemma EntryStep(s: string, depth: nat, nodes: nat, lim: Limits)
    ensures MembersAt(s, depth, nodes, lim) ==
            match NameAt(s, lim)
            case None => None
            case Some((name, after)) =>
              match ValueAt(SkipSpace(after), depth + 1, nodes, lim)
              case None => None
              case Some((value, rest, nodes')) =>
                var t := SkipSpace(rest);
                if t != "" && t[0] == ',' then
                  match MembersAt(t[1..], depth, nodes', lim)
                  case None => None
                  case Some((more, rest', nodes'')) => Some(([Member(name, value)] + more, rest', nodes''))
                else if t != "" && t[0] == '}' then Some(([Member(name, value)], t[1..], nodes'))
                else None
  {
    hide ValueAt, NameAt;
  }

  lemma NameReads(e: Entry, after: string, lim: Limits)
    requires Blanks(e.before) && LegalPieces(e.name) && Blanks(e.colonBefore)
    ensures NameAt(e.before + ("\"" + Spelled(e.name, "\"" + (e.colonBefore + (":" + after)))), lim) ==
            if SpellingFits(e.name, lim) then Some((BytesOf(e.name), after)) else None
  {
    hide StringAt, Spelled, SpellingFits, BytesOf;
    var rest := e.colonBefore + (":" + after);
    var t := "\"" + Spelled(e.name, "\"" + rest);
    SkipsTo(e.before, t);
    assert t[0] == '"' && t[1..] == Spelled(e.name, "\"" + rest);
    SpellingReads(e.name, rest, lim);
    assert (":" + after)[0] == ':' && (":" + after)[1..] == after;
    SkipsTo(e.colonBefore, ":" + after);
  }

  lemma EntriesAnyway(s: string, depth: nat, nodes: nat, lim: Limits)
    ensures MembersAt(SkipSpace(s), depth, nodes, lim) == MembersAt(s, depth, nodes, lim)
  {
    hide ValueAt, NameAt;
    EntryStep(s, depth, nodes, lim);
    EntryStep(SkipSpace(s), depth, nodes, lim);
    NameAnyway(s, lim);
  }

  lemma NameAnyway(s: string, lim: Limits)
    ensures NameAt(SkipSpace(s), lim) == NameAt(s, lim)
  {
    hide StringAt;
    SkipTwice(s);
  }

  lemma EntriesBegin(es: seq<Entry>, rest: string)
    requires es != [] && LegalEntries(es)
    ensures var t := SkipSpace(PutEntries(es, rest)); t != "" && t[0] == '"'
  {
    hide Put, Legal, Spelled;
    var tail := PutEntries(es, rest)[|es[0].before|..];
    assert PutEntries(es, rest) == es[0].before + tail;
    SkipsTo(es[0].before, tail);
  }

  lemma {:induction false} RecordReads(gap: string, es: seq<Entry>, inner: string, rest: string, depth: nat, nodes: nat, lim: Limits)
    requires Blanks(gap) && LegalEntries(es)
    requires inner == if es == [] then gap + ("}" + rest) else PutEntries(es, rest)
    ensures ObjectAt(inner, depth, nodes, lim) ==
            if EntryDocsFit(es, depth, nodes, lim) then Some((Obj(EntryValues(es)), rest, nodes + MembersCount(EntryValues(es))))
            else None
    decreases es, 1
  {
    hide MembersAt, Put, DocFits, Count, ValueOf, Legal, SpellingFits, BytesOf;
    ListEnds('}', rest);
    if es == [] {
      SkipsTo(gap, "}" + rest);
    } else {
      EntriesRead(es, rest, depth, nodes, lim);
      EntriesBegin(es, rest);
      EntriesAnyway(inner, depth, nodes, lim);
    }
  }

  lemma {:induction false} EntriesRead(es: seq<Entry>, rest: string, depth: nat, nodes: nat, lim: Limits)
    requires es != [] && LegalEntries(es)
    ensures MembersAt(PutEntries(es, rest), depth, nodes, lim) ==
            if EntryDocsFit(es, depth, nodes, lim) then Some((EntryValues(es), rest, nodes + MembersCount(EntryValues(es)))) else None
    decreases es, 0
  {
    hide MembersAt, ValueAt, NameAt, Put, DocFits, Count, ValueOf, Legal, SpellingFits, BytesOf, Spelled;
    var e := es[0];
    var next := if |es| == 1 then "}" + rest else "," + PutEntries(es[1..], rest);
    ListEnds('}', rest);
    if |es| > 1 {
      ListEnds(',', PutEntries(es[1..], rest));
    } else {
      assert es[1..] == [];
    }
    var written := Put(e.doc, e.after + next);
    AfterDoc(e.after, next);
    DocBegins(e.doc, e.after + next);
    SkipsTo(e.colonAfter, written);
    NameReads(e, e.colonAfter + written, lim);
    EntryStep(PutEntries(es, rest), depth, nodes, lim);
    DocReads(e.doc, e.after + next, depth + 1, nodes, lim);
    var m := Member(BytesOf(e.name), ValueOf(e.doc));
    assert MembersCount([m] + EntryValues(es[1..])) == Count(m.value) + MembersCount(EntryValues(es[1..])) by {
      assert ([m] + EntryValues(es[1..]))[1..] == EntryValues(es[1..]);
    }
    if |es| > 1 {
      EntriesRead(es[1..], rest, depth, nodes + Count(m.value), lim);
    } else {
      assert EntryValues(es[1..]) == [] && EntryValues(es) == [m] + [] == [m];
      assert EntryDocsFit(es[1..], depth, nodes + Count(m.value), lim);
    }
  }
}
