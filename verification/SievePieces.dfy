/** How the Sieve lexer reads the pieces that the script writer prints: words, numbers, tags, signs,
    quoted strings and dot-stuffed blocks, each with what follows it, and how the readings of pieces
    printed one after the other join. */
module SievePieces {
  import opened Text
  import opened SieveLex
  import opened SieveRules

  /** The tokens read so far in front of what the rest yields. */
  function After(tokens: seq<Token>, rest: Option<seq<Token>>): Option<seq<Token>> {
    match rest
    case None => None
    case Some(more) => Some(tokens + more)
  }

  /** A character that ends any word, tag or number. */
  predicate Boundary(c: char) {
    !IsTagChar(c) && c != ':'
  }

  predicate Follows(open: bool, rest: string) {
    open ==> rest != "" && Boundary(rest[0])
  }

  /** In front of any text, or of any that starts at a boundary when `open`, `text` lexes to `tokens`. */
  ghost predicate Lexes(text: string, tokens: seq<Token>, open: bool) {
    forall rest: string :: Follows(open, rest) ==> Lex(text + rest) == After(tokens, Lex(rest))
  }

  lemma Apply(text: string, tokens: seq<Token>, open: bool, rest: string)
    requires Lexes(text, tokens, open) && Follows(open, rest)
    ensures Lex(text + rest) == After(tokens, Lex(rest))
  {
  }

  /** Two pieces in a row lex to both token lists. */
  lemma Join(a: string, ta: seq<Token>, openA: bool, b: string, tb: seq<Token>, openB: bool)
    requires Lexes(a, ta, openA) && Lexes(b, tb, openB) && Follows(openA, b)
    ensures Lexes(a + b, ta + tb, openB)
  {
    hide Lex, Boundary;
    forall rest: string | Follows(openB, rest)
      ensures Lex((a + b) + rest) == After(ta + tb, Lex(rest))
    {
      Assoc(a, b, rest);
      assert b != "" ==> (b + rest)[0] == b[0];
      Apply(b, tb, openB, rest);
      Apply(a, ta, openA, b + rest);
      if Lex(rest).Some? {
        Assoc(ta, tb, Lex(rest).value);
      }
    }
  }

  // ---- white space and comments -------------------------------------------

  lemma SameAfterSkip(x: string, y: string)
    requires Skip(x) == Skip(y)
    ensures Lex(x) == Lex(y)
  {
    hide Skip, LexToken;
  }

  predicate AllSpace(s: string) {
    s == "" || (IsSpace(s[0]) && AllSpace(s[1..]))
  }

  lemma {:induction false} SkipSpaces(g: string, rest: string)
    requires AllSpace(g)
    ensures Skip(g + rest) == Skip(rest)
  {
    if g == "" {
      assert g + rest == rest;
    } else {
      assert (g + rest)[0] == g[0] && (g + rest)[1..] == g[1..] + rest;
      SkipSpaces(g[1..], rest);
    }
  }

  lemma LexesSpace(g: string)
    requires AllSpace(g)
    ensures Lexes(g, [], false)
  {
    forall rest: string
      ensures Lex(g + rest) == After([], Lex(rest))
    {
      SkipSpaces(g, rest);
      SameAfterSkip(g + rest, rest);
      if Lex(rest).Some? {
        assert [] + Lex(rest).value == Lex(rest).value;
      }
    }
  }

  lemma SkipCommentLine(c: string, rest: string)
    requires NoNewline(c) && c != "" && c[0] == '#'
    ensures Skip((c + "\n") + rest) == Skip(rest)
  {
    var s := (c + "\n") + rest;
    assert s[|c|] == '\n' && forall i :: 0 <= i < |c| ==> s[i] == c[i];
    assert IndexOf(s, '\n', 1) == |c|;
    assert s[|c|..] == "\n" + rest;
    assert Skip(s) == Skip(s[|c|..]);
    SkipSpaces("\n", rest);
  }

  lemma LexesComment(c: string)
    requires NoNewline(c) && c != "" && c[0] == '#'
    ensures Lexes(c + "\n", [], false)
  {
    hide Lex, Skip;
    forall rest: string
      ensures Lex((c + "\n") + rest) == After([], Lex(rest))
    {
      SkipCommentLine(c, rest);
      SameAfterSkip((c + "\n") + rest, rest);
      if Lex(rest).Some? {
        assert [] + Lex(rest).value == Lex(rest).value;
      }
    }
  }

  // ---- tokens -------------------------------------------------------------

  lemma LexesToken(text: string, t: Token, rest: string)
    requires text != "" && Skip(text + rest) == text + rest && LexToken(text + rest) == Some((t, rest))
    ensures Lex(text + rest) == After([t], Lex(rest))
  {
    hide LexToken, Skip;
  }

  lemma LexesSign(c: char)
    requires Punct(c).Some?
    ensures Lexes([c], [Punct(c).value], false)
  {
    hide LexToken, Skip, Lex;
    forall rest: string
      ensures Lex([c] + rest) == After([Punct(c).value], Lex(rest))
    {
      SignReadsBack(c, rest);
      LexesToken([c], Punct(c).value, rest);
    }
  }

  lemma SignReadsBack(c: char, rest: string)
    requires Punct(c).Some?
    ensures Skip([c] + rest) == [c] + rest && LexToken([c] + rest) == Some((Punct(c).value, rest))
  {
    hide Quoted, LexTag, LexNumber, LexWord;
    var s := [c] + rest;
    assert s[0] == c && s[1..] == rest;
  }

  predicate LowerName(w: string) {
    w == "" || (('a' <= w[0] <= 'z' || IsDigit(w[0])) && LowerName(w[1..]))
  }

  lemma {:induction false} LowerLetters(w: string)
    requires forall i :: 0 <= i < |w| ==> 'a' <= w[i] <= 'z' || IsDigit(w[i])
    ensures LowerName(w)
  {
    if w != "" {
      LowerLetters(w[1..]);
    }
  }

  lemma {:induction false} LowerNameFacts(w: string)
    requires LowerName(w)
    ensures ToLower(w) == w && Span(Names, w) == |w| && Span(Tags, w) == |w|
  {
    if w != "" {
      LowerNameFacts(w[1..]);
      assert w == [w[0]] + w[1..];
    }
  }

  lemma {:induction false} SpanJoins(k: Class, w: string, rest: string)
    requires Span(k, w) == |w| && (rest != "" ==> !Within(k, rest[0]))
    ensures Span(k, w + rest) == |w|
  {
    if w == "" {
      assert w + rest == rest;
    } else {
      assert (w + rest)[0] == w[0] && (w + rest)[1..] == w[1..] + rest;
      SpanJoins(k, w[1..], rest);
    }
  }

  lemma WordReadsBack(w: string, rest: string)
    requires LowerName(w) && w != "" && !IsDigit(w[0]) && w != "text" && Follows(true, rest)
    ensures Skip(w + rest) == w + rest && LexToken(w + rest) == Some((Ident(w), rest))
  {
    hide LexWord, ToLower, Span, Boundary, LowerName, BlockToken;
    LowerNameFacts(w);
    BoundaryFacts(rest[0]);
    SpanJoins(Names, w, rest);
    var s := w + rest;
    LowerNameHead(w);
    assert s[0] == w[0] && s[0..] == s && s[0..|w|] == w && s[|w|..] == rest;
    WordToken(s, 0, |w|, w);
  }

  lemma LowerNameHead(w: string)
    requires LowerName(w) && w != ""
    ensures ('a' <= w[0] <= 'z' || IsDigit(w[0])) && Punct(w[0]).None?
  {
  }

  lemma BoundaryFacts(c: char)
    requires Boundary(c)
    ensures !Within(Names, c) && !Within(Tags, c) && !Within(Digits, c)
  {
  }

  lemma LexesWord(w: string)
    requires LowerName(w) && w != "" && !IsDigit(w[0]) && w != "text"
    ensures Lexes(w, [Ident(w)], true)
  {
    hide LexToken, Skip, LowerName, Lex;
    forall rest: string | Follows(true, rest)
      ensures Lex(w + rest) == After([Ident(w)], Lex(rest))
    {
      WordReadsBack(w, rest);
      LexesToken(w, Ident(w), rest);
    }
  }

  lemma TagReadsBack(w: string, rest: string)
    requires LowerName(w) && w != "" && Follows(true, rest)
    ensures Skip((":" + w) + rest) == (":" + w) + rest && LexToken((":" + w) + rest) == Some((Tag(w), rest))
  {
    hide ToLower, Span, Boundary, LowerName;
    LowerNameFacts(w);
    BoundaryFacts(rest[0]);
    SpanJoins(Tags, w, rest);
    var s := (":" + w) + rest;
    assert s[0] == ':' && s[1..] == w + rest && s[1..|w| + 1] == w && s[|w| + 1..] == rest;
    assert Span(Tags, s[1..]) == Span(Tags, w + rest);
    assert ToLower(s[1..|w| + 1]) == ToLower(w);
    assert LexTag(s) == Some((Tag(w), rest));
  }

  lemma LexesTag(w: string)
    requires LowerName(w) && w != ""
    ensures Lexes(":" + w, [Tag(w)], true)
  {
    hide LexToken, Skip, LowerName, Lex;
    forall rest: string | Follows(true, rest)
      ensures Lex((":" + w) + rest) == After([Tag(w)], Lex(rest))
    {
      TagReadsBack(w, rest);
      LexesToken(":" + w, Tag(w), rest);
    }
  }

  lemma NumFacts(n: nat)
    ensures Span(Digits, Num(n)) == |Num(n)| && DecValue(Num(n)) == n
  {
    NumValue(n);
    AllDigitsSpan(Num(n));
  }

  lemma {:induction false} AllDigitsSpan(s: string)
    requires forall i :: 0 <= i < |s| ==> IsDigit(s[i])
    ensures Span(Digits, s) == |s|
  {
    if s != "" {
      AllDigitsSpan(s[1..]);
    }
  }

  lemma NumberReadsBack(n: nat, rest: string)
    requires Follows(true, rest)
    ensures Num(n) != "" && Skip(Num(n) + rest) == Num(n) + rest && LexToken(Num(n) + rest) == Some((Number(n), rest))
  {
    hide Num, Span, Boundary, DecValue, Scale;
    NumFacts(n);
    BoundaryFacts(rest[0]);
    var w := Num(n);
    SpanJoins(Digits, w, rest);
    var s := w + rest;
    assert IsDigit(w[0]) && s[0] == w[0] && s[..|w|] == w && s[|w|..] == rest;
    assert DecValue(s[..|w|]) == DecValue(w);
    ScaleAtBoundary(rest);
    assert Scale(s[|w|..]) == Scale(rest);
    NumberToken(s, |w|, rest, n);
  }

  lemma LexesNumber(n: nat)
    ensures Lexes(Num(n), [Number(n)], true)
  {
    hide LexToken, Skip, Lex, Num;
    forall rest: string | Follows(true, rest)
      ensures Lex(Num(n) + rest) == After([Number(n)], Lex(rest))
    {
      NumberReadsBack(n, rest);
      LexesToken(Num(n), Number(n), rest);
    }
  }

  lemma ScaleAtBoundary(rest: string)
    requires Follows(true, rest)
    ensures Scale(rest) == 1
  {
  }

  // ---- quoted strings -----------------------------------------------------

  lemma {:induction false} QuotedReadsBack(s: string, rest: string)
    ensures Quoted(EscapeSieve(s) + ("\"" + rest)) == Some((Clean(s), rest))
  {
    var close := "\"" + rest;
    if s == "" {
      assert EscapeSieve(s) + close == close && close[0] == '"' && close[1..] == rest;
    } else {
      QuotedReadsBack(s[1..], rest);
      var tail := EscapeSieve(s[1..]) + close;
      if s[0] == '\r' || s[0] == '\n' {
        assert EscapeSieve(s) == EscapeSieve(s[1..]) && Clean(s) == Clean(s[1..]);
      } else if s[0] == '"' || s[0] == '\\' {
        Assoc(['\\', s[0]], EscapeSieve(s[1..]), close);
        var all := ['\\', s[0]] + tail;
        assert EscapeSieve(s) + close == all;
        assert all[0] == '\\' && all[1] == s[0] && all[2..] == tail;
        assert Quoted(all[2..]) == Quoted(tail);
      } else {
        Assoc([s[0]], EscapeSieve(s[1..]), close);
        var all := [s[0]] + tail;
        assert EscapeSieve(s) + close == all;
        assert all[0] == s[0] && all[1..] == tail;
        assert Quoted(all[1..]) == Quoted(tail);
      }
    }
  }

  lemma QuoteReadsBack(s: string, rest: string)
    ensures QuoteOf(s) != "" && Skip(QuoteOf(s) + rest) == QuoteOf(s) + rest
    ensures LexToken(QuoteOf(s) + rest) == Some((Str(Clean(s)), rest))
  {
    hide Quoted, EscapeSieve, Clean;
    QuotedReadsBack(s, rest);
    var tail := EscapeSieve(s) + ("\"" + rest);
    Assoc(EscapeSieve(s), "\"", rest);
    Assoc("\"", EscapeSieve(s) + "\"", rest);
    assert QuoteOf(s) + rest == "\"" + tail;
    assert ("\"" + tail)[0] == '"' && ("\"" + tail)[1..] == tail;
    assert Quoted(("\"" + tail)[1..]) == Quoted(tail);
  }

  lemma LexesQuote(s: string)
    ensures Lexes(QuoteOf(s), [Str(Clean(s))], false)
  {
    hide LexToken, Skip, Lex, QuoteOf;
    forall rest: string
      ensures Lex(QuoteOf(s) + rest) == After([Str(Clean(s))], Lex(rest))
    {
      QuoteReadsBack(s, rest);
      LexesToken(QuoteOf(s), Str(Clean(s)), rest);
    }
  }

  // ---- text blocks --------------------------------------------------------

  /** What a block of the lines of `s` denotes: each line without trailing carriage returns of the
      two kinds, ended by CRLF. */
  function LinesValue(s: string): string
    decreases |s|
  {
    var nl := IndexOf(s, '\n', 0);
    (StripCr(StripCr(s[..nl])) + "\r\n") + (if nl == |s| then "" else LinesValue(s[nl + 1..]))
  }

  /** Dot-stuffing survives the lexer's unstuffing, and no stuffed line is the closing dot. */
  lemma StuffingReadsBack(raw: string)
    ensures var printed := StripCr(Stuff(StripCr(raw)));
            printed != "." && Unstuff(printed) == StripCr(StripCr(raw))
  {
    var line := StripCr(raw);
    if line != "" && line[0] == '.' {
      var stuffed := "." + line;
      assert stuffed[|stuffed| - 1] == line[|line| - 1];
      if line[|line| - 1] == '\r' {
        assert stuffed[..|stuffed| - 1] == "." + line[..|line| - 1];
        assert |line| >= 2;
      }
      assert StripCr(stuffed) == "." + StripCr(line);
      assert ("." + StripCr(line))[1..] == StripCr(line) && StripCr(line)[0] == '.';
    }
  }

  lemma StuffedLineHasNoNewline(raw: string)
    requires NoNewline(raw)
    ensures NoNewline(Stuff(StripCr(raw)))
  {
  }

  lemma LineThenRest(line: string, rest: string)
    requires NoNewline(line)
    ensures var s := (line + "\n") + rest;
            IndexOf(s, '\n', 0) == |line| && s[..|line|] == line && s != "" && AfterLine(s) == rest
  {
    var s := (line + "\n") + rest;
    assert s[|line|] == '\n' && forall i :: 0 <= i < |line| ==> s[i] == line[i];
    assert s[|line| + 1..] == rest;
  }

  lemma {:induction false} BlockReadsBack(s: string, rest: string)
    ensures BlockLines(TextLines(s) + (".\n" + rest)) == Some((LinesValue(s), rest))
    decreases |s|
  {
    var nl := IndexOf(s, '\n', 0);
    var raw := s[..nl];
    var line := Stuff(StripCr(raw));
    StuffedLineHasNoNewline(raw);
    StuffingReadsBack(raw);
    var value := StripCr(StripCr(raw)) + "\r\n";
    if nl == |s| {
      var close := ".\n" + rest;
      LineThenRest(".", rest);
      assert ("." + "\n") + rest == close;
      BlockCloses(close, rest);
      assert TextLines(s) == PrintedLine(raw) + "" == line + "\n";
      BlockContinues(line, value, close, "", rest);
      assert value + "" == value;
    } else {
      BlockReadsBack(s[nl + 1..], rest);
      var tail := TextLines(s[nl + 1..]) + (".\n" + rest);
      Assoc(line + "\n", TextLines(s[nl + 1..]), ".\n" + rest);
      BlockContinues(line, value, tail, LinesValue(s[nl + 1..]), rest);
    }
  }

  lemma BlockCloses(s: string, rest: string)
    requires s != "" && s[..IndexOf(s, '\n', 0)] == "." && AfterLine(s) == rest
    ensures BlockLines(s) == Some(("", rest))
  {
    assert StripCr(".") == ".";
  }

  lemma BlockContinues(line: string, value: string, tail: string, more: string, rest: string)
    requires NoNewline(line) && StripCr(line) != "." && Unstuff(StripCr(line)) + "\r\n" == value
    requires BlockLines(tail) == Some((more, rest))
    ensures BlockLines((line + "\n") + tail) == Some((value + more, rest))
  {
    LineThenRest(line, tail);
    var s := (line + "\n") + tail;
    assert StripCr(s[..IndexOf(s, '\n', 0)]) == StripCr(line);
  }

  /** The value a block written for `s` reads back as. */
  function BlockValue(s: string): string {
    LinesValue(Chomp(s))
  }

  lemma LexesBlock(s: string)
    ensures Lexes(TextBlockOf(s), [Str(BlockValue(s))], false)
  {
    forall rest: string
      ensures Lex(TextBlockOf(s) + rest) == After([Str(BlockValue(s))], Lex(rest))
    {
      BlockToken1(s, rest);
      LexesToken(TextBlockOf(s), Str(BlockValue(s)), rest);
    }
  }

  lemma BlockToken1(s: string, rest: string)
    ensures TextBlockOf(s) != "" && Skip(TextBlockOf(s) + rest) == TextBlockOf(s) + rest
    ensures LexToken(TextBlockOf(s) + rest) == Some((Str(BlockValue(s)), rest))
  {
    hide LexToken, Skip, BlockToken, LinesValue, TextLines, BlockLines;
    BlockReadsBack(Chomp(s), rest);
    var body := TextLines(Chomp(s));
    var block := body + (".\n" + rest);
    Assoc(body, ".\n", rest);
    Assoc("text:\n", body + ".\n", rest);
    assert TextBlockOf(s) + rest == "text:\n" + block;
    BlockOpens(block);
    BlockTokenOf(block, BlockValue(s), rest);
  }

  lemma BlockTokenOf(block: string, value: string, rest: string)
    requires BlockLines(block) == Some((value, rest))
    ensures BlockToken("\n" + block) == Some((Str(value), rest))
  {
    hide BlockLines;
    LineThenRest("", block);
    assert ("" + "\n") + block == "\n" + block;
    assert AfterLine("\n" + block) == block;
  }

  lemma BlockOpens(block: string)
    ensures var all := "text:\n" + block;
            Skip(all) == all && LexToken(all) == BlockToken("\n" + block)
  {
    hide BlockToken, LexWord, ToLower, Span, LexTag, LexNumber, Quoted, LowerName;
    var all := "text:\n" + block;
    LowerLetters("text");
    LowerNameFacts("text");
    assert all == "text" + (":\n" + block);
    SpanJoins(Names, "text", ":\n" + block);
    assert all[0..] == all && all[0..4] == "text" && all[5..] == "\n" + block;
    WordToken(all, 0, 4, "text");
    assert BlockToken(all[5..]) == BlockToken("\n" + block);
  }

  /** What a reason reads back as. */
  function ReasonValue(s: string): string {
    if OneLine(s) then s else BlockValue(s)
  }

  lemma LexesReason(s: string)
    ensures Lexes(QuoteOrTextOf(s), [Str(ReasonValue(s))], false)
  {
    hide Lexes;
    if OneLine(s) {
      CleanOneLine(s);
      LexesQuote(s);
    } else {
      LexesBlock(s);
    }
  }
}
