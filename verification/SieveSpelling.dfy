/** Sieve texts as they may be written (section 2 of RFC 5228): white space and comments anywhere between the tokens, any
    spelling of each token; the lexer of core/src/sieve.cpp yields the tokens that are spelled, and accepts nothing else. */
module SieveSpelling {
  import opened Text
  import opened SieveLex

  // ---- between the tokens ---------------------------------------------------

  /** White space, a comment up to the end of its line, a bracketed comment, or one that is never closed. */
  datatype Filler = Space(c: char) | Remark(text: string) | Bracketed(text: string) | Unclosed(text: string)

  /** No `*` `/` in the text. */
  predicate NoClose(text: string) {
    forall i :: 0 <= i < |text| - 1 ==> text[i] != '*' || text[i + 1] != '/'
  }

  function PutFiller(f: Filler, rest: string): string {
    match f
    case Space(c) => [c] + rest
    case Remark(text) => "#" + (text + rest)
    case Bracketed(text) => "/*" + (text + ("*/" + rest))
    case Unclosed(text) => "/*" + (text + rest)
  }

  predicate LegalFiller(f: Filler, rest: string) {
    match f
    case Space(c) => c == ' ' || c == '\t' || c == '\n' || c == '\U{b}' || c == '\U{c}' || c == '\r'
    case Remark(text) => NoNewline(text) && (rest == "" || rest[0] == '\n')
    case Bracketed(text) => NoClose(text)
    case Unclosed(text) => NoClose(text) && rest == ""
  }

  function PutGap(g: seq<Filler>, rest: string): string {
    if g == [] then rest else PutFiller(g[0], PutGap(g[1..], rest))
  }

  predicate LegalGap(g: seq<Filler>, rest: string) {
    g == [] || (LegalFiller(g[0], PutGap(g[1..], rest)) && LegalGap(g[1..], rest))
  }

  // ---- tokens ---------------------------------------------------------------

  /** A character between quotes: as it is, or after a backslash. */
  datatype QuotedChar = Bare(c: char) | Escaped(c: char)

  /** A line of a text block, and whether it ends in CRLF or a newline alone. */
  datatype BlockLine = BlockLine(text: string, cr: bool)

  datatype Spelling =
    | Sign(token: Token)
    | InQuotes(chars: seq<QuotedChar>)
    | Block(word: string, junk: string, lines: seq<BlockLine>, cr: bool, newline: bool)
    | Tagged(word: string)
    | Figure(digits: string, suffix: string)
    | Name(word: string)

  function SignChar(t: Token): char {
    match t
    case LBracket => '['
    case RBracket => ']'
    case LParen => '('
    case RParen => ')'
    case LBrace => '{'
    case RBrace => '}'
    case Comma => ','
    case _ => ';'
  }

  function PutQuoted(chars: seq<QuotedChar>, rest: string): string {
    if chars == [] then "\"" + rest
    else
      match chars[0]
      case Bare(c) => [c] + PutQuoted(chars[1..], rest)
      case Escaped(c) => "\\" + ([c] + PutQuoted(chars[1..], rest))
  }

  function Break(cr: bool): string {
    if cr then "\r\n" else "\n"
  }

  function PutLines(lines: seq<BlockLine>, rest: string): string {
    if lines == [] then rest else lines[0].text + (Break(lines[0].cr) + PutLines(lines[1..], rest))
  }

  function Dot(cr: bool, newline: bool, rest: string): string {
    "." + ((if cr then "\r" else "") + (if newline then "\n" + rest else rest))
  }

  function PutToken(sp: Spelling, rest: string): string {
    match sp
    case Sign(token) => [SignChar(token)] + rest
    case InQuotes(chars) => "\"" + PutQuoted(chars, rest)
    case Block(word, junk, lines, cr, newline) => word + (":" + (junk + ("\n" + PutLines(lines, Dot(cr, newline, rest)))))
    case Tagged(word) => ":" + (word + rest)
    case Figure(digits, suffix) => digits + (suffix + rest)
    case Name(word) => word + rest
  }

  predicate AllIn(k: Class, s: string) {
    forall i :: 0 <= i < |s| ==> Within(k, s[i])
  }

  /** The text does not go on with a character of the class. */
  predicate StopsAt(k: Class, rest: string) {
    rest == "" || !Within(k, rest[0])
  }

  predicate LegalQuoted(chars: seq<QuotedChar>) {
    forall i :: 0 <= i < |chars| ==> chars[i].Bare? ==> chars[i].c != '"' && chars[i].c != '\\'
  }

  predicate LegalLine(l: BlockLine) {
    NoNewline(l.text) && l.text != "." && (!l.cr ==> l.text == "" || l.text[|l.text| - 1] != '\r')
  }

  predicate LegalLines(lines: seq<BlockLine>) {
    forall i :: 0 <= i < |lines| ==> LegalLine(lines[i])
  }

  predicate LegalToken(sp: Spelling, rest: string) {
    match sp
    case Sign(t) =>
      t == LBracket || t == RBracket || t == LParen || t == RParen || t == LBrace || t == RBrace || t == Comma || t == Semicolon
    case InQuotes(chars) => LegalQuoted(chars)
    case Block(word, junk, lines, cr, newline) =>
      |word| == 4 && ToLower(word) == "text" && NoNewline(junk) && LegalLines(lines) && (!newline ==> rest == "")
    case Tagged(word) => word != "" && AllIn(Tags, word) && StopsAt(Tags, rest)
    case Figure(digits, suffix) =>
      && digits != "" && AllIn(Digits, digits)
      && if suffix == "" then StopsAt(Digits, rest) && (rest == "" || rest[0] !in "kKmMgG")
         else suffix in ["k", "K", "m", "M", "g", "G"]
    case Name(word) =>
      && word != "" && AllIn(Names, word) && !IsDigit(word[0]) && StopsAt(Names, rest)
      && !(ToLower(word) == "text" && rest != "" && rest[0] == ':')
  }

  // ---- what they stand for --------------------------------------------------

  function QuotedText(chars: seq<QuotedChar>): string {
    if chars == [] then "" else [chars[0].c] + QuotedText(chars[1..])
  }

  /** The lines of a block, each ended by CRLF, without the dot that protects a leading one. */
  function LinesText(lines: seq<BlockLine>): string {
    if lines == [] then ""
    else (if ".." <= lines[0].text then lines[0].text[1..] else lines[0].text) + "\r\n" + LinesText(lines[1..])
  }

  function Times(suffix: string): nat {
    if suffix == "k" || suffix == "K" then 1024
    else if suffix == "m" || suffix == "M" then 1048576
    else if suffix == "g" || suffix == "G" then 1073741824
    else 1
  }

  function TokenOf(sp: Spelling): Token {
    match sp
    case Sign(token) => token
    case InQuotes(chars) => Str(QuotedText(chars))
    case Block(_, _, lines, _, _) => Str(LinesText(lines))
    case Tagged(word) => Token.Tag(ToLower(word))
    case Figure(digits, suffix) => Number(DecValue(digits) * Times(suffix))
    case Name(word) => Ident(ToLower(word))
  }

  // ---- reading gaps -----------------------------------------------------------

  /** A text that starts with a token, or is empty. */
  predicate StartsToken(s: string) {
    s == "" || (!IsSpace(s[0]) && s[0] != '#' && !(s[0] == '/' && |s| > 1 && s[1] == '*'))
  }

  lemma {:induction false} CommentCloses(text: string, rest: string)
    requires NoClose(text)
    ensures AfterComment(text + ("*/" + rest)) == rest
    decreases |text|
  {
    var s := text + ("*/" + rest);
    if text == "" {
      assert s == "*/" + rest && s[2..] == rest;
    } else {
      assert s[0] == text[0] && s[1..] == text[1..] + ("*/" + rest);
      if |text| > 1 {
        assert s[1] == text[1];
      } else {
        assert s[1] == '*';
      }
      assert NoClose(text[1..]) by {
        forall i | 0 <= i < |text| - 1
          ensures text[1..][i] == text[i + 1]
        {
        }
      }
      CommentCloses(text[1..], rest);
    }
  }

  lemma {:induction false} CommentRunsOut(text: string)
    requires NoClose(text)
    ensures AfterComment(text) == ""
    decreases |text|
  {
    if |text| >= 2 {
      assert NoClose(text[1..]) by {
        forall i | 0 <= i < |text| - 1
          ensures text[1..][i] == text[i + 1]
        {
        }
      }
      CommentRunsOut(text[1..]);
    }
  }

  lemma RemarkEnds(text: string, rest: string)
    requires NoNewline(text) && (rest == "" || rest[0] == '\n')
    ensures var s := "#" + (text + rest); IndexOf(s, '\n', 1) == 1 + |text| && s[1 + |text|..] == rest
  {
    var s := "#" + (text + rest);
    forall i | 1 <= i < 1 + |text|
      ensures s[i] != '\n'
    {
      assert s[i] == text[i - 1];
    }
    if rest != "" {
      assert s[1 + |text|] == rest[0];
    }
    assert s[1 + |text|..] == rest;
  }

  lemma FillerSkipped(f: Filler, rest: string)
    requires LegalFiller(f, rest)
    ensures Skip(PutFiller(f, rest)) == Skip(rest)
  {
    hide IndexOf, AfterComment, NoClose;
    var s := PutFiller(f, rest);
    match f
    case Space(c) => assert s[1..] == rest;
    case Remark(text) => RemarkEnds(text, rest);
    case Bracketed(text) =>
      assert s[2..] == text + ("*/" + rest);
      CommentCloses(text, rest);
    case Unclosed(text) =>
      assert s[2..] == text + rest == text;
      CommentRunsOut(text);
  }

  lemma {:induction false} GapSkipped(g: seq<Filler>, rest: string)
    requires LegalGap(g, rest) && StartsToken(rest)
    ensures Skip(PutGap(g, rest)) == rest
    decreases |g|
  {
    hide PutFiller, LegalFiller;
    if g != [] {
      FillerSkipped(g[0], PutGap(g[1..], rest));
      GapSkipped(g[1..], rest);
    }
  }

  // ---- reading tokens ---------------------------------------------------------

  lemma {:induction false} SpanOf(k: Class, word: string, rest: string)
    requires AllIn(k, word) && StopsAt(k, rest)
    ensures Span(k, word + rest) == |word| && (word + rest)[..|word|] == word && (word + rest)[|word|..] == rest
    decreases |word|
  {
    var s := word + rest;
    if word == "" {
      assert s == rest;
    } else {
      assert s[0] == word[0] && s[1..] == word[1..] + rest;
      SpanOf(k, word[1..], rest);
    }
  }

  lemma {:induction false} QuotedOf(chars: seq<QuotedChar>, rest: string)
    requires LegalQuoted(chars)
    ensures Quoted(PutQuoted(chars, rest)) == Some((QuotedText(chars), rest))
    decreases |chars|
  {
    if chars == [] {
      assert ("\"" + rest)[1..] == rest;
    } else {
      var more := PutQuoted(chars[1..], rest);
      var s := PutQuoted(chars, rest);
      QuotedOf(chars[1..], rest);
      match chars[0]
      case Bare(c) => assert s[0] == c && s[1..] == more;
      case Escaped(c) => assert s[0] == '\\' && s[1] == c && s[2..] == more;
    }
  }

  lemma LineEndsAt(text: string, rest: string)
    requires NoNewline(text)
    ensures var s := text + ("\n" + rest); IndexOf(s, '\n', 0) == |text| && s[..|text|] == text && AfterLine(s) == rest
  {
    var s := text + ("\n" + rest);
    assert s[|text|] == '\n' && forall i :: 0 <= i < |text| ==> s[i] == text[i];
    assert s[|text| + 1..] == rest;
  }

  /** A line and its break, read as the line. */
  lemma BlockLineOf(l: BlockLine, rest: string)
    requires LegalLine(l)
    ensures var s := l.text + (Break(l.cr) + rest); s != "" && StripCr(s[..IndexOf(s, '\n', 0)]) == l.text && AfterLine(s) == rest
  {
    hide IndexOf, AfterLine;
    var line := l.text + (if l.cr then "\r" else "");
    assert NoNewline(line);
    LineEndsAt(line, rest);
    assert l.text + (Break(l.cr) + rest) == line + ("\n" + rest);
    if l.cr {
      assert line[..|line| - 1] == l.text;
    } else {
      assert line == l.text;
    }
  }

  lemma DotOf(cr: bool, newline: bool, rest: string)
    requires !newline ==> rest == ""
    ensures var s := Dot(cr, newline, rest); s != "" && StripCr(s[..IndexOf(s, '\n', 0)]) == "." && AfterLine(s) == rest
  {
    var line := if cr then ".\r" else ".";
    if newline {
      LineEndsAt(line, rest);
      assert Dot(cr, newline, rest) == line + ("\n" + rest);
    } else {
      assert Dot(cr, newline, rest) == line;
      assert NoNewline(line);
      assert IndexOf(line, '\n', 0) == |line| && line[..|line|] == line;
    }
    if cr {
      assert ".\r"[..1] == ".";
    }
  }

  lemma {:induction false} LinesOf(lines: seq<BlockLine>, cr: bool, newline: bool, rest: string)
    requires LegalLines(lines) && (!newline ==> rest == "")
    ensures BlockLines(PutLines(lines, Dot(cr, newline, rest))) == Some((LinesText(lines), rest))
    decreases |lines|
  {
    hide IndexOf, AfterLine, StripCr, Dot, LegalLine;
    if lines == [] {
      DotOf(cr, newline, rest);
    } else {
      LinesOf(lines[1..], cr, newline, rest);
      BlockLineOf(lines[0], PutLines(lines[1..], Dot(cr, newline, rest)));
      LineIsNoDot(lines[0]);
      UnstuffIs(lines[0].text);
    }
  }

  lemma LineIsNoDot(l: BlockLine)
    requires LegalLine(l)
    ensures l.text != "."
  {
  }

  lemma UnstuffIs(text: string)
    ensures Unstuff(text) == if ".." <= text then text[1..] else text
  {
  }

  lemma TagOf(word: string, rest: string)
    requires LegalToken(Tagged(word), rest)
    ensures LexToken(PutToken(Tagged(word), rest)) == Some((Token.Tag(ToLower(word)), rest))
  {
    hide ToLower, Span;
    var s := ":" + (word + rest);
    assert s[1..] == word + rest;
    SpanOf(Tags, word, rest);
    assert s[1..|word| + 1] == word && s[|word| + 1..] == rest;
  }

  lemma FigureOf(digits: string, suffix: string, rest: string)
    requires LegalToken(Figure(digits, suffix), rest)
    ensures LexToken(PutToken(Figure(digits, suffix), rest)) == Some((Number(DecValue(digits) * Times(suffix)), rest))
  {
    hide Span, DecValue;
    var tail := suffix + rest;
    var s := digits + tail;
    assert s[0] == digits[0] && Within(Digits, digits[0]);
    if suffix == "" {
      assert tail == rest;
    } else {
      assert tail[0] == suffix[0] && tail[1..] == rest;
    }
    SpanOf(Digits, digits, tail);
    ScaleOf(suffix, rest);
    assert s[|digits|..] == tail && (suffix != "" ==> s[|digits| + 1..] == rest);
  }

  lemma ScaleOf(suffix: string, rest: string)
    requires if suffix == "" then rest == "" || rest[0] !in "kKmMgG" else suffix in ["k", "K", "m", "M", "g", "G"]
    ensures Scale(suffix + rest) == Times(suffix) && (Times(suffix) > 1 <==> suffix != "")
  {
    var s := suffix + rest;
    if suffix == "" {
      assert s == rest;
      if s != "" {
        assert s[0] != 'k' && s[0] != 'K' && s[0] != 'm' && s[0] != 'M' && s[0] != 'g' && s[0] != 'G' by {
          assert "kKmMgG"[0] == 'k' && "kKmMgG"[1] == 'K' && "kKmMgG"[2] == 'm' && "kKmMgG"[3] == 'M' && "kKmMgG"[4] == 'g' && "kKmMgG"[5] == 'G';
        }
      }
    } else {
      assert s[0] == suffix[0];
    }
  }

  lemma NameOf(word: string, rest: string)
    requires LegalToken(Name(word), rest)
    ensures LexToken(PutToken(Name(word), rest)) == Some((Ident(ToLower(word)), rest))
  {
    hide ToLower, Span;
    var s := word + rest;
    SpanOf(Names, word, rest);
    assert s[0] == word[0] && Within(Names, word[0]);
    if rest != "" {
      assert s[|word|] == rest[0];
    }
  }

  lemma TextIsName(word: string)
    requires |word| == 4 && ToLower(word) == "text"
    ensures AllIn(Names, word) && IsAlpha(word[0])
  {
    forall i | 0 <= i < 4
      ensures IsAlpha(word[i])
    {
      ToLowerAt(word, i);
      assert ToLower(word)[i] == "text"[i];
    }
  }

  lemma BlockOf(word: string, junk: string, lines: seq<BlockLine>, cr: bool, newline: bool, rest: string)
    requires LegalToken(Block(word, junk, lines, cr, newline), rest)
    ensures LexToken(PutToken(Block(word, junk, lines, cr, newline), rest)) == Some((Str(LinesText(lines)), rest))
  {
    hide ToLower, Span, BlockLines, PutLines, LegalLines, Dot, AfterLine, LinesText;
    var inner := PutLines(lines, Dot(cr, newline, rest));
    var tail := ":" + (junk + ("\n" + inner));
    var s := word + tail;
    TextIsName(word);
    SpanOf(Names, word, tail);
    assert s[0] == word[0] && s[|word|] == ':' && s[|word| + 1..] == junk + ("\n" + inner);
    LineEndsAt(junk, inner);
    LinesOf(lines, cr, newline, rest);
  }

  /** A spelled token reads as the token, whatever legally follows. */
  lemma TokenReads(sp: Spelling, rest: string)
    requires LegalToken(sp, rest)
    ensures var s := PutToken(sp, rest); s != "" && StartsToken(s) && LexToken(s) == Some((TokenOf(sp), rest))
  {
    hide PutLines, LegalLines, LinesText, ToLower, DecValue, PutQuoted, QuotedText, LegalQuoted, Quoted;
    var s := PutToken(sp, rest);
    match sp
    case Sign(t) => assert s[0] == SignChar(t) && s[1..] == rest;
    case InQuotes(chars) =>
      assert s[1..] == PutQuoted(chars, rest);
      QuotedOf(chars, rest);
    case Block(word, junk, lines, cr, newline) =>
      TextIsName(word);
      assert s[0] == word[0];
      BlockOf(word, junk, lines, cr, newline, rest);
    case Tagged(word) => TagOf(word, rest);
    case Figure(digits, suffix) =>
      assert s[0] == digits[0] && Within(Digits, digits[0]);
      FigureOf(digits, suffix, rest);
    case Name(word) =>
      assert s[0] == word[0] && Within(Names, word[0]);
      NameOf(word, rest);
  }

  // ---- whole texts --------------------------------------------------------------

  datatype Piece = Piece(gap: seq<Filler>, token: Spelling)

  /** Tokens with gaps before them, and a last gap. */
  function PutText(ps: seq<Piece>, last: seq<Filler>): string {
    if ps == [] then PutGap(last, "") else PutGap(ps[0].gap, PutToken(ps[0].token, PutText(ps[1..], last)))
  }

  predicate LegalText(ps: seq<Piece>, last: seq<Filler>) {
    if ps == [] then LegalGap(last, "")
    else
      var rest := PutText(ps[1..], last);
      LegalGap(ps[0].gap, PutToken(ps[0].token, rest)) && LegalToken(ps[0].token, rest) && LegalText(ps[1..], last)
  }

  function TokensOf(ps: seq<Piece>): seq<Token> {
    if ps == [] then [End] else [TokenOf(ps[0].token)] + TokensOf(ps[1..])
  }

  /** A written text lexes to its tokens. */
  lemma {:induction false} TextLexes(ps: seq<Piece>, last: seq<Filler>)
    requires LegalText(ps, last)
    ensures Lex(PutText(ps, last)) == Some(TokensOf(ps))
    decreases |ps|
  {
    hide PutGap, LegalGap, PutToken, LegalToken, TokenOf, LexToken, StartsToken;
    if ps == [] {
      NothingStarts();
      GapSkipped(last, "");
    } else {
      var rest := PutText(ps[1..], last);
      TextLexes(ps[1..], last);
      TokenReads(ps[0].token, rest);
      GapSkipped(ps[0].gap, PutToken(ps[0].token, rest));
    }
  }

  lemma NothingStarts()
    ensures StartsToken("")
  {
  }
}
