/** Sieve texts and the programs they mean: exactly those the parser accepts. */
module SieveLanguage {
  import opened Text
  import opened SieveLex
  import opened SieveParse
  import opened SieveSyntax
  import opened SieveReads
  import opened SieveGrammar
  import opened SieveSpelling

  lemma Cut(s: string, n: nat)
    requires n <= |s|
    ensures s == s[..n] + s[n..]
  {
  }

  // ---- gaps -------------------------------------------------------------------

  /** Where a bracketed comment is closed, or the length of the text. */
  lemma {:induction false} CommentOf(s: string) returns (text: string, closed: bool)
    ensures NoClose(text) && s == (if closed then text + ("*/" + AfterComment(s)) else text)
    ensures !closed ==> AfterComment(s) == ""
    decreases |s|
  {
    if |s| < 2 {
      text, closed := s, false;
    } else if s[0] == '*' && s[1] == '/' {
      text, closed := "", true;
      assert s == "" + ("*/" + s[2..]);
    } else {
      var more;
      more, closed := CommentOf(s[1..]);
      text := [s[0]] + more;
      Cut(s, 1);
      assert s[..1] == [s[0]];
      assert NoClose(text) by {
        if more != "" {
          assert more[0] == s[1];
        }
        assert forall i :: 0 <= i < |more| ==> text[i + 1] == more[i];
        forall i | 0 <= i < |text| - 1
          ensures text[i] != '*' || text[i + 1] != '/'
        {
          if i > 0 {
            assert text[i] == more[i - 1] && text[i + 1] == more[i];
          }
        }
      }
      if closed {
        Assoc([s[0]], more, "*/" + AfterComment(s));
      }
    }
  }

  /** What is skipped in front of a token is a gap. */
  lemma {:induction false} GapOf(s: string) returns (g: seq<Filler>)
    ensures LegalGap(g, Skip(s)) && PutGap(g, Skip(s)) == s && StartsToken(Skip(s))
    decreases |s|
  {
    hide IndexOf, AfterComment, NoClose;
    g := [];
    if s != "" {
      var f, next := Space(s[0]), s[1..];
      var found := true;
      if IsSpace(s[0]) {
        Cut(s, 1);
        assert s[..1] == [s[0]];
        SpacesAre(s[0]);
      } else if s[0] == '#' {
        f := RemarkOf(s);
        next := s[IndexOf(s, '\n', 1)..];
      } else if s[0] == '/' && |s| > 1 && s[1] == '*' {
        f := BracketOf(s);
        next := AfterComment(s[2..]);
      } else {
        found := false;
      }
      if found {
        var more := GapOf(next);
        g := [f] + more;
        assert g[0] == f && g[1..] == more;
      }
    }
  }

  lemma SpacesAre(c: char)
    requires IsSpace(c)
    ensures c == ' ' || c == '\t' || c == '\n' || c == '\U{b}' || c == '\U{c}' || c == '\r'
  {
  }

  lemma RemarkOf(s: string) returns (f: Filler)
    requires s != "" && s[0] == '#'
    ensures var next := s[IndexOf(s, '\n', 1)..]; LegalFiller(f, next) && PutFiller(f, next) == s
  {
    var nl := IndexOf(s, '\n', 1);
    f := Remark(s[1..nl]);
    assert s == "#" + (s[1..nl] + s[nl..]);
  }

  lemma BracketOf(s: string) returns (f: Filler)
    requires |s| > 1 && s[0] == '/' && s[1] == '*'
    ensures var next := AfterComment(s[2..]); LegalFiller(f, next) && PutFiller(f, next) == s
  {
    hide AfterComment, NoClose;
    var text, closed := CommentOf(s[2..]);
    f := if closed then Bracketed(text) else Unclosed(text);
    Cut(s, 2);
    assert s[..2] == "/*";
    if !closed {
      assert text + "" == text;
    }
  }

  // ---- tokens -----------------------------------------------------------------

  lemma {:induction false} SpanIs(k: Class, s: string)
    ensures AllIn(k, s[..Span(k, s)]) && StopsAt(k, s[Span(k, s)..])
  {
    if s != "" && Within(k, s[0]) {
      SpanIs(k, s[1..]);
      var n := Span(k, s);
      assert s[n..] == s[1..][n - 1..];
      forall i | 0 <= i < n
        ensures Within(k, s[..n][i])
      {
        if i > 0 {
          assert s[..n][i] == s[1..][..n - 1][i - 1];
        }
      }
    }
  }

  lemma NothingQuoted(s: string)
    ensures s == "" ==> Quoted(s) == None
  {
  }

  lemma {:induction false} QuotedIs(s: string) returns (chars: seq<QuotedChar>)
    requires Quoted(s).Some?
    ensures LegalQuoted(chars) && PutQuoted(chars, Quoted(s).value.1) == s && QuotedText(chars) == Quoted(s).value.0
    decreases |s|
  {
    chars := [];
    if s[0] == '"' {
      Cut(s, 1);
      assert s[..1] == "\"";
    } else {
      var skip := if s[0] == '\\' && |s| > 1 then 1 else 0;
      NothingQuoted(s[1..]);
      var more := QuotedIs(s[skip + 1..]);
      var c := if skip == 1 then Escaped(s[1]) else Bare(s[0]);
      chars := [c] + more;
      assert chars[0] == c && chars[1..] == more;
      assert s == (if skip == 1 then "\\" else "") + ([s[skip]] + s[skip + 1..]);
    }
  }

  lemma LineIs(s: string) returns (cr: bool)
    requires s != ""
    ensures var nl := IndexOf(s, '\n', 0);
            var line := StripCr(s[..nl]);
            && NoNewline(line) && (!cr ==> line == "" || line[|line| - 1] != '\r')
            && s == line + ((if cr then "\r" else "") + (if nl < |s| then "\n" + AfterLine(s) else ""))
            && (nl == |s| ==> AfterLine(s) == "")
  {
    hide IndexOf, AfterLine, StripCr, NoNewline;
    var nl := IndexOf(s, '\n', 0);
    var whole, rest := s[..nl], if nl < |s| then "\n" + AfterLine(s) else "";
    cr := whole != "" && whole[|whole| - 1] == '\r';
    WholeLine(s);
    CrIs(whole, cr);
    Assoc(StripCr(whole), if cr then "\r" else "", rest);
  }

  lemma WholeLine(s: string)
    ensures var nl := IndexOf(s, '\n', 0);
            s == s[..nl] + (if nl < |s| then "\n" + AfterLine(s) else "") && NoNewline(s[..nl]) && (nl == |s| ==> AfterLine(s) == "")
  {
    var nl := IndexOf(s, '\n', 0);
    if nl < |s| {
      assert s[nl..] == "\n" + s[nl + 1..];
    }
    Cut(s, nl);
  }

  lemma CrIs(whole: string, cr: bool)
    requires cr == (whole != "" && whole[|whole| - 1] == '\r') && NoNewline(whole)
    ensures whole == StripCr(whole) + (if cr then "\r" else "") && NoNewline(StripCr(whole))
    ensures !cr ==> StripCr(whole) == "" || StripCr(whole)[|StripCr(whole)| - 1] != '\r'
  {
  }

  lemma {:induction false} LinesIs(s: string) returns (lines: seq<BlockLine>, cr: bool, newline: bool)
    requires BlockLines(s).Some?
    ensures LegalLines(lines) && (!newline ==> BlockLines(s).value.1 == "")
    ensures PutLines(lines, Dot(cr, newline, BlockLines(s).value.1)) == s && LinesText(lines) == BlockLines(s).value.0
    decreases |s|
  {
    hide IndexOf, AfterLine, StripCr, LegalLine;
    var nl := IndexOf(s, '\n', 0);
    var line := StripCr(s[..nl]);
    var lineCr := LineIs(s);
    lines := [];
    if line == "." {
      cr, newline := lineCr, nl < |s|;
    } else {
      lines, cr, newline := LinesIs(AfterLine(s));
      assert nl < |s| by {
        NothingRead();
      }
      assert Break(lineCr) + AfterLine(s) == (if lineCr then "\r" else "") + ("\n" + AfterLine(s));
      LineInFront(BlockLine(line, lineCr), lines, Dot(cr, newline, BlockLines(s).value.1));
      lines := [BlockLine(line, lineCr)] + lines;
    }
  }

  lemma LineInFront(l: BlockLine, lines: seq<BlockLine>, rest: string)
    requires NoNewline(l.text) && l.text != "." && (!l.cr ==> l.text == "" || l.text[|l.text| - 1] != '\r') && LegalLines(lines)
    ensures LegalLines([l] + lines)
    ensures PutLines([l] + lines, rest) == l.text + (Break(l.cr) + PutLines(lines, rest))
    ensures LinesText([l] + lines) == (Unstuff(l.text) + "\r\n") + LinesText(lines)
  {
    UnstuffIs(l.text);
    assert ([l] + lines)[0] == l && ([l] + lines)[1..] == lines;
  }

  lemma NothingRead()
    ensures BlockLines("") == None
  {
  }

  lemma SignOf(s: string) returns (sp: Spelling)
    requires s != "" && Punct(s[0]).Some?
    ensures LegalToken(sp, s[1..]) && PutToken(sp, s[1..]) == s && TokenOf(sp) == Punct(s[0]).value
  {
    sp := Sign(Punct(s[0]).value);
    Cut(s, 1);
    assert s[..1] == [s[0]];
  }

  lemma TaggedOf(s: string) returns (sp: Spelling)
    requires s != "" && s[0] == ':' && LexTag(s).Some?
    ensures var r := LexTag(s).value; LegalToken(sp, r.1) && PutToken(sp, r.1) == s && TokenOf(sp) == r.0
  {
    hide ToLower, Span;
    var t := s[1..];
    var n := Span(Tags, t);
    SpanIs(Tags, t);
    sp := Tagged(s[1..n + 1]);
    assert t[..n] == s[1..n + 1] && t[n..] == s[n + 1..];
    assert s == ":" + (s[1..n + 1] + s[n + 1..]);
  }

  lemma FigureIs(s: string) returns (sp: Spelling)
    requires s != "" && IsDigit(s[0])
    ensures var r := LexNumber(s).value; LegalToken(sp, r.1) && PutToken(sp, r.1) == s && TokenOf(sp) == r.0
  {
    hide DecValue;
    var n := Span(Digits, s);
    SpanIs(Digits, s);
    var digits, tail := s[..n], s[n..];
    var suffix := if Scale(tail) > 1 then tail[..1] else "";
    SuffixIs(tail);
    sp := Figure(digits, suffix);
    Cut(s, n);
    assert tail == suffix + (if Scale(tail) > 1 then s[n + 1..] else tail);
  }

  lemma SuffixIs(tail: string)
    ensures if Scale(tail) > 1 then tail != "" && tail[..1] in ["k", "K", "m", "M", "g", "G"] && Times(tail[..1]) == Scale(tail)
            else Scale(tail) == 1 && (tail == "" || tail[0] !in "kKmMgG")
  {
    if tail != "" {
      var c := tail[0];
      assert tail[..1] == [c];
      LettersAre(c);
    }
  }

  lemma LettersAre(c: char)
    ensures c in "kKmMgG" <==> LowerChar(c) == 'k' || LowerChar(c) == 'm' || LowerChar(c) == 'g'
    ensures LowerChar(c) == 'k' <==> [c] == "k" || [c] == "K"
    ensures LowerChar(c) == 'm' <==> [c] == "m" || [c] == "M"
    ensures LowerChar(c) == 'g' <==> [c] == "g" || [c] == "G"
  {
    var all := "kKmMgG";
    assert all[0] == 'k' && all[1] == 'K' && all[2] == 'm' && all[3] == 'M' && all[4] == 'g' && all[5] == 'G';
    assert [c] == "k" <==> c == 'k';
    assert [c] == "K" <==> c == 'K';
    assert [c] == "m" <==> c == 'm';
    assert [c] == "M" <==> c == 'M';
    assert [c] == "g" <==> c == 'g';
    assert [c] == "G" <==> c == 'G';
  }

  lemma BlockIs(word: string, s: string) returns (sp: Spelling)
    requires |word| == 4 && ToLower(word) == "text" && BlockToken(s).Some?
    ensures var r := BlockToken(s).value; LegalToken(sp, r.1) && PutToken(sp, r.1) == word + (":" + s) && TokenOf(sp) == r.0
  {
    hide BlockLines, PutLines, LegalLines, LinesText, Dot, ToLower;
    var lines, cr, newline := LinesIs(AfterLine(s));
    var nl := IndexOf(s, '\n', 0);
    NothingRead();
    assert nl < |s|;
    sp := Block(word, s[..nl], lines, cr, newline);
    assert s == s[..nl] + ("\n" + AfterLine(s));
  }

  lemma WordOf(s: string) returns (sp: Spelling)
    requires s != "" && IsNameChar(s[0]) && !IsDigit(s[0]) && LexWord(s).Some?
    ensures var r := LexWord(s).value; LegalToken(sp, r.1) && PutToken(sp, r.1) == s && TokenOf(sp) == r.0
  {
    hide ToLower, BlockToken;
    var n := Span(Names, s);
    SpanIs(Names, s);
    var word := s[..n];
    Cut(s, n);
    if ToLower(word) == "text" && n < |s| && s[n] == ':' {
      sp := BlockIs(word, s[n + 1..]);
      assert s[n..] == ":" + s[n + 1..];
    } else {
      sp := Name(word);
    }
  }

  /** Whatever the lexer takes for a token is a spelling of it. */
  lemma TokenIs(s: string) returns (sp: Spelling)
    requires s != "" && LexToken(s).Some?
    ensures var r := LexToken(s).value; LegalToken(sp, r.1) && PutToken(sp, r.1) == s && TokenOf(sp) == r.0
  {
    hide LexTag, LexNumber, LexWord, Quoted, PutQuoted, QuotedText, LegalQuoted, Punct;
    if Punct(s[0]).Some? {
      sp := SignOf(s);
    } else if s[0] == '"' {
      var chars := QuotedIs(s[1..]);
      sp := InQuotes(chars);
      Cut(s, 1);
      assert s[..1] == "\"";
    } else if s[0] == ':' {
      sp := TaggedOf(s);
    } else if IsDigit(s[0]) {
      sp := FigureIs(s);
    } else {
      sp := WordOf(s);
    }
  }

  // ---- texts --------------------------------------------------------------------

  lemma {:induction false} TextOf(s: string) returns (ps: seq<Piece>, last: seq<Filler>)
    requires Lex(s).Some?
    ensures LegalText(ps, last) && PutText(ps, last) == s && TokensOf(ps) == Lex(s).value
    decreases |s|
  {
    hide PutGap, LegalGap, PutToken, LegalToken, TokenOf, LexToken, StartsToken;
    var t := Skip(s);
    var g := GapOf(s);
    ps, last := [], g;
    if t != "" {
      var sp := TokenIs(t);
      var more;
      more, last := TextOf(LexToken(t).value.1);
      ps := [Piece(g, sp)] + more;
      assert ps[0] == Piece(g, sp) && ps[1..] == more;
    }
  }

  /** A text lexes to tokens exactly when it is a way to write them. */
  lemma LexesExactly(s: string, ts: seq<Token>)
    ensures Lex(s) == Some(ts) <==> exists ps, last :: LegalText(ps, last) && PutText(ps, last) == s && TokensOf(ps) == ts
  {
    hide Lex, LegalText, PutText, TokensOf;
    if Lex(s) == Some(ts) {
      var ps, last := TextOf(s);
      assert LegalText(ps, last) && PutText(ps, last) == s && TokensOf(ps) == ts;
    }
    if exists ps, last :: LegalText(ps, last) && PutText(ps, last) == s && TokensOf(ps) == ts {
      var ps, last :| LegalText(ps, last) && PutText(ps, last) == s && TokensOf(ps) == ts;
      TextLexes(ps, last);
    }
  }

  /** The commands `cs` are written out as `s`, in some spelling and with some gaps. */
  predicate SpelledOut(s: string, cs: seq<WCommand>, ps: seq<Piece>, last: seq<Filler>) {
    LegalCommands(cs) && LegalText(ps, last) && PutText(ps, last) == s && TokensOf(ps) == PutProgram(cs)
  }

  /** A text is accepted as a program exactly when it is a way to write it. */
  lemma AcceptsExactly(s: string, p: seq<Command>)
    ensures Program(s) == Some(p) <==> exists cs, ps, last :: SpelledOut(s, cs, ps, last) && CommandsMeant(cs) == p
  {
    hide Lex, LegalText, PutText, TokensOf, LegalCommands, PutProgram, CommandsMeant, Ended, Script;
    if Program(s) == Some(p) {
      var ts := Lex(s).value;
      var ps, last := TextOf(s);
      LexEnds(s);
      ParsesExactly(ts, p);
      var cs :| LegalCommands(cs) && PutProgram(cs) == ts && CommandsMeant(cs) == p;
      assert SpelledOut(s, cs, ps, last) && CommandsMeant(cs) == p;
    }
    if exists cs, ps, last :: SpelledOut(s, cs, ps, last) && CommandsMeant(cs) == p {
      var cs, ps, last :| SpelledOut(s, cs, ps, last) && CommandsMeant(cs) == p;
      TextLexes(ps, last);
      LexEnds(s);
      ParsesExactly(PutProgram(cs), p);
    }
  }

  /** The words for adding and removing flags mean what they say. */
  lemma FlagWords(flag: string)
    ensures Script([Ident("addflag"), Str(flag), Semicolon, End]) == Some([BlankCommand(AddFlag).(flags := [flag], hasFlags := true)])
    ensures Script([Ident("removeflag"), Str(flag), Semicolon, End]) == Some([BlankCommand(RemoveFlag).(flags := [flag], hasFlags := true)])
  {
    hide Script;
    OneFlagCommand("addflag", AddFlag, flag);
    OneFlagCommand("removeflag", RemoveFlag, flag);
  }

  lemma OneFlagCommand(name: string, kind: CommandKind, flag: string)
    requires Called(kind, name) && (kind == AddFlag || kind == RemoveFlag)
    ensures Script([Ident(name), Str(flag), Semicolon, End]) == Some([BlankCommand(kind).(flags := [flag], hasFlags := true)])
  {
    hide Script, Called;
    var c := Plainly(name, kind, [], Flags(One(flag)));
    OneCommand(c);
    ProgramReads([c]);
    var ts := [Ident(name), Str(flag), Semicolon, End];
    assert [Ident(name)] + ([Str(flag)] + ([Semicolon] + [End])) == ts;
    assert PutStrings(One(flag), [Semicolon] + [End]) == [Str(flag)] + ([Semicolon] + [End]);
    assert PutCommand(c, [End]) == ts;
    assert WithArguments(BlankCommand(kind), []) == BlankCommand(kind) && [] + [flag] == [flag];
    assert CommandMeant(c) == BlankCommand(kind).(flags := [flag], hasFlags := true);
  }

  lemma OneCommand(c: WCommand)
    ensures LegalCommands([c]) <==> LegalCommand(c)
    ensures PutProgram([c]) == PutCommand(c, [End]) && CommandsMeant([c]) == [CommandMeant(c)]
  {
    assert [c][1..] == [];
    assert PutProgram([c][1..]) == [End] && CommandsMeant([c][1..]) == [] && LegalCommands([c][1..]);
  }
}
