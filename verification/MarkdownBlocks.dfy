/** The block renderer of core/src/markdown.cpp recognises each kind of block by its lines, ends it where it ends, and shows it
    as its HTML: headings, rules, code, paragraphs and tables. */
module MarkdownBlocks {
  import opened Text
  import opened Html
  import opened MarkdownTree
  import opened MarkdownDoc
  import opened MarkdownSpans
  import opened MarkdownPages

  // ---- lines ----------------------------------------------------------------

  /** `ls` stand in `lines` from `i` on, and `rest` comes after them. */
  predicate Lie(lines: seq<string>, i: nat, ls: seq<string>, rest: seq<string>) {
    i <= |lines| && lines[i..] == ls + rest
  }

  /** Nothing more, or an empty line. */
  predicate Ends(rest: seq<string>) {
    rest == [] || rest[0] == ""
  }

  lemma LieParts(lines: seq<string>, i: nat, ls: seq<string>, rest: seq<string>)
    requires Lie(lines, i, ls, rest)
    ensures var j := i + |ls|;
            && j <= |lines| && lines[j..] == rest && lines[i..j] == ls && (j < |lines| <==> rest != [])
            && (rest != [] ==> lines[j] == rest[0]) && (ls != [] ==> lines[i] == ls[0])
  {
    var j := i + |ls|;
    assert lines[i..][|ls|..] == rest && lines[i..][..|ls|] == ls;
    assert lines[j..] == lines[i..][|ls|..];
    assert lines[i..j] == lines[i..][..|ls|];
    if rest != [] {
      assert lines[j] == lines[i..][|ls|];
    }
    if ls != [] {
      assert lines[i] == lines[i..][0];
    }
  }

  lemma LieRest(lines: seq<string>, i: nat, ls: seq<string>, rest: seq<string>)
    requires Lie(lines, i, ls, rest) && Ends(rest)
    ensures var end := i + |ls|; end <= |lines| && lines[end..] == rest && (end < |lines| ==> lines[end] == "")
  {
    hide Lie;
    LieParts(lines, i, ls, rest);
  }

  lemma LieAt(lines: seq<string>, i: nat, ls: seq<string>, rest: seq<string>, k: nat)
    requires Lie(lines, i, ls, rest) && k < |ls|
    ensures i + k < |lines| && lines[i + k] == ls[k]
  {
    assert lines[i + k] == lines[i..][k];
  }

  lemma {:induction false} TextSourceAt(ls: seq<TextLine>, k: nat)
    requires k < |ls|
    ensures TextSources(ls)[k] == TextSource(ls[k])
  {
    hide TextSource;
    if k > 0 {
      TextSourceAt(ls[1..], k - 1);
    }
  }

  lemma {:induction false} PrefixedAt(prefix: string, lines: seq<string>, k: nat)
    requires k < |lines|
    ensures Prefixed(prefix, lines)[k] == prefix + lines[k]
  {
    if k > 0 {
      PrefixedAt(prefix, lines[1..], k - 1);
    }
  }

  lemma {:induction false} RowSourceAt(rows: seq<seq<seq<Span>>>, k: nat)
    requires k < |rows|
    ensures RowSources(rows)[k] == RowSource(rows[k])
  {
    hide RowSource;
    if k > 0 {
      RowSourceAt(rows[1..], k - 1);
    }
  }

  lemma LieMore(lines: seq<string>, i: nat, a: seq<string>, b: seq<string>, rest: seq<string>)
    requires Lie(lines, i, a + b, rest)
    ensures Lie(lines, i, a, b + rest) && Lie(lines, i + |a|, b, rest)
  {
    Assoc(a, b, rest);
    LieParts(lines, i, a, b + rest);
  }

  lemma EmptyLine()
    ensures IsBlank("") && Indent("") == 0 && !IsRule("") && !IsItem("") && !IsQuote("") && Fence("").None? && !Contains("", '|')
    ensures !IsTableRule("")
  {
    hide DigitRun, MarkRun, IndexOf;
    assert Trim("") == "";
    EmptyItem();
  }

  lemma EmptyItem()
    ensures !IsItem("")
  {
    assert Unindented("") == "";
    ShortItem("", "");
  }

  lemma ShortItem(line: string, t: string)
    requires Unindented(line) == t && |t| < 2
    ensures Bullet(line).None? && Numbered(line).None?
  {
    hide IsRule, Trim, Unindented;
  }

  lemma TrimmedLine(t: string)
    requires Trimmed(t) && t != ""
    ensures Trim(t) == t && Indent(t) == 0 && Unindented(t) == t && !IsBlank(t) && t[0] != ' ' && t[0] != '\t'
  {
    TrimmedIs(t);
    assert t[0] !in " \t\r";
    assert " \t\r"[0] == ' ' && " \t\r"[1] == '\t';
    assert t[0..] == t;
  }

  /** A line whose first character begins no block: nothing but rules, items and fences is left to exclude. */
  lemma FirstOfLine(t: string)
    requires Trimmed(t) && t != ""
    ensures (Fence(t).Some? ==> "```" <= t || "~~~" <= t) && (IsRule(t) ==> t[0] == '-' || t[0] == '*' || t[0] == '_')
    ensures (IsQuote(t) <==> t[0] == '>') && !Indented(t) && Mark(t) == t[0]
    ensures Bullet(t).Some? ==> t[0] == '-' || t[0] == '*' || t[0] == '+'
    ensures Numbered(t).Some? ==> IsDigit(t[0])
  {
    TrimmedLine(t);
    if Numbered(t).Some? {
      assert DigitRun(t) > 0;
    }
  }

  // ---- printing -------------------------------------------------------------

  lemma PrintNl()
    ensures Print(NL) == "\n"
  {
    assert EscapeHtml("\n") == "\n" by {
      assert "\n"[1..] == "" && EscapeHtml("") == "";
    }
  }

  /** A block and the newline after it. */
  lemma PrintLine(node: Node)
    ensures PrintAll([node, NL]) == Print(node) + "\n"
  {
    hide Print;
    PrintNl();
    PrintOne(NL);
    assert [node, NL][1..] == [NL];
  }

  lemma PrintElement(tag: Tag, inner: seq<Node>)
    ensures Print(Element(tag, inner)) == Open(tag) + (PrintAll(inner) + Close(tag))
  {
  }

  /** A tag and the newline after its opening. */
  lemma PrintOpenLine(tag: Tag, inner: seq<Node>)
    ensures Print(Element(tag, [NL] + inner)) == (Open(tag) + "\n") + (PrintAll(inner) + Close(tag))
  {
    hide Print;
    PrintElement(tag, [NL] + inner);
    PrintNl();
    assert ([NL] + inner)[0] == NL && ([NL] + inner)[1..] == inner;
    Assoc("\n", PrintAll(inner), Close(tag));
    Assoc(Open(tag), "\n", PrintAll(inner) + Close(tag));
  }

  // ---- headings and rules -----------------------------------------------------

  lemma {:induction false} MarksRun(c: char, n: nat, rest: string)
    requires rest == "" || rest[0] != c
    ensures MarkRun(Repeat(c, n) + rest, c) == n
  {
    var s := Repeat(c, n) + rest;
    if n == 0 {
      assert s == rest;
    } else {
      assert s[0] == c && s[1..] == Repeat(c, n - 1) + rest;
      MarksRun(c, n - 1, rest);
    }
  }

  lemma HeadingTags(level: nat)
    requires 1 <= level <= 6
    ensures Open(HeadingTag(level)) == HeadingOpen(level) && Close(HeadingTag(level)) == HeadingClose(level)
  {
    var name := ['h', Digit(level)];
    OpenSimple(name);
    HeadingDigits(level);
  }

  lemma HeadingDigits(level: nat)
    requires 1 <= level <= 6
    ensures "<" + ['h', Digit(level)] + ">" == HeadingOpen(level) && "</" + ['h', Digit(level)] + ">" == HeadingClose(level)
  {
    if level == 1 {
      assert Digit(1) == '1';
    } else if level == 2 {
      assert Digit(2) == '2';
    } else if level == 3 {
      assert Digit(3) == '3';
    } else if level == 4 {
      assert Digit(4) == '4';
    } else if level == 5 {
      assert Digit(5) == '5';
    } else {
      assert Digit(6) == '6';
    }
  }

  lemma SpaceTrimmed(t: string)
    requires Trimmed(t)
    ensures Trim(" " + t) == t
  {
    TrimmedIs(t);
    var s := " " + t;
    assert s[0] == ' ' && s[1..] == t;
    assert s[0] in " \t\r";
  }

  lemma HeadingLine(n: nat, opts: Options, level: nat, src: string)
    requires 1 <= level <= 6 && src != "" && Trimmed(src) && src[|src| - 1] != '#'
    ensures var line, tag := Repeat('#', level) + (" " + src), HeadingTag(level);
            && HeadingNode(n, opts, line) == Some(Element(tag, Inline(n + |Open(tag)|, opts, src, 0)))
            && Trimmed(line) && line != "" && line[0] == '#'
  {
    hide Inline, Open;
    var line := Repeat('#', level) + (" " + src);
    assert line[0] == '#' && line[|line| - 1] == src[|src| - 1];
    assert Trimmed(line);
    TrimmedIs(line);
    MarksRun('#', level, " " + src);
    assert line[level] == ' ' && line[level..] == " " + src;
    SpaceTrimmed(src);
    assert NoMarks(src) == src;
    TrimmedIs(src);
  }

  lemma HeadingShows(n: nat, opts: Options, lines: seq<string>, i: nat, level: nat, text: seq<Span>, rest: seq<string>, depth: nat)
    requires Lie(lines, i, BlockLines(Heading(level, text)), rest) && LegalBlock(Heading(level, text), depth, opts.maxNesting)
    requires depth <= opts.maxNesting && n + |BlockShown(opts, Heading(level, text))| <= opts.maxOutput
    ensures i < |lines| && !IsBlank(lines[i])
    ensures var (nodes, next) := BlockAt(n, opts, lines, i, |lines|, depth);
            PrintAll(nodes) == BlockShown(opts, Heading(level, text)) && next == i + 1
  {
    hide HeadingNode, Inline, Open, Close, SourceOf, ShownAll, AllWritable, Trimmed, Print, OtherBlockAt, IsRule, Fence, IsBlank, Mark;
    var src := SourceOf(text);
    var line := Repeat('#', level) + (" " + src);
    LieParts(lines, i, [line], rest);
    HeadingLine(n, opts, level, src);
    TrimmedLine(line);
    FirstOfLine(line);
    var tag := HeadingTag(level);
    HeadingTags(level);
    SpansShow(n + |Open(tag)|, opts, text, 0);
    var node := Element(tag, Inline(n + |Open(tag)|, opts, src, 0));
    PrintElement(tag, Inline(n + |Open(tag)|, opts, src, 0));
    PrintLine(node);
    Assoc(Open(tag), ShownAll(opts, text) + Close(tag), "\n");
    Assoc(ShownAll(opts, text), Close(tag), "\n");
    assert !("```" <= line) && !("~~~" <= line) by {
      assert "```"[0] == '`' && "~~~"[0] == '~';
    }
  }

  lemma DividerShows(n: nat, opts: Options, lines: seq<string>, i: nat, line: string, rest: seq<string>, depth: nat)
    requires Lie(lines, i, [line], rest) && DividerLine(line) && depth <= opts.maxNesting
    ensures i < |lines| && !IsBlank(lines[i])
    ensures var (nodes, next) := BlockAt(n, opts, lines, i, |lines|, depth); PrintAll(nodes) == "<hr>\n" && next == i + 1
  {
    hide OtherBlockAt, HeadingNode, Print;
    LieParts(lines, i, [line], rest);
    DividerIs(line);
    PrintLine(Lone(Rule));
    RulePrint();
  }

  lemma RulePrint()
    ensures Print(Lone(Rule)) == "<hr>"
  {
    assert "<" + ("hr" + ("" + ">")) == "<hr>";
  }

  lemma DividerIs(line: string)
    requires DividerLine(line)
    ensures IsRule(line) && Fence(line).None? && !IsBlank(line)
  {
    assert line[0] == '-' || line[0] == '*' || line[0] == '_' by {
      assert "-*_"[0] == '-' && "-*_"[1] == '*' && "-*_"[2] == '_';
    }
    assert " \t\r"[0] == ' ' && " \t\r"[1] == '\t' && " \t\r"[2] == '\r';
    assert Trimmed(line);
    TrimmedLine(line);
    FirstOfLine(line);
    assert "```"[0] == '`' && "~~~"[0] == '~';
  }

  // ---- code -----------------------------------------------------------------

  lemma FenceLineIs(t: string)
    ensures FenceLine(t) <==> ClosesFence(t)
  {
    hide Trim, MarkRun;
  }

  lemma FenceHead(mark: char, count: nat, info: string)
    requires (mark == '`' || mark == '~') && count >= 3
    ensures var t := Repeat(mark, count) + info;
            |t| >= 3 && t[0] == mark && (t[..3] == "```" || t[..3] == "~~~") && t[3..] == Repeat(mark, count - 3) + info
  {
    var t := Repeat(mark, count) + info;
    var three := t[..3];
    assert three[0] == mark && three[1] == mark && three[2] == mark;
    assert three == [mark, mark, mark];
    assert Repeat(mark, count)[3..] == Repeat(mark, count - 3);
  }

  lemma FenceOpens(mark: char, count: nat, info: string)
    requires (mark == '`' || mark == '~') && count >= 3 && Trimmed(info) && (info != "" ==> info[0] != mark)
    ensures Fence(Repeat(mark, count) + info) == Some(info) && !IsBlank(Repeat(mark, count) + info)
  {
    hide MarkRun, Trimmed, Repeat, Trim;
    var t := Repeat(mark, count) + info;
    FenceTrimmed(mark, count, info);
    TrimmedIs(t);
    FenceHead(mark, count, info);
    MarksRun(mark, count - 3, info);
    assert t[3..][count - 3..] == info;
    TrimmedIs(info);
  }

  lemma FenceTrimmed(mark: char, count: nat, info: string)
    requires (mark == '`' || mark == '~') && count >= 3 && Trimmed(info)
    ensures Trimmed(Repeat(mark, count) + info)
  {
    assert mark !in " \t\r";
  }

  lemma FenceCloses(mark: char, count: nat)
    requires (mark == '`' || mark == '~') && count >= 3
    ensures ClosesFence(Repeat(mark, count))
  {
    FenceOpens(mark, count, "");
    assert Repeat(mark, count) + "" == Repeat(mark, count);
    FenceTrimmed(mark, count, "");
    TrimmedIs(Repeat(mark, count));
  }

  lemma {:induction false} FenceEndAt(lines: seq<string>, j: nat, end: nat, upTo: nat)
    requires j <= end < upTo <= |lines| && ClosesFence(lines[end])
    requires forall i :: j <= i < end ==> !ClosesFence(lines[i])
    ensures FenceEnd(lines, j, upTo) == end
    decreases end - j
  {
    hide ClosesFence;
    if j < end {
      FenceEndAt(lines, j + 1, end, upTo);
    }
  }

  lemma CodeNodePrints(code: Tag, text: string, opening: string)
    requires "<pre>" + Open(code) == opening && Close(code) == "</code>"
    ensures PrintAll([CodeNode(code, text), NL]) == opening + (EscapeHtml(text) + "</code></pre>\n")
  {
    hide EscapeHtml, Open, Close, Print;
    var inner := Element(code, [Words(text)]);
    PrintLine(CodeNode(code, text));
    PrintElement(Simple("pre"), [inner]);
    PrintOne(inner);
    PrintElement(code, [Words(text)]);
    PrintOne(Words(text));
    WordsPrint(text);
    PreTags();
    var e := EscapeHtml(text);
    Assoc("<pre>", (Open(code) + (e + "</code>")) + "</pre>", "\n");
    Assoc(Open(code) + (e + "</code>"), "</pre>", "\n");
    Assoc(Open(code), e + "</code>", "</pre>\n");
    Assoc(e, "</code>", "</pre>\n");
    Assoc("<pre>", Open(code), e + "</code></pre>\n");
    assert "</pre>" + "\n" == "</pre>\n" && "</code>" + "</pre>\n" == "</code></pre>\n";
  }

  lemma PreTags()
    ensures Open(Simple("pre")) == "<pre>" && Close(Simple("pre")) == "</pre>"
  {
    OpenSimple("pre");
  }

  lemma CodeTags(info: string)
    ensures Open(Simple("code")) == "<code>" && Close(Simple("code")) == "</code>" && Close(LangCode(info)) == "</code>"
    ensures Open(LangCode(info)) == "<code class=\"lang-" + (EscapeHtml(info) + "\">")
  {
    hide EscapeHtml;
    OpenSimple("code");
    var e := EscapeHtml(info);
    assert "<" + ("code" + ((" class=\"lang-" + (e + "\"")) + ">")) == "<code class=\"lang-" + (e + "\">");
  }

  lemma FenceAt(n: nat, opts: Options, lines: seq<string>, i: nat, mark: char, count: nat, info: string, inner: seq<string>, rest: seq<string>, depth: nat)
    requires var foot := Repeat(mark, count); Lie(lines, i, [foot + info] + (inner + [foot]), rest)
    requires (mark == '`' || mark == '~') && count >= 3 && Trimmed(info) && (info != "" ==> info[0] != mark)
    requires (forall k :: 0 <= k < |inner| ==> !FenceLine(inner[k])) && depth <= opts.maxNesting
    ensures i < |lines| && !IsBlank(lines[i])
    ensures BlockAt(n, opts, lines, i, |lines|, depth) ==
            ([CodeNode(if info == "" then Simple("code") else LangCode(info), Terminate(inner)), NL], i + |inner| + 2)
  {
    hide ClosesFence, FenceLine, Fence, IsBlank, Terminate, BlockAt, FenceEnd, Trimmed, Repeat, Lie;
    var foot, end := Repeat(mark, count), i + 1 + |inner|;
    FenceLines(lines, i, foot + info, foot, inner, rest);
    FenceOpens(mark, count, info);
    FenceCloses(mark, count);
    NoneCloses(lines, i + 1, inner);
    FenceEndAt(lines, i + 1, end, |lines|);
    FencedBlock(n, opts, lines, i, info, end, depth);
  }

  lemma NoneCloses(lines: seq<string>, from: nat, inner: seq<string>)
    requires from + |inner| <= |lines| && lines[from..from + |inner|] == inner && forall k :: 0 <= k < |inner| ==> !FenceLine(inner[k])
    ensures forall j :: from <= j < from + |inner| ==> !ClosesFence(lines[j])
  {
    hide ClosesFence, FenceLine;
    forall j | from <= j < from + |inner|
      ensures !ClosesFence(lines[j])
    {
      assert lines[j] == lines[from..from + |inner|][j - from];
      FenceLineIs(inner[j - from]);
    }
  }

  lemma FenceLines(lines: seq<string>, i: nat, head: string, foot: string, inner: seq<string>, rest: seq<string>)
    requires Lie(lines, i, [head] + (inner + [foot]), rest)
    ensures i + |inner| + 2 <= |lines| && lines[i] == head && lines[i + 1 + |inner|] == foot && lines[i + 1..i + 1 + |inner|] == inner
  {
    hide Lie;
    LieMore(lines, i, [head], inner + [foot], rest);
    LieMore(lines, i + 1, inner, [foot], rest);
    LieParts(lines, i, [head], (inner + [foot]) + rest);
    LieParts(lines, i + 1, inner, [foot] + rest);
    LieParts(lines, i + 1 + |inner|, [foot], rest);
    assert lines[i + 0] == [head][0];
  }

  lemma FencedBlock(n: nat, opts: Options, lines: seq<string>, i: nat, info: string, end: nat, depth: nat)
    requires i < |lines| && Fence(lines[i]) == Some(info) && !IsBlank(lines[i]) && i + 1 <= end < |lines| && depth <= opts.maxNesting
    requires FenceEnd(lines, i + 1, |lines|) == end
    ensures BlockAt(n, opts, lines, i, |lines|, depth) ==
            ([CodeNode(if info == "" then Simple("code") else LangCode(info), Terminate(lines[i + 1..end])), NL], end + 1)
  {
    hide Fence, Terminate, OtherBlockAt, IsRule, HeadingNode, FenceEnd, IsBlank;
  }

  lemma InnerLines(lines: seq<string>, i: nat, foot: string, info: string, inner: seq<string>)
    requires var all := [foot + info] + (inner + [foot]); i + |all| <= |lines| && lines[i..i + |all|] == all
    ensures lines[i + 1..i + 1 + |inner|] == inner
  {
    var all := [foot + info] + (inner + [foot]);
    assert all[1..1 + |inner|] == inner;
    forall k | 0 <= k < |inner|
      ensures lines[i + 1..i + 1 + |inner|][k] == inner[k]
    {
      assert lines[i..i + |all|][1 + k] == all[1 + k];
    }
  }

  lemma FencedShows(n: nat, opts: Options, lines: seq<string>, i: nat, b: Block, rest: seq<string>, depth: nat)
    requires b.Fenced? && Lie(lines, i, BlockLines(b), rest) && LegalBlock(b, depth, opts.maxNesting) && depth <= opts.maxNesting
    ensures i < |lines| && !IsBlank(lines[i])
    ensures var (nodes, next) := BlockAt(n, opts, lines, i, |lines|, depth);
            PrintAll(nodes) == BlockShown(opts, b) && next == i + |BlockLines(b)|
  {
    hide FenceLine, IsBlank, Open, Close, Terminate, EscapeHtml, BlockAt, Trimmed, CodeNode, Repeat, Lie;
    FenceAt(n, opts, lines, i, b.mark, b.count, b.info, b.lines, rest, depth);
    CodeTags(b.info);
    if b.info == "" {
      assert "<pre>" + "<code>" == "<pre><code>";
      CodeNodePrints(Simple("code"), Terminate(b.lines), "<pre><code>");
    } else {
      Assoc("<pre>", "<code class=\"lang-", EscapeHtml(b.info) + "\">");
      assert "<pre>" + "<code class=\"lang-" == "<pre><code class=\"lang-";
      CodeNodePrints(LangCode(b.info), Terminate(b.lines), "<pre><code class=\"lang-" + (EscapeHtml(b.info) + "\">"));
    }
  }

  /** A line of indented code. */
  lemma CodeLineIs(t: string)
    requires NotBlank(t)
    ensures var line := "    " + t; Indented(line) && !IsBlank(line) && CutFour(line) == t
  {
    var line := "    " + t;
    assert line[4..] == t;
    SpacesIndent(t);
    var k :| 0 <= k < |t| && t[k] !in " \t\r";
    NotBlankTrim(line, 4 + k);
  }

  lemma SpaceIndent(t: string)
    ensures Indent(" " + t) == 1 + Indent(t)
  {
    assert (" " + t)[0] == ' ' && (" " + t)[1..] == t;
  }

  lemma SpacesIndent(t: string)
    ensures Indent("    " + t) == 4 + Indent(t) && Indent("  " + t) == 2 + Indent(t)
  {
    hide Indent;
    SpaceIndent(t);
    SpaceIndent(" " + t);
    SpaceIndent("  " + t);
    SpaceIndent("   " + t);
    assert " " + (" " + t) == "  " + t;
    assert " " + ("  " + t) == "   " + t;
    assert " " + ("   " + t) == "    " + t;
  }

  lemma {:induction false} NotBlankTrim(t: string, k: nat)
    requires k < |t| && t[k] !in " \t\r"
    ensures !IsBlank(t)
    decreases |t|
  {
    if t[0] in " \t\r" {
      assert t[1..][k - 1] == t[k];
      NotBlankTrim(t[1..], k - 1);
    } else if t[|t| - 1] in " \t\r" {
      assert t[..|t| - 1][k] == t[k];
      NotBlankTrim(t[..|t| - 1], k);
    }
  }

  /** Lines of indented code, none of them blank. */
  predicate CodeStands(lines: seq<string>, i: nat, code: seq<string>) {
    i + |code| <= |lines| && forall j :: 0 <= j < |code| ==> lines[i + j] == "    " + code[j] && NotBlank(code[j])
  }

  lemma {:induction false} CodeLinesAre(lines: seq<string>, i: nat, code: seq<string>, k: nat)
    requires k <= |code| && CodeStands(lines, i, code)
    ensures CodeLines(lines, i, i + k) == code[..k]
    decreases k
  {
    hide CutFour, NotBlank;
    if k > 0 {
      CodeLinesAre(lines, i, code, k - 1);
      CodeLineIs(code[k - 1]);
      assert lines[i + (k - 1)] == "    " + code[k - 1];
      assert code[..k] == code[..k - 1] + [code[k - 1]];
    }
  }

  /** No indented code comes after the empty lines that follow. */
  predicate NoCodeNext(rest: seq<string>) {
    rest == [] || (rest[0] == "" && NoCodeNext(rest[1..])) || (!IsBlank(rest[0]) && !Indented(rest[0]))
  }

  lemma {:induction false} CodeStops(lines: seq<string>, j: nat, rest: seq<string>)
    requires j <= |lines| && lines[j..] == rest && NoCodeNext(rest)
    ensures var k := AfterBlanks(lines, j, |lines|); k == |lines| || !Indented(lines[k])
    decreases |rest|
  {
    hide IsBlank, Indented;
    if rest != [] && rest[0] == "" && NoCodeNext(rest[1..]) {
      EmptyLine();
      assert lines[j] == lines[j..][0] == "";
      assert lines[j + 1..] == rest[1..];
      CodeStops(lines, j + 1, rest[1..]);
    } else if rest != [] {
      assert lines[j] == lines[j..][0];
    }
  }

  lemma {:induction false} CodeRuns(lines: seq<string>, i: nat, code: seq<string>, k: nat, rest: seq<string>)
    requires k <= |code| && CodeStands(lines, i, code) && lines[i + |code|..] == rest && NoCodeNext(rest)
    ensures IndentedEnd(lines, i + k, |lines|) == i + |code|
    decreases |code| - k
  {
    hide IsBlank, Indented, NotBlank, AfterBlanks;
    var j := i + k;
    if k < |code| {
      CodeLineIs(code[k]);
      CodeRuns(lines, i, code, k + 1, rest);
    } else {
      CodeStops(lines, j, rest);
      if j < |lines| {
        BlanksStart(lines, j);
      }
    }
  }

  lemma BlanksStart(lines: seq<string>, j: nat)
    requires j < |lines|
    ensures !IsBlank(lines[j]) ==> AfterBlanks(lines, j, |lines|) == j
  {
  }

  /** What is in a line besides blanks at its ends is still there when they are gone. */
  lemma {:induction false} TrimKeepsText(t: string, k: nat) returns (j: nat)
    requires k < |t| && t[k] !in " \t\r"
    ensures j < |Trim(t)| && Trim(t)[j] == t[k]
    decreases |t|
  {
    if t[0] in " \t\r" {
      assert t[1..][k - 1] == t[k];
      j := TrimKeepsText(t[1..], k - 1);
    } else if t[|t| - 1] in " \t\r" {
      assert t[..|t| - 1][k] == t[k];
      j := TrimKeepsText(t[..|t| - 1], k);
    } else {
      j := k;
    }
  }

  lemma {:induction false} TrimStarts(t: string)
    requires t != "" && t[0] !in " \t\r"
    ensures Trim(t) != "" && Trim(t)[0] == t[0] && Trim(t) <= t
    decreases |t|
  {
    if t[|t| - 1] in " \t\r" {
      TrimStarts(t[..|t| - 1]);
    }
  }

  lemma NotRule(t: string)
    requires HasText(t)
    ensures !IsRule(t) && !IsTableRule(t) && !IsBlank(t)
  {
    hide Trim;
    var k :| 0 <= k < |t| && t[k] !in "|-:*_ \t\r";
    TextIsNot(t[k]);
    var j := TrimKeepsText(t, k);
    NotBlankTrim(t, k);
  }

  lemma TextIsNot(c: char)
    requires c !in "|-:*_ \t\r"
    ensures c !in " \t\r" && c != '|' && c != '-' && c != ':' && c != '*' && c != '_' && c != ' '
  {
    var s := "|-:*_ \t\r";
    assert s[0] == '|' && s[1] == '-' && s[2] == ':' && s[3] == '*' && s[4] == '_' && s[5] == ' ' && s[6] == '\t' && s[7] == '\r';
  }

  // ---- paragraphs -----------------------------------------------------------

  lemma PlainStart(t: string)
    requires OrdinaryText(t)
    ensures t != "" && t[0] != '#' && t[0] != '>' && t[0] != '+' && t[0] != '-' && t[0] != '~' && t[0] !in " \t\r"
  {
    var s := "#>+-~";
    assert s[0] == '#' && s[1] == '>' && s[2] == '+' && s[3] == '-' && s[4] == '~';
  }

  lemma HardIs(t: string, hard: bool)
    requires Trimmed(t) && t != ""
    ensures var line := t + (if hard then "  " else "");
            HardBreak(line) == hard && Trim(line) == t && Indent(line) == 0 && Unindented(line) == line
  {
    var line := t + (if hard then "  " else "");
    TrimmedLine(t);
    assert line[0] == t[0];
    assert line[0..] == line;
    if hard {
      assert line[|line| - 2..] == "  ";
      assert line[..|line| - 1] == t + " " && (t + " ")[..|t|] == t;
      TrimLast(t + " ", t);
      TrimLast(line, t + " ");
    } else {
      assert line == t;
      assert |line| >= 2 ==> line[|line| - 2..][1] == t[|t| - 1] != ' ';
    }
  }

  lemma TrimLast(t: string, front: string)
    requires t == front + " " && front != "" && front[0] !in " \t\r"
    ensures Trim(t) == Trim(front)
  {
    assert t[0] == front[0] && t[|t| - 1] == ' ' && t[..|t| - 1] == front;
    assert ' ' in " \t\r";
  }

  /** A line of a paragraph is no other kind of line. */
  lemma PlainLine(t: string, hard: bool)
    requires var line := t + (if hard then "  " else ""); OrdinaryText(t) && !StartsNumbered(line)
    ensures var line := t + (if hard then "  " else "");
            && Trim(line) == t && !IsBlank(line) && !IsRule(line) && Fence(line).None? && !IsItem(line) && !IsQuote(line)
            && Mark(line) != '#' && !Indented(line) && !IsTableRule(line) && HardBreak(line) == hard
  {
    hide Trim, HardBreak, IsRule, IsTableRule, Unindented, HasText, Trimmed;
    var line := t + (if hard then "  " else "");
    PlainStart(t);
    HardIs(t, hard);
    assert line[0] == t[0];
    NotRule(t);
    assert HasText(line) by {
      TextStays(t, if hard then "  " else "");
    }
    NotRule(line);
    PlainItem(t, hard);
    assert Fence(line).None? by {
      FirstThree(t);
    }
  }

  lemma TextStays(t: string, more: string)
    requires HasText(t)
    ensures HasText(t + more)
  {
    var k :| 0 <= k < |t| && t[k] !in "|-:*_ \t\r";
    assert (t + more)[k] == t[k];
  }

  lemma FirstThree(t: string)
    requires OrdinaryText(t)
    ensures |t| >= 3 ==> t[..3] != "```" && t[..3] != "~~~"
  {
    PlainStart(t);
    assert "~~~"[0] == '~';
  }

  lemma PlainItem(t: string, hard: bool)
    requires var line := t + (if hard then "  " else ""); OrdinaryText(t) && !StartsNumbered(line) && Unindented(line) == line
    ensures !IsItem(t + (if hard then "  " else ""))
  {
    hide Unindented, IsRule, Trim, HasText, Trimmed, DigitRun;
    var line := t + (if hard then "  " else "");
    PlainStart(t);
    assert line[0] == t[0];
    if t[0] == '*' {
      assert line[1] == t[1];
    }
  }

  lemma {:induction false} ParagraphRuns(lines: seq<string>, i: nat, texts: seq<TextLine>, k: nat, rest: seq<string>)
    requires k <= |texts| && i + |texts| <= |lines| && lines[i + |texts|..] == rest && Ends(rest) && LegalTexts(texts[k..])
    requires forall j :: 0 <= j < |texts| ==> lines[i + j] == TextSource(texts[j])
    ensures ParagraphEnd(lines, i, i + k, |lines|) == i + |texts|
    decreases |texts| - k
  {
    hide OfParagraph, OrdinaryText;
    if k < |texts| {
      var t := SourceOf(texts[k].text);
      assert texts[k..][0] == texts[k] && texts[k..][1..] == texts[k + 1..];
      assert lines[i + k] == TextSource(texts[k]);
      PlainLine(t, texts[k].hard);
      PlainContinues(lines, i, i + k);
      ParagraphRuns(lines, i, texts, k + 1, rest);
    } else if rest != [] {
      EmptyLine();
      assert lines[i + k] == lines[i + k..][0] == "";
      ParagraphStops(lines, i, i + k);
    }
  }

  lemma PlainContinues(lines: seq<string>, i: nat, j: nat)
    requires i <= j < |lines|
    requires var line := lines[j]; !IsBlank(line) && !IsRule(line) && Fence(line).None? && !IsItem(line) && !IsQuote(line)
    ensures OfParagraph(lines, i, j)
  {
  }

  lemma ParagraphStops(lines: seq<string>, i: nat, j: nat)
    requires i <= j < |lines| && IsBlank(lines[j])
    ensures !OfParagraph(lines, i, j)
  {
  }

  /** What comes between two lines of a paragraph. */
  lemma GapShows(lines: seq<string>, from: nat, i: nat, hard: bool)
    requires from < i <= |lines| && HardBreak(lines[i - 1]) == hard
    ensures PrintAll(LineGap(lines, from, i)) == if hard then "<br>\n" else "\n"
  {
    hide HardBreak, Print;
    PrintLine(Lone(Break));
    PrintOne(NL);
    PrintNl();
    BreakPrint();
    assert "<br>" + "\n" == "<br>\n";
  }

  lemma BreakPrint()
    ensures Print(Lone(Break)) == "<br>"
  {
    assert "<" + ("br" + ("" + ">")) == "<br>";
  }

  /** The lines of a paragraph from the `k`th on, with what comes before them. */
  lemma {:induction false} TextsShow(n: nat, opts: Options, lines: seq<string>, from: nat, texts: seq<TextLine>, k: nat)
    requires k < |texts| && from + |texts| <= |lines| && LegalTexts(texts[k..])
    requires forall j :: 0 <= j < |texts| ==> lines[from + j] == TextSource(texts[j])
    requires k > 0 ==> HardBreak(lines[from + k - 1]) == texts[k - 1].hard
    requires var gap := if k == 0 then "" else if texts[k - 1].hard then "<br>\n" else "\n";
             n + |gap| + |TextShown(opts, texts[k..])| <= opts.maxOutput
    ensures var gap := if k == 0 then "" else if texts[k - 1].hard then "<br>\n" else "\n";
            PrintAll(ParagraphLines(n, opts, lines, from, from + k, from + |texts|)) == gap + TextShown(opts, texts[k..])
    decreases |texts| - k
  {
    hide Inline, ShownAll, HardBreak, OrdinaryText, LineGap, SourceOf, AllWritable, TextSource, TextShown, PrintAll;
    var l, i, upTo := texts[k], from + k, from + |texts|;
    var here := texts[k..];
    var gap := if k == 0 then "" else if texts[k - 1].hard then "<br>\n" else "\n";
    assert here[0] == l && here[1..] == texts[k + 1..];
    LineParts(l);
    if k > 0 {
      GapShows(lines, from, i, texts[k - 1].hard);
    } else {
      FirstGap(lines, from);
    }
    assert lines[from + k] == TextSource(l);
    TextShownStep(opts, here);
    TextLineShows(n, opts, lines, from, i, l, gap);
    TextsFollow(n, opts, lines, from, i, upTo, gap + ShownAll(opts, l.text));
    if k + 1 < |texts| {
      TextsShow(n + |gap + ShownAll(opts, l.text)|, opts, lines, from, texts, k + 1);
      Assoc(gap, ShownAll(opts, l.text), (if l.hard then "<br>\n" else "\n") + TextShown(opts, texts[k + 1..]));
    } else {
      NothingPrinted();
      assert (gap + ShownAll(opts, l.text)) + "" == gap + ShownAll(opts, l.text);
    }
  }

  /** The nodes of one line of a paragraph. */
  function LineNodes(n: nat, opts: Options, lines: seq<string>, from: nat, i: nat): seq<Node>
    requires from <= i < |lines|
  {
    var gap := LineGap(lines, from, i);
    gap + Inline(n + |PrintAll(gap)|, opts, Trim(lines[i]), 0)
  }

  lemma TextLineShows(n: nat, opts: Options, lines: seq<string>, from: nat, i: nat, l: TextLine, gap: string)
    requires from <= i < |lines| && Trim(lines[i]) == SourceOf(l.text) && AllWritable(l.text, "", 0)
    requires PrintAll(LineGap(lines, from, i)) == gap && n + |gap| + |ShownAll(opts, l.text)| <= opts.maxOutput
    ensures PrintAll(LineNodes(n, opts, lines, from, i)) == gap + ShownAll(opts, l.text)
  {
    hide Inline, ShownAll, LineGap, SourceOf, AllWritable, PrintAll;
    SpansShow(n + |gap|, opts, l.text, 0);
    PrintJoin(LineGap(lines, from, i), Inline(n + |gap|, opts, SourceOf(l.text), 0));
  }

  lemma TextsFollow(n: nat, opts: Options, lines: seq<string>, from: nat, i: nat, upTo: nat, first: string)
    requires from <= i < upTo <= |lines| && PrintAll(LineNodes(n, opts, lines, from, i)) == first
    ensures PrintAll(ParagraphLines(n, opts, lines, from, i, upTo)) ==
            first + PrintAll(ParagraphLines(n + |first|, opts, lines, from, i + 1, upTo))
    ensures i + 1 == upTo ==> ParagraphLines(n + |first|, opts, lines, from, i + 1, upTo) == []
  {
    hide Inline, LineGap, PrintAll;
    PrintJoin(LineNodes(n, opts, lines, from, i), ParagraphLines(n + |first|, opts, lines, from, i + 1, upTo));
  }

  lemma NothingPrinted()
    ensures PrintAll([]) == ""
  {
  }

  lemma TextShownStep(opts: Options, ls: seq<TextLine>)
    requires ls != []
    ensures TextShown(opts, ls) ==
            if |ls| == 1 then ShownAll(opts, ls[0].text)
            else ShownAll(opts, ls[0].text) + ((if ls[0].hard then "<br>\n" else "\n") + TextShown(opts, ls[1..]))
  {
    hide ShownAll;
    assert ShownAll(opts, ls[0].text) + "" == ShownAll(opts, ls[0].text);
  }

  lemma FirstGap(lines: seq<string>, from: nat)
    requires from <= |lines|
    ensures PrintAll(LineGap(lines, from, from)) == ""
  {
  }

  lemma LineParts(l: TextLine)
    requires OrdinaryText(SourceOf(l.text))
    ensures Trim(TextSource(l)) == SourceOf(l.text) && HardBreak(TextSource(l)) == l.hard
  {
    PlainStart(SourceOf(l.text));
    HardIs(SourceOf(l.text), l.hard);
  }

  lemma ParagraphShows(n: nat, opts: Options, lines: seq<string>, i: nat, texts: seq<TextLine>, rest: seq<string>, depth: nat)
    requires Lie(lines, i, TextSources(texts), rest) && Ends(rest) && texts != [] && LegalTexts(texts) && depth <= opts.maxNesting
    requires n + |BlockShown(opts, Paragraph(texts))| <= opts.maxOutput
    ensures i < |lines| && !IsBlank(lines[i])
    ensures var (nodes, next) := BlockAt(n, opts, lines, i, |lines|, depth);
            PrintAll(nodes) == BlockShown(opts, Paragraph(texts)) && next == i + |texts|
  {
    hide ParagraphLines, TextShown, Print, OrdinaryText, ParagraphEnd, BlockAt, Open, Close, TextSource, Lie, LegalTexts, IsBlank;
    TextLinesAre(lines, i, texts, rest);
    LieRest(lines, i, TextSources(texts), rest);
    assert texts[0..] == texts;
    ParagraphRuns(lines, i, texts, 0, rest);
    var end := i + |texts|;
    ParagraphTags();
    TextsShow(n + 3, opts, lines, i, texts, 0);
    assert "" + TextShown(opts, texts) == TextShown(opts, texts);
    ParagraphAt(n, opts, lines, i, texts, depth);
    var inner := ParagraphLines(n + 3, opts, lines, i, i, end);
    PrintElement(Simple("p"), inner);
    PrintLine(Element(Simple("p"), inner));
    Assoc("<p>", TextShown(opts, texts) + "</p>", "\n");
    Assoc(TextShown(opts, texts), "</p>", "\n");
    assert "</p>" + "\n" == "</p>\n";
  }

  lemma TextLineAt(lines: seq<string>, i: nat, texts: seq<TextLine>, rest: seq<string>, j: nat)
    requires Lie(lines, i, TextSources(texts), rest) && j < |texts|
    ensures i + j < |lines| && lines[i + j] == TextSource(texts[j])
  {
    hide Lie, TextSource;
    LieAt(lines, i, TextSources(texts), rest, j);
    TextSourceAt(texts, j);
  }

  lemma TextLinesAre(lines: seq<string>, i: nat, texts: seq<TextLine>, rest: seq<string>)
    requires Lie(lines, i, TextSources(texts), rest)
    ensures i + |texts| <= |lines|
    ensures forall j :: 0 <= j < |texts| ==> lines[i + j] == TextSource(texts[j])
  {
    hide Lie, TextSource, TextSources;
    LieParts(lines, i, TextSources(texts), rest);
    forall j | 0 <= j < |texts|
      ensures i + j < |lines| && lines[i + j] == TextSource(texts[j])
    {
      TextLineAt(lines, i, texts, rest, j);
    }
  }

  lemma ParagraphTags()
    ensures Open(Simple("p")) == "<p>" && Close(Simple("p")) == "</p>"
  {
    OpenSimple("p");
  }

  lemma ParagraphAt(n: nat, opts: Options, lines: seq<string>, i: nat, texts: seq<TextLine>, depth: nat)
    requires i + |texts| <= |lines| && texts != [] && LegalTexts(texts) && depth <= opts.maxNesting
    requires forall j :: 0 <= j < |texts| ==> lines[i + j] == TextSource(texts[j])
    requires ParagraphEnd(lines, i, i, |lines|) == i + |texts|
    requires i + 1 < |lines| ==> lines[i + 1] == "" || |texts| > 1
    ensures !IsBlank(lines[i])
    ensures BlockAt(n, opts, lines, i, |lines|, depth) ==
            ([Element(Simple("p"), ParagraphLines(n + |Open(Simple("p"))|, opts, lines, i, i, i + |texts|)), NL], i + |texts|)
  {
    hide ParagraphLines, OrdinaryText, ParagraphEnd, Open, Fence, IsRule, IsItem, IsQuote, Mark, IsBlank, Indented, IsTableRule, BlockAt,
      TextSource, LegalTexts;
    TextLineIs(texts, 0);
    assert lines[i + 0] == TextSource(texts[0]);
    EmptyLine();
    if |texts| > 1 {
      assert lines[i + 1] == TextSource(texts[1]);
      TextLineIs(texts, 1);
    }
    OnlyParagraph(n, opts, lines, i, i + |texts|, depth);
  }

  lemma TextLineIs(texts: seq<TextLine>, k: nat)
    requires k < 2 && k < |texts| && LegalTexts(texts)
    ensures var line := TextSource(texts[k]);
            && !IsBlank(line) && !IsRule(line) && Fence(line).None? && !IsItem(line) && !IsQuote(line)
            && Mark(line) != '#' && !Indented(line) && !IsTableRule(line)
  {
    hide Fence, IsRule, IsItem, IsQuote, Mark, IsBlank, Indented, IsTableRule, OrdinaryText;
    assert k == 1 ==> texts[1..][0] == texts[1];
    PlainLine(SourceOf(texts[k].text), texts[k].hard);
  }

  lemma OnlyParagraph(n: nat, opts: Options, lines: seq<string>, i: nat, end: nat, depth: nat)
    requires i < end <= |lines| && depth <= opts.maxNesting && ParagraphEnd(lines, i, i, |lines|) == end
    requires var line := lines[i];
             && !IsBlank(line) && !IsRule(line) && Fence(line).None? && !IsItem(line) && !IsQuote(line) && Mark(line) != '#' && !Indented(line)
    requires i + 1 < |lines| ==> !IsTableRule(lines[i + 1])
    ensures BlockAt(n, opts, lines, i, |lines|, depth) ==
            ([Element(Simple("p"), ParagraphLines(n + |Open(Simple("p"))|, opts, lines, i, i, end)), NL], end)
  {
    hide ParagraphLines, ParagraphEnd, Open, Fence, IsRule, IsItem, IsQuote, Mark, IsBlank, Indented, IsTableRule, Contains;
  }
}
