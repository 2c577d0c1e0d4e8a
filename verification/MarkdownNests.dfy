/** Quotes and lists, whose blocks are rendered on their own, and whole pages of blocks: the block renderer of
    core/src/markdown.cpp shows each as its HTML, one after the other. */
module MarkdownNests {
  import opened Text
  import opened Html
  import opened MarkdownTree
  import opened MarkdownDoc
  import opened MarkdownSpans
  import opened MarkdownPages
  import opened MarkdownBlocks
  import opened MarkdownRows

  // ---- quotes -----------------------------------------------------------------

  lemma QuoteLineIs(l: string)
    requires Quotable(l)
    ensures var line := "> " + l;
            && !IsBlank(line) && Fence(line).None? && !IsRule(line) && Mark(line) != '#' && IsQuote(line) && Unquoted(line) == l
  {
    hide MarkRun;
    var line := "> " + l;
    assert '>' !in " \t\r" && ' ' in " \t\r";
    assert line[0] == '>' && line[1..] == " " + l;
    if l == "" {
      assert line == "> " && line[..1] == ">";
      TrimLast(line, ">");
      TrimmedIs(">");
      assert ">"[1..] == "";
    } else {
      assert line[|line| - 1] == l[|l| - 1];
      TrimmedIs(line);
      assert (" " + l)[1..] == l;
    }
    assert Indent(line) == 0;
    var t := Trim(line);
    assert |t| >= 3 ==> t[..3][0] == '>';
  }

  predicate QuotesStand(lines: seq<string>, i: nat, inner: seq<string>) {
    i + |inner| <= |lines| && forall j :: 0 <= j < |inner| ==> lines[i + j] == "> " + inner[j] && Quotable(inner[j])
  }

  lemma QuoteLineAt(lines: seq<string>, i: nat, inner: seq<string>, rest: seq<string>, j: nat)
    requires Lie(lines, i, Prefixed("> ", inner), rest) && j < |inner|
    ensures i + j < |lines| && lines[i + j] == "> " + inner[j]
  {
    hide Lie;
    LieAt(lines, i, Prefixed("> ", inner), rest, j);
    PrefixedAt("> ", inner, j);
  }

  lemma QuotesLie(lines: seq<string>, i: nat, inner: seq<string>, rest: seq<string>)
    requires Lie(lines, i, Prefixed("> ", inner), rest) && forall k :: 0 <= k < |inner| ==> Quotable(inner[k])
    ensures QuotesStand(lines, i, inner)
  {
    hide Lie, Quotable, Prefixed;
    LieParts(lines, i, Prefixed("> ", inner), rest);
    forall j | 0 <= j < |inner|
      ensures i + j < |lines| && lines[i + j] == "> " + inner[j]
    {
      QuoteLineAt(lines, i, inner, rest, j);
    }
  }

  lemma QuoteAt(lines: seq<string>, i: nat, inner: seq<string>, k: nat)
    requires QuotesStand(lines, i, inner) && k < |inner|
    ensures i + k < |lines|
    ensures var line := lines[i + k];
            && !IsBlank(line) && Fence(line).None? && !IsRule(line) && Mark(line) != '#' && IsQuote(line) && Unquoted(line) == inner[k]
  {
    hide IsBlank, Fence, IsRule, Mark, IsQuote, Unquoted, Quotable;
    assert lines[i + k] == "> " + inner[k];
    QuoteLineIs(inner[k]);
  }

  lemma {:induction false} QuoteRuns(lines: seq<string>, i: nat, inner: seq<string>, k: nat)
    requires k <= |inner| && QuotesStand(lines, i, inner) && (i + |inner| < |lines| ==> lines[i + |inner|] == "")
    ensures i + |inner| <= |lines| && QuoteEnd(lines, i + k, |lines|) == i + |inner|
    decreases |inner| - k
  {
    hide QuotesStand, IsQuote, Unquoted, IsBlank, Fence, IsRule, Mark;
    StandsWithin(lines, i, inner);
    if k < |inner| {
      QuoteAt(lines, i, inner, k);
      QuoteRuns(lines, i, inner, k + 1);
    } else {
      EmptyLine();
    }
  }

  lemma StandsWithin(lines: seq<string>, i: nat, inner: seq<string>)
    requires QuotesStand(lines, i, inner)
    ensures i + |inner| <= |lines|
  {
  }

  lemma {:induction false} QuoteLinesAre(lines: seq<string>, i: nat, inner: seq<string>, k: nat)
    requires k <= |inner| && QuotesStand(lines, i, inner)
    ensures i + k <= |lines| && QuoteLines(lines, i, i + k) == inner[..k]
    decreases k
  {
    hide QuotesStand, IsQuote, Unquoted, IsBlank, Fence, IsRule, Mark;
    StandsWithin(lines, i, inner);
    if k > 0 {
      QuoteLinesAre(lines, i, inner, k - 1);
      QuoteAt(lines, i, inner, k - 1);
      assert inner[..k] == inner[..k - 1] + [inner[k - 1]];
    }
  }

  lemma OnlyQuote(n: nat, opts: Options, lines: seq<string>, i: nat, end: nat, depth: nat)
    requires i < end <= |lines| && depth <= opts.maxNesting && QuoteEnd(lines, i, |lines|) == end
    requires var line := lines[i]; !IsBlank(line) && Fence(line).None? && !IsRule(line) && Mark(line) != '#' && IsQuote(line)
    ensures BlockAt(n, opts, lines, i, |lines|, depth) == ([QuoteNode(n, opts, QuoteLines(lines, i, end), depth), NL], end)
  {
    hide Fence, IsRule, IsQuote, Mark, IsBlank, QuoteEnd, QuoteNode, QuoteLines;
  }

  lemma QuoteTags()
    ensures Open(Simple("blockquote")) == "<blockquote>" && Close(Simple("blockquote")) == "</blockquote>"
  {
    OpenSimple("blockquote");
  }

  lemma QuotePrints(n: nat, opts: Options, inner: seq<string>, shown: string, depth: nat)
    requires depth <= opts.maxNesting
    requires PrintAll(BlocksOf(n + 12 + 1, opts, inner, 0, |inner|, depth + 1)) == shown
    ensures PrintAll([QuoteNode(n, opts, inner, depth), NL]) == "<blockquote>\n" + (shown + "</blockquote>\n")
  {
    hide BlocksOf, Open, Close, Print, PrintAll;
    QuoteTags();
    var blocks := BlocksOf(n + 12 + 1, opts, inner, 0, |inner|, depth + 1);
    PrintLine(QuoteNode(n, opts, inner, depth));
    PrintOpenLine(Simple("blockquote"), blocks);
    assert "<blockquote>" + "\n" == "<blockquote>\n" && "</blockquote>" + "\n" == "</blockquote>\n";
    Assoc("<blockquote>\n", shown + "</blockquote>", "\n");
    Assoc(shown, "</blockquote>", "\n");
  }

  lemma QuoteIs(n: nat, opts: Options, lines: seq<string>, i: nat, inner: seq<string>, rest: seq<string>, depth: nat)
    requires Lie(lines, i, Prefixed("> ", inner), rest) && Ends(rest) && inner != [] && depth <= opts.maxNesting
    requires forall k :: 0 <= k < |inner| ==> Quotable(inner[k])
    ensures i < |lines| && !IsBlank(lines[i])
    ensures BlockAt(n, opts, lines, i, |lines|, depth) == ([QuoteNode(n, opts, inner, depth), NL], i + |inner|)
  {
    hide Lie, Prefixed, Quotable, QuotesStand, IsBlank, Fence, IsRule, Mark, IsQuote, Unquoted, BlockAt, QuoteNode, QuoteEnd, QuoteLines;
    QuotesLie(lines, i, inner, rest);
    LieRest(lines, i, Prefixed("> ", inner), rest);
    QuoteRuns(lines, i, inner, 0);
    QuoteLinesAre(lines, i, inner, |inner|);
    assert inner[..|inner|] == inner;
    QuoteAt(lines, i, inner, 0);
    OnlyQuote(n, opts, lines, i, i + |inner|, depth);
  }

  // ---- items ------------------------------------------------------------------

  lemma {:induction false} MarkDigits(mark: string, rest: string, k: nat)
    requires k <= |mark| && (forall j :: 0 <= j < |mark| ==> IsDigit(mark[j])) && (rest == "" || !IsDigit(rest[0]))
    ensures DigitRun(mark[k..] + rest) == |mark| - k
    decreases |mark| - k
  {
    var s := mark[k..] + rest;
    if k < |mark| {
      assert s[0] == mark[k] && s[1..] == mark[k + 1..] + rest;
      MarkDigits(mark, rest, k + 1);
    } else {
      assert s == rest;
    }
  }

  /** The line of an item. */
  lemma ItemTrimmed(mark: string, src: string)
    requires mark != "" && mark[0] !in " \t\r" && Trimmed(src) && HasText(src)
    ensures var line := mark + (" " + src); Trimmed(line) && line != "" && line[0] == mark[0] && HasText(line)
  {
    var line := mark + (" " + src);
    var k :| 0 <= k < |src| && src[k] !in "|-:*_ \t\r";
    assert line[|mark| + 1 + k] == src[k];
    assert line[|line| - 1] == src[|src| - 1];
  }

  lemma BulletIs(mark: string, src: string)
    requires ItemMark(false, mark) && Trimmed(src) && HasText(src)
    ensures var line := mark + (" " + src); Bullet(line) == Some(src) && line[0] == mark[0]
  {
    hide IsRule, HasText, Trim, Indent, Trimmed;
    var line := mark + (" " + src);
    MarkIsText(mark);
    ItemTrimmed(mark, src);
    TrimmedLine(line);
    NotRule(line);
    TrimmedIs(src);
    assert line[1] == ' ' && line[2..] == src;
  }

  lemma MarkIsText(mark: string)
    requires ItemMark(false, mark)
    ensures |mark| == 1 && mark[0] !in " \t\r" && (mark[0] == '-' || mark[0] == '*' || mark[0] == '+')
  {
    assert '-' !in " \t\r" && '*' !in " \t\r" && '+' !in " \t\r";
  }

  lemma NumberMark(mark: string)
    requires ItemMark(true, mark)
    ensures IsDigit(mark[0]) && mark[0] !in " \t\r"
    ensures mark[0] != '-' && mark[0] != '*' && mark[0] != '+' && mark[0] != '#' && mark[0] != '>' && mark[0] != '`' && mark[0] != '~'
  {
    var s := " \t\r";
    assert s[0] == ' ' && s[1] == '\t' && s[2] == '\r';
  }

  lemma NumberRun(digits: string, dot: char, rest: string)
    requires (forall j :: 0 <= j < |digits| ==> IsDigit(digits[j])) && !IsDigit(dot)
    ensures var line := digits + ([dot] + rest); DigitRun(line) == |digits| && line[|digits|] == dot && line[|digits| + 1..] == rest
  {
    var line := digits + ([dot] + rest);
    assert digits[0..] == digits;
    MarkDigits(digits, [dot] + rest, 0);
    assert line[|digits| + 1..] == rest;
  }

  lemma NumberParts(mark: string, src: string)
    requires ItemMark(true, mark)
    ensures var line, i := mark + (" " + src), |mark| - 1;
            && DigitRun(line) == i && i + 1 < |line| && (line[i] == '.' || line[i] == ')') && line[i + 1] == ' ' && line[i + 2..] == src
  {
    hide DigitRun;
    var i := |mark| - 1;
    var digits, dot := mark[..i], mark[i];
    NumberRun(digits, dot, " " + src);
    assert mark == digits + [dot];
    Assoc(digits, [dot], " " + src);
    var line := mark + (" " + src);
    assert line[i + 1..][0] == ' ' && line[i + 1..][1..] == src;
    assert line[i + 2..] == line[i + 1..][1..];
  }

  lemma NumberIs(mark: string, src: string)
    requires ItemMark(true, mark) && Trimmed(src) && HasText(src)
    ensures var line := mark + (" " + src); Numbered(line) == Some(src) && Bullet(line).None? && line[0] == mark[0]
  {
    hide IsRule, HasText, Trim, Indent, Trimmed, DigitRun, Unindented;
    var line := mark + (" " + src);
    NumberMark(mark);
    ItemTrimmed(mark, src);
    TrimmedLine(line);
    TrimmedIs(src);
    NumberParts(mark, src);
  }

  /** An item's line: of its kind of list, with its text, and no other kind of line. */
  lemma ItemLineIs(ordered: bool, mark: string, src: string)
    requires ItemMark(ordered, mark) && Trimmed(src) && HasText(src)
    ensures var line := mark + (" " + src);
            && OfList(line, ordered) && ItemText(line) == src && IsItem(line) && (Bullet(line).None? <==> ordered)
            && Indent(line) == 0 && !IsBlank(line)
            && Fence(line).None? && !IsRule(line) && Mark(line) != '#' && !IsQuote(line) && !Indented(line)
  {
    hide Bullet, Numbered, Trim, Trimmed, HasText, IsRule, MarkRun;
    var line := mark + (" " + src);
    if ordered {
      NumberMark(mark);
      NumberIs(mark, src);
    } else {
      MarkIsText(mark);
      BulletIs(mark, src);
    }
    ItemTrimmed(mark, src);
    TrimmedLine(line);
    FirstOfLine(line);
    NotRule(line);
    assert "```"[0] == '`' && "~~~"[0] == '~';
  }

  /** A line below an item. */
  lemma BelowIs(l: string)
    requires NotBlank(l)
    ensures var line := "  " + l; OfItem(line, 0) && Outdented(line, 0) == l
  {
    hide Trim;
    var line := "  " + l;
    SpacesIndent(l);
    var k :| 0 <= k < |l| && l[k] !in " \t\r";
    assert line[2 + k] == l[k];
    NotBlankTrim(line, 2 + k);
    assert line[2..] == l;
  }

  predicate BelowStand(lines: seq<string>, j: nat, inner: seq<string>) {
    j + |inner| <= |lines| && forall k :: 0 <= k < |inner| ==> lines[j + k] == "  " + inner[k] && NotBlank(inner[k])
  }

  lemma BelowAt(lines: seq<string>, j: nat, inner: seq<string>, rest: seq<string>, k: nat)
    requires Lie(lines, j, Prefixed("  ", inner), rest) && k < |inner|
    ensures j + k < |lines| && lines[j + k] == "  " + inner[k]
  {
    hide Lie;
    LieAt(lines, j, Prefixed("  ", inner), rest, k);
    PrefixedAt("  ", inner, k);
  }

  lemma BelowLies(lines: seq<string>, j: nat, inner: seq<string>, rest: seq<string>)
    requires Lie(lines, j, Prefixed("  ", inner), rest) && forall k :: 0 <= k < |inner| ==> NotBlank(inner[k])
    ensures BelowStand(lines, j, inner)
  {
    hide Lie, NotBlank, Prefixed;
    LieParts(lines, j, Prefixed("  ", inner), rest);
    forall k | 0 <= k < |inner|
      ensures j + k < |lines| && lines[j + k] == "  " + inner[k]
    {
      BelowAt(lines, j, inner, rest, k);
    }
  }

  lemma BelowOne(lines: seq<string>, j: nat, inner: seq<string>, k: nat)
    requires BelowStand(lines, j, inner) && k < |inner|
    ensures j + k < |lines| && OfItem(lines[j + k], 0) && Outdented(lines[j + k], 0) == inner[k]
  {
    hide NotBlank, OfItem, Outdented;
    assert lines[j + k] == "  " + inner[k];
    BelowIs(inner[k]);
  }

  /** What stops an item: the end, an empty line or another item. */
  predicate StopsItem(lines: seq<string>, j: nat) {
    j <= |lines| && (j < |lines| ==> !OfItem(lines[j], 0))
  }

  lemma {:induction false} ItemRuns(lines: seq<string>, j: nat, inner: seq<string>, k: nat)
    requires k <= |inner| && BelowStand(lines, j, inner) && StopsItem(lines, j + |inner|)
    ensures ItemEnd(lines, j + k, |lines|, 0) == j + |inner|
    decreases |inner| - k
  {
    hide BelowStand, OfItem, Outdented;
    if k < |inner| {
      BelowOne(lines, j, inner, k);
      ItemRuns(lines, j, inner, k + 1);
    }
  }

  lemma {:induction false} ItemLinesAre(lines: seq<string>, j: nat, inner: seq<string>, k: nat)
    requires k <= |inner| && BelowStand(lines, j, inner) && j + |inner| <= |lines|
    ensures ItemLines(lines, j, j + k, 0) == inner[..k]
    decreases k
  {
    hide BelowStand, OfItem, Outdented;
    if k > 0 {
      ItemLinesAre(lines, j, inner, k - 1);
      BelowOne(lines, j, inner, k - 1);
      assert inner[..k] == inner[..k - 1] + [inner[k - 1]];
    }
  }

  lemma ItemTags()
    ensures Open(Simple("li")) == "<li>" && Close(Simple("li")) == "</li>"
    ensures Open(Simple("ol")) == "<ol>" && Close(Simple("ol")) == "</ol>" && Open(Simple("ul")) == "<ul>" && Close(Simple("ul")) == "</ul>"
  {
    OpenSimple("li");
    OpenSimple("ol");
    OpenSimple("ul");
  }

  /** An item, given what its blocks show as. */
  lemma ItemPrints(n: nat, opts: Options, text: seq<Span>, sub: seq<string>, shown: string, depth: nat)
    requires depth <= opts.maxNesting && AllWritable(text, "", 0) && n + 4 + |ShownAll(opts, text)| <= opts.maxOutput
    requires sub != [] ==> PrintAll(BlocksOf(n + 4 + |ShownAll(opts, text)| + 1, opts, sub, 0, |sub|, depth + 1)) == shown
    ensures PrintAll([ItemNode(n, opts, SourceOf(text), sub, depth), NL]) ==
            "<li>" + (ShownAll(opts, text) + ((if sub == [] then "" else "\n" + shown) + "</li>\n"))
  {
    hide BlocksOf, Open, Close, Print, PrintAll, Inline, ShownAll, SourceOf, AllWritable;
    ItemTags();
    SpansShow(n + 4, opts, text, 0);
    var first := Inline(n + 4, opts, SourceOf(text), 0);
    var blocks := BlocksOf(n + 4 + |ShownAll(opts, text)| + 1, opts, sub, 0, |sub|, depth + 1);
    var more := if sub == [] then [] else [NL] + blocks;
    MorePrints(sub == [], blocks);
    PrintJoin(first, more);
    PrintElement(Simple("li"), first + more);
    PrintLine(Element(Simple("li"), first + more));
    var a, m := ShownAll(opts, text), if sub == [] then "" else "\n" + shown;
    Assoc("<li>", (a + m) + "</li>", "\n");
    Assoc(a + m, "</li>", "\n");
    assert "</li>" + "\n" == "</li>\n";
    Assoc(a, m, "</li>\n");
  }

  lemma MorePrints(none: bool, blocks: seq<Node>)
    ensures PrintAll(if none then [] else [NL] + blocks) == if none then "" else "\n" + PrintAll(blocks)
  {
    PrintNl();
    assert ([NL] + blocks)[0] == NL && ([NL] + blocks)[1..] == blocks;
  }

  lemma OnlyList(n: nat, opts: Options, lines: seq<string>, i: nat, ordered: bool, depth: nat)
    requires i < |lines| && depth <= opts.maxNesting && OfList(lines[i], ordered)
    requires var line := lines[i];
             && !IsBlank(line) && Fence(line).None? && !IsRule(line) && Mark(line) != '#' && !IsQuote(line) && !Indented(line)
             && IsItem(line) && (Bullet(line).None? <==> ordered)
    ensures var tag := if ordered then Simple("ol") else Simple("ul");
            var (items, j) := ItemsFrom(n + 5, opts, lines, i, |lines|, ordered, depth);
            BlockAt(n, opts, lines, i, |lines|, depth) == ([Element(tag, [NL] + items), NL], j)
  {
    hide Fence, IsRule, IsQuote, Mark, IsBlank, Indented, ItemsFrom, Bullet, Numbered, Open;
    ItemTags();
  }

  lemma ListPrints(ordered: bool, items: seq<Node>, shown: string)
    requires PrintAll(items) == shown
    ensures var tag := if ordered then Simple("ol") else Simple("ul");
            PrintAll([Element(tag, [NL] + items), NL]) ==
            (if ordered then "<ol>\n" else "<ul>\n") + (shown + (if ordered then "</ol>\n" else "</ul>\n"))
  {
    hide Open, Close, Print, PrintAll;
    ItemTags();
    var tag := if ordered then Simple("ol") else Simple("ul");
    PrintLine(Element(tag, [NL] + items));
    PrintOpenLine(tag, items);
    assert "<ol>" + "\n" == "<ol>\n" && "<ul>" + "\n" == "<ul>\n" && "</ol>" + "\n" == "</ol>\n" && "</ul>" + "\n" == "</ul>\n";
    Assoc(Open(tag) + "\n", shown + Close(tag), "\n");
    Assoc(shown, Close(tag), "\n");
  }

  // ---- what follows a block -----------------------------------------------------

  /** A legal block has a first line, which is neither blank nor, but for indented code, indented. */
  lemma {:induction false} BlockStarts(b: Block, depth: nat, maxNesting: int)
    requires LegalBlock(b, depth, maxNesting)
    ensures BlockLines(b) != []
    ensures !b.IndentedCode? ==> !IsBlank(BlockLines(b)[0]) && !Indented(BlockLines(b)[0])
    decreases b, 0
  {
    hide IsBlank, Indented, AllWritable, LegalTexts, LegalCells, LegalRows, LegalCode, LegalEntries, LegalItems, FenceLine, DividerLine, TableRule,
      EntryLines, ItemsSource, TextSources, RowSources;
    match b {
      case Heading(level, text) =>
        HeadingLine(0, Options(None, None, "", 0, 0, 0), level, SourceOf(text));
        StartIs(Repeat('#', level) + (" " + SourceOf(text)));
      case Paragraph(texts) => TextStarts(texts);
      case Divider(line) => DividerStarts(line);
      case Fenced(mark, count, info, _) => FenceStarts(mark, count, info);
      case IndentedCode(code) => assert Prefixed("    ", code) != [] by { CodeStarts(code); }
      case Quoted(entries) => QuoteStarts(entries, depth, maxNesting);
      case Listing(ordered, items) => ItemStarts(ordered, items, depth, maxNesting);
      case Table(head, _, _) => RowIs(head);
    }
  }

  lemma StartIs(t: string)
    requires Trimmed(t) && t != ""
    ensures !IsBlank(t) && !Indented(t)
  {
    TrimmedLine(t);
    FirstOfLine(t);
  }

  lemma CodeStarts(code: seq<string>)
    requires LegalCode(code)
    ensures code != []
  {
  }

  lemma TextStarts(texts: seq<TextLine>)
    requires texts != [] && LegalTexts(texts)
    ensures TextSources(texts) != [] && !IsBlank(TextSources(texts)[0]) && !Indented(TextSources(texts)[0])
  {
    TextLineIs(texts, 0);
  }

  lemma DividerStarts(line: string)
    requires DividerLine(line)
    ensures !IsBlank(line) && !Indented(line)
  {
    DividerIs(line);
    assert line[0] in "-*_" ==> line[0] != ' ' && line[0] != '\t' by {
      assert "-*_"[0] == '-' && "-*_"[1] == '*' && "-*_"[2] == '_';
    }
  }

  lemma FenceStarts(mark: char, count: nat, info: string)
    requires (mark == '`' || mark == '~') && count >= 3 && Trimmed(info)
    ensures !IsBlank(Repeat(mark, count) + info) && !Indented(Repeat(mark, count) + info)
  {
    FenceTrimmed(mark, count, info);
    StartIs(Repeat(mark, count) + info);
  }

  lemma {:induction false} QuoteStarts(entries: seq<Entry>, depth: nat, maxNesting: int)
    requires entries != [] && LegalEntries(entries, depth + 1, maxNesting)
    requires forall k :: 0 <= k < |EntryLines(entries)| ==> Quotable(EntryLines(entries)[k])
    ensures EntryLines(entries) != []
    ensures !IsBlank(Prefixed("> ", EntryLines(entries))[0]) && !Indented(Prefixed("> ", EntryLines(entries))[0])
    decreases entries, 2
  {
    hide IsBlank, Indented, BlockLines, LegalBlock;
    EntryStarts(entries[0], depth + 1, maxNesting);
    var inner := EntryLines(entries);
    PrefixedAt("> ", inner, 0);
    QuoteLineIs(inner[0]);
    QuoteFlush(inner[0]);
  }

  lemma QuoteFlush(l: string)
    ensures !Indented("> " + l)
  {
    assert ("> " + l)[0] == '>';
  }

  lemma {:induction false} EntryStarts(e: Entry, depth: nat, maxNesting: int)
    requires LegalEntry(e, depth, maxNesting)
    ensures LinesOf(e) != []
    decreases e, 1
  {
    hide IsBlank, Indented, BlockLines, LegalBlock;
    BlockStarts(e.block, depth, maxNesting);
  }

  lemma ItemStarts(ordered: bool, items: seq<Item>, depth: nat, maxNesting: int)
    requires items != [] && LegalItems(ordered, items, depth, maxNesting)
    ensures ItemsSource(items) != [] && !IsBlank(ItemsSource(items)[0]) && !Indented(ItemsSource(items)[0])
  {
    hide IsBlank, Indented, LegalEntries, AllWritable, EntryLines, NotBlank, Trimmed, HasText, ItemMark;
    ItemLineIs(ordered, items[0].mark, SourceOf(items[0].text));
  }

  /** A block shows something. */
  lemma ShownNotEmpty(opts: Options, b: Block)
    ensures BlockShown(opts, b) != ""
  {
    hide ShownAll, TextShown, PageShown, ItemsShown, CellsShown, RowsShown, EscapeHtml, Terminate;
  }

  lemma {:induction false} EmptiesStep(n: nat)
    requires n > 0
    ensures Empties(n)[0] == "" && Empties(n)[1..] == Empties(n - 1)
  {
  }

  /** After a block that does not end by itself comes an empty line or nothing. */
  lemma EntryEnds(es: seq<Entry>, depth: nat, maxNesting: int)
    requires es != [] && LegalEntries(es, depth, maxNesting) && !Closed(es[0].block)
    ensures Ends(Empties(es[0].gap) + EntryLines(es[1..]))
  {
    hide LegalEntry, LinesOf;
    if es[0].gap > 0 {
      EmptiesStep(es[0].gap);
    } else {
      assert es[1..] == [] && EntryLines([]) == [];
    }
  }

  lemma {:induction false} CodeIsOver(gap: nat, es: seq<Entry>, depth: nat, maxNesting: int)
    requires LegalEntries(es, depth, maxNesting) && (es != [] ==> !es[0].block.IndentedCode?)
    ensures NoCodeNext(Empties(gap) + EntryLines(es))
    decreases gap
  {
    hide IsBlank, Indented, LegalBlock, BlockLines;
    var rest := Empties(gap) + EntryLines(es);
    if gap > 0 {
      EmptiesStep(gap);
      CodeIsOver(gap - 1, es, depth, maxNesting);
      assert rest[0] == "" && rest[1..] == Empties(gap - 1) + EntryLines(es);
    } else {
      assert rest == EntryLines(es);
      if es != [] {
        BlockStarts(es[0].block, depth, maxNesting);
        assert rest[0] == BlockLines(es[0].block)[0];
      }
    }
  }

  // ---- pages --------------------------------------------------------------------

  lemma {:induction false} GapPassed(n: nat, opts: Options, lines: seq<string>, i: nat, gap: nat, rest: seq<string>, depth: nat)
    requires Lie(lines, i, Empties(gap), rest) && depth <= opts.maxNesting && n <= opts.maxOutput
    requires n == opts.maxOutput ==> rest == []
    ensures i + gap <= |lines| && Lie(lines, i + gap, rest, [])
    ensures BlocksFrom(n, opts, lines, i, |lines|, depth) == BlocksFrom(n, opts, lines, i + gap, |lines|, depth)
    decreases gap
  {
    hide IsBlank, BlockAt, Lie;
    LieParts(lines, i, Empties(gap), rest);
    LieAll(lines, i + gap, rest);
    if gap > 0 {
      EmptyLine();
      EmptiesStep(gap);
      assert lines[i] == "";
      assert Empties(gap) == [""] + Empties(gap - 1);
      LieMore(lines, i, [""], Empties(gap - 1), rest);
      if n < opts.maxOutput {
        GapPassed(n, opts, lines, i + 1, gap - 1, rest, depth);
      }
    }
  }

  lemma LieAll(lines: seq<string>, i: nat, rest: seq<string>)
    requires i <= |lines| && lines[i..] == rest
    ensures Lie(lines, i, rest, [])
  {
    assert rest + [] == rest;
  }

  /** A block in its place is found there, ends where it ends, and shows as its HTML. */
  lemma {:induction false} BlockShows(n: nat, opts: Options, lines: seq<string>, i: nat, b: Block, rest: seq<string>, depth: nat)
    requires Lie(lines, i, BlockLines(b), rest) && LegalBlock(b, depth, opts.maxNesting) && depth <= opts.maxNesting
    requires Closed(b) || Ends(rest)
    requires b.IndentedCode? ==> NoCodeNext(rest)
    requires n + |BlockShown(opts, b)| <= opts.maxOutput
    ensures i < |lines| && !IsBlank(lines[i])
    ensures var (nodes, next) := BlockAt(n, opts, lines, i, |lines|, depth);
            PrintAll(nodes) == BlockShown(opts, b) && next == i + |BlockLines(b)|
    decreases b, 1
  {
    hide BlockAt, PrintAll, IsBlank, Lie, NoCodeNext, LegalTexts, LegalCells, LegalRows, LegalCode, TableRule, Quotable;
    match b {
      case Heading(level, text) => HeadingShows(n, opts, lines, i, level, text, rest, depth);
      case Paragraph(texts) => ParagraphShows(n, opts, lines, i, texts, rest, depth);
      case Divider(line) => DividerShows(n, opts, lines, i, line, rest, depth);
      case Fenced(_, _, _, _) => FencedShows(n, opts, lines, i, b, rest, depth);
      case IndentedCode(code) => IndentedShows(n, opts, lines, i, code, rest, depth);
      case Quoted(entries) => QuoteShows(n, opts, lines, i, entries, rest, depth);
      case Listing(ordered, items) => ListShows(n, opts, lines, i, ordered, items, rest, depth);
      case Table(head, rule, rows) => TableShows(n, opts, lines, i, head, rule, rows, rest, depth);
    }
  }

  lemma {:induction false} QuoteShows(n: nat, opts: Options, lines: seq<string>, i: nat, entries: seq<Entry>, rest: seq<string>, depth: nat)
    requires Lie(lines, i, Prefixed("> ", EntryLines(entries)), rest) && Ends(rest) && depth + 1 <= opts.maxNesting
    requires entries != [] && LegalEntries(entries, depth + 1, opts.maxNesting)
    requires forall k :: 0 <= k < |EntryLines(entries)| ==> Quotable(EntryLines(entries)[k])
    requires n + 13 + |PageShown(opts, entries)| <= opts.maxOutput
    ensures i < |lines| && !IsBlank(lines[i])
    ensures var (nodes, next) := BlockAt(n, opts, lines, i, |lines|, depth);
            PrintAll(nodes) == "<blockquote>\n" + (PageShown(opts, entries) + "</blockquote>\n") && next == i + |EntryLines(entries)|
    decreases entries, 4
  {
    hide BlockAt, PrintAll, IsBlank, Lie, LinesOf, LegalEntry, EntryShown, QuoteNode, BlocksOf;
    var inner := EntryLines(entries);
    EntryStarts(entries[0], depth + 1, opts.maxNesting);
    QuoteIs(n, opts, lines, i, inner, rest, depth);
    PageShows(n + 12 + 1, opts, entries, depth + 1);
    QuotePrints(n, opts, inner, PageShown(opts, entries), depth);
  }

  /** The blocks of a page one after the other. */
  lemma {:induction false} PageShows(n: nat, opts: Options, es: seq<Entry>, depth: nat)
    requires LegalEntries(es, depth, opts.maxNesting) && depth <= opts.maxNesting && n + |PageShown(opts, es)| <= opts.maxOutput
    ensures PrintAll(BlocksOf(n, opts, EntryLines(es), 0, |EntryLines(es)|, depth)) == PageShown(opts, es)
    decreases es, 3
  {
    hide BlocksFrom, PrintAll, EntryLines, PageShown, LegalEntries;
    var lines := EntryLines(es);
    assert lines[0..] == lines;
    LieAll(lines, 0, lines);
    EntriesShow(n, opts, lines, 0, es, depth);
  }

  lemma BlocksStep(n: nat, opts: Options, lines: seq<string>, i: nat, shown: string, next: nat, depth: nat)
    requires i < |lines| && depth <= opts.maxNesting && n < opts.maxOutput && !IsBlank(lines[i])
    requires var (nodes, end) := BlockAt(n, opts, lines, i, |lines|, depth); PrintAll(nodes) == shown && end == next
    ensures next <= |lines|
    ensures PrintAll(BlocksFrom(n, opts, lines, i, |lines|, depth)) ==
            shown + PrintAll(BlocksFrom(n + |shown|, opts, lines, next, |lines|, depth))
  {
    hide BlockAt, IsBlank, PrintAll;
    var (nodes, end) := BlockAt(n, opts, lines, i, |lines|, depth);
    PrintJoin(nodes, BlocksFrom(n + |shown|, opts, lines, next, |lines|, depth));
  }

  /** Where the lines of an entry, the empty lines after it and the rest of the page are. */
  lemma EntryLies(lines: seq<string>, i: nat, es: seq<Entry>)
    requires es != [] && Lie(lines, i, EntryLines(es), [])
    ensures var b, gap, more := BlockLines(es[0].block), Empties(es[0].gap), EntryLines(es[1..]);
            Lie(lines, i, b, gap + more) && Lie(lines, i + |b|, gap, more)
  {
    hide Lie, BlockLines;
    var b, gap, more := BlockLines(es[0].block), Empties(es[0].gap), EntryLines(es[1..]);
    Assoc(b, gap, more);
    LieMore(lines, i, b, gap + more, []);
    assert (gap + more) + [] == gap + more && more + [] == more;
    LieMore(lines, i + |b|, gap, more, []);
  }

  lemma PageShownStep(opts: Options, es: seq<Entry>)
    requires es != []
    ensures PageShown(opts, es) == BlockShown(opts, es[0].block) + PageShown(opts, es[1..])
  {
    hide BlockShown;
  }

  lemma {:induction false} EntriesShow(n: nat, opts: Options, lines: seq<string>, i: nat, es: seq<Entry>, depth: nat)
    requires Lie(lines, i, EntryLines(es), []) && LegalEntries(es, depth, opts.maxNesting) && depth <= opts.maxNesting
    requires n + |PageShown(opts, es)| <= opts.maxOutput
    ensures i <= |lines| && PrintAll(BlocksFrom(n, opts, lines, i, |lines|, depth)) == PageShown(opts, es)
    decreases es, 2
  {
    hide Lie, BlockAt, IsBlank, PrintAll, BlockLines, BlockShown, LegalBlock, NoCodeNext, PageShown, EntryLines, BlocksFrom;
    LieParts(lines, i, EntryLines(es), []);
    if es == [] {
      NothingFrom(n, opts, lines, i, depth);
    } else {
      var e, more := es[0], EntryLines(es[1..]);
      var shown := BlockShown(opts, e.block);
      EntryLies(lines, i, es);
      AfterEntry(es, depth, opts.maxNesting);
      ShownNotEmpty(opts, e.block);
      PageShownStep(opts, es);
      EntryShows(n, opts, lines, i, e, Empties(e.gap) + more, depth);
      var next, m := i + |BlockLines(e.block)|, n + |shown|;
      BlocksStep(n, opts, lines, i, shown, next, depth);
      NothingMoreShown(opts, es[1..]);
      GapPassed(m, opts, lines, next, e.gap, more, depth);
      EntriesShow(m, opts, lines, next + e.gap, es[1..], depth);
    }
  }

  lemma NothingFrom(n: nat, opts: Options, lines: seq<string>, i: nat, depth: nat)
    requires Lie(lines, i, EntryLines([]), []) && depth <= opts.maxNesting
    ensures i <= |lines| && PrintAll(BlocksFrom(n, opts, lines, i, |lines|, depth)) == PageShown(opts, [])
  {
    hide Lie;
    LieParts(lines, i, EntryLines([]), []);
    NothingPrinted();
  }

  lemma NothingMoreShown(opts: Options, es: seq<Entry>)
    ensures PageShown(opts, es) == "" ==> es == []
    ensures es == [] ==> EntryLines(es) == []
  {
    hide BlockShown;
    if es != [] {
      ShownNotEmpty(opts, es[0].block);
      assert |PageShown(opts, es)| == |EntryShown(opts, es[0])| + |PageShown(opts, es[1..])|;
    }
  }

  lemma AfterEntry(es: seq<Entry>, depth: nat, maxNesting: int)
    requires es != [] && LegalEntries(es, depth, maxNesting)
    ensures var rest := Empties(es[0].gap) + EntryLines(es[1..]);
            (Closed(es[0].block) || Ends(rest)) && (es[0].block.IndentedCode? ==> NoCodeNext(rest))
  {
    hide LegalBlock, BlockLines, NoCodeNext;
    if !Closed(es[0].block) {
      EntryEnds(es, depth, maxNesting);
    }
    if es[0].block.IndentedCode? {
      CodeIsOver(es[0].gap, es[1..], depth, maxNesting);
    }
  }

  lemma {:induction false} EntryShows(n: nat, opts: Options, lines: seq<string>, i: nat, e: Entry, rest: seq<string>, depth: nat)
    requires Lie(lines, i, BlockLines(e.block), rest) && LegalEntry(e, depth, opts.maxNesting) && depth <= opts.maxNesting
    requires Closed(e.block) || Ends(rest)
    requires e.block.IndentedCode? ==> NoCodeNext(rest)
    requires n + |BlockShown(opts, e.block)| <= opts.maxOutput
    ensures i < |lines| && !IsBlank(lines[i])
    ensures var (nodes, next) := BlockAt(n, opts, lines, i, |lines|, depth);
            PrintAll(nodes) == BlockShown(opts, e.block) && next == i + |BlockLines(e.block)|
    decreases e, 1
  {
    hide Lie, BlockAt, IsBlank, PrintAll, BlockLines, BlockShown, LegalBlock, NoCodeNext;
    BlockShows(n, opts, lines, i, e.block, rest, depth);
  }

  // ---- lists --------------------------------------------------------------------

  lemma ItemLies(lines: seq<string>, j: nat, items: seq<Item>, rest: seq<string>)
    requires items != [] && Lie(lines, j, ItemsSource(items), rest)
    ensures var line := items[0].mark + (" " + SourceOf(items[0].text));
            var below := Prefixed("  ", EntryLines(items[0].inner));
            && j < |lines| && lines[j] == line
            && Lie(lines, j + 1, below, ItemsSource(items[1..]) + rest) && Lie(lines, j + 1 + |below|, ItemsSource(items[1..]), rest)
  {
    hide Lie, EntryLines, SourceOf, Prefixed;
    var line := items[0].mark + (" " + SourceOf(items[0].text));
    var below := Prefixed("  ", EntryLines(items[0].inner));
    LieMore(lines, j, [line], below + ItemsSource(items[1..]), rest);
    LieParts(lines, j, [line], (below + ItemsSource(items[1..])) + rest);
    LieMore(lines, j + 1, below, ItemsSource(items[1..]), rest);
  }

  /** After an item comes another, an empty line, or nothing. */
  lemma ItemStops(lines: seq<string>, k: nat, ordered: bool, items: seq<Item>, rest: seq<string>, depth: nat, maxNesting: int)
    requires Lie(lines, k, ItemsSource(items), rest) && Ends(rest) && LegalItems(ordered, items, depth, maxNesting)
    ensures StopsItem(lines, k)
  {
    hide Lie, LegalEntries, AllWritable, EntryLines, NotBlank, Trimmed, HasText, ItemMark, SourceOf;
    EmptyLine();
    if items == [] {
      LieParts(lines, k, [], rest);
    } else {
      ItemLies(lines, k, items, rest);
      ItemLineIs(ordered, items[0].mark, SourceOf(items[0].text));
    }
  }

  lemma ItemsOver(n: nat, opts: Options, lines: seq<string>, j: nat, ordered: bool, rest: seq<string>, depth: nat)
    requires Lie(lines, j, [], rest) && Ends(rest) && depth <= opts.maxNesting
    ensures j <= |lines| && ItemsFrom(n, opts, lines, j, |lines|, ordered, depth) == ([], j)
  {
    hide Lie, Bullet, Numbered;
    LieParts(lines, j, [], rest);
    EmptyLine();
  }

  lemma ItemStep(n: nat, opts: Options, lines: seq<string>, j: nat, ordered: bool, text: string, sub: seq<string>, shown: string, depth: nat)
    requires j < |lines| && depth <= opts.maxNesting && OfList(lines[j], ordered) && ItemText(lines[j]) == text && Indent(lines[j]) == 0
    requires j + 1 + |sub| <= |lines| && ItemEnd(lines, j + 1, |lines|, 0) == j + 1 + |sub|
    requires ItemLines(lines, j + 1, j + 1 + |sub|, 0) == sub
    requires PrintAll([ItemNode(n, opts, text, sub, depth), NL]) == shown
    ensures var (nodes, end) := ItemsFrom(n, opts, lines, j, |lines|, ordered, depth);
            var (more, last) := ItemsFrom(n + |shown|, opts, lines, j + 1 + |sub|, |lines|, ordered, depth);
            PrintAll(nodes) == shown + PrintAll(more) && end == last
  {
    hide OfList, ItemText, Indent, ItemEnd, ItemLines, ItemNode, PrintAll;
    PrintJoin([ItemNode(n, opts, text, sub, depth), NL], ItemsFrom(n + |shown|, opts, lines, j + 1 + |sub|, |lines|, ordered, depth).0);
  }

  function ItemShown(opts: Options, it: Item): string {
    "<li>" + (ShownAll(opts, it.text) + ((if it.inner == [] then "" else "\n" + PageShown(opts, it.inner)) + "</li>\n"))
  }

  lemma {:induction false} ItemShows(n: nat, opts: Options, it: Item, depth: nat)
    requires AllWritable(it.text, "", 0) && depth <= opts.maxNesting
    requires (it.inner != [] ==> depth + 1 <= opts.maxNesting) && LegalEntries(it.inner, depth + 1, opts.maxNesting)
    requires n + |ItemShown(opts, it)| <= opts.maxOutput
    ensures PrintAll([ItemNode(n, opts, SourceOf(it.text), EntryLines(it.inner), depth), NL]) == ItemShown(opts, it)
    decreases it, 5
  {
    hide ItemNode, PrintAll, ShownAll, SourceOf, EntryLines, PageShown, AllWritable, BlocksOf;
    if it.inner == [] {
      NothingMoreShown(opts, []);
    } else {
      InnerStarts(it.inner, depth + 1, opts.maxNesting);
      PageShows(n + 4 + |ShownAll(opts, it.text)| + 1, opts, it.inner, depth + 1);
    }
    ItemPrints(n, opts, it.text, EntryLines(it.inner), PageShown(opts, it.inner), depth);
  }

  lemma InnerStarts(es: seq<Entry>, depth: nat, maxNesting: int)
    requires es != [] && LegalEntries(es, depth, maxNesting)
    ensures EntryLines(es) != []
  {
    hide LinesOf, LegalEntry;
    EntryStarts(es[0], depth, maxNesting);
  }

  lemma ItemsShownStep(opts: Options, items: seq<Item>)
    requires items != []
    ensures ItemsShown(opts, items) == ItemShown(opts, items[0]) + ItemsShown(opts, items[1..])
  {
    hide ShownAll, PageShown;
  }

  lemma {:induction false} ItemsShow(n: nat, opts: Options, lines: seq<string>, j: nat, ordered: bool, items: seq<Item>, rest: seq<string>, depth: nat)
    requires Lie(lines, j, ItemsSource(items), rest) && Ends(rest) && LegalItems(ordered, items, depth, opts.maxNesting) && depth <= opts.maxNesting
    requires n + |ItemsShown(opts, items)| <= opts.maxOutput
    ensures j <= |lines|
    ensures var (nodes, end) := ItemsFrom(n, opts, lines, j, |lines|, ordered, depth);
            PrintAll(nodes) == ItemsShown(opts, items) && end == j + |ItemsSource(items)|
    decreases items, 3
  {
    hide Lie, LegalEntries, AllWritable, EntryLines, NotBlank, Trimmed, HasText, ItemMark, SourceOf, ItemsFrom, ItemShown, OfList, ItemText,
      Indent, ItemEnd, ItemLines, ItemNode, PrintAll, Prefixed, BelowStand, StopsItem, Ends, ItemsShown, IsBlank, IsRule, Mark, IsQuote, IsItem;
    if items == [] {
      ItemsOver(n, opts, lines, j, ordered, rest, depth);
      NoItems(opts);
    } else {
      var it := items[0];
      var sub, src := EntryLines(it.inner), SourceOf(it.text);
      var k := j + 1 + |sub|;
      ItemLies(lines, j, items, rest);
      ItemLineIs(ordered, it.mark, src);
      BelowLies(lines, j + 1, sub, ItemsSource(items[1..]) + rest);
      ItemStops(lines, k, ordered, items[1..], rest, depth, opts.maxNesting);
      StopsWithin(lines, k);
      ItemRuns(lines, j + 1, sub, 0);
      ItemLinesAre(lines, j + 1, sub, |sub|);
      assert sub[..|sub|] == sub;
      ItemsShownStep(opts, items);
      ItemShows(n, opts, it, depth);
      ItemStep(n, opts, lines, j, ordered, src, sub, ItemShown(opts, it), depth);
      ItemsShow(n + |ItemShown(opts, it)|, opts, lines, k, ordered, items[1..], rest, depth);
    }
  }

  lemma StopsWithin(lines: seq<string>, k: nat)
    requires StopsItem(lines, k)
    ensures k <= |lines|
  {
  }

  lemma NoItems(opts: Options)
    ensures ItemsShown(opts, []) == "" && PrintAll([]) == ""
  {
  }

  lemma {:induction false} ListShows(n: nat, opts: Options, lines: seq<string>, i: nat, ordered: bool, items: seq<Item>, rest: seq<string>, depth: nat)
    requires Lie(lines, i, ItemsSource(items), rest) && Ends(rest) && items != [] && LegalItems(ordered, items, depth, opts.maxNesting)
    requires depth <= opts.maxNesting && n + 5 + |ItemsShown(opts, items)| <= opts.maxOutput
    ensures i < |lines| && !IsBlank(lines[i])
    ensures var (nodes, next) := BlockAt(n, opts, lines, i, |lines|, depth);
            && PrintAll(nodes) == (if ordered then "<ol>\n" else "<ul>\n") + (ItemsShown(opts, items) + (if ordered then "</ol>\n" else "</ul>\n"))
            && next == i + |ItemsSource(items)|
    decreases items, 4
  {
    hide Lie, LegalEntries, AllWritable, EntryLines, NotBlank, Trimmed, HasText, ItemMark, SourceOf, ItemsFrom, OfList, ItemText, Indent, PrintAll,
      Ends, ItemsShown, ItemsSource, BlockAt, IsBlank, IsRule, Mark, IsQuote, IsItem, Fence, Bullet;
    ItemLies(lines, i, items, rest);
    ItemLineIs(ordered, items[0].mark, SourceOf(items[0].text));
    ItemsShow(n + 5, opts, lines, i, ordered, items, rest, depth);
    OnlyList(n, opts, lines, i, ordered, depth);
    ListPrints(ordered, ItemsFrom(n + 5, opts, lines, i, |lines|, ordered, depth).0, ItemsShown(opts, items));
  }
}
