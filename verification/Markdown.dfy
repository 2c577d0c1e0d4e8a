/** The bounded Markdown renderer of core/src/markdown.cpp. */
module Markdown {
  import opened Text
  import opened Html
  import opened MarkdownTree
  import opened MarkdownSound

  // It appends to one output string, and what it appends is the printed tree of the text it reads.

  // ---- pages --------------------------------------------------------------

  /** Every page is a legal tree, and its depth is bounded by the nesting allowed. */
  lemma PageSound(src: string, opts: Options)
    ensures AllLegal(PageOfSource(src, opts))
    ensures HeightOfAll(PageOfSource(src, opts)) <= Bound(Nest(opts, 0))
  {
    hide AllSound, Sound, BlocksOf, SplitLines, LegalTag;
    var lines := SplitLines(if |src| > opts.maxInput then src[..opts.maxInput] else src);
    var h := Bound(Nest(opts, 0));
    BlocksSound(0, opts, lines, 0, |lines|, 0);
    LangIsLegal("");
    SoundWords(NOTICE, 1);
    SoundNone(h);
    ElementLine(Truncated, [Words(NOTICE)], 1, h);
    var more := if |src| > opts.maxInput then [Element(Truncated, [Words(NOTICE)]), NL] else [];
    SoundJoin(BlocksOf(0, opts, lines, 0, |lines|, 0), more, h);
    AllSoundIsLegal(PageOfSource(src, opts), h);
  }

  /** And so is every line on its own. */
  lemma LineIsSound(src: string, opts: Options)
    ensures AllLegal(Inline(0, opts, src, 0)) && HeightOfAll(Inline(0, opts, src, 0)) <= LINE_HEIGHT
  {
    hide AllSound, Inline;
    LineSound(0, opts, src);
    AllSoundIsLegal(Inline(0, opts, src, 0), LINE_HEIGHT);
  }

  // ---- printing -----------------------------------------------------------

  lemma PrintOne(node: Node)
    ensures PrintAll([node]) == Print(node)
  {
    hide Print;
    assert [node][1..] == [] && PrintAll([]) == "";
    assert PrintAll([node]) == Print(node) + "";
  }

  lemma PrintNewline()
    ensures Print(NL) == "\n" == PrintAll([NL])
  {
    assert EscapeHtml("\n") == EscapeHtmlChar('\n') + EscapeHtml("\n"[1..]) == "\n" + "";
    PrintOne(NL);
  }

  /** More nodes after some. */
  lemma Step(out: string, ns: seq<Node>, rest: seq<Node>)
    ensures (out + PrintAll(ns)) + PrintAll(rest) == out + PrintAll(ns + rest)
  {
    PrintJoin(ns, rest);
    Assoc(out, PrintAll(ns), PrintAll(rest));
  }

  lemma StepOne(out: string, node: Node, rest: seq<Node>)
    ensures (out + Print(node)) + PrintAll(rest) == out + PrintAll([node] + rest)
  {
    hide Print;
    PrintOne(node);
    Step(out, [node], rest);
  }

  /** A tag opened, nodes in it, and the tag closed. */
  lemma CloseIs(out: string, tag: Tag, ns: seq<Node>, inside: string)
    requires inside == (out + Open(tag)) + PrintAll(ns)
    ensures inside + Close(tag) == out + Print(Element(tag, ns))
  {
    hide Open, Close, PrintAll;
    Assoc(out, Open(tag), PrintAll(ns));
    Assoc(out, Open(tag) + PrintAll(ns), Close(tag));
    Assoc(Open(tag), PrintAll(ns), Close(tag));
  }

  /** The same at the end of a line. */
  lemma CloseLineIs(out: string, tag: Tag, ns: seq<Node>, inside: string)
    requires inside == (out + Open(tag)) + PrintAll(ns)
    ensures (inside + Close(tag)) + "\n" == out + PrintAll([Element(tag, ns), NL])
  {
    hide Open, Close, PrintAll, Print;
    CloseIs(out, tag, ns, inside);
    LineIs(out, Element(tag, ns));
  }

  lemma LineIs(out: string, node: Node)
    ensures (out + Print(node)) + "\n" == out + PrintAll([node, NL])
  {
    hide PrintAll, Print;
    PrintNewline();
    StepOne(out, node, [NL]);
    assert [node] + [NL] == [node, NL];
  }

  lemma TaggedIs(out: string, tag: Tag, s: string)
    ensures ((out + Open(tag)) + EscapeHtml(s)) + Close(tag) == out + Print(Element(tag, [Words(s)]))
  {
    hide Open, Close, PrintAll, EscapeHtml;
    PrintOne(Words(s));
    CloseIs(out, tag, [Words(s)], (out + Open(tag)) + EscapeHtml(s));
  }

  // ---- inline text --------------------------------------------------------

  /** A span was emitted when there is one. */
  predicate Emits(out: string, at: Option<(Node, nat)>, r: Option<(string, nat)>) {
    if at.None? then r == None else r == Some((out + Print(at.value.0), at.value.1))
  }

  method EmitWikiLink(out: string, opts: Options, target: string) returns (r: string)
    ensures r == out + Print(WikiNode(opts, target))
  {
    hide Open, Close, SafeUrl, EscapeHtml, PrintAll, Trim;
    var page, caption := target, target;
    var bar := IndexOf(target, '|', 0);
    if bar != |target| {
      page := Trim(target[..bar]);
      caption := Trim(target[bar + 1..]);
    }
    var href := if opts.link.Some? then opts.link.value(page) else "";
    if href == "" || !SafeUrl(href) {
      return out + EscapeHtml(caption);
    }
    var missing := opts.known.Some? && !opts.known.value(page);
    var tag := if missing then Wanted(href, opts.wantedClass) else Anchor(href);
    TaggedIs(out, tag, caption);
    r := out + Open(tag);
    r := r + EscapeHtml(caption);
    r := r + Close(tag);
  }

  method Autolink(out: string, s: string, i: nat) returns (r: string, end: nat)
    requires i <= |s| && UrlStarts(s, i)
    ensures end == UrlEnd(s, i) && r == out + Print(BareNode(s[i..end]))
  {
    hide Open, Close, SafeUrl, EscapeHtml, PrintAll, UrlStarts, EndsUrl, Trailing;
    end := i;
    while end < |s| && !EndsUrl(s[end])
      invariant i <= end <= |s| && UrlStop(s, end) == UrlStop(s, i)
    {
      end := end + 1;
    }
    while end > i && Trailing(s[end - 1])
      invariant i <= end <= |s| && UrlCut(s, i, end) == UrlEnd(s, i)
    {
      end := end - 1;
    }
    var url := s[i..end];
    TaggedIs(out, Anchor(url), url);
    if SafeUrl(url) {
      r := out + Open(Anchor(url));
      r := r + EscapeHtml(url);
      r := r + Close(Anchor(url));
    } else {
      r := out + EscapeHtml(url);
    }
  }

  method EmitLink(out: string, opts: Options, text: string, url: string, depth: nat) returns (r: string)
    requires depth <= MAX_INLINE_DEPTH + 1
    ensures r == out + Print(LinkNode(|out|, opts, text, url, depth))
    decreases MAX_INLINE_DEPTH + 1 - depth, 3
  {
    hide Open, Close, SafeUrl, EscapeHtml, PrintAll, Inline;
    if !SafeUrl(url) {
      return out + EscapeHtml(text);
    }
    r := EmitInline(out + Open(Anchor(url)), opts, text, depth);
    CloseIs(out, Anchor(url), Inline(|out + Open(Anchor(url))|, opts, text, depth), r);
    r := r + Close(Anchor(url));
  }

  /** A backquoted span starting at `i`; None when nothing closes it. */
  method CodeSpan(out: string, s: string, i: nat) returns (r: Option<(string, nat)>)
    requires i < |s| && s[i] == '`'
    ensures Emits(out, CodeAt(s, i), r)
  {
    hide Open, Close, EscapeHtml, PrintAll, FindText, MarkRun;
    var ticks := MarkRun(s[i..], '`');
    var close := FindText(s, s[i..i + ticks], i + ticks);
    if close.None? {
      return None;
    }
    var inside := s[i + ticks..close.value];
    TaggedIs(out, Simple("code"), inside);
    var text := out + Open(Simple("code"));
    text := text + EscapeHtml(inside);
    text := text + Close(Simple("code"));
    r := Some((text, close.value + ticks));
  }

  /** A wiki link starting at `i`. */
  method WikiSpan(out: string, opts: Options, s: string, i: nat) returns (r: Option<(string, nat)>)
    requires i + 2 <= |s|
    ensures Emits(out, WikiAt(opts, s, i), r)
  {
    hide FindText, WikiNode, Print, Trim;
    var close := FindText(s, "]]", i + 2);
    if close.None? {
      return None;
    }
    var text := EmitWikiLink(out, opts, Trim(s[i + 2..close.value]));
    r := Some((text, close.value + 2));
  }

  method ImageSpan(out: string, s: string, i: nat) returns (r: Option<(string, nat)>)
    requires i + 2 <= |s|
    ensures Emits(out, ImageAt(s, i), r)
  {
    hide Open, SafeUrl, EscapeHtml, LinkParts, Trim;
    var parts := LinkParts(s, i + 2);
    if parts.None? {
      return None;
    }
    var (close, paren) := parts.value;
    var alt, url := s[i + 2..close], Trim(s[close + 2..paren]);
    if SafeUrl(url) {
      r := Some((out + Open(Image(url, alt)), paren + 1));
    } else {
      r := Some((out + EscapeHtml(alt), paren + 1));
    }
  }

  method LinkSpan(out: string, opts: Options, s: string, i: nat, depth: nat) returns (r: Option<(string, nat)>)
    requires i < |s| && depth <= MAX_INLINE_DEPTH
    ensures Emits(out, LinkAt(|out|, opts, s, i, depth), r)
    decreases MAX_INLINE_DEPTH + 1 - depth, 0
  {
    hide LinkParts, LinkNode, Print, Trim;
    var parts := LinkParts(s, i + 1);
    if parts.None? {
      return None;
    }
    var (close, paren) := parts.value;
    var text := EmitLink(out, opts, s[i + 1..close], Trim(s[close + 2..paren]), depth + 1);
    r := Some((text, paren + 1));
  }

  /** Emphasis starting at `i`: one mark or two. */
  method EmphasisSpan(out: string, opts: Options, s: string, i: nat, depth: nat) returns (r: Option<(string, nat)>)
    requires i + 1 < |s| && depth <= MAX_INLINE_DEPTH
    ensures Emits(out, EmphasisAt(|out|, opts, s, i, depth), r)
    decreases MAX_INLINE_DEPTH + 1 - depth, 0
  {
    hide Open, Close, FindText, Inline, IsSpace, PrintAll, Print;
    var strong := s[i + 1] == s[i];
    var mark := if strong then [s[i], s[i]] else [s[i]];
    var from := i + |mark|;
    if from >= |s| || IsSpace(s[from]) {
      return None;
    }
    var close := FindText(s, mark, from);
    if close.None? || close.value <= from {
      return None;
    }
    var tag := if strong then Simple("strong") else Simple("em");
    var text := EmitInline(out + Open(tag), opts, s[from..close.value], depth + 1);
    ghost var shown := Inline(|out + Open(tag)|, opts, s[from..close.value], depth + 1);
    CloseIs(out, tag, shown, text);
    assert EmphasisAt(|out|, opts, s, i, depth) == Some((Element(tag, shown), close.value + |mark|));
    r := Some((text + Close(tag), close.value + |mark|));
  }

  /** The first construct that applies at `i`, in the order they are tried. */
  method SpecialSpan(out: string, opts: Options, s: string, i: nat, depth: nat) returns (r: Option<(string, nat)>)
    requires i < |s| && depth <= MAX_INLINE_DEPTH
    ensures Emits(out, SpecialAt(|out|, opts, s, i, depth), r)
    decreases MAX_INLINE_DEPTH + 1 - depth, 1
  {
    hide CodeAt, WikiAt, ImageAt, LinkAt, EmphasisAt, BareNode, Print, Ahead, UrlStarts, UrlEnd, IsSpace;
    var c := s[i];
    r := None;
    if c == '`' && Ahead(s, '`', i) {
      r := CodeSpan(out, s, i);
    }
    if r.None? && c == '[' && i + 1 < |s| && s[i + 1] == '[' && Ahead(s, ']', i) {
      r := WikiSpan(out, opts, s, i);
    }
    if r.None? && c == '!' && i + 1 < |s| && s[i + 1] == '[' && Ahead(s, ']', i) && Ahead(s, ')', i) {
      r := ImageSpan(out, s, i);
    }
    if r.None? && c == '[' && Ahead(s, ']', i) && Ahead(s, ')', i) {
      r := LinkSpan(out, opts, s, i, depth);
    }
    if r.None? && (c == '*' || c == '_') && i + 1 < |s| {
      r := EmphasisSpan(out, opts, s, i, depth);
    }
    if r.None? && c == 'h' && UrlStarts(s, i) && (i == 0 || IsSpace(s[i - 1]) || s[i - 1] == '(') {
      var text, end := Autolink(out, s, i);
      r := Some((text, end));
    }
  }

  /** A line of text: plain past the nesting cap, and nothing more once the output is full. */
  method EmitInline(out: string, opts: Options, s: string, depth: nat) returns (r: string)
    requires depth <= MAX_INLINE_DEPTH + 1
    ensures r == out + PrintAll(Inline(|out|, opts, s, depth))
    decreases MAX_INLINE_DEPTH + 1 - depth, 2
  {
    hide PrintAll, EscapeHtml, SpecialAt, IsPunct;
    if depth > MAX_INLINE_DEPTH {
      PrintOne(Words(s));
      return out + EscapeHtml(s);
    }
    r := out;
    var i := 0;
    while i < |s|
      invariant i <= |s|
      invariant r + PrintAll(InlineFrom(|r|, opts, s, i, depth)) == out + PrintAll(InlineFrom(|out|, opts, s, 0, depth))
      decreases |s| - i
    {
      if |r| >= opts.maxOutput {
        NothingMore(r);
        return;
      }
      var text, next: nat;
      if s[i] == '\\' && i + 1 < |s| && IsPunct(s[i + 1]) {
        text, next := r + EscapeHtml([s[i + 1]]), i + 2;
      } else {
        var span := SpecialSpan(r, opts, s, i, depth);
        if span.Some? {
          text, next := span.value.0, span.value.1;
        } else {
          text, next := r + EscapeHtml([s[i]]), i + 1;
        }
      }
      var node := SpanAt(|r|, opts, s, i, depth).0;
      assert text == r + Print(node) && next == SpanAt(|r|, opts, s, i, depth).1;
      StepOne(r, node, InlineFrom(|text|, opts, s, next, depth));
      r, i := text, next;
    }
    NothingMore(r);
  }

  lemma NothingMore(r: string)
    ensures r + PrintAll([]) == r
  {
  }

  /** The inline half on its own. */
  method RenderInline(src: string, opts: Options) returns (html: string)
    ensures html == PrintAll(Inline(0, opts, src, 0)) && WellNested(html)
  {
    hide WellNested, Inline, PrintAll;
    html := EmitInline("", opts, src, 0);
    LineIsSound(src, opts);
    TreesAreWellNested(Inline(0, opts, src, 0));
  }

  // ---- blocks -------------------------------------------------------------

  method Paragraph(out: string, opts: Options, lines: seq<string>, from: nat, upTo: nat) returns (r: string)
    requires from <= upTo <= |lines|
    ensures r == out + PrintAll(ParagraphNodes(|out|, opts, lines, from, upTo))
  {
    hide Open, Close, Trim, Inline, PrintAll, IsBlank, HardBreak;
    var i := from;
    while i < upTo && Trim(lines[i]) == ""
      invariant from <= i <= upTo && AllBlank(lines, from, upTo) == AllBlank(lines, i, upTo)
    {
      BlankIs(lines[i]);
      i := i + 1;
    }
    if i == upTo {
      NothingMore(out);
      return out;
    }
    BlankIs(lines[i]);
    ghost var inside := out + Open(Simple("p"));
    r := out + Open(Simple("p"));
    for i := from to upTo
      invariant r + PrintAll(ParagraphLines(|r|, opts, lines, from, i, upTo)) == inside + PrintAll(ParagraphLines(|inside|, opts, lines, from, from, upTo))
    {
      var gap := LineGap(lines, from, i);
      GapPrints(lines, from, i);
      var text := r;
      if i > from {
        text := r + (if HardBreak(lines[i - 1]) then Open(Break) + "\n" else "\n");
      } else {
        NothingMore(r);
      }
      assert text == r + PrintAll(gap);
      var more := EmitInline(text, opts, Trim(lines[i]), 0);
      ghost var shown := Inline(|text|, opts, Trim(lines[i]), 0);
      Step(r, gap, shown);
      Step(r, gap + shown, ParagraphLines(|more|, opts, lines, from, i + 1, upTo));
      r := more;
    }
    NothingMore(r);
    CloseLineIs(out, Simple("p"), ParagraphLines(|inside|, opts, lines, from, from, upTo), r);
    r := (r + Close(Simple("p"))) + "\n";
  }

  lemma BlankIs(line: string)
    ensures IsBlank(line) <==> Trim(line) == ""
  {
  }

  lemma GapPrints(lines: seq<string>, from: nat, i: nat)
    requires from <= i <= |lines|
    ensures PrintAll(LineGap(lines, from, i)) ==
            if i == from then "" else if HardBreak(lines[i - 1]) then Open(Break) + "\n" else "\n"
  {
    hide Open, HardBreak, EscapeHtml;
    PrintNewline();
    LineIs("", Lone(Break));
    assert "" + Open(Break) == Open(Break);
    assert "" + PrintAll([Lone(Break), NL]) == PrintAll([Lone(Break), NL]);
  }

  /** The cells of one row, each in a tag. */
  method EmitCells(out: string, opts: Options, cells: seq<string>, tag: Tag) returns (r: string)
    ensures r == out + PrintAll(Cells(|out|, opts, cells, tag, 0))
  {
    hide Open, Close, Inline, PrintAll, Print;
    r := out;
    for i := 0 to |cells|
      invariant r + PrintAll(Cells(|r|, opts, cells, tag, i)) == out + PrintAll(Cells(|out|, opts, cells, tag, 0))
    {
      var text := EmitInline(r + Open(tag), opts, cells[i], 0);
      ghost var shown := Inline(|r + Open(tag)|, opts, cells[i], 0);
      CloseIs(r, tag, shown, text);
      text := text + Close(tag);
      StepOne(r, Element(tag, shown), Cells(|text|, opts, cells, tag, i + 1));
      r := text;
    }
    NothingMore(r);
  }

  method EmitRow(out: string, opts: Options, line: string, tag: Tag) returns (r: string)
    ensures r == out + Print(RowNode(|out|, opts, line, tag))
  {
    hide Open, Close, Cells, PrintAll, TableCells;
    r := EmitCells(out + Open(Simple("tr")), opts, TableCells(line), tag);
    CloseIs(out, Simple("tr"), Cells(|out + Open(Simple("tr"))|, opts, TableCells(line), tag, 0), r);
    r := r + Close(Simple("tr"));
  }

  /** The newline after the table's opening tag, and its head. */
  method EmitHead(out: string, opts: Options, line: string) returns (r: string)
    ensures r == out + PrintAll(TableHead(|out|, opts, line))
  {
    hide Open, Close, RowNode, PrintAll, Print;
    PrintNewline();
    var top := out + "\n";
    var row := EmitRow(top + Open(Simple("thead")), opts, line, Simple("th"));
    ghost var node := RowNode(|top + Open(Simple("thead"))|, opts, line, Simple("th"));
    PrintOne(node);
    CloseLineIs(top, Simple("thead"), [node], row);
    ghost var head := Element(Simple("thead"), [node]);
    Step(out, [NL], [head, NL]);
    assert [NL] + [head, NL] == [NL, head, NL];
    r := (row + Close(Simple("thead"))) + "\n";
  }

  method EmitRows(out: string, opts: Options, lines: seq<string>, from: nat, upTo: nat) returns (r: string)
    requires from <= upTo <= |lines|
    ensures r == out + PrintAll(Rows(|out|, opts, lines, from, upTo))
  {
    hide RowNode, PrintAll, Print;
    r := out;
    for i := from to upTo
      invariant r + PrintAll(Rows(|r|, opts, lines, i, upTo)) == out + PrintAll(Rows(|out|, opts, lines, from, upTo))
    {
      var row := EmitRow(r, opts, lines[i], Simple("td"));
      ghost var node := RowNode(|r|, opts, lines[i], Simple("td"));
      LineIs(r, node);
      Step(r, [node, NL], Rows(|row + "\n"|, opts, lines, i + 1, upTo));
      r := row + "\n";
    }
    NothingMore(r);
  }

  method Table(out: string, opts: Options, lines: seq<string>, from: nat, upTo: nat) returns (r: string)
    requires from + 2 <= upTo <= |lines|
    ensures r == out + Print(TableNode(|out|, opts, lines, from, upTo))
  {
    hide Open, Close, PrintAll, TableHead, Rows;
    PrintNewline();
    ghost var start := out + Open(Simple("table"));
    var head := EmitHead(out + Open(Simple("table")), opts, lines[from]);
    ghost var headNodes := TableHead(|start|, opts, lines[from]);
    ghost var inside := head + Open(Simple("tbody"));
    r := EmitRows((head + Open(Simple("tbody"))) + "\n", opts, lines, from + 2, upTo);
    ghost var rows := Rows(|inside + "\n"|, opts, lines, from + 2, upTo);
    Step(inside, [NL], rows);
    CloseLineIs(head, Simple("tbody"), [NL] + rows, r);
    ghost var body := Element(Simple("tbody"), [NL] + rows);
    r := (r + Close(Simple("tbody"))) + "\n";
    Step(start, headNodes, [body, NL]);
    CloseIs(out, Simple("table"), headNodes + [body, NL], r);
    r := r + Close(Simple("table"));
  }

  lemma {:induction false} EscapeJoin(a: string, b: string)
    ensures EscapeHtml(a + b) == EscapeHtml(a) + EscapeHtml(b)
  {
    hide EscapeHtmlChar;
    if a == "" {
      assert a + b == b;
    } else {
      assert (a + b)[0] == a[0] && (a + b)[1..] == a[1..] + b;
      EscapeJoin(a[1..], b);
      Assoc(EscapeHtmlChar(a[0]), EscapeHtml(a[1..]), EscapeHtml(b));
    }
  }

  /** One more line of code. */
  lemma {:induction false} CodeLine(out: string, lines: seq<string>, line: string)
    ensures ((out + EscapeHtml(Terminate(lines))) + EscapeHtml(line)) + "\n" == out + EscapeHtml(Terminate(lines + [line]))
  {
    hide EscapeHtml;
    TerminateAppend(lines, [line]);
    assert Terminate([line]) == (line + "\n") + Terminate([line][1..]) == line + "\n";
    EscapeJoin(Terminate(lines), line + "\n");
    EscapeJoin(line, "\n");
    PrintNewline();
    Assoc(out, EscapeHtml(Terminate(lines)), EscapeHtml(line));
    Assoc(out, EscapeHtml(Terminate(lines)) + EscapeHtml(line), "\n");
    Assoc(EscapeHtml(Terminate(lines)), EscapeHtml(line), "\n");
  }

  lemma NoCode(out: string)
    ensures out + EscapeHtml(Terminate([])) == out
  {
  }

  lemma CodeIs(out: string, code: Tag, text: string)
    ensures (((((out + Open(Simple("pre"))) + Open(code)) + EscapeHtml(text)) + Close(code)) + Close(Simple("pre"))) + "\n"
         == out + PrintAll([CodeNode(code, text), NL])
  {
    hide Open, Close, PrintAll, EscapeHtml;
    TaggedIs(out + Open(Simple("pre")), code, text);
    PrintOne(Element(code, [Words(text)]));
    CloseLineIs(out, Simple("pre"), [Element(code, [Words(text)])],
                (((out + Open(Simple("pre"))) + Open(code)) + EscapeHtml(text)) + Close(code));
  }

  method FenceBlock(out: string, lines: seq<string>, i: nat, upTo: nat, info: string) returns (r: string, next: nat)
    requires i < upTo <= |lines|
    ensures var j := FenceEnd(lines, i + 1, upTo);
            r == out + PrintAll([FenceNode(info, lines, i + 1, j), NL]) && next == if j < upTo then j + 1 else upTo
  {
    hide Open, Close, ClosesFence, PrintAll, EscapeHtml, Terminate;
    var j := i + 1;
    while j < upTo && !ClosesFence(lines[j])
      invariant i < j <= upTo && FenceEnd(lines, j, upTo) == FenceEnd(lines, i + 1, upTo)
    {
      j := j + 1;
    }
    var code := if info == "" then Simple("code") else LangCode(info);
    ghost var start := (out + Open(Simple("pre"))) + Open(code);
    var text := (out + Open(Simple("pre"))) + Open(code);
    NoCode(start);
    assert lines[i + 1..i + 1] == [];
    for k := i + 1 to j
      invariant text == start + EscapeHtml(Terminate(lines[i + 1..k]))
    {
      CodeLine(start, lines[i + 1..k], lines[k]);
      assert lines[i + 1..k] + [lines[k]] == lines[i + 1..k + 1];
      text := text + EscapeHtml(lines[k]);
      text := text + "\n";
    }
    CodeIs(out, code, Terminate(lines[i + 1..j]));
    r := ((text + Close(code)) + Close(Simple("pre"))) + "\n";
    next := if j < upTo then j + 1 else upTo;
  }

  /** A heading: up to six marks and a space, then its text without trailing marks. */
  method Heading(out: string, opts: Options, line: string) returns (r: Option<string>)
    ensures var node := HeadingNode(|out|, opts, line);
            r == if node.None? then None else Some(out + PrintAll([node.value, NL]))
  {
    hide Open, Close, Trim, MarkRun, HeadingTag, Inline, PrintAll;
    var t := Trim(line);
    var marks := MarkRun(t, '#');
    if marks < 1 || marks > 6 || marks >= |t| || t[marks] != ' ' {
      return None;
    }
    var text := Trim(t[marks..]);
    while text != "" && text[|text| - 1] == '#'
      invariant NoMarks(text) == NoMarks(Trim(t[marks..]))
      decreases |text|
    {
      text := text[..|text| - 1];
    }
    var tag := HeadingTag(marks);
    var inner := EmitInline(out + Open(tag), opts, Trim(text), 0);
    CloseLineIs(out, tag, Inline(|out + Open(tag)|, opts, Trim(text), 0), inner);
    r := Some((inner + Close(tag)) + "\n");
  }

  method QuoteBlock(out: string, opts: Options, lines: seq<string>, i: nat, upTo: nat, depth: nat) returns (r: string, next: nat)
    requires i < upTo <= |lines| && depth <= opts.maxNesting
    ensures next == QuoteEnd(lines, i, upTo)
    ensures r == out + PrintAll([QuoteNode(|out|, opts, QuoteLines(lines, i, next), depth), NL])
    decreases Nest(opts, depth), 0
  {
    hide Open, Close, Unquoted, IsQuote, BlocksOf, PrintAll;
    var j := i;
    var inner: seq<string> := [];
    while j < upTo && IsQuote(lines[j])
      invariant i <= j <= upTo && QuoteEnd(lines, j, upTo) == QuoteEnd(lines, i, upTo) && inner == QuoteLines(lines, i, j)
    {
      inner := inner + [Unquoted(lines[j])];
      j := j + 1;
    }
    var tag := Simple("blockquote");
    ghost var start := out + Open(tag);
    var text := Blocks((out + Open(tag)) + "\n", opts, inner, 0, |inner|, depth + 1);
    ghost var blocks := BlocksOf(|start + "\n"|, opts, inner, 0, |inner|, depth + 1);
    PrintNewline();
    Step(start, [NL], blocks);
    CloseLineIs(out, tag, [NL] + blocks, text);
    r := (text + Close(tag)) + "\n";
    next := j;
  }

  /** The first line at or after `k` that is not blank. */
  method SkipBlanks(lines: seq<string>, k: nat, upTo: nat) returns (j: nat)
    requires k <= upTo <= |lines|
    ensures j == AfterBlanks(lines, k, upTo)
  {
    hide IsBlank;
    j := k;
    while j < upTo && IsBlank(lines[j])
      invariant k <= j <= upTo && AfterBlanks(lines, j, upTo) == AfterBlanks(lines, k, upTo)
    {
      j := j + 1;
    }
  }

  /** Indented code; trailing blank lines belong to whatever follows. */
  method IndentedBlock(out: string, lines: seq<string>, i: nat, upTo: nat) returns (r: string, next: nat)
    requires i < upTo <= |lines|
    ensures next == IndentedEnd(lines, i, upTo)
    ensures r == out + PrintAll([CodeNode(Simple("code"), Terminate(CodeLines(lines, i, next))), NL])
  {
    hide Open, Close, EscapeHtml, Indented, IsBlank, PrintAll, Terminate, CutFour, AfterBlanks;
    var code := Simple("code");
    ghost var start := (out + Open(Simple("pre"))) + Open(code);
    var text := (out + Open(Simple("pre"))) + Open(code);
    NoCode(start);
    var j := i;
    while j < upTo && (Indented(lines[j]) || IsBlank(lines[j]))
      invariant i <= j <= upTo && IndentedEnd(lines, j, upTo) == IndentedEnd(lines, i, upTo)
      invariant text == start + EscapeHtml(Terminate(CodeLines(lines, i, j)))
      decreases upTo - j
    {
      if IsBlank(lines[j]) {
        var k := SkipBlanks(lines, j, upTo);
        if k >= upTo || !Indented(lines[k]) {
          break;
        }
      }
      CodeLine(start, CodeLines(lines, i, j), CutFour(lines[j]));
      text := text + EscapeHtml(CutFour(lines[j]));
      text := text + "\n";
      j := j + 1;
    }
    CodeIs(out, code, Terminate(CodeLines(lines, i, j)));
    r := ((text + Close(code)) + Close(Simple("pre"))) + "\n";
    next := j;
  }

  /** The lines after an item that belong to it, with its indentation taken off, and where they end. */
  method CollectItem(lines: seq<string>, from: nat, upTo: nat, indent: nat) returns (sub: seq<string>, next: nat)
    requires from <= upTo <= |lines|
    ensures next == ItemEnd(lines, from, upTo, indent) && sub == ItemLines(lines, from, next, indent)
  {
    hide IsItem, IsBlank, Indent, Min;
    sub := [];
    next := from;
    while next < upTo
      invariant from <= next <= upTo && ItemEnd(lines, next, upTo, indent) == ItemEnd(lines, from, upTo, indent)
      invariant sub == ItemLines(lines, from, next, indent)
    {
      var line := lines[next];
      if IsItem(line) && Indent(line) <= indent {
        break;
      }
      if !IsItem(line) && !IsBlank(line) && Indent(line) <= indent {
        break;
      }
      if IsBlank(line) {
        break;
      }
      var strip := Min(Indent(line), indent + 2);
      sub := sub + [line[Min(strip, |line|)..]];
      next := next + 1;
    }
  }

  /** One item: its text, and its own lines as blocks. */
  method EmitItem(out: string, opts: Options, text: string, sub: seq<string>, depth: nat) returns (r: string)
    requires depth <= opts.maxNesting
    ensures r == out + Print(ItemNode(|out|, opts, text, sub, depth))
    decreases Nest(opts, depth), 0
  {
    hide Open, Close, Inline, BlocksOf, PrintAll;
    var tag := Simple("li");
    ghost var start := out + Open(tag);
    r := EmitInline(out + Open(tag), opts, text, 0);
    ghost var first := Inline(|start|, opts, text, 0);
    ghost var more: seq<Node> := [];
    if sub != [] {
      ghost var line := r + "\n";
      r := Blocks(r + "\n", opts, sub, 0, |sub|, depth + 1);
      ghost var blocks := BlocksOf(|line|, opts, sub, 0, |sub|, depth + 1);
      more := [NL] + blocks;
      PrintNewline();
      Step(start + PrintAll(first), [NL], blocks);
    } else {
      NothingMore(r);
    }
    Step(start, first, more);
    CloseIs(out, tag, first + more, r);
    r := r + Close(tag);
  }

  /** An item emitted leaves the items after it to emit. */
  lemma NextItem(r: string, opts: Options, lines: seq<string>, j: nat, upTo: nat, ordered: bool, depth: nat,
                 k: nat, sub: seq<string>, text: string)
    requires j < upTo <= |lines| && depth <= opts.maxNesting && OfList(lines[j], ordered)
    requires k == ItemEnd(lines, j + 1, upTo, Indent(lines[j])) && sub == ItemLines(lines, j + 1, k, Indent(lines[j]))
    requires text == (r + Print(ItemNode(|r|, opts, ItemText(lines[j]), sub, depth))) + "\n"
    ensures text + PrintAll(ItemsFrom(|text|, opts, lines, k, upTo, ordered, depth).0)
         == r + PrintAll(ItemsFrom(|r|, opts, lines, j, upTo, ordered, depth).0)
    ensures ItemsFrom(|text|, opts, lines, k, upTo, ordered, depth).1 == ItemsFrom(|r|, opts, lines, j, upTo, ordered, depth).1
  {
    hide ItemText, Indent, PrintAll, ItemNode, Print, ItemEnd, ItemLines, OfList;
    var item := ItemNode(|r|, opts, ItemText(lines[j]), sub, depth);
    LineIs(r, item);
    Step(r, [item, NL], ItemsFrom(|text|, opts, lines, k, upTo, ordered, depth).0);
  }

  /** A list of one kind, each item with the lines that belong to it. */
  method ListBlock(out: string, opts: Options, lines: seq<string>, i: nat, upTo: nat, ordered: bool, depth: nat) returns (r: string, next: nat)
    requires i < upTo <= |lines| && depth <= opts.maxNesting
    ensures var tag := if ordered then Simple("ol") else Simple("ul");
            var (items, end) := ItemsFrom(|out| + |Open(tag)| + 1, opts, lines, i, upTo, ordered, depth);
            r == out + PrintAll([Element(tag, [NL] + items), NL]) && next == end
    decreases Nest(opts, depth), 1
  {
    hide Open, Close, Bullet, Numbered, ItemText, Indent, PrintAll, ItemNode, Print;
    var tag := if ordered then Simple("ol") else Simple("ul");
    ghost var inside := out + Open(tag);
    r := (out + Open(tag)) + "\n";
    ghost var start := r;
    ghost var whole := ItemsFrom(|start|, opts, lines, i, upTo, ordered, depth);
    var j := i;
    while j < upTo
      invariant i <= j <= upTo
      invariant r + PrintAll(ItemsFrom(|r|, opts, lines, j, upTo, ordered, depth).0) == start + PrintAll(whole.0)
      invariant ItemsFrom(|r|, opts, lines, j, upTo, ordered, depth).1 == whole.1
      decreases upTo - j
    {
      var bullet := Bullet(lines[j]).Some?;
      var number := !bullet && Numbered(lines[j]).Some?;
      if !bullet && !number {
        break;
      }
      if bullet == ordered {
        break;
      }
      assert OfList(lines[j], ordered);
      var sub, k := CollectItem(lines, j + 1, upTo, Indent(lines[j]));
      var text := EmitItem(r, opts, ItemText(lines[j]), sub, depth);
      text := text + "\n";
      NextItem(r, opts, lines, j, upTo, ordered, depth, k, sub, text);
      r := text;
      j := k;
    }
    NothingMore(r);
    PrintNewline();
    Step(inside, [NL], whole.0);
    CloseLineIs(out, tag, [NL] + whole.0, r);
    r := (r + Close(tag)) + "\n";
    next := j;
  }

  /** Where a paragraph that starts at `i` ends. */
  method FindParagraphEnd(lines: seq<string>, i: nat, upTo: nat) returns (j: nat)
    requires i < upTo <= |lines|
    ensures j == ParagraphEnd(lines, i, i, upTo)
  {
    hide IsBlank, IsRule, Fence, IsItem, IsQuote;
    j := i;
    while j < upTo && !IsBlank(lines[j])
      invariant i <= j <= upTo && ParagraphEnd(lines, i, j, upTo) == ParagraphEnd(lines, i, i, upTo)
    {
      if IsRule(lines[j]) || Fence(lines[j]).Some? {
        break;
      }
      if j > i && IsItem(lines[j]) {
        break;
      }
      if j > i && IsQuote(lines[j]) {
        break;
      }
      j := j + 1;
    }
  }

  /** Where a table's rows end. */
  method FindTableEnd(lines: seq<string>, i: nat, upTo: nat) returns (j: nat)
    requires i <= upTo <= |lines|
    ensures j == TableEnd(lines, i, upTo)
  {
    hide IsBlank, Contains;
    j := i;
    while j < upTo && !IsBlank(lines[j]) && Contains(lines[j], '|')
      invariant i <= j <= upTo && TableEnd(lines, j, upTo) == TableEnd(lines, i, upTo)
    {
      j := j + 1;
    }
  }

  /** Too deep: every line a paragraph of its own, escaped. */
  method EmitFlat(out: string, lines: seq<string>, from: nat, upTo: nat) returns (r: string)
    requires from <= upTo <= |lines|
    ensures r == out + PrintAll(Flat(lines, from, upTo))
  {
    hide Open, Close, EscapeHtml, PrintAll, Print;
    var tag := Simple("p");
    r := out;
    for i := from to upTo
      invariant r + PrintAll(Flat(lines, i, upTo)) == out + PrintAll(Flat(lines, from, upTo))
    {
      TaggedIs(r, tag, lines[i]);
      ghost var node := Element(tag, [Words(lines[i])]);
      LineIs(r, node);
      Step(r, [node, NL], Flat(lines, i + 1, upTo));
      r := (((r + Open(tag)) + EscapeHtml(lines[i])) + Close(tag)) + "\n";
    }
    NothingMore(r);
  }

  /** The block that starts at line `i`. */
  method EmitBlock(out: string, opts: Options, lines: seq<string>, i: nat, upTo: nat, depth: nat) returns (r: string, next: nat)
    requires i < upTo <= |lines| && depth <= opts.maxNesting && !IsBlank(lines[i])
    ensures var (nodes, end) := BlockAt(|out|, opts, lines, i, upTo, depth);
            r == out + PrintAll(nodes) && next == end
    decreases Nest(opts, depth), 3
  {
    hide Open, Mark, IsBlank, Fence, IsRule, FenceNode, HeadingNode, OtherBlockAt, IsItem, IsQuote, PrintAll, Print;
    var line := lines[i];
    if Fence(line).Some? {
      r, next := FenceBlock(out, lines, i, upTo, Fence(line).value);
    } else if IsRule(line) {
      RulePrints(out);
      r, next := (out + Open(Rule)) + "\n", i + 1;
    } else {
      var heading: Option<string> := None;
      if Mark(line) == '#' {
        heading := Heading(out, opts, line);
      }
      if heading.Some? {
        r, next := heading.value, i + 1;
      } else {
        r, next := EmitOtherBlock(out, opts, lines, i, upTo, depth);
      }
    }
  }

  lemma RulePrints(out: string)
    ensures (out + Open(Rule)) + "\n" == out + PrintAll([Lone(Rule), NL])
  {
    hide Open;
    LineIs(out, Lone(Rule));
  }

  method EmitOtherBlock(out: string, opts: Options, lines: seq<string>, i: nat, upTo: nat, depth: nat) returns (r: string, next: nat)
    requires i < upTo <= |lines| && depth <= opts.maxNesting && OfParagraph(lines, i, i)
    ensures var (nodes, end) := OtherBlockAt(|out|, opts, lines, i, upTo, depth);
            r == out + PrintAll(nodes) && next == end
    decreases Nest(opts, depth), 2
  {
    hide Open, IsBlank, Fence, IsRule, IsItem, IsQuote, Indented, Bullet, IsTableRule, Contains, OfParagraph;
    hide QuoteNode, QuoteLines, CodeNode, CodeLines, ItemsFrom, TableNode, ParagraphNodes, PrintAll, Print;
    var line := lines[i];
    if IsQuote(line) {
      r, next := QuoteBlock(out, opts, lines, i, upTo, depth);
    } else if Indented(line) {
      r, next := IndentedBlock(out, lines, i, upTo);
    } else if IsItem(line) {
      r, next := ListBlock(out, opts, lines, i, upTo, Bullet(line).None?, depth);
    } else if Contains(line, '|') && i + 1 < upTo && IsTableRule(lines[i + 1]) {
      next := FindTableEnd(lines, i + 2, upTo);
      var table := Table(out, opts, lines, i, next);
      LineIs(out, TableNode(|out|, opts, lines, i, next));
      r := table + "\n";
    } else {
      next := FindParagraphEnd(lines, i, upTo);
      r := Paragraph(out, opts, lines, i, next);
    }
  }

  method Blocks(out: string, opts: Options, lines: seq<string>, from: nat, upTo: nat, depth: nat) returns (r: string)
    requires from <= upTo <= |lines|
    ensures r == out + PrintAll(BlocksOf(|out|, opts, lines, from, upTo, depth))
    decreases Nest(opts, depth), 4
  {
    hide PrintAll, BlockAt, IsBlank, Flat;
    if depth > opts.maxNesting {
      r := EmitFlat(out, lines, from, upTo);
      return;
    }
    r := out;
    var i := from;
    while i < upTo && |r| < opts.maxOutput
      invariant from <= i <= upTo
      invariant r + PrintAll(BlocksFrom(|r|, opts, lines, i, upTo, depth)) == out + PrintAll(BlocksFrom(|out|, opts, lines, from, upTo, depth))
      decreases upTo - i
    {
      if IsBlank(lines[i]) {
        i := i + 1;
        continue;
      }
      var text, next := EmitBlock(r, opts, lines, i, upTo, depth);
      Step(r, BlockAt(|r|, opts, lines, i, upTo, depth).0, BlocksFrom(|text|, opts, lines, next, upTo, depth));
      r, i := text, next;
    }
    NothingMore(r);
  }

  /** The whole page: the printed tree of the source, and well-nested HTML for every source and every setting. */
  method Render(src: string, opts: Options) returns (html: string)
    ensures html == PrintAll(PageOfSource(src, opts)) && WellNested(html)
  {
    hide WellNested, Open, Close, SplitLines, EscapeHtml, PrintAll, BlocksOf, AllLegal, Nest;
    var lines := SplitLines(if |src| > opts.maxInput then src[..opts.maxInput] else src);
    html := Blocks("", opts, lines, 0, |lines|, 0);
    ghost var nodes := BlocksOf(0, opts, lines, 0, |lines|, 0);
    if |src| > opts.maxInput {
      TaggedIs(html, Truncated, NOTICE);
      LineIs(html, Element(Truncated, [Words(NOTICE)]));
      Step("", nodes, [Element(Truncated, [Words(NOTICE)]), NL]);
      html := ((html + Open(Truncated)) + EscapeHtml(NOTICE)) + Close(Truncated);
      html := html + "\n";
    } else {
      assert nodes + [] == nodes;
    }
    PageSound(src, opts);
    TreesAreWellNested(PageOfSource(src, opts));
  }
}
