/** Every tree that the Markdown renderer of core/src/markdown.cpp makes is legal: its links and images lead to
    safe places, its elements are the ones the renderer knows, and its depth is bounded by the nesting
    that the caps allow. */
module MarkdownSound {
  import opened Text
  import opened Html
  import opened MarkdownTree

  // ---- every tree is legal and shallow ------------------------------------

  /** Legal, and at most `h` nodes deep. */
  predicate Sound(node: Node, h: nat) {
    h > 0 &&
    match node
    case Words(_) => true
    case Element(tag, children) => LegalTag(tag) && !IsVoidName(TagName(tag)) && AllSound(children, h - 1)
    case Lone(tag) => LegalTag(tag) && IsVoidName(TagName(tag))
  }

  predicate AllSound(ns: seq<Node>, h: nat) {
    ns == [] || (Sound(ns[0], h) && AllSound(ns[1..], h))
  }

  /** How deep a tree is. */
  function Height(node: Node): nat {
    if node.Element? then 1 + HeightOfAll(node.children) else 1
  }

  function HeightOfAll(ns: seq<Node>): nat {
    if ns == [] then 0 else Max(Height(ns[0]), HeightOfAll(ns[1..]))
  }

  lemma {:induction false} SoundIsLegal(node: Node, h: nat)
    requires Sound(node, h)
    ensures Legal(node) && Height(node) <= h
    decreases node
  {
    hide LegalTag, IsVoidName, TagName;
    if node.Element? {
      AllSoundIsLegal(node.children, h - 1);
    }
  }

  lemma {:induction false} AllSoundIsLegal(ns: seq<Node>, h: nat)
    requires AllSound(ns, h)
    ensures AllLegal(ns) && HeightOfAll(ns) <= h
    decreases ns
  {
    hide Legal, Height, Sound;
    if ns != [] {
      SoundIsLegal(ns[0], h);
      AllSoundIsLegal(ns[1..], h);
    }
  }

  lemma {:induction false} SoundMore(node: Node, h: nat, more: nat)
    requires Sound(node, h) && h <= more
    ensures Sound(node, more)
    decreases node
  {
    hide LegalTag, IsVoidName, TagName;
    if node.Element? {
      AllSoundMore(node.children, h - 1, more - 1);
    }
  }

  lemma {:induction false} AllSoundMore(ns: seq<Node>, h: nat, more: nat)
    requires AllSound(ns, h) && h <= more
    ensures AllSound(ns, more)
    decreases ns
  {
    hide Sound;
    if ns != [] {
      SoundMore(ns[0], h, more);
      AllSoundMore(ns[1..], h, more);
    }
  }

  lemma {:induction false} SoundJoin(a: seq<Node>, b: seq<Node>, h: nat)
    requires AllSound(a, h) && AllSound(b, h)
    ensures AllSound(a + b, h)
  {
    hide Sound;
    if a == [] {
      assert a + b == b;
    } else {
      assert (a + b)[0] == a[0] && (a + b)[1..] == a[1..] + b;
      SoundJoin(a[1..], b, h);
    }
  }

  lemma SoundOne(node: Node, h: nat)
    requires Sound(node, h)
    ensures AllSound([node], h)
  {
    hide Sound;
    assert [node][1..] == [] && AllSound([], h);
  }

  lemma SoundNone(h: nat)
    ensures AllSound([], h)
  {
  }

  /** An element that the renderer emits, around sound children. */
  lemma SoundElement(tag: Tag, ns: seq<Node>, h: nat)
    requires Emitted(tag) && AllSound(ns, h)
    ensures Sound(Element(tag, ns), h + 1)
  {
    hide AllSound, TagName, IsVoidName;
    NotVoid(tag);
  }

  predicate Emitted(tag: Tag) {
    LegalTag(tag) && (tag.Simple? || tag.Anchor? || tag.Wanted? || tag.LangCode? || tag.Truncated?)
  }

  lemma SoundWords(s: string, h: nat)
    requires h > 0
    ensures Sound(Words(s), h) && AllSound([Words(s)], h)
  {
    SoundOne(Words(s), h);
  }

  lemma SoundLine(node: Node, h: nat)
    requires Sound(node, h)
    ensures AllSound([node, NL], h)
  {
    SoundWords("\n", h);
    SoundOne(node, h);
    SoundJoin([node], [NL], h);
    assert [node] + [NL] == [node, NL];
  }

  lemma WikiSound(opts: Options, target: string)
    ensures Sound(WikiNode(opts, target), 2)
  {
    hide SafeUrl, AllSound, TagName, IsVoidName;
    var caption := LabelOf(target);
    SoundWords(caption, 1);
    SoundWords(caption, 2);
    var href := if opts.link.Some? then opts.link.value(PageOf(target)) else "";
    if href != "" && SafeUrl(href) {
      SoundElement(Anchor(href), [Words(caption)], 1);
      SoundElement(Wanted(href, opts.wantedClass), [Words(caption)], 1);
    }
  }

  lemma BareSound(url: string)
    ensures Sound(BareNode(url), 2)
  {
    hide SafeUrl, AllSound, TagName, IsVoidName;
    SoundWords(url, 1);
    SoundWords(url, 2);
    if SafeUrl(url) {
      SoundElement(Anchor(url), [Words(url)], 1);
    }
  }

  lemma ImageSound(alt: string, url: string)
    ensures Sound(ImageNode(alt, url), 2)
  {
    hide SafeUrl;
  }

  lemma {:induction false} InlineSound(n: nat, opts: Options, s: string, depth: nat)
    ensures AllSound(Inline(n, opts, s, depth), Left(depth) + 1)
    decreases Left(depth), 3, 0
  {
    hide InlineFrom, AllSound, Sound;
    if depth > MAX_INLINE_DEPTH {
      SoundWords(s, 1);
    } else {
      InlineFromSound(n, opts, s, 0, depth);
    }
  }

  lemma {:induction false} InlineFromSound(n: nat, opts: Options, s: string, i: nat, depth: nat)
    requires i <= |s| && depth <= MAX_INLINE_DEPTH
    ensures AllSound(InlineFrom(n, opts, s, i, depth), Left(depth) + 1)
    decreases Left(depth), 2, |s| - i
  {
    hide SpanAt, AllSound, Sound, Print, Left;
    if i < |s| && n < opts.maxOutput {
      SpanSound(n, opts, s, i, depth);
      var (node, next) := SpanAt(n, opts, s, i, depth);
      InlineFromSound(n + |Print(node)|, opts, s, next, depth);
      SoundOne(node, Left(depth) + 1);
      SoundJoin([node], InlineFrom(n + |Print(node)|, opts, s, next, depth), Left(depth) + 1);
    } else {
      SoundNone(Left(depth) + 1);
    }
  }

  lemma {:induction false} SpanSound(n: nat, opts: Options, s: string, i: nat, depth: nat)
    requires i < |s| && depth <= MAX_INLINE_DEPTH
    ensures Sound(SpanAt(n, opts, s, i, depth).0, Left(depth) + 1)
    decreases Left(depth), 1, 0
  {
    hide SpecialAt, Sound, AllSound;
    if Escapes(s, i) {
      SoundWords([s[i + 1]], Left(depth) + 1);
    } else {
      SoundWords([s[i]], Left(depth) + 1);
      SpecialSound(n, opts, s, i, depth);
    }
  }

  lemma CodeSound(s: string, i: nat)
    requires i < |s| && s[i] == '`'
    ensures CodeAt(s, i).Some? ==> Sound(CodeAt(s, i).value.0, 2)
  {
    hide AllSound, Sound, LegalTag, FindText, MarkRun;
    if CodeAt(s, i).Some? {
      var text := CodeAt(s, i).value.0.children[0].s;
      SimpleTags();
      SoundWords(text, 1);
      SoundElement(Simple("code"), [Words(text)], 1);
    }
  }

  lemma WikiAtSound(opts: Options, s: string, i: nat)
    requires i + 2 <= |s|
    ensures WikiAt(opts, s, i).Some? ==> Sound(WikiAt(opts, s, i).value.0, 2)
  {
    hide Sound, WikiNode, FindText, Trim;
    var close := FindText(s, "]]", i + 2);
    if close.Some? {
      WikiSound(opts, Trim(s[i + 2..close.value]));
    }
  }

  lemma ImageAtSound(s: string, i: nat)
    requires i + 2 <= |s|
    ensures ImageAt(s, i).Some? ==> Sound(ImageAt(s, i).value.0, 2)
  {
    hide Sound, ImageNode, LinkParts, Trim;
    var parts := LinkParts(s, i + 2);
    if parts.Some? {
      ImageSound(s[i + 2..parts.value.0], Trim(s[parts.value.0 + 2..parts.value.1]));
    }
  }

  lemma UrlSound(s: string, i: nat, h: nat)
    requires i <= |s| && h >= 2
    ensures Sound(BareNode(s[i..UrlEnd(s, i)]), h)
  {
    hide Sound, BareNode, UrlEnd;
    BareSound(s[i..UrlEnd(s, i)]);
    SoundMore(BareNode(s[i..UrlEnd(s, i)]), 2, h);
  }

  lemma {:induction false} LinkSound(n: nat, opts: Options, s: string, i: nat, depth: nat)
    requires i < |s| && depth <= MAX_INLINE_DEPTH
    ensures var r := LinkAt(n, opts, s, i, depth);
            r.Some? ==> Sound(r.value.0, Left(depth) + 1)
    decreases Left(depth), 0, 0
  {
    hide Sound, AllSound, Inline, LinkParts, Trim, SafeUrl;
    var parts := LinkParts(s, i + 1);
    if parts.Some? {
      var (close, paren) := parts.value;
      var text, url := s[i + 1..close], Trim(s[close + 2..paren]);
      var inside := n + |Open(Anchor(url))|;
      SoundWords(text, Left(depth) + 1);
      if SafeUrl(url) {
        InlineSound(inside, opts, text, depth + 1);
        SoundElement(Anchor(url), Inline(inside, opts, text, depth + 1), Left(depth));
      }
    }
  }

  lemma {:induction false} EmphasisSound(n: nat, opts: Options, s: string, i: nat, depth: nat)
    requires i + 1 < |s| && depth <= MAX_INLINE_DEPTH
    ensures var r := EmphasisAt(n, opts, s, i, depth);
            r.Some? ==> Sound(r.value.0, Left(depth) + 1)
    decreases Left(depth), 0, 0
  {
    hide Sound, AllSound, Inline, FindText, IsSpace, LegalTag;
    var r := EmphasisAt(n, opts, s, i, depth);
    if r.Some? {
      var mark := if s[i + 1] == s[i] then [s[i], s[i]] else [s[i]];
      var tag := if s[i + 1] == s[i] then Simple("strong") else Simple("em");
      var from := i + |mark|;
      var close := FindText(s, mark, from);
      var inside := n + |Open(tag)|;
      SimpleTags();
      InlineSound(inside, opts, s[from..close.value], depth + 1);
      SoundElement(tag, Inline(inside, opts, s[from..close.value], depth + 1), Left(depth));
    }
  }

  lemma {:induction false} SpecialSound(n: nat, opts: Options, s: string, i: nat, depth: nat)
    requires i < |s| && depth <= MAX_INLINE_DEPTH
    ensures var r := SpecialAt(n, opts, s, i, depth);
            r.Some? ==> Sound(r.value.0, Left(depth) + 1)
    decreases Left(depth), 0, 1
  {
    hide Sound, CodeAt, WikiAt, ImageAt, LinkAt, EmphasisAt, BareNode, Ahead, UrlStarts, UrlEnd, IsSpace;
    var h := Left(depth) + 1;
    if s[i] == '`' {
      CodeSound(s, i);
      if CodeAt(s, i).Some? {
        SoundMore(CodeAt(s, i).value.0, 2, h);
      }
    }
    if i + 2 <= |s| {
      WikiAtSound(opts, s, i);
      ImageAtSound(s, i);
      EmphasisSound(n, opts, s, i, depth);
      if WikiAt(opts, s, i).Some? {
        SoundMore(WikiAt(opts, s, i).value.0, 2, h);
      }
      if ImageAt(s, i).Some? {
        SoundMore(ImageAt(s, i).value.0, 2, h);
      }
    }
    LinkSound(n, opts, s, i, depth);
    UrlSound(s, i, h);
  }

  /** Depth of a line of text at the top: eight levels of spans, and what a span may hold. */
  const LINE_HEIGHT := 10

  lemma LineSound(n: nat, opts: Options, s: string)
    ensures AllSound(Inline(n, opts, s, 0), LINE_HEIGHT)
  {
    InlineSound(n, opts, s, 0);
  }

  lemma GapSound(lines: seq<string>, from: nat, i: nat, h: nat)
    requires from <= i <= |lines| && h > 0
    ensures AllSound(LineGap(lines, from, i), h)
  {
    hide HardBreak;
    SoundNone(h);
    SoundWords("\n", h);
    SoundLine(Lone(Break), h);
  }

  lemma {:induction false} ParagraphLinesSound(n: nat, opts: Options, lines: seq<string>, from: nat, i: nat, upTo: nat)
    requires from <= i <= upTo <= |lines|
    ensures AllSound(ParagraphLines(n, opts, lines, from, i, upTo), LINE_HEIGHT)
    decreases upTo - i
  {
    hide AllSound, Inline, LineGap, Trim;
    if i == upTo {
      SoundNone(LINE_HEIGHT);
    } else {
      var gap := LineGap(lines, from, i);
      var text := Inline(n + |PrintAll(gap)|, opts, Trim(lines[i]), 0);
      var here := gap + text;
      GapSound(lines, from, i, LINE_HEIGHT);
      LineSound(n + |PrintAll(gap)|, opts, Trim(lines[i]));
      SoundJoin(gap, text, LINE_HEIGHT);
      ParagraphLinesSound(n + |PrintAll(here)|, opts, lines, from, i + 1, upTo);
      SoundJoin(here, ParagraphLines(n + |PrintAll(here)|, opts, lines, from, i + 1, upTo), LINE_HEIGHT);
    }
  }

  /** Any block without blocks inside is at most this deep: a table, its body, a row, a cell and its text. */
  const BLOCK_HEIGHT := 14

  lemma ElementLine(tag: Tag, ns: seq<Node>, h: nat, more: nat)
    requires Emitted(tag) && AllSound(ns, h) && h + 1 <= more
    ensures AllSound([Element(tag, ns), NL], more)
  {
    hide AllSound, Sound, Emitted;
    SoundElement(tag, ns, h);
    SoundMore(Element(tag, ns), h + 1, more);
    SoundLine(Element(tag, ns), more);
  }

  lemma ParagraphSound(n: nat, opts: Options, lines: seq<string>, from: nat, upTo: nat)
    requires from <= upTo <= |lines|
    ensures AllSound(ParagraphNodes(n, opts, lines, from, upTo), BLOCK_HEIGHT)
  {
    hide AllSound, ParagraphLines, AllBlank, LegalTag;
    BlockTags();
    SoundNone(BLOCK_HEIGHT);
    var inside := n + |Open(Simple("p"))|;
    ParagraphLinesSound(inside, opts, lines, from, from, upTo);
    ElementLine(Simple("p"), ParagraphLines(inside, opts, lines, from, from, upTo), LINE_HEIGHT, BLOCK_HEIGHT);
  }

  lemma {:induction false} CellsSound(n: nat, opts: Options, cells: seq<string>, tag: Tag, i: nat)
    requires i <= |cells| && Emitted(tag)
    ensures AllSound(Cells(n, opts, cells, tag, i), LINE_HEIGHT + 1)
    decreases |cells| - i
  {
    hide AllSound, Sound, Inline, Emitted, Print;
    if i == |cells| {
      SoundNone(LINE_HEIGHT + 1);
    } else {
      var text := Inline(n + |Open(tag)|, opts, cells[i], 0);
      var cell := Element(tag, text);
      LineSound(n + |Open(tag)|, opts, cells[i]);
      SoundElement(tag, text, LINE_HEIGHT);
      SoundOne(cell, LINE_HEIGHT + 1);
      CellsSound(n + |Print(cell)|, opts, cells, tag, i + 1);
      SoundJoin([cell], Cells(n + |Print(cell)|, opts, cells, tag, i + 1), LINE_HEIGHT + 1);
    }
  }

  lemma RowSound(n: nat, opts: Options, line: string, tag: Tag)
    requires Emitted(tag)
    ensures Sound(RowNode(n, opts, line, tag), LINE_HEIGHT + 2)
  {
    hide AllSound, Sound, Cells, LegalTag, TableCells;
    TableTags();
    var inside := n + |Open(Simple("tr"))|;
    CellsSound(inside, opts, TableCells(line), tag, 0);
    SoundElement(Simple("tr"), Cells(inside, opts, TableCells(line), tag, 0), LINE_HEIGHT + 1);
  }

  lemma {:induction false} RowsSound(n: nat, opts: Options, lines: seq<string>, i: nat, upTo: nat)
    requires i <= upTo <= |lines|
    ensures AllSound(Rows(n, opts, lines, i, upTo), LINE_HEIGHT + 2)
    decreases upTo - i
  {
    hide AllSound, Sound, RowNode, LegalTag, PrintAll;
    if i == upTo {
      SoundNone(LINE_HEIGHT + 2);
    } else {
      TableTags();
      var row := RowNode(n, opts, lines[i], Simple("td"));
      RowSound(n, opts, lines[i], Simple("td"));
      SoundLine(row, LINE_HEIGHT + 2);
      var next := n + |PrintAll([row, NL])|;
      RowsSound(next, opts, lines, i + 1, upTo);
      SoundJoin([row, NL], Rows(next, opts, lines, i + 1, upTo), LINE_HEIGHT + 2);
    }
  }

  lemma TableHeadSound(n: nat, opts: Options, line: string)
    ensures AllSound(TableHead(n, opts, line), LINE_HEIGHT + 3)
  {
    hide AllSound, Sound, RowNode, LegalTag;
    TableTags();
    var h := LINE_HEIGHT + 2;
    var row := RowNode(n + 1 + |Open(Simple("thead"))|, opts, line, Simple("th"));
    RowSound(n + 1 + |Open(Simple("thead"))|, opts, line, Simple("th"));
    SoundOne(row, h);
    ElementLine(Simple("thead"), [row], h, h + 1);
    SoundWords("\n", h + 1);
    SoundJoin([NL], [Element(Simple("thead"), [row]), NL], h + 1);
    assert [NL] + [Element(Simple("thead"), [row]), NL] == [NL, Element(Simple("thead"), [row]), NL];
  }

  lemma TableSound(n: nat, opts: Options, lines: seq<string>, from: nat, upTo: nat)
    requires from + 2 <= upTo <= |lines|
    ensures Sound(TableNode(n, opts, lines, from, upTo), BLOCK_HEIGHT)
  {
    hide AllSound, Sound, Rows, TableHead, LegalTag, PrintAll;
    TableTags();
    var h := LINE_HEIGHT + 2;
    var start := n + |Open(Simple("table"))|;
    var head := TableHead(start, opts, lines[from]);
    var inside := start + |PrintAll(head)| + |Open(Simple("tbody"))| + 1;
    var rows := Rows(inside, opts, lines, from + 2, upTo);
    TableHeadSound(start, opts, lines[from]);
    RowsSound(inside, opts, lines, from + 2, upTo);
    SoundWords("\n", h);
    SoundJoin([NL], rows, h);
    ElementLine(Simple("tbody"), [NL] + rows, h, h + 1);
    SoundJoin(head, [Element(Simple("tbody"), [NL] + rows), NL], h + 1);
    SoundElement(Simple("table"), head + [Element(Simple("tbody"), [NL] + rows), NL], h + 1);
  }

  lemma CodeBlockSound(code: Tag, text: string, h: nat)
    requires Emitted(code) && h >= 3
    ensures AllSound([CodeNode(code, text), NL], h)
  {
    hide AllSound, Sound, LegalTag;
    BlockTags();
    SoundWords(text, 1);
    SoundElement(code, [Words(text)], 1);
    SoundOne(Element(code, [Words(text)]), 2);
    ElementLine(Simple("pre"), [Element(code, [Words(text)])], 2, h);
  }

  lemma HeadingSound(n: nat, opts: Options, line: string)
    ensures HeadingNode(n, opts, line).Some? ==> AllSound([HeadingNode(n, opts, line).value, NL], BLOCK_HEIGHT)
  {
    hide AllSound, Sound, Inline, Trim, MarkRun, HeadingTag, NoMarks, LegalTag;
    var t := Trim(line);
    var marks := MarkRun(t, '#');
    if HeadingNode(n, opts, line).Some? {
      var tag := HeadingTag(marks);
      var text := Trim(NoMarks(Trim(t[marks..])));
      HeadingLegal(marks);
      HeadingIsSimple(marks);
      LineSound(n + |Open(tag)|, opts, text);
      ElementLine(tag, Inline(n + |Open(tag)|, opts, text, 0), LINE_HEIGHT, BLOCK_HEIGHT);
    }
  }

  lemma {:induction false} FlatSound(lines: seq<string>, i: nat, upTo: nat, h: nat)
    requires i <= upTo <= |lines| && h >= 2
    ensures AllSound(Flat(lines, i, upTo), h)
    decreases upTo - i
  {
    hide AllSound, Sound, LegalTag;
    if i == upTo {
      SoundNone(h);
    } else {
      BlockTags();
      SoundWords(lines[i], 1);
      ElementLine(Simple("p"), [Words(lines[i])], 1, h);
      FlatSound(lines, i + 1, upTo, h);
      SoundJoin([Element(Simple("p"), [Words(lines[i])]), NL], Flat(lines, i + 1, upTo), h);
    }
  }

  /** How deep blocks can be where `m` levels of nesting are left. */
  function Bound(m: nat): nat {
    BLOCK_HEIGHT + 2 * m
  }

  lemma {:induction false} BlocksSound(n: nat, opts: Options, lines: seq<string>, from: nat, upTo: nat, depth: nat)
    requires from <= upTo <= |lines|
    ensures AllSound(BlocksOf(n, opts, lines, from, upTo, depth), Bound(Nest(opts, depth)))
    decreases Nest(opts, depth), 4, 0
  {
    hide AllSound, Flat, BlocksFrom;
    if depth > opts.maxNesting {
      FlatSound(lines, from, upTo, Bound(Nest(opts, depth)));
    } else {
      BlocksFromSound(n, opts, lines, from, upTo, depth);
    }
  }

  lemma {:induction false} BlocksFromSound(n: nat, opts: Options, lines: seq<string>, i: nat, upTo: nat, depth: nat)
    requires i <= upTo <= |lines| && depth <= opts.maxNesting
    ensures AllSound(BlocksFrom(n, opts, lines, i, upTo, depth), Bound(Nest(opts, depth)))
    decreases Nest(opts, depth), 3, upTo - i
  {
    hide AllSound, BlockAt, IsBlank, Nest, PrintAll, Bound;
    var h := Bound(Nest(opts, depth));
    if i == upTo || n >= opts.maxOutput {
      SoundNone(h);
    } else if IsBlank(lines[i]) {
      BlocksFromSound(n, opts, lines, i + 1, upTo, depth);
    } else {
      var (nodes, next) := BlockAt(n, opts, lines, i, upTo, depth);
      BlockSound(n, opts, lines, i, upTo, depth);
      BlocksFromSound(n + |PrintAll(nodes)|, opts, lines, next, upTo, depth);
      SoundJoin(nodes, BlocksFrom(n + |PrintAll(nodes)|, opts, lines, next, upTo, depth), h);
    }
  }

  lemma {:induction false} BlockSound(n: nat, opts: Options, lines: seq<string>, i: nat, upTo: nat, depth: nat)
    requires i < upTo <= |lines| && depth <= opts.maxNesting && !IsBlank(lines[i])
    ensures AllSound(BlockAt(n, opts, lines, i, upTo, depth).0, Bound(Nest(opts, depth)))
    decreases Nest(opts, depth), 2, 0
  {
    hide AllSound, Sound, OtherBlockAt, Fence, FenceEnd, CodeNode, HeadingNode, IsRule, Mark, IsBlank, IsItem, IsQuote, LegalTag;
    var h := Bound(Nest(opts, depth));
    var line := lines[i];
    if Fence(line).Some? {
      var info := Fence(line).value;
      BlockTags();
      LangIsLegal(info);
      CodeBlockSound(if info == "" then Simple("code") else LangCode(info), Terminate(lines[i + 1..FenceEnd(lines, i + 1, upTo)]), h);
    } else if IsRule(line) {
      RuleSound(h);
    } else {
      HeadingSound(n, opts, line);
      var heading := if Mark(line) == '#' then HeadingNode(n, opts, line) else None;
      if heading.Some? {
        AllSoundMore([heading.value, NL], BLOCK_HEIGHT, h);
      } else {
        OtherBlockSound(n, opts, lines, i, upTo, depth);
      }
    }
  }

  lemma RuleSound(h: nat)
    requires h > 0
    ensures AllSound([Lone(Rule), NL], h)
  {
    SoundLine(Lone(Rule), h);
  }

  lemma {:induction false} OtherBlockSound(n: nat, opts: Options, lines: seq<string>, i: nat, upTo: nat, depth: nat)
    requires i < upTo <= |lines| && depth <= opts.maxNesting && OfParagraph(lines, i, i)
    ensures AllSound(OtherBlockAt(n, opts, lines, i, upTo, depth).0, Bound(Nest(opts, depth)))
    decreases Nest(opts, depth), 1, 0
  {
    hide AllSound, Sound, QuoteNode, QuoteLines, QuoteEnd, CodeNode, CodeLines, IndentedEnd, ItemsFrom, TableNode, TableEnd;
    hide ParagraphNodes, ParagraphEnd, IsQuote, Indented, IsItem, Bullet, LegalTag, IsBlank, IsRule, Fence;
    var h := Bound(Nest(opts, depth));
    BlockTags();
    if IsQuote(lines[i]) {
      var j := QuoteEnd(lines, i, upTo);
      QuoteSound(n, opts, QuoteLines(lines, i, j), depth);
      SoundLine(QuoteNode(n, opts, QuoteLines(lines, i, j), depth), h);
    } else if Indented(lines[i]) {
      CodeBlockSound(Simple("code"), Terminate(CodeLines(lines, i, IndentedEnd(lines, i, upTo))), h);
    } else if IsItem(lines[i]) {
      var ordered := Bullet(lines[i]).None?;
      var tag := if ordered then Simple("ol") else Simple("ul");
      ItemsSound(n + |Open(tag)| + 1, opts, lines, i, upTo, ordered, depth);
      var items := ItemsFrom(n + |Open(tag)| + 1, opts, lines, i, upTo, ordered, depth).0;
      SoundWords("\n", h - 1);
      SoundJoin([NL], items, h - 1);
      ElementLine(tag, [NL] + items, h - 1, h);
    } else if StartsTable(lines, i, upTo) {
      var table := TableNode(n, opts, lines, i, TableEnd(lines, i + 2, upTo));
      TableSound(n, opts, lines, i, TableEnd(lines, i + 2, upTo));
      SoundMore(table, BLOCK_HEIGHT, h);
      SoundLine(table, h);
    } else {
      ParagraphSound(n, opts, lines, i, ParagraphEnd(lines, i, i, upTo));
      AllSoundMore(ParagraphNodes(n, opts, lines, i, ParagraphEnd(lines, i, i, upTo)), BLOCK_HEIGHT, h);
    }
  }

  lemma {:induction false} QuoteSound(n: nat, opts: Options, inner: seq<string>, depth: nat)
    requires depth <= opts.maxNesting
    ensures Sound(QuoteNode(n, opts, inner, depth), Bound(Nest(opts, depth)))
    decreases Nest(opts, depth), 0, 0
  {
    hide AllSound, Sound, BlocksOf, LegalTag;
    var h := Bound(Nest(opts, depth + 1));
    var tag := Simple("blockquote");
    var blocks := BlocksOf(n + |Open(tag)| + 1, opts, inner, 0, |inner|, depth + 1);
    QuoteTag();
    BlocksSound(n + |Open(tag)| + 1, opts, inner, 0, |inner|, depth + 1);
    SoundWords("\n", h);
    SoundJoin([NL], blocks, h);
    SoundElement(tag, [NL] + blocks, h);
    SoundMore(Element(tag, [NL] + blocks), h + 1, h + 2);
  }

  lemma {:induction false} ItemsSound(n: nat, opts: Options, lines: seq<string>, j: nat, upTo: nat, ordered: bool, depth: nat)
    requires j <= upTo <= |lines| && depth <= opts.maxNesting
    ensures AllSound(ItemsFrom(n, opts, lines, j, upTo, ordered, depth).0, Bound(Nest(opts, depth)) - 1)
    decreases Nest(opts, depth), 0, upTo - j + 1
  {
    hide AllSound, Sound, ItemNode, ItemEnd, ItemLines, ItemText, OfList, Indent, PrintAll, Nest;
    var h := Bound(Nest(opts, depth)) - 1;
    if j == upTo || !OfList(lines[j], ordered) {
      SoundNone(h);
    } else {
      var indent := Indent(lines[j]);
      var k := ItemEnd(lines, j + 1, upTo, indent);
      var item := ItemNode(n, opts, ItemText(lines[j]), ItemLines(lines, j + 1, k, indent), depth);
      ItemSound(n, opts, ItemText(lines[j]), ItemLines(lines, j + 1, k, indent), depth);
      SoundLine(item, h);
      ItemsSound(n + |PrintAll([item, NL])|, opts, lines, k, upTo, ordered, depth);
      SoundJoin([item, NL], ItemsFrom(n + |PrintAll([item, NL])|, opts, lines, k, upTo, ordered, depth).0, h);
    }
  }

  lemma {:induction false} ItemSound(n: nat, opts: Options, text: string, sub: seq<string>, depth: nat)
    requires depth <= opts.maxNesting
    ensures Sound(ItemNode(n, opts, text, sub, depth), Bound(Nest(opts, depth)) - 1)
    decreases Nest(opts, depth), 0, 0
  {
    hide AllSound, Sound, BlocksOf, Inline, LegalTag, PrintAll;
    BlockTags();
    var h := Bound(Nest(opts, depth + 1));
    var start := n + |Open(Simple("li"))|;
    var first := Inline(start, opts, text, 0);
    var blocks := BlocksOf(start + |PrintAll(first)| + 1, opts, sub, 0, |sub|, depth + 1);
    LineSound(start, opts, text);
    AllSoundMore(first, LINE_HEIGHT, h);
    BlocksSound(start + |PrintAll(first)| + 1, opts, sub, 0, |sub|, depth + 1);
    SoundWords("\n", h);
    SoundNone(h);
    SoundJoin([NL], blocks, h);
    var more := if sub == [] then [] else [NL] + blocks;
    SoundJoin(first, more, h);
    SoundElement(Simple("li"), first + more, h);
  }

}
