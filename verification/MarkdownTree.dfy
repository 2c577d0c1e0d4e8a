/** What the Markdown renderer of core/src/markdown.cpp turns a page into: an HTML tree, cut off where
    the text printed so far reaches the output cap. */
module MarkdownTree {
  import opened Text
  import opened Html

  datatype Options = Options(
    link: Option<string -> string>,
    known: Option<string -> bool>,
    wantedClass: string,
    maxInput: nat,
    maxOutput: nat,
    maxNesting: int)

  const MAX_INLINE_DEPTH := 8

  // ---- line classifiers ---------------------------------------------------

  predicate IsPunct(c: char) {
    '!' <= c <= '/' || ':' <= c <= '@' || '[' <= c <= '`' || '{' <= c <= '~'
  }

  /** Blanks and carriage returns removed from both ends. */
  function Trim(s: string): (r: string)
    ensures |r| <= |s|
  {
    if s != "" && s[0] in " \t\r" then Trim(s[1..])
    else if s != "" && s[|s| - 1] in " \t\r" then Trim(s[..|s| - 1])
    else s
  }

  /** Leading blanks, a tab counting four: this may exceed the length of the line. */
  function Indent(s: string): nat {
    if s == "" then 0 else if s[0] == ' ' then 1 + Indent(s[1..]) else if s[0] == '\t' then 4 + Indent(s[1..]) else 0
  }

  function Unindented(s: string): string {
    s[Min(Indent(s), |s|)..]
  }

  predicate IsBlank(s: string) {
    Trim(s) == ""
  }

  predicate IsRule(s: string) {
    var t := Trim(s);
    |t| >= 3 && (t[0] == '-' || t[0] == '*' || t[0] == '_') && forall i :: 0 <= i < |t| ==> t[i] == t[0] || t[i] == ' '
  }

  /** The content of a bulleted item. */
  function Bullet(s: string): Option<string> {
    var t := Unindented(s);
    if |t| < 2 || (t[0] != '-' && t[0] != '*' && t[0] != '+') || (t[1] != ' ' && t[1] != '\t') || IsRule(s) then None
    else Some(Trim(t[2..]))
  }

  /** The content of a numbered item. */
  function Numbered(s: string): Option<string> {
    var t := Unindented(s);
    var i := DigitRun(t);
    if i == 0 || i > 9 || i + 1 >= |t| || (t[i] != '.' && t[i] != ')') || (t[i + 1] != ' ' && t[i + 1] != '\t') then None
    else Some(Trim(t[i + 2..]))
  }

  predicate IsItem(s: string) {
    Bullet(s).Some? || Numbered(s).Some?
  }

  function MarkRun(s: string, c: char): (n: nat)
    ensures n <= |s|
  {
    if s != "" && s[0] == c then 1 + MarkRun(s[1..], c) else 0
  }

  /** What follows the marks of a code fence. */
  function Fence(s: string): Option<string> {
    var t := Trim(s);
    if |t| < 3 || (t[..3] != "```" && t[..3] != "~~~") then None
    else Some(Trim(t[3 + MarkRun(t[3..], t[0])..]))
  }

  predicate ClosesFence(s: string) {
    Fence(s).Some? && forall i :: 0 <= i < |Trim(s)| ==> Trim(s)[i] == '`' || Trim(s)[i] == '~'
  }

  predicate Contains(s: string, c: char) {
    IndexOf(s, c, 0) < |s|
  }

  predicate IsTableRule(s: string) {
    var t := Trim(s);
    Contains(t, '|') && Contains(t, '-') && forall i :: 0 <= i < |t| ==> t[i] == '|' || t[i] == '-' || t[i] == ':' || t[i] == ' '
  }

  predicate IsQuote(s: string) {
    Trim(s) != "" && Trim(s)[0] == '>'
  }

  /** A quoted line without its mark. */
  function Unquoted(s: string): string {
    if !IsQuote(s) then ""
    else
      var t := Trim(s)[1..];
      if t != "" && t[0] == ' ' then t[1..] else t
  }

  /** The cells of a table row, `cur` being read. */
  function CellsFrom(t: string, cur: string): seq<string>
    decreases |t|
  {
    if t == "" then [Trim(cur)]
    else if |t| > 1 && t[0] == '\\' && t[1] == '|' then CellsFrom(t[2..], cur + "|")
    else if t[0] == '|' then [Trim(cur)] + CellsFrom(t[1..], "")
    else CellsFrom(t[1..], cur + [t[0]])
  }

  function TableCells(line: string): seq<string> {
    var t := Trim(line);
    var t1 := if t != "" && t[0] == '|' then t[1..] else t;
    CellsFrom(if t1 != "" && t1[|t1| - 1] == '|' then t1[..|t1| - 1] else t1, "")
  }

  /** The lines of a text, without their ends; nothing follows the last newline. */
  function SplitLines(s: string): seq<string>
    decreases |s|
  {
    var nl := IndexOf(s, '\n', 0);
    if nl == |s| then (if s == "" then [] else [s])
    else [StripCr(s[..nl])] + SplitLines(s[nl + 1..])
  }

  // ---- searching ----------------------------------------------------------

  /** Some later character of the line is the one given. */
  predicate Ahead(s: string, c: char, i: nat) {
    LastOf(s, c).Some? && i < LastOf(s, c).value
  }

  // ---- links --------------------------------------------------------------

  function PageOf(target: string): string {
    var bar := IndexOf(target, '|', 0);
    if bar == |target| then target else Trim(target[..bar])
  }

  function LabelOf(target: string): string {
    var bar := IndexOf(target, '|', 0);
    if bar == |target| then target else Trim(target[bar + 1..])
  }

  /** A wiki link: an anchor when the page resolves to a safe place, marked when nobody has written it. */
  function WikiNode(opts: Options, target: string): Node {
    var page, caption := PageOf(target), LabelOf(target);
    var href := if opts.link.Some? then opts.link.value(page) else "";
    if href == "" || !SafeUrl(href) then Words(caption)
    else if opts.known.Some? && !opts.known.value(page) then Element(Wanted(href, opts.wantedClass), [Words(caption)])
    else Element(Anchor(href), [Words(caption)])
  }

  /** A bare URL: the text of the link is the URL itself. */
  function BareNode(url: string): Node {
    if SafeUrl(url) then Element(Anchor(url), [Words(url)]) else Words(url)
  }

  predicate EndsUrl(c: char) {
    IsSpace(c) || c == '<' || c == ')'
  }

  /** Punctuation that is left out of a URL it ends; the test in the source also takes a zero byte. */
  predicate Trailing(c: char) {
    c == '.' || c == ',' || c == ';' || c == ':' || c == '!' || c == '?' || c == '\0'
  }

  predicate UrlStarts(s: string, i: nat) {
    i <= |s| && ("http://" <= s[i..] || "https://" <= s[i..])
  }

  lemma UrlHead(s: string, i: nat)
    requires UrlStarts(s, i)
    ensures i + 7 <= |s| && forall k :: i <= k < i + 7 ==> !EndsUrl(s[k])
    ensures exists k :: i < k < |s| && i + 6 <= k && !Trailing(s[k]) && forall j :: i <= j <= k ==> !EndsUrl(s[j])
  {
    var t := s[i..];
    if "http://" <= t {
      assert forall k :: 0 <= k < 7 ==> t[k] == "http://"[k];
      assert forall k :: 0 <= k < 7 ==> s[i + k] == t[k];
      assert s[i + 6] == '/';
    } else {
      assert forall k :: 0 <= k < 8 ==> t[k] == "https://"[k];
      assert forall k :: 0 <= k < 8 ==> s[i + k] == t[k];
      assert s[i + 7] == '/';
    }
  }

  // ---- inline trees -------------------------------------------------------

  /** What remains of the nesting of spans. */
  function Left(depth: nat): nat {
    if depth > MAX_INLINE_DEPTH then 0 else MAX_INLINE_DEPTH + 1 - depth
  }

  /** The first place at or after `k` that cannot be in a URL. */
  function UrlStop(s: string, k: nat): (r: nat)
    requires k <= |s|
    ensures k <= r <= |s|
    decreases |s| - k
  {
    if k < |s| && !EndsUrl(s[k]) then UrlStop(s, k + 1) else k
  }

  function UrlCut(s: string, i: nat, end: nat): (r: nat)
    requires i <= end <= |s|
    ensures i <= r <= end
    decreases end
  {
    if end > i && Trailing(s[end - 1]) then UrlCut(s, i, end - 1) else end
  }

  /** Where the URL that starts at `i` ends, without the punctuation after it. */
  function UrlEnd(s: string, i: nat): (r: nat)
    requires i <= |s|
    ensures i <= r <= |s|
  {
    UrlCut(s, i, UrlStop(s, i))
  }

  lemma {:induction false} UrlStopsAfter(s: string, k: nat, keep: nat)
    requires k <= keep < |s| && forall j :: k <= j <= keep ==> !EndsUrl(s[j])
    ensures keep < UrlStop(s, k)
    decreases keep - k
  {
    if k < keep {
      UrlStopsAfter(s, k + 1, keep);
    }
  }

  lemma {:induction false} UrlCutAfter(s: string, i: nat, end: nat, keep: nat)
    requires i <= keep < end <= |s| && !Trailing(s[keep])
    ensures keep < UrlCut(s, i, end)
    decreases end
  {
    if keep < end - 1 && Trailing(s[end - 1]) {
      UrlCutAfter(s, i, end - 1, keep);
    }
  }

  lemma UrlAdvances(s: string, i: nat)
    requires UrlStarts(s, i)
    ensures i < UrlEnd(s, i)
  {
    UrlHead(s, i);
    var keep :| i < keep < |s| && i + 6 <= keep && !Trailing(s[keep]) && forall j :: i <= j <= keep ==> !EndsUrl(s[j]);
    UrlStopsAfter(s, i, keep);
    UrlCutAfter(s, i, UrlStop(s, i), keep);
  }

  /** A backquoted span starting at `i`, and the place after it; None when nothing closes it. */
  function CodeAt(s: string, i: nat): (r: Option<(Node, nat)>)
    requires i < |s| && s[i] == '`'
    ensures r.Some? ==> i < r.value.1 <= |s|
  {
    var ticks := MarkRun(s[i..], '`');
    var close := FindText(s, s[i..i + ticks], i + ticks);
    if close.None? then None
    else Some((Element(Simple("code"), [Words(s[i + ticks..close.value])]), close.value + ticks))
  }

  function WikiAt(opts: Options, s: string, i: nat): (r: Option<(Node, nat)>)
    requires i + 2 <= |s|
    ensures r.Some? ==> i < r.value.1 <= |s|
  {
    var close := FindText(s, "]]", i + 2);
    if close.None? then None else Some((WikiNode(opts, Trim(s[i + 2..close.value])), close.value + 2))
  }

  /** The bracketed part that starts at `from` and the parenthesised part right after it: where the first
      ends, and where the second does. */
  function LinkParts(s: string, from: nat): (r: Option<(nat, nat)>)
    requires from <= |s|
    ensures r.Some? ==> from <= r.value.0 && r.value.0 + 2 <= r.value.1 < |s|
  {
    var close := IndexOf(s, ']', from);
    if close + 1 >= |s| || s[close + 1] != '(' then None
    else
      var paren := IndexOf(s, ')', close + 2);
      if paren == |s| then None else Some((close, paren))
  }

  /** An image leads to a safe place or is only its description. */
  function ImageNode(alt: string, url: string): Node {
    if SafeUrl(url) then Lone(Image(url, alt)) else Words(alt)
  }

  function ImageAt(s: string, i: nat): (r: Option<(Node, nat)>)
    requires i + 2 <= |s|
    ensures r.Some? ==> i < r.value.1 <= |s|
  {
    var parts := LinkParts(s, i + 2);
    if parts.None? then None
    else
      var (close, paren) := parts.value;
      Some((ImageNode(s[i + 2..close], Trim(s[close + 2..paren])), paren + 1))
  }

  /** A line of text as nodes, after `n` characters of output: plain past the nesting cap. */
  function Inline(n: nat, opts: Options, s: string, depth: nat): seq<Node>
    decreases Left(depth), 3, 0
  {
    if depth > MAX_INLINE_DEPTH then [Words(s)] else InlineFrom(n, opts, s, 0, depth)
  }

  /** The nodes of the line from `i` on: nothing once the output is full. */
  function InlineFrom(n: nat, opts: Options, s: string, i: nat, depth: nat): seq<Node>
    requires i <= |s| && depth <= MAX_INLINE_DEPTH
    decreases Left(depth), 2, |s| - i
  {
    if i == |s| || n >= opts.maxOutput then []
    else
      var (node, next) := SpanAt(n, opts, s, i, depth);
      [node] + InlineFrom(n + |Print(node)|, opts, s, next, depth)
  }

  /** The node that starts at `i`, and where the next one does. */
  function SpanAt(n: nat, opts: Options, s: string, i: nat, depth: nat): (r: (Node, nat))
    requires i < |s| && depth <= MAX_INLINE_DEPTH
    ensures i < r.1 <= |s|
    decreases Left(depth), 1, 0
  {
    if Escapes(s, i) then (Words([s[i + 1]]), i + 2)
    else
      var span := SpecialAt(n, opts, s, i, depth);
      if span.Some? then span.value else (Words([s[i]]), i + 1)
  }

  /** A backslash before punctuation. */
  predicate Escapes(s: string, i: nat) {
    i + 1 < |s| && s[i] == '\\' && IsPunct(s[i + 1])
  }

  predicate Pair(s: string, i: nat, a: char, b: char) {
    i + 1 < |s| && s[i] == a && s[i + 1] == b
  }

  /** The first construct that applies at `i`, in the order they are tried. */
  function SpecialAt(n: nat, opts: Options, s: string, i: nat, depth: nat): (r: Option<(Node, nat)>)
    requires i < |s| && depth <= MAX_INLINE_DEPTH
    ensures r.Some? ==> i < r.value.1 <= |s|
    decreases Left(depth), 0, 1
  {
    var code := if s[i] == '`' && Ahead(s, '`', i) then CodeAt(s, i) else None;
    if code.Some? then code
    else
      var wiki := if Pair(s, i, '[', '[') && Ahead(s, ']', i) then WikiAt(opts, s, i) else None;
      if wiki.Some? then wiki
      else
        var image := if Pair(s, i, '!', '[') && Ahead(s, ']', i) && Ahead(s, ')', i) then ImageAt(s, i) else None;
        if image.Some? then image
        else
          var link := if s[i] == '[' && Ahead(s, ']', i) && Ahead(s, ')', i) then LinkAt(n, opts, s, i, depth) else None;
          if link.Some? then link
          else if (s[i] == '*' || s[i] == '_') && i + 1 < |s| then EmphasisAt(n, opts, s, i, depth)
          else if s[i] == 'h' && UrlStarts(s, i) && (i == 0 || IsSpace(s[i - 1]) || s[i - 1] == '(') then
            UrlAdvances(s, i);
            Some((BareNode(s[i..UrlEnd(s, i)]), UrlEnd(s, i)))
          else None
  }

  /** A link to a safe place, or only its text. */
  function LinkNode(n: nat, opts: Options, text: string, url: string, depth: nat): Node
    decreases Left(depth), 4, 0
  {
    if SafeUrl(url) then Element(Anchor(url), Inline(n + |Open(Anchor(url))|, opts, text, depth)) else Words(text)
  }

  function LinkAt(n: nat, opts: Options, s: string, i: nat, depth: nat): (r: Option<(Node, nat)>)
    requires i < |s| && depth <= MAX_INLINE_DEPTH
    ensures r.Some? ==> i < r.value.1 <= |s|
    decreases Left(depth), 0, 0
  {
    var parts := LinkParts(s, i + 1);
    if parts.None? then None
    else
      var (close, paren) := parts.value;
      Some((LinkNode(n, opts, s[i + 1..close], Trim(s[close + 2..paren]), depth + 1), paren + 1))
  }

  /** Emphasis starting at `i`: one mark or two. */
  function EmphasisAt(n: nat, opts: Options, s: string, i: nat, depth: nat): (r: Option<(Node, nat)>)
    requires i + 1 < |s| && depth <= MAX_INLINE_DEPTH
    ensures r.Some? ==> i < r.value.1 <= |s|
    decreases Left(depth), 0, 0
  {
    var strong := s[i + 1] == s[i];
    var mark := if strong then [s[i], s[i]] else [s[i]];
    var tag := if strong then Simple("strong") else Simple("em");
    var from := i + |mark|;
    if from >= |s| || IsSpace(s[from]) then None
    else
      var close := FindText(s, mark, from);
      if close.None? || close.value <= from then None
      else Some((Element(tag, Inline(n + |Open(tag)|, opts, s[from..close.value], depth + 1)), close.value + |mark|))
  }

  // ---- legal tags ---------------------------------------------------------

  lemma NameLegal(name: string)
    requires name != "" && name[0] !in "bhi" && forall i :: 0 <= i < |name| ==> 'a' <= name[i] <= 'z' || IsDigit(name[i])
    ensures LegalTag(Simple(name))
  {
  }

  lemma SimpleTags()
    ensures LegalTag(Simple("strong")) && LegalTag(Simple("em")) && LegalTag(Simple("code"))
  {
    hide LegalTag;
    NameLegal("strong");
    NameLegal("em");
    NameLegal("code");
  }

  lemma BlockTags()
    ensures LegalTag(Simple("p")) && LegalTag(Simple("li")) && LegalTag(Simple("ol")) && LegalTag(Simple("ul"))
    ensures LegalTag(Simple("pre")) && LegalTag(Simple("code"))
  {
    hide LegalTag;
    NameLegal("p");
    NameLegal("li");
    NameLegal("ol");
    NameLegal("ul");
    NameLegal("pre");
    NameLegal("code");
  }

  lemma QuoteTag()
    ensures LegalTag(Simple("blockquote"))
  {
  }

  lemma TableTags()
    ensures LegalTag(Simple("table")) && LegalTag(Simple("thead")) && LegalTag(Simple("tbody"))
    ensures LegalTag(Simple("tr")) && LegalTag(Simple("th")) && LegalTag(Simple("td"))
  {
    hide LegalTag;
    NameLegal("table");
    NameLegal("thead");
    NameLegal("tbody");
    NameLegal("tr");
    NameLegal("th");
    NameLegal("td");
  }

  function HeadingTag(n: nat): Tag
    requires 1 <= n <= 6
  {
    Simple(['h', Digit(n)])
  }

  lemma HeadingLegal(n: nat)
    requires 1 <= n <= 6
    ensures LegalTag(HeadingTag(n))
  {
    var name := ['h', Digit(n)];
    assert IsDigit(name[1]) && name[1] != 'r';
    assert |name| == 2;
  }

  lemma NotVoid(t: Tag)
    requires LegalTag(t) && (t.Simple? || t.Anchor? || t.Wanted? || t.LangCode? || t.Truncated?)
    ensures !IsVoidName(TagName(t))
  {
  }

  lemma LangIsLegal(info: string)
    ensures LegalTag(LangCode(info)) && LegalTag(Truncated)
  {
  }

  lemma HeadingIsSimple(n: nat)
    requires 1 <= n <= 6
    ensures HeadingTag(n).Simple?
  {
  }

  // ---- block trees --------------------------------------------------------

  const NL := Words("\n")

  /** What remains of the nesting allowance of blocks. */
  function Nest(opts: Options, depth: nat): nat {
    if depth > opts.maxNesting then 0 else opts.maxNesting + 1 - depth
  }

  predicate HardBreak(line: string) {
    |line| >= 2 && line[|line| - 2..] == "  "
  }

  predicate AllBlank(lines: seq<string>, from: nat, upTo: nat)
    requires from <= upTo <= |lines|
    decreases upTo - from
  {
    from == upTo || (IsBlank(lines[from]) && AllBlank(lines, from + 1, upTo))
  }

  /** What comes between line `i` of a paragraph and the one before it. */
  function LineGap(lines: seq<string>, from: nat, i: nat): seq<Node>
    requires from <= i <= |lines|
  {
    if i == from then [] else if HardBreak(lines[i - 1]) then [Lone(Break), NL] else [NL]
  }

  function ParagraphLines(n: nat, opts: Options, lines: seq<string>, from: nat, i: nat, upTo: nat): seq<Node>
    requires from <= i <= upTo <= |lines|
    decreases upTo - i
  {
    if i == upTo then []
    else
      var gap := LineGap(lines, from, i);
      var here := gap + Inline(n + |PrintAll(gap)|, opts, Trim(lines[i]), 0);
      here + ParagraphLines(n + |PrintAll(here)|, opts, lines, from, i + 1, upTo)
  }

  function ParagraphNodes(n: nat, opts: Options, lines: seq<string>, from: nat, upTo: nat): seq<Node>
    requires from <= upTo <= |lines|
  {
    if AllBlank(lines, from, upTo) then []
    else [Element(Simple("p"), ParagraphLines(n + |Open(Simple("p"))|, opts, lines, from, from, upTo)), NL]
  }

  /** The cells of one row from `i` on, each in a tag. */
  function Cells(n: nat, opts: Options, cells: seq<string>, tag: Tag, i: nat): seq<Node>
    requires i <= |cells|
    decreases |cells| - i
  {
    if i == |cells| then []
    else
      var cell := Element(tag, Inline(n + |Open(tag)|, opts, cells[i], 0));
      [cell] + Cells(n + |Print(cell)|, opts, cells, tag, i + 1)
  }

  function RowNode(n: nat, opts: Options, line: string, tag: Tag): Node {
    Element(Simple("tr"), Cells(n + |Open(Simple("tr"))|, opts, TableCells(line), tag, 0))
  }

  function Rows(n: nat, opts: Options, lines: seq<string>, i: nat, upTo: nat): seq<Node>
    requires i <= upTo <= |lines|
    decreases upTo - i
  {
    if i == upTo then []
    else
      var row := RowNode(n, opts, lines[i], Simple("td"));
      [row, NL] + Rows(n + |PrintAll([row, NL])|, opts, lines, i + 1, upTo)
  }

  /** The head of a table, after `n` characters and the newline that ends the opening tag's line. */
  function TableHead(n: nat, opts: Options, line: string): seq<Node> {
    var head := Element(Simple("thead"), [RowNode(n + 1 + |Open(Simple("thead"))|, opts, line, Simple("th"))]);
    [NL, head, NL]
  }

  function TableNode(n: nat, opts: Options, lines: seq<string>, from: nat, upTo: nat): Node
    requires from + 2 <= upTo <= |lines|
  {
    var start := n + |Open(Simple("table"))|;
    var head := TableHead(start, opts, lines[from]);
    var middle := start + |PrintAll(head)|;
    var body := Element(Simple("tbody"), [NL] + Rows(middle + |Open(Simple("tbody"))| + 1, opts, lines, from + 2, upTo));
    Element(Simple("table"), head + [body, NL])
  }

  /** The first closing fence at or after `j`. */
  function FenceEnd(lines: seq<string>, j: nat, upTo: nat): (r: nat)
    requires j <= upTo <= |lines|
    ensures j <= r <= upTo
    decreases upTo - j
  {
    if j == upTo || ClosesFence(lines[j]) then j else FenceEnd(lines, j + 1, upTo)
  }

  function CodeNode(code: Tag, text: string): Node {
    Element(Simple("pre"), [Element(code, [Words(text)])])
  }

  function FenceNode(info: string, lines: seq<string>, from: nat, upTo: nat): Node
    requires from <= upTo <= |lines|
  {
    CodeNode(if info == "" then Simple("code") else LangCode(info), Terminate(lines[from..upTo]))
  }

  /** A heading's text without its trailing marks. */
  function NoMarks(s: string): string {
    if s != "" && s[|s| - 1] == '#' then NoMarks(s[..|s| - 1]) else s
  }

  /** A heading: up to six marks and a space, then its text without trailing marks. */
  function HeadingNode(n: nat, opts: Options, line: string): Option<Node> {
    var t := Trim(line);
    var marks := MarkRun(t, '#');
    if marks < 1 || marks > 6 || marks >= |t| || t[marks] != ' ' then None
    else
      var tag := HeadingTag(marks);
      Some(Element(tag, Inline(n + |Open(tag)|, opts, Trim(NoMarks(Trim(t[marks..]))), 0)))
  }

  function QuoteEnd(lines: seq<string>, j: nat, upTo: nat): (r: nat)
    requires j <= upTo <= |lines|
    ensures j <= r <= upTo
    ensures j < upTo && IsQuote(lines[j]) ==> j < r
    decreases upTo - j
  {
    if j < upTo && IsQuote(lines[j]) then QuoteEnd(lines, j + 1, upTo) else j
  }

  function QuoteLines(lines: seq<string>, from: nat, upTo: nat): seq<string>
    requires from <= upTo <= |lines|
    decreases upTo
  {
    if from == upTo then [] else QuoteLines(lines, from, upTo - 1) + [Unquoted(lines[upTo - 1])]
  }

  predicate Indented(s: string) {
    Indent(s) >= 4
  }

  /** The first line at or after `k` that is not blank. */
  function AfterBlanks(lines: seq<string>, k: nat, upTo: nat): (r: nat)
    requires k <= upTo <= |lines|
    ensures k <= r <= upTo
    decreases upTo - k
  {
    if k < upTo && IsBlank(lines[k]) then AfterBlanks(lines, k + 1, upTo) else k
  }

  /** Line `j` continues indented code: it is indented, or blank with more indented code after the blanks. */
  predicate Continues(lines: seq<string>, j: nat, upTo: nat)
    requires j < upTo <= |lines|
  {
    var k := AfterBlanks(lines, j, upTo);
    if IsBlank(lines[j]) then k < upTo && Indented(lines[k]) else Indented(lines[j])
  }

  function IndentedEnd(lines: seq<string>, j: nat, upTo: nat): (r: nat)
    requires j <= upTo <= |lines|
    ensures j <= r <= upTo
    ensures j < upTo && Continues(lines, j, upTo) ==> j < r
    decreases upTo - j
  {
    if j < upTo && Continues(lines, j, upTo) then IndentedEnd(lines, j + 1, upTo) else j
  }

  function CutFour(line: string): string {
    if |line| >= 4 then line[4..] else ""
  }

  function CodeLines(lines: seq<string>, from: nat, upTo: nat): seq<string>
    requires from <= upTo <= |lines|
    decreases upTo
  {
    if from == upTo then [] else CodeLines(lines, from, upTo - 1) + [CutFour(lines[upTo - 1])]
  }

  function ItemText(line: string): string {
    if Bullet(line).Some? then Bullet(line).value else if Numbered(line).Some? then Numbered(line).value else ""
  }

  /** The line is an item of the kind of the list. */
  predicate OfList(line: string, ordered: bool) {
    if Bullet(line).Some? then !ordered else Numbered(line).Some? && ordered
  }

  /** The line belongs to the item before it, whose indentation is given. */
  predicate OfItem(line: string, indent: nat) {
    !IsBlank(line) && Indent(line) > indent
  }

  function ItemEnd(lines: seq<string>, k: nat, upTo: nat, indent: nat): (r: nat)
    requires k <= upTo <= |lines|
    ensures k <= r <= upTo
    decreases upTo - k
  {
    if k < upTo && OfItem(lines[k], indent) then ItemEnd(lines, k + 1, upTo, indent) else k
  }

  function Outdented(line: string, indent: nat): string {
    line[Min(Min(Indent(line), indent + 2), |line|)..]
  }

  function ItemLines(lines: seq<string>, from: nat, upTo: nat, indent: nat): (r: seq<string>)
    requires from <= upTo <= |lines|
    ensures |r| == upTo - from
    decreases upTo
  {
    if from == upTo then [] else ItemLines(lines, from, upTo - 1, indent) + [Outdented(lines[upTo - 1], indent)]
  }

  function TableEnd(lines: seq<string>, j: nat, upTo: nat): (r: nat)
    requires j <= upTo <= |lines|
    ensures j <= r <= upTo
    decreases upTo - j
  {
    if j < upTo && !IsBlank(lines[j]) && Contains(lines[j], '|') then TableEnd(lines, j + 1, upTo) else j
  }

  predicate StartsTable(lines: seq<string>, i: nat, upTo: nat)
    requires i < upTo <= |lines|
  {
    Contains(lines[i], '|') && i + 1 < upTo && IsTableRule(lines[i + 1])
  }

  /** Line `j` continues the paragraph that started at `i`. */
  predicate OfParagraph(lines: seq<string>, i: nat, j: nat)
    requires i <= j < |lines|
  {
    !IsBlank(lines[j]) && !IsRule(lines[j]) && Fence(lines[j]).None? && (j > i ==> !IsItem(lines[j]) && !IsQuote(lines[j]))
  }

  function ParagraphEnd(lines: seq<string>, i: nat, j: nat, upTo: nat): (r: nat)
    requires i <= j <= upTo <= |lines|
    ensures j <= r <= upTo
    ensures j < upTo && OfParagraph(lines, i, j) ==> j < r
    decreases upTo - j
  {
    if j < upTo && OfParagraph(lines, i, j) then ParagraphEnd(lines, i, j + 1, upTo) else j
  }

  /** The character after the indentation, where the line has one. */
  function Mark(line: string): char {
    if Indent(line) == |line| then (if line == "" then '\0' else line[0])
    else if Indent(line) < |line| then line[Indent(line)]
    else '\0'
  }

  /** Too deep: every line a paragraph of its own. */
  function Flat(lines: seq<string>, i: nat, upTo: nat): seq<Node>
    requires i <= upTo <= |lines|
    decreases upTo - i
  {
    if i == upTo then [] else [Element(Simple("p"), [Words(lines[i])]), NL] + Flat(lines, i + 1, upTo)
  }

  /** Lines as nodes, after `n` characters of output. */
  function BlocksOf(n: nat, opts: Options, lines: seq<string>, from: nat, upTo: nat, depth: nat): seq<Node>
    requires from <= upTo <= |lines|
    decreases Nest(opts, depth), 4, 0
  {
    if depth > opts.maxNesting then Flat(lines, from, upTo) else BlocksFrom(n, opts, lines, from, upTo, depth)
  }

  function BlocksFrom(n: nat, opts: Options, lines: seq<string>, i: nat, upTo: nat, depth: nat): seq<Node>
    requires i <= upTo <= |lines| && depth <= opts.maxNesting
    decreases Nest(opts, depth), 3, upTo - i
  {
    if i == upTo || n >= opts.maxOutput then []
    else if IsBlank(lines[i]) then BlocksFrom(n, opts, lines, i + 1, upTo, depth)
    else
      var (nodes, next) := BlockAt(n, opts, lines, i, upTo, depth);
      nodes + BlocksFrom(n + |PrintAll(nodes)|, opts, lines, next, upTo, depth)
  }

  /** The block that starts at line `i`, and the line after it. */
  function BlockAt(n: nat, opts: Options, lines: seq<string>, i: nat, upTo: nat, depth: nat): (r: (seq<Node>, nat))
    requires i < upTo <= |lines| && depth <= opts.maxNesting && !IsBlank(lines[i])
    ensures i < r.1 <= upTo
    decreases Nest(opts, depth), 2, 0
  {
    var line := lines[i];
    if Fence(line).Some? then
      var j := FenceEnd(lines, i + 1, upTo);
      ([FenceNode(Fence(line).value, lines, i + 1, j), NL], if j < upTo then j + 1 else upTo)
    else if IsRule(line) then ([Lone(Rule), NL], i + 1)
    else
      var heading := if Mark(line) == '#' then HeadingNode(n, opts, line) else None;
      if heading.Some? then ([heading.value, NL], i + 1) else OtherBlockAt(n, opts, lines, i, upTo, depth)
  }

  function OtherBlockAt(n: nat, opts: Options, lines: seq<string>, i: nat, upTo: nat, depth: nat): (r: (seq<Node>, nat))
    requires i < upTo <= |lines| && depth <= opts.maxNesting && OfParagraph(lines, i, i)
    ensures i < r.1 <= upTo
    decreases Nest(opts, depth), 1, 0
  {
    var line := lines[i];
    if IsQuote(line) then
      var j := QuoteEnd(lines, i, upTo);
      ([QuoteNode(n, opts, QuoteLines(lines, i, j), depth), NL], j)
    else if Indented(line) then
      var j := IndentedEnd(lines, i, upTo);
      ([CodeNode(Simple("code"), Terminate(CodeLines(lines, i, j))), NL], j)
    else if IsItem(line) then
      var ordered := Bullet(line).None?;
      var tag := if ordered then Simple("ol") else Simple("ul");
      var (items, j) := ItemsFrom(n + |Open(tag)| + 1, opts, lines, i, upTo, ordered, depth);
      ([Element(tag, [NL] + items), NL], j)
    else if StartsTable(lines, i, upTo) then
      var j := TableEnd(lines, i + 2, upTo);
      ([TableNode(n, opts, lines, i, j), NL], j)
    else
      var j := ParagraphEnd(lines, i, i, upTo);
      (ParagraphNodes(n, opts, lines, i, j), j)
  }

  function QuoteNode(n: nat, opts: Options, inner: seq<string>, depth: nat): Node
    requires depth <= opts.maxNesting
    decreases Nest(opts, depth), 0, 0
  {
    var tag := Simple("blockquote");
    Element(tag, [NL] + BlocksOf(n + |Open(tag)| + 1, opts, inner, 0, |inner|, depth + 1))
  }

  /** The items from line `j` on, and the line after the last. */
  function ItemsFrom(n: nat, opts: Options, lines: seq<string>, j: nat, upTo: nat, ordered: bool, depth: nat): (r: (seq<Node>, nat))
    requires j <= upTo <= |lines| && depth <= opts.maxNesting
    ensures j <= r.1 <= upTo
    ensures j < upTo && OfList(lines[j], ordered) ==> j < r.1
    decreases Nest(opts, depth), 0, upTo - j + 1
  {
    if j == upTo || !OfList(lines[j], ordered) then ([], j)
    else
      var indent := Indent(lines[j]);
      var k := ItemEnd(lines, j + 1, upTo, indent);
      var item := ItemNode(n, opts, ItemText(lines[j]), ItemLines(lines, j + 1, k, indent), depth);
      var (more, end) := ItemsFrom(n + |PrintAll([item, NL])|, opts, lines, k, upTo, ordered, depth);
      ([item, NL] + more, end)
  }

  function ItemNode(n: nat, opts: Options, text: string, sub: seq<string>, depth: nat): Node
    requires depth <= opts.maxNesting
    decreases Nest(opts, depth), 0, 0
  {
    var start := n + |Open(Simple("li"))|;
    var first := Inline(start, opts, text, 0);
    var more := if sub == [] then [] else [NL] + BlocksOf(start + |PrintAll(first)| + 1, opts, sub, 0, |sub|, depth + 1);
    Element(Simple("li"), first + more)
  }

  const NOTICE := "(the rest of this page was too long to render)"

  /** The whole page. */
  function PageOfSource(src: string, opts: Options): seq<Node> {
    var lines := SplitLines(if |src| > opts.maxInput then src[..opts.maxInput] else src);
    BlocksOf(0, opts, lines, 0, |lines|, 0)
    + if |src| > opts.maxInput then [Element(Truncated, [Words(NOTICE)]), NL] else []
  }

}
