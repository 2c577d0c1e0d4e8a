/** Pages: headings, paragraphs, rules, code, quotes, lists and tables of text. Their Markdown lines, and the HTML that is
    promised for them, written out. */
module MarkdownPages {
  import opened Text
  import opened Html
  import opened MarkdownTree
  import opened MarkdownDoc

  /** A line of a paragraph; after a hard one the next line starts on a line of its own. */
  datatype TextLine = TextLine(text: seq<Span>, hard: bool)

  datatype Block =
    | Heading(level: nat, text: seq<Span>)
    | Paragraph(texts: seq<TextLine>)
    | Divider(line: string)
    | Fenced(mark: char, count: nat, info: string, lines: seq<string>)
    | IndentedCode(lines: seq<string>)
    | Quoted(entries: seq<Entry>)
    | Listing(ordered: bool, items: seq<Item>)
    | Table(head: seq<seq<Span>>, rule: string, rows: seq<seq<seq<Span>>>)

  /** A block and how many empty lines come after it. */
  datatype Entry = Entry(block: Block, gap: nat)

  /** An item of a list: its mark, its text, and the blocks below it. */
  datatype Item = Item(mark: string, text: seq<Span>, inner: seq<Entry>)

  // ---- Markdown -------------------------------------------------------------

  function Repeat(c: char, n: nat): (r: string)
    ensures |r| == n && forall k :: 0 <= k < n ==> r[k] == c
  {
    if n == 0 then "" else [c] + Repeat(c, n - 1)
  }

  function Empties(n: nat): (r: seq<string>)
    ensures |r| == n
  {
    if n == 0 then [] else [""] + Empties(n - 1)
  }

  function Prefixed(prefix: string, lines: seq<string>): (r: seq<string>)
    ensures |r| == |lines|
  {
    if lines == [] then [] else [prefix + lines[0]] + Prefixed(prefix, lines[1..])
  }

  function TextSource(l: TextLine): string {
    SourceOf(l.text) + (if l.hard then "  " else "")
  }

  function TextSources(ls: seq<TextLine>): (r: seq<string>)
    ensures |r| == |ls|
  {
    if ls == [] then [] else [TextSource(ls[0])] + TextSources(ls[1..])
  }

  /** Bars inside a cell are protected. */
  function Barred(t: string): string {
    if t == "" then "" else (if t[0] == '|' then "\\|" else [t[0]]) + Barred(t[1..])
  }

  /** A row after its first bar. */
  function RowTail(cells: seq<seq<Span>>): string {
    if cells == [] then "" else " " + (Barred(SourceOf(cells[0])) + (" |" + RowTail(cells[1..])))
  }

  function RowSource(cells: seq<seq<Span>>): string {
    "|" + RowTail(cells)
  }

  function RowSources(rows: seq<seq<seq<Span>>>): (r: seq<string>)
    ensures |r| == |rows|
  {
    if rows == [] then [] else [RowSource(rows[0])] + RowSources(rows[1..])
  }

  function BlockLines(b: Block): seq<string>
    decreases b, 0
  {
    match b
    case Heading(level, text) => [Repeat('#', level) + (" " + SourceOf(text))]
    case Paragraph(lines) => TextSources(lines)
    case Divider(line) => [line]
    case Fenced(mark, count, info, lines) => [Repeat(mark, count) + info] + (lines + [Repeat(mark, count)])
    case IndentedCode(lines) => Prefixed("    ", lines)
    case Quoted(entries) => Prefixed("> ", EntryLines(entries))
    case Listing(_, items) => ItemsSource(items)
    case Table(head, rule, rows) => [RowSource(head)] + ([rule] + RowSources(rows))
  }

  function LinesOf(e: Entry): seq<string>
    decreases e, 0
  {
    BlockLines(e.block) + Empties(e.gap)
  }

  function EntryLines(es: seq<Entry>): seq<string>
    decreases es, 1
  {
    if es == [] then [] else LinesOf(es[0]) + EntryLines(es[1..])
  }

  function ItemsSource(items: seq<Item>): seq<string>
    decreases items, 1
  {
    if items == [] then []
    else
      [items[0].mark + (" " + SourceOf(items[0].text))] + (Prefixed("  ", EntryLines(items[0].inner)) + ItemsSource(items[1..]))
  }

  // ---- HTML -----------------------------------------------------------------

  function HeadingOpen(level: nat): string {
    match level
    case 1 => "<h1>"
    case 2 => "<h2>"
    case 3 => "<h3>"
    case 4 => "<h4>"
    case 5 => "<h5>"
    case _ => "<h6>"
  }

  function HeadingClose(level: nat): string {
    match level
    case 1 => "</h1>"
    case 2 => "</h2>"
    case 3 => "</h3>"
    case 4 => "</h4>"
    case 5 => "</h5>"
    case _ => "</h6>"
  }

  function TextShown(opts: Options, ls: seq<TextLine>): string {
    if ls == [] then ""
    else
      ShownAll(opts, ls[0].text) +
      (if |ls| == 1 then "" else (if ls[0].hard then "<br>\n" else "\n") + TextShown(opts, ls[1..]))
  }

  function CellsShown(opts: Options, cells: seq<seq<Span>>, head: bool): string {
    if cells == [] then ""
    else
      ((if head then "<th>" else "<td>") + (ShownAll(opts, cells[0]) + (if head then "</th>" else "</td>"))) +
      CellsShown(opts, cells[1..], head)
  }

  function RowsShown(opts: Options, rows: seq<seq<seq<Span>>>): string {
    if rows == [] then "" else ("<tr>" + (CellsShown(opts, rows[0], false) + "</tr>\n")) + RowsShown(opts, rows[1..])
  }

  function BlockShown(opts: Options, b: Block): string
    decreases b, 0
  {
    match b
    case Heading(level, text) => HeadingOpen(level) + (ShownAll(opts, text) + (HeadingClose(level) + "\n"))
    case Paragraph(lines) => "<p>" + (TextShown(opts, lines) + "</p>\n")
    case Divider(_) => "<hr>\n"
    case Fenced(_, _, info, lines) =>
      (if info == "" then "<pre><code>" else "<pre><code class=\"lang-" + (EscapeHtml(info) + "\">")) +
      (EscapeHtml(Terminate(lines)) + "</code></pre>\n")
    case IndentedCode(lines) => "<pre><code>" + (EscapeHtml(Terminate(lines)) + "</code></pre>\n")
    case Quoted(entries) => "<blockquote>\n" + (PageShown(opts, entries) + "</blockquote>\n")
    case Listing(ordered, items) =>
      (if ordered then "<ol>\n" else "<ul>\n") + (ItemsShown(opts, items) + (if ordered then "</ol>\n" else "</ul>\n"))
    case Table(head, _, rows) =>
      "<table>\n<thead><tr>" + (CellsShown(opts, head, true) + ("</tr></thead>\n<tbody>\n" + (RowsShown(opts, rows) + "</tbody>\n</table>\n")))
  }

  function EntryShown(opts: Options, e: Entry): string
    decreases e, 0
  {
    BlockShown(opts, e.block)
  }

  function PageShown(opts: Options, es: seq<Entry>): string
    decreases es, 1
  {
    if es == [] then "" else EntryShown(opts, es[0]) + PageShown(opts, es[1..])
  }

  function ItemsShown(opts: Options, items: seq<Item>): string
    decreases items, 1
  {
    if items == [] then ""
    else
      ("<li>" + (ShownAll(opts, items[0].text) +
        ((if items[0].inner == [] then "" else "\n" + PageShown(opts, items[0].inner)) + "</li>\n"))) +
      ItemsShown(opts, items[1..])
  }

  // ---- which pages can be written -------------------------------------------

  /** Some character that is not blank and not part of a rule or of a table's rule. */
  predicate HasText(t: string) {
    exists k :: 0 <= k < |t| && t[k] !in "|-:*_ \t\r"
  }

  /** A number that would begin an item of a list. */
  predicate StartsNumbered(t: string) {
    var n := DigitRun(t);
    1 <= n <= 9 && n + 1 < |t| && (t[n] == '.' || t[n] == ')') && (t[n + 1] == ' ' || t[n + 1] == '\t')
  }

  /** A line that begins no other block. */
  predicate OrdinaryText(t: string) {
    && Trimmed(t) && HasText(t) && t[0] !in "#>+-~"
    && (t[0] == '*' ==> |t| > 1 && t[1] != ' ' && t[1] != '\t')
    && !("```" <= t)
  }

  predicate NotBlank(t: string) {
    exists k :: 0 <= k < |t| && t[k] !in " \t\r"
  }

  /** Three or more of one mark, with spaces between them or not. */
  predicate DividerLine(t: string) {
    |t| >= 3 && t[0] in "-*_" && t[|t| - 1] == t[0] && forall k :: 0 <= k < |t| ==> t[k] == t[0] || t[k] == ' '
  }

  /** Bars, dashes, colons and spaces, with a bar and a dash among them. */
  predicate TableRule(t: string) {
    && Trimmed(t) && (exists k :: 0 <= k < |t| && t[k] == '|') && (exists k :: 0 <= k < |t| && t[k] == '-')
    && forall k :: 0 <= k < |t| ==> t[k] == '|' || t[k] == '-' || t[k] == ':' || t[k] == ' '
  }

  /** A line that would close a fence: fence marks and nothing else, at least three of a kind first. */
  predicate FenceLine(t: string) {
    var m := Trim(t);
    |m| >= 3 && (m[..3] == "```" || m[..3] == "~~~") && forall k :: 0 <= k < |m| ==> m[k] == '`' || m[k] == '~'
  }

  predicate ItemMark(ordered: bool, mark: string) {
    if ordered then
      2 <= |mark| <= 10 && (mark[|mark| - 1] == '.' || mark[|mark| - 1] == ')') && forall k :: 0 <= k < |mark| - 1 ==> IsDigit(mark[k])
    else mark == "-" || mark == "*" || mark == "+"
  }

  predicate LegalTexts(ls: seq<TextLine>) {
    ls == [] ||
    (&& AllWritable(ls[0].text, "", 0) && OrdinaryText(SourceOf(ls[0].text)) && !StartsNumbered(TextSource(ls[0]))
     && LegalTexts(ls[1..]))
  }

  predicate LegalCells(cells: seq<seq<Span>>) {
    cells == [] || (AllWritable(cells[0], "", 0) && Trimmed(SourceOf(cells[0])) && LegalCells(cells[1..]))
  }

  predicate LegalRows(rows: seq<seq<seq<Span>>>) {
    rows == [] || (rows[0] != [] && LegalCells(rows[0]) && LegalRows(rows[1..]))
  }

  /** A line that loses nothing at its end when it is quoted. */
  predicate Quotable(l: string) {
    l == "" || l[|l| - 1] !in " \t\r"
  }

  predicate LegalCode(lines: seq<string>) {
    && lines != [] && (forall k :: 0 <= k < |lines| ==> NotBlank(lines[k]))
    && lines[0] != "" && lines[0][0] !in " \t\r#>`~" && HasText(lines[0])
  }

  predicate LegalBlock(b: Block, depth: nat, maxNesting: int)
    decreases b, 0
  {
    match b
    case Heading(level, text) =>
      && 1 <= level <= 6 && AllWritable(text, "", 0)
      && SourceOf(text) != "" && Trimmed(SourceOf(text)) && SourceOf(text)[|SourceOf(text)| - 1] != '#'
    case Paragraph(lines) => lines != [] && LegalTexts(lines)
    case Divider(line) => DividerLine(line)
    case Fenced(mark, count, info, lines) =>
      && (mark == '`' || mark == '~') && count >= 3 && Trimmed(info) && (info != "" ==> info[0] != mark)
      && forall k :: 0 <= k < |lines| ==> !FenceLine(lines[k])
    case IndentedCode(lines) => LegalCode(lines)
    case Quoted(entries) =>
      && entries != [] && depth + 1 <= maxNesting && LegalEntries(entries, depth + 1, maxNesting)
      && forall k :: 0 <= k < |EntryLines(entries)| ==> Quotable(EntryLines(entries)[k])
    case Listing(ordered, items) => items != [] && LegalItems(ordered, items, depth, maxNesting)
    case Table(head, rule, rows) => head != [] && LegalCells(head) && TableRule(rule) && LegalRows(rows)
  }

  /** A block that ends by itself, whatever the next line is. */
  predicate Closed(b: Block) {
    b.Heading? || b.Divider? || b.Fenced?
  }

  predicate LegalEntry(e: Entry, depth: nat, maxNesting: int)
    decreases e, 0
  {
    LegalBlock(e.block, depth, maxNesting)
  }

  /** Other blocks have an empty line after them; indented code does not follow indented code. */
  predicate LegalEntries(es: seq<Entry>, depth: nat, maxNesting: int)
    decreases es, 1
  {
    es == [] ||
    (&& LegalEntry(es[0], depth, maxNesting) && LegalEntries(es[1..], depth, maxNesting)
     && (|es| > 1 ==> Closed(es[0].block) || es[0].gap >= 1)
     && (|es| > 1 && es[0].block.IndentedCode? ==> !es[1].block.IndentedCode?))
  }

  /** The lines below an item are not blank, and so belong to it. */
  predicate LegalItems(ordered: bool, items: seq<Item>, depth: nat, maxNesting: int)
    decreases items, 1
  {
    items == [] ||
    (var it := items[0];
     && ItemMark(ordered, it.mark) && AllWritable(it.text, "", 0) && Trimmed(SourceOf(it.text)) && HasText(SourceOf(it.text))
     && (it.inner != [] ==> depth + 1 <= maxNesting) && LegalEntries(it.inner, depth + 1, maxNesting)
     && (forall k :: 0 <= k < |EntryLines(it.inner)| ==> NotBlank(EntryLines(it.inner)[k]))
     && LegalItems(ordered, items[1..], depth, maxNesting))
  }
}
