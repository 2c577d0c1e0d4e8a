/** Indented code and tables: how the block renderer of core/src/markdown.cpp finds their lines, takes a row apart into its
    cells, and shows them. */
module MarkdownRows {
  import opened Text
  import opened Html
  import opened MarkdownTree
  import opened MarkdownDoc
  import opened MarkdownSpans
  import opened MarkdownPages
  import opened MarkdownBlocks

  // ---- indented code ----------------------------------------------------------

  lemma {:induction false} TrimIndent(t: string)
    ensures Trim("    " + t) == Trim(t)
  {
    hide Trim;
    TrimSpaceOff(t);
    TrimSpaceOff(" " + t);
    TrimSpaceOff("  " + t);
    TrimSpaceOff("   " + t);
    assert " " + (" " + t) == "  " + t;
    assert " " + ("  " + t) == "   " + t;
    assert " " + ("   " + t) == "    " + t;
  }

  lemma TrimSpaceOff(t: string)
    ensures Trim(" " + t) == Trim(t)
  {
    assert (" " + t)[0] == ' ' && (" " + t)[1..] == t;
    assert ' ' in " \t\r";
  }

  /** The first line of indented code is no other kind of line. */
  lemma CodeStart(t: string)
    requires t != "" && t[0] !in " \t\r#>`~" && HasText(t)
    ensures var line := "    " + t;
            && !IsBlank(line) && Fence(line).None? && !IsRule(line) && Mark(line) != '#' && !IsQuote(line) && Indented(line)
  {
    hide Trim, HasText, MarkRun;
    var line := "    " + t;
    var s := " \t\r#>`~";
    assert t[0] != s[0] && t[0] != s[1] && t[0] != s[2] && t[0] != s[3] && t[0] != s[4] && t[0] != s[5] && t[0] != s[6];
    assert t[0] !in " \t\r";
    TrimIndent(t);
    TrimStarts(t);
    TextBehind(t);
    NotRule(line);
    SpacesIndent(t);
    assert line[4] == t[0];
    var m := Trim(t);
    assert |m| >= 3 ==> m[..3][0] == m[0];
  }

  lemma TextBehind(t: string)
    requires HasText(t)
    ensures HasText("    " + t)
  {
    var k :| 0 <= k < |t| && t[k] !in "|-:*_ \t\r";
    assert ("    " + t)[4 + k] == t[k];
  }

  lemma CodeLineAt(lines: seq<string>, i: nat, code: seq<string>, rest: seq<string>, j: nat)
    requires Lie(lines, i, Prefixed("    ", code), rest) && j < |code|
    ensures i + j < |lines| && lines[i + j] == "    " + code[j]
  {
    hide Lie;
    LieAt(lines, i, Prefixed("    ", code), rest, j);
    PrefixedAt("    ", code, j);
  }

  lemma CodeLie(lines: seq<string>, i: nat, code: seq<string>, rest: seq<string>)
    requires Lie(lines, i, Prefixed("    ", code), rest) && forall k :: 0 <= k < |code| ==> NotBlank(code[k])
    ensures CodeStands(lines, i, code)
  {
    hide Lie, NotBlank, Prefixed;
    LieParts(lines, i, Prefixed("    ", code), rest);
    forall j | 0 <= j < |code|
      ensures i + j < |lines| && lines[i + j] == "    " + code[j]
    {
      CodeLineAt(lines, i, code, rest, j);
    }
  }

  lemma CodeAtLine(n: nat, opts: Options, lines: seq<string>, i: nat, end: nat, depth: nat)
    requires i < |lines| && depth <= opts.maxNesting && IndentedEnd(lines, i, |lines|) == end && end <= |lines|
    requires var line := lines[i];
             && !IsBlank(line) && Fence(line).None? && !IsRule(line) && Mark(line) != '#' && !IsQuote(line) && Indented(line)
    ensures i <= end
    ensures BlockAt(n, opts, lines, i, |lines|, depth) == ([CodeNode(Simple("code"), Terminate(CodeLines(lines, i, end))), NL], end)
  {
    hide Fence, IsRule, IsQuote, Mark, IsBlank, Indented, IndentedEnd, CodeLines, Terminate;
  }

  lemma IndentedIs(n: nat, opts: Options, lines: seq<string>, i: nat, code: seq<string>, rest: seq<string>, depth: nat)
    requires Lie(lines, i, Prefixed("    ", code), rest) && LegalCode(code) && NoCodeNext(rest)
    requires depth <= opts.maxNesting
    ensures i < |lines| && !IsBlank(lines[i])
    ensures BlockAt(n, opts, lines, i, |lines|, depth) == ([CodeNode(Simple("code"), Terminate(code)), NL], i + |code|)
  {
    hide Lie, NotBlank, Prefixed, NoCodeNext, BlockAt, IsBlank, Fence, IsRule, IsQuote, Mark, Indented, IndentedEnd, CodeLines, Terminate, HasText,
      CodeStands;
    CodeLie(lines, i, code, rest);
    LieParts(lines, i, Prefixed("    ", code), rest);
    CodeFirst(lines, i, code);
    CodeStart(code[0]);
    CodeRuns(lines, i, code, 0, rest);
    CodeLinesAre(lines, i, code, |code|);
    assert code[..|code|] == code;
    CodeAtLine(n, opts, lines, i, i + |code|, depth);
  }

  lemma CodeFirst(lines: seq<string>, i: nat, code: seq<string>)
    requires CodeStands(lines, i, code) && code != []
    ensures i + |code| <= |lines| && lines[i] == "    " + code[0]
  {
    assert lines[i + 0] == "    " + code[0];
  }

  lemma CodeShown(opts: Options, code: seq<string>)
    ensures BlockShown(opts, IndentedCode(code)) == "<pre><code>" + (EscapeHtml(Terminate(code)) + "</code></pre>\n")
  {
    hide EscapeHtml, Terminate;
  }

  lemma IndentedShows(n: nat, opts: Options, lines: seq<string>, i: nat, code: seq<string>, rest: seq<string>, depth: nat)
    requires Lie(lines, i, Prefixed("    ", code), rest) && LegalCode(code) && NoCodeNext(rest)
    requires depth <= opts.maxNesting
    ensures i < |lines| && !IsBlank(lines[i])
    ensures var (nodes, next) := BlockAt(n, opts, lines, i, |lines|, depth);
            PrintAll(nodes) == BlockShown(opts, IndentedCode(code)) && next == i + |code|
  {
    hide Lie, Prefixed, NoCodeNext, BlockAt, IsBlank, Terminate, EscapeHtml, Print, CodeNode, PrintAll, Open, Close, LegalCode, BlockShown;
    CodeShown(opts, code);
    IndentedIs(n, opts, lines, i, code, rest, depth);
    CodeTags("");
    assert "<pre>" + "<code>" == "<pre><code>";
    CodeNodePrints(Simple("code"), Terminate(code), "<pre><code>");
  }

  // ---- cells ------------------------------------------------------------------

  /** A protected cell is read as what it holds. */
  lemma {:induction false} BarredReads(x: string, rest: string, cur: string)
    requires rest != "" && rest[0] == ' '
    ensures CellsFrom(Barred(x) + rest, cur) == CellsFrom(rest, cur + x)
    decreases |x|
  {
    var t := Barred(x) + rest;
    if x == "" {
      assert t == rest && cur + x == cur;
    } else {
      var more := Barred(x[1..]) + rest;
      BarredReads(x[1..], rest, cur + [x[0]]);
      assert cur + x == (cur + [x[0]]) + x[1..];
      if x[0] == '|' {
        assert t[0] == '\\' && t[1] == '|' && t[2..] == more;
        assert cur + "|" == cur + [x[0]];
      } else {
        assert t[0] == x[0] && t[1..] == more;
        BarredStart(x[1..], rest);
        assert |t| > 1 && t[1] == more[0];
      }
    }
  }

  lemma BarredStart(x: string, rest: string)
    requires rest != "" && rest[0] == ' '
    ensures Barred(x) + rest != "" && (Barred(x) + rest)[0] != '|'
  {
    if x != "" {
      assert (Barred(x) + rest)[0] == Barred(x)[0];
    }
  }

  /** The inside of a row: its cells with bars between them. */
  function RowInner(cells: seq<seq<Span>>): string
    requires cells != []
  {
    " " + (Barred(SourceOf(cells[0])) + (" " + (if |cells| == 1 then "" else "|" + RowInner(cells[1..]))))
  }

  lemma {:induction false} RowTailEnds(cells: seq<seq<Span>>)
    requires cells != []
    ensures RowTail(cells) == RowInner(cells) + "|"
    decreases |cells|
  {
    hide Barred, SourceOf;
    var x := Barred(SourceOf(cells[0]));
    if |cells| == 1 {
      assert cells[1..] == [];
      assert " |" + "" == (" " + "") + "|";
      Assoc(x, " " + "", "|");
      Assoc(" ", x + (" " + ""), "|");
    } else {
      RowTailEnds(cells[1..]);
      var inner := RowInner(cells[1..]);
      assert " |" + (inner + "|") == (" " + ("|" + inner)) + "|";
      Assoc(x, " " + ("|" + inner), "|");
      Assoc(" ", x + (" " + ("|" + inner)), "|");
    }
  }

  function CellSources(cells: seq<seq<Span>>): (r: seq<string>)
    ensures |r| == |cells|
  {
    if cells == [] then [] else [SourceOf(cells[0])] + CellSources(cells[1..])
  }

  lemma Padded(x: string)
    requires Trimmed(x)
    ensures Trim((" " + x) + " ") == x
  {
    var s := (" " + x) + " ";
    assert ' ' in " \t\r";
    assert s[0] == ' ' && s[1..] == x + " ";
    if x == "" {
      assert x + " " == " " && " "[1..] == "";
      assert Trim(" ") == Trim("") == "";
    } else {
      TrimLast(x + " ", x);
      TrimmedIs(x);
    }
  }

  lemma {:induction false} CellsRead(cells: seq<seq<Span>>)
    requires cells != [] && LegalCells(cells)
    ensures CellsFrom(RowInner(cells), "") == CellSources(cells)
    decreases |cells|
  {
    hide SourceOf, AllWritable, Barred, Trimmed, Trim;
    var x := SourceOf(cells[0]);
    var more := if |cells| == 1 then "" else "|" + RowInner(cells[1..]);
    var rest := " " + more;
    var s := RowInner(cells);
    assert s[0] == ' ' && s[1..] == Barred(x) + rest;
    assert CellsFrom(s, "") == CellsFrom(s[1..], "" + " ");
    BarredReads(x, rest, " ");
    assert "" + " " == " " && rest[1..] == more;
    assert CellsFrom(rest, " " + x) == CellsFrom(more, (" " + x) + " ");
    Padded(x);
    if |cells| == 1 {
      assert cells[1..] == [] && [x] + [] == [x];
    } else {
      CellsRead(cells[1..]);
      assert more[0] == '|' && more[1..] == RowInner(cells[1..]);
    }
  }

  lemma RowTrimmed(inner: string)
    requires inner != ""
    ensures var line := "|" + (inner + "|");
            && Trim(line) == line && line[1..] == inner + "|" && (inner + "|")[|inner|] == '|' && (inner + "|")[..|inner|] == inner
  {
    var line := "|" + (inner + "|");
    assert line[0] == '|' && line[|line| - 1] == '|';
    assert '|' !in " \t\r";
    assert Trimmed(line);
    TrimmedIs(line);
  }

  lemma RowReads(cells: seq<seq<Span>>)
    requires cells != [] && LegalCells(cells)
    ensures TableCells(RowSource(cells)) == CellSources(cells)
  {
    hide CellsFrom, RowInner, RowTail, LegalCells, Trim;
    RowTailEnds(cells);
    InnerNotEmpty(cells);
    RowTrimmed(RowInner(cells));
    CellsRead(cells);
  }

  lemma InnerNotEmpty(cells: seq<seq<Span>>)
    requires cells != []
    ensures RowInner(cells) != ""
  {
  }

  /** A row is a line with a bar, and no other kind of line. */
  lemma RowIs(cells: seq<seq<Span>>)
    requires cells != []
    ensures var line := RowSource(cells);
            && !IsBlank(line) && !IsRule(line) && Fence(line).None? && !IsItem(line) && !IsQuote(line) && Mark(line) != '#'
            && !Indented(line) && Contains(line, '|')
  {
    hide RowInner, RowTail, Trim;
    var line := RowSource(cells);
    RowTailEnds(cells);
    InnerNotEmpty(cells);
    RowTrimmed(RowInner(cells));
    assert line[0] == '|' && |line| >= 3;
    assert Trimmed(line) by {
      assert line[|line| - 1] == '|' && '|' !in " \t\r";
    }
    FirstOfLine(line);
    TrimmedLine(line);
    assert "```"[0] == '`' && "~~~"[0] == '~';
    assert IndexOf(line, '|', 0) == 0;
  }

  lemma RuleLineIs(t: string)
    requires TableRule(t)
    ensures IsTableRule(t)
  {
    TrimmedIs(t);
    var j :| 0 <= j < |t| && t[j] == '|';
    var k :| 0 <= k < |t| && t[k] == '-';
    ContainsAt(t, '|', j);
    ContainsAt(t, '-', k);
  }

  lemma ContainsAt(s: string, c: char, k: nat)
    requires k < |s| && s[k] == c
    ensures Contains(s, c)
  {
    var i := IndexOf(s, c, 0);
    assert i <= k;
  }

  // ---- rows -------------------------------------------------------------------

  lemma CellTags()
    ensures Open(Simple("th")) == "<th>" && Close(Simple("th")) == "</th>" && Open(Simple("td")) == "<td>" && Close(Simple("td")) == "</td>"
    ensures Open(Simple("tr")) == "<tr>" && Close(Simple("tr")) == "</tr>"
  {
    OpenSimple("th");
    OpenSimple("td");
    OpenSimple("tr");
  }

  lemma {:induction false} CellSourceAt(cells: seq<seq<Span>>, k: nat)
    requires k < |cells|
    ensures CellSources(cells)[k] == SourceOf(cells[k])
  {
    hide SourceOf;
    if k > 0 {
      CellSourceAt(cells[1..], k - 1);
    }
  }

  lemma CellPrints(n: nat, opts: Options, text: seq<Span>, head: bool)
    requires AllWritable(text, "", 0) && n + 4 + |ShownAll(opts, text)| <= opts.maxOutput
    ensures var tag := if head then Simple("th") else Simple("td");
            Print(Element(tag, Inline(n + |Open(tag)|, opts, SourceOf(text), 0))) ==
            (if head then "<th>" else "<td>") + (ShownAll(opts, text) + (if head then "</th>" else "</td>"))
  {
    hide Inline, ShownAll, SourceOf, AllWritable, Open, Close;
    var tag := if head then Simple("th") else Simple("td");
    CellTags();
    SpansShow(n + |Open(tag)|, opts, text, 0);
    PrintElement(tag, Inline(n + |Open(tag)|, opts, SourceOf(text), 0));
  }

  lemma {:induction false} CellsShow(n: nat, opts: Options, cells: seq<seq<Span>>, head: bool, k: nat)
    requires k <= |cells| && LegalCells(cells[k..]) && n + |CellsShown(opts, cells[k..], head)| <= opts.maxOutput
    ensures var tag := if head then Simple("th") else Simple("td");
            PrintAll(Cells(n, opts, CellSources(cells), tag, k)) == CellsShown(opts, cells[k..], head)
    decreases |cells| - k
  {
    hide Inline, ShownAll, SourceOf, AllWritable, Open, Print, CellSources;
    var tag := if head then Simple("th") else Simple("td");
    if k < |cells| {
      var here := cells[k..];
      assert here[0] == cells[k] && here[1..] == cells[k + 1..];
      CellSourceAt(cells, k);
      CellPrints(n, opts, cells[k], head);
      var cell := Element(tag, Inline(n + |Open(tag)|, opts, SourceOf(cells[k]), 0));
      CellsShow(n + |Print(cell)|, opts, cells, head, k + 1);
      var more := Cells(n + |Print(cell)|, opts, CellSources(cells), tag, k + 1);
      assert ([cell] + more)[0] == cell && ([cell] + more)[1..] == more;
    }
  }

  lemma RowPrints(n: nat, opts: Options, cells: seq<seq<Span>>, head: bool)
    requires cells != [] && LegalCells(cells) && n + 4 + |CellsShown(opts, cells, head)| <= opts.maxOutput
    ensures Print(RowNode(n, opts, RowSource(cells), if head then Simple("th") else Simple("td"))) ==
            "<tr>" + (CellsShown(opts, cells, head) + "</tr>")
  {
    hide Cells, CellsShown, RowSource, TableCells, Open, Close, CellSources, LegalCells;
    RowReads(cells);
    CellTags();
    assert cells[0..] == cells;
    CellsShow(n + 4, opts, cells, head, 0);
    PrintElement(Simple("tr"), Cells(n + 4, opts, CellSources(cells), if head then Simple("th") else Simple("td"), 0));
  }

  lemma {:induction false} RowsShow(n: nat, opts: Options, lines: seq<string>, from: nat, rows: seq<seq<seq<Span>>>, k: nat)
    requires k <= |rows| && from + |rows| <= |lines| && LegalRows(rows[k..])
    requires forall j :: 0 <= j < |rows| ==> lines[from + j] == RowSource(rows[j])
    requires n + |RowsShown(opts, rows[k..])| <= opts.maxOutput
    ensures PrintAll(Rows(n, opts, lines, from + k, from + |rows|)) == RowsShown(opts, rows[k..])
    decreases |rows| - k
  {
    hide CellsShown, RowSource, RowNode, LegalCells, PrintAll;
    if k < |rows| {
      var here, row := rows[k..], RowNode(n, opts, lines[from + k], Simple("td"));
      assert here[0] == rows[k] && here[1..] == rows[k + 1..];
      assert lines[from + k] == RowSource(rows[k]);
      RowPrints(n, opts, rows[k], false);
      PrintLine(row);
      var c := CellsShown(opts, rows[k], false);
      Assoc("<tr>", c + "</tr>", "\n");
      Assoc(c, "</tr>", "\n");
      assert "</tr>" + "\n" == "</tr>\n";
      RowsShow(n + |PrintAll([row, NL])|, opts, lines, from, rows, k + 1);
      PrintJoin([row, NL], Rows(n + |PrintAll([row, NL])|, opts, lines, from + (k + 1), from + |rows|));
    } else {
      NothingPrinted();
    }
  }

  // ---- tables -----------------------------------------------------------------

  lemma RowAt(lines: seq<string>, i: nat, rows: seq<seq<seq<Span>>>, rest: seq<string>, j: nat)
    requires Lie(lines, i, RowSources(rows), rest) && j < |rows|
    ensures i + j < |lines| && lines[i + j] == RowSource(rows[j])
  {
    hide Lie, RowSource;
    LieAt(lines, i, RowSources(rows), rest, j);
    RowSourceAt(rows, j);
  }

  predicate RowsStand(lines: seq<string>, i: nat, rows: seq<seq<seq<Span>>>) {
    i + |rows| <= |lines| && forall j :: 0 <= j < |rows| ==> lines[i + j] == RowSource(rows[j])
  }

  lemma RowsLie(lines: seq<string>, i: nat, rows: seq<seq<seq<Span>>>, rest: seq<string>)
    requires Lie(lines, i, RowSources(rows), rest)
    ensures RowsStand(lines, i, rows)
  {
    hide Lie, RowSource, RowSources;
    LieParts(lines, i, RowSources(rows), rest);
    forall j | 0 <= j < |rows|
      ensures i + j < |lines| && lines[i + j] == RowSource(rows[j])
    {
      RowAt(lines, i, rows, rest, j);
    }
  }

  lemma {:induction false} TableEnds(lines: seq<string>, i: nat, rows: seq<seq<seq<Span>>>, k: nat)
    requires k <= |rows| && RowsStand(lines, i, rows) && LegalRows(rows[k..])
    requires i + |rows| < |lines| ==> lines[i + |rows|] == ""
    ensures TableEnd(lines, i + k, |lines|) == i + |rows|
    decreases |rows| - k
  {
    hide RowSource, LegalCells, IsBlank, Contains;
    if k < |rows| {
      assert rows[k..][0] == rows[k] && rows[k..][1..] == rows[k + 1..];
      assert lines[i + k] == RowSource(rows[k]);
      RowIs(rows[k]);
      TableEnds(lines, i, rows, k + 1);
    } else {
      EmptyLine();
    }
  }

  lemma OnlyTable(n: nat, opts: Options, lines: seq<string>, i: nat, end: nat, depth: nat)
    requires i + 2 <= end <= |lines| && depth <= opts.maxNesting && TableEnd(lines, i + 2, |lines|) == end
    requires var line := lines[i];
             && !IsBlank(line) && !IsRule(line) && Fence(line).None? && !IsItem(line) && !IsQuote(line) && Mark(line) != '#' && !Indented(line)
             && Contains(line, '|')
    requires IsTableRule(lines[i + 1])
    ensures BlockAt(n, opts, lines, i, |lines|, depth) == ([TableNode(n, opts, lines, i, end), NL], end)
  {
    hide TableEnd, Fence, IsRule, IsItem, IsQuote, Mark, IsBlank, Indented, IsTableRule, Contains, TableNode;
  }

  lemma TableTags()
    ensures Open(Simple("table")) == "<table>" && Close(Simple("table")) == "</table>"
    ensures Open(Simple("thead")) == "<thead>" && Close(Simple("thead")) == "</thead>"
    ensures Open(Simple("tbody")) == "<tbody>" && Close(Simple("tbody")) == "</tbody>"
  {
    OpenSimple("table");
    OpenSimple("thead");
    OpenSimple("tbody");
  }

  lemma HeadPrints(n: nat, opts: Options, head: seq<seq<Span>>)
    requires head != [] && LegalCells(head) && n + 1 + 7 + 4 + |CellsShown(opts, head, true)| <= opts.maxOutput
    ensures PrintAll(TableHead(n, opts, RowSource(head))) == "\n<thead><tr>" + (CellsShown(opts, head, true) + "</tr></thead>\n")
  {
    hide RowNode, CellsShown, LegalCells, RowSource, Print, Open, Close;
    TableTags();
    RowPrints(n + 1 + 7, opts, head, true);
    var row := RowNode(n + 1 + 7, opts, RowSource(head), Simple("th"));
    var thead := Element(Simple("thead"), [row]);
    PrintElement(Simple("thead"), [row]);
    PrintOne(row);
    PrintLine(thead);
    PrintNl();
    assert [NL, thead, NL][1..] == [thead, NL];
    var c := CellsShown(opts, head, true);
    HeadShape("\n", "<thead>", "<tr>", c, "</tr>", "</thead>");
    assert ("\n" + "<thead>") + "<tr>" == "\n<thead><tr>" && ("</tr>" + "</thead>") + "\n" == "</tr></thead>\n";
  }

  lemma HeadShape(nl: string, a: string, b: string, c: string, d: string, e: string)
    ensures nl + ((a + ((b + (c + d)) + e)) + nl) == ((nl + a) + b) + (c + ((d + e) + nl))
  {
    Assoc(a, (b + (c + d)) + e, nl);
    Assoc(b + (c + d), e, nl);
    Assoc(b, c + d, e + nl);
    Assoc(c, d, e + nl);
    Assoc(d, e, nl);
    Assoc(nl, a, b + (c + ((d + e) + nl)));
    Assoc(nl + a, b, c + ((d + e) + nl));
  }

  lemma TablePrints(n: nat, opts: Options, lines: seq<string>, i: nat, head: seq<seq<Span>>, rows: seq<seq<seq<Span>>>)
    requires i + 2 + |rows| <= |lines| && lines[i] == RowSource(head) && RowsStand(lines, i + 2, rows)
    requires head != [] && LegalCells(head) && LegalRows(rows)
    requires n + |CellsShown(opts, head, true)| + |RowsShown(opts, rows)| + 48 <= opts.maxOutput
    ensures Print(TableNode(n, opts, lines, i, i + 2 + |rows|)) ==
            "<table>" + (("\n<thead><tr>" + (CellsShown(opts, head, true) + "</tr></thead>\n")) +
                         (("<tbody>\n" + (RowsShown(opts, rows) + "</tbody>")) + ("\n" + "</table>")))
  {
    hide CellsShown, RowsShown, LegalCells, LegalRows, RowSource, Open, Close, TableHead, Rows, PrintAll, Print, RowsStand;
    TableTags();
    var start := n + 7;
    HeadPrints(start, opts, head);
    var top := TableHead(start, opts, RowSource(head));
    var middle := start + |PrintAll(top)|;
    RowsStandAre(lines, i + 2, rows);
    assert rows[0..] == rows;
    RowsShow(middle + 7 + 1, opts, lines, i + 2, rows, 0);
    var inner := Rows(middle + 7 + 1, opts, lines, i + 2, i + 2 + |rows|);
    var body := Element(Simple("tbody"), [NL] + inner);
    PrintOpenLine(Simple("tbody"), inner);
    PrintLine(body);
    PrintJoin(top, [body, NL]);
    PrintElement(Simple("table"), top + [body, NL]);
    assert "<tbody>" + "\n" == "<tbody>\n";
    var h, b := PrintAll(top), Print(body);
    Assoc(h, b + "\n", "</table>");
    Assoc(b, "\n", "</table>");
  }

  lemma RowsStandAre(lines: seq<string>, i: nat, rows: seq<seq<seq<Span>>>)
    requires RowsStand(lines, i, rows)
    ensures i + |rows| <= |lines| && forall j :: 0 <= j < |rows| ==> lines[i + j] == RowSource(rows[j])
  {
    hide RowSource;
  }

  lemma TableShape(c: string, r: string)
    ensures ("<table>" + (("\n<thead><tr>" + (c + "</tr></thead>\n")) + (("<tbody>\n" + (r + "</tbody>")) + ("\n" + "</table>")))) + "\n" ==
            "<table>\n<thead><tr>" + (c + ("</tr></thead>\n<tbody>\n" + (r + "</tbody>\n</table>\n")))
  {
    var tail := "\n" + "</table>";
    var body := "<tbody>\n" + (r + "</tbody>");
    var head := "\n<thead><tr>" + (c + "</tr></thead>\n");
    Assoc("<table>", head + (body + tail), "\n");
    Assoc(head, body + tail, "\n");
    Assoc(body, tail, "\n");
    Assoc("<tbody>\n", r + "</tbody>", tail + "\n");
    Assoc(r, "</tbody>", tail + "\n");
    EndTags();
    var end := r + "</tbody>\n</table>\n";
    Assoc("\n<thead><tr>", c + "</tr></thead>\n", "<tbody>\n" + end);
    Assoc(c, "</tr></thead>\n", "<tbody>\n" + end);
    Assoc("</tr></thead>\n", "<tbody>\n", end);
    Assoc("<table>", "\n<thead><tr>", c + ("</tr></thead>\n<tbody>\n" + end));
  }

  lemma EndTags()
    ensures "</tbody>" + (("\n" + "</table>") + "\n") == "</tbody>\n</table>\n"
    ensures "</tr></thead>\n" + "<tbody>\n" == "</tr></thead>\n<tbody>\n" && "<table>" + "\n<thead><tr>" == "<table>\n<thead><tr>"
  {
  }

  lemma TableLies(lines: seq<string>, i: nat, head: string, rule: string, rows: seq<string>, rest: seq<string>)
    requires Lie(lines, i, [head] + ([rule] + rows), rest)
    ensures i + 2 + |rows| <= |lines| && lines[i] == head && lines[i + 1] == rule && Lie(lines, i + 2, rows, rest)
  {
    hide Lie;
    LieMore(lines, i, [head], [rule] + rows, rest);
    LieParts(lines, i, [head], ([rule] + rows) + rest);
    LieMore(lines, i + 1, [rule], rows, rest);
    LieParts(lines, i + 1, [rule], rows + rest);
    LieParts(lines, i + 2, rows, rest);
  }

  lemma TableShows(n: nat, opts: Options, lines: seq<string>, i: nat, head: seq<seq<Span>>, rule: string, rows: seq<seq<seq<Span>>>,
                   rest: seq<string>, depth: nat)
    requires Lie(lines, i, [RowSource(head)] + ([rule] + RowSources(rows)), rest) && Ends(rest) && depth <= opts.maxNesting
    requires head != [] && LegalCells(head) && TableRule(rule) && LegalRows(rows)
    requires n + |BlockShown(opts, Table(head, rule, rows))| <= opts.maxOutput
    ensures i < |lines| && !IsBlank(lines[i])
    ensures var (nodes, next) := BlockAt(n, opts, lines, i, |lines|, depth);
            PrintAll(nodes) == BlockShown(opts, Table(head, rule, rows)) && next == i + 2 + |rows|
  {
    hide Lie, LegalCells, LegalRows, CellsShown, RowsShown, RowSource, RowSources, BlockAt, TableNode, Print, IsBlank, IsRule, Fence, IsItem, IsQuote,
      Mark, Indented, Contains, TableRule, IsTableRule, RowsStand;
    TableLies(lines, i, RowSource(head), rule, RowSources(rows), rest);
    RowsLie(lines, i + 2, rows, rest);
    LieRest(lines, i + 2, RowSources(rows), rest);
    RowIs(head);
    RuleLineIs(rule);
    assert rows[0..] == rows;
    TableEnds(lines, i + 2, rows, 0);
    OnlyTable(n, opts, lines, i, i + 2 + |rows|, depth);
    TableShape(CellsShown(opts, head, true), RowsShown(opts, rows));
    TablePrints(n, opts, lines, i, head, rows);
    PrintLine(TableNode(n, opts, lines, i, i + 2 + |rows|));
  }
}
