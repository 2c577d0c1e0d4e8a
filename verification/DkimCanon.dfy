/** The canonical forms of core/src/dkim.cpp and section 3.4 of RFC 6376. */
module DkimCanon {
  import opened Text
  import opened Dkim
  import opened DkimText

  // ---- words and the blanks between them ----------------------------------

  predicate Gap(g: string) {
    forall i :: 0 <= i < |g| ==> g[i] == ' ' || g[i] == '\t'
  }

  predicate Word(w: string) {
    w != "" && forall i :: 0 <= i < |w| ==> w[i] != ' ' && w[i] != '\t'
  }

  /** Words with blanks before, between and after them; between words there is at least one. */
  predicate Laid(gaps: seq<string>, words: seq<string>) {
    && |gaps| == |words| + 1
    && (forall i :: 0 <= i < |gaps| ==> Gap(gaps[i]))
    && (forall i :: 0 <= i < |words| ==> Word(words[i]))
    && (forall i :: 0 < i < |words| ==> gaps[i] != "")
  }

  /** The text: each gap, then its word; the last gap ends it. */
  function Spread(gaps: seq<string>, words: seq<string>): string
    requires |gaps| == |words| + 1
  {
    if words == [] then gaps[0] else gaps[0] + (words[0] + Spread(gaps[1..], words[1..]))
  }

  /** Words with one space between them. */
  function Spaced(words: seq<string>): string {
    if words == [] then "" else if |words| == 1 then words[0] else words[0] + (" " + Spaced(words[1..]))
  }

  /** Every text is words in blanks. */
  lemma {:induction false} EveryTextIsLaid(s: string) returns (gaps: seq<string>, words: seq<string>)
    ensures Laid(gaps, words) && Spread(gaps, words) == s
    decreases |s|
  {
    if s == "" {
      gaps, words := [""], [];
    } else {
      var gaps', words' := EveryTextIsLaid(s[1..]);
      var c, g := s[..1], gaps'[0];
      assert s == c + s[1..];
      if IsWsp(s[0]) {
        gaps, words := [c + g] + gaps'[1..], words';
        assert gaps[1..] == gaps'[1..];
        assert s == c + (g + s[1..][|g|..]) == (c + g) + s[1..][|g|..];
      } else if g == "" && words' != [] {
        gaps, words := gaps', [c + words'[0]] + words'[1..];
        assert words[1..] == words'[1..];
        var rest := Spread(gaps'[1..], words'[1..]);
        assert s[1..] == words'[0] + rest;
        assert s == "" + ((c + words'[0]) + rest);
      } else {
        gaps, words := [""] + gaps', [c] + words';
        assert gaps[1..] == gaps' && words[1..] == words';
        assert s == "" + (c + s[1..]);
      }
    }
  }

  lemma {:induction false} CollapseGap(g: string, s: string, blank: bool, begun: bool)
    requires Gap(g)
    ensures Collapse(g + s, blank, begun) == Collapse(s, blank || g != "", begun)
    decreases |g|
  {
    if g == "" {
      assert g + s == s;
    } else {
      assert (g + s)[0] == g[0] && (g + s)[1..] == g[1..] + s;
      CollapseGap(g[1..], s, true, begun);
    }
  }

  lemma {:induction false} CollapseWord(w: string, s: string, blank: bool, begun: bool)
    requires Word(w)
    ensures Collapse(w + s, blank, begun) == (if blank && begun then " " else "") + (w + Collapse(s, false, true))
    decreases |w|
  {
    var space, all, c := if blank && begun then " " else "", w + s, Collapse(s, false, true);
    assert all[0] == w[0] && all[1..] == w[1..] + s;
    assert Collapse(all, blank, begun) == (space + [w[0]]) + Collapse(all[1..], false, true);
    if |w| == 1 {
      assert all[1..] == s && w == [w[0]];
      Assoc(space, w, c);
    } else {
      CollapseWord(w[1..], s, false, true);
      assert "" + (w[1..] + c) == w[1..] + c;
      Assoc(space, [w[0]], w[1..] + c);
      Assoc([w[0]], w[1..], c);
      assert w == [w[0]] + w[1..];
    }
  }

  /** Collapsing leaves the words with one space between them. */
  lemma {:induction false} WordsCollapse(gaps: seq<string>, words: seq<string>, blank: bool, begun: bool)
    requires Laid(gaps, words) && (begun && words != [] ==> blank || gaps[0] != "")
    ensures Collapse(Spread(gaps, words), blank, begun) == (if begun && words != [] then " " else "") + Spaced(words)
    decreases |words|
  {
    hide Word, Gap, Collapse;
    var rest := if words == [] then "" else words[0] + Spread(gaps[1..], words[1..]);
    CollapseGap(gaps[0], rest, blank, begun);
    assert gaps[0] + "" == gaps[0];
    if words == [] {
      NothingLeft(blank || gaps[0] != "", begun);
    } else {
      CollapseWord(words[0], Spread(gaps[1..], words[1..]), blank || gaps[0] != "", begun);
      WordsCollapse(gaps[1..], words[1..], false, true);
      assert words[0] + ("" + Spaced([])) == words[0];
      assert |words| == 1 ==> words[1..] == [];
    }
  }

  lemma NothingLeft(blank: bool, begun: bool)
    ensures Collapse("", blank, begun) == ""
  {
  }

  // ---- relaxed headers (section 3.4.2) --------------------------------------

  lemma {:induction false} TrimFront(before: string, rest: string)
    requires Gap(before)
    ensures TrimSpace(before + rest) == TrimSpace(rest)
  {
    if before == "" {
      assert before + rest == rest;
    } else {
      assert (before + rest)[0] == before[0] && (before + rest)[1..] == before[1..] + rest;
      TrimFront(before[1..], rest);
    }
  }

  lemma {:induction false} TrimBack(name: string, after: string)
    requires Gap(after) && name != "" && name[0] !in " \t\r\n" && name[|name| - 1] !in " \t\r\n"
    ensures TrimSpace(name + after) == name
    decreases |after|
  {
    var s := name + after;
    if after == "" {
      assert s == name;
      TrimSpaceShortens(name);
    } else {
      var front := after[..|after| - 1];
      assert s[0] == name[0] && s[|s| - 1] == after[|after| - 1] && s[..|s| - 1] == name + front;
      TrimBack(name, front);
    }
  }

  /** A relaxed header: the name in lower case without the blanks around it, a colon, and the words of the value with
      one space between them, however the value is spaced and folded. */
  lemma RelaxedHeaderForm(before: string, name: string, after: string, value: string, gaps: seq<string>, words: seq<string>)
    requires Gap(before) && Gap(after) && name != "" && name[0] !in " \t\r\n" && name[|name| - 1] !in " \t\r\n"
    requires Laid(gaps, words) && Clean(value) == Spread(gaps, words)
    ensures CanonicalHeader(Header(before + (name + after), value), true) == ToLower(name) + (":" + (Spaced(words) + "\r\n"))
  {
    hide Collapse, Clean, TrimSpace, Gap, ToLower;
    TrimFront(before, name + after);
    TrimBack(name, after);
    WordsCollapse(gaps, words, false, false);
    assert "" + Spaced(words) == Spaced(words);
  }

  // ---- relaxed bodies (section 3.4.4) ---------------------------------------

  /** Every run of blanks in a line as one space. */
  function Reduce(s: string): string {
    if s == "" then ""
    else if IsWsp(s[0]) then (if |s| > 1 && IsWsp(s[1]) then "" else " ") + Reduce(s[1..])
    else [s[0]] + Reduce(s[1..])
  }

  function DropSpace(s: string): string {
    if s != "" && s[|s| - 1] == ' ' then s[..|s| - 1] else s
  }

  /** A line as the standard relaxes it: runs of blanks reduced to one space, and none at the end. */
  function StandardLine(s: string): string {
    DropSpace(Reduce(s))
  }

  function StandardLines(lines: seq<string>): (r: seq<string>)
    ensures |r| == |lines|
  {
    if lines == [] then [] else [StandardLine(lines[0])] + StandardLines(lines[1..])
  }

  /** A body as the standard relaxes it: empty lines at the end dropped, every line ended. */
  function StandardBody(body: string): string {
    JoinLines(DropEmptyTail(StandardLines(BodyLines(body))))
  }

  /** The line starts with blanks and has text after them. */
  predicate Indented(s: string) {
    s != "" && IsWsp(s[0]) && exists i :: 0 <= i < |s| && !IsWsp(s[i])
  }

  lemma DropSpaceCons(c: char, s: string)
    requires c != ' ' || s != ""
    ensures DropSpace([c] + s) == [c] + DropSpace(s)
  {
    var t := [c] + s;
    if s == "" {
      assert t == [c] && [c] + "" == [c];
    } else {
      assert t[|t| - 1] == s[|s| - 1] && t[..|t| - 1] == [c] + s[..|s| - 1];
    }
  }

  /** After the first text of a line, the program's form is the standard's. */
  lemma {:induction false} CollapseReduces(s: string, blank: bool)
    requires blank ==> s == "" || IsWsp(s[0])
    ensures Collapse(s, blank, true) == StandardLine(s)
    decreases |s|
  {
    if s != "" {
      var rest := s[1..];
      if !IsWsp(s[0]) {
        CollapseReduces(rest, false);
        DropSpaceCons(s[0], Reduce(rest));
      } else if rest == "" || IsWsp(rest[0]) {
        CollapseReduces(rest, true);
        BlankBeforeBlank(s);
      } else {
        CollapseReduces(rest[1..], false);
        BlankBeforeText(s);
        Assoc([' '], [rest[0]], Collapse(rest[1..], false, true));
      }
    }
  }

  lemma BlankBeforeBlank(s: string)
    requires s != "" && IsWsp(s[0]) && (|s| > 1 ==> IsWsp(s[1]))
    ensures StandardLine(s) == StandardLine(s[1..])
  {
    if |s| == 1 {
      assert Reduce(s) == " " + Reduce("") == " ";
    } else {
      assert Reduce(s) == "" + Reduce(s[1..]) == Reduce(s[1..]);
    }
  }

  lemma BlankBeforeText(s: string)
    requires |s| > 1 && IsWsp(s[0]) && !IsWsp(s[1])
    ensures StandardLine(s) == [' '] + StandardLine(s[1..]) && StandardLine(s[1..]) == [s[1]] + StandardLine(s[1..][1..])
  {
    var rest := s[1..];
    DropSpaceCons(rest[0], Reduce(rest[1..]));
    assert Reduce(rest) != "" && Reduce(s) == " " + Reduce(rest);
    DropSpaceCons(' ', Reduce(rest));
  }

  /** The program's form of a line lacks the leading space of the standard's, and nothing else. */
  lemma {:induction false} LineCompared(s: string, blank: bool)
    ensures StandardLine(s) == (if Indented(s) then " " else "") + Collapse(s, blank, false)
    decreases |s|
  {
    if s != "" {
      var rest := s[1..];
      if !IsWsp(s[0]) {
        CollapseReduces(rest, false);
        DropSpaceCons(s[0], Reduce(rest));
        assert "" + Collapse(s, blank, false) == Collapse(s, blank, false);
      } else {
        BlankCompared(s, blank);
      }
    }
  }

  lemma BlankCompared(s: string, blank: bool)
    requires s != "" && IsWsp(s[0])
    ensures StandardLine(s) == (if Indented(s) then " " else "") + Collapse(s, blank, false)
    decreases |s|, 0
  {
    var rest := s[1..];
    LineCompared(rest, true);
    assert Collapse(s, blank, false) == Collapse(rest, true, false);
    IndentedRest(s);
    if rest == "" || IsWsp(rest[0]) {
      BlankBeforeBlank(s);
    } else {
      BlankBeforeText(s);
      assert "" + Collapse(rest, true, false) == Collapse(rest, true, false);
    }
  }

  lemma IndentedRest(s: string)
    requires s != "" && IsWsp(s[0])
    ensures Indented(s) <==> s[1..] != "" && (Indented(s[1..]) || !IsWsp(s[1]))
  {
    var rest := s[1..];
    if Indented(s) {
      var i :| 0 <= i < |s| && !IsWsp(s[i]);
      assert rest[i - 1] == s[i];
    }
    if rest != "" && Indented(rest) {
      var i :| 0 <= i < |rest| && !IsWsp(rest[i]);
      assert s[i + 1] == rest[i];
    }
  }

  /** One more line of the standard's form for each line that is indented. */
  function Indents(lines: seq<string>): nat {
    if lines == [] then 0 else (if Indented(lines[0]) then 1 else 0) + Indents(lines[1..])
  }

  lemma {:induction false} LinesCompared(lines: seq<string>)
    ensures |JoinLines(StandardLines(lines))| == |JoinLines(CollapseAll(lines))| + Indents(lines)
    ensures Indents(lines) == 0 ==> StandardLines(lines) == CollapseAll(lines)
    ensures forall k :: 0 <= k < |lines| ==> (StandardLines(lines)[k] == "" <==> CollapseAll(lines)[k] == "")
    decreases |lines|
  {
    hide StandardLine, Collapse, Indented;
    if lines != [] {
      LineCompared(lines[0], false);
      LinesCompared(lines[1..]);
      EmptyTogether(lines[0]);
      JoinLength(StandardLines(lines));
      JoinLength(CollapseAll(lines));
      assert "" + Collapse(lines[0], false, false) == Collapse(lines[0], false, false);
    }
  }

  lemma JoinLength(lines: seq<string>)
    requires lines != []
    ensures |JoinLines(lines)| == |lines[0]| + 2 + |JoinLines(lines[1..])|
  {
  }

  /** An indented line has text, so neither form of it is empty. */
  lemma {:induction false} EmptyTogether(s: string)
    ensures StandardLine(s) == "" <==> Collapse(s, false, false) == ""
  {
    LineCompared(s, false);
    if Indented(s) {
      TextStays(s, false);
    }
  }

  lemma {:induction false} TextStays(s: string, blank: bool)
    requires exists i :: 0 <= i < |s| && !IsWsp(s[i])
    ensures Collapse(s, blank, false) != ""
  {
    if IsWsp(s[0]) {
      var i :| 0 <= i < |s| && !IsWsp(s[i]);
      assert s[1..][i - 1] == s[i];
      TextStays(s[1..], true);
    }
  }

  /** Two lists of lines that are empty in the same places lose the same lines at their ends. */
  lemma {:induction false} SameTail(a: seq<string>, b: seq<string>)
    requires |a| == |b| && forall k :: 0 <= k < |a| ==> (a[k] == "" <==> b[k] == "")
    ensures |JoinLines(a)| - |JoinLines(DropEmptyTail(a))| == |JoinLines(b)| - |JoinLines(DropEmptyTail(b))|
    decreases |a|
  {
    if a != [] && a[|a| - 1] == "" {
      SameTail(a[..|a| - 1], b[..|b| - 1]);
      JoinLast(a);
      JoinLast(b);
    }
  }

  lemma {:induction false} JoinLast(lines: seq<string>)
    requires lines != []
    ensures |JoinLines(lines)| == |JoinLines(lines[..|lines| - 1])| + |lines[|lines| - 1]| + 2
    decreases |lines|
  {
    JoinLength(lines);
    if |lines| > 1 {
      JoinLast(lines[1..]);
      var front := lines[..|lines| - 1];
      assert front[1..] == lines[1..][..|lines| - 2] && front[0] == lines[0];
      JoinLength(front);
    } else {
      assert lines[..0] == [] && lines[1..] == [];
    }
  }

  lemma {:induction false} NoIndents(lines: seq<string>)
    ensures Indents(lines) == 0 <==> forall k :: 0 <= k < |lines| ==> !Indented(lines[k])
  {
    hide Indented;
    if lines != [] {
      NoIndents(lines[1..]);
      if forall k :: 0 <= k < |lines| ==> !Indented(lines[k]) {
        assert forall k :: 0 <= k < |lines| - 1 ==> !Indented(lines[1..][k]);
      }
      if Indents(lines) == 0 {
        forall k | 0 <= k < |lines|
          ensures !Indented(lines[k])
        {
          assert k > 0 ==> lines[k] == lines[1..][k - 1];
        }
      }
    }
  }

  /** A relaxed body is what section 3.4.4 of RFC 6376 asks for exactly when no line of it is indented. */
  lemma RelaxedBodyIsStandard(body: string)
    ensures CanonicalBody(body, true) == StandardBody(body) <==>
            forall k :: 0 <= k < |BodyLines(body)| ==> !Indented(BodyLines(body)[k])
  {
    hide BodyLines, StandardLines, CollapseAll, Indented, Indents, DropEmptyTail;
    var lines := BodyLines(body);
    var own, std := CollapseAll(lines), StandardLines(lines);
    LinesCompared(lines);
    NoIndents(lines);
    SameTail(std, own);
    assert CanonicalBody(body, true) == JoinLines(DropEmptyTail(own));
    assert StandardBody(body) == JoinLines(DropEmptyTail(std));
    if Indents(lines) > 0 {
      assert |StandardBody(body)| == |CanonicalBody(body, true)| + Indents(lines);
      assert CanonicalBody(body, true) != StandardBody(body);
      var k :| 0 <= k < |lines| && Indented(lines[k]);
      assert Indented(BodyLines(body)[k]);
    } else {
      assert std == own;
      assert forall k :: 0 <= k < |lines| ==> !Indented(lines[k]);
    }
  }

  // ---- simple bodies (section 3.4.3), and empty ones ------------------------

  predicate Unbroken(line: string) {
    FindCrlf(line + "\r\n") == |line|
  }

  /** Lines, each ended, with empty ones at the end. */
  lemma {:induction false} LinesReadBack(lines: seq<string>)
    requires forall k :: 0 <= k < |lines| ==> Unbroken(lines[k])
    ensures BodyLines(JoinLines(lines)) == lines
    decreases |lines|
  {
    if lines != [] {
      hide FindCrlf, Unbroken, BodyLines, JoinLines;
      LinesReadBack(lines[1..]);
      FirstRead(lines[0], JoinLines(lines[1..]));
      JoinCons(lines);
      assert lines == [lines[0]] + lines[1..];
    }
  }

  lemma JoinCons(lines: seq<string>)
    requires lines != []
    ensures JoinLines(lines) == lines[0] + ("\r\n" + JoinLines(lines[1..]))
  {
  }

  lemma FirstRead(line: string, rest: string)
    requires Unbroken(line)
    ensures BodyLines(line + ("\r\n" + rest)) == [line] + BodyLines(rest)
  {
    hide Unbroken, FindCrlf;
    FirstBreak(line, rest);
    var body := line + ("\r\n" + rest);
    assert body[..|line|] == line && body[|line| + 2..] == rest;
  }

  lemma {:induction false} FirstBreak(line: string, rest: string)
    requires Unbroken(line)
    ensures FindCrlf(line + ("\r\n" + rest)) == |line|
    decreases |line|
  {
    var s, t := line + "\r\n", line + ("\r\n" + rest);
    if line != "" {
      assert s[1..] == line[1..] + "\r\n" && t[1..] == line[1..] + ("\r\n" + rest);
      assert s[0] == t[0] && s[1] == t[1];
      FirstBreak(line[1..], rest);
    } else {
      assert t[0] == '\r' && t[1] == '\n';
    }
  }

  function Empties(n: nat): (r: seq<string>)
    ensures |r| == n
  {
    if n == 0 then [] else Empties(n - 1) + [""]
  }

  lemma {:induction false} TailDropped(lines: seq<string>, n: nat)
    requires lines != [] ==> lines[|lines| - 1] != ""
    ensures DropEmptyTail(lines + Empties(n)) == lines
  {
    var all := lines + Empties(n);
    if n == 0 {
      assert all == lines;
    } else {
      assert all[|all| - 1] == "" && all[..|all| - 1] == lines + Empties(n - 1);
      TailDropped(lines, n - 1);
    }
  }

  /** A simple body: its lines as they are, without empty lines at the end; a lone line break when that leaves none. */
  lemma SimpleBodyForm(lines: seq<string>, n: nat)
    requires forall k :: 0 <= k < |lines| ==> Unbroken(lines[k])
    requires lines != [] ==> lines[|lines| - 1] != ""
    ensures CanonicalBody(JoinLines(lines + Empties(n)), false) == if lines == [] then "\r\n" else JoinLines(lines)
  {
    hide BodyLines, JoinLines, DropEmptyTail, Unbroken;
    EmptiesEmpty(n);
    NothingIsUnbroken();
    var all := lines + Empties(n);
    assert forall k :: 0 <= k < |all| ==> all[k] == if k < |lines| then lines[k] else "";
    LinesReadBack(lines + Empties(n));
    TailDropped(lines, n);
  }

  lemma NothingIsUnbroken()
    ensures Unbroken("")
  {
    assert "" + "\r\n" == "\r\n";
  }

  lemma {:induction false} EmptiesEmpty(n: nat)
    ensures forall k :: 0 <= k < n ==> Empties(n)[k] == ""
  {
    if n > 0 {
      EmptiesEmpty(n - 1);
    }
  }

  // ---- the example of section 3.4.5 -----------------------------------------

  /** The second header of the example is relaxed as the standard shows it. */
  lemma ExampleHeader()
    ensures CanonicalHeader(Header("B ", " Y\t\r\n\tZ  "), true) == "b:Y Z\r\n"
  {
    hide Clean, CanonicalHeader, Spaced;
    var gaps, words := [" ", "\t\t", "  "], ["Y", "Z"];
    ExampleClean();
    ExampleLaid(gaps, words);
    assert "" + ("B" + " ") == "B ";
    assert ToLower("B") == "b" by {
      assert "B"[1..] == "";
    }
    RelaxedHeaderForm("", "B", " ", " Y\t\r\n\tZ  ", gaps, words);
    assert "b" + (":" + ("Y Z" + "\r\n")) == "b:Y Z\r\n";
  }

  lemma ExampleLaid(gaps: seq<string>, words: seq<string>)
    requires gaps == [" ", "\t\t", "  "] && words == ["Y", "Z"]
    ensures Laid(gaps, words) && Spread(gaps, words) == " Y\t\tZ  " && Spaced(words) == "Y Z"
  {
    assert gaps[1..] == ["\t\t", "  "] && gaps[1..][1..] == ["  "];
    assert words[1..] == ["Z"] && words[1..][1..] == [];
    assert Spread(["  "], []) == "  ";
    assert Spread(["\t\t", "  "], ["Z"]) == "\t\tZ  ";
    assert Spaced(["Z"]) == "Z";
  }

  lemma {:induction false} CleanJoin(a: string, b: string)
    ensures Clean(a + b) == Clean(a) + Clean(b)
  {
    if a == "" {
      assert a + b == b;
    } else {
      assert (a + b)[0] == a[0] && (a + b)[1..] == a[1..] + b;
      CleanJoin(a[1..], b);
      Assoc(if a[0] == '\r' || a[0] == '\n' then "" else [a[0]], Clean(a[1..]), Clean(b));
    }
  }

  lemma ExampleClean()
    ensures Clean(" Y\t\r\n\tZ  ") == " Y\t\tZ  "
  {
    hide Clean;
    var a, b := " Y\t", "\tZ  ";
    CleanOneLine(a);
    CleanOneLine(b);
    CleanJoin(a, "\r\n" + b);
    CleanJoin("\r\n", b);
    BreakCleans();
    assert a + ("\r\n" + b) == " Y\t\r\n\tZ  ";
    assert a + ("" + b) == " Y\t\tZ  ";
  }

  lemma BreakCleans()
    ensures Clean("\r\n") == ""
  {
    assert "\r\n"[1..] == "\n" && "\n"[1..] == "";
    assert Clean("\n") == "";
  }

  /** The first body line of the example keeps its leading space in the standard, and loses it here. */
  lemma ExampleBody()
    ensures CanonicalBody(" C \r\n", true) == "C\r\n" && StandardBody(" C \r\n") == " C\r\n"
  {
    hide BodyLines, Unbroken, DropEmptyTail;
    ExampleBreak();
    assert JoinLines([" C "]) == " C \r\n" by {
      JoinOne(" C ");
    }
    LinesReadBack([" C "]);
    ExampleLine();
    JoinOne("C");
    JoinOne(" C");
    TailDropped(["C"], 0);
    TailDropped([" C"], 0);
    assert Empties(0) == [] && ["C"] + [] == ["C"] && [" C"] + [] == [" C"];
  }

  lemma JoinOne(line: string)
    ensures JoinLines([line]) == line + "\r\n"
  {
    assert [line][1..] == [] && "\r\n" + "" == "\r\n";
  }

  lemma ExampleBreak()
    ensures Unbroken(" C ")
  {
    var s := " C \r\n";
    assert " C " + "\r\n" == s;
    assert s[1..] == "C \r\n" && s[1..][1..] == " \r\n" && s[1..][1..][1..] == "\r\n";
    assert FindCrlf("\r\n") == 0;
    assert FindCrlf(" \r\n") == 1;
    assert FindCrlf("C \r\n") == 2;
  }

  lemma ExampleLine()
    ensures CollapseAll([" C "]) == ["C"] && StandardLines([" C "]) == [" C"]
  {
    hide Collapse, StandardLine, Indented;
    var gaps, words := [" ", " "], ["C"];
    assert gaps[1..] == [" "] && words[1..] == [] && Spread([" "], []) == " ";
    WordsCollapse(gaps, words, false, false);
    assert " " + ("C" + " ") == " C " && "" + "C" == "C";
    LineCompared(" C ", false);
    ExampleIndented();
    assert [" C "][1..] == [] && " " + "C" == " C";
  }

  lemma ExampleIndented()
    ensures Indented(" C ")
  {
    assert !IsWsp(" C "[1]);
  }
}
