/** The rule names read out of a printed script: which lines of the text that `Compose` writes
    `RuleNames` takes for the start of a rule, in which order, and which name each of them carries; a
    line inside a printed multi-line reason can be taken for one too. */
module SieveNames {
  import opened Text
  import opened SieveLex
  import opened SieveRules
  import opened SievePieces
  import opened SievePrinted
  import P = SieveParse

  /** In front of any text, `text` turns the waiting name `p` into `entries` and leaves `q` waiting. */
  ghost predicate Names(text: string, p: string, entries: seq<string>, q: string) {
    forall rest: string :: NamesFrom(text + rest, p) == entries + NamesFrom(rest, q)
  }

  lemma UseNames(text: string, p: string, entries: seq<string>, q: string, rest: string)
    requires Names(text, p, entries, q)
    ensures NamesFrom(text + rest, p) == entries + NamesFrom(rest, q)
  {
  }

  lemma Then(a: string, p: string, e: seq<string>, q: string, b: string, f: seq<string>, r: string)
    requires Names(a, p, e, q) && Names(b, q, f, r)
    ensures Names(a + b, p, e + f, r)
  {
    hide NamesFrom;
    forall rest: string
      ensures NamesFrom((a + b) + rest, p) == (e + f) + NamesFrom(rest, r)
    {
      Assoc(a, b, rest);
      UseNames(a, p, e, q, b + rest);
      UseNames(b, q, f, r, rest);
      Assoc(e, f, NamesFrom(rest, r));
    }
  }

  lemma NamesNothing(p: string)
    ensures Names("", p, [], p)
  {
    forall rest: string
      ensures NamesFrom("" + rest, p) == [] + NamesFrom(rest, p)
    {
      assert "" + rest == rest && [] + NamesFrom(rest, p) == NamesFrom(rest, p);
    }
  }

  lemma NamesOneLine(line: string, p: string)
    requires NoNewline(line)
    ensures Names(line + "\n", p, NameLine(line, p).0, NameLine(line, p).1)
  {
    hide NameLine;
    forall rest: string
      ensures NamesFrom((line + "\n") + rest, p) == NameLine(line, p).0 + NamesFrom(rest, NameLine(line, p).1)
    {
      LineThenRest(line, rest);
      var s := (line + "\n") + rest;
      assert s[|line| + 1..] == rest;
    }
  }

  // ---- what single lines do -----------------------------------------------

  lemma {:induction false} TrimRightKeeps(a: string, x: string)
    requires a != "" && a[|a| - 1] != ' ' && a[|a| - 1] != '\r'
    ensures TrimRight(a + x) == a + TrimRight(x)
  {
    if x == "" {
      assert a + x == a;
    } else {
      var s := a + x;
      assert s[|s| - 1] == x[|x| - 1] && s[..|s| - 1] == a + x[..|x| - 1];
      if x[|x| - 1] == '\r' || x[|x| - 1] == ' ' {
        TrimRightKeeps(a, x[..|x| - 1]);
      }
    }
  }

  lemma {:induction false} TrimRightHead(s: string)
    requires s != "" && s[0] != ' ' && s[0] != '\r'
    ensures TrimRight(s) != "" && TrimRight(s)[0] == s[0]
  {
    assert s == [s[0]] + s[1..];
    TrimRightKeeps([s[0]], s[1..]);
  }

  lemma Indented(x: string)
    requires x != "" && x[0] != ' ' && x[0] != '\t' && x[0] != '\r'
    ensures TrimLeft("    " + x) == x && TrimLeft(x) == x
  {
    hide TrimRight;
    Deeper(x);
    Deeper(" " + x);
    Deeper("  " + x);
    Deeper("   " + x);
    assert " " + (" " + x) == "  " + x && " " + ("  " + x) == "   " + x && " " + ("   " + x) == "    " + x;
  }

  lemma Deeper(x: string)
    ensures TrimLeft(" " + x) == TrimLeft(x)
  {
    assert (" " + x)[1..] == x;
  }

  /** A line of a command drops the waiting name. */
  lemma CommandLine(x: string, p: string)
    requires x != "" && x[0] !in " \t\r#i"
    ensures NameLine("    " + x, p) == ([], "") && NameLine(x, p) == ([], "")
  {
    hide TrimRight, TrimLeft;
    Indented(x);
    TrimRightHead(x);
    assert !("# rule:" <= TrimRight(x)) && !("if " <= TrimRight(x)) && TrimRight(x) != "if";
  }

  /** The comments at the top of a script leave the waiting name alone. */
  lemma CommentLine(line: string, p: string)
    requires |line| > 2 && line[0] == '#' && line[2] != 'r'
    ensures NameLine(line, p) == ([], p)
  {
    hide TrimRight, TrimLeft;
    Indented(line);
    assert TrimRight(line) <= line;
    assert |TrimRight(line)| > 2 ==> TrimRight(line)[2] != 'r';
    TrimRightHead(line);
  }

  lemma EmptyLine(p: string)
    ensures NameLine("", p) == ([], p)
  {
  }

  lemma IfLine(test: string, p: string)
    ensures NameLine(("if " + test) + " {", p) == ([p], "")
  {
    hide TrimRight, TrimLeft;
    var line := ("if " + test) + " {";
    Indented(line);
    assert line[|line| - 1] == '{' && line + "" == line;
    TrimRightKeeps(line, "");
    assert TrimRight("") == "";
    assert line[..3] == "if ";
    assert "if " <= line && line[0] == 'i';
  }

  /** The name that a printed name reads back as. */
  function ReadName(name: string): string {
    TrimBlanks(TrimRight(" " + Flatten1(name)))
  }

  lemma RuleLine(name: string, p: string)
    ensures NameLine("# rule: " + Flatten1(name), p) == ([], ReadName(name))
  {
    hide TrimRight, TrimLeft, TrimBlanks, Flatten1;
    var x := " " + Flatten1(name);
    var line := "# rule:" + x;
    assert "# rule:" + " " == "# rule: ";
    Assoc("# rule:", " ", Flatten1(name));
    Indented(line);
    TrimRightKeeps("# rule:", x);
    assert ("# rule:" + TrimRight(x))[7..] == TrimRight(x);
  }

  // ---- text without line breaks -------------------------------------------

  lemma {:induction false} EscapedHasNoNewline(s: string)
    ensures NoNewline(EscapeSieve(s))
  {
    if s != "" {
      EscapedHasNoNewline(s[1..]);
    }
  }

  lemma QuoteHasNoNewline(s: string)
    ensures NoNewline(QuoteOf(s))
  {
    hide EscapeSieve;
    EscapedHasNoNewline(s);
  }

  lemma Both(a: string, b: string)
    requires NoNewline(a) && NoNewline(b)
    ensures NoNewline(a + b)
  {
  }

  lemma ConditionHasNoNewline(t: RuleTest)
    requires LegalTest(t)
    ensures NoNewline(ConditionText(t))
  {
    hide QuoteOf, HeaderName, Num, DecValue, NoNewline;
    Plain("");
    Plain(" ");
    Plain("not ");
    Plain("header :");
    QuoteHasNoNewline(t.value);
    QuoteHasNoNewline(HeaderName(t.field));
    Both(" ", QuoteOf(t.value));
    if t.field == "size" {
      Plain("size :");
      Plain("over");
      Plain("under");
      DigitsHaveNoNewline(DecValue(t.value));
      Both(" ", t.value);
      Both(if t.op == "under" then "under" else "over", " " + t.value);
      Both("size :", (if t.op == "under" then "under" else "over") + (" " + t.value));
      Both(if t.negate then "not " else "", "size :" + ((if t.op == "under" then "under" else "over") + (" " + t.value)));
    } else {
      var tail := if t.field == "body" then t.op + (" " + QuoteOf(t.value))
                  else t.op + (" " + (QuoteOf(HeaderName(t.field)) + (" " + QuoteOf(t.value))));
      Both(t.op, " " + QuoteOf(t.value));
      Both(QuoteOf(HeaderName(t.field)), " " + QuoteOf(t.value));
      Both(" ", QuoteOf(HeaderName(t.field)) + (" " + QuoteOf(t.value)));
      Both(t.op, " " + (QuoteOf(HeaderName(t.field)) + (" " + QuoteOf(t.value))));
      Plain("body :text :");
      Both("body :text :", tail);
      Both("header :", tail);
      Both(if t.negate then "not " else "", if t.field == "body" then "body :text :" + tail else "header :" + tail);
    }
  }

  lemma Plain(s: string)
    requires forall i :: 0 <= i < |s| ==> s[i] != '\n'
    ensures NoNewline(s)
  {
  }

  lemma DigitsHaveNoNewline(n: nat)
    ensures NoNewline(Num(n))
  {
    assert forall i :: 0 <= i < |Num(n)| ==> IsDigit(Num(n)[i]);
  }

  lemma {:induction false} ConditionListHasNoNewline(ts: seq<RuleTest>)
    requires AllLegal(ts)
    ensures NoNewline(ConditionList(ts))
  {
    hide ConditionText, LegalTest, NoNewline;
    Plain("");
    if ts != [] {
      ConditionHasNoNewline(ts[0]);
      ConditionListHasNoNewline(ts[1..]);
      Plain(", ");
      Both(", ", ConditionList(ts[1..]));
      Both(ConditionText(ts[0]), ", " + ConditionList(ts[1..]));
    }
  }

  lemma TestHasNoNewline(r: Rule)
    requires AllLegal(r.tests)
    ensures NoNewline(TestText(r))
  {
    hide ConditionText, ConditionList, NoNewline, LegalTest;
    if r.tests == [] {
      Plain("true");
    } else if |r.tests| == 1 {
      ConditionHasNoNewline(r.tests[0]);
    } else {
      ConditionListHasNoNewline(r.tests);
      Plain("allof");
      Plain("anyof");
      Plain(" (");
      Plain(")");
      Both(ConditionList(r.tests), ")");
      Both(" (", ConditionList(r.tests) + ")");
      Both(if r.all then "allof" else "anyof", " (" + (ConditionList(r.tests) + ")"));
    }
  }

  lemma {:induction false} QuoteListHasNoNewline(items: seq<string>)
    ensures NoNewline(QuoteList(items))
  {
    hide QuoteOf, NoNewline;
    Plain("");
    if items != [] {
      QuoteHasNoNewline(items[0]);
      QuoteListHasNoNewline(items[1..]);
      Plain(", ");
      Both(", ", QuoteList(items[1..]));
      Both(QuoteOf(items[0]), ", " + QuoteList(items[1..]));
    }
  }

  lemma ListHasNoNewline(items: seq<string>)
    ensures NoNewline(ListOf(items))
  {
    hide QuoteList, NoNewline;
    QuoteListHasNoNewline(items);
    Plain("[");
    Plain("]");
    Both(QuoteList(items), "]");
    Both("[", QuoteList(items) + "]");
  }

  lemma FlagTagHasNoNewline(flags: seq<string>)
    ensures NoNewline(FlagTag(flags))
  {
    hide ListOf, NoNewline;
    Plain("");
    Plain(" :flags ");
    ListHasNoNewline(flags);
    Both(" :flags ", ListOf(flags));
  }

  lemma TaggedHasNoNewline(tag: string, value: string)
    requires NoNewline(tag)
    ensures NoNewline(Tagged(tag, value))
  {
    hide QuoteOf, NoNewline;
    Plain("");
    Plain(" ");
    Plain(" :");
    QuoteHasNoNewline(value);
    Both(" ", QuoteOf(value));
    Both(tag, " " + QuoteOf(value));
    Both(" :", tag + (" " + QuoteOf(value)));
  }

  lemma VacationTagsHaveNoNewline(v: VacationSpec)
    ensures NoNewline(VacationTags(v))
  {
    hide ListOf, Tagged, Num, NoNewline;
    Plain("");
    Plain(" :mime");
    Plain(" :days ");
    Plain(" :addresses ");
    Plain("subject");
    Plain("from");
    Plain("handle");
    var days := if v.days > 0 && v.days != 7 then " :days " + Num(v.days) else "";
    if v.days > 0 {
      DigitsHaveNoNewline(v.days);
      Both(" :days ", Num(v.days));
    }
    ListHasNoNewline(v.addresses);
    Both(" :addresses ", ListOf(v.addresses));
    TaggedHasNoNewline("subject", v.subject);
    TaggedHasNoNewline("from", v.from);
    TaggedHasNoNewline("handle", v.handle);
    var t1 := if v.addresses == [] then "" else " :addresses " + ListOf(v.addresses);
    Both(Tagged("handle", v.handle), t1);
    Both(Tagged("from", v.from), Tagged("handle", v.handle) + t1);
    Both(Tagged("subject", v.subject), Tagged("from", v.from) + (Tagged("handle", v.handle) + t1));
    var t4 := Tagged("subject", v.subject) + (Tagged("from", v.from) + (Tagged("handle", v.handle) + t1));
    var mime := if v.mime then " :mime" else "";
    Both(mime, t4);
    Both(days, mime + t4);
  }

  // ---- actions ------------------------------------------------------------

  /** What the lines of a block do to the names. */
  function BlockNames(s: string, p: string): (seq<string>, string)
    decreases |s|
  {
    var nl := IndexOf(s, '\n', 0);
    var (e, q) := NameLine(Stuff(StripCr(s[..nl])), p);
    if nl == |s| then (e, q)
    else var (f, r) := BlockNames(s[nl + 1..], q); (e + f, r)
  }

  lemma {:induction false} NamesOfBlock(s: string, p: string)
    ensures Names(TextLines(s), p, BlockNames(s, p).0, BlockNames(s, p).1)
    decreases |s|
  {
    hide Names, NameLine, Stuff, StripCr;
    var nl := IndexOf(s, '\n', 0);
    var raw := s[..nl];
    var line := Stuff(StripCr(raw));
    StuffedLineHasNoNewline(raw);
    NamesOneLine(line, p);
    if nl == |s| {
      assert PrintedLine(raw) + "" == line + "\n";
    } else {
      var q := NameLine(line, p).1;
      NamesOfBlock(s[nl + 1..], q);
      Then(line + "\n", p, NameLine(line, p).0, q, TextLines(s[nl + 1..]), BlockNames(s[nl + 1..], q).0, BlockNames(s[nl + 1..], q).1);
    }
  }

  /** The entries that the text of a reason adds by looking like script lines. */
  function Stray(reason: string): seq<string> {
    if OneLine(reason) then [] else BlockNames(Chomp(reason), "").0
  }

  function StrayOf(a: Action): seq<string> {
    if a.Reject? || a.Vacation? then Stray(a.reason) else []
  }

  /** A command on one line. */
  lemma NamesOfCommand(x: string, text: string, p: string)
    requires x != "" && x[0] !in " \t\r#i" && NoNewline(x) && text == "    " + (x + "\n")
    ensures Names(text, p, [], "")
  {
    hide Names, NameLine, NamesFrom;
    Plain("    ");
    Both("    ", x);
    CommandLine(x, p);
    NamesOneLine("    " + x, p);
    Assoc("    ", x, "\n");
  }

  /** A command whose last argument is a reason. */
  lemma NamesOfReason(x: string, reason: string, text: string, p: string)
    requires x != "" && x[0] !in " \t\r#i" && NoNewline(x)
    requires text == "    " + (x + (QuoteOrTextOf(reason) + ";\n"))
    ensures Names(text, p, Stray(reason), "")
  {
    hide Names, NameLine, NamesFrom, QuoteOf, TextBlockOf, NoNewline;
    Plain(";");
    if OneLine(reason) {
      var q := QuoteOf(reason);
      QuoteHasNoNewline(reason);
      Both(q, ";");
      Both(x, q + ";");
      assert q + ";\n" == (q + ";") + "\n";
      Assoc(x, q + ";", "\n");
      NamesOfCommand(x + (q + ";"), text, p);
    } else {
      NamesOfTextBlock(x, reason, text, p);
    }
  }

  lemma NamesOfTextBlock(x: string, reason: string, text: string, p: string)
    requires x != "" && x[0] !in " \t\r#i" && NoNewline(x)
    requires text == "    " + (x + (TextBlockOf(reason) + ";\n"))
    ensures Names(text, p, BlockNames(Chomp(reason), "").0, "")
  {
    hide Names, NameLine, NamesFrom, NoNewline, TextLines, BlockNames, Chomp;
    var lines, e := TextLines(Chomp(reason)), BlockNames(Chomp(reason), "");
    Plain("text:");
    Both(x, "text:");
    NamesOfCommand(x + "text:", "    " + ((x + "text:") + "\n"), p);
    NamesOfBlock(Chomp(reason), "");
    NamesOfClose(e.1);
    Then(lines, "", e.0, e.1, ".\n" + ";\n", [], "");
    assert e.0 + [] == e.0 && [] + e.0 == e.0;
    Then("    " + ((x + "text:") + "\n"), p, [], "", lines + (".\n" + ";\n"), e.0, "");
    Opening(x, lines);
  }

  lemma Opening(x: string, lines: string)
    ensures ("    " + ((x + "text:") + "\n")) + (lines + (".\n" + ";\n")) == "    " + (x + (("text:\n" + (lines + ".\n")) + ";\n"))
  {
    Assoc(lines, ".\n", ";\n");
    Assoc("text:\n", lines + ".\n", ";\n");
    assert (x + "text:") + "\n" == x + "text:\n";
    Assoc("    ", x + "text:\n", (lines + ".\n") + ";\n");
    Assoc(x, "text:\n", (lines + ".\n") + ";\n");
  }

  lemma NamesOfClose(p: string)
    ensures Names(".\n" + ";\n", p, [], "")
  {
    hide Names, NameLine, NamesFrom, NoNewline;
    Plain(".");
    Plain(";");
    CommandLine(".", p);
    CommandLine(";", "");
    NamesOneLine(".", p);
    NamesOneLine(";", "");
    assert "." + "\n" == ".\n" && ";" + "\n" == ";\n";
    var none: seq<string> := [];
    assert none + none == none;
    Then(".\n", p, none, "", ";\n", none, "");
  }

  lemma NamesOfFileInto(folder: string, create: bool, flags: seq<string>, p: string)
    ensures Names(ActionText(FileInto(folder, create, flags)), p, [], "")
  {
    hide Names, QuoteOf, FlagTag, NoNewline;
    var c := if create then " :create" else "";
    Plain("");
    Plain(" ");
    Plain(";");
    Plain("fileinto");
    Plain(" :create");
    QuoteHasNoNewline(folder);
    FlagTagHasNoNewline(flags);
    var q := QuoteOf(folder);
    Both(q, ";");
    Both(" ", q + ";");
    Both(FlagTag(flags), " " + (q + ";"));
    Both(c, FlagTag(flags) + (" " + (q + ";")));
    var x := "fileinto" + (c + (FlagTag(flags) + (" " + (q + ";"))));
    Both("fileinto", c + (FlagTag(flags) + (" " + (q + ";"))));
    assert q + ";\n" == (q + ";") + "\n";
    Assoc(" ", q + ";", "\n");
    Assoc(FlagTag(flags), " " + (q + ";"), "\n");
    Assoc(c, FlagTag(flags) + (" " + (q + ";")), "\n");
    Assoc("fileinto", c + (FlagTag(flags) + (" " + (q + ";"))), "\n");
    Assoc("    ", "fileinto", c + (FlagTag(flags) + (" " + (q + ";\n"))));
    assert "    " + "fileinto" == "    fileinto";
    NamesOfCommand(x, ActionText(FileInto(folder, create, flags)), p);
  }

  lemma NamesOfVacation(v: VacationSpec, reason: string, p: string)
    ensures Names(ActionText(Vacation(v, reason)), p, Stray(reason), "")
  {
    hide Names, NoNewline, Stray, QuoteOrTextOf, VacationTags;
    Plain(" ");
    VacationTagsHaveNoNewline(v);
    Plain("vacation");
    Both(VacationTags(v), " ");
    var x := "vacation" + (VacationTags(v) + " ");
    Both("vacation", VacationTags(v) + " ");
    var tail := QuoteOrTextOf(reason) + ";\n";
    Assoc("vacation", VacationTags(v) + " ", tail);
    Assoc(VacationTags(v), " ", tail);
    Assoc("    ", "vacation", VacationTags(v) + (" " + tail));
    assert "    " + "vacation" == "    vacation";
    NamesOfReason(x, reason, ActionText(Vacation(v, reason)), p);
  }

  lemma NamesOfKeep(flags: seq<string>, p: string)
    ensures Names(ActionText(Keep(flags)), p, [], "")
  {
    hide Names, NoNewline, FlagTag;
    Plain(";");
    FlagTagHasNoNewline(flags);
    Plain("keep");
    Both(FlagTag(flags), ";");
    var x := "keep" + (FlagTag(flags) + ";");
    Both("keep", FlagTag(flags) + ";");
    assert FlagTag(flags) + ";\n" == (FlagTag(flags) + ";") + "\n";
    Assoc("keep", FlagTag(flags) + ";", "\n");
    Assoc("    ", "keep", FlagTag(flags) + ";\n");
    assert "    " + "keep" == "    keep";
    NamesOfCommand(x, ActionText(Keep(flags)), p);
  }

  lemma NamesOfAction(a: Action, p: string)
    ensures Names(ActionText(a), p, StrayOf(a), "")
  {
    hide Names, QuoteOf, FlagTag, NoNewline, Stray, QuoteOrTextOf, VacationTags;
    Plain(" ");
    Plain(";");
    match a {
      case FileInto(folder, create, flags) => NamesOfFileInto(folder, create, flags, p);
      case Redirect(address) =>
        var q := QuoteOf(address);
        QuoteHasNoNewline(address);
        Plain("redirect ");
        Both(q, ";");
        Both("redirect ", q + ";");
        assert "    redirect " + (q + ";\n") == "    " + (("redirect " + (q + ";")) + "\n");
        NamesOfCommand("redirect " + (q + ";"), ActionText(a), p);
      case Reject(reason) =>
        Plain("reject ");
        assert "    " + "reject " == "    reject ";
        Assoc("    ", "reject ", QuoteOrTextOf(reason) + ";\n");
        NamesOfReason("reject ", reason, ActionText(a), p);
      case Discard =>
        Plain("discard;");
        assert "    " + ("discard;" + "\n") == "    discard;\n";
        NamesOfCommand("discard;", ActionText(a), p);
      case Vacation(v, reason) => NamesOfVacation(v, reason, p);
      case Keep(flags) => NamesOfKeep(flags, p);
    }
  }

  function StrayOfActions(actions: seq<Action>): seq<string> {
    if actions == [] then [] else StrayOf(actions[0]) + StrayOfActions(actions[1..])
  }

  lemma {:induction false} NamesOfActions(actions: seq<Action>)
    ensures Names(ActionsText(actions), "", StrayOfActions(actions), "")
  {
    hide Names, ActionText, StrayOf;
    if actions == [] {
      NamesNothing("");
    } else {
      NamesOfAction(actions[0], "");
      NamesOfActions(actions[1..]);
      Then(ActionText(actions[0]), "", StrayOf(actions[0]), "", ActionsText(actions[1..]), StrayOfActions(actions[1..]), "");
    }
  }

  // ---- rules --------------------------------------------------------------

  /** The entries a printed rule adds: its name, and one for each line of a reason that looks like
      the start of a rule. */
  function EntriesOf(r: Rule): seq<string> {
    if r.actions == [] then [] else [ReadName(r.name)] + StrayOfActions(r.actions)
  }

  function NamesOf(rules: seq<Rule>): seq<string> {
    if rules == [] then [] else EntriesOf(rules[0]) + NamesOf(rules[1..])
  }

  lemma NamesOfName(name: string)
    ensures Names(NameText(name), "", [], ReadName(name))
  {
    hide Names, NameLine, NamesFrom, Flatten1, NoNewline;
    if name == "" {
      NamesNothing("");
      NoName();
    } else {
      FlattenedNameHasNoNewline(name);
      Plain("# rule: ");
      Both("# rule: ", Flatten1(name));
      RuleLine(name, "");
      NamesOneLine("# rule: " + Flatten1(name), "");
      Assoc("# rule: ", Flatten1(name), "\n");
    }
  }

  lemma NoName()
    ensures ReadName("") == ""
  {
    assert " " + Flatten1("") == " ";
    assert " "[..0] == "";
  }

  lemma NamesOfIf(r: Rule, p: string)
    requires AllLegal(r.tests)
    ensures Names("if " + (TestText(r) + " {\n"), p, [p], "")
  {
    hide Names, NameLine, NamesFrom, NoNewline, TestText, AllLegal;
    var t := TestText(r);
    TestHasNoNewline(r);
    Plain("if ");
    Plain(" {");
    Both("if ", t);
    Both("if " + t, " {");
    IfLine(t, p);
    NamesOneLine(("if " + t) + " {", p);
    assert (("if " + t) + " {") + "\n" == "if " + (t + " {\n");
  }

  lemma NamesOfEnd(stop: bool)
    ensures Names((if stop then "    stop;\n" else "") + "}\n", "", [], "")
  {
    hide Names, NameLine, NamesFrom, NoNewline;
    Plain("}");
    CommandLine("}", "");
    NamesOneLine("}", "");
    assert "}" + "\n" == "}\n";
    if stop {
      Plain("stop;");
      assert "    " + ("stop;" + "\n") == "    stop;\n";
      NamesOfCommand("stop;", "    stop;\n", "");
      var none: seq<string> := [];
      assert none + none == none;
      Then("    stop;\n", "", none, "", "}\n", none, "");
    } else {
      assert "" + "}\n" == "}\n";
    }
  }

  lemma NamesOfRule(r: Rule)
    requires AllLegal(r.tests)
    ensures Names(RuleText(r), "", EntriesOf(r), "")
  {
    hide Names, NameLine, NamesFrom, NoNewline, TestText, AllLegal, ActionsText, NameText, ReadName, StrayOfActions;
    NamesNothing("");
    if r.actions != [] {
      var end := (if r.stop then "    stop;\n" else "") + "}\n";
      var stray, name := StrayOfActions(r.actions), ReadName(r.name);
      NamesOfEnd(r.stop);
      NamesOfActions(r.actions);
      Then(ActionsText(r.actions), "", stray, "", end, [], "");
      assert stray + [] == stray;
      NamesOfIf(r, name);
      Then("if " + (TestText(r) + " {\n"), name, [name], "", ActionsText(r.actions) + end, stray, "");
      NamesOfName(r.name);
      var body := ("if " + (TestText(r) + " {\n")) + (ActionsText(r.actions) + end);
      Then(NameText(r.name), "", [], name, body, [name] + stray, "");
      Plain("");
      EmptyLine("");
      NamesOneLine("", "");
      assert "" + "\n" == "\n";
      Then("\n", "", [], "", NameText(r.name) + body, [] + ([name] + stray), "");
      assert [] + ([] + ([name] + stray)) == [name] + stray;
      Assoc("if ", TestText(r) + " {\n", ActionsText(r.actions) + end);
      Assoc(TestText(r), " {\n", ActionsText(r.actions) + end);
    }
  }

  lemma {:induction false} NamesOfRules(rules: seq<Rule>)
    requires RulesLegal(rules)
    ensures Names(RulesText(rules), "", NamesOf(rules), "")
  {
    hide Names, RuleText, EntriesOf, AllLegal;
    if rules == [] {
      NamesNothing("");
    } else {
      NamesOfRule(rules[0]);
      NamesOfRules(rules[1..]);
      Then(RuleText(rules[0]), "", EntriesOf(rules[0]), "", RulesText(rules[1..]), NamesOf(rules[1..]), "");
    }
  }

  lemma NamesOfRequire(needed: seq<string>)
    ensures Names(RequireText(needed), "", [], "")
  {
    hide Names, NameLine, NamesFrom, NoNewline, ListOf;
    if needed == [] {
      NamesNothing("");
    } else {
      Plain("require ");
      Plain(";");
      ListHasNoNewline(needed);
      Both(ListOf(needed), ";");
      var line := "require " + (ListOf(needed) + ";");
      Both("require ", ListOf(needed) + ";");
      CommandLine(line, "");
      NamesOneLine(line, "");
      assert ListOf(needed) + ";\n" == (ListOf(needed) + ";") + "\n";
      Assoc("require ", ListOf(needed) + ";", "\n");
    }
  }

  lemma NamesOfBanner()
    ensures Names(BANNER, "", [], "") && Names(HINT, "", [], "")
  {
    hide Names, NameLine, NamesFrom, NoNewline;
    var b, h1, h2 := "# Generated by the QuackCit rule editor.", "# Editing this text by hand is fine: ", "the rules are read back from it.";
    var h := h1 + h2;
    Plain(b);
    Plain(h1);
    Plain(h2);
    Both(h1, h2);
    assert h[0] == h1[0] && h[2] == h1[2];
    CommentLine(b, "");
    CommentLine(h, "");
    NamesOneLine(b, "");
    NamesOneLine(h, "");
    assert b + "\n" == BANNER;
    Assoc(h1, h2, "\n");
  }

  lemma NamesOfTheRest()
    ensures NamesFrom("", "") == []
  {
  }

  /** The names read out of a printed script: one list of entries per printed rule. */
  lemma PrintedScriptNames(rules: seq<Rule>)
    requires RulesLegal(rules)
    ensures NamesFrom(ComposeOf(rules), "") == NamesOf(rules)
  {
    hide Names, NameLine, NamesFrom, RulesText, RequireText, RulesLegal, NeedOfRules, NamesOf;
    var q, t := RequireText(NeedOfRules([], rules)), RulesText(rules);
    NamesOfBanner();
    NamesOfRequire(NeedOfRules([], rules));
    NamesOfRules(rules);
    Then(q, "", [], "", t, NamesOf(rules), "");
    Then(HINT, "", [], "", q + t, [] + NamesOf(rules), "");
    Then(BANNER, "", [], "", HINT + (q + t), [] + ([] + NamesOf(rules)), "");
    UseNames(ComposeOf(rules), "", [] + ([] + ([] + NamesOf(rules))), "", "");
    NamesOfTheRest();
    assert ComposeOf(rules) + "" == ComposeOf(rules);
  }

  // ---- names that survive -------------------------------------------------

  /** A single line without blanks at either end (a tab may end it). */
  predicate TidyName(name: string) {
    OneLine(name) && (name == "" || (name[0] != ' ' && name[0] != '\t' && name[|name| - 1] != ' '))
  }

  lemma {:induction false} FlattenedName(name: string)
    ensures OneLine(name) <==> Flatten1(name) == name
    ensures OneLine(Flatten1(name))
  {
    if name != "" {
      FlattenedName(name[1..]);
      assert name == [name[0]] + name[1..];
      assert Flatten1(name)[1..] == Flatten1(name[1..]) && Flatten1(name)[0] != '\r' && Flatten1(name)[0] != '\n';
      assert OneLine(name) <==> name[0] != '\r' && name[0] != '\n' && OneLine(name[1..]) by {
        if name[0] != '\r' && name[0] != '\n' && OneLine(name[1..]) {
          forall i | 0 <= i < |name|
            ensures name[i] != '\r' && name[i] != '\n'
          {
            if i > 0 {
              assert name[i] == name[1..][i - 1];
            }
          }
        }
        if OneLine(name) {
          assert forall i :: 0 <= i < |name| - 1 ==> name[1..][i] == name[i + 1];
        }
      }
      forall i | 0 <= i < |name|
        ensures Flatten1(name)[i] != '\r' && Flatten1(name)[i] != '\n'
      {
        if i > 0 {
          assert Flatten1(name)[i] == Flatten1(name[1..])[i - 1];
        }
      }
    }
  }

  lemma {:induction false} TrimBlanksIsSuffix(s: string)
    ensures |TrimBlanks(s)| <= |s| && TrimBlanks(s) == s[|s| - |TrimBlanks(s)|..]
    ensures TrimBlanks(s) != "" ==> TrimBlanks(s)[0] != ' ' && TrimBlanks(s)[0] != '\t'
  {
    if s != "" && (s[0] == ' ' || s[0] == '\t') {
      TrimBlanksIsSuffix(s[1..]);
    }
  }

  lemma {:induction false} TrimRightEnds(s: string)
    ensures TrimRight(s) == "" || (TrimRight(s)[|TrimRight(s)| - 1] != ' ' && TrimRight(s)[|TrimRight(s)| - 1] != '\r')
  {
    if s != "" && (s[|s| - 1] == '\r' || s[|s| - 1] == ' ') {
      TrimRightEnds(s[..|s| - 1]);
    }
  }

  /** Exactly the tidy names are read back as they were. */
  lemma NameSurvives(name: string)
    ensures ReadName(name) == name <==> TidyName(name)
  {
    hide Flatten1, TrimBlanks, TrimRight;
    FlattenedName(name);
    var s := " " + Flatten1(name);
    var t := TrimRight(s);
    TrimRightEnds(s);
    TrimBlanksIsSuffix(t);
    if TidyName(name) {
      if name == "" {
        NoName();
      } else {
        assert s[|s| - 1] == name[|name| - 1];
        TrimRightKeeps(s, "");
        assert s + "" == s && TrimRight("") == "";
        TidySuffix(name);
      }
    }
    if ReadName(name) == name {
      assert name == t[|t| - |name|..];
      NameIsFlat(name, s, t);
    }
  }

  lemma TidySuffix(name: string)
    requires name != "" && name[0] != ' ' && name[0] != '\t'
    ensures TrimBlanks(" " + name) == name
  {
    assert (" " + name)[1..] == name;
  }

  lemma NameIsFlat(name: string, s: string, t: string)
    requires s == " " + Flatten1(name) && t <= s && |name| <= |t| && name == t[|t| - |name|..]
    requires t == "" || (t[|t| - 1] != ' ' && t[|t| - 1] != '\r')
    requires OneLine(Flatten1(name))
    requires name != "" ==> name[0] != ' ' && name[0] != '\t'
    ensures TidyName(name)
  {
    hide Flatten1, OneLine;
    PrefixedLine(Flatten1(name));
    LinePart(s, 0, |t|);
    assert s[0..|t|] == t;
    LinePart(t, |t| - |name|, |t|);
    assert t[|t| - |name|..|t|] == name;
    assert name != "" ==> name[|name| - 1] == t[|t| - 1];
  }

  lemma PrefixedLine(s: string)
    requires OneLine(s)
    ensures OneLine(" " + s)
  {
  }

  lemma LinePart(s: string, i: nat, j: nat)
    requires OneLine(s) && i <= j <= |s|
    ensures OneLine(s[i..j])
  {
  }
}
