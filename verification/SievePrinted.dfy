/** The tokens of a printed script: the lexer reads the text of each condition, action and rule as the
    tokens it stands for, the comments and the line ends between them as nothing, and the whole script
    as the tokens of its rules in order. */
module SievePrinted {
  import opened Text
  import opened SieveLex
  import opened SieveRules
  import opened SievePieces
  import P = SieveParse

  // ---- what can be printed ------------------------------------------------

  /** A condition whose unquoted parts are single tokens: a known match type, or a decimal size. */
  predicate LegalTest(t: RuleTest) {
    if t.field == "size" then t.value == Num(DecValue(t.value)) else P.IsMatchType(t.op)
  }

  // ---- conditions ---------------------------------------------------------

  function ConditionCore(t: RuleTest): seq<Token> {
    if t.field == "size" then [Ident("size"), Tag(if t.op == "under" then "under" else "over"), Number(DecValue(t.value))]
    else if t.field == "body" then [Ident("body"), Tag("text"), Tag(t.op), Str(Clean(t.value))]
    else [Ident("header"), Tag(t.op), Str(Clean(HeaderName(t.field))), Str(Clean(t.value))]
  }

  function ConditionTokens(t: RuleTest): seq<Token> {
    (if t.negate then [Ident("not")] else []) + ConditionCore(t)
  }

  function Commas(ts: seq<RuleTest>): seq<Token> {
    if ts == [] then []
    else if |ts| == 1 then ConditionTokens(ts[0])
    else ConditionTokens(ts[0]) + ([Comma] + Commas(ts[1..]))
  }

  function TestTokens(r: Rule): seq<Token> {
    if r.tests == [] then [Ident("true")]
    else if |r.tests| == 1 then ConditionTokens(r.tests[0])
    else [Ident(if r.all then "allof" else "anyof")] + ([LParen] + (Commas(r.tests) + [RParen]))
  }

  /** A word and the space after it. */
  lemma LexesWordSpace(w: string)
    requires LowerName(w) && w != "" && !IsDigit(w[0]) && w != "text"
    ensures Lexes(w + " ", [Ident(w)], false)
  {
    hide Lexes;
    LexesWord(w);
    LexesSpace(" ");
    Join(w, [Ident(w)], true, " ", [], false);
    assert [Ident(w)] + [] == [Ident(w)];
  }

  /** A tag and the space after it. */
  lemma LexesTagSpace(w: string)
    requires LowerName(w) && w != ""
    ensures Lexes((":" + w) + " ", [Tag(w)], false)
  {
    hide Lexes;
    LexesTag(w);
    LexesSpace(" ");
    Join(":" + w, [Tag(w)], true, " ", [], false);
    assert [Tag(w)] + [] == [Tag(w)];
  }

  /** Glue between pieces: prepend one that may stand before anything. */
  lemma Front(a: string, ta: seq<Token>, b: string, tb: seq<Token>, openB: bool)
    requires Lexes(a, ta, false) && Lexes(b, tb, openB)
    ensures Lexes(a + b, ta + tb, openB)
  {
    Join(a, ta, false, b, tb, openB);
  }

  lemma LexesSizeCondition(op: string, value: string)
    requires (op == "over" || op == "under") && value == Num(DecValue(value))
    ensures Lexes("size :" + (op + (" " + value)), [Ident("size"), Tag(op), Number(DecValue(value))], true)
  {
    hide Lexes, LowerName, Num, DecValue;
    assert LowerName("size") && LowerName("over") && LowerName("under") by {
      KnownNames();
    }
    LexesWordSpace("size");
    LexesTagSpace(op);
    LexesNumber(DecValue(value));
    Front((":" + op) + " ", [Tag(op)], value, [Number(DecValue(value))], true);
    assert "size" + " " == "size ";
    Front("size ", [Ident("size")], ((":" + op) + " ") + value, [Tag(op)] + [Number(DecValue(value))], true);
    assert "size " + (((":" + op) + " ") + value) == "size :" + (op + (" " + value));
    assert [Ident("size")] + ([Tag(op)] + [Number(DecValue(value))]) == [Ident("size"), Tag(op), Number(DecValue(value))];
  }

  lemma LexesBodyCondition(op: string, value: string)
    requires P.IsMatchType(op)
    ensures Lexes("body :text :" + (op + (" " + QuoteOf(value))), [Ident("body"), Tag("text"), Tag(op), Str(Clean(value))], false)
  {
    hide Lexes, LowerName, QuoteOf, Clean;
    KnownNames();
    var q, v := QuoteOf(value), Str(Clean(value));
    LexesWordSpace("body");
    LexesTagSpace("text");
    LexesTagSpace(op);
    LexesQuote(value);
    Front((":" + op) + " ", [Tag(op)], q, [v], false);
    Front((":" + "text") + " ", [Tag("text")], ((":" + op) + " ") + q, [Tag(op)] + [v], false);
    Front("body" + " ", [Ident("body")], ((":" + "text") + " ") + (((":" + op) + " ") + q), [Tag("text")] + ([Tag(op)] + [v]), false);
    assert ("body" + " ") + (((":" + "text") + " ") + (((":" + op) + " ") + q)) == "body :text :" + (op + (" " + q));
    assert [Ident("body")] + ([Tag("text")] + ([Tag(op)] + [v])) == [Ident("body"), Tag("text"), Tag(op), v];
  }

  lemma LexesHeaderCondition(op: string, header: string, value: string)
    requires P.IsMatchType(op)
    ensures Lexes("header :" + (op + (" " + (QuoteOf(header) + (" " + QuoteOf(value))))),
                  [Ident("header"), Tag(op), Str(Clean(header)), Str(Clean(value))], false)
  {
    hide Lexes, LowerName, QuoteOf, Clean;
    KnownNames();
    var h, q, th, tq := QuoteOf(header), QuoteOf(value), Str(Clean(header)), Str(Clean(value));
    LexesWordSpace("header");
    LexesTagSpace(op);
    LexesQuote(header);
    LexesQuote(value);
    LexesSpace(" ");
    Front(" ", [], q, [tq], false);
    assert [] + [tq] == [tq];
    Front(h, [th], " " + q, [tq], false);
    Front((":" + op) + " ", [Tag(op)], h + (" " + q), [th] + [tq], false);
    Front("header" + " ", [Ident("header")], ((":" + op) + " ") + (h + (" " + q)), [Tag(op)] + ([th] + [tq]), false);
    var tail := h + (" " + q);
    assert ("header" + " ") + (((":" + op) + " ") + tail) == "header :" + (op + (" " + tail));
    assert [Ident("header")] + ([Tag(op)] + ([th] + [tq])) == [Ident("header"), Tag(op), th, tq];
  }

  /** The names the writer prints are lower-case words. */
  lemma KnownNames()
    ensures LowerName("size") && LowerName("body") && LowerName("header") && LowerName("not") && LowerName("true")
    ensures LowerName("allof") && LowerName("anyof") && LowerName("if") && LowerName("require")
    ensures LowerName("over") && LowerName("under") && LowerName("text")
    ensures LowerName("is") && LowerName("contains") && LowerName("matches")
  {
    hide LowerName;
    LowerLetters("size");
    LowerLetters("body");
    LowerLetters("header");
    LowerLetters("not");
    LowerLetters("true");
    LowerLetters("allof");
    LowerLetters("anyof");
    LowerLetters("if");
    LowerLetters("require");
    LowerLetters("over");
    LowerLetters("under");
    LowerLetters("text");
    LowerLetters("is");
    LowerLetters("contains");
    LowerLetters("matches");
  }

  lemma KnownActions()
    ensures LowerName("fileinto") && LowerName("redirect") && LowerName("reject") && LowerName("discard")
    ensures LowerName("vacation") && LowerName("keep") && LowerName("stop")
    ensures LowerName("create") && LowerName("flags") && LowerName("days") && LowerName("mime")
    ensures LowerName("subject") && LowerName("from") && LowerName("handle") && LowerName("addresses")
  {
    hide LowerName;
    LowerLetters("fileinto");
    LowerLetters("redirect");
    LowerLetters("reject");
    LowerLetters("discard");
    LowerLetters("vacation");
    LowerLetters("keep");
    LowerLetters("stop");
    LowerLetters("create");
    LowerLetters("flags");
    LowerLetters("days");
    LowerLetters("mime");
    LowerLetters("subject");
    LowerLetters("from");
    LowerLetters("handle");
    LowerLetters("addresses");
  }

  /** A condition, which only a boundary may follow when it ends in a number. */
  lemma LexesCondition(t: RuleTest)
    requires LegalTest(t)
    ensures Lexes(ConditionText(t), ConditionTokens(t), true)
  {
    hide Lexes, QuoteOf, Clean, Num, DecValue, LowerName, HeaderName;
    var core := if t.field == "size" then "size :" + ((if t.op == "under" then "under" else "over") + (" " + t.value))
                else if t.field == "body" then "body :text :" + (t.op + (" " + QuoteOf(t.value)))
                else "header :" + (t.op + (" " + (QuoteOf(HeaderName(t.field)) + (" " + QuoteOf(t.value)))));
    if t.field == "size" {
      LexesSizeCondition(if t.op == "under" then "under" else "over", t.value);
    } else if t.field == "body" {
      LexesBodyCondition(t.op, t.value);
      Weaken(core, ConditionCore(t));
    } else {
      LexesHeaderCondition(t.op, HeaderName(t.field), t.value);
      Weaken(core, ConditionCore(t));
    }
    if t.negate {
      KnownNames();
      LexesWordSpace("not");
      Front("not" + " ", [Ident("not")], core, ConditionCore(t), true);
      assert "not" + " " == "not ";
    } else {
      assert "" + core == core && [] + ConditionCore(t) == ConditionCore(t);
    }
  }

  lemma Weaken(text: string, tokens: seq<Token>)
    requires Lexes(text, tokens, false)
    ensures Lexes(text, tokens, true)
  {
    forall rest: string | Follows(true, rest)
      ensures Lex(text + rest) == After(tokens, Lex(rest))
    {
      Apply(text, tokens, false, rest);
    }
  }

  predicate AllLegal(ts: seq<RuleTest>) {
    ts == [] || (LegalTest(ts[0]) && AllLegal(ts[1..]))
  }

  lemma {:induction false} LexesConditions(ts: seq<RuleTest>)
    requires ts != [] && AllLegal(ts)
    ensures Lexes(ConditionList(ts), Commas(ts), true)
  {
    hide Lexes, ConditionText, ConditionTokens, LegalTest;
    LexesCondition(ts[0]);
    if |ts| > 1 {
      LexesConditions(ts[1..]);
      LexesSign(',');
      LexesSpace(" ");
      Front(",", [Comma], " ", [], false);
      assert "," + " " == ", " && [Comma] + [] == [Comma];
      Front(", ", [Comma], ConditionList(ts[1..]), Commas(ts[1..]), true);
      assert (", " + ConditionList(ts[1..]))[0] == ',';
      Join(ConditionText(ts[0]), ConditionTokens(ts[0]), true, ", " + ConditionList(ts[1..]), [Comma] + Commas(ts[1..]), true);
    }
  }

  lemma LexesTest(r: Rule)
    requires AllLegal(r.tests)
    ensures Lexes(TestText(r), TestTokens(r), true)
  {
    hide Lexes, ConditionText, ConditionTokens, ConditionList, Commas, LegalTest, LowerName;
    KnownNames();
    if r.tests == [] {
      LexesWord("true");
    } else if |r.tests| == 1 {
      LexesCondition(r.tests[0]);
    } else {
      var w := if r.all then "allof" else "anyof";
      LexesConditions(r.tests);
      LexesSign(')');
      LexesSign('(');
      LexesWordSpace(w);
      Join(ConditionList(r.tests), Commas(r.tests), true, ")", [RParen], false);
      Front("(", [LParen], ConditionList(r.tests) + ")", Commas(r.tests) + [RParen], false);
      Front(w + " ", [Ident(w)], "(" + (ConditionList(r.tests) + ")"), [LParen] + (Commas(r.tests) + [RParen]), false);
      var inner := ConditionList(r.tests) + ")";
      assert (w + " ") + ("(" + inner) == w + (" (" + inner);
      Weaken(TestText(r), TestTokens(r));
    }
  }

  // ---- lists --------------------------------------------------------------

  function Items(items: seq<string>): seq<Token> {
    if items == [] then []
    else if |items| == 1 then [Str(Clean(items[0]))]
    else [Str(Clean(items[0]))] + ([Comma] + Items(items[1..]))
  }

  function ListTokens(items: seq<string>): seq<Token> {
    [LBracket] + (Items(items) + [RBracket])
  }

  lemma {:induction false} LexesItems(items: seq<string>)
    ensures Lexes(QuoteList(items), Items(items), false)
  {
    hide Lexes, QuoteOf, Clean;
    if items == [] {
      LexesSpace("");
    } else {
      LexesQuote(items[0]);
      if |items| > 1 {
        LexesItems(items[1..]);
        LexesSign(',');
        LexesSpace(" ");
        Front(",", [Comma], " ", [], false);
        assert "," + " " == ", " && [Comma] + [] == [Comma];
        Front(", ", [Comma], QuoteList(items[1..]), Items(items[1..]), false);
        Front(QuoteOf(items[0]), [Str(Clean(items[0]))], ", " + QuoteList(items[1..]), [Comma] + Items(items[1..]), false);
      }
    }
  }

  lemma LexesList(items: seq<string>)
    ensures Lexes(ListOf(items), ListTokens(items), false)
  {
    hide Lexes, QuoteList, Items;
    LexesItems(items);
    LexesSign('[');
    LexesSign(']');
    Front(QuoteList(items), Items(items), "]", [RBracket], false);
    Front("[", [LBracket], QuoteList(items) + "]", Items(items) + [RBracket], false);
  }

  // ---- actions ------------------------------------------------------------

  function FlagTokens(flags: seq<string>): seq<Token> {
    if flags == [] then [] else [Tag("flags")] + ListTokens(flags)
  }

  function TaggedTokens(tag: string, value: string): seq<Token> {
    if value == "" then [] else [Tag(tag), Str(Clean(value))]
  }

  function AddressTokens(addresses: seq<string>): seq<Token> {
    if addresses == [] then [] else [Tag("addresses")] + ListTokens(addresses)
  }

  function DaysTokens(days: int): seq<Token> {
    if days > 0 && days != 7 then [Tag("days"), Number(days)] else []
  }

  function VacationTokens(v: VacationSpec): seq<Token> {
    DaysTokens(v.days) +
    ((if v.mime then [Tag("mime")] else []) +
     (TaggedTokens("subject", v.subject) +
      (TaggedTokens("from", v.from) +
       (TaggedTokens("handle", v.handle) + AddressTokens(v.addresses)))))
  }

  function ActionTokens(a: Action): seq<Token> {
    match a
    case FileInto(folder, create, flags) =>
      [Ident("fileinto")] + ((if create then [Tag("create")] else []) + (FlagTokens(flags) + [Str(Clean(folder)), Semicolon]))
    case Redirect(address) => [Ident("redirect"), Str(Clean(address)), Semicolon]
    case Reject(reason) => [Ident("reject"), Str(ReasonValue(reason)), Semicolon]
    case Discard => [Ident("discard"), Semicolon]
    case Vacation(v, reason) => [Ident("vacation")] + (VacationTokens(v) + [Str(ReasonValue(reason)), Semicolon])
    case Keep(flags) => [Ident("keep")] + (FlagTokens(flags) + [Semicolon])
  }

  function ActionsTokens(actions: seq<Action>): seq<Token> {
    if actions == [] then [] else ActionTokens(actions[0]) + ActionsTokens(actions[1..])
  }

  /** Text that is empty or starts with a space, so that a word may stand before it. */
  predicate Spaced(s: string) {
    s == "" || s[0] == ' '
  }

  lemma LexesFlagTag(flags: seq<string>)
    ensures Lexes(FlagTag(flags), FlagTokens(flags), false) && Spaced(FlagTag(flags))
  {
    hide Lexes, ListOf, ListTokens, LowerName;
    if flags == [] {
      LexesSpace("");
    } else {
      KnownActions();
      LexesSpace(" ");
      LexesTagSpace("flags");
      LexesList(flags);
      Front((":" + "flags") + " ", [Tag("flags")], ListOf(flags), ListTokens(flags), false);
      Front(" ", [], ((":" + "flags") + " ") + ListOf(flags), [Tag("flags")] + ListTokens(flags), false);
      assert " " + (((":" + "flags") + " ") + ListOf(flags)) == " :flags " + ListOf(flags);
      assert [] + ([Tag("flags")] + ListTokens(flags)) == [Tag("flags")] + ListTokens(flags);
    }
  }

  lemma LexesTagged(tag: string, value: string)
    requires LowerName(tag) && tag != ""
    ensures Lexes(Tagged(tag, value), TaggedTokens(tag, value), false) && Spaced(Tagged(tag, value))
  {
    hide Lexes, QuoteOf, Clean, LowerName;
    if value == "" {
      LexesSpace("");
    } else {
      var q, tq := QuoteOf(value), Str(Clean(value));
      LexesSpace(" ");
      LexesTagSpace(tag);
      LexesQuote(value);
      Front((":" + tag) + " ", [Tag(tag)], q, [tq], false);
      Front(" ", [], ((":" + tag) + " ") + q, [Tag(tag)] + [tq], false);
      assert " " + (((":" + tag) + " ") + q) == " :" + (tag + (" " + q));
      assert [] + ([Tag(tag)] + [tq]) == [Tag(tag), tq];
    }
  }

  lemma LexesAddresses(addresses: seq<string>)
    ensures var text := if addresses == [] then "" else " :addresses " + ListOf(addresses);
            Lexes(text, AddressTokens(addresses), false) && Spaced(text)
  {
    hide Lexes, ListOf, ListTokens, LowerName;
    if addresses == [] {
      LexesSpace("");
    } else {
      KnownActions();
      LexesSpace(" ");
      LexesTagSpace("addresses");
      LexesList(addresses);
      var l := ListOf(addresses);
      Front((":" + "addresses") + " ", [Tag("addresses")], l, ListTokens(addresses), false);
      Front(" ", [], ((":" + "addresses") + " ") + l, [Tag("addresses")] + ListTokens(addresses), false);
      assert " " + (((":" + "addresses") + " ") + l) == " :addresses " + l;
      assert [] + ([Tag("addresses")] + ListTokens(addresses)) == [Tag("addresses")] + ListTokens(addresses);
    }
  }

  /** The days and mime tags, which end openly, in front of text that starts with a space. */
  lemma LexesOpenTag(tag: string, tail: string, tokens: seq<Token>)
    requires LowerName(tag) && tag != "" && Lexes(tail, tokens, false) && tail != "" && tail[0] == ' '
    ensures Lexes((" :" + tag) + tail, [Tag(tag)] + tokens, false)
  {
    hide Lexes, LowerName;
    LexesSpace(" ");
    LexesTag(tag);
    Front(" ", [], ":" + tag, [Tag(tag)], true);
    assert " " + (":" + tag) == " :" + tag && [] + [Tag(tag)] == [Tag(tag)];
    Join(" :" + tag, [Tag(tag)], true, tail, tokens, false);
  }

  lemma LexesDays(days: int, tail: string, tokens: seq<Token>)
    requires Lexes(tail, tokens, false) && tail != "" && tail[0] == ' '
    ensures var text := if days > 0 && days != 7 then " :days " + Num(days) else "";
            Lexes(text + tail, DaysTokens(days) + tokens, false) && (text + tail)[0] == ' '
  {
    hide Lexes, LowerName, Num;
    if days > 0 && days != 7 {
      KnownActions();
      LexesSpace(" ");
      LexesTagSpace("days");
      LexesNumber(days);
      Front((":" + "days") + " ", [Tag("days")], Num(days), [Number(days)], true);
      Front(" ", [], ((":" + "days") + " ") + Num(days), [Tag("days")] + [Number(days)], true);
      assert " " + (((":" + "days") + " ") + Num(days)) == " :days " + Num(days);
      assert [] + ([Tag("days")] + [Number(days)]) == DaysTokens(days);
      Join(" :days " + Num(days), DaysTokens(days), true, tail, tokens, false);
    } else {
      assert "" + tail == tail && [] + tokens == tokens;
    }
  }

  lemma LexesMime(mime: bool, tail: string, tokens: seq<Token>)
    requires Lexes(tail, tokens, false) && tail != "" && tail[0] == ' '
    ensures var text := if mime then " :mime" else "";
            Lexes(text + tail, (if mime then [Tag("mime")] else []) + tokens, false) && (text + tail)[0] == ' '
  {
    hide Lexes, LowerName;
    if mime {
      KnownActions();
      LexesOpenTag("mime", tail, tokens);
      assert " :" + "mime" == " :mime";
    } else {
      assert "" + tail == tail && [] + tokens == tokens;
    }
  }

  /** Optional text in front of text that starts with a space. */
  lemma FrontSpaced(a: string, ta: seq<Token>, b: string, tb: seq<Token>)
    requires Lexes(a, ta, false) && Spaced(a) && Lexes(b, tb, false) && b != "" && b[0] == ' '
    ensures Lexes(a + b, ta + tb, false) && a + b != "" && (a + b)[0] == ' '
  {
    hide Lexes;
    Front(a, ta, b, tb, false);
  }

  /** The closing of a command: a string and a semicolon, after a space. */
  lemma LexesArgument(text: string, t: Token)
    requires Lexes(text, [t], false)
    ensures Lexes(" " + (text + ";\n"), [t, Semicolon], false)
  {
    hide Lexes;
    LexesSpace(" ");
    LexesEnd();
    Front(text, [t], ";\n", [Semicolon], false);
    Front(" ", [], text + ";\n", [t] + [Semicolon], false);
    assert [] + ([t] + [Semicolon]) == [t, Semicolon];
  }

  lemma LexesEnd()
    ensures Lexes(";\n", [Semicolon], false)
  {
    hide Lexes;
    LexesSign(';');
    LexesSpace("\n");
    Front(";", [Semicolon], "\n", [], false);
    assert ";" + "\n" == ";\n" && [Semicolon] + [] == [Semicolon];
  }

  /** A command name, indented, in front of text that starts at a boundary. */
  lemma LexesCommand(name: string, tail: string, tokens: seq<Token>)
    requires LowerName(name) && name != "" && !IsDigit(name[0]) && name != "text"
    requires Lexes(tail, tokens, false) && tail != "" && (tail[0] == ' ' || tail[0] == ';')
    ensures Lexes(("    " + name) + tail, [Ident(name)] + tokens, false)
  {
    hide Lexes, LowerName;
    LexesSpace("    ");
    LexesWord(name);
    Front("    ", [], name, [Ident(name)], true);
    assert [] + [Ident(name)] == [Ident(name)];
    Join("    " + name, [Ident(name)], true, tail, tokens, false);
  }

  lemma LexesVacation(v: VacationSpec, reason: string)
    ensures var tail := VacationTags(v) + (" " + (QuoteOrTextOf(reason) + ";\n"));
            Lexes(tail, VacationTokens(v) + [Str(ReasonValue(reason)), Semicolon], false) && tail != "" && tail[0] == ' '
  {
    hide Lexes, LowerName, Tagged, TaggedTokens, ListOf, ListTokens, AddressTokens, DaysTokens, QuoteOrTextOf, ReasonValue, Num;
    var t0 := " " + (QuoteOrTextOf(reason) + ";\n");
    var k0 := [Str(ReasonValue(reason)), Semicolon];
    LexesReason(reason);
    LexesArgument(QuoteOrTextOf(reason), Str(ReasonValue(reason)));
    KnownActions();
    var addresses := if v.addresses == [] then "" else " :addresses " + ListOf(v.addresses);
    LexesAddresses(v.addresses);
    LexesTagged("handle", v.handle);
    LexesTagged("from", v.from);
    LexesTagged("subject", v.subject);
    var t1, k1 := addresses + t0, AddressTokens(v.addresses) + k0;
    FrontSpaced(addresses, AddressTokens(v.addresses), t0, k0);
    var t2, k2 := Tagged("handle", v.handle) + t1, TaggedTokens("handle", v.handle) + k1;
    FrontSpaced(Tagged("handle", v.handle), TaggedTokens("handle", v.handle), t1, k1);
    var t3, k3 := Tagged("from", v.from) + t2, TaggedTokens("from", v.from) + k2;
    FrontSpaced(Tagged("from", v.from), TaggedTokens("from", v.from), t2, k2);
    var t4, k4 := Tagged("subject", v.subject) + t3, TaggedTokens("subject", v.subject) + k3;
    FrontSpaced(Tagged("subject", v.subject), TaggedTokens("subject", v.subject), t3, k3);
    var mime, km := if v.mime then " :mime" else "", if v.mime then [Tag("mime")] else [];
    var t5, k5 := mime + t4, km + k4;
    LexesMime(v.mime, t4, k4);
    var days := if v.days > 0 && v.days != 7 then " :days " + Num(v.days) else "";
    LexesDays(v.days, t5, k5);
    Nest6(days, mime, Tagged("subject", v.subject), Tagged("from", v.from), Tagged("handle", v.handle), addresses, t0);
    Nest6(DaysTokens(v.days), km, TaggedTokens("subject", v.subject), TaggedTokens("from", v.from),
          TaggedTokens("handle", v.handle), AddressTokens(v.addresses), k0);
  }

  lemma Nest6<T>(a: seq<T>, b: seq<T>, c: seq<T>, d: seq<T>, e: seq<T>, f: seq<T>, g: seq<T>)
    ensures (a + (b + (c + (d + (e + f))))) + g == a + (b + (c + (d + (e + (f + g)))))
  {
    Assoc(e, f, g);
    Assoc(d, e + f, g);
    Assoc(c, d + (e + f), g);
    Assoc(b, c + (d + (e + f)), g);
    Assoc(a, b + (c + (d + (e + f))), g);
  }

  lemma LexesFileInto(folder: string, create: bool, flags: seq<string>)
    ensures Lexes(ActionText(FileInto(folder, create, flags)), ActionTokens(FileInto(folder, create, flags)), false)
  {
    hide Lexes, LowerName, FlagTag, FlagTokens, QuoteOf, Clean;
    KnownActions();
    var arg, targ := " " + (QuoteOf(folder) + ";\n"), [Str(Clean(folder)), Semicolon];
    LexesQuote(folder);
    LexesArgument(QuoteOf(folder), Str(Clean(folder)));
    LexesFlagTag(flags);
    FrontSpaced(FlagTag(flags), FlagTokens(flags), arg, targ);
    var tail, tokens := FlagTag(flags) + arg, FlagTokens(flags) + targ;
    if create {
      LexesOpenTag("create", tail, tokens);
      assert " :" + "create" == " :create";
      LexesCommand("fileinto", " :create" + tail, [Tag("create")] + tokens);
    } else {
      assert "" + tail == tail && [] + tokens == tokens;
      LexesCommand("fileinto", tail, tokens);
    }
    assert "    " + "fileinto" == "    fileinto";
  }

  lemma LexesAction(a: Action)
    ensures Lexes(ActionText(a), ActionTokens(a), false)
  {
    hide Lexes, LowerName, FlagTag, FlagTokens, QuoteOf, Clean, QuoteOrTextOf, ReasonValue, VacationTags, VacationTokens;
    KnownActions();
    match a {
      case FileInto(folder, create, flags) =>
        LexesFileInto(folder, create, flags);
      case Redirect(address) =>
        LexesQuote(address);
        LexesArgument(QuoteOf(address), Str(Clean(address)));
        LexesCommand("redirect", " " + (QuoteOf(address) + ";\n"), [Str(Clean(address)), Semicolon]);
        var tail := QuoteOf(address) + ";\n";
        assert ("    " + "redirect") + (" " + tail) == "    redirect " + tail;
        assert [Ident("redirect")] + [Str(Clean(address)), Semicolon] == ActionTokens(a);
      case Reject(reason) =>
        LexesReason(reason);
        LexesArgument(QuoteOrTextOf(reason), Str(ReasonValue(reason)));
        LexesCommand("reject", " " + (QuoteOrTextOf(reason) + ";\n"), [Str(ReasonValue(reason)), Semicolon]);
        var tail := QuoteOrTextOf(reason) + ";\n";
        assert ("    " + "reject") + (" " + tail) == "    reject " + tail;
        assert [Ident("reject")] + [Str(ReasonValue(reason)), Semicolon] == ActionTokens(a);
      case Discard =>
        LexesEnd();
        LexesCommand("discard", ";\n", [Semicolon]);
        assert ("    " + "discard") + ";\n" == "    discard;\n";
        assert [Ident("discard")] + [Semicolon] == ActionTokens(a);
      case Vacation(v, reason) =>
        LexesVacation(v, reason);
        LexesCommand("vacation", VacationTags(v) + (" " + (QuoteOrTextOf(reason) + ";\n")),
                     VacationTokens(v) + [Str(ReasonValue(reason)), Semicolon]);
        assert "    " + "vacation" == "    vacation";
      case Keep(flags) =>
        LexesFlagTag(flags);
        LexesEnd();
        Front(FlagTag(flags), FlagTokens(flags), ";\n", [Semicolon], false);
        LexesCommand("keep", FlagTag(flags) + ";\n", FlagTokens(flags) + [Semicolon]);
        assert "    " + "keep" == "    keep";
    }
  }

  lemma {:induction false} LexesActions(actions: seq<Action>)
    ensures Lexes(ActionsText(actions), ActionsTokens(actions), false)
  {
    hide Lexes, ActionText, ActionTokens;
    if actions == [] {
      LexesSpace("");
    } else {
      LexesAction(actions[0]);
      LexesActions(actions[1..]);
      Front(ActionText(actions[0]), ActionTokens(actions[0]), ActionsText(actions[1..]), ActionsTokens(actions[1..]), false);
    }
  }

  // ---- rules --------------------------------------------------------------

  function StopTokens(stop: bool): seq<Token> {
    (if stop then [Ident("stop"), Semicolon] else []) + [RBrace]
  }

  function RuleTokens(r: Rule): seq<Token> {
    if r.actions == [] then []
    else [Ident("if")] + (TestTokens(r) + ([LBrace] + (ActionsTokens(r.actions) + StopTokens(r.stop))))
  }

  function RulesTokens(rules: seq<Rule>): seq<Token> {
    if rules == [] then [] else RuleTokens(rules[0]) + RulesTokens(rules[1..])
  }

  function RequireTokens(needed: seq<string>): seq<Token> {
    if needed == [] then [] else [Ident("require")] + (ListTokens(needed) + [Semicolon])
  }

  lemma LexesStop(stop: bool)
    ensures Lexes((if stop then "    stop;\n" else "") + "}\n", StopTokens(stop), false)
  {
    hide Lexes, LowerName;
    LexesSign('}');
    LexesSpace("\n");
    Front("}", [RBrace], "\n", [], false);
    assert "}" + "\n" == "}\n" && [RBrace] + [] == [RBrace];
    if stop {
      KnownActions();
      LexesEnd();
      LexesCommand("stop", ";\n", [Semicolon]);
      assert ("    " + "stop") + ";\n" == "    stop;\n" && [Ident("stop")] + [Semicolon] == [Ident("stop"), Semicolon];
      Front("    stop;\n", [Ident("stop"), Semicolon], "}\n", [RBrace], false);
    } else {
      assert "" + "}\n" == "}\n" && [] + [RBrace] == [RBrace];
    }
  }

  lemma {:induction false} FlattenedNameHasNoNewline(name: string)
    ensures NoNewline(Flatten1(name))
  {
    if name != "" {
      FlattenedNameHasNoNewline(name[1..]);
    }
  }

  lemma LexesName(name: string)
    ensures Lexes(NameText(name), [], false)
  {
    hide Lexes, Flatten1;
    if name == "" {
      LexesSpace("");
    } else {
      FlattenedNameHasNoNewline(name);
      var c := "# rule: " + Flatten1(name);
      assert NoNewline("# rule: ");
      assert NoNewline(c);
      LexesComment(c);
      Assoc("# rule: ", Flatten1(name), "\n");
    }
  }

  lemma LexesRule(r: Rule)
    requires AllLegal(r.tests)
    ensures Lexes(RuleText(r), RuleTokens(r), false)
  {
    hide Lexes, NameText, TestText, TestTokens, ActionsText, ActionsTokens, StopTokens, AllLegal, LowerName;
    if r.actions == [] {
      LexesSpace("");
    } else {
      KnownNames();
      var end := (if r.stop then "    stop;\n" else "") + "}\n";
      LexesStop(r.stop);
      LexesActions(r.actions);
      var t1, k1 := ActionsText(r.actions) + end, ActionsTokens(r.actions) + StopTokens(r.stop);
      Front(ActionsText(r.actions), ActionsTokens(r.actions), end, StopTokens(r.stop), false);
      LexesOpening();
      Front(" {\n", [LBrace], t1, k1, false);
      var t2, k2 := " {\n" + t1, [LBrace] + k1;
      LexesTest(r);
      Join(TestText(r), TestTokens(r), true, t2, k2, false);
      var t3, k3 := TestText(r) + t2, TestTokens(r) + k2;
      LexesWordSpace("if");
      assert "if" + " " == "if ";
      Front("if ", [Ident("if")], t3, k3, false);
      LexesName(r.name);
      Front(NameText(r.name), [], "if " + t3, [Ident("if")] + k3, false);
      LexesSpace("\n");
      Front("\n", [], NameText(r.name) + ("if " + t3), [] + ([Ident("if")] + k3), false);
      assert [] + ([] + ([Ident("if")] + k3)) == [Ident("if")] + k3;
    }
  }

  lemma LexesOpening()
    ensures Lexes(" {\n", [LBrace], false)
  {
    hide Lexes;
    LexesSpace(" ");
    LexesSign('{');
    LexesSpace("\n");
    Front("{", [LBrace], "\n", [], false);
    Front(" ", [], "{" + "\n", [LBrace] + [], false);
    assert " " + ("{" + "\n") == " {\n" && [] + ([LBrace] + []) == [LBrace];
  }

  predicate RulesLegal(rules: seq<Rule>) {
    rules == [] || (AllLegal(rules[0].tests) && RulesLegal(rules[1..]))
  }

  lemma {:induction false} LexesRules(rules: seq<Rule>)
    requires RulesLegal(rules)
    ensures Lexes(RulesText(rules), RulesTokens(rules), false)
  {
    hide Lexes, RuleText, RuleTokens, AllLegal;
    if rules == [] {
      LexesSpace("");
    } else {
      LexesRule(rules[0]);
      LexesRules(rules[1..]);
      Front(RuleText(rules[0]), RuleTokens(rules[0]), RulesText(rules[1..]), RulesTokens(rules[1..]), false);
    }
  }

  lemma LexesRequire(needed: seq<string>)
    ensures Lexes(RequireText(needed), RequireTokens(needed), false)
  {
    hide Lexes, ListOf, ListTokens, LowerName;
    if needed == [] {
      LexesSpace("");
    } else {
      KnownNames();
      LexesList(needed);
      LexesEnd();
      Front(ListOf(needed), ListTokens(needed), ";\n", [Semicolon], false);
      LexesWordSpace("require");
      assert "require" + " " == "require ";
      Front("require ", [Ident("require")], ListOf(needed) + ";\n", ListTokens(needed) + [Semicolon], false);
    }
  }

  lemma LexesBanner()
    ensures Lexes(BANNER, [], false) && Lexes(HINT, [], false)
  {
    hide Lexes;
    var b, h1, h2 := "# Generated by the QuackCit rule editor.", "# Editing this text by hand is fine: ", "the rules are read back from it.";
    var h := h1 + h2;
    assert NoNewline(b) && NoNewline(h1) && NoNewline(h2);
    LexesComment(b);
    assert h[0] == h1[0];
    LexesComment(h);
    Assoc(h1, h2, "\n");
    assert b + "\n" == BANNER && h + "\n" == HINT;
  }

  /** The tokens of a whole printed script. */
  function ScriptTokens(rules: seq<Rule>): seq<Token> {
    RequireTokens(NeedOfRules([], rules)) + RulesTokens(rules)
  }

  lemma PrintedScriptLexes(rules: seq<Rule>)
    requires RulesLegal(rules)
    ensures Lex(ComposeOf(rules)) == Some(ScriptTokens(rules) + [End])
  {
    hide Lexes, Lex, RequireText, RequireTokens, RulesText, RulesTokens, NeedOfRules, RulesLegal;
    var needed := NeedOfRules([], rules);
    LexesRequire(needed);
    LexesRules(rules);
    LexesBanner();
    var t, k := RequireText(needed) + RulesText(rules), ScriptTokens(rules);
    Front(RequireText(needed), RequireTokens(needed), RulesText(rules), RulesTokens(rules), false);
    Front(HINT, [], t, k, false);
    Front(BANNER, [], HINT + t, [] + k, false);
    assert [] + ([] + k) == k;
    Apply(ComposeOf(rules), k, false, "");
    assert ComposeOf(rules) + "" == ComposeOf(rules);
    LexEmpty();
  }

  lemma LexEmpty()
    ensures Lex("") == Some([End])
  {
  }
}
