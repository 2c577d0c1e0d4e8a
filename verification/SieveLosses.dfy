/** Scripts that the rule view shows as something they are not (core/src/sieve.cpp): for each of the exceptions under
    which opening and saving a script changes nothing, an input on which it changes what becomes of a message. */
module SieveLosses {
  import opened Text
  import opened SieveVariables
  import opened SieveTests
  import opened SieveRun
  import opened SieveRules
  import opened SieveSurvives
  import opened SieveMeaning
  import opened SieveDelivery
  import L = SieveLex
  import P = SieveParse
  import W = SieveSyntax
  import S = SieveSpelling
  import SieveReads
  import PT = SievePrinted
  import RT = SieveRoundTrip
  import N = SieveNames

  // ---- a text for given tokens --------------------------------------------

  /** Words, tags, strings and signs. */
  predicate Ordinary(t: L.Token) {
    match t
    case Ident(w) => w != "" && S.AllIn(L.Names, w) && !IsDigit(w[0]) && ToLower(w) == w
    case Tag(w) => w != "" && S.AllIn(L.Tags, w) && ToLower(w) == w
    case Number(_) => false
    case End => false
    case _ => true
  }

  predicate AllOrdinary(ts: seq<L.Token>) {
    ts == [] || (Ordinary(ts[0]) && AllOrdinary(ts[1..]))
  }

  function Chars(s: string): seq<S.QuotedChar> {
    if s == "" then [] else [if s[0] == '"' || s[0] == '\\' then S.Escaped(s[0]) else S.Bare(s[0])] + Chars(s[1..])
  }

  lemma {:induction false} CharsAreText(s: string)
    ensures S.LegalQuoted(Chars(s)) && S.QuotedText(Chars(s)) == s
  {
    if s != "" {
      CharsAreText(s[1..]);
      assert Chars(s)[1..] == Chars(s[1..]);
      assert s == [s[0]] + s[1..];
    }
  }

  function SpellingOf(t: L.Token): S.Spelling {
    match t
    case Ident(w) => S.Name(w)
    case Tag(w) => S.Tagged(w)
    case Str(s) => S.InQuotes(Chars(s))
    case _ => S.Sign(t)
  }

  /** Each token after a blank. */
  function Pieces(ts: seq<L.Token>): seq<S.Piece> {
    if ts == [] then [] else [S.Piece([S.Space(' ')], SpellingOf(ts[0]))] + Pieces(ts[1..])
  }

  lemma {:induction false} PiecesSpell(ts: seq<L.Token>)
    requires AllOrdinary(ts)
    ensures S.LegalText(Pieces(ts), []) && S.TokensOf(Pieces(ts)) == ts + [L.End]
    ensures var text := S.PutText(Pieces(ts), []); text == "" || text[0] == ' '
  {
    hide Ordinary, SpellingOf, S.LegalToken, S.TokenOf, S.PutToken;
    if ts == [] {
      assert ts + [L.End] == [L.End];
    } else {
      PiecesSpell(ts[1..]);
      var ps := Pieces(ts);
      assert ps[1..] == Pieces(ts[1..]);
      OneSpelled(ts[0], S.PutText(ps[1..], []));
      BlankInFront(S.PutToken(ps[0].token, S.PutText(ps[1..], [])));
      assert ts + [L.End] == [ts[0]] + (ts[1..] + [L.End]);
    }
  }

  lemma OneSpelled(t: L.Token, rest: string)
    requires Ordinary(t) && (rest == "" || rest[0] == ' ')
    ensures S.LegalToken(SpellingOf(t), rest) && S.TokenOf(SpellingOf(t)) == t
  {
    if t.Str? {
      CharsAreText(t.text);
    }
  }

  lemma BlankInFront(rest: string)
    ensures S.LegalGap([S.Space(' ')], rest) && S.PutGap([S.Space(' ')], rest) == " " + rest
  {
    assert [S.Space(' ')][1..] == [];
  }

  // ---- scripts of rules ---------------------------------------------------

  /** One `if` with a test and a block. */
  function If(test: W.Written, body: seq<W.WCommand>): W.WCommand {
    W.Conditional([W.Arm(test, body)], false, [])
  }

  function IfMeant(test: W.Written, body: seq<W.WCommand>): P.Command {
    W.BlankCommand(P.If).(branches := [P.Branch(Some(W.TestMeant(test)), W.CommandsMeant(body))])
  }

  lemma IfIsMeant(test: W.Written, body: seq<W.WCommand>, rest: seq<L.Token>)
    ensures W.CommandMeant(If(test, body)) == IfMeant(test, body)
    ensures W.PutCommand(If(test, body), rest) == [L.Ident("if")] + W.PutTest(test, [L.LBrace] + W.PutBody(body, rest))
  {
    hide W.TestMeant, W.PutTest, W.PutBody;
    var arms := [W.Arm(test, body)];
    assert arms[1..] == [] && W.ArmsMeant([]) == [];
    assert W.ArmsMeant(arms) + [] == W.ArmsMeant(arms);
    assert W.ArmsMeant(arms) == [P.Branch(Some(W.TestMeant(test)), W.CommandsMeant(body))] + [];
  }

  lemma IfIsLegal(test: W.Written, body: seq<W.WCommand>)
    ensures W.LegalCommand(If(test, body)) <==> W.LegalTest(test) && W.LegalCommands(body)
  {
    hide W.LegalTest;
    var arms := [W.Arm(test, body)];
    assert arms[1..] == [] && W.LegalArms([]) && W.LegalCommands([]);
    assert W.LegalArms(arms) <==> W.LegalTest(test) && W.LegalCommands(body);
  }

  lemma OneCommand(c: W.WCommand)
    ensures W.LegalCommands([c]) <==> W.LegalCommand(c)
    ensures W.PutProgram([c]) == W.PutCommand(c, [L.End]) && W.CommandsMeant([c]) == [W.CommandMeant(c)]
  {
    hide W.LegalCommand, W.PutCommand, W.CommandMeant;
    assert [c][1..] == [];
    assert W.PutProgram([]) == [L.End] && W.CommandsMeant([]) == [] && W.LegalCommands([]);
    assert [W.CommandMeant(c)] + [] == [W.CommandMeant(c)];
  }

  /** A script text for a program in given tokens. */
  lemma ProgramText(cs: seq<W.WCommand>, ts: seq<L.Token>) returns (script: string)
    requires W.LegalCommands(cs) && AllOrdinary(ts) && W.PutProgram(cs) == ts + [L.End]
    ensures P.Program(script) == Some(W.CommandsMeant(cs))
  {
    hide W.LegalCommands, W.PutProgram, W.CommandsMeant, AllOrdinary, S.LegalText, S.PutText, S.TokensOf, L.Lex, P.Script;
    script := S.PutText(Pieces(ts), []);
    PiecesSpell(ts);
    S.TextLexes(Pieces(ts), []);
    SieveReads.ProgramReads(cs);
  }

  /** A script text for one `if`. */
  lemma OneRuleText(test: W.Written, body: seq<W.WCommand>, ts: seq<L.Token>) returns (script: string)
    requires W.LegalTest(test) && W.LegalCommands(body) && AllOrdinary(ts)
    requires [L.Ident("if")] + W.PutTest(test, [L.LBrace] + W.PutBody(body, [L.End])) == ts + [L.End]
    ensures P.Program(script) == Some([IfMeant(test, body)])
  {
    hide W.LegalTest, W.LegalCommand, W.PutTest, W.PutBody, W.TestMeant, AllOrdinary, If, IfMeant, W.PutCommand, W.CommandMeant, P.Program;
    var c := If(test, body);
    IfIsMeant(test, body, [L.End]);
    IfIsLegal(test, body);
    OneCommand(c);
    script := ProgramText([c], ts);
  }

  /** What the view and the evaluator make of it. */
  lemma OneRuleRead(script: string, c: P.Command, r: Rule, mail: Mail)
    requires P.Program(script) == Some([c]) && c.kind == P.If && FlattenRule(c, r.name) == Some(r)
    ensures exists name :: DecomposeOf(script) == Some([r.(name := name)])
    ensures Result(script, mail) == Concluded(RanBranch(c.branches, mail, Start(false)))
  {
    hide P.Program, NamesFrom, FlattenCondition, FlattenBlock, RanBranch, Concluded, TrimSpace;
    var names := NamesFrom(script, "");
    var name := if names == [] then "" else names[0];
    assert FlattenRule(c, name) == Some(r.(name := name));
    assert [c][1..] == [];
    assert RulesOf([], Following(names)) == Some([]);
    assert RulesOf([c], names) == Some([r.(name := name)] + []);
    assert [r.(name := name)] + [] == [r.(name := name)];
    assert !Requires([c], "variables");
    assert DecomposeOf(script) == Some([r.(name := name)]);
    if TrimSpace(script) == "" {
      BlankHasNoRules(script);
    }
    var after := RanBranch(c.branches, mail, Start(false));
    assert Ran([], mail, after) == after;
    assert Ran([c], mail, Start(false)) == after;
  }

  /** What a saved script does whose rule takes an action. */
  lemma OneRuleSaved(script: string, r: Rule, mail: Mail)
    requires PT.AllLegal(r.tests) && r.actions != [] && exists name :: DecomposeOf(script) == Some([r.(name := name)])
    ensures DecomposeOf(script).Some?
    ensures Result(ComposeOf(DecomposeOf(script).value), mail) == Concluded(Followed(RT.ReadRule(r, ""), mail, Start(false)))
  {
    hide Result, ComposeOf, DecomposeOf, Concluded, Followed, PT.AllLegal, RT.ReadRule, N.NamesOf;
    var name :| DecomposeOf(script) == Some([r.(name := name)]);
    var s := r.(name := name);
    assert [s][1..] == [] && PT.RulesLegal([]) && PT.RulesLegal([s]);
    ComposedDoes([s], mail);
    var names := N.NamesOf([s]);
    assert RT.ReadRules([], RT.Others(names)) == [];
    var read := RT.ReadRule(s, RT.First(names));
    assert RT.ReadRules([s], names) == [read] + [];
    assert [read] + [] == [read] && [read][1..] == [];
    SameName(s, r, RT.First(names), mail);
    var after := Followed(read, mail, Start(false));
    assert AllFollowed([], mail, after) == after;
    assert AllFollowed([read], mail, Start(false)) == after;
  }

  lemma SameName(s: Rule, r: Rule, name: string, mail: Mail)
    requires s == r.(name := s.name)
    ensures Followed(RT.ReadRule(s, name), mail, Start(false)) == Followed(RT.ReadRule(r, ""), mail, Start(false))
  {
    hide RT.ReadTests, RT.ReadActions, Holds, AllTaken;
  }

  // ---- an action and a test for the examples ------------------------------

  lemma WordIs(w: string)
    requires w != "" && forall i :: 0 <= i < |w| ==> 'a' <= w[i] <= 'z'
    ensures Ordinary(L.Ident(w)) && Ordinary(L.Tag(w))
  {
    ToLowerSame(w);
  }

  function Discarding(): W.WCommand {
    W.Plainly("discard", P.Discard, [], W.Nothing)
  }

  lemma DiscardMeant(rest: seq<L.Token>)
    ensures W.LegalCommands([Discarding()]) && W.CommandsMeant([Discarding()]) == [W.BlankCommand(P.Discard)]
    ensures W.PutBody([Discarding()], rest) == [L.Ident("discard"), L.Semicolon, L.RBrace] + rest
  {
    var c := Discarding();
    assert [c][1..] == [] && W.PutBody([], rest) == [L.RBrace] + rest;
    assert [L.Ident("discard")] + ([L.Semicolon] + ([L.RBrace] + rest)) == [L.Ident("discard"), L.Semicolon, L.RBrace] + rest;
  }

  /** A block that discards what its test lets through. */
  lemma DiscardsOrKeeps(t: P.Test, mail: Mail)
    ensures var c := [P.Branch(Some(t), [W.BlankCommand(P.Discard)])];
            Concluded(RanBranch(c, mail, Start(false))) ==
            if Evaluated(t, mail, [], Start(false).vars).0 then [Discard] else [Keep([])]
  {
    hide Evaluated;
    var c := [P.Branch(Some(t), [W.BlankCommand(P.Discard)])];
    var r := Evaluated(t, mail, [], Start(false).vars);
    var run := Start(false).(vars := r.1);
    var body := c[0].body;
    assert body[1..] == [] && c[1..] == [];
    assert Ran([], mail, run.(cancelled := true)) == run.(cancelled := true);
    assert Ran(body, mail, run) == run.(cancelled := true);
    assert RanBranch([], mail, run) == run;
  }

  function DiscardRule(test: RuleTest): Rule {
    Rule("", true, [test], [Discard], false)
  }

  lemma RuleDiscardsOrKeeps(test: RuleTest, mail: Mail)
    requires PT.LegalTest(test)
    ensures PT.AllLegal(DiscardRule(test).tests)
    ensures Concluded(Followed(RT.ReadRule(DiscardRule(test), ""), mail, Start(false))) ==
            if Holds(RT.ReadTest(test), mail) then [Discard] else [Keep([])]
  {
    hide PT.LegalTest, Holds, RT.ReadTest;
    assert [test][1..] == [] && [Discard][1..] == [] && PT.AllLegal([]) && RT.ReadTests([]) == [] && RT.ReadActions([]) == [];
    var read := RT.ReadTest(test);
    assert RT.ReadTests([test]) == [read] + [] && RT.ReadActions([Discard]) == [Discard] + [];
    var r := RT.ReadRule(DiscardRule(test), "");
    assert r == Rule("", true, [read], [Discard], false);
    OneOrAll(r, mail);
    var run := Start(false).(cancelled := true);
    assert AllTaken([], mail, run) == run;
    assert AllTaken([Discard], mail, Start(false)) == run;
  }

  /** A script that discards by a test which the view shows as another one. */
  lemma TestIsLost(test: W.Written, shown: RuleTest, words: seq<L.Token>, mail: Mail) returns (script: string)
    requires W.LegalTest(test) && AllOrdinary(words) && PT.LegalTest(shown)
    requires forall rest :: W.PutTest(test, rest) == words + rest
    requires FlattenCondition(W.TestMeant(test)) == Some((true, [shown]))
    requires Evaluated(W.TestMeant(test), mail, [], Start(false).vars).0 != Holds(RT.ReadTest(shown), mail)
    ensures Changed(script, mail)
  {
    hide DecomposeOf, ComposeOf, Result, RanBranch, Followed, FlattenCondition, FlattenBlock, Concluded, P.Program, W.PutBody, W.LegalCommands,
      W.CommandsMeant, W.TestMeant, W.PutTest, W.LegalTest, Evaluated, Holds, PT.AllLegal, PT.LegalTest, AllOrdinary;
    var body := [Discarding()];
    var block := [L.Ident("discard"), L.Semicolon, L.RBrace];
    DiscardMeant([L.End]);
    var ts := [L.Ident("if")] + (words + ([L.LBrace] + block));
    IfOrdinary(words, block);
    assert ts + [L.End] == [L.Ident("if")] + (words + ([L.LBrace] + (block + [L.End])));
    script := OneRuleText(test, body, ts);
    DiscardShown(test, shown);
    OneRuleRead(script, IfMeant(test, body), DiscardRule(shown), mail);
    DiscardsOrKeeps(W.TestMeant(test), mail);
    RuleDiscardsOrKeeps(shown, mail);
    OneRuleSaved(script, DiscardRule(shown), mail);
  }

  lemma IfOrdinary(words: seq<L.Token>, block: seq<L.Token>)
    requires AllOrdinary(words) && block == [L.Ident("discard"), L.Semicolon, L.RBrace]
    ensures AllOrdinary([L.Ident("if")] + (words + ([L.LBrace] + block)))
  {
    hide AllOrdinary, Ordinary;
    WordIf();
    WordDiscard();
    Others("");
    AllAre([L.LBrace] + block);
    Joined(words, [L.LBrace] + block);
    AllAre([L.Ident("if")]);
    Joined([L.Ident("if")], words + ([L.LBrace] + block));
  }

  lemma WordDiscard()
    ensures Ordinary(L.Ident("discard"))
  {
    WordIs("discard");
  }

  lemma {:induction false} Joined(a: seq<L.Token>, b: seq<L.Token>)
    requires AllOrdinary(a) && AllOrdinary(b)
    ensures AllOrdinary(a + b)
  {
    hide Ordinary;
    if a == [] {
      assert a + b == b;
    } else {
      Joined(a[1..], b);
      assert (a + b)[0] == a[0] && (a + b)[1..] == a[1..] + b;
    }
  }

  lemma DiscardShown(test: W.Written, shown: RuleTest)
    requires FlattenCondition(W.TestMeant(test)) == Some((true, [shown]))
    ensures FlattenRule(IfMeant(test, [Discarding()]), "") == Some(DiscardRule(shown))
  {
    hide FlattenCondition, W.TestMeant;
    DiscardMeant([]);
    var d := W.BlankCommand(P.Discard);
    assert [d][1..] == [] && FlattenBlock([]) == Some(([], false));
    assert [Discard] + [] == [Discard];
    assert FlattenBlock([d]) == Some(([Discard], false));
  }

  /** A message with one header, and one address in every header. */
  function Letter(name: string, value: string, addr: string): Mail {
    Mail([(name, value)], "", "", "", "", (v: string) => [addr])
  }

  // ---- what is lost -------------------------------------------------------

  /** Saving changes what the script does with some message. */
  predicate Changed(script: string, mail: Mail) {
    DecomposeOf(script).Some? && Result(ComposeOf(DecomposeOf(script).value), mail) != Result(script, mail)
  }

  /** `redirect :copy "a"` keeps the message as well; the saved script does not. */
  lemma CopyIsLost(mail: Mail) returns (script: string)
    ensures Changed(script, mail)
  {
    hide DecomposeOf, ComposeOf, Result, RanBranch, Followed, FlattenRule, Concluded, PT.AllLegal, RT.ReadRule, P.Program, AllOrdinary, W.PutBody, W.LegalCommands,
      W.CommandsMeant;
    var body, r := [Redirecting()], Rule("", true, [], [Redirect("a")], false);
    var ts := [L.Ident("if"), L.Ident("true"), L.LBrace, L.Ident("redirect"), L.Tag("copy"), L.Str("a"), L.Semicolon, L.RBrace];
    RedirectWords(ts);
    RedirectBody([L.End]);
    script := OneRuleText(W.True, body, ts);
    RedirectShown();
    OneRuleRead(script, IfMeant(W.True, body), r, mail);
    RedirectRuns(mail);
    RedirectRule(mail);
    OneRuleSaved(script, r, mail);
  }

  lemma {:induction false} AllAre(ts: seq<L.Token>)
    requires forall i :: 0 <= i < |ts| ==> Ordinary(ts[i])
    ensures AllOrdinary(ts)
  {
    hide Ordinary;
    if ts != [] {
      assert forall i :: 0 <= i < |ts[1..]| ==> ts[1..][i] == ts[i + 1];
      AllAre(ts[1..]);
    }
  }

  lemma RedirectWords(ts: seq<L.Token>)
    requires ts == [L.Ident("if"), L.Ident("true"), L.LBrace, L.Ident("redirect"), L.Tag("copy"), L.Str("a"), L.Semicolon, L.RBrace]
    ensures AllOrdinary(ts)
  {
    hide AllOrdinary, Ordinary;
    WordIf();
    WordTrue();
    WordRedirect();
    WordCopy();
    Others("a");
    AllAre(ts);
  }

  lemma WordIf()
    ensures Ordinary(L.Ident("if"))
  {
    WordIs("if");
  }

  lemma WordTrue()
    ensures Ordinary(L.Ident("true"))
  {
    WordIs("true");
  }

  lemma WordRedirect()
    ensures Ordinary(L.Ident("redirect"))
  {
    WordIs("redirect");
  }

  lemma WordCopy()
    ensures Ordinary(L.Tag("copy"))
  {
    WordIs("copy");
  }

  lemma Others(s: string)
    ensures Ordinary(L.Str(s)) && Ordinary(L.LBrace) && Ordinary(L.RBrace) && Ordinary(L.Semicolon)
  {
  }

  function Redirecting(): W.WCommand {
    W.Plainly("redirect", P.Redirect, [W.Word("copy")], W.Text("a"))
  }

  lemma RedirectBody(rest: seq<L.Token>)
    ensures W.LegalCommands([Redirecting()])
    ensures W.CommandsMeant([Redirecting()]) == [W.BlankCommand(P.Redirect).(copy := true, argument := "a")]
    ensures W.PutBody([Redirecting()], rest) == [L.Ident("redirect"), L.Tag("copy"), L.Str("a"), L.Semicolon, L.RBrace] + rest
  {
    hide W.LegalCommand, W.CommandMeant, W.PutCommand;
    var c := Redirecting();
    assert [c][1..] == [];
    assert W.PutBody([], rest) == [L.RBrace] + rest && W.LegalCommands([]) && W.CommandsMeant([]) == [];
    RedirectMeant();
    RedirectPut([L.RBrace] + rest);
  }

  lemma RedirectMeant()
    ensures W.LegalCommand(Redirecting())
    ensures W.CommandMeant(Redirecting()) == W.BlankCommand(P.Redirect).(copy := true, argument := "a")
  {
    var args := [W.Word("copy")];
    assert args[1..] == [] && W.LegalArguments([]) && W.LegalArguments(args);
    assert W.WithArguments(W.BlankCommand(P.Redirect), args) == W.BlankCommand(P.Redirect).(copy := true);
  }

  lemma RedirectPut(rest: seq<L.Token>)
    ensures W.PutCommand(Redirecting(), rest) == [L.Ident("redirect"), L.Tag("copy"), L.Str("a"), L.Semicolon] + rest
  {
    var args := [W.Word("copy")];
    assert args[1..] == [];
    var tail := [L.Str("a")] + ([L.Semicolon] + rest);
    assert W.PutArguments([], tail) == tail;
    assert W.PutArguments(args, tail) == [L.Tag("copy")] + tail;
  }

  lemma RedirectRuns(mail: Mail)
    ensures var c := [P.Branch(Some(W.Blank(P.Always)), [W.BlankCommand(P.Redirect).(copy := true, argument := "a")])];
            Concluded(RanBranch(c, mail, Start(false))) == [Redirect("a"), Keep([])]
  {
    var d := W.BlankCommand(P.Redirect).(copy := true, argument := "a");
    var c := [P.Branch(Some(W.Blank(P.Always)), [d])];
    var start := Start(false);
    var run := start.(actions := [Redirect("a")]);
    assert [d][1..] == [] && [] + [Redirect("a")] == [Redirect("a")];
    assert Done(d, mail, start) == run;
    assert Ran([], mail, run) == run && Ran([d], mail, start) == run;
    assert FirstReject([]) == None && FirstReject([Redirect("a")]) == None;
  }

  lemma RedirectRule(mail: Mail)
    ensures var r := Rule("", true, [], [Redirect("a")], false);
            PT.AllLegal(r.tests) && RT.ReadRule(r, "") == r && Concluded(Followed(r, mail, Start(false))) == [Redirect("a")]
  {
    var start, a := Start(false), Redirect("a");
    var run := start.(actions := [a], cancelled := true);
    assert [a][1..] == [] && [] + [a] == [a];
    assert Taken(a, mail, start) == run;
    assert AllTaken([], mail, run) == run && AllTaken([a], mail, start) == run;
    assert FirstReject([]) == None && FirstReject([a]) == None;
    CleanOneLine("a");
    assert OneLine("a") && RT.ReadAction(a) == a && [a] + [] == [a];
    assert RT.ReadActions([]) == [] && RT.ReadActions([a]) == [a] + [];
  }

  lemma RedirectShown()
    ensures FlattenRule(IfMeant(W.True, [Redirecting()]), "") == Some(Rule("", true, [], [Redirect("a")], false))
  {
    RedirectBody([]);
    var d := W.BlankCommand(P.Redirect).(copy := true, argument := "a");
    assert [d][1..] == [] && FlattenBlock([]) == Some(([], false));
    assert [Redirect("a")] + [] == [Redirect("a")];
    assert FlattenBlock([d]) == Some(([Redirect("a")], false));
  }

  // ---- tests that are shown as others -------------------------------------

  lemma OneHeader(value: string, addr: string, vars: Variables)
    requires !vars.enabled && value != "" && value[0] !in " \t\r\n" && value[|value| - 1] !in " \t\r\n"
    ensures var mail := Letter("from", value, addr);
            && HeaderValues(mail.headers, "from") == [value]
            && ValuesOfAll(mail.headers, ["from"], vars) == [value]
  {
    var headers := [("from", value)];
    TrimSpaceShortens("from");
    TrimSpaceShortens(value);
    assert headers[1..] == [] && HeaderValues([], "from") == [];
    assert HeaderValues(headers, "from") == [value] + [];
    OneName(headers, "from", vars);
  }

  lemma FromIsDirect()
    ensures ToLower("from") == "from" && HeaderName("from") == "from"
  {
    ToLowerSame("from");
  }

  /** The one value of the one header against a key. */
  lemma OneHeaderTest(t: P.Test, value: string, addr: string, vars: Variables)
    requires !vars.enabled && value != "" && value[0] !in " \t\r\n" && value[|value| - 1] !in " \t\r\n"
    requires t.kind == P.Header && t.names == ["from"] && |t.keys| == 1
    ensures Evaluated(t, Letter("from", value, addr), [], vars).0 <==> MatchOne(value, t.keys[0], t.matchType, t.comparator).Some?
  {
    hide MatchOne, HeaderValues, ValuesOfAll;
    OneHeader(value, addr, vars);
    assert t.keys == [t.keys[0]] && [value][1..] == [];
    MatchOnes(value, t.keys[0], t.matchType, t.comparator, vars);
    assert MatchAny([], t.keys, t.matchType, t.comparator, vars) == (false, vars);
  }

  lemma OneHeaderRule(test: RuleTest, value: string, addr: string)
    requires value != "" && value[0] !in " \t\r\n" && value[|value| - 1] !in " \t\r\n"
    requires test.field == "from" && !test.negate
    ensures Holds(test, Letter("from", value, addr)) <==> MatchOne(value, test.value, test.op, "i;ascii-casemap").Some?
  {
    hide MatchOne, HeaderValues, TextMatches;
    OneHeader(value, addr, Start(false).vars);
    FromIsDirect();
    TextMatchesStep([value], test.op, test.value);
    assert [value][1..] == [];
    TextMatchesStep([], test.op, test.value);
  }

  /** `address :domain "from" "a"` asks for addresses; the saved script asks for the header. */
  lemma AddressBecomesHeader() returns (script: string, mail: Mail)
    ensures Changed(script, mail)
  {
    hide W.PutTest, Evaluated, Holds, Changed, W.TestMeant, FlattenCondition, RT.ReadTest, AllOrdinary, PT.LegalTest, W.LegalTest;
    mail := Letter("from", "a", "");
    var test := W.Matching(P.Address, [W.Plain("domain")], W.One("from"), [], W.One("a"));
    var words := [L.Ident("address"), L.Tag("domain"), L.Str("from"), L.Str("a")];
    AddressWords(words);
    AddressWritten(test, words);
    AddressDiffers(test);
    script := TestIsLost(test, RuleTest("from", "is", "a", false), words, mail);
  }

  lemma AddressWords(words: seq<L.Token>)
    requires words == [L.Ident("address"), L.Tag("domain"), L.Str("from"), L.Str("a")]
    ensures AllOrdinary(words)
  {
    hide AllOrdinary, Ordinary;
    WordAddress();
    WordDomain();
    Others("from");
    Others("a");
    AllAre(words);
  }

  lemma WordAddress()
    ensures Ordinary(L.Ident("address"))
  {
    WordIs("address");
  }

  lemma WordDomain()
    ensures Ordinary(L.Tag("domain"))
  {
    WordIs("domain");
  }

  lemma AddressWritten(test: W.Written, words: seq<L.Token>)
    requires test == W.Matching(P.Address, [W.Plain("domain")], W.One("from"), [], W.One("a"))
    requires words == [L.Ident("address"), L.Tag("domain"), L.Str("from"), L.Str("a")]
    ensures W.LegalTest(test) && forall rest :: W.PutTest(test, rest) == words + rest
    ensures W.TestMeant(test) == W.Blank(P.Address).(addressPart := "domain", names := ["from"], keys := ["a"])
  {
    var marks := [W.Plain("domain")];
    assert marks[1..] == [];
    forall rest
      ensures W.PutTest(test, rest) == words + rest
    {
      assert W.PutMarks([], [L.Str("a")] + rest) == [L.Str("a")] + rest;
      var tail := [L.Str("from")] + ([L.Str("a")] + rest);
      assert W.PutMarks([], tail) == tail && W.PutMarks(marks, tail) == [L.Tag("domain")] + tail;
    }
  }

  lemma AddressDiffers(test: W.Written)
    requires W.TestMeant(test) == W.Blank(P.Address).(addressPart := "domain", names := ["from"], keys := ["a"])
    ensures var (shown, mail) := (RuleTest("from", "is", "a", false), Letter("from", "a", ""));
            && PT.LegalTest(shown)
            && FlattenCondition(W.TestMeant(test)) == Some((true, [shown]))
            && !Evaluated(W.TestMeant(test), mail, [], Start(false).vars).0
            && Holds(RT.ReadTest(shown), mail)
  {
    hide Holds, Evaluated, RT.ReadTest, FlattenCondition, HeaderValues;
    AddressShown(W.TestMeant(test));
    OneHeader("a", "", Start(false).vars);
    NoAddresses(W.TestMeant(test), Start(false).vars);
    ShownAsIs("a");
    OneHeaderRule(RuleTest("from", "is", "a", false), "a", "");
  }

  lemma AddressShown(t: P.Test)
    requires t == W.Blank(P.Address).(addressPart := "domain", names := ["from"], keys := ["a"])
    ensures FlattenCondition(t) == Some((true, [RuleTest("from", "is", "a", false)]))
  {
    hide ToLower;
    FromIsDirect();
  }

  /** A header without addresses holds none. */
  lemma NoAddresses(t: P.Test, vars: Variables)
    requires t == W.Blank(P.Address).(addressPart := "domain", names := ["from"], keys := ["a"])
    requires !vars.enabled && HeaderValues(Letter("from", "a", "").headers, "from") == ["a"]
    ensures !Evaluated(t, Letter("from", "a", ""), [], vars).0
  {
    hide HeaderValues, ToLower;
    var mail := Letter("from", "a", "");
    assert ["from"][1..] == [] && ["a"][1..] == [] && [""][1..] == [];
    assert PartsOf([""], "domain") == [] && PartsInAll(mail, [], "domain") == [];
    assert PartsInAll(mail, ["a"], "domain") == [];
    assert AddressesOfAll(mail, [], "domain", vars) == [];
    assert AddressesOfAll(mail, ["from"], "domain", vars) == [];
  }

  lemma ShownAsIs(key: string)
    requires OneLine(key)
    ensures RT.ReadTest(RuleTest("from", "is", key, false)) == RuleTest("from", "is", key, false)
  {
    hide ToLower;
    CleanOneLine(key);
    CleanOneLine("from");
    FromIsDirect();
    assert OneLine("from");
  }

  /** A comparison that minds the case of letters; the saved script does not. */
  lemma CaseIsLost() returns (script: string, mail: Mail)
    ensures Changed(script, mail)
  {
    hide W.PutTest, Evaluated, Holds, Changed, W.TestMeant, FlattenCondition, RT.ReadTest, AllOrdinary, PT.LegalTest, W.LegalTest;
    mail := Letter("from", "a", "");
    var test := W.Matching(P.Header, [W.Comparator("i;octet")], W.One("from"), [], W.One("A"));
    var words := [L.Ident("header"), L.Tag("comparator"), L.Str("i;octet"), L.Str("from"), L.Str("A")];
    CaseWords(words);
    CaseWritten(test, words);
    CaseMeant();
    CaseDiffers(test);
    script := TestIsLost(test, RuleTest("from", "is", "A", false), words, mail);
  }

  lemma CaseWords(words: seq<L.Token>)
    requires words == [L.Ident("header"), L.Tag("comparator"), L.Str("i;octet"), L.Str("from"), L.Str("A")]
    ensures AllOrdinary(words)
  {
    hide AllOrdinary, Ordinary;
    WordHeader();
    WordComparator();
    Others("i;octet");
    Others("from");
    Others("A");
    AllAre(words);
  }

  lemma WordHeader()
    ensures Ordinary(L.Ident("header"))
  {
    WordIs("header");
  }

  lemma WordComparator()
    ensures Ordinary(L.Tag("comparator"))
  {
    WordIs("comparator");
  }

  lemma CaseWritten(test: W.Written, words: seq<L.Token>)
    requires test == W.Matching(P.Header, [W.Comparator("i;octet")], W.One("from"), [], W.One("A"))
    requires words == [L.Ident("header"), L.Tag("comparator"), L.Str("i;octet"), L.Str("from"), L.Str("A")]
    ensures W.LegalTest(test) && forall rest :: W.PutTest(test, rest) == words + rest
  {
    var marks := [W.Comparator("i;octet")];
    assert marks[1..] == [];
    forall rest
      ensures W.PutTest(test, rest) == words + rest
    {
      assert W.PutMarks([], [L.Str("A")] + rest) == [L.Str("A")] + rest;
      var tail := [L.Str("from")] + ([L.Str("A")] + rest);
      assert W.PutMarks([], tail) == tail && W.PutMarks(marks, tail) == [L.Tag("comparator")] + ([L.Str("i;octet")] + tail);
    }
  }

  lemma CaseMeant()
    ensures W.TestMeant(W.Matching(P.Header, [W.Comparator("i;octet")], W.One("from"), [], W.One("A"))) ==
            W.Blank(P.Header).(comparator := "i;octet", names := ["from"], keys := ["A"])
  {
    hide ToLower;
    OctetIs();
    assert [W.Comparator("i;octet")][1..] == [];
  }

  lemma OctetIs()
    ensures ToLower("i;octet") == "i;octet"
  {
    ToLowerSame("i;octet");
  }

  lemma CaseDiffers(test: W.Written)
    requires W.TestMeant(test) == W.Blank(P.Header).(comparator := "i;octet", names := ["from"], keys := ["A"])
    ensures var (shown, mail) := (RuleTest("from", "is", "A", false), Letter("from", "a", ""));
            && PT.LegalTest(shown)
            && FlattenCondition(W.TestMeant(test)) == Some((true, [shown]))
            && !Evaluated(W.TestMeant(test), mail, [], Start(false).vars).0
            && Holds(RT.ReadTest(shown), mail)
  {
    hide Holds, Evaluated, RT.ReadTest, FlattenCondition;
    var t := W.TestMeant(test);
    HeaderShownAs(t, "A");
    ShownAsIs("A");
    OneHeaderTest(t, "a", "", Start(false).vars);
    OneHeaderRule(RuleTest("from", "is", "A", false), "a", "");
    assert ToLower("A") == ['a'] + ToLower("") && ToLower("a") == ['a'] + ToLower("");
  }

  lemma HeaderShownAs(t: P.Test, key: string)
    requires t.kind == P.Header && t.names == ["from"] && t.keys == [key] && t.matchType == "is"
    ensures FlattenCondition(t) == Some((true, [RuleTest("from", "is", key, false)]))
  {
    hide ToLower;
    FromIsDirect();
  }

  /** A key of two lines; the saved script has them as one. */
  lemma LineBreakIsLost() returns (script: string, mail: Mail)
    ensures Changed(script, mail)
  {
    hide W.PutTest, Evaluated, Holds, Changed, W.TestMeant, FlattenCondition, RT.ReadTest, AllOrdinary, PT.LegalTest, W.LegalTest;
    mail := Letter("from", "ab", "");
    var test := W.Matching(P.Header, [], W.One("from"), [], W.One("a\nb"));
    var words := [L.Ident("header"), L.Str("from"), L.Str("a\nb")];
    BreakWords(words);
    BreakWritten(test, words);
    BreakDiffers(test);
    script := TestIsLost(test, RuleTest("from", "is", "a\nb", false), words, mail);
  }

  lemma BreakWords(words: seq<L.Token>)
    requires words == [L.Ident("header"), L.Str("from"), L.Str("a\nb")]
    ensures AllOrdinary(words)
  {
    hide AllOrdinary, Ordinary;
    WordHeader();
    Others("from");
    Others("a\nb");
    AllAre(words);
  }

  lemma BreakWritten(test: W.Written, words: seq<L.Token>)
    requires test == W.Matching(P.Header, [], W.One("from"), [], W.One("a\nb"))
    requires words == [L.Ident("header"), L.Str("from"), L.Str("a\nb")]
    ensures W.LegalTest(test) && forall rest :: W.PutTest(test, rest) == words + rest
    ensures W.TestMeant(test) == W.Blank(P.Header).(names := ["from"], keys := ["a\nb"])
  {
    forall rest
      ensures W.PutTest(test, rest) == words + rest
    {
      assert W.PutMarks([], [L.Str("a\nb")] + rest) == [L.Str("a\nb")] + rest;
      var tail := [L.Str("from")] + ([L.Str("a\nb")] + rest);
      assert W.PutMarks([], tail) == tail;
    }
  }

  lemma BreakDiffers(test: W.Written)
    requires W.TestMeant(test) == W.Blank(P.Header).(names := ["from"], keys := ["a\nb"])
    ensures var (shown, mail) := (RuleTest("from", "is", "a\nb", false), Letter("from", "ab", ""));
            && PT.LegalTest(shown)
            && FlattenCondition(W.TestMeant(test)) == Some((true, [shown]))
            && !Evaluated(W.TestMeant(test), mail, [], Start(false).vars).0
            && Holds(RT.ReadTest(shown), mail)
  {
    hide Holds, Evaluated, RT.ReadTest, FlattenCondition, ToLower;
    var t := W.TestMeant(test);
    HeaderShownAs(t, "a\nb");
    BreakSaved();
    OneHeaderTest(t, "ab", "", Start(false).vars);
    OneHeaderRule(RuleTest("from", "is", "ab", false), "ab", "");
    assert |ToLower("ab")| == 2 && |ToLower("a\nb")| == 3;
  }

  lemma BreakSaved()
    ensures RT.ReadTest(RuleTest("from", "is", "a\nb", false)) == RuleTest("from", "is", "ab", false)
  {
    hide ToLower;
    FromIsDirect();
    CleanOneLine("from");
    CleanBreak();
    assert OneLine("from");
  }

  lemma CleanBreak()
    ensures Clean("a\nb") == "ab"
  {
    assert "a\nb"[1..] == "\nb" && "\nb"[1..] == "b" && "b"[1..] == "";
    assert Clean("b") == "b" + "" && Clean("\nb") == "" + Clean("b");
  }

  // ---- stops --------------------------------------------------------------

  function Stopping(): W.WCommand {
    W.Plainly("stop", P.Stop, [], W.Nothing)
  }

  lemma StopMeant(rest: seq<L.Token>)
    ensures W.LegalCommand(Stopping()) && W.CommandMeant(Stopping()) == W.BlankCommand(P.Stop)
    ensures W.PutCommand(Stopping(), rest) == [L.Ident("stop"), L.Semicolon] + rest
  {
  }

  lemma WordStop()
    ensures Ordinary(L.Ident("stop"))
  {
    WordIs("stop");
  }

  /** A stop, and what comes after it: the saved script does the latter first. */
  lemma AfterStopIsDone(mail: Mail) returns (script: string)
    ensures Changed(script, mail)
  {
    hide DecomposeOf, ComposeOf, Result, RanBranch, Followed, FlattenRule, Concluded, PT.AllLegal, RT.ReadRule, P.Program, AllOrdinary, W.PutBody,
      W.LegalCommands, W.CommandsMeant;
    var body, r := [Stopping(), Discarding()], Rule("", true, [], [Discard], true);
    var ts := [L.Ident("if"), L.Ident("true"), L.LBrace, L.Ident("stop"), L.Semicolon, L.Ident("discard"), L.Semicolon, L.RBrace];
    StopWords(ts);
    StopBody([L.End]);
    script := OneRuleText(W.True, body, ts);
    StopShown();
    OneRuleRead(script, IfMeant(W.True, body), r, mail);
    StopRuns(mail);
    StopRule(mail);
    OneRuleSaved(script, r, mail);
  }

  lemma StopWords(ts: seq<L.Token>)
    requires ts == [L.Ident("if"), L.Ident("true"), L.LBrace, L.Ident("stop"), L.Semicolon, L.Ident("discard"), L.Semicolon, L.RBrace]
    ensures AllOrdinary(ts)
  {
    hide AllOrdinary, Ordinary;
    WordIf();
    WordTrue();
    WordStop();
    WordDiscard();
    Others("");
    AllAre(ts);
  }

  lemma StopBody(rest: seq<L.Token>)
    ensures var body := [Stopping(), Discarding()];
            && W.LegalCommands(body)
            && W.CommandsMeant(body) == [W.BlankCommand(P.Stop), W.BlankCommand(P.Discard)]
            && W.PutBody(body, rest) == [L.Ident("stop"), L.Semicolon, L.Ident("discard"), L.Semicolon, L.RBrace] + rest
  {
    hide W.LegalCommand, W.CommandMeant, W.PutCommand, Stopping, Discarding;
    var body := [Stopping(), Discarding()];
    assert body[1..] == [Discarding()];
    DiscardMeant(rest);
    StopMeant(W.PutBody([Discarding()], rest));
  }

  lemma StopShown()
    ensures FlattenRule(IfMeant(W.True, [Stopping(), Discarding()]), "") == Some(Rule("", true, [], [Discard], true))
  {
    hide W.CommandsMeant;
    StopBody([]);
    var cs := [W.BlankCommand(P.Stop), W.BlankCommand(P.Discard)];
    assert cs[1..] == [cs[1]] && [cs[1]][1..] == [] && FlattenBlock([]) == Some(([], false));
    assert [Discard] + [] == [Discard];
    assert FlattenBlock([cs[1]]) == Some(([Discard], false));
  }

  lemma StopRuns(mail: Mail)
    ensures var c := [P.Branch(Some(W.Blank(P.Always)), [W.BlankCommand(P.Stop), W.BlankCommand(P.Discard)])];
            Concluded(RanBranch(c, mail, Start(false))) == [Keep([])]
  {
    var start := Start(false);
    var cs := [W.BlankCommand(P.Stop), W.BlankCommand(P.Discard)];
    assert Done(cs[0], mail, start) == start.(stopped := true);
    StoppedRun(cs[1..], mail, start.(stopped := true));
    assert Ran(cs, mail, start) == start.(stopped := true);
    assert [] + [Keep([])] == [Keep([])];
  }

  lemma StoppedRun(cs: seq<P.Command>, mail: Mail, run: Run)
    requires run.stopped
    ensures Ran(cs, mail, run) == run
  {
  }

  lemma StopRule(mail: Mail)
    ensures var r := Rule("", true, [], [Discard], true);
            PT.AllLegal(r.tests) && RT.ReadRule(r, "") == r && Concluded(Followed(r, mail, Start(false))) == [Discard]
  {
    var run := Start(false).(cancelled := true);
    assert [Discard][1..] == [] && AllTaken([], mail, run) == run && AllTaken([Discard], mail, Start(false)) == run;
    assert RT.ReadActions([]) == [] && RT.ReadActions([Discard]) == [Discard] + [];
    assert [Discard] + [] == [Discard];
  }

  /** A rule that only stops is not saved, and the rules after it are followed. */
  lemma StopIsLost(mail: Mail) returns (script: string)
    ensures Changed(script, mail)
  {
    hide W.LegalCommands, W.CommandsMeant, W.PutProgram, AllOrdinary, P.Program, Changed;
    var cs := [If(W.True, [Stopping()]), If(W.True, [Discarding()])];
    var first := [L.Ident("if"), L.Ident("true"), L.LBrace, L.Ident("stop"), L.Semicolon, L.RBrace];
    var second := [L.Ident("if"), L.Ident("true"), L.LBrace, L.Ident("discard"), L.Semicolon, L.RBrace];
    TwoRules(first, second);
    Joined(first, second);
    script := ProgramText(cs, first + second);
    TwoRulesChanged(script, mail);
  }

  lemma TwoRules(first: seq<L.Token>, second: seq<L.Token>)
    requires first == [L.Ident("if"), L.Ident("true"), L.LBrace, L.Ident("stop"), L.Semicolon, L.RBrace]
    requires second == [L.Ident("if"), L.Ident("true"), L.LBrace, L.Ident("discard"), L.Semicolon, L.RBrace]
    ensures var cs := [If(W.True, [Stopping()]), If(W.True, [Discarding()])];
            && W.LegalCommands(cs) && W.PutProgram(cs) == (first + second) + [L.End]
            && AllOrdinary(first) && AllOrdinary(second)
            && W.CommandsMeant(cs) == [IfMeant(W.True, [Stopping()]), IfMeant(W.True, [Discarding()])]
  {
    hide AllOrdinary, Ordinary, If, IfMeant, W.LegalCommand, W.PutCommand, W.CommandMeant, Stopping, Discarding;
    var cs := [If(W.True, [Stopping()]), If(W.True, [Discarding()])];
    WordIf();
    WordTrue();
    WordStop();
    WordDiscard();
    Others("");
    AllAre(first);
    AllAre(second);
    assert cs[1..] == [cs[1]];
    OneCommand(cs[1]);
    DiscardMeant([L.End]);
    RuleWritten(Discarding(), [L.Ident("discard"), L.Semicolon], [L.End]);
    RuleWritten(Stopping(), [L.Ident("stop"), L.Semicolon], second + [L.End]);
    assert (first + second) + [L.End] == first + (second + [L.End]);
    assert [L.Ident("if"), L.Ident("true"), L.LBrace] + ([L.Ident("stop"), L.Semicolon] + ([L.RBrace] + (second + [L.End]))) == first + (second + [L.End]);
    assert [L.Ident("if"), L.Ident("true"), L.LBrace] + ([L.Ident("discard"), L.Semicolon] + ([L.RBrace] + [L.End])) == second + [L.End];
  }

  lemma RuleWritten(c: W.WCommand, words: seq<L.Token>, rest: seq<L.Token>)
    requires (c == Stopping() && words == [L.Ident("stop"), L.Semicolon]) || (c == Discarding() && words == [L.Ident("discard"), L.Semicolon])
    ensures W.LegalCommand(If(W.True, [c])) && W.CommandMeant(If(W.True, [c])) == IfMeant(W.True, [c])
    ensures W.PutCommand(If(W.True, [c]), rest) == [L.Ident("if"), L.Ident("true"), L.LBrace] + (words + ([L.RBrace] + rest))
  {
    hide If, IfMeant;
    IfIsMeant(W.True, [c], rest);
    IfIsLegal(W.True, [c]);
    assert [c][1..] == [] && W.PutBody([], rest) == [L.RBrace] + rest && W.LegalCommands([]);
    assert W.PutCommand(c, [L.RBrace] + rest) == words + ([L.RBrace] + rest);
  }

  lemma TwoRulesChanged(script: string, mail: Mail)
    requires P.Program(script) == Some([IfMeant(W.True, [Stopping()]), IfMeant(W.True, [Discarding()])])
    ensures Changed(script, mail)
  {
    hide P.Program, NamesFrom, Result, ComposeOf, Concluded, FlattenRule, IfMeant, N.NamesOf, TrimSpace;
    var cs := [IfMeant(W.True, [Stopping()]), IfMeant(W.True, [Discarding()])];
    TwoShown();
    TwoNamed(cs, NamesFrom(script, ""));
    var rules := RulesOf(cs, NamesFrom(script, "")).value;
    TwoSaved(rules, mail);
    TwoRun(script, cs, mail);
  }

  lemma TwoShown()
    ensures forall name :: FlattenRule(IfMeant(W.True, [Stopping()]), name) == Some(Rule(name, true, [], [], true))
    ensures forall name :: FlattenRule(IfMeant(W.True, [Discarding()]), name) == Some(Rule(name, true, [], [Discard], false))
    ensures IfMeant(W.True, [Stopping()]).kind == P.If && IfMeant(W.True, [Discarding()]).kind == P.If
  {
    hide W.CommandsMeant;
    DiscardMeant([]);
    StopAlone();
    var s, d := W.BlankCommand(P.Stop), W.BlankCommand(P.Discard);
    assert [s][1..] == [] && [d][1..] == [] && FlattenBlock([]) == Some(([], false)) && [Discard] + [] == [Discard];
    assert FlattenBlock([s]) == Some(([], true)) && FlattenBlock([d]) == Some(([Discard], false));
  }

  lemma StopAlone()
    ensures W.CommandsMeant([Stopping()]) == [W.BlankCommand(P.Stop)]
  {
    assert [Stopping()][1..] == [] && W.CommandsMeant([]) == [];
  }

  lemma TwoNamed(cs: seq<P.Command>, names: seq<string>)
    requires cs == [IfMeant(W.True, [Stopping()]), IfMeant(W.True, [Discarding()])]
    ensures !Requires(cs, "variables") && RulesOf(cs, names).Some?
    ensures exists a, b :: RulesOf(cs, names).value == [Rule(a, true, [], [], true), Rule(b, true, [], [Discard], false)]
  {
    hide FlattenRule, IfMeant;
    TwoShown();
    var a := if names == [] then "" else names[0];
    var more := Following(names);
    var b := if more == [] then "" else more[0];
    assert cs[1..] == [cs[1]] && [cs[1]][1..] == [];
    assert RulesOf([], Following(more)) == Some([]);
    assert RulesOf([cs[1]], more) == Some([Rule(b, true, [], [Discard], false)] + []);
    assert [Rule(a, true, [], [], true)] + [Rule(b, true, [], [Discard], false)] == [Rule(a, true, [], [], true), Rule(b, true, [], [Discard], false)];
  }

  lemma TwoSaved(rules: seq<Rule>, mail: Mail)
    requires exists a, b :: rules == [Rule(a, true, [], [], true), Rule(b, true, [], [Discard], false)]
    ensures Result(ComposeOf(rules), mail) == [Discard]
  {
    hide Result, ComposeOf, N.NamesOf, RT.ReadActions;
    var a, b :| rules == [Rule(a, true, [], [], true), Rule(b, true, [], [Discard], false)];
    assert rules[1..] == [rules[1]] && [rules[1]][1..] == [];
    assert PT.RulesLegal([]) && PT.RulesLegal([rules[1]]) && PT.RulesLegal(rules);
    ComposedDoes(rules, mail);
    var names := N.NamesOf(rules);
    SavedDiscard(b, RT.First(names), mail);
    var read := RT.ReadRule(rules[1], RT.First(names));
    assert RT.ReadRules([], RT.Others(names)) == [];
    assert RT.ReadRules([rules[1]], names) == [read] + [] && RT.ReadRules(rules, names) == [read] + [];
    assert [read] + [] == [read] && [read][1..] == [];
    var after := Followed(read, mail, Start(false));
    assert AllFollowed([], mail, after) == after && AllFollowed([read], mail, Start(false)) == after;
  }

  lemma SavedDiscard(b: string, name: string, mail: Mail)
    ensures Concluded(Followed(RT.ReadRule(Rule(b, true, [], [Discard], false), name), mail, Start(false))) == [Discard]
  {
    var run := Start(false).(cancelled := true);
    assert [Discard][1..] == [] && AllTaken([], mail, run) == run && AllTaken([Discard], mail, Start(false)) == run;
    assert RT.ReadActions([]) == [] && RT.ReadActions([Discard]) == [Discard] + [];
    assert [Discard] + [] == [Discard];
  }

  lemma TwoRun(script: string, cs: seq<P.Command>, mail: Mail)
    requires P.Program(script) == Some(cs) && cs == [IfMeant(W.True, [Stopping()]), IfMeant(W.True, [Discarding()])]
    ensures Result(script, mail) == [Keep([])]
  {
    hide P.Program, TrimSpace, W.CommandsMeant;
    if TrimSpace(script) == "" {
      BlankHasNoRules(script);
    }
    StopAlone();
    var start := Start(false);
    var after := start.(stopped := true);
    var s := W.BlankCommand(P.Stop);
    assert [s][1..] == [];
    assert Ran([s], mail, start) == after by {
      StoppedRun([], mail, after);
      assert Done(s, mail, start) == after;
    }
    StoppedRun(cs[1..], mail, after);
    assert RanBranch(cs[0].branches, mail, start) == after;
    assert Ran(cs, mail, start) == after;
    assert [] + [Keep([])] == [Keep([])];
  }
}
