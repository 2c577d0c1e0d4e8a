/** What reading a printed script back gives: the tree of a printed script flattens into its rules, each as
    the lexer and the scan for names leave it. */
module SieveRoundTrip {
  import opened Text
  import opened SieveLex
  import opened SieveRules
  import opened SievePieces
  import opened SievePrinted
  import opened SieveReadBack
  import opened SieveNames
  import P = SieveParse

  // ---- what the reader makes of a printed rule ----------------------------

  predicate IsDirect(field: string) {
    field == "from" || field == "to" || field == "cc" || field == "subject"
  }

  function ReadField(name: string): string {
    if IsDirect(ToLower(name)) then ToLower(name) else "header:" + name
  }

  function ReadTest(t: RuleTest): RuleTest {
    if t.field == "size" then t.(op := if t.op == "under" then "under" else "over")
    else if t.field == "body" then t.(value := Clean(t.value))
    else t.(field := ReadField(Clean(HeaderName(t.field))), value := Clean(t.value))
  }

  function ReadTests(ts: seq<RuleTest>): (r: seq<RuleTest>)
    ensures |r| == |ts|
  {
    if ts == [] then [] else [ReadTest(ts[0])] + ReadTests(ts[1..])
  }

  function ReadFlags(flags: seq<string>): seq<string> {
    SplitFlags(CleanAll(flags))
  }

  function ReadAction(a: Action): Action {
    match a
    case Keep(flags) => Keep(ReadFlags(flags))
    case FileInto(folder, create, flags) => FileInto(Clean(folder), create, ReadFlags(flags))
    case Redirect(address) => Redirect(Clean(address))
    case Reject(reason) => Reject(ReasonValue(reason))
    case Discard => Discard
    case Vacation(v, reason) =>
      Vacation(VacationSpec(Clean(v.subject), Clean(v.from), Clean(v.handle), CleanAll(v.addresses),
                            if v.days > 0 then v.days else 7, v.mime), ReasonValue(reason))
  }

  function ReadActions(actions: seq<Action>): (r: seq<Action>)
    ensures |r| == |actions|
  {
    if actions == [] then [] else [ReadAction(actions[0])] + ReadActions(actions[1..])
  }

  function ReadRule(r: Rule, name: string): Rule {
    Rule(name, r.all || |r.tests| < 2, ReadTests(r.tests), ReadActions(r.actions), r.stop)
  }

  function First(names: seq<string>): string {
    if names == [] then "" else names[0]
  }

  function Others(names: seq<string>): seq<string> {
    if names == [] then [] else names[1..]
  }

  /** The rules as they are read back, named in order; rules without actions are not printed. */
  function ReadRules(rules: seq<Rule>, names: seq<string>): seq<Rule>
    decreases |rules|
  {
    if rules == [] then []
    else if rules[0].actions == [] then ReadRules(rules[1..], names)
    else [ReadRule(rules[0], First(names))] + ReadRules(rules[1..], Others(names))
  }

  lemma CoreFlattens(t: RuleTest, negate: bool)
    requires LegalTest(t)
    ensures FlattenTest(CoreTree(t), negate) == Some(ReadTest(t).(negate := negate))
    ensures CoreTree(t).kind.Size? || CoreTree(t).kind.Body? || CoreTree(t).kind.Header?
  {
    hide Clean, HeaderName, DecValue, Num, ToLower;
  }

  lemma ConditionFlattens(t: RuleTest)
    requires LegalTest(t)
    ensures FlattenNegatable(ConditionTree(t)) == Some(ReadTest(t))
    ensures var k := ConditionTree(t).kind; k.Not? || k.Size? || k.Body? || k.Header?
  {
    hide CoreTree, LegalTest, FlattenTest, Clean, HeaderName, ToLower;
    CoreFlattens(t, t.negate);
  }

  lemma {:induction false} ConditionsFlatten(ts: seq<RuleTest>)
    requires AllLegal(ts)
    ensures FlattenAll(ConditionTrees(ts)) == Some(ReadTests(ts))
  {
    hide ConditionTree, LegalTest, ReadTest, FlattenNegatable;
    if ts != [] {
      ConditionFlattens(ts[0]);
      ConditionsFlatten(ts[1..]);
      assert ConditionTrees(ts)[1..] == ConditionTrees(ts[1..]);
    }
  }

  lemma TestFlattens(r: Rule)
    requires AllLegal(r.tests)
    ensures FlattenCondition(TestTree(r)) == Some((r.all || |r.tests| < 2, ReadTests(r.tests)))
  {
    hide ConditionTree, ConditionTrees, LegalTest, ReadTest, FlattenNegatable, FlattenAll;
    ConditionsFlatten(r.tests);
    if |r.tests| == 1 {
      ConditionFlattens(r.tests[0]);
      assert ReadTests(r.tests) == [ReadTest(r.tests[0])];
    } else if |r.tests| > 1 {
      assert ReadTests(r.tests) != [];
    }
  }

  lemma ActionFlattens(a: Action)
    ensures FlattenAction(ActionTree(a)) == Some(ReadAction(a)) && ActionTree(a).kind != P.Stop
  {
    hide Clean, CleanAll, ReasonValue, SplitFlags;
  }

  lemma {:induction false} BodyFlattens(actions: seq<Action>, stop: bool)
    ensures FlattenBlock(BodyTree(actions, stop)) == Some((ReadActions(actions), stop))
  {
    hide ActionTree, ReadAction, FlattenAction;
    if actions == [] {
      if stop {
        assert BodyTree(actions, stop)[1..] == [];
      }
    } else {
      ActionFlattens(actions[0]);
      BodyFlattens(actions[1..], stop);
      assert BodyTree(actions, stop)[1..] == BodyTree(actions[1..], stop);
    }
  }

  lemma RuleFlattens(r: Rule, name: string)
    requires AllLegal(r.tests)
    ensures FlattenRule(RuleTree(r), name) == Some(ReadRule(r, name))
  {
    hide TestTree, BodyTree, AllLegal, FlattenCondition, FlattenBlock, ReadTests, ReadActions;
    TestFlattens(r);
    BodyFlattens(r.actions, r.stop);
  }

  lemma {:induction false} RulesFlatten(rules: seq<Rule>, names: seq<string>)
    requires RulesLegal(rules)
    ensures RulesOf(RuleTrees(rules), names) == Some(ReadRules(rules, names))
    decreases |rules|
  {
    hide RuleTree, ReadRule, FlattenRule, AllLegal;
    if rules != [] {
      if rules[0].actions == [] {
        RulesFlatten(rules[1..], names);
      } else {
        RuleFlattens(rules[0], First(names));
        RulesFlatten(rules[1..], Others(names));
        RuleTreeIsIf(rules[0]);
        assert RuleTrees(rules)[1..] == RuleTrees(rules[1..]);
      }
    }
  }

  lemma RuleTreeIsIf(r: Rule)
    ensures RuleTree(r).kind == P.If
  {
  }

  // ---- the capabilities a script asks for ---------------------------------

  predicate KnownCapability(c: string) {
    c == "fileinto" || c == "mailbox" || c == "reject" || c == "vacation" || c == "imap4flags"
  }

  predicate Known(needed: seq<string>) {
    forall i :: 0 <= i < |needed| ==> KnownCapability(needed[i])
  }

  lemma NeedKnown(needed: seq<string>, c: string)
    requires Known(needed) && KnownCapability(c)
    ensures Known(Need(needed, c))
  {
    hide KnownCapability;
  }

  lemma NeedOfActionKnown(needed: seq<string>, a: Action)
    requires Known(needed)
    ensures Known(NeedOfAction(needed, a))
  {
    hide Known, Need;
    var n0 := if a.FileInto? then Need(needed, "fileinto") else needed;
    NeedKnown(needed, "fileinto");
    NeedKnown(n0, "mailbox");
    var n1 := if a.FileInto? && a.create then Need(n0, "mailbox") else n0;
    NeedKnown(n1, "reject");
    var n2 := if a.Reject? then Need(n1, "reject") else n1;
    NeedKnown(n2, "vacation");
    var n3 := if a.Vacation? then Need(n2, "vacation") else n2;
    NeedKnown(n3, "imap4flags");
  }

  lemma {:induction false} NeedOfActionsKnown(needed: seq<string>, actions: seq<Action>)
    requires Known(needed)
    ensures Known(NeedOfActions(needed, actions))
    decreases |actions|
  {
    hide Known, NeedOfAction;
    if actions != [] {
      NeedOfActionKnown(needed, actions[0]);
      NeedOfActionsKnown(NeedOfAction(needed, actions[0]), actions[1..]);
    }
  }

  lemma {:induction false} NeedOfRulesKnown(needed: seq<string>, rules: seq<Rule>)
    requires Known(needed)
    ensures Known(NeedOfRules(needed, rules))
    decreases |rules|
  {
    hide Known, NeedOfActions;
    if rules != [] {
      NeedOfActionsKnown(needed, rules[0].actions);
      NeedOfRulesKnown(NeedOfActions(needed, rules[0].actions), rules[1..]);
    }
  }

  lemma NotVariables(c: string)
    requires KnownCapability(c)
    ensures ToLower(TrimSpace(Clean(c))) != "variables"
  {
    hide ToLower, TrimSpace, Clean, OneLine;
    CleanOneLine(c);
    TrimSpaceShortens(Clean(c));
    if c == "imap4flags" {
      FlagsCapability();
      TrimSpaceShortens(c);
    }
    assert |ToLower(TrimSpace(Clean(c)))| == |TrimSpace(Clean(c))|;
  }

  lemma FlagsCapability()
    ensures OneLine("imap4flags")
  {
  }

  lemma {:induction false} CleanAllAt(items: seq<string>, i: nat)
    requires i < |items|
    ensures CleanAll(items)[i] == Clean(items[i])
  {
    if i > 0 {
      CleanAllAt(items[1..], i - 1);
      assert CleanAll(items)[i] == CleanAll(items[1..])[i - 1];
    }
  }

  lemma KnownDoesNotAsk(needed: seq<string>)
    requires Known(needed)
    ensures !Asks(CleanAll(needed), "variables")
  {
    hide KnownCapability, ToLower, TrimSpace, Clean, CleanAll;
    forall i | 0 <= i < |needed|
      ensures ToLower(TrimSpace(CleanAll(needed)[i])) != "variables"
    {
      CleanAllAt(needed, i);
      NotVariables(needed[i]);
    }
  }

  lemma {:induction false} RuleTreesAreIfs(rules: seq<Rule>, i: nat)
    requires i < |RuleTrees(rules)|
    ensures RuleTrees(rules)[i].kind == P.If
  {
    hide RuleTree;
    if rules[0].actions == [] {
      RuleTreesAreIfs(rules[1..], i);
    } else if i == 0 {
      RuleTreeIsIf(rules[0]);
    } else {
      RuleTreesAreIfs(rules[1..], i - 1);
      assert RuleTrees(rules)[i] == RuleTrees(rules[1..])[i - 1];
    }
  }

  lemma NoVariables(rules: seq<Rule>)
    ensures !Requires(ScriptTree(rules), "variables")
  {
    hide Asks, CleanAll, RuleTrees, NeedOfRules;
    var needed := NeedOfRules([], rules);
    NeedOfRulesKnown([], rules);
    KnownDoesNotAsk(needed);
    var cs := ScriptTree(rules);
    var front := if needed == [] then 0 else 1;
    forall i | 0 <= i < |cs|
      ensures !(cs[i].kind == P.Require && Asks(cs[i].capabilities, "variables"))
    {
      if i >= front {
        RuleTreesAreIfs(rules, i - front);
        assert cs[i] == RuleTrees(rules)[i - front];
      } else {
        assert cs[i] == RequireTree(needed);
      }
    }
  }

  lemma ScriptFlattens(rules: seq<Rule>, names: seq<string>)
    requires RulesLegal(rules)
    ensures RulesOf(ScriptTree(rules), names) == Some(ReadRules(rules, names))
  {
    hide RuleTrees, NeedOfRules, RulesLegal, FlattenRule, CleanAll, ReadRules;
    RulesFlatten(rules, names);
    var needed := NeedOfRules([], rules);
    if needed == [] {
      assert [] + RuleTrees(rules) == RuleTrees(rules);
    } else {
      assert ScriptTree(rules)[1..] == RuleTrees(rules) && ScriptTree(rules)[0] == RequireTree(needed);
    }
  }

  /** Reading a printed script back: the rules with actions, normalised, under the names that the
      script's lines spell. */
  lemma ReadsBackAs(rules: seq<Rule>)
    requires RulesLegal(rules)
    ensures DecomposeOf(ComposeOf(rules)) == Some(ReadRules(rules, NamesOf(rules)))
  {
    hide P.Program, ScriptTree, RulesOf, NamesFrom, ComposeOf, Requires, RulesLegal, NamesOf, ReadRules;
    PrintedScriptParses(rules);
    PrintedScriptNames(rules);
    NoVariables(rules);
    ScriptFlattens(rules, NamesOf(rules));
  }
}
