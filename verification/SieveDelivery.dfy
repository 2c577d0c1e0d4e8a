/** The rule view tells the truth: what scripts and rules do (core/src/sieve.cpp). */
module SieveDelivery {
  import opened Text
  import opened SieveTests
  import opened SieveRun
  import opened SieveRules
  import opened SieveSurvives
  import opened SieveMeaning
  import L = SieveLex
  import P = SieveParse
  import PT = SievePrinted
  import RB = SieveReadBack
  import RT = SieveRoundTrip
  import N = SieveNames

  // ---- blank scripts ------------------------------------------------------

  predicate AllBlank(s: string) {
    forall i :: 0 <= i < |s| ==> s[i] in " \t\r\n"
  }

  lemma {:induction false} BlankIs(s: string)
    requires TrimSpace(s) == ""
    ensures AllBlank(s)
    decreases |s|
  {
    if s != "" && s[0] in " \t\r\n" {
      BlankIs(s[1..]);
      assert forall i :: 0 < i < |s| ==> s[i] == s[1..][i - 1];
    } else if |s| > 1 {
      BlankIs(s[..|s| - 1]);
    }
  }

  lemma {:induction false} BlankSkipped(s: string)
    requires AllBlank(s)
    ensures L.Skip(s) == ""
    decreases |s|
  {
    if s != "" {
      assert s[0] in " \t\r\n";
      assert forall i :: 0 <= i < |s[1..]| ==> s[1..][i] == s[i + 1];
      BlankSkipped(s[1..]);
    }
  }

  lemma BlankHasNoRules(script: string)
    requires TrimSpace(script) == ""
    ensures P.Program(script) == Some([]) && DecomposeOf(script) == Some([])
  {
    hide NamesFrom, TrimSpace;
    BlankIs(script);
    BlankSkipped(script);
    assert L.Lex(script) == Some([L.End]);
    assert P.Script([L.End]) == Some([]);
  }

  // ---- scripts of rules ---------------------------------------------------

  lemma StartIsBare(mail: Mail)
    ensures Bare(Start(false)) && !Start(false).stopped
    ensures Concluded(Start(false)) == [Keep([])]
  {
  }

  lemma ProgramTyped(script: string)
    ensures P.Program(script).Some? ==> AllCommandsTyped(P.Program(script).value)
  {
    hide L.Lex, P.Script, AllCommandsTyped;
    if P.Program(script).Some? {
      ScriptTyped(L.Lex(script).value);
    }
  }

  /** The rules shown for a script do with every message what the script does, unless a condition of the script is about
      addresses or minds the case of letters, an action has `:copy`, or something comes after a `stop`. */
  lemma ViewTellsTheTruth(script: string, mail: Mail)
    requires DecomposeOf(script).Some? && PlainProgram(P.Program(script).value)
    ensures Result(script, mail) == Delivered(DecomposeOf(script).value, mail)
  {
    hide P.Program, RulesOf, NamesFrom, Requires, PlainProgram, Ran, AllFollowed, AllCommandsTyped, Bare, TrimSpace, Concluded;
    StartIsBare(mail);
    if TrimSpace(script) == "" {
      BlankHasNoRules(script);
      NoRules(mail);
    } else {
      ProgramTyped(script);
      ProgramShown(P.Program(script).value, NamesFrom(script, ""), mail, Start(false));
    }
  }

  lemma NoRules(mail: Mail)
    ensures Delivered([], mail) == [Keep([])]
  {
  }

  // ---- scripts that are composed ------------------------------------------

  lemma PlainCore(t: RuleTest)
    ensures PlainTest(RB.CoreTree(t)) && PlainNegatable(RB.ConditionTree(t))
    ensures var k := RB.ConditionTree(t).kind; k != P.AllOf && k != P.AnyOf
  {
  }

  lemma {:induction false} PlainConditions(ts: seq<RuleTest>)
    ensures |RB.ConditionTrees(ts)| == |ts|
    ensures forall i :: 0 <= i < |ts| ==> PlainNegatable(RB.ConditionTrees(ts)[i])
  {
    hide RB.ConditionTree, PlainNegatable;
    if ts != [] {
      PlainCore(ts[0]);
      PlainConditions(ts[1..]);
    }
  }

  lemma PlainTestTree(r: Rule)
    ensures PlainCondition(RB.TestTree(r))
  {
    hide PlainNegatable, RB.ConditionTree;
    if |r.tests| == 1 {
      PlainCore(r.tests[0]);
    } else {
      PlainConditions(r.tests);
    }
  }

  lemma PlainAction(a: Action)
    ensures !Copies(RB.ActionTree(a)) && RB.ActionTree(a).kind != P.Stop
  {
  }

  lemma {:induction false} PlainBody(actions: seq<Action>, stop: bool)
    ensures PlainBlock(RB.BodyTree(actions, stop))
  {
    hide RB.ActionTree, Copies;
    if actions == [] {
      OneStop(stop);
    } else {
      PlainAction(actions[0]);
      PlainBody(actions[1..], stop);
      assert RB.BodyTree(actions, stop)[1..] == RB.BodyTree(actions[1..], stop);
    }
  }

  lemma OneStop(stop: bool)
    ensures PlainBlock(RB.BodyTree([], stop))
  {
    var cs := RB.BodyTree([], stop);
    if stop {
      assert cs[1..] == [];
    }
  }

  lemma {:induction false} PlainRules(rules: seq<Rule>)
    ensures PlainProgram(RB.RuleTrees(rules))
  {
    hide RB.TestTree, RB.BodyTree, PlainCondition, PlainBlock;
    if rules != [] {
      PlainRules(rules[1..]);
      PlainTestTree(rules[0]);
      PlainBody(rules[0].actions, rules[0].stop);
      if rules[0].actions != [] {
        assert PlainRule(RB.RuleTree(rules[0]));
        assert RB.RuleTrees(rules)[1..] == RB.RuleTrees(rules[1..]);
      }
    }
  }

  lemma PlainScript(rules: seq<Rule>)
    ensures PlainProgram(RB.ScriptTree(rules))
  {
    hide RB.RuleTrees, PlainRule, NeedOfRules;
    PlainRules(rules);
    var needed := NeedOfRules([], rules);
    if needed == [] {
      assert [] + RB.RuleTrees(rules) == RB.RuleTrees(rules);
    } else {
      assert RB.ScriptTree(rules)[1..] == RB.RuleTrees(rules);
    }
  }

  lemma ComposedIsNotBlank(rules: seq<Rule>)
    ensures TrimSpace(ComposeOf(rules)) != ""
  {
    hide RulesText, NeedOfRules, RequireText;
    assert ComposeOf(rules)[0] == '#';
    if TrimSpace(ComposeOf(rules)) == "" {
      BlankIs(ComposeOf(rules));
    }
  }

  /** A composed script does with every message what its rules do as they are read back. */
  lemma ComposedDoes(rules: seq<Rule>, mail: Mail)
    requires PT.RulesLegal(rules)
    ensures Result(ComposeOf(rules), mail) == Delivered(RT.ReadRules(rules, N.NamesOf(rules)), mail)
  {
    hide P.Program, RulesOf, NamesFrom, Requires, PlainProgram, Result, Delivered, RB.ScriptTree, ComposeOf;
    RB.PrintedScriptParses(rules);
    PlainScript(rules);
    RT.ReadsBackAs(rules);
    ViewTellsTheTruth(ComposeOf(rules), mail);
  }

  // ---- rules that say what they do ----------------------------------------

  /** The texts of the rule can be written and read back, and a rule that only stops is not lost. */
  predicate Sayable(r: Rule) {
    CanonicalTests(r.tests) && CanonicalActions(r.actions) && (r.stop ==> r.actions != [])
  }

  predicate AllSayable(rules: seq<Rule>) {
    rules == [] || (Sayable(rules[0]) && AllSayable(rules[1..]))
  }

  lemma SayableSurvives(r: Rule, name: string, mail: Mail, run: Run)
    requires Sayable(r)
    ensures PT.AllLegal(r.tests)
    ensures Followed(RT.ReadRule(r, name), mail, run) == Followed(r, mail, run)
    ensures r.actions == [] ==> Followed(r, mail, run) == run
  {
    hide CanonicalTests, CanonicalActions, RT.ReadTests, RT.ReadActions, Holds, AllTaken, PT.AllLegal;
    TestsSurvive(r.tests);
    ActionsSurvive(r.actions);
    var s := RT.ReadRule(r, name);
    assert s.tests == r.tests && s.actions == r.actions;
    if |r.tests| < 2 {
      OneOrAll(r, mail);
      OneOrAll(s, mail);
    }
    NothingTaken(mail, run);
  }

  lemma NothingTaken(mail: Mail, run: Run)
    ensures AllTaken([], mail, run) == run
  {
  }

  /** With fewer than two conditions it makes no difference whether all must hold or one. */
  lemma OneOrAll(r: Rule, mail: Mail)
    requires |r.tests| < 2
    ensures Applies(r, mail) <==> r.tests == [] || Holds(r.tests[0], mail)
  {
    hide Holds;
  }

  lemma {:induction false} AllSurvive(rules: seq<Rule>, names: seq<string>, mail: Mail, run: Run)
    requires AllSayable(rules)
    ensures PT.RulesLegal(rules)
    ensures AllFollowed(RT.ReadRules(rules, names), mail, run) == AllFollowed(rules, mail, run)
    decreases |rules|
  {
    hide Sayable, Followed, PT.AllLegal, RT.ReadRule;
    if rules != [] {
      SayableSurvives(rules[0], RT.First(names), mail, run);
      AllSurvive(rules[1..], names, mail, run);
      AllSurvive(rules[1..], RT.Others(names), mail, Followed(rules[0], mail, run));
      if rules[0].actions == [] {
        StoppedFollow(rules, mail, run);
        StoppedFollow(RT.ReadRules(rules, names), mail, run);
      } else {
        var read := RT.ReadRules(rules, names);
        assert read[0] == RT.ReadRule(rules[0], RT.First(names));
        assert read[1..] == RT.ReadRules(rules[1..], RT.Others(names));
      }
    }
  }

  lemma StoppedFollow(rules: seq<Rule>, mail: Mail, run: Run)
    ensures run.stopped ==> AllFollowed(rules, mail, run) == run
  {
  }

  /** A composed script does with every message what its rules say. */
  lemma ComposedDoesItsRules(rules: seq<Rule>, mail: Mail)
    requires AllSayable(rules)
    ensures Result(ComposeOf(rules), mail) == Delivered(rules, mail)
  {
    hide Result, ComposeOf, Concluded, AllSayable, PT.RulesLegal, RT.ReadRules, N.NamesOf, AllFollowed;
    AllSurvive(rules, N.NamesOf(rules), mail, Start(false));
    ComposedDoes(rules, mail);
  }

  /** Opening a script in the rule editor and saving it changes nothing about what becomes of any message. */
  lemma SavingChangesNothing(script: string, mail: Mail)
    requires DecomposeOf(script).Some? && PlainProgram(P.Program(script).value) && AllSayable(DecomposeOf(script).value)
    ensures Result(ComposeOf(DecomposeOf(script).value), mail) == Result(script, mail)
  {
    hide Result, DecomposeOf, ComposeOf, Delivered, AllSayable, PlainProgram, P.Program;
    ViewTellsTheTruth(script, mail);
    ComposedDoesItsRules(DecomposeOf(script).value, mail);
  }
}
