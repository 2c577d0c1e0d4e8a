/** Which rules survive being printed and read back: exactly the canonical ones. */
module SieveCanonical {
  import opened Text
  import opened SieveRules
  import opened SievePrinted
  import opened SieveNames
  import opened SieveRoundTrip
  import opened SieveSurvives

  // ---- rules --------------------------------------------------------------

  /** A rule apart from its name. */
  predicate CanonicalRule(r: Rule) {
    r.actions != [] && (|r.tests| < 2 ==> r.all) && CanonicalTests(r.tests) && CanonicalActions(r.actions)
  }

  lemma RuleSurvives(r: Rule)
    ensures r.actions != [] && AllLegal(r.tests) && ReadRule(r, r.name) == r <==> CanonicalRule(r)
  {
    hide AllLegal, ReadTests, ReadActions, CanonicalTests, CanonicalActions;
    TestsSurvive(r.tests);
    ActionsSurvive(r.actions);
  }

  predicate CanonicalRules(rules: seq<Rule>) {
    rules == [] || (CanonicalRule(rules[0]) && CanonicalRules(rules[1..]))
  }

  /** Each rule's own name is the next of the names the lines of the script spell. */
  predicate NamesKept(rules: seq<Rule>, names: seq<string>)
    decreases |rules|
  {
    rules == [] || (First(names) == rules[0].name && NamesKept(rules[1..], Others(names)))
  }

  lemma {:induction false} ReadRulesShorten(rules: seq<Rule>, names: seq<string>)
    ensures |ReadRules(rules, names)| <= |rules|
    decreases |rules|
  {
    if rules != [] {
      ReadRulesShorten(rules[1..], if rules[0].actions == [] then names else Others(names));
    }
  }

  lemma {:induction false} RulesSurvive(rules: seq<Rule>, names: seq<string>)
    ensures RulesLegal(rules) && ReadRules(rules, names) == rules <==> CanonicalRules(rules) && NamesKept(rules, names)
    decreases |rules|
  {
    hide AllLegal, ReadRule, CanonicalRule;
    if rules != [] {
      RuleSurvives(rules[0]);
      RulesSurvive(rules[1..], Others(names));
      assert rules == [rules[0]] + rules[1..];
      if rules[0].actions == [] {
        ReadRulesShorten(rules[1..], names);
        assert !CanonicalRule(rules[0]);
      } else {
        assert ReadRules(rules, names)[1..] == ReadRules(rules[1..], Others(names));
        NameOfReadRule(rules[0], First(names));
      }
    }
  }

  lemma NameOfReadRule(r: Rule, name: string)
    ensures ReadRule(r, name).name == name
  {
  }

  /** Printing rules and reading the script back gives the same rules exactly when every rule is
      canonical and no line of a reason steals a name. */
  lemma {:induction false} ComposeThenDecompose(rules: seq<Rule>)
    ensures DecomposeOf(ComposeOf(rules)) == Some(rules) <==> CanonicalRules(rules) && NamesKept(rules, NamesOf(rules))
  {
    hide DecomposeOf, ComposeOf, RulesLegal, ReadRules, CanonicalRules, NamesKept, NamesOf;
    RulesSurvive(rules, NamesOf(rules));
    if RulesLegal(rules) {
      ReadsBackAs(rules);
    } else {
      ReadRulesAreLegal(ComposeOf(rules));
    }
  }

  /** A line of a script that `RuleNames` takes for the start of a rule. */
  predicate LooksLikeIf(line: string) {
    var t := TrimRight(TrimLeft(line));
    "if " <= t || t == "if"
  }

  /** No printed line of a multi-line reason looks like the start of a rule. */
  predicate QuietLines(s: string)
    decreases |s|
  {
    var nl := IndexOf(s, '\n', 0);
    !LooksLikeIf(Stuff(StripCr(s[..nl]))) && (nl < |s| ==> QuietLines(s[nl + 1..]))
  }

  predicate QuietActions(actions: seq<Action>) {
    actions == [] ||
    (((actions[0].Reject? || actions[0].Vacation?) && !OneLine(actions[0].reason) ==> QuietLines(Chomp(actions[0].reason))) &&
     QuietActions(actions[1..]))
  }

  predicate TidyRules(rules: seq<Rule>) {
    rules == [] || (TidyName(rules[0].name) && QuietActions(rules[0].actions) && TidyRules(rules[1..]))
  }

  lemma {:induction false} QuietBlock(s: string, p: string)
    requires QuietLines(s)
    ensures BlockNames(s, p).0 == []
    decreases |s|
  {
    hide Stuff, StripCr, TrimLeft, TrimRight, TrimBlanks;
    var nl := IndexOf(s, '\n', 0);
    if nl < |s| {
      QuietBlock(s[nl + 1..], NameLine(Stuff(StripCr(s[..nl])), p).1);
    }
  }

  lemma {:induction false} QuietActionsAddNothing(actions: seq<Action>)
    requires QuietActions(actions)
    ensures StrayOfActions(actions) == []
  {
    hide QuietLines, BlockNames, OneLine, Chomp;
    if actions != [] {
      var a := actions[0];
      if (a.Reject? || a.Vacation?) && !OneLine(a.reason) {
        QuietBlock(Chomp(a.reason), "");
      }
      QuietActionsAddNothing(actions[1..]);
    }
  }

  lemma {:induction false} TidyNamesKept(rules: seq<Rule>)
    requires TidyRules(rules) && CanonicalRules(rules)
    ensures NamesKept(rules, NamesOf(rules))
  {
    hide TidyName, QuietActions, ReadName, CanonicalTests, CanonicalActions, StrayOfActions;
    if rules != [] {
      NameSurvives(rules[0].name);
      QuietActionsAddNothing(rules[0].actions);
      TidyNamesKept(rules[1..]);
      assert EntriesOf(rules[0]) == [rules[0].name];
      assert NamesOf(rules)[1..] == NamesOf(rules[1..]);
    }
  }

  /** Canonical rules with tidy names, and no reason with a line that looks like an `if`, survive. */
  lemma {:induction false} TidyRulesRoundTrip(rules: seq<Rule>)
    requires CanonicalRules(rules) && TidyRules(rules)
    ensures DecomposeOf(ComposeOf(rules)) == Some(rules)
  {
    hide DecomposeOf, ComposeOf, CanonicalRules, TidyRules, NamesKept, NamesOf;
    TidyNamesKept(rules);
    ComposeThenDecompose(rules);
  }

  /** A rule that does one thing to every message. */
  function Always(name: string, action: Action): Rule {
    Rule(name, true, [], [action], false)
  }

  lemma AlwaysIsCanonical(name: string, action: Action)
    requires CanonicalAction(action)
    ensures CanonicalRule(Always(name, action))
    ensures EntriesOf(Always(name, action)) == [ReadName(name)] + StrayOf(action)
  {
    hide CanonicalAction, StrayOf, ReadName;
    assert [action][1..] == [];
    assert CanonicalActions([]) && CanonicalTests([]) && StrayOfActions([]) == [];
    assert StrayOfActions([action]) == StrayOf(action) + [];
  }

  /** A reason whose line looks like an `if` takes the name of the rule after it: canonical rules with tidy
      names, the second of which is not given back. */
  lemma IfLineTakesAName() returns (rules: seq<Rule>)
    ensures CanonicalRules(rules) && (forall i :: 0 <= i < |rules| ==> TidyName(rules[i].name))
    ensures DecomposeOf(ComposeOf(rules)) != Some(rules)
  {
    hide DecomposeOf, ComposeOf, TidyName, ReadName, CanonicalRule, CanonicalAction, StrayOf, EntriesOf, Always;
    var first, second := Always("first", Reject("if x\r\n")), Always("second", Discard);
    rules := [first, second];
    ReasonIsIf();
    AlwaysIsCanonical("first", Reject("if x\r\n"));
    AlwaysIsCanonical("second", Discard);
    TwoNames();
    assert rules[1..] == [second] && [second][1..] == [];
    assert CanonicalRules([]) && CanonicalRules([second]);
    assert NamesOf([]) == [] && NamesOf([second]) == ["second"] + [];
    assert NamesOf(rules) == ["first", ""] + NamesOf([second]);
    assert Others(NamesOf(rules))[0] == "";
    ComposeThenDecompose(rules);
  }

  lemma ReasonIsIf()
    ensures CanonicalAction(Reject("if x\r\n")) && StrayOf(Reject("if x\r\n")) == [""]
    ensures CanonicalAction(Discard) && StrayOf(Discard) == []
  {
    var s := "if x\r\n";
    assert s[5] == '\n' && s[..|s| - 2] == "if x" && s[|s| - 2..] == "\r\n" && s[..|s| - 1] == "if x\r";
    assert "if x\r"[..4] == "if x" && "if x"[..4] == "if x";
    assert IndexOf("if x", '\n', 0) == 4;
    assert Chomp(s) == "if x";
    assert TrimLeft("if x") == "if x" && TrimRight("if x") == "if x";
  }

  lemma TwoNames()
    ensures TidyName("first") && TidyName("second") && ReadName("first") == "first" && ReadName("second") == "second"
    ensures Always("first", Reject("if x\r\n")).name == "first" && Always("second", Discard).name == "second"
  {
    hide ReadName;
    NameSurvives("first");
    NameSurvives("second");
  }

  // ---- the text of a rule -------------------------------------------------

  /** A rule is written after the comment that names it. */
  lemma RuleTextBegins(r: Rule)
    requires r.name != "" && OneLine(r.name) && r.actions != []
    ensures "\n# rule: " + (r.name + "\nif ") <= RuleText(r)
  {
    hide Flatten1, OneLine, TestText, ActionsText;
    OneLineName(r.name);
    var test := TestText(r) + (" {\n" + (ActionsText(r.actions) + ((if r.stop then "    stop;\n" else "") + "}\n")));
    assert RuleText(r) == "\n" + (("# rule: " + (r.name + "\n")) + ("if " + test));
    Regroup("\n", "# rule: ", r.name, "\n", "if ", test);
    assert "\n" + "# rule: " == "\n# rule: " && "\n" + "if " == "\nif ";
  }

  lemma Regroup(a: string, b: string, c: string, d: string, e: string, f: string)
    ensures a + ((b + (c + d)) + (e + f)) == ((a + b) + (c + (d + e))) + f
  {
  }

  lemma {:induction false} OneLineName(name: string)
    requires OneLine(name)
    ensures Flatten1(name) == name
  {
    if name != "" {
      OneLineName(name[1..]);
      assert name == [name[0]] + name[1..];
    }
  }

  // ---- what a script requires ---------------------------------------------

  /** The action is written with the extension. */
  predicate Uses(a: Action, extension: string) {
    || (a.FileInto? && (extension == "fileinto" || (a.create && extension == "mailbox")))
    || (a.Reject? && extension == "reject")
    || (a.Vacation? && extension == "vacation")
    || ((a.Keep? || a.FileInto?) && a.flags != [] && extension == "imap4flags")
  }

  predicate SomeUses(actions: seq<Action>, extension: string) {
    exists i :: 0 <= i < |actions| && Uses(actions[i], extension)
  }

  lemma {:induction false} NeedOfActionsIs(needed: seq<string>, actions: seq<Action>, extension: string)
    ensures extension in NeedOfActions(needed, actions) <==> extension in needed || SomeUses(actions, extension)
    decreases |actions|
  {
    hide Uses, NeedOfAction;
    if actions != [] {
      NeedOfActionIs(needed, actions[0], extension);
      NeedOfActionsIs(NeedOfAction(needed, actions[0]), actions[1..], extension);
      if i :| 0 <= i < |actions| && Uses(actions[i], extension) {
        assert i > 0 ==> actions[1..][i - 1] == actions[i];
      }
      if i :| 0 <= i < |actions[1..]| && Uses(actions[1..][i], extension) {
        assert actions[i + 1] == actions[1..][i];
      }
    }
  }

  lemma NeedOfActionIs(needed: seq<string>, a: Action, extension: string)
    ensures extension in NeedOfAction(needed, a) <==> extension in needed || Uses(a, extension)
  {
  }

  /** A script requires an extension exactly when an action of some rule uses it. */
  lemma {:induction false} RequiresWhatIsUsed(needed: seq<string>, rules: seq<Rule>, extension: string)
    ensures extension in NeedOfRules(needed, rules) <==>
            extension in needed || exists k :: 0 <= k < |rules| && SomeUses(rules[k].actions, extension)
    decreases |rules|
  {
    hide SomeUses, NeedOfActions;
    if rules != [] {
      NeedOfActionsIs(needed, rules[0].actions, extension);
      RequiresWhatIsUsed(NeedOfActions(needed, rules[0].actions), rules[1..], extension);
      if k :| 0 <= k < |rules| && SomeUses(rules[k].actions, extension) {
        assert k > 0 ==> rules[1..][k - 1] == rules[k];
      }
      if k :| 0 <= k < |rules[1..]| && SomeUses(rules[1..][k].actions, extension) {
        assert rules[k + 1] == rules[1..][k];
      }
    }
  }
}
