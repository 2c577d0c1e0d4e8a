/** When the rule editor gives a script back as it was (core/src/sieve.cpp). */
module SieveRewrite {
  import opened Text
  import opened SieveRules
  import opened SieveSurvives
  import L = SieveLex
  import P = SieveParse
  import W = SieveSyntax
  import SP = SievePieces
  import PT = SievePrinted
  import RB = SieveReadBack
  import RT = SieveRoundTrip

  // ---- scripts in the form the editor writes ------------------------------

  /** A test with nothing but names, keys and a match type. */
  function Matching(kind: P.TestKind, names: seq<string>, keys: seq<string>, matchType: string): P.Test {
    P.Test(kind, [], names, keys, matchType, "i;ascii-casemap", "all", "", 0)
  }

  /** One header, in lower case if it is one of the four that the editor names; or the body; with one key on one
      line and no other tags. Or the size. */
  predicate EditorTest(t: P.Test) {
    match t.kind
    case Header =>
      && |t.names| == 1 && |t.keys| == 1 && t == Matching(P.Header, t.names, t.keys, t.matchType)
      && OneLine(t.names[0]) && OneLine(t.keys[0])
      && (ToLower(t.names[0]) in ["from", "to", "cc", "subject"] ==> t.names[0] == ToLower(t.names[0]))
    case Body => |t.keys| == 1 && t == Matching(P.Body, [], t.keys, t.matchType) && OneLine(t.keys[0])
    case Size => t == Matching(P.Size, [], [], "is").(sizeRelation := t.sizeRelation, sizeLimit := t.sizeLimit)
    case _ => false
  }

  predicate EditorNegatable(t: P.Test) {
    if t.kind == P.Not then |t.children| == 1 && t == W.Blank(P.Not).(children := t.children) && EditorTest(t.children[0])
    else EditorTest(t)
  }

  predicate AllEditor(ts: seq<P.Test>) {
    ts == [] || (EditorNegatable(ts[0]) && AllEditor(ts[1..]))
  }

  /** `true`, one condition, or at least two joined. */
  predicate EditorCondition(t: P.Test) {
    if t.kind == P.Always then t == W.Blank(P.Always)
    else if t.kind == P.AllOf || t.kind == P.AnyOf then
      |t.children| >= 2 && t == W.Blank(t.kind).(children := t.children) && AllEditor(t.children)
    else EditorNegatable(t)
  }

  /** An action with the arguments that the editor writes: flags that are words, texts on one line, reasons on one line
      or of lines that end in CRLF, and days other than the seven that go without saying. */
  predicate EditorAction(c: P.Command) {
    match c.kind
    case Keep => c == W.BlankCommand(P.Keep).(flags := c.flags, hasFlags := c.flags != []) && AllWords(c.flags)
    case FileInto =>
      && c == W.BlankCommand(P.FileInto).(argument := c.argument, create := c.create, flags := c.flags, hasFlags := c.flags != [])
      && OneLine(c.argument) && AllWords(c.flags)
    case Redirect => c == W.BlankCommand(P.Redirect).(argument := c.argument) && OneLine(c.argument)
    case Reject => c == W.BlankCommand(P.Reject).(argument := c.argument) && CanonicalReason(c.argument)
    case Discard => c == W.BlankCommand(P.Discard)
    case Vacation =>
      && c == W.BlankCommand(P.Vacation).(argument := c.argument, vacSubject := c.vacSubject, vacFrom := c.vacFrom, vacHandle := c.vacHandle,
                                          vacAddresses := c.vacAddresses, vacDays := c.vacDays, vacMime := c.vacMime)
      && OneLine(c.vacSubject) && OneLine(c.vacFrom) && OneLine(c.vacHandle) && AllOneLine(c.vacAddresses)
      && c.vacDays != 7 && CanonicalReason(c.argument)
    case _ => false
  }

  /** Actions, and one `stop` after them at most. */
  predicate EditorBlock(cs: seq<P.Command>) {
    cs == [] || cs == [W.BlankCommand(P.Stop)] || (EditorAction(cs[0]) && EditorBlock(cs[1..]))
  }

  /** An `if` without further arms, with something to do. */
  predicate EditorRule(c: P.Command) {
    && c.kind == P.If && |c.branches| == 1 && c.branches[0].test.Some? && c == W.BlankCommand(P.If).(branches := c.branches)
    && EditorCondition(c.branches[0].test.value) && EditorBlock(c.branches[0].body)
    && c.branches[0].body != [] && c.branches[0].body[0].kind != P.Stop
  }

  predicate EditorProgram(cs: seq<P.Command>) {
    cs == [] || ((cs[0].kind == P.Require || EditorRule(cs[0])) && EditorProgram(cs[1..]))
  }

  // ---- tests --------------------------------------------------------------

  lemma TestComesBack(t: P.Test, negate: bool)
    requires Typed(t) && FlattenTest(t, negate).Some?
    ensures var shown := FlattenTest(t, negate).value;
            shown.negate == negate && (RB.CoreTree(shown) == t <==> EditorTest(t))
  {
    hide Num, DecValue, AllTyped, ToLower, Clean, OneLine;
    match t.kind
    case Header =>
      assert t.names == [t.names[0]] && t.keys == [t.keys[0]];
      CleanOneLine(t.keys[0]);
      NameComesBack(t.names[0]);
    case Address =>
      HeaderField(t.names[0]);
    case Body =>
      assert t.keys == [t.keys[0]];
      CleanOneLine(t.keys[0]);
    case Size => NumValue(t.sizeLimit);
  }

  lemma HeaderField(name: string)
    ensures var field := if RT.IsDirect(ToLower(name)) then ToLower(name) else "header:" + name;
            field != "size" && field != "body"
  {
    hide ToLower;
    assert ("header:" + name)[0] == 'h';
  }

  lemma NameComesBack(name: string)
    ensures var field := if RT.IsDirect(ToLower(name)) then ToLower(name) else "header:" + name;
            && field != "size" && field != "body"
            && (Clean(HeaderName(field)) == name <==>
                OneLine(name) && (ToLower(name) in ["from", "to", "cc", "subject"] ==> name == ToLower(name)))
  {
    hide ToLower, Clean, OneLine;
    HeaderField(name);
    CleanOneLine(name);
    CleanOneLine(ToLower(name));
    assert RT.IsDirect(ToLower(name)) <==> ToLower(name) in ["from", "to", "cc", "subject"];
    if RT.IsDirect(ToLower(name)) {
      DirectNames(ToLower(name));
    } else {
      assert ("header:" + name)[7..] == name;
    }
  }

  lemma NegatableComesBack(t: P.Test)
    requires Typed(t) && FlattenNegatable(t).Some?
    ensures RB.ConditionTree(FlattenNegatable(t).value) == t <==> EditorNegatable(t)
    ensures var k := RB.ConditionTree(FlattenNegatable(t).value).kind; k != P.AllOf && k != P.AnyOf && k != P.Always
  {
    hide FlattenTest, RB.CoreTree, EditorTest;
    if t.kind == P.Not {
      TestComesBack(t.children[0], true);
      assert t.children == [t.children[0]];
      CoreKind(FlattenTest(t.children[0], true).value);
    } else {
      TestComesBack(t, false);
      Unnegated(t);
      CoreKind(FlattenTest(t, false).value);
    }
  }

  lemma Unnegated(t: P.Test)
    requires FlattenTest(t, false).Some?
    ensures !FlattenTest(t, false).value.negate
    ensures t.kind == P.Header || t.kind == P.Address || t.kind == P.Body || t.kind == P.Size
  {
    hide ToLower, Num;
  }

  lemma CoreKind(t: RuleTest)
    ensures RB.CoreTree(t).kind == P.Header || RB.CoreTree(t).kind == P.Body || RB.CoreTree(t).kind == P.Size
  {
  }

  lemma {:induction false} AllComeBack(ts: seq<P.Test>)
    requires AllTyped(ts) && FlattenAll(ts).Some?
    ensures |FlattenAll(ts).value| == |ts|
    ensures RB.ConditionTrees(FlattenAll(ts).value) == ts <==> AllEditor(ts)
  {
    hide FlattenNegatable, RB.ConditionTree, EditorNegatable, Typed;
    if ts != [] {
      AllComeBack(ts[1..]);
      NegatableComesBack(ts[0]);
      var shown := FlattenAll(ts).value;
      assert shown[1..] == FlattenAll(ts[1..]).value;
      var trees := RB.ConditionTrees(shown);
      assert trees == [RB.ConditionTree(shown[0])] + RB.ConditionTrees(shown[1..]);
      assert trees[0] == RB.ConditionTree(shown[0]) && trees[1..] == RB.ConditionTrees(shown[1..]);
      assert ts == [ts[0]] + ts[1..];
    }
  }

  lemma ConditionComesBack(t: P.Test, r: Rule)
    requires Typed(t) && FlattenCondition(t) == Some((r.all, r.tests))
    ensures RB.TestTree(r) == t <==> EditorCondition(t)
  {
    hide FlattenAll, FlattenNegatable, RB.ConditionTree, EditorNegatable, AllEditor, RB.ConditionTrees;
    if t.kind == P.Always {
    } else if t.kind == P.AllOf || t.kind == P.AnyOf {
      AllComeBack(t.children);
      if |r.tests| == 1 {
        OneOfGroup(t);
      }
    } else {
      NegatableComesBack(t);
      assert r.tests[0] == FlattenNegatable(t).value;
    }
  }

  lemma OneOfGroup(t: P.Test)
    requires Typed(t) && FlattenAll(t.children).Some? && |FlattenAll(t.children).value| == 1
    ensures var k := RB.ConditionTree(FlattenAll(t.children).value[0]).kind; k != P.AllOf && k != P.AnyOf
  {
    hide FlattenNegatable, RB.ConditionTree;
    AllComeBack(t.children);
    NegatableComesBack(t.children[0]);
  }

  // ---- actions ------------------------------------------------------------

  lemma FlagsComeBack(flags: seq<string>)
    ensures RB.CleanAll(SplitFlags(flags)) == flags <==> AllWords(flags)
    ensures AllWords(flags) ==> SplitFlags(flags) == flags
    ensures SplitFlags(flags) == [] && AllWords(flags) ==> flags == []
  {
    SplitFlagsAreWords(flags);
    WordsAreClean(SplitFlags(flags));
    if AllWords(flags) {
      WordsAreClean(flags);
      FlagsSurvive(flags);
    }
  }

  lemma {:induction false} WordsAreClean(ws: seq<string>)
    requires AllWords(ws)
    ensures RB.CleanAll(ws) == ws
  {
    hide Words, IsWord, Clean;
    if ws != [] {
      WordIsOneLine(ws[0]);
      WordsAreClean(ws[1..]);
      assert ws == [ws[0]] + ws[1..];
    }
  }

  lemma ActionComesBack(c: P.Command)
    requires Flagged(c) && FlattenAction(c).Some?
    ensures RB.ActionTree(FlattenAction(c).value) == c <==> EditorAction(c)
    ensures c.kind != P.Stop
  {
    hide SplitFlags, RB.CleanAll, AllWords, AllOneLine, CanonicalReason, SP.ReasonValue, OneLine, Clean;
    FlagsComeBack(c.flags);
    CleanOneLine(c.argument);
    match c.kind
    case Keep =>
    case FileInto =>
    case Vacation => ReplyComesBack(c);
    case Reject => ReasonSurvives(c.argument);
    case _ =>
  }

  lemma ReplyComesBack(c: P.Command)
    requires c.kind == P.Vacation
    ensures RB.ActionTree(FlattenAction(c).value) == c <==> EditorAction(c)
  {
    hide RB.CleanAll, AllOneLine, CanonicalReason, SP.ReasonValue, OneLine, Clean;
    CleanOneLine(c.vacSubject);
    CleanOneLine(c.vacFrom);
    CleanOneLine(c.vacHandle);
    CleanAllSurvives(c.vacAddresses);
    ReasonSurvives(c.argument);
  }

  /** A block comes back when it is in the editor's form; one that begins with a stop, when it is that stop alone. */
  lemma {:induction false} BlockComesBack(cs: seq<P.Command>)
    requires AllFlagged(cs) && FlattenBlock(cs).Some?
    ensures var (actions, stop) := FlattenBlock(cs).value;
            && (RB.BodyTree(actions, stop) == cs <==> EditorBlock(cs))
            && (actions == [] ==> forall i :: 0 <= i < |cs| ==> cs[i].kind == P.Stop)
            && (EditorBlock(cs) && cs != [] && cs[0].kind != P.Stop ==> actions != [])
  {
    hide FlattenAction, RB.ActionTree, EditorAction, Flagged;
    if cs != [] {
      assert forall i :: 0 <= i < |cs[1..]| ==> cs[1..][i] == cs[i + 1];
      BlockComesBack(cs[1..]);
      if cs[0].kind == P.Stop {
        StopFirst(cs);
      } else {
        ActionComesBack(cs[0]);
        ActionFirst(cs);
      }
    }
  }

  lemma StopFirst(cs: seq<P.Command>)
    requires cs != [] && cs[0].kind == P.Stop && FlattenBlock(cs).Some?
    ensures var (actions, stop) := FlattenBlock(cs).value; RB.BodyTree(actions, stop) == cs <==> cs == [W.BlankCommand(P.Stop)]
    ensures EditorBlock(cs) <==> cs == [W.BlankCommand(P.Stop)]
  {
    hide FlattenAction, RB.ActionTree;
    var (actions, stop) := FlattenBlock(cs).value;
    assert stop;
    StopIsNoAction(cs[0]);
    if actions != [] {
      ActionKind(actions[0]);
      assert RB.BodyTree(actions, stop)[0] == RB.ActionTree(actions[0]);
    }
  }

  lemma StopIsNoAction(c: P.Command)
    requires c.kind == P.Stop
    ensures !EditorAction(c)
  {
  }

  lemma ActionKind(a: Action)
    ensures RB.ActionTree(a).kind != P.Stop
  {
  }

  lemma ActionFirst(cs: seq<P.Command>)
    requires cs != [] && cs[0].kind != P.Stop && FlattenBlock(cs).Some?
    requires RB.ActionTree(FlattenAction(cs[0]).value) == cs[0] <==> EditorAction(cs[0])
    requires var (more, stop) := FlattenBlock(cs[1..]).value; RB.BodyTree(more, stop) == cs[1..] <==> EditorBlock(cs[1..])
    ensures var (actions, stop) := FlattenBlock(cs).value;
            && (RB.BodyTree(actions, stop) == cs <==> EditorBlock(cs))
            && actions != []
  {
    hide FlattenAction, RB.ActionTree, EditorAction;
    var (actions, stop) := FlattenBlock(cs).value;
    var more := FlattenBlock(cs[1..]).value.0;
    assert actions == [FlattenAction(cs[0]).value] + more && actions[1..] == more;
    var tree := RB.BodyTree(actions, stop);
    assert tree == [RB.ActionTree(actions[0])] + RB.BodyTree(more, stop);
    assert tree[0] == RB.ActionTree(actions[0]) && tree[1..] == RB.BodyTree(more, stop);
    assert cs == [cs[0]] + cs[1..];
  }

  // ---- rules --------------------------------------------------------------

  lemma RuleComesBack(c: P.Command, name: string)
    requires CommandTyped(c) && FlattenRule(c, name).Some?
    ensures var r := FlattenRule(c, name).value; r.actions != [] && RB.RuleTree(r) == c <==> EditorRule(c)
  {
    hide FlattenCondition, FlattenBlock, EditorCondition, EditorBlock, RB.TestTree, RB.BodyTree, Typed, AllFlagged;
    var r, b := FlattenRule(c, name).value, c.branches[0];
    ConditionComesBack(b.test.value, r);
    BlockComesBack(b.body);
    assert c.branches == [b];
    if r.actions == [] {
      StopsFirst(b.body);
    } else {
      ActionsFirst(b.body);
    }
  }

  lemma StopsFirst(cs: seq<P.Command>)
    requires FlattenBlock(cs).Some? && forall i :: 0 <= i < |cs| ==> cs[i].kind == P.Stop
    ensures cs != [] ==> cs[0].kind == P.Stop
  {
  }

  lemma ActionsFirst(cs: seq<P.Command>)
    requires AllFlagged(cs) && FlattenBlock(cs).Some? && FlattenBlock(cs).value.0 != []
    ensures cs != []
    ensures EditorBlock(cs) ==> cs[0].kind != P.Stop
  {
    hide FlattenAction, EditorAction, Flagged, RB.ActionTree;
    if cs != [] && cs[0].kind == P.Stop {
      StopFirst(cs);
    }
  }

  /** The commands of a program other than requirements. */
  function Proper(cs: seq<P.Command>): seq<P.Command> {
    if cs == [] then [] else (if cs[0].kind == P.Require then [] else [cs[0]]) + Proper(cs[1..])
  }

  lemma {:induction false} RulesComeBack(cs: seq<P.Command>, names: seq<string>)
    requires AllCommandsTyped(cs) && RulesOf(cs, names).Some?
    ensures |RB.RuleTrees(RulesOf(cs, names).value)| <= |Proper(cs)|
    ensures RB.RuleTrees(RulesOf(cs, names).value) == Proper(cs) <==> EditorProgram(cs)
    decreases |cs|
  {
    hide FlattenRule, EditorRule, RB.RuleTree, CommandTyped;
    if cs != [] {
      if cs[0].kind == P.Require {
        RulesComeBack(cs[1..], names);
        assert [] + Proper(cs[1..]) == Proper(cs[1..]);
      } else {
        var rest := if names == [] then [] else names[1..];
        RuleComesBack(cs[0], if names == [] then "" else names[0]);
        RulesComeBack(cs[1..], rest);
        FirstComesBack(cs, names);
      }
    }
  }

  lemma FirstComesBack(cs: seq<P.Command>, names: seq<string>)
    requires cs != [] && cs[0].kind != P.Require && RulesOf(cs, names).Some?
    requires var r := FlattenRule(cs[0], if names == [] then "" else names[0]).value;
             r.actions != [] && RB.RuleTree(r) == cs[0] <==> EditorRule(cs[0])
    requires var rules := RulesOf(cs[1..], if names == [] then [] else names[1..]).value;
             |RB.RuleTrees(rules)| <= |Proper(cs[1..])| && (RB.RuleTrees(rules) == Proper(cs[1..]) <==> EditorProgram(cs[1..]))
    ensures |RB.RuleTrees(RulesOf(cs, names).value)| <= |Proper(cs)|
    ensures RB.RuleTrees(RulesOf(cs, names).value) == Proper(cs) <==> EditorProgram(cs)
  {
    hide FlattenRule, EditorRule, RB.RuleTree;
    var r := FlattenRule(cs[0], if names == [] then "" else names[0]).value;
    var rules := RulesOf(cs, names).value;
    var more := RulesOf(cs[1..], if names == [] then [] else names[1..]).value;
    assert rules == [r] + more && rules[1..] == more;
    var proper := Proper(cs);
    assert proper == [cs[0]] + Proper(cs[1..]) && proper[0] == cs[0] && proper[1..] == Proper(cs[1..]);
    if r.actions != [] {
      var trees := RB.RuleTrees(rules);
      assert trees == [RB.RuleTree(r)] + RB.RuleTrees(more) && trees[0] == RB.RuleTree(r) && trees[1..] == RB.RuleTrees(more);
    }
  }

  lemma {:induction false} TreesAreProper(rules: seq<Rule>)
    ensures Proper(RB.RuleTrees(rules)) == RB.RuleTrees(rules)
  {
    hide RB.RuleTree;
    if rules != [] {
      TreesAreProper(rules[1..]);
      if rules[0].actions != [] {
        RT.RuleTreeIsIf(rules[0]);
        assert RB.RuleTrees(rules)[1..] == RB.RuleTrees(rules[1..]);
      }
    }
  }

  lemma ProperScript(rules: seq<Rule>)
    ensures Proper(RB.ScriptTree(rules)) == RB.RuleTrees(rules)
  {
    hide RB.RuleTrees, NeedOfRules;
    TreesAreProper(rules);
    var needed := NeedOfRules([], rules);
    if needed == [] {
      assert [] + RB.RuleTrees(rules) == RB.RuleTrees(rules);
    } else {
      assert RB.ScriptTree(rules)[1..] == RB.RuleTrees(rules);
      assert [] + RB.RuleTrees(rules) == RB.RuleTrees(rules);
    }
  }

  /** Opening a script in the rule editor and saving it gives back the same commands, requirements aside, exactly when it is
      in the form the editor writes. */
  lemma GivenBackAsItWas(script: string)
    requires DecomposeOf(script).Some?
    ensures P.Program(ComposeOf(DecomposeOf(script).value)).Some?
    ensures Proper(P.Program(ComposeOf(DecomposeOf(script).value)).value) == Proper(P.Program(script).value) <==>
            EditorProgram(P.Program(script).value)
  {
    hide L.Lex, P.Script, RulesOf, NamesFrom, Requires, ComposeOf, EditorProgram, Proper, RB.RuleTrees, RB.ScriptTree, AllCommandsTyped, PT.RulesLegal;
    var p, rules := P.Program(script).value, DecomposeOf(script).value;
    ScriptTyped(L.Lex(script).value);
    ReadRulesAreLegal(script);
    RB.PrintedScriptParses(rules);
    ProperScript(rules);
    RulesComeBack(p, NamesFrom(script, ""));
  }
}
