/** What the rules of the rule view do to a message, said of the rules alone, and that a script the view shows does the
    same (core/src/sieve.cpp): condition by condition, action by action, rule by rule. */
module SieveMeaning {
  import opened Text
  import opened SieveVariables
  import opened SieveTests
  import opened SieveRun
  import opened SieveSurvives
  import P = SieveParse
  import R = SieveRules

  // ---- what rules do ------------------------------------------------------

  /** Some value matches, without regard to case. */
  predicate TextMatches(values: seq<string>, op: string, key: string) {
    exists i :: 0 <= i < |values| && MatchOne(values[i], key, op, "i;ascii-casemap").Some?
  }

  /** What a condition looks at, before it is negated. */
  predicate Met(t: R.RuleTest, mail: Mail) {
    if t.field == "size" then if t.op == "under" then |mail.raw| < DecValue(t.value) else |mail.raw| > DecValue(t.value)
    else if t.field == "body" then TextMatches([BodyOf(mail.raw)], if t.op == "is" then "contains" else t.op, t.value)
    else TextMatches(HeaderValues(mail.headers, R.HeaderName(t.field)), t.op, t.value)
  }

  predicate Holds(t: R.RuleTest, mail: Mail) {
    Met(t, mail) != t.negate
  }

  /** All conditions hold, or one of them; without conditions a rule always applies. */
  predicate Applies(r: R.Rule, mail: Mail) {
    || r.tests == []
    || (r.all && forall i :: 0 <= i < |r.tests| ==> Holds(r.tests[i], mail))
    || (!r.all && exists i :: 0 <= i < |r.tests| && Holds(r.tests[i], mail))
  }

  /** The days between replies, a week when none are given and a year at most. */
  function DaysBetween(days: int): int {
    if days > 0 then Min(days, 365) else 7
  }

  /** Flags are taken once each; a reply is sent once and only where it is warranted. */
  function Taken(a: Action, mail: Mail, run: Run): Run {
    match a
    case Keep(flags) => Acted(run, R.Keep(FlagsAdded([], flags)), true)
    case FileInto(folder, create, flags) => Acted(run, R.FileInto(folder, create, FlagsAdded([], flags)), true)
    case Redirect(address) => Acted(run, a, true)
    case Reject(reason) => Acted(run, a, true).(stopped := true)
    case Discard => run.(cancelled := true)
    case Vacation(spec, reason) =>
      if Replies(run.actions) || !Warranted(mail, spec.addresses) then run
      else Acted(run, R.Vacation(spec.(days := DaysBetween(spec.days)), reason), false)
  }

  function AllTaken(actions: seq<Action>, mail: Mail, run: Run): Run
    decreases |actions|
  {
    if actions == [] || run.stopped then run else AllTaken(actions[1..], mail, Taken(actions[0], mail, run))
  }

  function Halted(run: Run, stop: bool): Run {
    if stop then run.(stopped := true) else run
  }

  /** A rule that applies takes its actions, and may stop the rules after it. */
  function Followed(r: R.Rule, mail: Mail, run: Run): Run {
    if Applies(r, mail) then Halted(AllTaken(r.actions, mail, run), r.stop) else run
  }

  function AllFollowed(rules: seq<R.Rule>, mail: Mail, run: Run): Run
    decreases |rules|
  {
    if rules == [] || run.stopped then run else AllFollowed(rules[1..], mail, Followed(rules[0], mail, run))
  }

  /** What a list of rules makes of a message. */
  function Delivered(rules: seq<R.Rule>, mail: Mail): seq<Action> {
    Concluded(AllFollowed(rules, mail, Start(false)))
  }

  // ---- what the view shows fully ------------------------------------------

  /** Headers or the text after them, compared without regard to case, or the size. */
  predicate PlainTest(t: P.Test) {
    (t.kind == P.Header || t.kind == P.Body || t.kind == P.Size) && t.comparator != "i;octet"
  }

  predicate PlainNegatable(t: P.Test) {
    if t.kind == P.Not then |t.children| == 1 && PlainTest(t.children[0]) else PlainTest(t)
  }

  predicate PlainCondition(t: P.Test) {
    || t.kind == P.Always
    || ((t.kind == P.AllOf || t.kind == P.AnyOf) && forall i :: 0 <= i < |t.children| ==> PlainNegatable(t.children[i]))
    || PlainNegatable(t)
  }

  predicate Copies(c: P.Command) {
    (c.kind == P.FileInto || c.kind == P.Redirect) && c.copy
  }

  /** Nothing leaves the implicit keep as it is with `:copy`, and nothing but further stops comes after a stop. */
  predicate PlainBlock(cs: seq<P.Command>) {
    cs == [] ||
    (&& !Copies(cs[0])
     && (cs[0].kind == P.Stop ==> forall i :: 0 <= i < |cs| ==> cs[i].kind == P.Stop)
     && PlainBlock(cs[1..]))
  }

  predicate PlainRule(c: P.Command) {
    c.kind == P.If && |c.branches| == 1 && c.branches[0].test.Some? &&
    PlainCondition(c.branches[0].test.value) && PlainBlock(c.branches[0].body)
  }

  predicate PlainProgram(cs: seq<P.Command>) {
    cs == [] || ((cs[0].kind == P.Require || PlainRule(cs[0])) && PlainProgram(cs[1..]))
  }

  // ---- conditions ---------------------------------------------------------

  lemma {:induction false} OneKey(values: seq<string>, key: string, matchType: string, comparator: string, vars: Variables)
    requires !vars.enabled && comparator != "i;octet"
    ensures MatchAny(values, [key], matchType, comparator, vars) == (TextMatches(values, matchType, key), vars)
  {
    hide MatchOne, TextMatches;
    TextMatchesStep(values, matchType, key);
    if values != [] {
      OneKey(values[1..], key, matchType, comparator, vars);
      SameFolding(values[0], key, matchType, comparator);
      assert [key][0] == key && [key][1..] == [];
      assert MatchKeys(values[0], [], matchType, comparator, vars) == (false, vars);
      MatchOnes(values[0], key, matchType, comparator, vars);
    }
  }

  lemma MatchOnes(value: string, key: string, matchType: string, comparator: string, vars: Variables)
    requires !vars.enabled
    ensures MatchKeys(value, [key], matchType, comparator, vars) == (MatchOne(value, key, matchType, comparator).Some?, vars)
  {
    hide MatchOne;
    assert [key][1..] == [] && MatchKeys(value, [], matchType, comparator, vars) == (false, vars);
  }

  lemma TextMatchesStep(values: seq<string>, op: string, key: string)
    ensures TextMatches(values, op, key) <==>
            values != [] && (MatchOne(values[0], key, op, "i;ascii-casemap").Some? || TextMatches(values[1..], op, key))
  {
    hide MatchOne;
    if i :| 0 <= i < |values| && MatchOne(values[i], key, op, "i;ascii-casemap").Some? {
      assert i > 0 ==> values[1..][i - 1] == values[i];
    }
    if values != [] && TextMatches(values[1..], op, key) {
      var i :| 0 <= i < |values[1..]| && MatchOne(values[1..][i], key, op, "i;ascii-casemap").Some?;
      assert values[i + 1] == values[1..][i];
    }
  }

  lemma SameFolding(value: string, key: string, matchType: string, comparator: string)
    requires comparator != "i;octet"
    ensures MatchOne(value, key, matchType, comparator) == MatchOne(value, key, matchType, "i;ascii-casemap")
  {
  }

  lemma {:induction false} SameHeader(headers: seq<(string, string)>, a: string, b: string)
    requires ToLower(TrimSpace(a)) == ToLower(TrimSpace(b))
    ensures HeaderValues(headers, a) == HeaderValues(headers, b)
  {
    hide ToLower, TrimSpace;
    if headers != [] {
      SameHeader(headers[1..], a, b);
    }
  }

  /** The name of a header that the view names directly, in any spelling. */
  lemma DirectHeader(name: string, direct: string)
    requires ToLower(name) == direct && direct != "" && direct[0] in "ftcs" && direct[|direct| - 1] in "moct"
    ensures TrimSpace(name) == name && TrimSpace(direct) == direct && ToLower(direct) == direct
  {
    hide TrimSpace;
    assert |name| == |direct|;
    ToLowerAt(name, 0);
    ToLowerAt(name, |name| - 1);
    LowerTwice(name);
    TrimSpaceShortens(name);
    TrimSpaceShortens(direct);
  }

  lemma HeaderShown(name: string, headers: seq<(string, string)>, field: string)
    requires var lower := ToLower(name);
             field == if lower == "from" || lower == "to" || lower == "cc" || lower == "subject" then lower else "header:" + name
    ensures HeaderValues(headers, R.HeaderName(field)) == HeaderValues(headers, name)
    ensures field != "size" && field != "body"
  {
    hide HeaderValues, TrimSpace, ToLower;
    var lower := ToLower(name);
    if lower == "from" || lower == "to" || lower == "cc" || lower == "subject" {
      DirectHeader(name, lower);
      assert !("header:" <= field);
      SameHeader(headers, lower, name);
    } else {
      assert field[0] == 'h' && field[7..] == name;
    }
  }

  lemma OneName(headers: seq<(string, string)>, name: string, vars: Variables)
    requires !vars.enabled
    ensures ValuesOfAll(headers, [name], vars) == HeaderValues(headers, name)
  {
    hide HeaderValues;
    assert [name][0] == name && [name][1..] == [];
    assert ValuesOfAll(headers, [], vars) == [];
    assert HeaderValues(headers, name) + [] == HeaderValues(headers, name);
  }

  /** A condition of the view is met when the test it shows holds. */
  lemma TestShown(t: P.Test, negate: bool, mail: Mail, flags: seq<string>, vars: Variables)
    requires Typed(t) && PlainTest(t) && !vars.enabled && R.FlattenTest(t, negate).Some?
    ensures Evaluated(t, mail, flags, vars) == (Met(R.FlattenTest(t, negate).value, mail), vars)
    ensures R.FlattenTest(t, negate).value.negate == negate
  {
    hide MatchAny, HeaderValues, ValuesOfAll, BodyOf, AllTyped, TextMatches, ToLower, Num, DecValue, R.HeaderName;
    var shown := R.FlattenTest(t, negate).value;
    match t.kind
    case Header =>
      assert t.names == [t.names[0]] && t.keys == [t.keys[0]];
      HeaderShown(t.names[0], mail.headers, shown.field);
      OneName(mail.headers, t.names[0], vars);
      OneKey(HeaderValues(mail.headers, t.names[0]), t.keys[0], t.matchType, t.comparator, vars);
    case Body =>
      assert t.keys == [t.keys[0]];
      OneKey([BodyOf(mail.raw)], t.keys[0], if t.matchType == "is" then "contains" else t.matchType, t.comparator, vars);
    case Size => NumValue(t.sizeLimit);
  }

  lemma NegatableShown(t: P.Test, mail: Mail, flags: seq<string>, vars: Variables)
    requires Typed(t) && PlainNegatable(t) && !vars.enabled && R.FlattenNegatable(t).Some?
    ensures Evaluated(t, mail, flags, vars) == (Holds(R.FlattenNegatable(t).value, mail), vars)
  {
    hide R.FlattenTest, Met, PlainTest;
    if t.kind == P.Not {
      assert t.children[1..] == [];
      TestShown(t.children[0], true, mail, flags, vars);
    } else {
      TestShown(t, false, mail, flags, vars);
    }
  }

  /** Tests one after the other, up to the first with this outcome. */
  lemma {:induction false} AllShown(ts: seq<P.Test>, outcome: bool, mail: Mail, flags: seq<string>, vars: Variables)
    requires AllTyped(ts) && !vars.enabled && R.FlattenAll(ts).Some? && forall i :: 0 <= i < |ts| ==> PlainNegatable(ts[i])
    ensures |R.FlattenAll(ts).value| == |ts|
    ensures FirstOf(ts, outcome, mail, flags, vars) == (if Finds(R.FlattenAll(ts).value, outcome, mail) then outcome else !outcome, vars)
  {
    hide Evaluated, Typed, PlainNegatable, R.FlattenNegatable, Holds, Finds;
    FindsStep(R.FlattenAll(ts).value, outcome, mail);
    if ts != [] {
      var shown, rest := R.FlattenAll(ts).value, R.FlattenAll(ts[1..]).value;
      assert forall i :: 0 <= i < |ts[1..]| ==> ts[1..][i] == ts[i + 1];
      AllShown(ts[1..], outcome, mail, flags, vars);
      NegatableShown(ts[0], mail, flags, vars);
      assert shown == [R.FlattenNegatable(ts[0]).value] + rest && shown[1..] == rest;
    }
  }

  predicate Finds(shown: seq<R.RuleTest>, outcome: bool, mail: Mail) {
    exists i :: 0 <= i < |shown| && Holds(shown[i], mail) == outcome
  }

  lemma FindsStep(shown: seq<R.RuleTest>, outcome: bool, mail: Mail)
    ensures Finds(shown, outcome, mail) <==> shown != [] && (Holds(shown[0], mail) == outcome || Finds(shown[1..], outcome, mail))
  {
    hide Holds;
    if i :| 0 <= i < |shown| && Holds(shown[i], mail) == outcome {
      assert i > 0 ==> shown[1..][i - 1] == shown[i];
    }
    if shown != [] && Finds(shown[1..], outcome, mail) {
      var i :| 0 <= i < |shown[1..]| && Holds(shown[1..][i], mail) == outcome;
      assert shown[i + 1] == shown[1..][i];
    }
  }

  /** The condition of a rule applies when the test of the `if` holds. */
  lemma ConditionShown(t: P.Test, r: R.Rule, mail: Mail, flags: seq<string>, vars: Variables)
    requires Typed(t) && PlainCondition(t) && !vars.enabled && R.FlattenCondition(t) == Some((r.all, r.tests))
    ensures Evaluated(t, mail, flags, vars) == (Applies(r, mail), vars)
  {
    hide R.FlattenAll, R.FlattenNegatable, PlainNegatable, Holds, FirstOf, MatchAny;
    if t.kind == P.AllOf || t.kind == P.AnyOf {
      PlainGroup(t);
      AllShown(t.children, t.kind == P.AnyOf, mail, flags, vars);
    } else if t.kind != P.Always {
      NegatableShown(t, mail, flags, vars);
      assert r.tests[0] == R.FlattenNegatable(t).value;
    }
  }

  lemma PlainGroup(t: P.Test)
    requires PlainCondition(t) && (t.kind == P.AllOf || t.kind == P.AnyOf)
    ensures forall i :: 0 <= i < |t.children| ==> PlainNegatable(t.children[i])
  {
  }

  // ---- actions ------------------------------------------------------------

  /** A run without variables and with no flags set, as every run of such a script is. */
  predicate Bare(run: Run) {
    !run.vars.enabled && run.flags == []
  }

  lemma ActionShown(c: P.Command, mail: Mail, run: Run)
    requires Flagged(c) && !Copies(c) && Bare(run) && R.FlattenAction(c).Some?
    ensures Done(c, mail, run) == Taken(R.FlattenAction(c).value, mail, run)
    ensures Bare(Done(c, mail, run)) && c.kind != P.If
  {
    hide Warranted, R.SplitFlags, FlagsAdded;
    NothingExpanded(c.flags, run.vars);
    NothingExpanded(c.vacAddresses, run.vars);
    NoFlags();
  }

  lemma NoFlags()
    ensures R.SplitFlags([]) == [] && FlagsAdded([], []) == []
  {
  }

  lemma {:induction false} OnlyStops(cs: seq<P.Command>)
    requires forall i :: 0 <= i < |cs| ==> cs[i].kind == P.Stop
    ensures R.FlattenBlock(cs) == Some(([], cs != []))
  {
    if cs != [] {
      OnlyStops(cs[1..]);
    }
  }

  /** A block does what the actions read out of it do. */
  lemma {:induction false} BlockShown(cs: seq<P.Command>, mail: Mail, run: Run)
    requires AllFlagged(cs) && PlainBlock(cs) && Bare(run) && !run.stopped && R.FlattenBlock(cs).Some?
    ensures var (actions, stop) := R.FlattenBlock(cs).value; Ran(cs, mail, run) == Halted(AllTaken(actions, mail, run), stop)
    ensures Bare(Ran(cs, mail, run))
  {
    hide R.FlattenAction, Done, Taken, Flagged, Copies;
    if cs != [] {
      var c := cs[0];
      assert forall i :: 0 <= i < |cs[1..]| ==> cs[1..][i] == cs[i + 1];
      if c.kind == P.Stop {
        OnlyStops(cs);
        assert Done(c, mail, run) == run.(stopped := true) by {
          StopIs(c, mail, run);
        }
      } else {
        var (actions, stop) := R.FlattenBlock(cs).value;
        var more := R.FlattenBlock(cs[1..]).value.0;
        assert actions == [R.FlattenAction(c).value] + more;
        ActionShown(c, mail, run);
        var after := Done(c, mail, run);
        if !after.stopped {
          BlockShown(cs[1..], mail, after);
        } else {
          RejectStops(c, mail, run);
        }
      }
    }
  }

  lemma StopIs(c: P.Command, mail: Mail, run: Run)
    requires c.kind == P.Stop
    ensures Done(c, mail, run) == run.(stopped := true)
  {
  }

  lemma RejectStops(c: P.Command, mail: Mail, run: Run)
    requires c.kind != P.Stop && !run.stopped && Done(c, mail, run).stopped
    ensures c.kind == P.Reject
  {
    hide Warranted, FlagsFor, Modified;
  }

  // ---- rules --------------------------------------------------------------

  /** An `if` does what the rule read out of it does. */
  lemma RuleShown(c: P.Command, name: string, mail: Mail, run: Run)
    requires CommandTyped(c) && PlainRule(c) && Bare(run) && !run.stopped && R.FlattenRule(c, name).Some?
    ensures RanBranch(c.branches, mail, run) == Followed(R.FlattenRule(c, name).value, mail, run)
    ensures Bare(RanBranch(c.branches, mail, run))
  {
    hide R.FlattenCondition, R.FlattenBlock, PlainCondition, PlainBlock, Evaluated, Applies, Typed, AllFlagged, Ran;
    var b, r := c.branches[0], R.FlattenRule(c, name).value;
    ConditionShown(b.test.value, r, mail, run.flags, run.vars);
    BlockShown(b.body, mail, run);
    assert run.(vars := run.vars) == run;
    assert RanBranch(c.branches[1..], mail, run) == run;
  }

  function Following(names: seq<string>): seq<string> {
    if names == [] then [] else names[1..]
  }

  /** A program does what the rules read out of it do. */
  lemma {:induction false} ProgramShown(cs: seq<P.Command>, names: seq<string>, mail: Mail, run: Run)
    requires AllCommandsTyped(cs) && PlainProgram(cs) && Bare(run) && R.RulesOf(cs, names).Some?
    ensures Ran(cs, mail, run) == AllFollowed(R.RulesOf(cs, names).value, mail, run)
    decreases |cs|
  {
    hide CommandTyped, PlainRule, R.FlattenRule, RanBranch, Followed, Bare;
    if cs != [] && !run.stopped {
      if cs[0].kind == P.Require {
        ProgramShown(cs[1..], names, mail, run);
      } else {
        var name := if names == [] then "" else names[0];
        RuleShown(cs[0], name, mail, run);
        var rules := R.RulesOf(cs, names).value;
        assert rules == [R.FlattenRule(cs[0], name).value] + R.RulesOf(cs[1..], Following(names)).value;
        IfIs(cs[0]);
        ProgramShown(cs[1..], Following(names), mail, RanBranch(cs[0].branches, mail, run));
      }
    }
  }

  lemma IfIs(c: P.Command)
    requires PlainRule(c)
    ensures c.kind == P.If
  {
  }
}
