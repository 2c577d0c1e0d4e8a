/** What every run of every script keeps (core/src/sieve.cpp). */
module SieveOutcome {
  import opened Text
  import opened SieveVariables
  import opened SieveTests
  import opened SieveRun
  import P = SieveParse
  import R = SieveRules

  // ---- flags --------------------------------------------------------------

  /** No flag twice, and system flags in their one spelling. */
  predicate Tidy(flags: seq<string>) {
    && (forall i, j :: 0 <= i < j < |flags| ==> flags[i] != flags[j])
    && forall i :: 0 <= i < |flags| ==> CanonicalFlag(flags[i]) == flags[i]
  }

  /** Flags that differ in case only are one when they are system flags, and two when they are not. */
  lemma FlagSpellings(flag: string)
    ensures CanonicalFlag(flag) ==
            if ToLower(flag) == "\\seen" then "\\Seen"
            else if ToLower(flag) == "\\answered" then "\\Answered"
            else if ToLower(flag) == "\\flagged" then "\\Flagged"
            else if ToLower(flag) == "\\deleted" then "\\Deleted"
            else if ToLower(flag) == "\\draft" then "\\Draft"
            else flag
  {
    hide ToLower;
    LowerFlags();
    var f := SYSTEM_FLAGS;
    assert f[1..][0] == f[1] && f[1..][1..] == f[2..] && f[2..][0] == f[2] && f[2..][1..] == f[3..];
    assert f[3..][0] == f[3] && f[3..][1..] == f[4..] && f[4..][0] == f[4] && f[4..][1..] == [];
    SpelledStep(flag, f);
    SpelledStep(flag, f[1..]);
    SpelledStep(flag, f[2..]);
    SpelledStep(flag, f[3..]);
    SpelledStep(flag, f[4..]);
  }

  lemma SpelledStep(flag: string, known: seq<string>)
    requires known != []
    ensures SpelledAs(flag, known) == if ToLower(flag) == ToLower(known[0]) then known[0] else SpelledAs(flag, known[1..])
    ensures SpelledAs(flag, []) == flag
  {
  }

  lemma LowerFlags()
    ensures ToLower("\\Seen") == "\\seen" && ToLower("\\Answered") == "\\answered" && ToLower("\\Flagged") == "\\flagged"
    ensures ToLower("\\Deleted") == "\\deleted" && ToLower("\\Draft") == "\\draft"
  {
    LowerSeen();
    LowerFlagged();
    LowerDraft();
  }

  lemma LowerSeen()
    ensures ToLower("\\Seen") == "\\seen" && ToLower("\\Answered") == "\\answered"
  {
    hide ToLower;
    LowerIs("\\Seen", "\\seen");
    LowerIs("\\Answered", "\\answered");
  }

  lemma LowerFlagged()
    ensures ToLower("\\Flagged") == "\\flagged" && ToLower("\\Deleted") == "\\deleted"
  {
    hide ToLower;
    LowerIs("\\Flagged", "\\flagged");
    LowerIs("\\Deleted", "\\deleted");
  }

  lemma LowerDraft()
    ensures ToLower("\\Draft") == "\\draft"
  {
    hide ToLower;
    LowerIs("\\Draft", "\\draft");
  }

  lemma LowerIs(s: string, t: string)
    requires |s| == |t| && forall i :: 0 <= i < |s| ==> LowerChar(s[i]) == t[i]
    ensures ToLower(s) == t
  {
    forall i | 0 <= i < |s|
      ensures ToLower(s)[i] == t[i]
    {
      ToLowerAt(s, i);
    }
  }

  lemma CanonicalTwice(flag: string)
    ensures CanonicalFlag(CanonicalFlag(flag)) == CanonicalFlag(flag)
  {
    hide ToLower, CanonicalFlag;
    FlagSpellings(flag);
    FlagSpellings(CanonicalFlag(flag));
    LowerFlags();
  }

  /** Some flag of the list is this one. */
  predicate Named(list: seq<string>, flag: string) {
    exists i :: 0 <= i < |list| && CanonicalFlag(list[i]) == flag
  }

  lemma {:induction false} AddedHas(flags: seq<string>, more: seq<string>, flag: string)
    ensures flag in FlagsAdded(flags, more) <==> flag in flags || Named(more, flag)
    decreases |more|
  {
    hide CanonicalFlag;
    if more != [] {
      AddedHas(FlagAdded(flags, more[0]), more[1..], flag);
      NamedFirst(more, flag);
    }
  }

  lemma NamedFirst(list: seq<string>, flag: string)
    requires list != []
    ensures Named(list, flag) <==> CanonicalFlag(list[0]) == flag || Named(list[1..], flag)
  {
    hide CanonicalFlag;
    if i :| 0 <= i < |list| && CanonicalFlag(list[i]) == flag {
      assert i > 0 ==> list[1..][i - 1] == list[i];
    }
    if i :| 0 <= i < |list[1..]| && CanonicalFlag(list[1..][i]) == flag {
      assert list[i + 1] == list[1..][i];
    }
  }

  lemma {:induction false} AddedTidy(flags: seq<string>, more: seq<string>)
    requires Tidy(flags)
    ensures Tidy(FlagsAdded(flags, more))
    decreases |more|
  {
    hide CanonicalFlag;
    if more != [] {
      CanonicalTwice(more[0]);
      AddedTidy(FlagAdded(flags, more[0]), more[1..]);
    }
  }

  lemma {:induction false} WithoutHas(flags: seq<string>, gone: string, flag: string)
    ensures flag in Without(flags, gone) <==> flag in flags && flag != gone
  {
    if flags != [] {
      WithoutHas(flags[1..], gone, flag);
      assert flags == [flags[0]] + flags[1..];
    }
  }

  lemma {:induction false} RemovedHas(flags: seq<string>, fewer: seq<string>, flag: string)
    ensures flag in FlagsRemoved(flags, fewer) <==> flag in flags && !Named(fewer, flag)
    decreases |fewer|
  {
    hide CanonicalFlag;
    if fewer != [] {
      WithoutHas(flags, CanonicalFlag(fewer[0]), flag);
      RemovedHas(Without(flags, CanonicalFlag(fewer[0])), fewer[1..], flag);
      NamedFirst(fewer, flag);
    }
  }

  lemma {:induction false} WithoutTidy(flags: seq<string>, gone: string)
    requires Tidy(flags)
    ensures Tidy(Without(flags, gone))
  {
    hide CanonicalFlag;
    if flags != [] {
      var rest := flags[1..];
      assert forall i :: 0 <= i < |rest| ==> rest[i] == flags[i + 1];
      WithoutTidy(rest, gone);
      var kept := Without(rest, gone);
      forall i | 0 <= i < |kept|
        ensures kept[i] != flags[0]
      {
        WithoutHas(rest, gone, kept[i]);
        assert kept[i] in rest;
      }
    }
  }

  lemma {:induction false} RemovedTidy(flags: seq<string>, fewer: seq<string>)
    requires Tidy(flags)
    ensures Tidy(FlagsRemoved(flags, fewer))
    decreases |fewer|
  {
    hide CanonicalFlag, Tidy;
    if fewer != [] {
      WithoutTidy(flags, CanonicalFlag(fewer[0]));
      RemovedTidy(Without(flags, CanonicalFlag(fewer[0])), fewer[1..]);
    }
  }

  /** What the commands for flags do to the flags that are set, and that they do nothing else. */
  lemma FlagCommands(c: P.Command, mail: Mail, run: Run, flag: string)
    requires c.kind == P.SetFlag || c.kind == P.AddFlag || c.kind == P.RemoveFlag
    ensures var list := FlagsIn(c.flags, run.vars);
            flag in Done(c, mail, run).flags <==>
            (match c.kind
             case SetFlag => Named(list, flag)
             case AddFlag => flag in run.flags || Named(list, flag)
             case _ => flag in run.flags && !Named(list, flag))
    ensures Done(c, mail, run) == run.(flags := Done(c, mail, run).flags)
  {
    hide CanonicalFlag;
    var list := FlagsIn(c.flags, run.vars);
    AddedHas([], list, flag);
    AddedHas(run.flags, list, flag);
    RemovedHas(run.flags, list, flag);
  }

  // ---- tests change captures only -----------------------------------------

  predicate SameNames(v: Variables, w: Variables) {
    v.named == w.named && v.enabled == w.enabled && (!v.enabled ==> v == w)
  }

  lemma {:induction false} KeysKeepNames(value: string, keys: seq<string>, matchType: string, comparator: string, vars: Variables)
    ensures SameNames(MatchKeys(value, keys, matchType, comparator, vars).1, vars)
  {
    hide MatchOne, Expanded;
    if keys != [] {
      KeysKeepNames(value, keys[1..], matchType, comparator, vars);
    }
  }

  lemma {:induction false} MatchKeepsNames(values: seq<string>, keys: seq<string>, matchType: string, comparator: string, vars: Variables)
    ensures SameNames(MatchAny(values, keys, matchType, comparator, vars).1, vars)
  {
    hide MatchKeys;
    if values != [] {
      KeysKeepNames(values[0], keys, matchType, comparator, vars);
      MatchKeepsNames(values[1..], keys, matchType, comparator, vars);
    }
  }

  /** A test changes no variable but the captures, and those only when variables are in use. */
  lemma {:induction false} TestKeepsNames(t: P.Test, mail: Mail, flags: seq<string>, vars: Variables)
    ensures SameNames(Evaluated(t, mail, flags, vars).1, vars)
    decreases t
  {
    hide MatchAny, HeaderValues, ValuesOfAll, AddressesOfAll, EnvelopeValues, BodyOf, AllPresent, ExpandedAll;
    match t.kind
    case Not =>
      if t.children != [] {
        TestKeepsNames(t.children[0], mail, flags, vars);
      }
    case AnyOf => TestsKeepNames(t.children, true, mail, flags, vars);
    case AllOf => TestsKeepNames(t.children, false, mail, flags, vars);
    case Header => MatchKeepsNames(ValuesOfAll(mail.headers, t.names, vars), t.keys, t.matchType, t.comparator, vars);
    case Address => MatchKeepsNames(AddressesOfAll(mail, t.names, t.addressPart, vars), t.keys, t.matchType, t.comparator, vars);
    case Envelope => MatchKeepsNames(EnvelopeValues(mail, t.names, t.addressPart), t.keys, t.matchType, t.comparator, vars);
    case Body => MatchKeepsNames([BodyOf(mail.raw)], t.keys, if t.matchType == "is" then "contains" else t.matchType, t.comparator, vars);
    case StringTest => MatchKeepsNames(ExpandedAll(t.names, vars), t.keys, t.matchType, t.comparator, vars);
    case HasFlag => MatchKeepsNames(flags, t.keys, t.matchType, t.comparator, vars);
    case _ =>
  }

  lemma {:induction false} TestsKeepNames(ts: seq<P.Test>, outcome: bool, mail: Mail, flags: seq<string>, vars: Variables)
    ensures SameNames(FirstOf(ts, outcome, mail, flags, vars).1, vars)
    decreases ts
  {
    hide Evaluated;
    if ts != [] {
      TestKeepsNames(ts[0], mail, flags, vars);
      TestsKeepNames(ts[1..], outcome, mail, flags, Evaluated(ts[0], mail, flags, vars).1);
    }
  }

  // ---- what a run keeps ---------------------------------------------------

  function FlagsOf(a: Action): seq<string> {
    match a
    case Keep(flags) => flags
    case FileInto(_, _, flags) => flags
    case _ => []
  }

  /** Something happens to the message: it is stored, sent on or refused. */
  predicate Deals(a: Action) {
    a.Keep? || a.FileInto? || a.Redirect? || a.Reject?
  }

  predicate Delivers(actions: seq<Action>) {
    exists i :: 0 <= i < |actions| && Deals(actions[i])
  }

  predicate TidyActions(actions: seq<Action>) {
    forall i :: 0 <= i < |actions| ==> Tidy(FlagsOf(actions[i])) && !actions[i].Discard?
  }

  predicate OneReply(actions: seq<Action>) {
    forall i, j :: 0 <= i < j < |actions| ==> !(actions[i].Vacation? && actions[j].Vacation?)
  }

  /** A rejection comes last and has stopped the script. */
  predicate RejectsLast(actions: seq<Action>, stopped: bool) {
    forall i :: 0 <= i < |actions| ==> actions[i].Reject? ==> i == |actions| - 1 && stopped
  }

  /** `strict` says that nothing has been discarded: the implicit keep is cancelled only for something that
      deals with the message. */
  predicate Sound(run: Run, strict: bool) {
    && Bounded(run.vars)
    && Tidy(run.flags)
    && TidyActions(run.actions)
    && OneReply(run.actions)
    && RejectsLast(run.actions, run.stopped)
    && (strict && run.cancelled ==> Delivers(run.actions))
    && (forall i :: 0 <= i < |run.actions| ==> run.actions[i].Keep? || run.actions[i].Reject? ==> run.cancelled)
  }

  lemma ActedSound(run: Run, a: Action, cancels: bool, strict: bool)
    requires Sound(run, strict) && !run.stopped && Tidy(FlagsOf(a)) && !a.Discard?
    requires (cancels && strict ==> Deals(a)) && (a.Keep? || a.Reject? ==> cancels) && (a.Vacation? ==> !Replies(run.actions))
    ensures a.Reject? ==> Sound(Acted(run, a, cancels).(stopped := true), strict)
    ensures !a.Reject? ==> Sound(Acted(run, a, cancels), strict)
  {
    hide Tidy, Bounded;
    var actions := run.actions + [a];
    assert forall i :: 0 <= i < |run.actions| ==> actions[i] == run.actions[i];
    assert actions[|run.actions|] == a;
    if Delivers(run.actions) {
      var i :| 0 <= i < |run.actions| && Deals(run.actions[i]);
      assert Deals(actions[i]);
    }
    assert Deals(a) ==> Delivers(actions);
  }

  lemma DoneSound(c: P.Command, mail: Mail, run: Run, strict: bool)
    requires Sound(run, strict) && !run.stopped && (strict ==> c.kind != P.Discard)
    ensures Sound(Done(c, mail, run), strict)
  {
    hide Tidy, Bounded, Expanded, ExpandedAll, Warranted, FlagsAdded, FlagsRemoved, FlagsIn, Modified, Assigned;
    NoFlagsTidy();
    match c.kind
    case Keep =>
      AddedTidy([], if c.hasFlags then FlagsIn(c.flags, run.vars) else run.flags);
      ActedSound(run, R.Keep(FlagsFor(c, run)), true, strict);
    case FileInto =>
      AddedTidy([], if c.hasFlags then FlagsIn(c.flags, run.vars) else run.flags);
      ActedSound(run, R.FileInto(Expanded(c.argument, run.vars), c.create, FlagsFor(c, run)), !c.copy, strict);
    case Redirect => ActedSound(run, R.Redirect(Expanded(c.argument, run.vars)), !c.copy, strict);
    case Reject => ActedSound(run, R.Reject(Expanded(c.argument, run.vars)), true, strict);
    case Set => AssignedStaysBounded(run.vars, c.varName, Modified(Expanded(c.argument, run.vars), c.modifiers));
    case SetFlag => AddedTidy([], FlagsIn(c.flags, run.vars));
    case AddFlag => AddedTidy(run.flags, FlagsIn(c.flags, run.vars));
    case RemoveFlag => RemovedTidy(run.flags, FlagsIn(c.flags, run.vars));
    case Vacation =>
      if !Replies(run.actions) && Warranted(mail, ExpandedAll(c.vacAddresses, run.vars)) {
        ActedSound(run, Reply(c, run.vars), false, strict);
      }
    case _ =>
  }

  lemma NoFlagsTidy()
    ensures Tidy([])
  {
  }

  /** No command of the block discards, whatever branches are taken. */
  predicate NoDiscard(cs: seq<P.Command>)
    decreases cs
  {
    cs == [] || (cs[0].kind != P.Discard && (cs[0].kind == P.If ==> NoDiscardIn(cs[0].branches)) && NoDiscard(cs[1..]))
  }

  predicate NoDiscardIn(bs: seq<P.Branch>)
    decreases bs
  {
    bs == [] || (NoDiscard(bs[0].body) && NoDiscardIn(bs[1..]))
  }

  lemma {:induction false} RunSound(cs: seq<P.Command>, mail: Mail, run: Run, strict: bool)
    requires Sound(run, strict) && (strict ==> NoDiscard(cs))
    ensures Sound(Ran(cs, mail, run), strict)
    decreases cs
  {
    hide Sound, Done;
    if cs != [] && !run.stopped {
      if cs[0].kind == P.If {
        BranchSound(cs[0].branches, mail, run, strict);
        RunSound(cs[1..], mail, RanBranch(cs[0].branches, mail, run), strict);
      } else {
        DoneSound(cs[0], mail, run, strict);
        RunSound(cs[1..], mail, Done(cs[0], mail, run), strict);
      }
    }
  }

  lemma CapturesSound(run: Run, vars: Variables, strict: bool)
    requires Sound(run, strict) && SameNames(vars, run.vars)
    ensures Sound(run.(vars := vars), strict)
  {
    hide Tidy;
  }

  lemma {:induction false} BranchSound(bs: seq<P.Branch>, mail: Mail, run: Run, strict: bool)
    requires Sound(run, strict) && !run.stopped && (strict ==> NoDiscardIn(bs))
    ensures Sound(RanBranch(bs, mail, run), strict)
    decreases bs
  {
    hide Sound, Evaluated;
    if bs != [] {
      if bs[0].test.None? {
        RunSound(bs[0].body, mail, run, strict);
      } else {
        var r := Evaluated(bs[0].test.value, mail, run.flags, run.vars);
        TestKeepsNames(bs[0].test.value, mail, run.flags, run.vars);
        CapturesSound(run, r.1, strict);
        if r.0 {
          RunSound(bs[0].body, mail, run.(vars := r.1), strict);
        } else {
          BranchSound(bs[1..], mail, run.(vars := r.1), strict);
        }
      }
    }
  }

  lemma StartSound(enabled: bool)
    ensures Sound(Start(enabled), true) && Sound(Start(enabled), false)
  {
  }

  // ---- what becomes of a message ------------------------------------------

  lemma {:induction false} RejectFound(actions: seq<Action>)
    ensures FirstReject(actions).None? ==> forall i :: 0 <= i < |actions| ==> !actions[i].Reject?
    ensures FirstReject(actions).Some? ==> FirstReject(actions).value.Reject? && FirstReject(actions).value in actions
  {
    if actions != [] {
      RejectFound(actions[1..]);
      assert forall i :: 0 < i < |actions| ==> actions[i] == actions[1..][i - 1];
    }
  }

  lemma OutcomeOf(run: Run, strict: bool)
    requires Sound(run, strict)
    ensures var r := Concluded(run);
            && r != [] && OneReply(r)
            && (forall i :: 0 <= i < |r| ==> Tidy(FlagsOf(r[i])))
            && (forall i :: 0 <= i < |r| ==> r[i].Reject? || r[i].Discard? ==> |r| == 1)
            && (strict ==> Delivers(r))
  {
    hide Tidy;
    NoFlagsTidy();
    var actions, r := run.actions, Concluded(run);
    RejectFound(actions);
    if FirstReject(actions).Some? {
      assert Deals(r[0]);
    } else if !run.cancelled {
      assert Deals(r[|actions|]);
      assert forall i :: 0 <= i < |actions| ==> r[i] == actions[i];
    }
  }

  /** Every script has an outcome for every message: never nothing at all; at most one automatic reply; a rejection
      or a discard only by itself; and no flag twice, the system flags in their one spelling. */
  lemma EveryOutcomeIsSound(script: string, mail: Mail)
    ensures var r := Result(script, mail);
            && r != [] && OneReply(r)
            && (forall i :: 0 <= i < |r| ==> Tidy(FlagsOf(r[i])))
            && (forall i :: 0 <= i < |r| ==> r[i].Reject? || r[i].Discard? ==> |r| == 1)
  {
    hide Tidy, Ran, P.Program, R.Requires, Concluded;
    NoFlagsTidy();
    if TrimSpace(script) != "" && P.Program(script).Some? {
      var p := P.Program(script).value;
      var start := Start(R.Requires(p, "variables"));
      StartSound(R.Requires(p, "variables"));
      RunSound(p, mail, start, false);
      OutcomeOf(Ran(p, mail, start), false);
    }
  }

  /** No message is lost but by `discard`: a script without that command stores the message, sends it on or refuses it,
      and so does one that cannot be read. */
  lemma OnlyDiscardLoses(script: string, mail: Mail)
    requires P.Program(script).Some? ==> NoDiscard(P.Program(script).value)
    ensures Delivers(Result(script, mail))
  {
    hide Ran, P.Program, R.Requires, Concluded, NoDiscard;
    if TrimSpace(script) == "" || P.Program(script).None? {
      assert Deals(Result(script, mail)[0]);
    } else {
      var p := P.Program(script).value;
      var start := Start(R.Requires(p, "variables"));
      StartSound(R.Requires(p, "variables"));
      RunSound(p, mail, start, true);
      OutcomeOf(Ran(p, mail, start), true);
    }
  }

  /** At every moment of every run the store of variables is bounded. */
  lemma VariablesStayBounded(cs: seq<P.Command>, mail: Mail, enabled: bool)
    ensures Bounded(Ran(cs, mail, Start(enabled)).vars)
  {
    StartSound(enabled);
    RunSound(cs, mail, Start(enabled), false);
  }

  // ---- one command alone --------------------------------------------------

  /** What a script of one command makes of a message: what is filed or sent on with `:copy` is kept as well, and so
      is what was answered, and what no command has dealt with. */
  lemma OneCommandAlone(c: P.Command, mail: Mail)
    requires c.kind != P.If && c.kind != P.Require
    ensures var (kept, flags) := ([R.Keep([])], if c.hasFlags then FlagsAdded([], R.SplitFlags(c.flags)) else []);
            ProgramResult([c], mail) ==
            match c.kind
            case Keep => [R.Keep(flags)]
            case Discard => [R.Discard]
            case FileInto => [R.FileInto(c.argument, c.create, flags)] + (if c.copy then kept else [])
            case Redirect => [R.Redirect(c.argument)] + (if c.copy then kept else [])
            case Reject => [R.Reject(c.argument)]
            case Vacation => if Warranted(mail, c.vacAddresses) then [Reply(c, Start(false).vars)] + kept else kept
            case _ => kept
  {
    hide Warranted, FlagsAdded, FlagsRemoved, R.SplitFlags, Modified, Assigned, Ran, R.Requires, Concluded;
    var start := Start(false);
    NothingExpanded(c.flags, start.vars);
    NothingExpanded(c.vacAddresses, start.vars);
    NothingAdded();
    AloneRuns(c, mail);
    var run := Done(c, mail, start);
    if run.actions == [] {
      NothingDone(run);
    } else {
      var a := run.actions[0];
      OneDone(run, a);
      assert [a] + [] == [a];
    }
  }

  lemma AloneRuns(c: P.Command, mail: Mail)
    requires c.kind != P.If && c.kind != P.Require
    ensures !R.Requires([c], "variables") && Ran([c], mail, Start(false)) == Done(c, mail, Start(false))
  {
    hide Done;
    var after := Done(c, mail, Start(false));
    assert [c][1..] == [] && Ran([], mail, after) == after;
  }

  lemma NothingDone(run: Run)
    requires run.actions == []
    ensures Concluded(run) == if run.cancelled then [R.Discard] else [R.Keep([])]
  {
    assert [] + [R.Keep([])] == [R.Keep([])];
  }

  lemma OneDone(run: Run, a: Action)
    requires run.actions == [a]
    ensures Concluded(run) == if a.Reject? || run.cancelled then [a] else [a] + [R.Keep([])]
  {
    assert [a][1..] == [] && FirstReject([]) == None;
  }

  lemma NothingAdded()
    ensures FlagsAdded([], []) == []
  {
  }

  // ---- values that are set, and automatic replies -------------------------

  predicate SameWords(a: seq<string>, b: seq<string>) {
    forall w :: w in ["quotewildcard", "length", "lower", "upper", "lowerfirst", "upperfirst"] ==> (w in a <==> w in b)
  }

  /** The order in which modifiers are written makes no difference, nor does repeating one. */
  lemma ModifiersInAnyOrder(value: string, a: seq<string>, b: seq<string>)
    requires SameWords(a, b)
    ensures Modified(value, a) == Modified(value, b)
  {
    assert forall w :: w in ["quotewildcard", "length", "lower", "upper", "lowerfirst", "upperfirst"] ==> (w in a <==> w in b);
    assert "quotewildcard" in a <==> "quotewildcard" in b;
    assert "length" in a <==> "length" in b;
    assert "lower" in a <==> "lower" in b;
    assert "upper" in a <==> "upper" in b;
    assert "lowerfirst" in a <==> "lowerfirst" in b;
    assert "upperfirst" in a <==> "upperfirst" in b;
  }

  /** What each modifier does by itself. */
  lemma OneModifier(value: string)
    ensures Modified(value, []) == value
    ensures DecValue(Modified(value, ["length"])) == |value|
    ensures Modified(value, ["lower"]) == ToLower(value) && ToLower(Modified(value, ["upper"])) == ToLower(value)
    ensures forall i :: 0 <= i < |value| ==> Modified(value, ["upper"])[i] !in "abcdefghijklmnopqrstuvwxyz"
    ensures value != "" ==> Modified(value, ["lowerfirst"]) == ToLower(value[..1]) + value[1..]
    ensures value != "" ==> Modified(value, ["upperfirst"]) == Modified(value[..1], ["upper"]) + value[1..]
    ensures Unquoted(Modified(value, ["quotewildcard"])) == value
  {
    hide ToUpper, ToLower, Quoted, Num, DecValue, Modified;
    NumValue(|value|);
    UpperIs(value);
    QuotedIs(value);
    NoModifier(value);
    LengthModifier(value);
    QuoteModifier(value);
    CaseModifiers(value);
    if value != "" {
      FirstOnly(value);
      FirstModifiers(value);
      CaseModifiers(value[..1]);
    }
  }

  lemma NoModifier(value: string)
    ensures Modified(value, []) == value
  {
    hide ToUpper, ToLower, Quoted, Num;
  }

  lemma LengthModifier(value: string)
    ensures Modified(value, ["length"]) == Num(|value|)
  {
    hide ToUpper, ToLower, Quoted, Num;
    assert "quotewildcard" !in ["length"];
  }

  lemma QuoteModifier(value: string)
    ensures Modified(value, ["quotewildcard"]) == Quoted(value)
  {
    hide ToUpper, ToLower, Quoted, Num;
  }

  lemma CaseModifiers(value: string)
    ensures Modified(value, ["lower"]) == ToLower(value) && Modified(value, ["upper"]) == ToUpper(value)
  {
    hide ToUpper, ToLower, Quoted, Num;
  }

  lemma FirstModifiers(value: string)
    requires value != ""
    ensures Modified(value, ["lowerfirst"]) == [LowerChar(value[0])] + value[1..]
    ensures Modified(value, ["upperfirst"]) == [UpperChar(value[0])] + value[1..]
  {
    hide ToUpper, ToLower, Quoted, Num;
  }

  lemma FirstOnly(value: string)
    requires value != ""
    ensures ToLower(value[..1]) == [LowerChar(value[0])] && ToUpper(value[..1]) == [UpperChar(value[0])]
  {
    assert value[..1][1..] == "" && value[..1][0] == value[0];
    assert ToLower("") == "" && ToUpper("") == "";
  }

  lemma {:induction false} UpperIs(value: string)
    ensures ToLower(ToUpper(value)) == ToLower(value)
    ensures forall i :: 0 <= i < |value| ==> ToUpper(value)[i] !in "abcdefghijklmnopqrstuvwxyz"
  {
    if value != "" {
      UpperIs(value[1..]);
      var c := UpperChar(value[0]);
      NotLower(c);
      assert ToUpper(value)[0] == c && ToUpper(value)[1..] == ToUpper(value[1..]);
      assert forall i :: 0 < i < |value| ==> ToUpper(value)[i] == ToUpper(value[1..])[i - 1];
    }
  }

  lemma NotLower(c: char)
    requires !('a' <= c <= 'z')
    ensures c !in "abcdefghijklmnopqrstuvwxyz"
  {
  }

  /** The text without the backslashes that quote its wildcards. */
  function Unquoted(s: string): string {
    if s == "" then ""
    else if s[0] == '\\' && |s| > 1 then [s[1]] + Unquoted(s[2..])
    else [s[0]] + Unquoted(s[1..])
  }

  lemma {:induction false} QuotedIs(s: string)
    ensures Unquoted(Quoted(s)) == s
  {
    if s != "" {
      QuotedIs(s[1..]);
      var q := Quoted(s);
      if s[0] in "*?\\" {
        assert q[0] == '\\' && q[1] == s[0] && q[2..] == Quoted(s[1..]);
      } else {
        assert q[0] == s[0] && q[1..] == Quoted(s[1..]);
      }
      assert s == [s[0]] + s[1..];
    }
  }

  /** Robots, list managers and bounces get no reply, whatever the user's addresses are. */
  lemma NoReplyToRobots(mail: Mail, addresses: seq<string>, local: string, domain: string, before: string)
    requires TrimSpace(mail.mailFrom) == mail.mailFrom && ToLower(mail.mailFrom) == local + ("@" + domain)
    requires forall i :: 0 <= i < |local| ==> local[i] != '@'
    requires || local == "mailer-daemon" || local == "postmaster" || local == "listserv" || local == "majordomo"
             || (before != "" && (local == before + "-request" || local == before + "-bounces" || local == before + "-confirm" ||
                                  local == "owner-" + before || local == "bounce-" + before))
    ensures !Warranted(mail, addresses)
  {
    hide AutoSubmitted, Bulk, FromList, Mine, Visible;
    var sender := local + ("@" + domain);
    assert forall i :: 0 <= i < |local| ==> sender[i] == local[i];
    assert sender[|local|] == '@';
    assert IndexOf(sender, '@', 0) == |local| && sender[..|local|] == local;
    RobotIs(local, before);
  }

  lemma RobotIs(local: string, before: string)
    requires || local == "mailer-daemon" || local == "postmaster" || local == "listserv" || local == "majordomo"
             || (before != "" && (local == before + "-request" || local == before + "-bounces" || local == before + "-confirm" ||
                                  local == "owner-" + before || local == "bounce-" + before))
    ensures Automated(local)
  {
    if before != "" {
      assert local == before + "-request" ==> local[|before|..] == "-request";
      assert local == before + "-bounces" ==> local[|before|..] == "-bounces";
      assert local == before + "-confirm" ==> local[|before|..] == "-confirm";
      assert local == "owner-" + before ==> local[..6] == "owner-";
      assert local == "bounce-" + before ==> local[..7] == "bounce-";
    }
  }

  /** Nor do messages that were generated, sent in bulk or by a list, or that the user sent, or that name no address of
      the user. */
  lemma NoReplyToMachines(mail: Mail, addresses: seq<string>, v: string, h: string)
    ensures TrimSpace(mail.mailFrom) == "" ==> !Warranted(mail, addresses)
    ensures v in HeaderValues(mail.headers, "Auto-Submitted") && IndexOf(v, ';', 0) == |v| && ToLower(TrimSpace(v)) != "no" ==> !Warranted(mail, addresses)
    ensures v in HeaderValues(mail.headers, "Precedence") && (ToLower(TrimSpace(v)) == "bulk" || ToLower(TrimSpace(v)) == "list" || ToLower(TrimSpace(v)) == "junk") ==>
              !Warranted(mail, addresses)
    ensures h in ["List-Id", "List-Help", "List-Unsubscribe", "List-Post", "List-Subscribe", "List-Owner", "List-Archive"] &&
            HeaderValues(mail.headers, h) != [] ==>
              !Warranted(mail, addresses)
    ensures TrimSpace(mail.mailFrom) != "" && ToLower(TrimSpace(mail.mailFrom)) == ToLower(TrimSpace(mail.rcptTo)) ==> !Warranted(mail, addresses)
    ensures (forall m :: m in Mine(mail, addresses) ==> !Visible(mail, m)) ==> !Warranted(mail, addresses)
  {
    hide HeaderValues, Visible, Automated, Lowered, TrimSpace, ToLower;
    if IndexOf(v, ';', 0) == |v| {
      assert BeforeChar(v, ';') == v;
    }
    assert Mine(mail, addresses)[0] == ToLower(TrimSpace(mail.rcptTo));
    assert ToLower(TrimSpace(mail.rcptTo)) in Mine(mail, addresses);
    NotEmptied(TrimSpace(mail.mailFrom));
  }

  lemma NotEmptied(s: string)
    ensures ToLower(s) == "" <==> s == ""
  {
  }

  // ---- order --------------------------------------------------------------

  /** Running one block after the other is running both as one. */
  lemma {:induction false} RunsInOrder(a: seq<P.Command>, b: seq<P.Command>, mail: Mail, run: Run)
    ensures Ran(a + b, mail, run) == Ran(b, mail, Ran(a, mail, run))
    decreases |a|
  {
    hide Done, RanBranch;
    if a == [] {
      assert a + b == b;
    } else if !run.stopped {
      assert (a + b)[0] == a[0] && (a + b)[1..] == a[1..] + b;
      RunsInOrder(a[1..], b, mail, if a[0].kind == P.If then RanBranch(a[0].branches, mail, run) else Done(a[0], mail, run));
    }
  }

  lemma StoppedStays(cs: seq<P.Command>, mail: Mail, run: Run)
    requires run.stopped
    ensures Ran(cs, mail, run) == run
  {
  }

  /** Nothing after a `stop` or a `reject` is run. */
  lemma NothingAfterStop(before: seq<P.Command>, c: P.Command, after: seq<P.Command>, mail: Mail, run: Run)
    requires c.kind == P.Stop || c.kind == P.Reject
    ensures Ran(before + ([c] + after), mail, run) == Ran(before + [c], mail, run)
  {
    hide Expanded;
    var middle := Ran(before, mail, run);
    RunsInOrder(before, [c] + after, mail, run);
    RunsInOrder(before, [c], mail, run);
    RunsInOrder([c], after, mail, middle);
    StopsThere(c, mail, middle);
    StoppedStays(after, mail, Ran([c], mail, middle));
  }

  lemma StopsThere(c: P.Command, mail: Mail, run: Run)
    requires c.kind == P.Stop || c.kind == P.Reject
    ensures Ran([c], mail, run).stopped
  {
    hide Expanded;
    assert [c][0] == c && [c][1..] == [];
    var after := if run.stopped then run else Done(c, mail, run);
    StoppedStays([], mail, after);
  }

  /** What has been done is never undone: the actions of a run only grow. */
  lemma {:induction false} ActionsOnlyGrow(cs: seq<P.Command>, mail: Mail, run: Run)
    ensures run.actions <= Ran(cs, mail, run).actions && (run.cancelled ==> Ran(cs, mail, run).cancelled)
    decreases cs
  {
    hide Evaluated, Expanded, ExpandedAll, Warranted, FlagsFor, FlagsIn;
    if cs != [] && !run.stopped {
      if cs[0].kind == P.If {
        BranchesOnlyGrow(cs[0].branches, mail, run);
        ActionsOnlyGrow(cs[1..], mail, RanBranch(cs[0].branches, mail, run));
      } else {
        ActionsOnlyGrow(cs[1..], mail, Done(cs[0], mail, run));
      }
    }
  }

  lemma {:induction false} BranchesOnlyGrow(bs: seq<P.Branch>, mail: Mail, run: Run)
    ensures run.actions <= RanBranch(bs, mail, run).actions && (run.cancelled ==> RanBranch(bs, mail, run).cancelled)
    decreases bs
  {
    hide Evaluated;
    if bs != [] {
      if bs[0].test.None? {
        ActionsOnlyGrow(bs[0].body, mail, run);
      } else {
        var r := Evaluated(bs[0].test.value, mail, run.flags, run.vars);
        if r.0 {
          ActionsOnlyGrow(bs[0].body, mail, run.(vars := r.1));
        } else {
          BranchesOnlyGrow(bs[1..], mail, run.(vars := r.1));
        }
      }
    }
  }
}
