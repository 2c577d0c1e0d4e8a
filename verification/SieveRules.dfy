/** The rule view of core/src/sieve.cpp: `Decompose` reads rules out of a script, `Compose` writes them. */
module SieveRules {
  import opened Text
  import opened SieveLex
  import P = SieveParse
  import SieveParser

  /** One condition: "from", "to", "cc", "subject", "body", "size" or "header:X". */
  datatype RuleTest = RuleTest(field: string, op: string, value: string, negate: bool)

  datatype VacationSpec = VacationSpec(subject: string, from: string, handle: string, addresses: seq<string>, days: int, mime: bool)

  datatype Action =
    | Keep(flags: seq<string>)
    | FileInto(folder: string, create: bool, flags: seq<string>)
    | Redirect(address: string)
    | Reject(reason: string)
    | Discard
    | Vacation(spec: VacationSpec, reason: string)

  datatype Rule = Rule(name: string, all: bool, tests: seq<RuleTest>, actions: seq<Action>, stop: bool)

  // ---- names --------------------------------------------------------------

  function TrimLeft(s: string): (r: string)
    ensures r != "" ==> r[0] != ' ' && r[0] != '\t' && r[0] != '\r'
  {
    if s != "" && (s[0] == ' ' || s[0] == '\t' || s[0] == '\r') then TrimLeft(s[1..]) else s
  }

  function TrimRight(s: string): (r: string)
    ensures r <= s
  {
    if s != "" && (s[|s| - 1] == '\r' || s[|s| - 1] == ' ') then TrimRight(s[..|s| - 1]) else s
  }

  function TrimBlanks(s: string): string {
    if s != "" && (s[0] == ' ' || s[0] == '\t') then TrimBlanks(s[1..]) else s
  }

  /** What one line of the script does to the list of names and to the name waiting for an `if`. */
  function NameLine(line: string, pending: string): (seq<string>, string) {
    var trimmed := TrimRight(TrimLeft(line));
    if "# rule:" <= trimmed then ([], TrimBlanks(trimmed[7..]))
    else if "if " <= trimmed || trimmed == "if" then ([pending], "")
    else if trimmed != "" && trimmed[0] != '#' then ([], "")
    else ([], pending)
  }

  /** One entry per line that opens an `if`: the `# rule:` comment before it, or nothing. */
  function NamesFrom(s: string, pending: string): seq<string>
    decreases |s|
  {
    var nl := IndexOf(s, '\n', 0);
    var (entries, pending') := NameLine(s[..nl], pending);
    if nl == |s| then entries else entries + NamesFrom(s[nl + 1..], pending')
  }

  method RuleNames(script: string) returns (out: seq<string>)
    ensures out == NamesFrom(script, "")
  {
    hide NameLine;
    out := [];
    var pending := "";
    var i := 0;
    assert script[0..] == script;
    while true
      invariant i <= |script| && out + NamesFrom(script[i..], pending) == NamesFrom(script, "")
      decreases |script| - i
    {
      IndexOfSuffix(script, '\n', i);
      var nl := IndexOf(script, '\n', i);
      assert script[i..nl] == script[i..][..nl - i];
      var step := NameLine(script[i..nl], pending);
      if nl == |script| {
        return out + step.0;
      }
      assert script[i..][nl - i + 1..] == script[nl + 1..];
      Assoc(out, step.0, NamesFrom(script[nl + 1..], step.1));
      out, pending := out + step.0, step.1;
      i := nl + 1;
    }
  }

  // ---- reading rules out of a program -------------------------------------

  function FlattenTest(t: P.Test, negate: bool): Option<RuleTest> {
    match t.kind
    case Header | Address =>
      if |t.names| != 1 || |t.keys| != 1 then None
      else
        var name := ToLower(t.names[0]);
        var direct := name == "from" || name == "to" || name == "cc" || name == "subject";
        Some(RuleTest(if direct then name else "header:" + t.names[0],
                      if t.matchType == "" then "is" else t.matchType, t.keys[0], negate))
    case Body =>
      if |t.keys| != 1 then None
      else Some(RuleTest("body", if t.matchType == "" then "contains" else t.matchType, t.keys[0], negate))
    case Size =>
      Some(RuleTest("size", if t.sizeRelation == "" then "over" else t.sizeRelation, Num(t.sizeLimit), negate))
    case _ => None
  }

  /** A test, or `not` around exactly one. */
  function FlattenNegatable(t: P.Test): Option<RuleTest> {
    if t.kind == P.Not then
      if |t.children| != 1 then None else FlattenTest(t.children[0], true)
    else FlattenTest(t, false)
  }

  function FlattenAll(ts: seq<P.Test>): Option<seq<RuleTest>> {
    if ts == [] then Some([])
    else
      match FlattenNegatable(ts[0])
      case None => None
      case Some(t) =>
        match FlattenAll(ts[1..])
        case None => None
        case Some(more) => Some([t] + more)
  }

  /** The top-level test of an `if`: whether all must hold, and the conditions. */
  function FlattenCondition(t: P.Test): Option<(bool, seq<RuleTest>)> {
    if t.kind == P.Always then Some((true, []))
    else if t.kind == P.AllOf || t.kind == P.AnyOf then
      match FlattenAll(t.children)
      case None => None
      case Some(tests) => if tests == [] then None else Some((t.kind == P.AllOf, tests))
    else
      match FlattenNegatable(t)
      case None => None
      case Some(test) => Some((true, [test]))
  }

  /** The words of a string, as white space separates them. */
  function Words(s: string): seq<string> {
    WordsAfter("", s)
  }

  /** `word` has been read already. */
  function WordsAfter(word: string, s: string): seq<string>
    decreases |s|
  {
    if s == "" then (if word == "" then [] else [word])
    else if IsSpace(s[0]) then (if word == "" then [] else [word]) + WordsAfter("", s[1..])
    else WordsAfter(word + [s[0]], s[1..])
  }

  function SplitFlags(flags: seq<string>): seq<string> {
    if flags == [] then [] else Words(flags[0]) + SplitFlags(flags[1..])
  }

  /** The action of a command, or None for a command that is not one. */
  function FlattenAction(c: P.Command): Option<Action> {
    match c.kind
    case Keep => Some(Keep(SplitFlags(c.flags)))
    case Discard => Some(Discard)
    case FileInto => Some(FileInto(c.argument, c.create, SplitFlags(c.flags)))
    case Vacation =>
      Some(Vacation(VacationSpec(c.vacSubject, c.vacFrom, c.vacHandle, c.vacAddresses, if c.vacDays > 0 then c.vacDays else 7, c.vacMime),
                    c.argument))
    case Redirect => Some(Redirect(c.argument))
    case Reject => Some(Reject(c.argument))
    case _ => None
  }

  /** The actions of a block, and whether it stops. */
  function FlattenBlock(cs: seq<P.Command>): Option<(seq<Action>, bool)> {
    if cs == [] then Some(([], false))
    else
      match FlattenBlock(cs[1..])
      case None => None
      case Some((actions, stop)) =>
        if cs[0].kind == P.Stop then Some((actions, true))
        else
          match FlattenAction(cs[0])
          case None => None
          case Some(a) => Some(([a] + actions, stop))
  }

  function FlattenRule(c: P.Command, name: string): Option<Rule> {
    if c.kind != P.If || |c.branches| != 1 || c.branches[0].test.None? then None
    else
      match FlattenCondition(c.branches[0].test.value)
      case None => None
      case Some((all, tests)) =>
        match FlattenBlock(c.branches[0].body)
        case None => None
        case Some((actions, stop)) => Some(Rule(name, all, tests, actions, stop))
  }

  /** The rules of a program, named in order. */
  function RulesOf(cs: seq<P.Command>, names: seq<string>): Option<seq<Rule>> {
    if cs == [] then Some([])
    else if cs[0].kind == P.Require then RulesOf(cs[1..], names)
    else
      match FlattenRule(cs[0], if names == [] then "" else names[0])
      case None => None
      case Some(r) =>
        match RulesOf(cs[1..], if names == [] then [] else names[1..])
        case None => None
        case Some(more) => Some([r] + more)
  }

  predicate Asks(caps: seq<string>, capability: string) {
    exists i :: 0 <= i < |caps| && ToLower(TrimSpace(caps[i])) == capability
  }

  /** Some `require` of the program asks for the capability. */
  predicate Requires(cs: seq<P.Command>, capability: string) {
    exists i :: 0 <= i < |cs| && cs[i].kind == P.Require && Asks(cs[i].capabilities, capability)
  }

  /** The rules a script text expresses; None when the rule view cannot show it. */
  function DecomposeOf(script: string): Option<seq<Rule>> {
    match P.Program(script)
    case None => None
    case Some(cs) => if Requires(cs, "variables") then None else RulesOf(cs, NamesFrom(script, ""))
  }

  method AsksFor(caps: seq<string>, capability: string) returns (b: bool)
    ensures b == Asks(caps, capability)
  {
    for i := 0 to |caps|
      invariant forall k :: 0 <= k < i ==> ToLower(TrimSpace(caps[k])) != capability
    {
      if ToLower(TrimSpace(caps[i])) == capability {
        return true;
      }
    }
    b := false;
  }

  method RequiresCapability(program: seq<P.Command>, capability: string) returns (b: bool)
    ensures b == Requires(program, capability)
  {
    hide Asks;
    for i := 0 to |program|
      invariant forall k :: 0 <= k < i ==> !(program[k].kind == P.Require && Asks(program[k].capabilities, capability))
    {
      if program[i].kind != P.Require {
        continue;
      }
      b := AsksFor(program[i].capabilities, capability);
      if b {
        return;
      }
    }
    b := false;
  }

  /** `first` of a block's commands have given these actions and this stop flag. */
  function WithBlock(actions: seq<Action>, stop: bool, rest: Option<(seq<Action>, bool)>): Option<(seq<Action>, bool)> {
    match rest
    case None => None
    case Some((more, stop')) => Some((actions + more, stop || stop'))
  }

  lemma BlockStep(actions: seq<Action>, stop: bool, cs: seq<P.Command>)
    requires cs != []
    ensures WithBlock(actions, stop, FlattenBlock(cs)) ==
            if cs[0].kind == P.Stop then WithBlock(actions, true, FlattenBlock(cs[1..]))
            else if FlattenAction(cs[0]).None? then None
            else WithBlock(actions + [FlattenAction(cs[0]).value], stop, FlattenBlock(cs[1..]))
  {
    hide FlattenAction;
    if FlattenBlock(cs[1..]).Some? && FlattenAction(cs[0]).Some? {
      Assoc(actions, [FlattenAction(cs[0]).value], FlattenBlock(cs[1..]).value.0);
    }
  }

  lemma BlockBounds(cs: seq<P.Command>)
    ensures WithBlock([], false, FlattenBlock(cs)) == FlattenBlock(cs)
    ensures FlattenBlock([]) == Some(([], false))
  {
    if FlattenBlock(cs).Some? {
      assert [] + FlattenBlock(cs).value.0 == FlattenBlock(cs).value.0;
    }
  }

  method ReadBlock(cs: seq<P.Command>) returns (r: Option<(seq<Action>, bool)>)
    ensures r == FlattenBlock(cs)
  {
    hide FlattenAction, FlattenBlock;
    var actions, stop := [], false;
    BlockBounds(cs);
    assert cs[0..] == cs;
    for i := 0 to |cs|
      invariant WithBlock(actions, stop, FlattenBlock(cs[i..])) == FlattenBlock(cs)
    {
      assert cs[i..][0] == cs[i] && cs[i..][1..] == cs[i + 1..];
      BlockStep(actions, stop, cs[i..]);
      if cs[i].kind == P.Stop {
        stop := true;
        continue;
      }
      var a := FlattenAction(cs[i]);
      if a.None? {
        return None;
      }
      actions := actions + [a.value];
    }
    assert cs[|cs|..] == [] && actions + [] == actions;
    r := Some((actions, stop));
  }

  lemma RulesStep(out: seq<Rule>, cs: seq<P.Command>, names: seq<string>)
    requires cs != []
    ensures Onto(out, RulesOf(cs, names)) ==
            if cs[0].kind == P.Require then Onto(out, RulesOf(cs[1..], names))
            else
              match FlattenRule(cs[0], if names == [] then "" else names[0])
              case None => None
              case Some(r) => Onto(out + [r], RulesOf(cs[1..], if names == [] then [] else names[1..]))
  {
    hide FlattenRule;
    var r := FlattenRule(cs[0], if names == [] then "" else names[0]);
    var rest := RulesOf(cs[1..], if names == [] then [] else names[1..]);
    if r.Some? && rest.Some? {
      Assoc(out, [r.value], rest.value);
    }
  }

  function Onto(out: seq<Rule>, rest: Option<seq<Rule>>): Option<seq<Rule>> {
    match rest
    case None => None
    case Some(more) => Some(out + more)
  }

  lemma OntoBounds(rest: Option<seq<Rule>>, names: seq<string>)
    ensures Onto([], rest) == rest && RulesOf([], names) == Some([])
  {
    if rest.Some? {
      assert [] + rest.value == rest.value;
    }
  }

  /** One `if` command as a rule. */
  method RuleOf(c: P.Command, name: string) returns (r: Option<Rule>)
    ensures r == FlattenRule(c, name)
  {
    hide FlattenBlock, FlattenCondition;
    if c.kind != P.If || |c.branches| != 1 || c.branches[0].test.None? {
      return None;
    }
    var condition := FlattenCondition(c.branches[0].test.value);
    if condition.None? {
      return None;
    }
    var body := ReadBlock(c.branches[0].body);
    if body.None? {
      return None;
    }
    r := Some(Rule(name, condition.value.0, condition.value.1, body.value.0, body.value.1));
  }

  method Decompose(script: string) returns (r: Option<seq<Rule>>)
    ensures r == DecomposeOf(script)
  {
    hide RulesOf, FlattenRule, NamesFrom, Requires, P.Program;
    var program := SieveParser.ParseInternal(script);
    if program.None? {
      return None;
    }
    var cs := program.value;
    var usesVariables := RequiresCapability(cs, "variables");
    if usesVariables {
      return None;
    }
    var names := RuleNames(script);
    ghost var all := RulesOf(cs, names);
    var out: seq<Rule> := [];
    var seen: nat := 0;
    OntoBounds(all, names);
    assert cs[0..] == cs && names[0..] == names;
    for i := 0 to |cs|
      invariant Onto(out, RulesOf(cs[i..], Unused(names, seen))) == all
    {
      assert cs[i..][0] == cs[i] && cs[i..][1..] == cs[i + 1..];
      RulesStep(out, cs[i..], Unused(names, seen));
      if cs[i].kind == P.Require {
        continue;
      }
      var rule := RuleOf(cs[i], if seen < |names| then names[seen] else "");
      if rule.None? {
        return None;
      }
      out := out + [rule.value];
      assert (if Unused(names, seen) == [] then [] else Unused(names, seen)[1..]) == Unused(names, seen + 1);
      seen := seen + 1;
    }
    OntoBounds(all, Unused(names, seen));
    assert cs[|cs|..] == [] && out + [] == out;
    r := Some(out);
  }

  function Unused(names: seq<string>, seen: nat): seq<string> {
    if seen < |names| then names[seen..] else []
  }

  // ---- writing rules ------------------------------------------------------

  /** Line breaks dropped, quotes and backslashes escaped. */
  function EscapeSieve(s: string): string {
    if s == "" then ""
    else (if s[0] == '\r' || s[0] == '\n' then ""
          else if s[0] == '"' || s[0] == '\\' then ['\\', s[0]]
          else [s[0]]) + EscapeSieve(s[1..])
  }

  function QuoteOf(s: string): string {
    "\"" + (EscapeSieve(s) + "\"")
  }

  function Stuff(line: string): string {
    if line != "" && line[0] == '.' then "." + line else line
  }

  /** A line of a value as it appears in a block. */
  function PrintedLine(raw: string): string {
    Stuff(StripCr(raw)) + "\n"
  }

  /** The stuffed lines of a value, each ending in a newline. */
  function TextLines(s: string): string
    decreases |s|
  {
    var nl := IndexOf(s, '\n', 0);
    PrintedLine(s[..nl]) + (if nl == |s| then "" else TextLines(s[nl + 1..]))
  }

  /** One trailing line break removed. */
  function Chomp(s: string): string {
    StripCr(if s != "" && s[|s| - 1] == '\n' then s[..|s| - 1] else s)
  }

  function TextBlockOf(s: string): string {
    "text:\n" + (TextLines(Chomp(s)) + ".\n")
  }

  function QuoteOrTextOf(s: string): string {
    if OneLine(s) then QuoteOf(s) else TextBlockOf(s)
  }

  /** Strings quoted and separated by commas. */
  function QuoteList(items: seq<string>): string {
    if items == [] then ""
    else if |items| == 1 then QuoteOf(items[0])
    else QuoteOf(items[0]) + (", " + QuoteList(items[1..]))
  }

  function ListOf(items: seq<string>): string {
    "[" + (QuoteList(items) + "]")
  }

  function HeaderName(field: string): string {
    if "header:" <= field then field[7..] else field
  }

  function ConditionText(t: RuleTest): string {
    (if t.negate then "not " else "") +
    (if t.field == "size" then "size :" + ((if t.op == "under" then "under" else "over") + (" " + t.value))
     else if t.field == "body" then "body :text :" + (t.op + (" " + QuoteOf(t.value)))
     else "header :" + (t.op + (" " + (QuoteOf(HeaderName(t.field)) + (" " + QuoteOf(t.value))))))
  }

  function ConditionList(ts: seq<RuleTest>): string {
    if ts == [] then ""
    else if |ts| == 1 then ConditionText(ts[0])
    else ConditionText(ts[0]) + (", " + ConditionList(ts[1..]))
  }

  function TestText(r: Rule): string {
    if r.tests == [] then "true"
    else if |r.tests| == 1 then ConditionText(r.tests[0])
    else (if r.all then "allof" else "anyof") + (" (" + (ConditionList(r.tests) + ")"))
  }

  function FlagTag(flags: seq<string>): string {
    if flags == [] then "" else " :flags " + ListOf(flags)
  }

  function Tagged(tag: string, value: string): string {
    if value == "" then "" else " :" + (tag + (" " + QuoteOf(value)))
  }

  function VacationTags(v: VacationSpec): string {
    (if v.days > 0 && v.days != 7 then " :days " + Num(v.days) else "") +
    ((if v.mime then " :mime" else "") +
     (Tagged("subject", v.subject) +
      (Tagged("from", v.from) +
       (Tagged("handle", v.handle) +
        (if v.addresses == [] then "" else " :addresses " + ListOf(v.addresses))))))
  }

  function ActionText(a: Action): string {
    match a
    case FileInto(folder, create, flags) =>
      "    fileinto" + ((if create then " :create" else "") + (FlagTag(flags) + (" " + (QuoteOf(folder) + ";\n"))))
    case Redirect(address) => "    redirect " + (QuoteOf(address) + ";\n")
    case Reject(reason) => "    reject " + (QuoteOrTextOf(reason) + ";\n")
    case Discard => "    discard;\n"
    case Vacation(v, reason) => "    vacation" + (VacationTags(v) + (" " + (QuoteOrTextOf(reason) + ";\n")))
    case Keep(flags) => "    keep" + (FlagTag(flags) + ";\n")
  }

  function ActionsText(actions: seq<Action>): string {
    if actions == [] then "" else ActionText(actions[0]) + ActionsText(actions[1..])
  }

  /** Line breaks replaced by spaces. */
  function Flatten1(s: string): (r: string)
    ensures |r| == |s|
  {
    if s == "" then "" else [if s[0] == '\r' || s[0] == '\n' then ' ' else s[0]] + Flatten1(s[1..])
  }

  function NameText(name: string): string {
    if name == "" then "" else "# rule: " + (Flatten1(name) + "\n")
  }

  function RuleText(r: Rule): string {
    if r.actions == [] then ""
    else "\n" + (NameText(r.name) + ("if " + (TestText(r) + (" {\n" + (ActionsText(r.actions) + ((if r.stop then "    stop;\n" else "") + "}\n"))))))
  }

  function RulesText(rules: seq<Rule>): string {
    if rules == [] then "" else RuleText(rules[0]) + RulesText(rules[1..])
  }

  function Need(needed: seq<string>, capability: string): seq<string> {
    if capability in needed then needed else needed + [capability]
  }

  function FlagsOf(a: Action): seq<string> {
    if a.Keep? || a.FileInto? then a.flags else []
  }

  function NeedOfAction(needed: seq<string>, a: Action): seq<string> {
    var n1 := if a.FileInto? then (if a.create then Need(Need(needed, "fileinto"), "mailbox") else Need(needed, "fileinto")) else needed;
    var n2 := if a.Reject? then Need(n1, "reject") else n1;
    var n3 := if a.Vacation? then Need(n2, "vacation") else n2;
    if FlagsOf(a) != [] then Need(n3, "imap4flags") else n3
  }

  function NeedOfActions(needed: seq<string>, actions: seq<Action>): seq<string>
    decreases |actions|
  {
    if actions == [] then needed else NeedOfActions(NeedOfAction(needed, actions[0]), actions[1..])
  }

  function NeedOfRules(needed: seq<string>, rules: seq<Rule>): seq<string>
    decreases |rules|
  {
    if rules == [] then needed else NeedOfRules(NeedOfActions(needed, rules[0].actions), rules[1..])
  }

  const BANNER := "# Generated by the QuackCit rule editor.\n"
  const HINT := "# Editing this text by hand is fine: " + ("the rules are read back from it." + "\n")

  function RequireText(needed: seq<string>): string {
    if needed == [] then "" else "require " + (ListOf(needed) + ";\n")
  }

  /** The script text of a list of rules. */
  function ComposeOf(rules: seq<Rule>): string {
    BANNER + (HINT + (RequireText(NeedOfRules([], rules)) + RulesText(rules)))
  }
}
