/** The script writer of core/src/sieve.cpp, proved against its text. */
module SieveCompose {
  import opened Text
  import opened SieveRules

  method QuoteSieve(s: string) returns (out: string)
    ensures out == QuoteOf(s)
  {
    var body := "";
    assert s[0..] == s && "" + EscapeSieve(s) == EscapeSieve(s);
    for i := 0 to |s|
      invariant body + EscapeSieve(s[i..]) == EscapeSieve(s)
    {
      assert s[i..][0] == s[i] && s[i..][1..] == s[i + 1..];
      ghost var before, rest := body, EscapeSieve(s[i + 1..]);
      if s[i] == '\r' || s[i] == '\n' {
        assert "" + rest == rest;
        continue;
      }
      if s[i] == '"' || s[i] == '\\' {
        body := body + ['\\'];
      }
      body := body + [s[i]];
      assert body == before + (if s[i] == '"' || s[i] == '\\' then ['\\', s[i]] else [s[i]]);
      Assoc(before, if s[i] == '"' || s[i] == '\\' then ['\\', s[i]] else [s[i]], rest);
    }
    assert s[|s|..] == "" && body + "" == body;
    out := "\"" + (body + "\"");
  }

  method SieveText(s: string) returns (out: string)
    ensures out == TextBlockOf(s)
  {
    var text := s;
    if text != "" && text[|text| - 1] == '\n' {
      text := text[..|text| - 1];
    }
    if text != "" && text[|text| - 1] == '\r' {
      text := text[..|text| - 1];
    }
    var body := Lines(text);
    out := "text:\n" + (body + ".\n");
  }

  /** The stuffed lines of a block. */
  method Lines(text: string) returns (out: string)
    ensures out == TextLines(text)
  {
    hide TextLines;
    out := "";
    var i := 0;
    assert text[0..] == text && "" + TextLines(text) == TextLines(text);
    while true
      invariant i <= |text| && out + TextLines(text[i..]) == TextLines(text)
      decreases |text| - i
    {
      LineStep(text, i, out);
      var nl := IndexOf(text, '\n', i);
      var line := text[i..nl];
      if line != "" && line[|line| - 1] == '\r' {
        line := line[..|line| - 1];
      }
      if line != "" && line[0] == '.' {
        line := "." + line;
      }
      assert line + "\n" == PrintedLine(text[i..nl]);
      out := out + (line + "\n");
      if nl == |text| {
        assert out + "" == out;
        return;
      }
      i := nl + 1;
    }
  }

  lemma LineStep(text: string, i: nat, out: string)
    requires i <= |text|
    ensures var nl := IndexOf(text, '\n', i);
            out + TextLines(text[i..]) == (out + PrintedLine(text[i..nl])) + (if nl == |text| then "" else TextLines(text[nl + 1..]))
  {
    hide PrintedLine, TextLines;
    IndexOfSuffix(text, '\n', i);
    var nl, t := IndexOf(text, '\n', i), text[i..];
    var line := text[i..nl];
    assert t[..nl - i] == line;
    TextLinesUnfold(t, nl - i, line);
    if nl < |text| {
      var rest := text[nl + 1..];
      assert t[nl - i + 1..] == rest;
      assert TextLines(t) == PrintedLine(line) + TextLines(rest);
      Assoc(out, PrintedLine(line), TextLines(rest));
    } else {
      Assoc(out, PrintedLine(line), "");
    }
  }

  lemma TextLinesUnfold(t: string, nl: nat, line: string)
    requires nl == IndexOf(t, '\n', 0) && line == t[..nl]
    ensures TextLines(t) == PrintedLine(line) + (if nl == |t| then "" else TextLines(t[nl + 1..]))
  {
    hide PrintedLine;
  }

  method QuoteOrText(s: string) returns (out: string)
    ensures out == QuoteOrTextOf(s)
  {
    var oneLine := IndexOf(s, '\n', 0) == |s| && IndexOf(s, '\r', 0) == |s|;
    assert oneLine ==> OneLine(s);
    assert !oneLine ==> !OneLine(s);
    if oneLine {
      out := QuoteSieve(s);
    } else {
      out := SieveText(s);
    }
  }

  lemma ListStep(items: seq<string>, i: nat, out: string)
    requires i < |items|
    ensures out + QuoteList(items[i..])
         == (out + QuoteOf(items[i])) + (if i + 1 == |items| then "" else ", " + QuoteList(items[i + 1..]))
  {
    var rest := if i + 1 == |items| then "" else ", " + QuoteList(items[i + 1..]);
    assert items[i..][0] == items[i] && items[i..][1..] == items[i + 1..];
    assert QuoteOf(items[i]) + "" == QuoteOf(items[i]);
    assert QuoteList(items[i..]) == QuoteOf(items[i]) + rest;
    Assoc(out, QuoteOf(items[i]), rest);
  }

  /** `[` quoted items separated by commas `]`. */
  method QuotedList(items: seq<string>) returns (out: string)
    ensures out == ListOf(items)
  {
    hide QuoteOf, QuoteList;
    var body := "";
    ghost var all := QuoteList(items);
    QuoteListEmpty();
    if items != [] {
      assert items[0..] == items && "" + all == all;
    }
    for i := 0 to |items|
      invariant body + (if i == |items| then "" else (if i == 0 then "" else ", ") + QuoteList(items[i..])) == all
    {
      if i > 0 {
        Assoc(body, ", ", QuoteList(items[i..]));
        body := body + ", ";
      } else {
        assert "" + QuoteList(items[0..]) == QuoteList(items[0..]);
      }
      ListStep(items, i, body);
      var quoted := QuoteSieve(items[i]);
      body := body + quoted;
    }
    assert body + "" == body;
    out := "[" + (body + "]");
  }

  lemma QuoteListEmpty()
    ensures QuoteList([]) == ""
  {
  }

  method AddNeed(needed: seq<string>, capability: string) returns (r: seq<string>)
    ensures r == Need(needed, capability)
  {
    r := if capability in needed then needed else needed + [capability];
  }

  method Needs(rules: seq<Rule>) returns (needed: seq<string>)
    ensures needed == NeedOfRules([], rules)
  {
    hide NeedOfAction;
    needed := [];
    assert rules[0..] == rules;
    for i := 0 to |rules|
      invariant NeedOfRules(needed, rules[i..]) == NeedOfRules([], rules)
    {
      assert rules[i..][0] == rules[i] && rules[i..][1..] == rules[i + 1..];
      var actions := rules[i].actions;
      ghost var before := needed;
      assert actions[0..] == actions;
      for j := 0 to |actions|
        invariant NeedOfActions(needed, actions[j..]) == NeedOfActions(before, actions)
      {
        assert actions[j..][0] == actions[j] && actions[j..][1..] == actions[j + 1..];
        needed := NeedsOf(needed, actions[j]);
      }
    }
  }

  method NeedsOf(needed0: seq<string>, a: Action) returns (needed: seq<string>)
    ensures needed == NeedOfAction(needed0, a)
  {
    needed := needed0;
    if a.FileInto? {
      needed := AddNeed(needed, "fileinto");
      if a.create {
        needed := AddNeed(needed, "mailbox");
      }
    }
    if a.Reject? {
      needed := AddNeed(needed, "reject");
    }
    if a.Vacation? {
      needed := AddNeed(needed, "vacation");
    }
    if FlagsOf(a) != [] {
      needed := AddNeed(needed, "imap4flags");
    }
  }

  method Condition(t: RuleTest) returns (cond: string)
    ensures cond == ConditionText(t)
  {
    hide QuoteOf;
    if t.field == "size" {
      cond := "size :" + ((if t.op == "under" then "under" else "over") + (" " + t.value));
    } else if t.field == "body" {
      var value := QuoteSieve(t.value);
      cond := "body :text :" + (t.op + (" " + value));
    } else {
      var header := t.field;
      if "header:" <= header {
        header := header[7..];
      }
      var name := QuoteSieve(header);
      var value := QuoteSieve(t.value);
      cond := "header :" + (t.op + (" " + (name + (" " + value))));
    }
    if t.negate {
      cond := "not " + cond;
    } else {
      assert "" + cond == cond;
    }
  }

  method Conditions(tests: seq<RuleTest>) returns (conditions: seq<string>)
    ensures |conditions| == |tests| && forall i :: 0 <= i < |tests| ==> conditions[i] == ConditionText(tests[i])
  {
    hide ConditionText;
    conditions := [];
    for i := 0 to |tests|
      invariant |conditions| == i && forall k :: 0 <= k < i ==> conditions[k] == ConditionText(tests[k])
    {
      var cond := Condition(tests[i]);
      conditions := conditions + [cond];
    }
  }

  lemma ConditionsStep(tests: seq<RuleTest>, i: nat, out: string)
    requires i < |tests|
    ensures out + ConditionList(tests[i..])
         == (out + ConditionText(tests[i])) + (if i + 1 == |tests| then "" else ", " + ConditionList(tests[i + 1..]))
  {
    hide ConditionText;
    var rest := if i + 1 == |tests| then "" else ", " + ConditionList(tests[i + 1..]);
    assert tests[i..][0] == tests[i] && tests[i..][1..] == tests[i + 1..];
    assert ConditionText(tests[i]) + "" == ConditionText(tests[i]);
    assert ConditionList(tests[i..]) == ConditionText(tests[i]) + rest;
    Assoc(out, ConditionText(tests[i]), rest);
  }

  method TestOf(r: Rule) returns (test: string)
    ensures test == TestText(r)
  {
    hide ConditionText, ConditionList;
    var conditions := Conditions(r.tests);
    if conditions == [] {
      return "true";
    }
    if |conditions| == 1 {
      return conditions[0];
    }
    var body := "";
    ghost var all := ConditionList(r.tests);
    assert r.tests[0..] == r.tests && "" + all == all;
    for i := 0 to |conditions|
      invariant body + (if i == |r.tests| then "" else (if i == 0 then "" else ", ") + ConditionList(r.tests[i..])) == all
    {
      if i > 0 {
        Assoc(body, ", ", ConditionList(r.tests[i..]));
        body := body + ", ";
      } else {
        assert "" + ConditionList(r.tests[0..]) == ConditionList(r.tests[0..]);
      }
      ConditionsStep(r.tests, i, body);
      body := body + conditions[i];
    }
    assert body + "" == body;
    test := (if r.all then "allof" else "anyof") + (" (" + (body + ")"));
  }

  method FlagTagOf(flags: seq<string>) returns (out: string)
    ensures out == FlagTag(flags)
  {
    hide ListOf;
    if flags == [] {
      return "";
    }
    var items := QuotedList(flags);
    out := " :flags " + items;
  }

  method TaggedOf(tag: string, value: string) returns (out: string)
    ensures out == Tagged(tag, value)
  {
    hide QuoteOf;
    if value == "" {
      return "";
    }
    var quoted := QuoteSieve(value);
    out := " :" + (tag + (" " + quoted));
  }

  method VacationTagsOf(v: VacationSpec) returns (out: string)
    ensures out == VacationTags(v)
  {
    hide Tagged, ListOf, Num;
    var subject := TaggedOf("subject", v.subject);
    var from := TaggedOf("from", v.from);
    var handle := TaggedOf("handle", v.handle);
    var addresses := "";
    if v.addresses != [] {
      var items := QuotedList(v.addresses);
      addresses := " :addresses " + items;
    }
    out := (if v.days > 0 && v.days != 7 then " :days " + Num(v.days) else "") +
           ((if v.mime then " :mime" else "") + (subject + (from + (handle + addresses))));
  }

  method AppendAction(out0: string, a: Action) returns (out: string)
    ensures out == out0 + ActionText(a)
  {
    hide QuoteOf, QuoteOrTextOf, FlagTag, VacationTags;
    var line;
    match a {
    case FileInto(folder, create, flags) =>
      var tags := FlagTagOf(flags);
      var quoted := QuoteSieve(folder);
      line := "    fileinto" + ((if create then " :create" else "") + (tags + (" " + (quoted + ";\n"))));
    case Redirect(address) =>
      var quoted := QuoteSieve(address);
      line := "    redirect " + (quoted + ";\n");
    case Reject(reason) =>
      var quoted := QuoteOrText(reason);
      line := "    reject " + (quoted + ";\n");
    case Discard =>
      line := "    discard;\n";
    case Vacation(v, reason) =>
      var tags := VacationTagsOf(v);
      var quoted := QuoteOrText(reason);
      line := "    vacation" + (tags + (" " + (quoted + ";\n")));
    case Keep(flags) =>
      var tags := FlagTagOf(flags);
      line := "    keep" + (tags + ";\n");
    }
    out := out0 + line;
  }

  method AppendActions(out0: string, actions: seq<Action>) returns (out: string)
    ensures out == out0 + ActionsText(actions)
  {
    hide ActionText;
    out := out0;
    assert actions[0..] == actions;
    for i := 0 to |actions|
      invariant out + ActionsText(actions[i..]) == out0 + ActionsText(actions)
    {
      assert actions[i..][0] == actions[i] && actions[i..][1..] == actions[i + 1..];
      Assoc(out, ActionText(actions[i]), ActionsText(actions[i + 1..]));
      out := AppendAction(out, actions[i]);
    }
    assert out + ActionsText(actions[|actions|..]) == out;
  }

  method NameComment(name: string) returns (out: string)
    ensures out == NameText(name)
  {
    hide Flatten1;
    if name == "" {
      return "";
    }
    var flat := FlattenName(name);
    out := "# rule: " + (flat + "\n");
  }

  method FlattenName(name: string) returns (out: string)
    ensures out == Flatten1(name)
  {
    out := "";
    assert name[0..] == name;
    for i := 0 to |name|
      invariant out + Flatten1(name[i..]) == Flatten1(name)
    {
      assert name[i..][0] == name[i] && name[i..][1..] == name[i + 1..];
      var c := if name[i] == '\r' || name[i] == '\n' then ' ' else name[i];
      Assoc(out, [c], Flatten1(name[i + 1..]));
      out := out + [c];
    }
  }

  method AppendRule(out0: string, r: Rule) returns (out: string)
    ensures out == out0 + RuleText(r)
  {
    hide NameText, TestText, ActionsText;
    if r.actions == [] {
      assert out0 + "" == out0;
      return out0;
    }
    var name := NameComment(r.name);
    var test := TestOf(r);
    var actions := AppendActions("", r.actions);
    assert actions == ActionsText(r.actions);
    out := out0 + ("\n" + (name + ("if " + (test + (" {\n" + (actions + ((if r.stop then "    stop;\n" else "") + "}\n")))))));
  }

  /** Write the rules as a script. */
  method Compose(rules: seq<Rule>) returns (out: string)
    ensures out == ComposeOf(rules)
  {
    hide ListOf, RuleText;
    var needed := Needs(rules);
    out := BANNER + HINT;
    if needed != [] {
      var caps := QuotedList(needed);
      out := out + ("require " + (caps + ";\n"));
    } else {
      assert out + "" == out;
    }
    ghost var top := RequireText(needed);
    assert out == (BANNER + HINT) + top;
    ghost var before := out;
    assert rules[0..] == rules;
    for i := 0 to |rules|
      invariant out + RulesText(rules[i..]) == before + RulesText(rules)
    {
      assert rules[i..][0] == rules[i] && rules[i..][1..] == rules[i + 1..];
      Assoc(out, RuleText(rules[i]), RulesText(rules[i + 1..]));
      out := AppendRule(out, rules[i]);
    }
    assert out + RulesText(rules[|rules|..]) == out;
    Assoc(BANNER + HINT, top, RulesText(rules));
    Assoc(BANNER, HINT, top + RulesText(rules));
  }
}
