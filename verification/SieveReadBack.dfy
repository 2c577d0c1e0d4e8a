/** The parser on the tokens of a printed script, and the rules read out of the result: each printed
    condition, action and rule is parsed into the tree it stands for, whatever follows it, and the
    whole script into the list of those trees. */
module SieveReadBack {
  import opened Text
  import opened SieveLex
  import opened SieveRules
  import opened SievePieces
  import opened SievePrinted
  import P = SieveParse

  lemma Peel(t: Token, rest: seq<Token>)
    ensures P.Head([t] + rest) == t && (t != End ==> P.Next([t] + rest) == rest)
  {
    assert ([t] + rest)[1..] == rest;
  }

  // ---- lists --------------------------------------------------------------

  function CleanAll(items: seq<string>): (r: seq<string>)
    ensures |r| == |items|
  {
    if items == [] then [] else [Clean(items[0])] + CleanAll(items[1..])
  }

  lemma {:induction false} ItemsReadBack(items: seq<string>, rest: seq<Token>)
    requires items != []
    ensures P.Elements(Items(items) + ([RBracket] + rest)) == Some((CleanAll(items), rest))
  {
    hide Clean, P.Next, P.Head;
    var first, close := Str(Clean(items[0])), [RBracket] + rest;
    if |items| == 1 {
      Peel(first, close);
      Peel(RBracket, rest);
      assert CleanAll(items) == [Clean(items[0])];
    } else {
      ItemsReadBack(items[1..], rest);
      var tail := Items(items[1..]) + close;
      Assoc([first], [Comma] + Items(items[1..]), close);
      Assoc([Comma], Items(items[1..]), close);
      Peel(first, [Comma] + tail);
      Peel(Comma, tail);
    }
  }

  lemma ListReadsBack(items: seq<string>, rest: seq<Token>)
    ensures P.StringList(ListTokens(items) + rest) == Some((CleanAll(items), rest))
    ensures P.Head(ListTokens(items) + rest) == LBracket
  {
    hide Clean, P.Elements, P.Next, P.Head;
    var inner := Items(items) + ([RBracket] + rest);
    Assoc([LBracket], Items(items) + [RBracket], rest);
    Assoc(Items(items), [RBracket], rest);
    assert ListTokens(items) + rest == [LBracket] + inner;
    Peel(LBracket, inner);
    if items == [] {
      assert inner == [RBracket] + rest;
      Peel(RBracket, rest);
    } else {
      ItemsReadBack(items, rest);
      Peel(Str(Clean(items[0])), inner[1..]);
      assert inner == [Str(Clean(items[0]))] + inner[1..];
    }
  }

  lemma StringReadsBack(s: string, rest: seq<Token>)
    ensures P.StringList([Str(s)] + rest) == Some(([s], rest))
    ensures P.Head([Str(s)] + rest) == Str(s)
  {
    Peel(Str(s), rest);
  }

  // ---- conditions ---------------------------------------------------------

  /** The syntax tree of a printed condition, `not` aside. */
  function CoreTree(t: RuleTest): P.Test {
    if t.field == "size" then
      P.NewTest(P.Size).(sizeRelation := if t.op == "under" then "under" else "over", sizeLimit := DecValue(t.value))
    else if t.field == "body" then P.NewTest(P.Body).(matchType := t.op, keys := [Clean(t.value)])
    else P.NewTest(P.Header).(matchType := t.op, names := [Clean(HeaderName(t.field))], keys := [Clean(t.value)])
  }

  function ConditionTree(t: RuleTest): P.Test {
    if t.negate then P.NewTest(P.Not).(children := [CoreTree(t)]) else CoreTree(t)
  }

  lemma MatchTag(op: string, rest: seq<Token>, t: P.Test)
    requires P.IsMatchType(op) && !P.Head(rest).Tag?
    ensures P.MatchTags([Tag(op)] + rest, t) == (t.(matchType := op), rest)
  {
    hide P.Head, P.Next;
    Peel(Tag(op), rest);
    assert op != "comparator";
  }

  lemma NoTags(rest: seq<Token>, t: P.Test)
    requires !P.Head(rest).Tag?
    ensures P.MatchTags(rest, t) == (t, rest)
  {
  }

  lemma TestNames(rest: seq<Token>)
    ensures P.TestAt([Ident("size")] + rest) == P.SizeTest(rest)
    ensures P.TestAt([Ident("body")] + rest) == P.BodyTest(rest)
    ensures P.TestAt([Ident("header")] + rest) == P.TwoListTest(P.Header, rest)
    ensures P.TestAt([Ident("not")] + rest) == P.NotTest(rest)
    ensures P.TestAt([Ident("true")] + rest) == Some((P.NewTest(P.Always), rest))
    ensures P.TestAt([Ident("allof")] + rest) == P.GroupTest(P.AllOf, rest)
    ensures P.TestAt([Ident("anyof")] + rest) == P.GroupTest(P.AnyOf, rest)
  {
    hide P.Head, P.Next, P.SizeTest, P.BodyTest, P.TwoListTest, P.NotTest, P.GroupTest;
    Peel(Ident("size"), rest);
    Peel(Ident("body"), rest);
    Peel(Ident("header"), rest);
    Peel(Ident("not"), rest);
    Peel(Ident("true"), rest);
    Peel(Ident("allof"), rest);
    Peel(Ident("anyof"), rest);
  }

  lemma SizeReadsBack(op: string, n: nat, rest: seq<Token>)
    requires op == "over" || op == "under"
    ensures P.TestAt([Ident("size"), Tag(op), Number(n)] + rest) ==
            Some((P.NewTest(P.Size).(sizeRelation := op, sizeLimit := n), rest))
  {
    hide P.Head, P.Next, P.TestAt;
    var r1 := [Number(n)] + rest;
    var r2 := [Tag(op)] + r1;
    assert [Ident("size"), Tag(op), Number(n)] + rest == [Ident("size")] + r2;
    TestNames(r2);
    Peel(Tag(op), r1);
    Peel(Number(n), rest);
    assert op != "comparator";
    NoTags(r1, P.NewTest(P.Size).(sizeRelation := op));
  }

  lemma BodyReadsBack(op: string, v: string, rest: seq<Token>)
    requires P.IsMatchType(op)
    ensures P.TestAt([Ident("body"), Tag("text"), Tag(op), Str(v)] + rest) ==
            Some((P.NewTest(P.Body).(matchType := op, keys := [v]), rest))
  {
    hide P.Head, P.Next, P.TestAt, P.StringList;
    var r1 := [Str(v)] + rest;
    var r2 := [Tag(op)] + r1;
    var r3 := [Tag("text")] + r2;
    assert [Ident("body"), Tag("text"), Tag(op), Str(v)] + rest == [Ident("body")] + r3;
    TestNames(r3);
    StringReadsBack(v, rest);
    MatchTag(op, r1, P.NewTest(P.Body));
    Peel(Tag("text"), r2);
    assert P.MatchTags(r3, P.NewTest(P.Body)) == P.MatchTags(r2, P.NewTest(P.Body));
  }

  lemma HeaderReadsBack(op: string, h: string, v: string, rest: seq<Token>)
    requires P.IsMatchType(op)
    ensures P.TestAt([Ident("header"), Tag(op), Str(h), Str(v)] + rest) ==
            Some((P.NewTest(P.Header).(matchType := op, names := [h], keys := [v]), rest))
  {
    hide P.Head, P.Next, P.TestAt, P.StringList, P.MatchTags;
    var r1 := [Str(v)] + rest;
    var r2 := [Str(h)] + r1;
    var r3 := [Tag(op)] + r2;
    assert [Ident("header"), Tag(op), Str(h), Str(v)] + rest == [Ident("header")] + r3;
    TestNames(r3);
    StringReadsBack(v, rest);
    StringReadsBack(h, r1);
    MatchTag(op, r2, P.NewTest(P.Header));
    NoTags(r1, P.NewTest(P.Header).(matchType := op, names := [h]));
  }

  lemma CoreReadsBack(t: RuleTest, rest: seq<Token>)
    requires LegalTest(t)
    ensures P.TestAt(ConditionCore(t) + rest) == Some((CoreTree(t), rest))
  {
    hide P.TestAt, Clean, HeaderName, DecValue, Num;
    if t.field == "size" {
      SizeReadsBack(if t.op == "under" then "under" else "over", DecValue(t.value), rest);
    } else if t.field == "body" {
      BodyReadsBack(t.op, Clean(t.value), rest);
    } else {
      HeaderReadsBack(t.op, Clean(HeaderName(t.field)), Clean(t.value), rest);
    }
  }

  lemma ConditionReadsBack(t: RuleTest, rest: seq<Token>)
    requires LegalTest(t)
    ensures P.TestAt(ConditionTokens(t) + rest) == Some((ConditionTree(t), rest))
  {
    hide P.TestAt, ConditionCore, CoreTree, LegalTest;
    CoreReadsBack(t, rest);
    if t.negate {
      Assoc([Ident("not")], ConditionCore(t), rest);
      TestNames(ConditionCore(t) + rest);
    } else {
      assert [] + ConditionCore(t) == ConditionCore(t);
    }
  }

  function ConditionTrees(ts: seq<RuleTest>): seq<P.Test> {
    if ts == [] then [] else [ConditionTree(ts[0])] + ConditionTrees(ts[1..])
  }

  lemma {:induction false} ConditionsReadBack(ts: seq<RuleTest>, rest: seq<Token>)
    requires ts != [] && AllLegal(ts) && P.Head(rest) != Comma
    ensures P.Tests(Commas(ts) + rest) == Some((ConditionTrees(ts), rest))
  {
    hide P.TestAt, ConditionTokens, ConditionTree, LegalTest, P.Head, P.Next;
    if |ts| == 1 {
      ConditionReadsBack(ts[0], rest);
      assert ConditionTrees(ts) == [ConditionTree(ts[0])];
    } else {
      ConditionsReadBack(ts[1..], rest);
      var tail := Commas(ts[1..]) + rest;
      Assoc(ConditionTokens(ts[0]), [Comma] + Commas(ts[1..]), rest);
      Assoc([Comma], Commas(ts[1..]), rest);
      ConditionReadsBack(ts[0], [Comma] + tail);
      Peel(Comma, tail);
    }
  }

  /** The syntax tree of the test of a rule. */
  function TestTree(r: Rule): P.Test {
    if r.tests == [] then P.NewTest(P.Always)
    else if |r.tests| == 1 then ConditionTree(r.tests[0])
    else P.NewTest(if r.all then P.AllOf else P.AnyOf).(children := ConditionTrees(r.tests))
  }

  lemma TestReadsBack(r: Rule, rest: seq<Token>)
    requires AllLegal(r.tests)
    ensures P.TestAt(TestTokens(r) + rest) == Some((TestTree(r), rest))
  {
    hide P.TestAt, ConditionTokens, ConditionTree, LegalTest, P.Head, P.Next, P.Tests, Commas, ConditionTrees;
    if r.tests == [] {
      TestNames(rest);
    } else if |r.tests| == 1 {
      ConditionReadsBack(r.tests[0], rest);
    } else {
      var w := Ident(if r.all then "allof" else "anyof");
      var close := [RParen] + rest;
      var inner := Commas(r.tests) + close;
      Assoc([w], [LParen] + (Commas(r.tests) + [RParen]), rest);
      Assoc([LParen], Commas(r.tests) + [RParen], rest);
      Assoc(Commas(r.tests), [RParen], rest);
      TestNames([LParen] + inner);
      Peel(LParen, inner);
      Peel(RParen, rest);
      ConditionsReadBack(r.tests, close);
    }
  }

  // ---- commands -----------------------------------------------------------

  function FlagsRead(c: P.Command, flags: seq<string>): P.Command {
    if flags == [] then c else c.(flags := CleanAll(flags), hasFlags := true)
  }

  /** The syntax tree of a printed action. */
  function ActionTree(a: Action): P.Command {
    match a
    case FileInto(folder, create, flags) =>
      FlagsRead(P.NewCommand(P.FileInto).(create := create, argument := Clean(folder)), flags)
    case Redirect(address) => P.NewCommand(P.Redirect).(argument := Clean(address))
    case Reject(reason) => P.NewCommand(P.Reject).(argument := ReasonValue(reason))
    case Discard => P.NewCommand(P.Discard)
    case Vacation(v, reason) =>
      P.NewCommand(P.Vacation).(vacDays := if v.days > 0 && v.days != 7 then v.days else 0, vacMime := v.mime,
        vacSubject := Clean(v.subject), vacFrom := Clean(v.from), vacHandle := Clean(v.handle),
        vacAddresses := CleanAll(v.addresses), argument := ReasonValue(reason))
    case Keep(flags) => FlagsRead(P.NewCommand(P.Keep), flags)
  }

  lemma NoTagArgs(rest: seq<Token>, c: P.Command)
    requires !P.Head(rest).Tag?
    ensures P.TagArgs(rest, c) == Some((c, rest))
  {
  }

  /** One more tagged argument. */
  lemma TagArgsStep(tag: string, rest: seq<Token>, c: P.Command)
    requires P.TagArg(tag, rest, c).Some?
    ensures P.TagArgs([Tag(tag)] + rest, c) == P.TagArgs(P.TagArg(tag, rest, c).value.1, P.TagArg(tag, rest, c).value.0)
  {
    hide P.TagArg, P.Head, P.Next;
    Peel(Tag(tag), rest);
  }

  lemma FlagArgs(flags: seq<string>, rest: seq<Token>, c: P.Command)
    requires c.flags == []
    ensures P.TagArgs(FlagTokens(flags) + rest, c) == P.TagArgs(rest, FlagsRead(c, flags))
  {
    hide P.StringList, ListTokens, P.TagArgs;
    if flags == [] {
      assert [] + rest == rest;
    } else {
      ListReadsBack(flags, rest);
      Assoc([Tag("flags")], ListTokens(flags), rest);
      assert [] + CleanAll(flags) == CleanAll(flags);
      TagArgsStep("flags", ListTokens(flags) + rest, c);
    }
  }

  lemma AddressArgs(addresses: seq<string>, rest: seq<Token>, c: P.Command)
    requires c.vacAddresses == []
    ensures P.TagArgs(AddressTokens(addresses) + rest, c) == P.TagArgs(rest, c.(vacAddresses := CleanAll(addresses)))
  {
    hide P.StringList, ListTokens, P.TagArgs;
    if addresses == [] {
      assert [] + rest == rest;
    } else {
      ListReadsBack(addresses, rest);
      Assoc([Tag("addresses")], ListTokens(addresses), rest);
      assert [] + CleanAll(addresses) == CleanAll(addresses);
      TagArgsStep("addresses", ListTokens(addresses) + rest, c);
    }
  }

  lemma StringArg(tag: string, value: string, rest: seq<Token>, c: P.Command, c': P.Command)
    requires P.TagArg(tag, [Str(Clean(value))] + rest, c) == Some((c', rest))
    requires value == "" ==> c' == c
    ensures P.TagArgs(TaggedTokens(tag, value) + rest, c) == P.TagArgs(rest, c')
  {
    hide P.TagArgs, P.TagArg, Clean;
    if value == "" {
      assert [] + rest == rest;
    } else {
      assert [Tag(tag), Str(Clean(value))] + rest == [Tag(tag)] + ([Str(Clean(value))] + rest);
      TagArgsStep(tag, [Str(Clean(value))] + rest, c);
    }
  }

  lemma StringArgs(value: string, rest: seq<Token>, c: P.Command)
    ensures c.vacSubject == "" ==> P.TagArgs(TaggedTokens("subject", value) + rest, c) == P.TagArgs(rest, c.(vacSubject := Clean(value)))
    ensures c.vacFrom == "" ==> P.TagArgs(TaggedTokens("from", value) + rest, c) == P.TagArgs(rest, c.(vacFrom := Clean(value)))
    ensures c.vacHandle == "" ==> P.TagArgs(TaggedTokens("handle", value) + rest, c) == P.TagArgs(rest, c.(vacHandle := Clean(value)))
  {
    hide P.TagArgs, TaggedTokens;
    Peel(Str(Clean(value)), rest);
    if c.vacSubject == "" {
      StringArg("subject", value, rest, c, c.(vacSubject := Clean(value)));
    }
    if c.vacFrom == "" {
      StringArg("from", value, rest, c, c.(vacFrom := Clean(value)));
    }
    if c.vacHandle == "" {
      StringArg("handle", value, rest, c, c.(vacHandle := Clean(value)));
    }
  }

  lemma DaysArg(days: int, rest: seq<Token>, c: P.Command)
    requires c.vacDays == 0
    ensures P.TagArgs(DaysTokens(days) + rest, c) ==
            P.TagArgs(rest, c.(vacDays := if days > 0 && days != 7 then days else 0))
  {
    hide P.TagArgs;
    if days > 0 && days != 7 {
      assert [Tag("days"), Number(days)] + rest == [Tag("days")] + ([Number(days)] + rest);
      Peel(Number(days), rest);
      TagArgsStep("days", [Number(days)] + rest, c);
    } else {
      assert [] + rest == rest;
    }
  }

  lemma MimeArg(mime: bool, rest: seq<Token>, c: P.Command)
    requires !c.vacMime
    ensures P.TagArgs((if mime then [Tag("mime")] else []) + rest, c) == P.TagArgs(rest, c.(vacMime := mime))
  {
    hide P.TagArgs;
    if mime {
      TagArgsStep("mime", rest, c);
    } else {
      assert [] + rest == rest;
    }
  }

  lemma VacationArgs(v: VacationSpec, rest: seq<Token>)
    requires !P.Head(rest).Tag?
    ensures P.TagArgs(VacationTokens(v) + rest, P.NewCommand(P.Vacation)) ==
            Some((ActionTree(Vacation(v, "")).(argument := ""), rest))
  {
    hide P.TagArgs, DaysTokens, TaggedTokens, AddressTokens, Clean, CleanAll, P.Head, ReasonValue;
    var c0 := P.NewCommand(P.Vacation);
    var c1 := c0.(vacDays := if v.days > 0 && v.days != 7 then v.days else 0);
    var c2 := c1.(vacMime := v.mime);
    var c3 := c2.(vacSubject := Clean(v.subject));
    var c4 := c3.(vacFrom := Clean(v.from));
    var c5 := c4.(vacHandle := Clean(v.handle));
    var c6 := c5.(vacAddresses := CleanAll(v.addresses));
    var km := if v.mime then [Tag("mime")] else [];
    var r5 := AddressTokens(v.addresses) + rest;
    var r4 := TaggedTokens("handle", v.handle) + r5;
    var r3 := TaggedTokens("from", v.from) + r4;
    var r2 := TaggedTokens("subject", v.subject) + r3;
    var r1 := km + r2;
    Nest6(DaysTokens(v.days), km, TaggedTokens("subject", v.subject), TaggedTokens("from", v.from),
          TaggedTokens("handle", v.handle), AddressTokens(v.addresses), rest);
    DaysArg(v.days, r1, c0);
    MimeArg(v.mime, r2, c1);
    StringArgs(v.subject, r3, c2);
    StringArgs(v.from, r4, c3);
    StringArgs(v.handle, r5, c4);
    AddressArgs(v.addresses, rest, c5);
    NoTagArgs(rest, c6);
  }

  lemma CommandNames(rest: seq<Token>)
    ensures P.CommandAt([Ident("keep")] + rest) == P.SimpleCommand(P.Keep, rest)
    ensures P.CommandAt([Ident("discard")] + rest) == P.SimpleCommand(P.Discard, rest)
    ensures P.CommandAt([Ident("fileinto")] + rest) == P.SimpleCommand(P.FileInto, rest)
    ensures P.CommandAt([Ident("redirect")] + rest) == P.SimpleCommand(P.Redirect, rest)
    ensures P.CommandAt([Ident("reject")] + rest) == P.SimpleCommand(P.Reject, rest)
    ensures P.CommandAt([Ident("vacation")] + rest) == P.SimpleCommand(P.Vacation, rest)
    ensures P.CommandAt([Ident("stop")] + rest) == P.SimpleCommand(P.Stop, rest)
    ensures P.CommandAt([Ident("if")] + rest) == P.IfCommand(rest)
    ensures P.CommandAt([Ident("require")] + rest) == P.RequireCommand(rest)
  {
    hide P.Head, P.Next, P.SimpleCommand, P.IfCommand, P.RequireCommand;
    Peel(Ident("keep"), rest);
    Peel(Ident("discard"), rest);
    Peel(Ident("fileinto"), rest);
    Peel(Ident("redirect"), rest);
    Peel(Ident("reject"), rest);
    Peel(Ident("vacation"), rest);
    Peel(Ident("stop"), rest);
    Peel(Ident("if"), rest);
    Peel(Ident("require"), rest);
  }

  /** A command that ends in one string. */
  lemma EndsInString(kind: P.CommandKind, c: P.Command, tags: seq<Token>, s: string, rest: seq<Token>)
    requires kind.FileInto? || kind.Redirect? || kind.Reject? || kind.Vacation?
    requires c.kind == kind
    requires P.TagArgs(tags + ([Str(s)] + ([Semicolon] + rest)), P.NewCommand(kind)) == Some((c, [Str(s)] + ([Semicolon] + rest)))
    ensures P.SimpleCommand(kind, tags + ([Str(s), Semicolon] + rest)) == Some((c.(argument := s), rest))
  {
    hide P.TagArgs, P.Head, P.Next;
    assert [Str(s), Semicolon] + rest == [Str(s)] + ([Semicolon] + rest);
    Peel(Str(s), [Semicolon] + rest);
    Peel(Semicolon, rest);
  }

  /** A command that ends right after its tags. */
  lemma EndsBare(kind: P.CommandKind, c: P.Command, tags: seq<Token>, rest: seq<Token>)
    requires kind.Keep? || kind.Discard? || kind.Stop?
    requires c.kind == kind
    requires P.TagArgs(tags + ([Semicolon] + rest), P.NewCommand(kind)) == Some((c, [Semicolon] + rest))
    ensures P.SimpleCommand(kind, tags + ([Semicolon] + rest)) == Some((c, rest))
  {
    hide P.TagArgs, P.Head, P.Next;
    Peel(Semicolon, rest);
  }

  lemma FileIntoReadsBack(folder: string, create: bool, flags: seq<string>, rest: seq<Token>)
    ensures var a := FileInto(folder, create, flags);
            P.CommandAt(ActionTokens(a) + rest) == Some((ActionTree(a), rest))
  {
    hide P.CommandAt, P.SimpleCommand, P.TagArgs, FlagTokens, Clean, CleanAll, P.Head;
    var s := Clean(folder);
    var tail := [Str(s)] + ([Semicolon] + rest);
    var c0 := P.NewCommand(P.FileInto);
    var ct := if create then [Tag("create")] else [];
    var c1 := c0.(create := create);
    var tags := ct + FlagTokens(flags);
    Assoc(ct, FlagTokens(flags), tail);
    if create {
      TagArgsStep("create", FlagTokens(flags) + tail, c0);
    } else {
      assert [] + (FlagTokens(flags) + tail) == FlagTokens(flags) + tail;
    }
    FlagArgs(flags, tail, c1);
    Peel(Str(s), [Semicolon] + rest);
    NoTagArgs(tail, FlagsRead(c1, flags));
    EndsInString(P.FileInto, FlagsRead(c1, flags), tags, s, rest);
    CommandNames(tags + ([Str(s), Semicolon] + rest));
    Assoc([Ident("fileinto")], ct + (FlagTokens(flags) + [Str(s), Semicolon]), rest);
    Assoc(ct, FlagTokens(flags) + [Str(s), Semicolon], rest);
    Assoc(FlagTokens(flags), [Str(s), Semicolon], rest);
    Assoc(ct, FlagTokens(flags), [Str(s), Semicolon] + rest);
  }

  lemma StringCommandReadsBack(name: string, kind: P.CommandKind, s: string, rest: seq<Token>)
    requires kind.Redirect? || kind.Reject?
    requires P.CommandAt([Ident(name)] + ([Str(s), Semicolon] + rest)) == P.SimpleCommand(kind, [Str(s), Semicolon] + rest)
    ensures P.CommandAt([Ident(name), Str(s), Semicolon] + rest) == Some((P.NewCommand(kind).(argument := s), rest))
  {
    hide P.CommandAt, P.SimpleCommand, P.TagArgs, P.Head;
    var tail := [Str(s)] + ([Semicolon] + rest);
    Peel(Str(s), [Semicolon] + rest);
    NoTagArgs(tail, P.NewCommand(kind));
    assert [] + tail == tail && [] + ([Str(s), Semicolon] + rest) == [Str(s), Semicolon] + rest;
    EndsInString(kind, P.NewCommand(kind), [], s, rest);
    assert [Ident(name), Str(s), Semicolon] + rest == [Ident(name)] + ([Str(s), Semicolon] + rest);
  }

  lemma BareCommandReadsBack(name: string, kind: P.CommandKind, rest: seq<Token>)
    requires kind.Discard? || kind.Stop?
    requires P.CommandAt([Ident(name)] + ([Semicolon] + rest)) == P.SimpleCommand(kind, [Semicolon] + rest)
    ensures P.CommandAt([Ident(name), Semicolon] + rest) == Some((P.NewCommand(kind), rest))
  {
    hide P.CommandAt, P.SimpleCommand, P.TagArgs, P.Head;
    Peel(Semicolon, rest);
    NoTagArgs([Semicolon] + rest, P.NewCommand(kind));
    assert [] + ([Semicolon] + rest) == [Semicolon] + rest;
    EndsBare(kind, P.NewCommand(kind), [], rest);
    assert [Ident(name), Semicolon] + rest == [Ident(name)] + ([Semicolon] + rest);
  }

  lemma VacationReadsBack(v: VacationSpec, reason: string, rest: seq<Token>)
    ensures P.CommandAt(ActionTokens(Vacation(v, reason)) + rest) == Some((ActionTree(Vacation(v, reason)), rest))
  {
    hide P.CommandAt, P.SimpleCommand, P.TagArgs, P.Head, VacationTokens, ReasonValue, Clean, CleanAll;
    var s := ReasonValue(reason);
    var tail := [Str(s)] + ([Semicolon] + rest);
    Peel(Str(s), [Semicolon] + rest);
    VacationArgs(v, tail);
    EndsInString(P.Vacation, ActionTree(Vacation(v, "")).(argument := ""), VacationTokens(v), s, rest);
    CommandNames(VacationTokens(v) + ([Str(s), Semicolon] + rest));
    Assoc([Ident("vacation")], VacationTokens(v) + [Str(s), Semicolon], rest);
    Assoc(VacationTokens(v), [Str(s), Semicolon], rest);
  }

  lemma KeepReadsBack(flags: seq<string>, rest: seq<Token>)
    ensures P.CommandAt(ActionTokens(Keep(flags)) + rest) == Some((ActionTree(Keep(flags)), rest))
  {
    hide P.CommandAt, P.SimpleCommand, P.TagArgs, P.Head, FlagTokens, CleanAll;
    var tail := [Semicolon] + rest;
    Peel(Semicolon, rest);
    FlagArgs(flags, tail, P.NewCommand(P.Keep));
    NoTagArgs(tail, FlagsRead(P.NewCommand(P.Keep), flags));
    EndsBare(P.Keep, FlagsRead(P.NewCommand(P.Keep), flags), FlagTokens(flags), rest);
    CommandNames(FlagTokens(flags) + tail);
    Assoc([Ident("keep")], FlagTokens(flags) + [Semicolon], rest);
    Assoc(FlagTokens(flags), [Semicolon], rest);
  }

  lemma ActionReadsBack(a: Action, rest: seq<Token>)
    ensures P.CommandAt(ActionTokens(a) + rest) == Some((ActionTree(a), rest))
  {
    hide P.CommandAt, P.SimpleCommand, FlagTokens, VacationTokens, ReasonValue, Clean, CleanAll, FlagsRead;
    match a
    case FileInto(folder, create, flags) => FileIntoReadsBack(folder, create, flags, rest);
    case Redirect(address) =>
      CommandNames([Str(Clean(address)), Semicolon] + rest);
      StringCommandReadsBack("redirect", P.Redirect, Clean(address), rest);
    case Reject(reason) =>
      CommandNames([Str(ReasonValue(reason)), Semicolon] + rest);
      StringCommandReadsBack("reject", P.Reject, ReasonValue(reason), rest);
    case Discard =>
      CommandNames([Semicolon] + rest);
      BareCommandReadsBack("discard", P.Discard, rest);
    case Vacation(v, reason) => VacationReadsBack(v, reason, rest);
    case Keep(flags) => KeepReadsBack(flags, rest);
  }

  // ---- blocks and rules ---------------------------------------------------

  function BodyTree(actions: seq<Action>, stop: bool): seq<P.Command> {
    if actions == [] then (if stop then [P.NewCommand(P.Stop)] else [])
    else [ActionTree(actions[0])] + BodyTree(actions[1..], stop)
  }

  lemma CommandsStep(text: seq<Token>, c: P.Command, rest: seq<Token>)
    requires P.Head(text) != RBrace && P.Head(text) != End && P.CommandAt(text) == Some((c, rest))
    ensures P.Commands(text) == match P.Commands(rest)
                                case None => None
                                case Some((more, after)) => Some(([c] + more, after))
  {
    hide P.CommandAt, P.Head;
  }

  lemma {:induction false} BodyReadsBackTo(actions: seq<Action>, stop: bool, rest: seq<Token>)
    ensures P.Commands(ActionsTokens(actions) + (StopTokens(stop) + rest)) == Some((BodyTree(actions, stop), rest))
  {
    hide P.CommandAt, P.Commands, ActionTokens, ActionTree, P.Head;
    var close := StopTokens(stop) + rest;
    if actions == [] {
      assert [] + close == close;
      StopReadsBack(stop, rest);
    } else {
      BodyReadsBackTo(actions[1..], stop, rest);
      var tail := ActionsTokens(actions[1..]) + close;
      Assoc(ActionTokens(actions[0]), ActionsTokens(actions[1..]), close);
      ActionReadsBack(actions[0], tail);
      ActionStarts(actions[0], tail);
      CommandsStep(ActionTokens(actions[0]) + tail, ActionTree(actions[0]), tail);
    }
  }

  lemma ActionStarts(a: Action, rest: seq<Token>)
    ensures P.Head(ActionTokens(a) + rest).Ident?
  {
    hide FlagTokens, VacationTokens, ReasonValue, Clean;
  }

  lemma BlockEnds(rest: seq<Token>)
    ensures P.Commands([RBrace] + rest) == Some(([], rest))
  {
    hide P.CommandAt, P.Head, P.Next;
    Peel(RBrace, rest);
  }

  lemma StopReadsBack(stop: bool, rest: seq<Token>)
    ensures P.Commands(StopTokens(stop) + rest) == Some((BodyTree([], stop), rest))
  {
    hide P.CommandAt, P.Head, P.Next, P.Commands, P.SimpleCommand;
    var close := [RBrace] + rest;
    BlockEnds(rest);
    if stop {
      Assoc([Ident("stop"), Semicolon], [RBrace], rest);
      CommandNames([Semicolon] + close);
      BareCommandReadsBack("stop", P.Stop, close);
      Peel(Ident("stop"), [Semicolon] + close);
      assert [Ident("stop"), Semicolon] + close == [Ident("stop")] + ([Semicolon] + close);
      CommandsStep([Ident("stop"), Semicolon] + close, P.NewCommand(P.Stop), close);
      assert [P.NewCommand(P.Stop)] + [] == [P.NewCommand(P.Stop)];
    } else {
      assert [] + [RBrace] == [RBrace];
    }
  }

  function RuleTree(r: Rule): P.Command {
    P.NewCommand(P.If).(branches := [P.Branch(Some(TestTree(r)), BodyTree(r.actions, r.stop))])
  }

  lemma RuleReadsBack(r: Rule, rest: seq<Token>)
    requires AllLegal(r.tests) && r.actions != []
    requires P.Head(rest) != Ident("elsif") && P.Head(rest) != Ident("else")
    ensures P.CommandAt(RuleTokens(r) + rest) == Some((RuleTree(r), rest))
  {
    hide P.CommandAt, P.Commands, P.TestAt, P.Head, P.Next, TestTokens, TestTree, ActionsTokens, StopTokens, BodyTree, AllLegal;
    var inner := ActionsTokens(r.actions) + (StopTokens(r.stop) + rest);
    var block := [LBrace] + inner;
    Assoc([Ident("if")], TestTokens(r) + ([LBrace] + (ActionsTokens(r.actions) + StopTokens(r.stop))), rest);
    Assoc(TestTokens(r), [LBrace] + (ActionsTokens(r.actions) + StopTokens(r.stop)), rest);
    Assoc([LBrace], ActionsTokens(r.actions) + StopTokens(r.stop), rest);
    Assoc(ActionsTokens(r.actions), StopTokens(r.stop), rest);
    CommandNames(TestTokens(r) + block);
    TestReadsBack(r, block);
    Peel(LBrace, inner);
    BodyReadsBackTo(r.actions, r.stop, rest);
    assert P.Block(block) == Some((BodyTree(r.actions, r.stop), rest));
  }

  /** The commands of the rules that are printed: those with actions. */
  function RuleTrees(rules: seq<Rule>): seq<P.Command> {
    if rules == [] then []
    else if rules[0].actions == [] then RuleTrees(rules[1..])
    else [RuleTree(rules[0])] + RuleTrees(rules[1..])
  }

  lemma {:induction false} RulesStart(rules: seq<Rule>)
    ensures var h := P.Head(RulesTokens(rules) + [End]); h == Ident("if") || h == End
  {
    hide TestTokens, ActionsTokens, StopTokens;
    if rules != [] {
      if rules[0].actions == [] {
        RulesStart(rules[1..]);
        assert [] + RulesTokens(rules[1..]) == RulesTokens(rules[1..]);
      }
    } else {
      assert [] + [End] == [End];
    }
  }

  lemma ScriptStep(text: seq<Token>, c: P.Command, rest: seq<Token>)
    requires P.Head(text) != End && P.CommandAt(text) == Some((c, rest))
    ensures P.Script(text) == match P.Script(rest)
                              case None => None
                              case Some(more) => Some([c] + more)
  {
    hide P.CommandAt, P.Head;
  }

  lemma {:induction false} RulesReadBack(rules: seq<Rule>)
    requires RulesLegal(rules)
    ensures P.Script(RulesTokens(rules) + [End]) == Some(RuleTrees(rules))
  {
    hide P.CommandAt, P.Script, RuleTokens, RuleTree, AllLegal, P.Head;
    if rules == [] {
      assert [] + [End] == [End];
      EmptyScript();
    } else {
      RulesReadBack(rules[1..]);
      var tail := RulesTokens(rules[1..]) + [End];
      Assoc(RuleTokens(rules[0]), RulesTokens(rules[1..]), [End]);
      RuleStarts(rules[0], tail);
      if rules[0].actions == [] {
        assert [] + tail == tail;
      } else {
        RulesStart(rules[1..]);
        RuleReadsBack(rules[0], tail);
        ScriptStep(RuleTokens(rules[0]) + tail, RuleTree(rules[0]), tail);
      }
    }
  }

  lemma EmptyScript()
    ensures P.Script([End]) == Some([])
  {
  }

  lemma RuleStarts(r: Rule, rest: seq<Token>)
    ensures r.actions == [] ==> RuleTokens(r) == []
    ensures r.actions != [] ==> P.Head(RuleTokens(r) + rest) == Ident("if")
  {
    hide TestTokens, ActionsTokens, StopTokens;
  }

  function RequireTree(needed: seq<string>): P.Command {
    P.NewCommand(P.Require).(capabilities := CleanAll(needed))
  }

  /** The program of a printed script. */
  function ScriptTree(rules: seq<Rule>): seq<P.Command> {
    var needed := NeedOfRules([], rules);
    (if needed == [] then [] else [RequireTree(needed)]) + RuleTrees(rules)
  }

  lemma RequireReadsBack(needed: seq<string>, rest: seq<Token>)
    requires needed != []
    ensures P.CommandAt(RequireTokens(needed) + rest) == Some((RequireTree(needed), rest))
    ensures P.Head(RequireTokens(needed) + rest) == Ident("require")
  {
    hide P.CommandAt, ListTokens, P.StringList, CleanAll, P.Head, P.Next;
    Assoc([Ident("require")], ListTokens(needed) + [Semicolon], rest);
    Assoc(ListTokens(needed), [Semicolon], rest);
    var tail := ListTokens(needed) + ([Semicolon] + rest);
    CommandNames(tail);
    Peel(Ident("require"), tail);
    ListReadsBack(needed, [Semicolon] + rest);
    Peel(Semicolon, rest);
  }

  lemma PrintedScriptParses(rules: seq<Rule>)
    requires RulesLegal(rules)
    ensures P.Program(ComposeOf(rules)) == Some(ScriptTree(rules))
  {
    hide Lex, P.Script, ComposeOf, RequireTokens, RulesTokens, RulesLegal, NeedOfRules, RequireTree, RuleTrees, P.CommandAt, P.Head;
    PrintedScriptLexes(rules);
    RulesReadBack(rules);
    var needed := NeedOfRules([], rules);
    var tail := RulesTokens(rules) + [End];
    Assoc(RequireTokens(needed), RulesTokens(rules), [End]);
    if needed == [] {
      NoRequire();
      assert [] + tail == tail && [] + RuleTrees(rules) == RuleTrees(rules);
    } else {
      RequireReadsBack(needed, tail);
      ScriptStep(RequireTokens(needed) + tail, RequireTree(needed), tail);
    }
  }

  lemma NoRequire()
    ensures RequireTokens([]) == []
  {
  }
}
