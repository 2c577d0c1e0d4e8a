/** The Sieve parser of core/src/sieve.cpp reads the tokens of every written program as the program that is meant,
    construct by construct, whatever tokens follow. */
module SieveReads {
  import opened Text
  import opened SieveLex
  import opened SieveParse
  import opened SieveSyntax

  lemma Front(t: Token, rest: seq<Token>)
    requires t != End
    ensures Head([t] + rest) == t && Next([t] + rest) == rest
  {
  }

  // ---- lists --------------------------------------------------------------

  lemma {:induction false} ElementsRead(ss: seq<string>, rest: seq<Token>)
    requires ss != []
    ensures Elements(PutElements(ss, rest)) == Some((ss, rest))
    decreases |ss|
  {
    var more := if |ss| == 1 then [RBracket] + rest else [Comma] + PutElements(ss[1..], rest);
    Front(Str(ss[0]), more);
    assert ss == [ss[0]] + ss[1..];
    if |ss| > 1 {
      ElementsRead(ss[1..], rest);
      Front(Comma, PutElements(ss[1..], rest));
    } else {
      Front(RBracket, rest);
      assert ss == [ss[0]];
    }
  }

  lemma StringsRead(l: Strings, rest: seq<Token>)
    ensures StringList(PutStrings(l, rest)) == Some((Listed(l), rest))
    ensures Head(PutStrings(l, rest)) == (if l.One? then Str(l.s) else LBracket)
  {
    hide Elements;
    match l
    case One(s) => Front(Str(s), rest);
    case Several(ss) =>
      Front(LBracket, PutElements(ss, rest));
      if ss == [] {
        Front(RBracket, rest);
      } else {
        ElementsRead(ss, rest);
        assert Head(PutElements(ss, rest)) == Str(ss[0]);
      }
  }

  // ---- tests --------------------------------------------------------------

  lemma LastOne(m: Mark, names: set<string>, value: string)
    ensures LastIn([m], names, value) == if m.Plain? && m.name in names then m.name else value
  {
    var last := if m.Plain? && m.name in names then m.name else value;
    assert [m][1..] == [] && LastIn([m][1..], names, last) == last;
  }

  lemma ComparatorOne(m: Mark, value: string)
    ensures LastComparator([m], value) == if m.Comparator? then ToLower(m.value) else value
  {
    var last := if m.Comparator? then ToLower(m.value) else value;
    assert [m][1..] == [] && LastComparator([m][1..], last) == last;
  }

  lemma MarkedOne(t: Test, m: Mark)
    ensures Marked(t, [m]) ==
            t.(matchType := if m.Plain? && m.name in {"is", "contains", "matches"} then m.name else t.matchType,
               addressPart := if m.Plain? && m.name in {"all", "localpart", "domain", "user", "detail"} then m.name else t.addressPart,
               sizeRelation := if m.Plain? && m.name in {"over", "under"} then m.name else t.sizeRelation,
               comparator := if m.Comparator? then ToLower(m.value) else t.comparator)
  {
    hide LastIn, LastComparator;
    LastOne(m, {"is", "contains", "matches"}, t.matchType);
    LastOne(m, {"all", "localpart", "domain", "user", "detail"}, t.addressPart);
    LastOne(m, {"over", "under"}, t.sizeRelation);
    ComparatorOne(m, t.comparator);
  }

  /** No tag says two things. */
  lemma MarkRead(m: Mark, t: Test)
    requires m.Plain?
    ensures Marked(t, [m]) == ApplyTag(m.name, t)
  {
    MarkedOne(t, m);
    TagsApart(m.name);
  }

  lemma TagsApart(name: string)
    ensures name in {"is", "contains", "matches"} <==> IsMatchType(name)
    ensures name in {"all", "localpart", "domain", "user", "detail"} <==> IsAddressPart(name)
    ensures !(IsMatchType(name) && IsAddressPart(name))
    ensures name in {"over", "under"} ==> !IsMatchType(name) && !IsAddressPart(name)
  {
    assert "is"[0] == 'i' && "contains"[0] == 'c' && "matches"[0] == 'm' && "all"[0] == 'a' && "localpart"[0] == 'l';
    assert "domain"[0] == 'd' && "user"[0] == 'u' && "detail"[0] == 'd' && "over"[0] == 'o' && "under"[0] == 'u' && "under"[1] == 'n' && "user"[1] == 's';
  }

  lemma MarkedMore(t: Test, ms: seq<Mark>)
    requires ms != []
    ensures Marked(Marked(t, [ms[0]]), ms[1..]) == Marked(t, ms)
  {
    MarkedOne(t, ms[0]);
  }

  lemma {:induction false} MarksRead(ms: seq<Mark>, rest: seq<Token>, t: Test)
    requires LegalMarks(ms, Head(rest).Str?) && !Head(rest).Tag?
    ensures MatchTags(PutMarks(ms, rest), t) == (Marked(t, ms), rest)
    decreases |ms|
  {
    hide ApplyTag, LastIn, LastComparator, Marked;
    if ms == [] {
      NoMarks(t);
    } else {
      var m, more := ms[0], PutMarks(ms[1..], rest);
      MarksRead(ms[1..], rest, Marked(t, [m]));
      MarkedMore(t, ms);
      match m
      case Plain(name) =>
        MarkRead(m, t);
        Front(Token.Tag(name), more);
      case Comparator(value) =>
        ComparatorRead(value, t);
        Front(Token.Tag("comparator"), [Str(value)] + more);
        Front(Str(value), more);
      case BareComparator =>
        BareRead(t);
        MarksFront(ms[1..], rest);
        Front(Token.Tag("comparator"), more);
    }
  }

  lemma NoMarks(t: Test)
    ensures Marked(t, []) == t
  {
  }

  lemma ComparatorRead(value: string, t: Test)
    ensures Marked(t, [Comparator(value)]) == t.(comparator := ToLower(value))
  {
    MarkedOne(t, Comparator(value));
  }

  lemma BareRead(t: Test)
    ensures Marked(t, [BareComparator]) == t
  {
    MarkedOne(t, BareComparator);
  }

  lemma MarksFront(ms: seq<Mark>, rest: seq<Token>)
    ensures ms != [] ==> Head(PutMarks(ms, rest)).Tag?
  {
  }

  /** What may follow a test: the block it guards, another test, or the end of a list of tests. */
  predicate FollowsTest(rest: seq<Token>) {
    Head(rest) == LBrace || Head(rest) == Comma || Head(rest) == RParen
  }

  lemma BlankIsNew(kind: TestKind)
    ensures Blank(kind) == NewTest(kind)
  {
  }

  lemma SizeReads(marks: seq<Mark>, n: nat, rest: seq<Token>)
    requires LegalTest(SizeIs(marks, n))
    ensures SizeTest(PutMarks(marks, [Number(n)] + rest)) == Some((TestMeant(SizeIs(marks, n)), rest))
  {
    hide MatchTags, LastIn, LastComparator;
    Front(Number(n), rest);
    BlankIsNew(Size);
    MarksRead(marks, [Number(n)] + rest, Blank(Size));
  }

  lemma TwoListsRead(kind: TestKind, before: seq<Mark>, names: Strings, between: seq<Mark>, keys: Strings, rest: seq<Token>)
    requires LegalMarks(before, names.One?) && LegalMarks(between, keys.One?)
    ensures TwoListTest(kind, PutMarks(before, PutStrings(names, PutMarks(between, PutStrings(keys, rest))))) ==
            Some((Marked(Marked(Blank(kind), before), between).(names := Listed(names), keys := Listed(keys)), rest))
  {
    hide MatchTags, LastIn, LastComparator, StringList, PutStrings, PutMarks;
    BlankIsNew(kind);
    var last := PutStrings(keys, rest);
    var third := PutMarks(between, last);
    var second := PutStrings(names, third);
    StringsRead(names, third);
    StringsRead(keys, rest);
    MarksRead(before, second, Blank(kind));
    var t := Marked(Blank(kind), before).(names := Listed(names));
    MarksRead(between, last, t);
    NamesApart(Marked(Blank(kind), before), between, Listed(names));
  }

  /** Tags leave the names alone. */
  lemma NamesApart(t: Test, ms: seq<Mark>, names: seq<string>)
    ensures Marked(t.(names := names), ms) == Marked(t, ms).(names := names)
  {
  }

  lemma BodyReads(marks: seq<Mark>, keys: Strings, rest: seq<Token>)
    requires LegalMarks(marks, keys.One?)
    ensures BodyTest(PutMarks(marks, PutStrings(keys, rest))) == Some((TestMeant(InBody(marks, keys)), rest))
  {
    hide MatchTags, LastIn, LastComparator, StringList, PutStrings, PutMarks, Marked;
    BlankIsNew(Body);
    StringsRead(keys, rest);
    MarksRead(marks, PutStrings(keys, rest), Blank(Body));
  }

  lemma FlaggedReads(before: seq<Mark>, keys: Strings, after: seq<Mark>, rest: seq<Token>)
    requires LegalMarks(before, keys.One?) && LegalMarks(after, false) && FollowsTest(rest)
    ensures HasFlagTest(PutMarks(before, PutStrings(keys, PutMarks(after, rest)))) == Some((TestMeant(Flagged(before, keys, after)), rest))
  {
    hide MatchTags, LastIn, LastComparator, StringList, PutStrings, PutMarks, Marked;
    BlankIsNew(HasFlag);
    StringsRead(keys, PutMarks(after, rest));
    MarksRead(before, PutStrings(keys, PutMarks(after, rest)), Blank(HasFlag));
    MarksRead(after, rest, Marked(Blank(HasFlag), before));
  }

  lemma FlaggedInReads(before: seq<Mark>, names: Strings, between: seq<Mark>, keys: Strings, rest: seq<Token>)
    requires LegalMarks(before, names.One?) && LegalMarks(between, keys.One?)
    ensures HasFlagTest(PutMarks(before, PutStrings(names, PutMarks(between, PutStrings(keys, rest))))) ==
            Some((TestMeant(FlaggedIn(before, names, between, keys)), rest))
  {
    hide MatchTags, LastIn, LastComparator, StringList, PutStrings, PutMarks, Marked;
    BlankIsNew(HasFlag);
    var last := PutStrings(keys, rest);
    StringsRead(names, PutMarks(between, last));
    StringsRead(keys, rest);
    MarksRead(before, PutStrings(names, PutMarks(between, last)), Blank(HasFlag));
    MarksRead(between, last, Marked(Blank(HasFlag), before));
  }

  // ---- the words for tests ----------------------------------------------------

  lemma ConstantsNamed(rest: seq<Token>)
    ensures TestAt([Ident("true")] + rest) == Some((Blank(Always), rest))
    ensures TestAt([Ident("false")] + rest) == Some((Blank(Never), rest))
  {
    Front(Ident("true"), rest);
    Front(Ident("false"), rest);
  }

  lemma NotNamed(rest: seq<Token>)
    ensures TestAt([Ident("not")] + rest) == NotTest(rest)
  {
    Front(Ident("not"), rest);
  }

  lemma GroupNamed(any: bool, rest: seq<Token>)
    ensures TestAt([Ident(if any then "anyof" else "allof")] + rest) == GroupTest(if any then AnyOf else AllOf, rest)
  {
    Front(Ident(if any then "anyof" else "allof"), rest);
  }

  lemma SizeNamed(rest: seq<Token>)
    ensures TestAt([Ident("size")] + rest) == SizeTest(rest)
  {
    Front(Ident("size"), rest);
  }

  lemma ExistsNamed(rest: seq<Token>)
    ensures TestAt([Ident("exists")] + rest) == ExistsTest(rest)
  {
    Front(Ident("exists"), rest);
  }

  lemma HeaderNamed(rest: seq<Token>)
    ensures TestAt([Ident("header")] + rest) == TwoListTest(Header, rest)
  {
    Front(Ident("header"), rest);
  }

  lemma AddressNamed(rest: seq<Token>)
    ensures TestAt([Ident("address")] + rest) == TwoListTest(Address, rest)
  {
    Front(Ident("address"), rest);
  }

  lemma EnvelopeNamed(rest: seq<Token>)
    ensures TestAt([Ident("envelope")] + rest) == TwoListTest(Envelope, rest)
  {
    Front(Ident("envelope"), rest);
  }

  lemma StringNamed(rest: seq<Token>)
    ensures TestAt([Ident("string")] + rest) == TwoListTest(StringTest, rest)
  {
    Front(Ident("string"), rest);
  }

  lemma BodyNamed(rest: seq<Token>)
    ensures TestAt([Ident("body")] + rest) == BodyTest(rest)
  {
    Front(Ident("body"), rest);
  }

  lemma HasFlagNamed(rest: seq<Token>)
    ensures TestAt([Ident("hasflag")] + rest) == HasFlagTest(rest)
  {
    Front(Ident("hasflag"), rest);
  }

  lemma MatchingNamed(kind: TestKind, rest: seq<Token>)
    requires kind.Header? || kind.Address? || kind.Envelope? || kind.StringTest?
    ensures TestAt([Ident(Keyword(kind))] + rest) == TwoListTest(kind, rest)
  {
    hide TestAt, TwoListTest;
    HeaderNamed(rest);
    AddressNamed(rest);
    EnvelopeNamed(rest);
    StringNamed(rest);
  }

  lemma {:induction false} TestReads(t: Written, rest: seq<Token>)
    requires LegalTest(t) && FollowsTest(rest)
    ensures TestAt(PutTest(t, rest)) == Some((TestMeant(t), rest))
    decreases t, 0
  {
    hide TestAt, SizeTest, TwoListTest, BodyTest, HasFlagTest, StringList, PutStrings, PutMarks, Marked, LegalMarks, LegalTests, PutTests,
      Tests, TestsMeant;
    match t {
      case True => ConstantsNamed(rest);
      case False => ConstantsNamed(rest);
      case Negation(test) =>
        NotNamed(PutTest(test, rest));
        TestReads(test, rest);
      case Group(any, tests) =>
        var inner := PutTests(tests, [RParen] + rest);
        GroupNamed(any, [LParen] + inner);
        Front(LParen, inner);
        Front(RParen, rest);
        TestsRead(tests, [RParen] + rest);
      case SizeIs(marks, n) =>
        SizeNamed(PutMarks(marks, [Number(n)] + rest));
        SizeReads(marks, n, rest);
      case Exist(names) =>
        ExistsNamed(PutStrings(names, rest));
        StringsRead(names, rest);
      case Matching(kind, before, names, between, keys) =>
        MatchingNamed(kind, PutMarks(before, PutStrings(names, PutMarks(between, PutStrings(keys, rest)))));
        TwoListsRead(kind, before, names, between, keys, rest);
      case InBody(marks, keys) =>
        BodyNamed(PutMarks(marks, PutStrings(keys, rest)));
        BodyReads(marks, keys, rest);
      case Flagged(before, keys, after) =>
        HasFlagNamed(PutMarks(before, PutStrings(keys, PutMarks(after, rest))));
        FlaggedReads(before, keys, after, rest);
      case FlaggedIn(before, names, between, keys) =>
        HasFlagNamed(PutMarks(before, PutStrings(names, PutMarks(between, PutStrings(keys, rest)))));
        FlaggedInReads(before, names, between, keys, rest);
    }
  }

  lemma {:induction false} TestsRead(ts: seq<Written>, rest: seq<Token>)
    requires ts != [] && LegalTests(ts) && Head(rest) == RParen
    ensures Tests(PutTests(ts, rest)) == Some((TestsMeant(ts), rest))
    decreases ts, 1
  {
    hide TestAt, PutTest, LegalTest, TestMeant;
    var more := if |ts| == 1 then rest else [Comma] + PutTests(ts[1..], rest);
    if |ts| > 1 {
      Front(Comma, PutTests(ts[1..], rest));
      TestsRead(ts[1..], rest);
    } else {
      assert ts[1..] == [];
    }
    TestReads(ts[0], more);
    assert [TestMeant(ts[0])] + [] == [TestMeant(ts[0])];
  }

  // ---- tagged arguments of commands -------------------------------------------

  lemma SecondsRoundUp(n: nat)
    ensures (n + 86399) / 86400 == if n % 86400 == 0 then n / 86400 else n / 86400 + 1
  {
  }

  lemma WordRead(name: string, ts: seq<Token>, c: Command)
    requires name !in VALUED
    ensures TagArg(name, ts, c) == Some((WithArgument(c, Word(name)), ts))
  {
    hide StringList;
    WordsApart(name);
  }

  lemma WordsApart(name: string)
    requires name !in VALUED
    ensures name != "flags" && name != "days" && name != "seconds" && name != "subject" && name != "from" && name != "handle" && name != "addresses"
    ensures IsModifier(name) <==> name in MODIFIERS
  {
  }

  lemma FlagsRead(list: Strings, rest: seq<Token>, c: Command)
    ensures TagArg("flags", PutStrings(list, rest), c) == Some((WithArgument(c, WithFlags(list)), rest))
  {
    hide StringList, PutStrings;
    StringsRead(list, rest);
  }

  lemma AddressesRead(list: Strings, rest: seq<Token>, c: Command)
    ensures TagArg("addresses", PutStrings(list, rest), c) == Some((WithArgument(c, WithAddresses(list)), rest))
  {
    hide StringList, PutStrings;
    StringsRead(list, rest);
  }

  lemma NumbersRead(n: nat, rest: seq<Token>, c: Command)
    ensures TagArg("days", [Number(n)] + rest, c) == Some((WithArgument(c, WithDays(n)), rest))
    ensures TagArg("seconds", [Number(n)] + rest, c) == Some((WithArgument(c, WithSeconds(n)), rest))
  {
    hide StringList;
    Front(Number(n), rest);
    SecondsRoundUp(n);
  }

  lemma TextsRead(s: string, rest: seq<Token>, c: Command)
    ensures TagArg("subject", [Str(s)] + rest, c) == Some((WithArgument(c, WithSubject(s)), rest))
    ensures TagArg("from", [Str(s)] + rest, c) == Some((WithArgument(c, WithFrom(s)), rest))
    ensures TagArg("handle", [Str(s)] + rest, c) == Some((WithArgument(c, WithHandle(s)), rest))
  {
    hide StringList;
    Front(Str(s), rest);
  }

  /** The tag that begins an argument. */
  function TagName(a: Argument): string {
    match a
    case Word(name) => name
    case WithFlags(_) => "flags"
    case WithAddresses(_) => "addresses"
    case WithDays(_) => "days"
    case WithSeconds(_) => "seconds"
    case WithSubject(_) => "subject"
    case WithFrom(_) => "from"
    case WithHandle(_) => "handle"
  }

  lemma ArgumentRead(a: Argument, rest: seq<Token>, c: Command)
    requires a.Word? ==> a.name !in VALUED
    ensures var ts := PutArgument(a, rest);
            Head(ts) == Token.Tag(TagName(a)) && TagArg(TagName(a), Next(ts), c) == Some((WithArgument(c, a), rest))
  {
    hide TagArg, WithArgument, PutStrings;
    match a
    case Word(name) =>
      Front(Token.Tag(name), rest);
      WordRead(name, rest, c);
    case WithFlags(list) =>
      Front(Token.Tag("flags"), PutStrings(list, rest));
      FlagsRead(list, rest, c);
    case WithAddresses(list) =>
      Front(Token.Tag("addresses"), PutStrings(list, rest));
      AddressesRead(list, rest, c);
    case WithDays(n) =>
      Front(Token.Tag("days"), [Number(n)] + rest);
      NumbersRead(n, rest, c);
    case WithSeconds(n) =>
      Front(Token.Tag("seconds"), [Number(n)] + rest);
      NumbersRead(n, rest, c);
    case WithSubject(s) =>
      Front(Token.Tag("subject"), [Str(s)] + rest);
      TextsRead(s, rest, c);
    case WithFrom(s) =>
      Front(Token.Tag("from"), [Str(s)] + rest);
      TextsRead(s, rest, c);
    case WithHandle(s) =>
      Front(Token.Tag("handle"), [Str(s)] + rest);
      TextsRead(s, rest, c);
  }

  lemma {:induction false} ArgumentsRead(args: seq<Argument>, rest: seq<Token>, c: Command)
    requires LegalArguments(args) && !Head(rest).Tag?
    ensures TagArgs(PutArguments(args, rest), c) == Some((WithArguments(c, args), rest))
    decreases |args|
  {
    hide TagArg, WithArgument, PutArgument;
    if args != [] {
      ArgumentRead(args[0], PutArguments(args[1..], rest), c);
      ArgumentsRead(args[1..], rest, WithArgument(c, args[0]));
    }
  }

  lemma {:induction false} KindKept(c: Command, args: seq<Argument>)
    ensures WithArguments(c, args).kind == c.kind
    decreases args
  {
    if args != [] {
      KindKept(WithArgument(c, args[0]), args[1..]);
    }
  }

  // ---- commands -----------------------------------------------------------

  lemma TailRead(tail: Tail, rest: seq<Token>, c: Command)
    requires LegalTail(c.kind, tail) && Head(rest) == Semicolon
    ensures Positional(PutTail(tail, rest), c) == Some((WithTail(c, tail), rest))
  {
    hide StringList, PutStrings;
    match tail
    case Nothing =>
    case Text(s) => Front(Str(s), rest);
    case Assign(name, value) =>
      Front(Str(name), [Str(value)] + rest);
      Front(Str(value), rest);
    case Flags(list) => StringsRead(list, rest);
    case FlagsOf(variable, list) =>
      StringsRead(variable, PutStrings(list, rest));
      StringsRead(list, rest);
  }

  lemma TailFront(tail: Tail, rest: seq<Token>)
    requires Head(rest) == Semicolon
    ensures !Head(PutTail(tail, rest)).Tag?
  {
    hide PutStrings;
    match tail
    case Flags(list) => StringsRead(list, rest);
    case FlagsOf(variable, list) => StringsRead(variable, PutStrings(list, rest));
    case _ =>
  }

  /** The words of the commands are read as their kinds, and are no other words of the language. */
  lemma CalledIsKind(kind: CommandKind, name: string)
    requires Called(kind, name)
    ensures KindOf(name) == Some(kind) && name != "require" && name != "if" && name != "else" && name != "elsif"
  {
    match kind
    case Stop => assert name == "stop";
    case Keep => assert name == "keep";
    case Discard => assert name == "discard";
    case FileInto => assert name == "fileinto";
    case Redirect => assert name == "redirect";
    case Reject => assert name == "reject" || name == "ereject";
    case Set => assert name == "set";
    case SetFlag => assert name == "setflag";
    case AddFlag => assert name == "addflag";
    case RemoveFlag => assert name == "removeflag";
    case Vacation => assert name == "vacation";
  }

  /** What may follow a command: anything but a further arm. */
  predicate FollowsCommand(rest: seq<Token>) {
    Head(rest) != Ident("elsif") && Head(rest) != Ident("else")
  }

  lemma SimpleReads(name: string, kind: CommandKind, args: seq<Argument>, tail: Tail, rest: seq<Token>)
    requires LegalCommand(Plainly(name, kind, args, tail))
    ensures CommandAt(PutCommand(Plainly(name, kind, args, tail), rest)) == Some((CommandMeant(Plainly(name, kind, args, tail)), rest))
  {
    hide TagArgs, PutArguments, Positional, PutTail, WithArguments, WithTail, KindOf, Called, LegalTail;
    var last := [Semicolon] + rest;
    var middle := PutTail(tail, last);
    Front(Semicolon, rest);
    TailFront(tail, last);
    CalledIsKind(kind, name);
    Front(Ident(name), PutArguments(args, middle));
    ArgumentsRead(args, middle, BlankCommand(kind));
    KindKept(BlankCommand(kind), args);
    TailRead(tail, last, WithArguments(BlankCommand(kind), args));
    assert NewCommand(kind) == BlankCommand(kind);
  }

  lemma RequireReads(list: Strings, rest: seq<Token>)
    ensures CommandAt(PutCommand(Requires(list), rest)) == Some((CommandMeant(Requires(list)), rest))
  {
    hide StringList, PutStrings;
    Front(Semicolon, rest);
    StringsRead(list, [Semicolon] + rest);
    Front(Ident("require"), PutStrings(list, [Semicolon] + rest));
  }

  lemma IfNamed(rest: seq<Token>)
    ensures CommandAt([Ident("if")] + rest) == IfCommand(rest)
  {
    Front(Ident("if"), rest);
  }

  /** A written command does not begin like an arm, a brace or the end. */
  lemma CommandFront(c: WCommand, rest: seq<Token>)
    requires LegalCommand(c)
    ensures var ts := PutCommand(c, rest); Head(ts).Ident? && FollowsCommand(ts)
  {
    hide PutStrings, PutArguments, PutArms, Called;
    if c.Plainly? {
      CalledIsKind(c.kind, c.name);
    }
  }

  lemma {:induction false} CommandReads(c: WCommand, rest: seq<Token>)
    requires LegalCommand(c) && FollowsCommand(rest)
    ensures CommandAt(PutCommand(c, rest)) == Some((CommandMeant(c), rest))
    decreases c, 0
  {
    match c {
      case Requires(list) => RequireReads(list, rest);
      case Plainly(name, kind, args, tail) => SimpleReads(name, kind, args, tail, rest);
      case Conditional(arms, hasElse, otherwise) =>
        hide CommandAt, Branches, PutArms, ArmsMeant, CommandsMeant, Block, PutBody, LegalArms, LegalCommands;
        var after := if hasElse then [Ident("else")] + ([LBrace] + PutBody(otherwise, rest)) else rest;
        IfNamed(PutArms(arms, after));
        if hasElse {
          BlockReads(otherwise, rest);
        }
        ArmsRead(arms, hasElse, otherwise, rest);
    }
  }

  lemma {:induction false} ArmsRead(arms: seq<Arm>, hasElse: bool, otherwise: seq<WCommand>, rest: seq<Token>)
    requires arms != [] && LegalArms(arms) && FollowsCommand(rest)
    requires hasElse ==> Block([LBrace] + PutBody(otherwise, rest)) == Some((CommandsMeant(otherwise), rest))
    ensures Branches(PutArms(arms, if hasElse then [Ident("else")] + ([LBrace] + PutBody(otherwise, rest)) else rest)) ==
            Some((ArmsMeant(arms) + (if hasElse then [Branch(None, CommandsMeant(otherwise))] else []), rest))
    decreases arms, 1
  {
    hide TestAt, PutTest, TestMeant, LegalTest, Block, PutBody, CommandsMeant, LegalCommands;
    var arm := arms[0];
    var block := [LBrace] + PutBody(otherwise, rest);
    var after := if hasElse then [Ident("else")] + block else rest;
    var more := if |arms| == 1 then after else [Ident("elsif")] + PutArms(arms[1..], after);
    var body := [LBrace] + PutBody(arm.body, more);
    Front(LBrace, PutBody(arm.body, more));
    TestReads(arm.test, body);
    BlockReads(arm.body, more);
    var first := Branch(Some(TestMeant(arm.test)), CommandsMeant(arm.body));
    if |arms| > 1 {
      Front(Ident("elsif"), PutArms(arms[1..], after));
      ArmsRead(arms[1..], hasElse, otherwise, rest);
      Assoc([first], ArmsMeant(arms[1..]), if hasElse then [Branch(None, CommandsMeant(otherwise))] else []);
    } else {
      assert arms[1..] == [] && ArmsMeant(arms) == [first] + [] == [first];
      if hasElse {
        Front(Ident("else"), block);
        assert [first] + [Branch(None, CommandsMeant(otherwise))] == [first, Branch(None, CommandsMeant(otherwise))];
      } else {
        assert [first] + [] == [first];
      }
    }
  }

  lemma {:induction false} BlockReads(cs: seq<WCommand>, rest: seq<Token>)
    requires LegalCommands(cs)
    ensures Block([LBrace] + PutBody(cs, rest)) == Some((CommandsMeant(cs), rest))
    decreases cs, 2
  {
    hide Commands, PutBody, LegalCommands;
    Front(LBrace, PutBody(cs, rest));
    CommandsRead(cs, rest);
  }

  lemma {:induction false} CommandsRead(cs: seq<WCommand>, rest: seq<Token>)
    requires LegalCommands(cs)
    ensures Commands(PutBody(cs, rest)) == Some((CommandsMeant(cs), rest))
    ensures FollowsCommand(PutBody(cs, rest))
    decreases cs, 1
  {
    hide CommandAt, PutCommand, CommandMeant, LegalCommand;
    if cs == [] {
      Front(RBrace, rest);
    } else {
      CommandsRead(cs[1..], rest);
      CommandFront(cs[0], PutBody(cs[1..], rest));
      CommandReads(cs[0], PutBody(cs[1..], rest));
    }
  }

  /** The tokens of a written program parse to the program. */
  lemma {:induction false} ProgramReads(cs: seq<WCommand>)
    requires LegalCommands(cs)
    ensures Script(PutProgram(cs)) == Some(CommandsMeant(cs)) && FollowsCommand(PutProgram(cs))
    decreases cs
  {
    hide CommandAt, PutCommand, CommandMeant, LegalCommand;
    if cs != [] {
      ProgramReads(cs[1..]);
      CommandFront(cs[0], PutProgram(cs[1..]));
      CommandReads(cs[0], PutProgram(cs[1..]));
    }
  }
}
