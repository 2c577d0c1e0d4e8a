/** The Sieve parser accepts exactly the written programs. */
module SieveGrammar {
  import opened Text
  import opened SieveLex
  import opened SieveParse
  import opened SieveSyntax
  import opened SieveReads

  lemma Take(ts: seq<Token>)
    requires Head(ts) != End
    ensures ts == [Head(ts)] + Next(ts)
  {
  }

  // ---- lists and tags -------------------------------------------------------

  lemma {:induction false} ElementsOf(ts: seq<Token>) returns (ss: seq<string>)
    requires Elements(ts).Some?
    ensures ss != [] && Elements(ts).value.0 == ss && PutElements(ss, Elements(ts).value.1) == ts
    decreases |ts|
  {
    var after := Next(ts);
    Take(ts);
    Take(after);
    ss := [Head(ts).text];
    if Head(after) == Comma {
      var more := ElementsOf(Next(after));
      ss := [Head(ts).text] + more;
      assert ss[1..] == more;
    } else {
      assert ss[1..] == [];
    }
  }

  lemma StringsOf(ts: seq<Token>) returns (l: Strings)
    requires StringList(ts).Some?
    ensures StringList(ts).value.0 == Listed(l) && PutStrings(l, StringList(ts).value.1) == ts
    ensures Head(ts).Str? == l.One?
  {
    hide Elements, PutElements;
    Take(ts);
    if Head(ts).Str? {
      l := One(Head(ts).text);
    } else if Head(Next(ts)) == RBracket {
      Take(Next(ts));
      l := Several([]);
      NoElements(Next(Next(ts)));
    } else {
      var ss := ElementsOf(Next(ts));
      l := Several(ss);
    }
  }

  lemma NoElements(rest: seq<Token>)
    ensures PutElements([], rest) == [RBracket] + rest
  {
  }

  lemma {:induction false} MarksOf(ts: seq<Token>, t: Test) returns (ms: seq<Mark>)
    ensures var (t', rest) := MatchTags(ts, t);
            PutMarks(ms, rest) == ts && Marked(t, ms) == t' && LegalMarks(ms, Head(rest).Str?) && !Head(rest).Tag?
    ensures ms == [] <==> !Head(ts).Tag?
    decreases |ts|
  {
    hide ApplyTag, LastIn, LastComparator, Marked;
    ms := [];
    if Head(ts).Tag? {
      Take(ts);
      var m, next := Plain(Head(ts).text), Next(ts);
      if m.name == "comparator" {
        if Head(next).Str? {
          m := Comparator(Head(next).text);
          Take(next);
          next := Next(next);
          ComparatorRead(m.value, t);
        } else {
          m := BareComparator;
          BareRead(t);
        }
      } else {
        MarkRead(m, t);
      }
      var more := MarksOf(next, Marked(t, [m]));
      ms := [m] + more;
      assert ms[0] == m && ms[1..] == more;
      MarkedMore(t, ms);
      assert m.BareComparator? && more == [] ==> MatchTags(next, Marked(t, [m])).1 == next;
    } else {
      NoMarks(t);
    }
  }

  // ---- tests ----------------------------------------------------------------

  lemma SizeOf(ts: seq<Token>) returns (w: Written)
    requires SizeTest(ts).Some?
    ensures LegalTest(w) && PutTest(w, SizeTest(ts).value.1) == [Ident("size")] + ts && TestMeant(w) == SizeTest(ts).value.0
  {
    hide MatchTags, PutMarks, LegalMarks, LastIn, LastComparator;
    BlankIsNew(Size);
    var ms := MarksOf(ts, Blank(Size));
    var rest := MatchTags(ts, Blank(Size)).1;
    Take(rest);
    w := SizeIs(ms, Head(rest).n);
  }

  lemma TwoListsOf(kind: TestKind, ts: seq<Token>) returns (w: Written)
    requires TwoListTest(kind, ts).Some? && (kind.Header? || kind.Address? || kind.Envelope? || kind.StringTest?)
    ensures LegalTest(w) && PutTest(w, TwoListTest(kind, ts).value.1) == [Ident(Keyword(kind))] + ts
    ensures TestMeant(w) == TwoListTest(kind, ts).value.0
  {
    hide MatchTags, PutMarks, LegalMarks, LastIn, LastComparator, StringList, PutStrings;
    BlankIsNew(kind);
    var before := MarksOf(ts, Blank(kind));
    var (t, rest) := MatchTags(ts, Blank(kind));
    var names := StringsOf(rest);
    var rest1 := StringList(rest).value.1;
    var between := MarksOf(rest1, t.(names := Listed(names)));
    var rest2 := MatchTags(rest1, t.(names := Listed(names))).1;
    var keys := StringsOf(rest2);
    NamesApart(t, between, Listed(names));
    w := Matching(kind, before, names, between, keys);
  }

  lemma BodyOf(ts: seq<Token>) returns (w: Written)
    requires BodyTest(ts).Some?
    ensures LegalTest(w) && PutTest(w, BodyTest(ts).value.1) == [Ident("body")] + ts && TestMeant(w) == BodyTest(ts).value.0
  {
    hide MatchTags, PutMarks, LegalMarks, LastIn, LastComparator, StringList, PutStrings, Marked;
    BlankIsNew(Body);
    var ms := MarksOf(ts, Blank(Body));
    var rest := MatchTags(ts, Blank(Body)).1;
    var keys := StringsOf(rest);
    w := InBody(ms, keys);
  }

  lemma HasFlagOf(ts: seq<Token>) returns (w: Written)
    requires HasFlagTest(ts).Some?
    ensures LegalTest(w) && PutTest(w, HasFlagTest(ts).value.1) == [Ident("hasflag")] + ts && TestMeant(w) == HasFlagTest(ts).value.0
  {
    hide MatchTags, PutMarks, LegalMarks, LastIn, LastComparator, StringList, PutStrings, Marked;
    BlankIsNew(HasFlag);
    var before := MarksOf(ts, Blank(HasFlag));
    var (t, rest) := MatchTags(ts, Blank(HasFlag));
    var first := StringsOf(rest);
    var rest1 := StringList(rest).value.1;
    var after := MarksOf(rest1, t);
    var rest2 := MatchTags(rest1, t).1;
    if Head(rest2).Str? || Head(rest2) == LBracket {
      var keys := StringsOf(rest2);
      w := FlaggedIn(before, first, after, keys);
    } else {
      w := Flagged(before, first, after);
    }
  }

  lemma ExistsOf(ts: seq<Token>) returns (w: Written)
    requires ExistsTest(ts).Some?
    ensures LegalTest(w) && PutTest(w, ExistsTest(ts).value.1) == [Ident("exists")] + ts && TestMeant(w) == ExistsTest(ts).value.0
  {
    hide StringList, PutStrings;
    var names := StringsOf(ts);
    BlankIsNew(Exists);
    w := Exist(names);
  }

  lemma {:induction false} TestOf(ts: seq<Token>) returns (w: Written)
    requires TestAt(ts).Some?
    ensures LegalTest(w) && PutTest(w, TestAt(ts).value.1) == ts && TestMeant(w) == TestAt(ts).value.0
    decreases |ts|, 0
  {
    hide PutTest, LegalTest, TestMeant, SizeTest, TwoListTest, BodyTest, HasFlagTest, ExistsTest, GroupTest, NotTest;
    Take(ts);
    var name, rest := Head(ts).text, Next(ts);
    if name == "true" {
      w := True;
      ConstantForms(rest);
    } else if name == "false" {
      w := False;
      ConstantForms(rest);
    } else if name == "not" {
      w := NegationOf(rest);
    } else if name == "anyof" {
      w := GroupOf(true, rest);
    } else if name == "allof" {
      w := GroupOf(false, rest);
    } else if name == "size" {
      w := SizeOf(rest);
    } else if name == "exists" {
      w := ExistsOf(rest);
    } else if name == "header" {
      w := TwoListsOf(Header, rest);
    } else if name == "address" {
      w := TwoListsOf(Address, rest);
    } else if name == "envelope" {
      w := TwoListsOf(Envelope, rest);
    } else if name == "body" {
      w := BodyOf(rest);
    } else if name == "string" {
      w := TwoListsOf(StringTest, rest);
    } else {
      w := HasFlagOf(rest);
    }
  }

  lemma ConstantForms(rest: seq<Token>)
    ensures LegalTest(True) && PutTest(True, rest) == [Ident("true")] + rest && TestMeant(True) == NewTest(Always)
    ensures LegalTest(False) && PutTest(False, rest) == [Ident("false")] + rest && TestMeant(False) == NewTest(Never)
  {
  }

  lemma {:induction false} NegationOf(ts: seq<Token>) returns (w: Written)
    requires NotTest(ts).Some?
    ensures LegalTest(w) && PutTest(w, NotTest(ts).value.1) == [Ident("not")] + ts && TestMeant(w) == NotTest(ts).value.0
    decreases |ts|, 1
  {
    hide TestAt;
    var inner := TestOf(ts);
    BlankIsNew(Not);
    w := Negation(inner);
  }

  lemma {:induction false} GroupOf(any: bool, ts: seq<Token>) returns (w: Written)
    requires GroupTest(if any then AnyOf else AllOf, ts).Some?
    ensures var r := GroupTest(if any then AnyOf else AllOf, ts).value;
            LegalTest(w) && PutTest(w, r.1) == [Ident(if any then "anyof" else "allof")] + ts && TestMeant(w) == r.0
    decreases |ts|, 2
  {
    hide Tests, PutTests, LegalTests, TestsMeant;
    Take(ts);
    var inner := Next(ts);
    var tests := TestsOf(inner);
    Take(Tests(inner).value.1);
    BlankIsNew(if any then AnyOf else AllOf);
    w := Group(any, tests);
  }

  lemma {:induction false} TestsOf(ts: seq<Token>) returns (ws: seq<Written>)
    requires Tests(ts).Some?
    ensures ws != [] && LegalTests(ws) && PutTests(ws, Tests(ts).value.1) == ts && TestsMeant(ws) == Tests(ts).value.0
    decreases |ts|, 1
  {
    hide TestAt, PutTest, LegalTest, TestMeant;
    var first := TestOf(ts);
    var rest := TestAt(ts).value.1;
    ws := [first];
    if Head(rest) == Comma {
      Take(rest);
      var more := TestsOf(Next(rest));
      ws := [first] + more;
      assert ws[0] == first && ws[1..] == more;
    } else {
      assert ws[1..] == [];
      assert TestsMeant(ws) == [TestMeant(first)] + [] == [TestMeant(first)];
    }
  }

  // ---- commands -------------------------------------------------------------

  lemma ArgumentOf(ts: seq<Token>, c: Command) returns (a: Argument)
    requires Head(ts).Tag? && TagArg(Head(ts).text, Next(ts), c).Some?
    ensures a.Word? ==> a.name !in VALUED
    ensures var r := TagArg(Head(ts).text, Next(ts), c).value; WithArgument(c, a) == r.0 && PutArgument(a, r.1) == ts
  {
    hide TagArg, WithArgument, StringList, PutStrings;
    Take(ts);
    var tag, rest := Head(ts).text, Next(ts);
    if tag == "flags" {
      a := FlagsOfTag(rest, c);
    } else if tag == "addresses" {
      a := AddressesOf(rest, c);
    } else if tag == "days" || tag == "seconds" {
      a := NumberOf(tag, rest, c);
    } else if tag == "subject" || tag == "from" || tag == "handle" {
      a := TextOf(tag, rest, c);
    } else {
      a := Word(tag);
      WordRead(tag, rest, c);
    }
  }

  lemma FlagsOfTag(ts: seq<Token>, c: Command) returns (a: Argument)
    requires TagArg("flags", ts, c).Some?
    ensures a.WithFlags? && WithArgument(c, a) == TagArg("flags", ts, c).value.0 && PutStrings(a.list, TagArg("flags", ts, c).value.1) == ts
  {
    hide StringList, PutStrings;
    var list := StringsOf(ts);
    a := WithFlags(list);
  }

  lemma AddressesOf(ts: seq<Token>, c: Command) returns (a: Argument)
    requires TagArg("addresses", ts, c).Some?
    ensures a.WithAddresses? && WithArgument(c, a) == TagArg("addresses", ts, c).value.0
    ensures PutStrings(a.list, TagArg("addresses", ts, c).value.1) == ts
  {
    hide StringList, PutStrings;
    var list := StringsOf(ts);
    a := WithAddresses(list);
  }

  lemma NumberOf(tag: string, ts: seq<Token>, c: Command) returns (a: Argument)
    requires (tag == "days" || tag == "seconds") && TagArg(tag, ts, c).Some?
    ensures !a.Word? && TagName(a) == tag
    ensures WithArgument(c, a) == TagArg(tag, ts, c).value.0 && PutArgument(a, TagArg(tag, ts, c).value.1) == [Token.Tag(tag)] + ts
  {
    hide StringList;
    Take(ts);
    var n := Head(ts).n;
    NumbersRead(n, Next(ts), c);
    a := if tag == "days" then WithDays(n) else WithSeconds(n);
  }

  lemma TextOf(tag: string, ts: seq<Token>, c: Command) returns (a: Argument)
    requires (tag == "subject" || tag == "from" || tag == "handle") && TagArg(tag, ts, c).Some?
    ensures !a.Word? && TagName(a) == tag
    ensures WithArgument(c, a) == TagArg(tag, ts, c).value.0 && PutArgument(a, TagArg(tag, ts, c).value.1) == [Token.Tag(tag)] + ts
  {
    hide StringList;
    Take(ts);
    var s := Head(ts).text;
    TextsRead(s, Next(ts), c);
    a := if tag == "subject" then WithSubject(s) else if tag == "from" then WithFrom(s) else WithHandle(s);
  }

  lemma {:induction false} ArgumentsOf(ts: seq<Token>, c: Command) returns (args: seq<Argument>)
    requires TagArgs(ts, c).Some?
    ensures var r := TagArgs(ts, c).value;
            LegalArguments(args) && PutArguments(args, r.1) == ts && WithArguments(c, args) == r.0 && !Head(r.1).Tag?
    decreases |ts|
  {
    hide TagArg, WithArgument, PutArgument;
    args := [];
    if Head(ts).Tag? {
      var a := ArgumentOf(ts, c);
      var r := TagArg(Head(ts).text, Next(ts), c).value;
      var more := ArgumentsOf(r.1, r.0);
      args := [a] + more;
      assert args[0] == a && args[1..] == more;
    }
  }

  lemma TailOf(ts: seq<Token>, c: Command) returns (tail: Tail)
    requires Positional(ts, c).Some? && c.kind != Require && c.kind != If
    ensures var r := Positional(ts, c).value; LegalTail(c.kind, tail) && PutTail(tail, r.1) == ts && WithTail(c, tail) == r.0
  {
    hide StringList, PutStrings;
    if c.kind == Set {
      Take(ts);
      Take(Next(ts));
      tail := Assign(Head(ts).text, Head(Next(ts)).text);
    } else if c.kind == SetFlag || c.kind == AddFlag || c.kind == RemoveFlag {
      var first := StringsOf(ts);
      var rest := StringList(ts).value.1;
      if Head(rest).Str? || Head(rest) == LBracket {
        var second := StringsOf(rest);
        tail := FlagsOf(first, second);
      } else {
        tail := Flags(first);
      }
    } else if Head(ts).Str? {
      Take(ts);
      tail := Text(Head(ts).text);
    } else {
      tail := Nothing;
    }
  }

  /** Only the words of the language name commands. */
  lemma KindIsCalled(name: string)
    requires KindOf(name).Some?
    ensures Called(KindOf(name).value, name) && KindOf(name).value != Require && KindOf(name).value != If
  {
  }

  lemma SimpleOf(name: string, ts: seq<Token>) returns (w: WCommand)
    requires KindOf(name).Some? && SimpleCommand(KindOf(name).value, ts).Some?
    ensures var r := SimpleCommand(KindOf(name).value, ts).value;
            LegalCommand(w) && PutCommand(w, r.1) == [Ident(name)] + ts && CommandMeant(w) == r.0
  {
    hide TagArgs, Positional, KindOf, Called, LegalTail, PutTail, PutArguments, LegalArguments, WithArguments, WithTail;
    KindIsCalled(name);
    var kind := KindOf(name).value;
    assert NewCommand(kind) == BlankCommand(kind);
    var args := ArgumentsOf(ts, BlankCommand(kind));
    var (c, rest) := TagArgs(ts, BlankCommand(kind)).value;
    KindKept(BlankCommand(kind), args);
    var tail := TailOf(rest, c);
    Take(Positional(rest, c).value.1);
    w := Plainly(name, kind, args, tail);
  }

  lemma RequireOf(ts: seq<Token>) returns (w: WCommand)
    requires RequireCommand(ts).Some?
    ensures var r := RequireCommand(ts).value;
            LegalCommand(w) && PutCommand(w, r.1) == [Ident("require")] + ts && CommandMeant(w) == r.0
  {
    hide StringList, PutStrings;
    var list := StringsOf(ts);
    Take(StringList(ts).value.1);
    w := Requires(list);
  }

  lemma {:induction false} CommandOf(ts: seq<Token>) returns (w: WCommand)
    requires CommandAt(ts).Some?
    ensures LegalCommand(w) && PutCommand(w, CommandAt(ts).value.1) == ts && CommandMeant(w) == CommandAt(ts).value.0
    decreases |ts|, 0
  {
    hide RequireCommand, IfCommand, SimpleCommand, KindOf, PutCommand, LegalCommand, CommandMeant;
    Take(ts);
    var name, rest := Head(ts).text, Next(ts);
    if name == "require" {
      w := RequireOf(rest);
    } else if name == "if" {
      w := IfOf(rest);
    } else {
      w := SimpleOf(name, rest);
    }
  }

  lemma {:induction false} IfOf(ts: seq<Token>) returns (w: WCommand)
    requires IfCommand(ts).Some?
    ensures var r := IfCommand(ts).value; LegalCommand(w) && PutCommand(w, r.1) == [Ident("if")] + ts && CommandMeant(w) == r.0
    decreases |ts|, 2
  {
    hide Branches, PutArms, PutBody, ArmsMeant, CommandsMeant, LegalArms;
    var arms, hasElse, otherwise := ArmsOf(ts);
    w := Conditional(arms, hasElse, otherwise);
    assert NewCommand(If) == BlankCommand(If);
  }

  lemma {:induction false} ArmsOf(ts: seq<Token>) returns (arms: seq<Arm>, hasElse: bool, otherwise: seq<WCommand>)
    requires Branches(ts).Some?
    ensures arms != [] && LegalArms(arms) && LegalCommands(otherwise) && (!hasElse ==> otherwise == [])
    ensures var r := Branches(ts).value;
            && PutArms(arms, if hasElse then [Ident("else")] + ([LBrace] + PutBody(otherwise, r.1)) else r.1) == ts
            && ArmsMeant(arms) + (if hasElse then [Branch(None, CommandsMeant(otherwise))] else []) == r.0
    decreases |ts|, 1
  {
    hide TestAt, Block, PutTest, LegalTest, TestMeant, CommandsMeant, PutBody, LegalCommands;
    var test := TestOf(ts);
    var rest := TestAt(ts).value.1;
    var body := BlockOf(rest);
    var rest1 := Block(rest).value.1;
    var arm := Arm(test, body);
    var first := Branch(Some(TestMeant(test)), CommandsMeant(body));
    arms, hasElse, otherwise := [arm], false, [];
    NothingMeant();
    if Head(rest1) == Ident("elsif") {
      Take(rest1);
      var more;
      more, hasElse, otherwise := ArmsOf(Next(rest1));
      arms := [arm] + more;
      assert arms[0] == arm && arms[1..] == more;
      Assoc([first], ArmsMeant(more), if hasElse then [Branch(None, CommandsMeant(otherwise))] else []);
    } else {
      assert arms[1..] == [] && ArmsMeant(arms) == [first] + [] == [first];
      if Head(rest1) == Ident("else") {
        Take(rest1);
        otherwise := BlockOf(Next(rest1));
        hasElse := true;
        assert [first] + [Branch(None, CommandsMeant(otherwise))] == [first, Branch(None, CommandsMeant(otherwise))];
      } else {
        assert [first] + [] == [first];
      }
    }
  }

  lemma NothingMeant()
    ensures LegalCommands([])
  {
  }

  lemma {:induction false} BlockOf(ts: seq<Token>) returns (cs: seq<WCommand>)
    requires Block(ts).Some?
    ensures LegalCommands(cs) && [LBrace] + PutBody(cs, Block(ts).value.1) == ts && CommandsMeant(cs) == Block(ts).value.0
    decreases |ts|, 0
  {
    hide Commands, PutBody, CommandsMeant, LegalCommands;
    Take(ts);
    cs := CommandsOf(Next(ts));
  }

  lemma {:induction false} CommandsOf(ts: seq<Token>) returns (cs: seq<WCommand>)
    requires Commands(ts).Some?
    ensures LegalCommands(cs) && PutBody(cs, Commands(ts).value.1) == ts && CommandsMeant(cs) == Commands(ts).value.0
    decreases |ts|, 1
  {
    hide CommandAt, PutCommand, CommandMeant, LegalCommand;
    cs := [];
    if Head(ts) == RBrace {
      Take(ts);
    } else {
      var c := CommandOf(ts);
      var more := CommandsOf(CommandAt(ts).value.1);
      cs := [c] + more;
      assert cs[0] == c && cs[1..] == more;
    }
  }

  // ---- programs ---------------------------------------------------------------

  /** The tokens end in End, and no other is one. */
  predicate Ended(ts: seq<Token>) {
    ts != [] && (if |ts| == 1 then ts[0] == End else ts[0] != End && Ended(ts[1..]))
  }

  lemma Past(t: Token, rest: seq<Token>)
    requires t != End
    ensures Ended([t] + rest) <==> Ended(rest)
  {
    assert ([t] + rest)[1..] == rest;
  }

  lemma {:induction false} PastElements(ss: seq<string>, rest: seq<Token>)
    ensures Ended(PutElements(ss, rest)) <==> Ended(rest)
  {
    hide Ended;
    Past(RBracket, rest);
    if ss != [] {
      PastElements(ss[1..], rest);
      Past(Comma, PutElements(ss[1..], rest));
      Past(Str(ss[0]), if |ss| == 1 then [RBracket] + rest else [Comma] + PutElements(ss[1..], rest));
    }
  }

  lemma PastStrings(l: Strings, rest: seq<Token>)
    ensures Ended(PutStrings(l, rest)) <==> Ended(rest)
  {
    hide Ended, PutElements;
    match l
    case One(s) => Past(Str(s), rest);
    case Several(ss) =>
      PastElements(ss, rest);
      Past(LBracket, PutElements(ss, rest));
  }

  lemma {:induction false} PastMarks(ms: seq<Mark>, rest: seq<Token>)
    ensures Ended(PutMarks(ms, rest)) <==> Ended(rest)
  {
    hide Ended;
    if ms != [] {
      var more := PutMarks(ms[1..], rest);
      PastMarks(ms[1..], rest);
      match ms[0]
      case Plain(name) => Past(Token.Tag(name), more);
      case Comparator(value) =>
        Past(Str(value), more);
        Past(Token.Tag("comparator"), [Str(value)] + more);
      case BareComparator => Past(Token.Tag("comparator"), more);
    }
  }

  lemma {:induction false} PastTest(t: Written, rest: seq<Token>)
    ensures Ended(PutTest(t, rest)) <==> Ended(rest)
    decreases t, 0
  {
    hide Ended, PutStrings, PutMarks, PutTests;
    match t {
      case True => Past(Ident("true"), rest);
      case False => Past(Ident("false"), rest);
      case Negation(test) =>
        PastTest(test, rest);
        Past(Ident("not"), PutTest(test, rest));
      case Group(any, tests) =>
        Past(RParen, rest);
        PastTests(tests, [RParen] + rest);
        Past(LParen, PutTests(tests, [RParen] + rest));
        Past(Ident(if any then "anyof" else "allof"), [LParen] + PutTests(tests, [RParen] + rest));
      case SizeIs(marks, n) =>
        Past(Number(n), rest);
        PastMarks(marks, [Number(n)] + rest);
        Past(Ident("size"), PutMarks(marks, [Number(n)] + rest));
      case Exist(names) =>
        PastStrings(names, rest);
        Past(Ident("exists"), PutStrings(names, rest));
      case Matching(kind, before, names, between, keys) => PastLists(Keyword(kind), before, names, between, keys, rest);
      case InBody(marks, keys) =>
        PastStrings(keys, rest);
        PastMarks(marks, PutStrings(keys, rest));
        Past(Ident("body"), PutMarks(marks, PutStrings(keys, rest)));
      case Flagged(before, keys, after) =>
        PastMarks(after, rest);
        PastStrings(keys, PutMarks(after, rest));
        PastMarks(before, PutStrings(keys, PutMarks(after, rest)));
        Past(Ident("hasflag"), PutMarks(before, PutStrings(keys, PutMarks(after, rest))));
      case FlaggedIn(before, names, between, keys) => PastLists("hasflag", before, names, between, keys, rest);
    }
  }

  lemma PastLists(word: string, before: seq<Mark>, names: Strings, between: seq<Mark>, keys: Strings, rest: seq<Token>)
    ensures Ended([Ident(word)] + PutMarks(before, PutStrings(names, PutMarks(between, PutStrings(keys, rest))))) <==> Ended(rest)
  {
    hide Ended, PutStrings, PutMarks;
    PastStrings(keys, rest);
    PastMarks(between, PutStrings(keys, rest));
    PastStrings(names, PutMarks(between, PutStrings(keys, rest)));
    PastMarks(before, PutStrings(names, PutMarks(between, PutStrings(keys, rest))));
    Past(Ident(word), PutMarks(before, PutStrings(names, PutMarks(between, PutStrings(keys, rest)))));
  }

  lemma {:induction false} PastTests(ts: seq<Written>, rest: seq<Token>)
    ensures Ended(PutTests(ts, rest)) <==> Ended(rest)
    decreases ts, 1
  {
    hide Ended, PutTest;
    if ts != [] {
      PastTests(ts[1..], rest);
      Past(Comma, PutTests(ts[1..], rest));
      PastTest(ts[0], if |ts| == 1 then rest else [Comma] + PutTests(ts[1..], rest));
    }
  }

  lemma PastArgument(a: Argument, rest: seq<Token>)
    ensures Ended(PutArgument(a, rest)) <==> Ended(rest)
  {
    hide Ended, PutStrings;
    var tag := Token.Tag(TagName(a));
    match a
    case Word(_) => Past(tag, rest);
    case WithFlags(list) =>
      PastStrings(list, rest);
      Past(tag, PutStrings(list, rest));
    case WithAddresses(list) =>
      PastStrings(list, rest);
      Past(tag, PutStrings(list, rest));
    case WithDays(n) =>
      Past(Number(n), rest);
      Past(tag, [Number(n)] + rest);
    case WithSeconds(n) =>
      Past(Number(n), rest);
      Past(tag, [Number(n)] + rest);
    case WithSubject(s) =>
      Past(Str(s), rest);
      Past(tag, [Str(s)] + rest);
    case WithFrom(s) =>
      Past(Str(s), rest);
      Past(tag, [Str(s)] + rest);
    case WithHandle(s) =>
      Past(Str(s), rest);
      Past(tag, [Str(s)] + rest);
  }

  lemma {:induction false} PastArguments(args: seq<Argument>, rest: seq<Token>)
    ensures Ended(PutArguments(args, rest)) <==> Ended(rest)
  {
    hide Ended, PutArgument;
    if args != [] {
      PastArguments(args[1..], rest);
      PastArgument(args[0], PutArguments(args[1..], rest));
    }
  }

  lemma PastTail(tail: Tail, rest: seq<Token>)
    ensures Ended(PutTail(tail, rest)) <==> Ended(rest)
  {
    hide Ended, PutStrings;
    match tail
    case Nothing =>
    case Text(s) => Past(Str(s), rest);
    case Assign(name, value) =>
      Past(Str(value), rest);
      Past(Str(name), [Str(value)] + rest);
    case Flags(list) => PastStrings(list, rest);
    case FlagsOf(variable, list) =>
      PastStrings(list, rest);
      PastStrings(variable, PutStrings(list, rest));
  }

  lemma {:induction false} PastCommand(c: WCommand, rest: seq<Token>)
    ensures Ended(PutCommand(c, rest)) <==> Ended(rest)
    decreases c, 0
  {
    hide Ended, PutStrings, PutArms, PutBody, PutArguments, PutTail;
    match c {
      case Requires(list) =>
        Past(Semicolon, rest);
        PastStrings(list, [Semicolon] + rest);
        Past(Ident("require"), PutStrings(list, [Semicolon] + rest));
      case Conditional(arms, hasElse, otherwise) =>
        PastBody(otherwise, rest);
        Past(LBrace, PutBody(otherwise, rest));
        Past(Ident("else"), [LBrace] + PutBody(otherwise, rest));
        var after := if hasElse then [Ident("else")] + ([LBrace] + PutBody(otherwise, rest)) else rest;
        PastArms(arms, after);
        Past(Ident("if"), PutArms(arms, after));
      case Plainly(name, _, args, tail) =>
        Past(Semicolon, rest);
        PastTail(tail, [Semicolon] + rest);
        PastArguments(args, PutTail(tail, [Semicolon] + rest));
        Past(Ident(name), PutArguments(args, PutTail(tail, [Semicolon] + rest)));
    }
  }

  lemma {:induction false} PastArms(arms: seq<Arm>, rest: seq<Token>)
    ensures Ended(PutArms(arms, rest)) <==> Ended(rest)
    decreases arms, 1
  {
    hide Ended, PutTest, PutBody;
    if arms != [] {
      var more := if |arms| == 1 then rest else [Ident("elsif")] + PutArms(arms[1..], rest);
      PastArms(arms[1..], rest);
      Past(Ident("elsif"), PutArms(arms[1..], rest));
      PastBody(arms[0].body, more);
      Past(LBrace, PutBody(arms[0].body, more));
      PastTest(arms[0].test, [LBrace] + PutBody(arms[0].body, more));
    }
  }

  lemma {:induction false} PastBody(cs: seq<WCommand>, rest: seq<Token>)
    ensures Ended(PutBody(cs, rest)) <==> Ended(rest)
    decreases cs, 1
  {
    hide Ended, PutCommand;
    Past(RBrace, rest);
    if cs != [] {
      PastBody(cs[1..], rest);
      PastCommand(cs[0], PutBody(cs[1..], rest));
    }
  }

  lemma {:induction false} ProgramOf(ts: seq<Token>) returns (cs: seq<WCommand>)
    requires Ended(ts) && Script(ts).Some?
    ensures LegalCommands(cs) && PutProgram(cs) == ts && CommandsMeant(cs) == Script(ts).value
    decreases |ts|
  {
    hide CommandAt, PutCommand, CommandMeant, LegalCommand;
    cs := [];
    if Head(ts) != End {
      var c := CommandOf(ts);
      var rest := CommandAt(ts).value.1;
      PastCommand(c, rest);
      var more := ProgramOf(rest);
      cs := [c] + more;
      assert cs[0] == c && cs[1..] == more;
    }
  }

  lemma {:induction false} ProgramEnds(cs: seq<WCommand>)
    ensures Ended(PutProgram(cs))
    decreases cs
  {
    hide PutCommand;
    if cs != [] {
      ProgramEnds(cs[1..]);
      PastCommand(cs[0], PutProgram(cs[1..]));
    }
  }

  lemma {:induction false} LexEnds(s: string)
    ensures Lex(s).Some? ==> Ended(Lex(s).value)
    decreases |s|
  {
    var t := Skip(s);
    if t != "" && LexToken(t).Some? {
      LexEnds(LexToken(t).value.1);
      assert LexToken(t).value.0 != End;
      if Lex(LexToken(t).value.1).Some? {
        Past(LexToken(t).value.0, Lex(LexToken(t).value.1).value);
      }
    }
  }

  /** `ts` are the tokens of a written program that means `p`. */
  ghost predicate TokensWrite(ts: seq<Token>, p: seq<Command>) {
    exists cs :: LegalCommands(cs) && PutProgram(cs) == ts && CommandsMeant(cs) == p
  }

  /** Tokens parse to a program exactly when they are those of some way to write it. */
  lemma ParsesExactly(ts: seq<Token>, p: seq<Command>)
    requires Ended(ts)
    ensures Script(ts) == Some(p) <==> TokensWrite(ts, p)
  {
    hide Ended, Script, PutProgram, CommandsMeant, LegalCommands;
    if Script(ts) == Some(p) {
      var cs := ProgramOf(ts);
      assert LegalCommands(cs) && PutProgram(cs) == ts && CommandsMeant(cs) == p;
    }
    if TokensWrite(ts, p) {
      var cs :| LegalCommands(cs) && PutProgram(cs) == ts && CommandsMeant(cs) == p;
      ProgramReads(cs);
    }
  }
}
