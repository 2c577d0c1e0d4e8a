/** Which conditions, reasons, flags and actions of core/src/sieve.cpp survive being printed and read back,
    each exactly when it is canonical; and every rule read from any script has known match types and
    decimal sizes. */
module SieveSurvives {
  import opened Text
  import opened SieveLex
  import opened SieveRules
  import opened SievePieces
  import opened SievePrinted
  import opened SieveReadBack
  import opened SieveRoundTrip

  // ---- everything that is read is legal -----------------------------------

  /** The match type is one of the three, and sizes are compared in one of two ways. */
  predicate Tagged(t: P.Test) {
    P.IsMatchType(t.matchType) && t.sizeRelation in ["", "over", "under"]
  }

  /** So are those of the tests in the test, and a test of the size compares it. */
  predicate Typed(t: P.Test) {
    Tagged(t) && (t.kind == P.Size ==> t.sizeRelation != "") && AllTyped(t.children)
  }

  predicate AllTyped(ts: seq<P.Test>) {
    ts == [] || (Typed(ts[0]) && AllTyped(ts[1..]))
  }

  lemma {:induction false} MatchTagsTyped(ts: seq<Token>, t: P.Test)
    requires Tagged(t)
    ensures Tagged(P.MatchTags(ts, t).0)
    ensures P.MatchTags(ts, t).0.kind == t.kind && P.MatchTags(ts, t).0.children == t.children
    decreases |ts|
  {
    hide P.Head, P.Next;
    if P.Head(ts).Tag? {
      var after := P.Next(ts);
      if P.Head(ts).text == "comparator" {
        if P.Head(after).Str? {
          MatchTagsTyped(P.Next(after), t.(comparator := ToLower(P.Head(after).text)));
        } else {
          MatchTagsTyped(after, t);
        }
      } else {
        MatchTagsTyped(after, P.ApplyTag(P.Head(ts).text, t));
      }
    }
  }

  lemma NewTestTyped(kind: P.TestKind)
    ensures Tagged(P.NewTest(kind)) && P.NewTest(kind).children == [] && AllTyped([]) && (kind != P.Size ==> Typed(P.NewTest(kind)))
  {
    assert AllTyped([]);
  }

  predicate ParseTyped(r: P.Parse<P.Test>) {
    r.Some? ==> Typed(r.value.0)
  }

  lemma TwoListTyped(kind: P.TestKind, ts: seq<Token>)
    requires kind != P.Size
    ensures ParseTyped(P.TwoListTest(kind, ts))
  {
    hide P.MatchTags, P.StringList;
    NewTestTyped(kind);
    MatchTagsTyped(ts, P.NewTest(kind));
    var (t, rest) := P.MatchTags(ts, P.NewTest(kind));
    var names := P.StringList(rest);
    if names.Some? {
      MatchTagsTyped(names.value.1, t.(names := names.value.0));
    }
  }

  lemma LeafTyped(ts: seq<Token>)
    ensures ParseTyped(P.SizeTest(ts)) && ParseTyped(P.BodyTest(ts)) && ParseTyped(P.ExistsTest(ts))
    ensures ParseTyped(P.HasFlagTest(ts))
  {
    hide P.MatchTags, P.StringList;
    NewTestTyped(P.Size);
    NewTestTyped(P.Body);
    NewTestTyped(P.Exists);
    NewTestTyped(P.HasFlag);
    MatchTagsTyped(ts, P.NewTest(P.Size));
    MatchTagsTyped(ts, P.NewTest(P.Body));
    MatchTagsTyped(ts, P.NewTest(P.HasFlag));
    var (t, rest) := P.MatchTags(ts, P.NewTest(P.HasFlag));
    var keys := P.StringList(rest);
    if keys.Some? {
      MatchTagsTyped(keys.value.1, t);
    }
  }

  lemma {:induction false} TestsTyped(ts: seq<Token>)
    ensures P.Tests(ts).Some? ==> AllTyped(P.Tests(ts).value.0)
    decreases |ts|, 1
  {
    hide P.TestAt, P.Head, P.Next, Typed;
    TestTyped(ts);
    if P.TestAt(ts).Some? {
      var (first, rest) := P.TestAt(ts).value;
      if P.Head(rest) == Comma {
        TestsTyped(P.Next(rest));
        if P.Tests(P.Next(rest)).Some? {
          var more := P.Tests(P.Next(rest)).value.0;
          assert ([first] + more)[1..] == more;
        }
      } else {
        assert [first][1..] == [];
      }
    }
  }

  lemma {:induction false} NotTyped(ts: seq<Token>)
    ensures ParseTyped(P.NotTest(ts))
    decreases |ts|, 1
  {
    hide P.TestAt;
    TestTyped(ts);
    if P.TestAt(ts).Some? {
      var child := P.TestAt(ts).value.0;
      assert [child][1..] == [] && AllTyped([]);
      assert AllTyped([child]);
      NewTestTyped(P.Not);
    }
  }

  lemma {:induction false} GroupTyped(kind: P.TestKind, ts: seq<Token>)
    requires kind != P.Size
    ensures ParseTyped(P.GroupTest(kind, ts))
    decreases |ts|, 2
  {
    hide P.Tests, P.Head, P.Next;
    var inner := P.Expect(LParen, ts);
    if inner.Some? {
      TestsTyped(inner.value);
    }
  }

  lemma {:induction false} TestTyped(ts: seq<Token>)
    ensures ParseTyped(P.TestAt(ts))
    decreases |ts|, 0
  {
    hide P.NotTest, P.GroupTest, P.SizeTest, P.BodyTest, P.ExistsTest, P.TwoListTest, P.HasFlagTest, P.Head, Typed;
    if P.Head(ts).Ident? {
      var rest := P.Next(ts);
      NewTestTyped(P.Always);
      NewTestTyped(P.Never);
      NotTyped(rest);
      GroupTyped(P.AnyOf, rest);
      GroupTyped(P.AllOf, rest);
      LeafTyped(rest);
      TwoListTyped(P.Header, rest);
      TwoListTyped(P.Address, rest);
      TwoListTyped(P.Envelope, rest);
      TwoListTyped(P.StringTest, rest);
    }
  }

  lemma ReadTestIsLegal(t: P.Test, negate: bool)
    requires Typed(t) && FlattenTest(t, negate).Some?
    ensures LegalTest(FlattenTest(t, negate).value)
  {
    hide AllTyped, Num, DecValue, ToLower;
    NumFacts(t.sizeLimit);
  }

  lemma ReadNegatableIsLegal(t: P.Test)
    requires Typed(t) && FlattenNegatable(t).Some?
    ensures LegalTest(FlattenNegatable(t).value)
  {
    hide FlattenTest, LegalTest;
    if t.kind == P.Not {
      ReadTestIsLegal(t.children[0], true);
    } else {
      ReadTestIsLegal(t, false);
    }
  }

  lemma {:induction false} ReadAllIsLegal(ts: seq<P.Test>)
    requires AllTyped(ts) && FlattenAll(ts).Some?
    ensures AllLegal(FlattenAll(ts).value)
  {
    hide FlattenNegatable, LegalTest, Typed;
    if ts != [] {
      ReadNegatableIsLegal(ts[0]);
      ReadAllIsLegal(ts[1..]);
      assert FlattenAll(ts).value[1..] == FlattenAll(ts[1..]).value;
    }
  }

  lemma ReadConditionIsLegal(t: P.Test)
    requires Typed(t) && FlattenCondition(t).Some?
    ensures AllLegal(FlattenCondition(t).value.1)
  {
    hide FlattenNegatable, FlattenAll, LegalTest;
    if t.kind == P.Always {
    } else if t.kind == P.AllOf || t.kind == P.AnyOf {
      ReadAllIsLegal(t.children);
    } else {
      ReadNegatableIsLegal(t);
      assert [FlattenNegatable(t).value][1..] == [] && AllLegal([]);
    }
  }

  /** Flags come with the mark that there are some. */
  predicate Flagged(c: P.Command) {
    c.flags != [] ==> c.hasFlags
  }

  predicate AllFlagged(cs: seq<P.Command>) {
    forall i :: 0 <= i < |cs| ==> Flagged(cs[i])
  }

  /** The first test of an `if` has known match types, and the flags in its first block are marked. */
  predicate CommandTyped(c: P.Command) {
    c.kind == P.If ==> c.branches != [] && c.branches[0].test.Some? && Typed(c.branches[0].test.value) && AllFlagged(c.branches[0].body)
  }

  lemma {:induction false} TagArgsFlagged(ts: seq<Token>, c: P.Command)
    requires Flagged(c)
    ensures P.TagArgs(ts, c).Some? ==> Flagged(P.TagArgs(ts, c).value.0)
    decreases |ts|
  {
    hide P.Head, P.Next, P.TagArg;
    if P.Head(ts).Tag? {
      var r := P.TagArg(P.Head(ts).text, P.Next(ts), c);
      if r.Some? {
        TagArgFlagged(P.Head(ts).text, P.Next(ts), c);
        TagArgsFlagged(r.value.1, r.value.0);
      }
    }
  }

  lemma TagArgFlagged(tag: string, ts: seq<Token>, c: P.Command)
    requires Flagged(c)
    ensures P.TagArg(tag, ts, c).Some? ==> Flagged(P.TagArg(tag, ts, c).value.0)
  {
    hide P.StringList;
  }

  lemma CommandFlagged(ts: seq<Token>)
    ensures P.CommandAt(ts).Some? ==> Flagged(P.CommandAt(ts).value.0)
  {
    hide P.TagArgs, P.StringList, P.Head, P.Next, P.Branches;
    if P.Head(ts).Ident? && P.KindOf(P.Head(ts).text).Some? {
      TagArgsFlagged(P.Next(ts), P.NewCommand(P.KindOf(P.Head(ts).text).value));
    }
  }

  lemma {:induction false} CommandsFlagged(ts: seq<Token>)
    ensures P.Commands(ts).Some? ==> AllFlagged(P.Commands(ts).value.0)
    decreases |ts|
  {
    hide P.CommandAt, P.Head, Flagged;
    if P.Head(ts) != RBrace && P.Head(ts) != End && P.CommandAt(ts).Some? {
      CommandFlagged(ts);
      CommandsFlagged(P.CommandAt(ts).value.1);
    }
  }

  lemma BlockFlagged(ts: seq<Token>)
    ensures P.Block(ts).Some? ==> AllFlagged(P.Block(ts).value.0)
  {
    hide P.Head, P.Next, P.Commands;
    CommandsFlagged(P.Next(ts));
  }

  lemma BranchesTyped(ts: seq<Token>)
    ensures var r := P.Branches(ts);
            r.Some? ==> r.value.0 != [] && r.value.0[0].test.Some? && Typed(r.value.0[0].test.value) && AllFlagged(r.value.0[0].body)
  {
    hide P.TestAt, P.Block, P.Head, P.Next, Typed, AllFlagged;
    TestTyped(ts);
    if P.TestAt(ts).Some? {
      BlockFlagged(P.TestAt(ts).value.1);
    }
  }

  lemma {:induction false} TagArgsKind(ts: seq<Token>, c: P.Command)
    ensures P.TagArgs(ts, c).Some? ==> P.TagArgs(ts, c).value.0.kind == c.kind
    decreases |ts|
  {
    hide P.Head, P.Next, P.StringList;
    if P.Head(ts).Tag? {
      var r := P.TagArg(P.Head(ts).text, P.Next(ts), c);
      if r.Some? {
        TagArgKind(P.Head(ts).text, P.Next(ts), c);
        TagArgsKind(r.value.1, r.value.0);
      }
    }
  }

  lemma TagArgKind(tag: string, ts: seq<Token>, c: P.Command)
    ensures P.TagArg(tag, ts, c).Some? ==> P.TagArg(tag, ts, c).value.0.kind == c.kind
  {
    hide P.StringList;
  }

  lemma SimpleCommandKind(kind: P.CommandKind, ts: seq<Token>)
    ensures P.SimpleCommand(kind, ts).Some? ==> P.SimpleCommand(kind, ts).value.0.kind == kind
  {
    hide P.TagArgs, P.StringList, P.Head, P.Next;
    TagArgsKind(ts, P.NewCommand(kind));
  }

  lemma CommandAtTyped(ts: seq<Token>)
    ensures P.CommandAt(ts).Some? ==> CommandTyped(P.CommandAt(ts).value.0)
  {
    hide P.Branches, P.SimpleCommand, P.StringList, P.Head, P.Next, Typed, AllFlagged;
    if P.Head(ts).Ident? {
      var name, rest := P.Head(ts).text, P.Next(ts);
      BranchesTyped(rest);
      if P.KindOf(name).Some? {
        SimpleCommandKind(P.KindOf(name).value, rest);
      }
    }
  }

  predicate AllCommandsTyped(cs: seq<P.Command>) {
    cs == [] || (CommandTyped(cs[0]) && AllCommandsTyped(cs[1..]))
  }

  lemma {:induction false} ScriptTyped(ts: seq<Token>)
    ensures P.Script(ts).Some? ==> AllCommandsTyped(P.Script(ts).value)
    decreases |ts|
  {
    hide P.CommandAt, P.Head, CommandTyped;
    if P.Head(ts) != End && P.CommandAt(ts).Some? {
      CommandAtTyped(ts);
      var (c, rest) := P.CommandAt(ts).value;
      ScriptTyped(rest);
      if P.Script(rest).Some? {
        assert ([c] + P.Script(rest).value)[1..] == P.Script(rest).value;
      }
    }
  }

  lemma {:induction false} RulesOfIsLegal(cs: seq<P.Command>, names: seq<string>)
    requires AllCommandsTyped(cs)
    ensures RulesOf(cs, names).Some? ==> RulesLegal(RulesOf(cs, names).value)
    decreases |cs|
  {
    hide FlattenRule, AllLegal, CommandTyped;
    if cs != [] {
      if cs[0].kind == P.Require {
        RulesOfIsLegal(cs[1..], names);
      } else {
        RuleIsLegal(cs[0], First(names));
        RulesOfIsLegal(cs[1..], Others(names));
        if RulesOf(cs, names).Some? {
          assert RulesOf(cs, names).value[1..] == RulesOf(cs[1..], Others(names)).value;
        }
      }
    }
  }

  lemma RuleIsLegal(c: P.Command, name: string)
    requires CommandTyped(c)
    ensures FlattenRule(c, name).Some? ==> AllLegal(FlattenRule(c, name).value.tests)
  {
    hide FlattenCondition, FlattenBlock, Typed, AllLegal;
    if FlattenRule(c, name).Some? {
      ReadConditionIsLegal(c.branches[0].test.value);
    }
  }

  /** Whatever the script, the conditions read from it have known match types and decimal sizes. */
  lemma ReadRulesAreLegal(script: string)
    ensures DecomposeOf(script).Some? ==> RulesLegal(DecomposeOf(script).value)
  {
    hide Lex, P.Script, RulesOf, NamesFrom, Requires, RulesLegal;
    if P.Program(script).Some? {
      ScriptTyped(Lex(script).value);
      RulesOfIsLegal(P.Program(script).value, NamesFrom(script, ""));
    }
  }

  // ---- conditions ---------------------------------------------------------

  /** A field of the rule editor, a known operator, and a value on one line. */
  predicate CanonicalTest(t: RuleTest) {
    if t.field == "size" then (t.op == "over" || t.op == "under") && t.value == Num(DecValue(t.value))
    else
      && P.IsMatchType(t.op)
      && OneLine(t.value)
      && (t.field == "body" || IsDirect(t.field) ||
          ("header:" <= t.field && OneLine(t.field[7..]) && !IsDirect(ToLower(t.field[7..]))))
  }

  lemma FieldSurvives(field: string)
    requires field != "body" && field != "size"
    ensures ReadField(Clean(HeaderName(field))) == field <==>
            IsDirect(field) || ("header:" <= field && OneLine(field[7..]) && !IsDirect(ToLower(field[7..])))
  {
    hide ToLower, Clean, OneLine;
    var name := HeaderName(field);
    CleanOneLine(name);
    if "header:" <= field {
      assert field == "header:" + field[7..];
      HeaderIsNotDirect(field);
      HeaderIsNotDirect("header:" + Clean(name));
      if "header:" + Clean(name) == field {
        assert ("header:" + Clean(name))[7..] == Clean(name);
      }
    } else {
      assert "header:" <= "header:" + Clean(name);
      if IsDirect(field) {
        DirectNames(field);
      }
    }
  }

  lemma HeaderIsNotDirect(field: string)
    requires "header:" <= field
    ensures !IsDirect(field)
  {
    assert field[0] == 'h';
  }

  lemma DirectNames(field: string)
    requires IsDirect(field)
    ensures ToLower(field) == field && OneLine(field) && !("header:" <= field)
  {
    hide ToLower;
    LowerLetters(field);
    LowerNameFacts(field);
  }

  lemma TestSurvives(t: RuleTest)
    ensures LegalTest(t) && ReadTest(t) == t <==> CanonicalTest(t)
  {
    hide ToLower, Clean, OneLine, HeaderName, ReadField, Num, DecValue, IsDirect;
    CleanOneLine(t.value);
    if t.field != "size" && t.field != "body" {
      FieldSurvives(t.field);
    }
  }

  predicate CanonicalTests(ts: seq<RuleTest>) {
    ts == [] || (CanonicalTest(ts[0]) && CanonicalTests(ts[1..]))
  }

  lemma {:induction false} TestsSurvive(ts: seq<RuleTest>)
    ensures AllLegal(ts) && ReadTests(ts) == ts <==> CanonicalTests(ts)
  {
    hide LegalTest, ReadTest, CanonicalTest;
    if ts != [] {
      TestSurvives(ts[0]);
      TestsSurvive(ts[1..]);
      assert ts == [ts[0]] + ts[1..];
      assert ReadTests(ts)[1..] == ReadTests(ts[1..]);
    }
  }

  // ---- reasons ------------------------------------------------------------

  predicate EndsInCr(s: string) {
    s != "" && s[|s| - 1] == '\r'
  }

  /** Lines separated by CRLF, none of which ends in a further carriage return. */
  predicate CrlfLines(s: string)
    decreases |s|
  {
    var nl := IndexOf(s, '\n', 0);
    if nl == |s| then !EndsInCr(s)
    else nl > 0 && s[nl - 1] == '\r' && !EndsInCr(s[..nl - 1]) && CrlfLines(s[nl + 1..])
  }

  lemma StripTwice(raw: string)
    ensures var t := StripCr(StripCr(raw));
            && t <= raw
            && (t == raw <==> !EndsInCr(raw))
            && (t + "\r" == raw <==> EndsInCr(raw) && !EndsInCr(raw[..|raw| - 1]))
  {
    var u := StripCr(raw);
    var t := StripCr(u);
    assert u <= raw && t <= u;
    if EndsInCr(raw) {
      assert u + "\r" == raw;
      assert u == raw[..|raw| - 1];
    }
  }

  /** Two texts whose first newline ends the lines `a` and `b`. */
  lemma SameFirstLine(a: string, b: string, x: string, y: string)
    requires NoNewline(a) && NoNewline(b)
    ensures (a + "\n") + x == (b + "\n") + y <==> a == b && x == y
  {
    if (a + "\n") + x == (b + "\n") + y {
      LineThenRest(a, x);
      LineThenRest(b, y);
    }
  }

  lemma LastLineSurvives(raw: string, t: string)
    requires t == StripCr(StripCr(raw))
    ensures (t + "\r\n") + "" == raw + "\r\n" <==> !EndsInCr(raw)
  {
    hide StripCr;
    StripTwice(raw);
    assert (t + "\r\n") + "" == t + "\r\n";
    if t + "\r\n" == raw + "\r\n" {
      assert |t| == |raw|;
    }
  }

  lemma LineSurvives(raw: string, t: string, value: string, more: string)
    requires NoNewline(raw) && t == StripCr(StripCr(raw))
    ensures (t + "\r\n") + value == (raw + "\n") + more <==> EndsInCr(raw) && !EndsInCr(raw[..|raw| - 1]) && value == more
  {
    hide StripCr;
    StripTwice(raw);
    assert NoNewline(t + "\r");
    assert t + "\r\n" == (t + "\r") + "\n";
    SameFirstLine(t + "\r", raw, value, more);
  }

  lemma BreakAt(s: string, nl: nat)
    requires nl < |s| && s[nl] == '\n'
    ensures s + "\r\n" == (s[..nl] + "\n") + (s[nl + 1..] + "\r\n")
  {
    assert s == (s[..nl] + "\n") + s[nl + 1..];
    Assoc(s[..nl] + "\n", s[nl + 1..], "\r\n");
  }

  lemma {:induction false} LinesSurvive(s: string)
    ensures LinesValue(s) == s + "\r\n" <==> CrlfLines(s)
    decreases |s|
  {
    hide StripCr, EndsInCr, IndexOf;
    var nl := IndexOf(s, '\n', 0);
    var raw := s[..nl];
    var t := StripCr(StripCr(raw));
    if nl == |s| {
      assert raw == s;
      LastLineSurvives(s, t);
    } else {
      var more := s[nl + 1..];
      LinesSurvive(more);
      BreakAt(s, nl);
      LineSurvives(raw, t, LinesValue(more), more + "\r\n");
      LastCr(s, nl);
    }
  }

  lemma LastCr(s: string, nl: nat)
    requires nl < |s|
    ensures EndsInCr(s[..nl]) <==> nl > 0 && s[nl - 1] == '\r'
    ensures nl > 0 ==> s[..nl][..nl - 1] == s[..nl - 1]
  {
  }

  lemma {:induction false} LinesEndInCrlf(s: string)
    ensures var v := LinesValue(s); |v| >= 2 && v[|v| - 2..] == "\r\n"
    decreases |s|
  {
    hide StripCr;
    var nl := IndexOf(s, '\n', 0);
    var t := StripCr(StripCr(s[..nl]));
    if nl < |s| {
      LinesEndInCrlf(s[nl + 1..]);
    } else {
      assert (t + "\r\n") + "" == t + "\r\n";
    }
  }

  /** One line, or lines that all end in CRLF and in no further carriage return. */
  predicate CanonicalReason(s: string) {
    OneLine(s) || (|s| >= 2 && s[|s| - 2..] == "\r\n" && CrlfLines(s[..|s| - 2]))
  }

  lemma ReasonSurvives(s: string)
    ensures ReasonValue(s) == s <==> CanonicalReason(s)
  {
    hide CrlfLines, LinesValue, OneLine;
    if !OneLine(s) {
      LinesEndInCrlf(Chomp(s));
      if |s| >= 2 && s[|s| - 2..] == "\r\n" {
        var x := s[..|s| - 2];
        ChompCrlf(s, x);
        LinesSurvive(x);
      }
    }
  }

  lemma ChompCrlf(s: string, x: string)
    requires |s| >= 2 && s[|s| - 2..] == "\r\n" && x == s[..|s| - 2]
    ensures Chomp(s) == x && s == x + "\r\n"
  {
    assert s == x + s[|s| - 2..];
    assert s[|s| - 1] == s[|s| - 2..][1] && s[|s| - 2] == s[|s| - 2..][0];
    var u := s[..|s| - 1];
    assert u[|u| - 1] == s[|s| - 2] && u[..|u| - 1] == x;
  }

  // ---- flags --------------------------------------------------------------

  /** A non-empty string without white space. */
  predicate IsWord(w: string) {
    w != "" && forall i :: 0 <= i < |w| ==> !IsSpace(w[i])
  }

  predicate AllWords(ws: seq<string>) {
    ws == [] || (IsWord(ws[0]) && AllWords(ws[1..]))
  }

  lemma {:induction false} WordsAfterAreWords(word: string, s: string)
    requires word == "" || IsWord(word)
    ensures AllWords(WordsAfter(word, s))
    decreases |s|
  {
    hide IsWord;
    var one: seq<string> := if word == "" then [] else [word];
    assert AllWords(one) by {
      assert [word][1..] == [];
    }
    if s != "" {
      if IsSpace(s[0]) {
        WordsAfterAreWords("", s[1..]);
        AllWordsJoin(one, WordsAfter("", s[1..]));
      } else {
        LongerWord(word, s[0]);
        WordsAfterAreWords(word + [s[0]], s[1..]);
      }
    }
  }

  lemma LongerWord(word: string, c: char)
    requires (word == "" || IsWord(word)) && !IsSpace(c)
    ensures IsWord(word + [c])
  {
  }

  lemma {:induction false} AllWordsJoin(a: seq<string>, b: seq<string>)
    requires AllWords(a) && AllWords(b)
    ensures AllWords(a + b)
  {
    hide IsWord;
    if a == [] {
      assert a + b == b;
    } else {
      AllWordsJoin(a[1..], b);
      assert (a + b)[0] == a[0] && (a + b)[1..] == a[1..] + b;
    }
  }

  lemma {:induction false} SplitFlagsAreWords(flags: seq<string>)
    ensures AllWords(SplitFlags(flags))
  {
    hide IsWord, WordsAfter;
    if flags != [] {
      WordsAfterAreWords("", flags[0]);
      SplitFlagsAreWords(flags[1..]);
      AllWordsJoin(Words(flags[0]), SplitFlags(flags[1..]));
    }
  }

  lemma {:induction false} WordReadsAlone(word: string, s: string)
    requires word + s != "" && forall i :: 0 <= i < |s| ==> !IsSpace(s[i])
    ensures WordsAfter(word, s) == [word + s]
    decreases |s|
  {
    if s == "" {
      assert word + s == word;
    } else {
      assert (word + [s[0]]) + s[1..] == word + s;
      WordReadsAlone(word + [s[0]], s[1..]);
    }
  }

  lemma WordIsOneLine(w: string)
    requires IsWord(w)
    ensures Clean(w) == w && Words(w) == [w]
  {
    hide Clean, WordsAfter;
    CleanOneLine(w);
    assert "" + w == w;
    WordReadsAlone("", w);
  }

  lemma {:induction false} FlagsSurvive(flags: seq<string>)
    ensures ReadFlags(flags) == flags <==> AllWords(flags)
  {
    hide IsWord, Words, Clean;
    if AllWords(flags) {
      if flags != [] {
        WordIsOneLine(flags[0]);
        FlagsSurvive(flags[1..]);
        assert CleanAll(flags)[1..] == CleanAll(flags[1..]);
        assert flags == [flags[0]] + flags[1..];
      }
    }
    SplitFlagsAreWords(CleanAll(flags));
  }

  // ---- actions ------------------------------------------------------------

  predicate AllOneLine(items: seq<string>) {
    items == [] || (OneLine(items[0]) && AllOneLine(items[1..]))
  }

  lemma {:induction false} CleanAllSurvives(items: seq<string>)
    ensures CleanAll(items) == items <==> AllOneLine(items)
  {
    hide Clean, OneLine;
    if items != [] {
      CleanOneLine(items[0]);
      CleanAllSurvives(items[1..]);
      assert items == [items[0]] + items[1..];
      assert CleanAll(items)[1..] == CleanAll(items[1..]);
    }
  }

  /** Strings on one line, flags that are words, at least one day, and a canonical reason. */
  predicate CanonicalAction(a: Action) {
    match a
    case Keep(flags) => AllWords(flags)
    case FileInto(folder, _, flags) => OneLine(folder) && AllWords(flags)
    case Redirect(address) => OneLine(address)
    case Reject(reason) => CanonicalReason(reason)
    case Discard => true
    case Vacation(v, reason) =>
      && OneLine(v.subject) && OneLine(v.from) && OneLine(v.handle) && AllOneLine(v.addresses)
      && v.days >= 1 && CanonicalReason(reason)
  }

  lemma ActionSurvives(a: Action)
    ensures ReadAction(a) == a <==> CanonicalAction(a)
  {
    hide Clean, CleanAll, OneLine, AllOneLine, ReasonValue, CanonicalReason, AllWords, ReadFlags;
    match a
    case Keep(flags) => FlagsSurvive(flags);
    case FileInto(folder, _, flags) =>
      CleanOneLine(folder);
      FlagsSurvive(flags);
    case Redirect(address) => CleanOneLine(address);
    case Reject(reason) => ReasonSurvives(reason);
    case Discard =>
    case Vacation(v, reason) =>
      CleanOneLine(v.subject);
      CleanOneLine(v.from);
      CleanOneLine(v.handle);
      CleanAllSurvives(v.addresses);
      ReasonSurvives(reason);
  }

  predicate CanonicalActions(actions: seq<Action>) {
    actions == [] || (CanonicalAction(actions[0]) && CanonicalActions(actions[1..]))
  }

  lemma {:induction false} ActionsSurvive(actions: seq<Action>)
    ensures ReadActions(actions) == actions <==> CanonicalActions(actions)
  {
    hide ReadAction, CanonicalAction;
    if actions != [] {
      ActionSurvives(actions[0]);
      ActionsSurvive(actions[1..]);
      assert actions == [actions[0]] + actions[1..];
      assert ReadActions(actions)[1..] == ReadActions(actions[1..]);
    }
  }

}
