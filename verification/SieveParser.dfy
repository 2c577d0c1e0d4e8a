/** The parser object of core/src/sieve.cpp, proved against the grammar functions. */
module SieveParser {
  import opened Text
  import opened SieveLex
  import opened SieveParse

  /** End closes the stream and appears nowhere else. */
  ghost predicate Closed(ts: seq<Token>) {
    ts != [] && forall i :: 0 <= i < |ts| ==> (ts[i] == End <==> i == |ts| - 1)
  }

  /** Every token stream of the lexer is closed. */
  lemma {:induction false} LexIsClosed(s: string)
    ensures Lex(s).Some? ==> Closed(Lex(s).value)
    decreases |s|
  {
    var t := Skip(s);
    if t != "" && LexToken(t).Some? {
      LexIsClosed(LexToken(t).value.1);
      assert LexToken(t).value.0 != End;
    }
  }

  /** A value was parsed as `r` says, leaving `rest`. */
  ghost predicate Parsed<T>(r: Parse<T>, v: Option<T>, rest: seq<Token>) {
    match r
    case None => v == None
    case Some((x, after)) => v == Some(x) && after == rest
  }

  /** The values collected so far followed by what the rest of the stream yields. */
  function Onto<T>(out: seq<T>, r: Parse<seq<T>>): Parse<seq<T>> {
    match r
    case None => None
    case Some((more, rest)) => Some((out + more, rest))
  }

  lemma OntoEmpty<T>(r: Parse<seq<T>>)
    ensures Onto([], r) == r
  {
    if r.Some? {
      assert [] + r.value.0 == r.value.0;
    }
  }

  lemma OntoSnoc<T>(out: seq<T>, x: T, r: Parse<seq<T>>)
    ensures Onto(out, Onto([x], r)) == Onto(out + [x], r)
  {
    if r.Some? {
      Assoc(out, [x], r.value.0);
    }
  }

  lemma ElementsStep(ts: seq<Token>)
    ensures Elements(ts) ==
            if !Head(ts).Str? then None
            else var after := SieveParse.Next(ts);
                 if Head(after) == Comma then Onto([Head(ts).text], Elements(SieveParse.Next(after)))
                 else if Head(after) == RBracket then Some(([Head(ts).text], SieveParse.Next(after)))
                 else None
  {
  }

  lemma TestsStep(ts: seq<Token>)
    ensures Tests(ts) ==
            match TestAt(ts)
            case None => None
            case Some((first, rest)) =>
              if Head(rest) == Comma then Onto([first], Tests(SieveParse.Next(rest))) else Some(([first], rest))
  {
  }

  lemma CommandsStep(ts: seq<Token>)
    ensures Commands(ts) ==
            if Head(ts) == RBrace then Some(([], SieveParse.Next(ts)))
            else if Head(ts) == End then None
            else match CommandAt(ts)
                 case None => None
                 case Some((c, rest)) => Onto([c], Commands(rest))
  {
  }

  lemma BranchesStep(ts: seq<Token>)
    ensures Branches(ts) ==
            match TestAt(ts)
            case None => None
            case Some((test, rest)) =>
              match Block(rest)
              case None => None
              case Some((body, rest1)) =>
                var first := Branch(Some(test), body);
                if Head(rest1) == Ident("elsif") then Onto([first], Branches(SieveParse.Next(rest1)))
                else if Head(rest1) == Ident("else") then
                  match Block(SieveParse.Next(rest1))
                  case None => None
                  case Some((tail, rest2)) => Some(([first, Branch(None, tail)], rest2))
                else Some(([first], rest1))
  {
  }

  class Parser {
    const t: seq<Token>
    var pos: nat

    constructor (tokens: seq<Token>)
      requires Closed(tokens)
      ensures t == tokens && pos == 0 && Valid()
    {
      t := tokens;
      pos := 0;
    }

    ghost predicate Valid()
      reads this
    {
      Closed(t) && pos < |t|
    }

    method Peek() returns (k: Token)
      requires Valid()
      ensures k == Head(t[pos..]) == t[pos]
    {
      k := t[pos];
    }

    method Next() returns (k: Token)
      requires Valid()
      modifies this
      ensures Valid() && k == Head(old(t[pos..])) && t[pos..] == SieveParse.Next(old(t[pos..]))
      ensures old(pos) <= pos && (k != End ==> old(pos) < pos)
    {
      k := t[pos];
      if pos < |t| - 1 {
        pos := pos + 1;
      }
    }

    method Accept(k: Token) returns (ok: bool)
      requires Valid()
      modifies this
      ensures Valid() && ok == (Head(old(t[pos..])) == k) && old(pos) <= pos && (ok && k != End ==> old(pos) < pos)
      ensures t[pos..] == if ok then SieveParse.Next(old(t[pos..])) else old(t[pos..])
      ensures !ok ==> pos == old(pos)
    {
      var head := Peek();
      ok := head == k;
      if ok {
        head := Next();
      }
    }

    /** A string, or a bracketed list of strings. */
    method ParseStringList() returns (v: Option<seq<string>>)
      requires Valid()
      modifies this
      ensures Valid() && old(pos) <= pos && (v.Some? ==> old(pos) < pos)
      ensures Parsed(StringList(old(t[pos..])), v, t[pos..])
    {
      hide Elements;
      var head := Peek();
      if head.Str? {
        head := Next();
        return Some([head.text]);
      }
      var ok := Accept(LBracket);
      if !ok {
        return None;
      }
      ok := Accept(RBracket);
      if ok {
        return Some([]);
      }
      v := ParseElements();
    }

    method ParseElements() returns (v: Option<seq<string>>)
      requires Valid()
      modifies this
      ensures Valid() && old(pos) <= pos && (v.Some? ==> old(pos) < pos)
      ensures Parsed(Elements(old(t[pos..])), v, t[pos..])
    {
      hide Elements, Onto;
      var out: seq<string> := [];
      ghost var all := Elements(t[pos..]);
      OntoEmpty(all);
      while true
        invariant Valid() && old(pos) <= pos
        invariant Onto(out, Elements(t[pos..])) == all
        decreases |t| - pos
      {
        ElementsStep(t[pos..]);
        var head := Peek();
        if !head.Str? {
          OntoNone<string>(out);
          return None;
        }
        head := Next();
        ghost var after := t[pos..];
        var more := Accept(Comma);
        if more {
          OntoSnoc(out, head.text, Elements(t[pos..]));
          out := out + [head.text];
          continue;
        }
        var closed := Accept(RBracket);
        if closed {
          OntoSome(out, [head.text], t[pos..]);
          return Some(out + [head.text]);
        }
        OntoNone<string>(out);
        return None;
      }
    }

    /** Consume the tagged arguments common to the match tests. */
    method ParseMatchTags(t0: Test) returns (test: Test)
      requires Valid()
      modifies this
      ensures Valid() && old(pos) <= pos
      ensures (test, t[pos..]) == MatchTags(old(t[pos..]), t0)
    {
      test := t0;
      var head := Peek();
      while head.Tag?
        invariant Valid() && old(pos) <= pos && head == Head(t[pos..])
        invariant MatchTags(t[pos..], test) == MatchTags(old(t[pos..]), t0)
        decreases |t| - pos
      {
        var tag := head.text;
        head := Next();
        if tag == "is" || tag == "contains" || tag == "matches" {
          test := test.(matchType := tag);
        } else if tag == "all" || tag == "localpart" || tag == "domain" || tag == "user" || tag == "detail" {
          test := test.(addressPart := tag);
        } else if tag == "comparator" {
          head := Peek();
          if head.Str? {
            head := Next();
            test := test.(comparator := ToLower(head.text));
          }
        } else if tag == "over" || tag == "under" {
          test := test.(sizeRelation := tag);
        }
        head := Peek();
      }
    }

    method ParseTest() returns (v: Option<Test>)
      requires Valid()
      modifies this
      ensures Valid() && old(pos) <= pos && (v.Some? ==> old(pos) < pos)
      ensures Parsed(TestAt(old(t[pos..])), v, t[pos..])
      decreases |t| - pos, 0
    {
      hide NotTest, GroupTest, SizeTest, ExistsTest, TwoListTest, BodyTest, HasFlagTest;
      var head := Peek();
      if !head.Ident? {
        return None;
      }
      head := Next();
      var name := head.text;
      if name == "true" {
        return Some(NewTest(Always));
      }
      if name == "false" {
        return Some(NewTest(Never));
      }
      if name == "not" {
        v := ParseNot();
      } else if name == "anyof" {
        v := ParseGroup(AnyOf);
      } else if name == "allof" {
        v := ParseGroup(AllOf);
      } else if name == "size" {
        v := ParseSize();
      } else if name == "exists" {
        v := ParseExists();
      } else if name == "header" {
        v := ParseTwoLists(Header);
      } else if name == "address" {
        v := ParseTwoLists(Address);
      } else if name == "envelope" {
        v := ParseTwoLists(Envelope);
      } else if name == "body" {
        v := ParseBody();
      } else if name == "string" {
        v := ParseTwoLists(StringTest);
      } else if name == "hasflag" {
        v := ParseHasFlag();
      } else {
        v := None;
      }
    }

    method ParseNot() returns (v: Option<Test>)
      requires Valid()
      modifies this
      ensures Valid() && old(pos) <= pos
      ensures Parsed(NotTest(old(t[pos..])), v, t[pos..])
      decreases |t| - pos, 1
    {
      hide TestAt;
      var child := ParseTest();
      v := if child.None? then None else Some(NewTest(Not).(children := [child.value]));
    }

    method ParseGroup(kind: TestKind) returns (v: Option<Test>)
      requires Valid()
      modifies this
      ensures Valid() && old(pos) <= pos
      ensures Parsed(GroupTest(kind, old(t[pos..])), v, t[pos..])
      decreases |t| - pos, 2
    {
      hide Tests;
      var ok := Accept(LParen);
      if !ok {
        return None;
      }
      var children := ParseTests();
      if children.None? {
        return None;
      }
      ok := Accept(RParen);
      v := if ok then Some(NewTest(kind).(children := children.value)) else None;
    }

    method ParseTests() returns (v: Option<seq<Test>>)
      requires Valid()
      modifies this
      ensures Valid() && old(pos) <= pos
      ensures Parsed(Tests(old(t[pos..])), v, t[pos..])
      decreases |t| - pos, 1
    {
      hide Tests, TestAt, Onto;
      var out: seq<Test> := [];
      ghost var all := Tests(t[pos..]);
      OntoEmpty(all);
      while true
        invariant Valid() && old(pos) <= pos
        invariant Onto(out, Tests(t[pos..])) == all
        decreases |t| - pos
      {
        TestsStep(t[pos..]);
        var child := ParseTest();
        if child.None? {
          OntoNone<Test>(out);
          return None;
        }
        var more := Accept(Comma);
        if more {
          OntoSnoc(out, child.value, Tests(t[pos..]));
          out := out + [child.value];
          continue;
        }
        OntoSome(out, [child.value], t[pos..]);
        return Some(out + [child.value]);
      }
    }

    method ParseSize() returns (v: Option<Test>)
      requires Valid()
      modifies this
      ensures Valid() && old(pos) <= pos
      ensures Parsed(SizeTest(old(t[pos..])), v, t[pos..])
    {
      hide MatchTags;
      var test := ParseMatchTags(NewTest(Size));
      var head := Peek();
      if !head.Number? {
        return None;
      }
      head := Next();
      if test.sizeRelation == "" {
        return None;
      }
      v := Some(test.(sizeLimit := head.n));
    }

    method ParseExists() returns (v: Option<Test>)
      requires Valid()
      modifies this
      ensures Valid() && old(pos) <= pos
      ensures Parsed(ExistsTest(old(t[pos..])), v, t[pos..])
    {
      hide StringList;
      var names := ParseStringList();
      v := if names.None? then None else Some(NewTest(Exists).(names := names.value));
    }

    method ParseTwoLists(kind: TestKind) returns (v: Option<Test>)
      requires Valid()
      modifies this
      ensures Valid() && old(pos) <= pos
      ensures Parsed(TwoListTest(kind, old(t[pos..])), v, t[pos..])
    {
      hide StringList, MatchTags;
      var test := ParseMatchTags(NewTest(kind));
      var names := ParseStringList();
      if names.None? {
        return None;
      }
      test := ParseMatchTags(test.(names := names.value));
      var keys := ParseStringList();
      v := if keys.None? then None else Some(test.(keys := keys.value));
    }

    method ParseBody() returns (v: Option<Test>)
      requires Valid()
      modifies this
      ensures Valid() && old(pos) <= pos
      ensures Parsed(BodyTest(old(t[pos..])), v, t[pos..])
    {
      hide StringList, MatchTags;
      var test := ParseMatchTags(NewTest(Body));
      var keys := ParseStringList();
      v := if keys.None? then None else Some(test.(keys := keys.value));
    }

    method ParseHasFlag() returns (v: Option<Test>)
      requires Valid()
      modifies this
      ensures Valid() && old(pos) <= pos
      ensures Parsed(HasFlagTest(old(t[pos..])), v, t[pos..])
    {
      hide StringList, MatchTags;
      var test := ParseMatchTags(NewTest(HasFlag));
      var keys := ParseStringList();
      if keys.None? {
        return None;
      }
      test := ParseMatchTags(test);
      var head := Peek();
      if head.Str? || head == LBracket {
        var more := ParseStringList();
        v := if more.None? then None else Some(test.(names := keys.value, keys := more.value));
      } else {
        v := Some(test.(keys := keys.value));
      }
    }

    method ParseBlock() returns (v: Option<seq<Command>>)
      requires Valid()
      modifies this
      ensures Valid() && old(pos) <= pos && (v.Some? ==> old(pos) < pos)
      ensures Parsed(Block(old(t[pos..])), v, t[pos..])
      decreases |t| - pos, 0
    {
      hide Commands, CommandAt, Onto;
      var ok := Accept(LBrace);
      if !ok {
        return None;
      }
      var out: seq<Command> := [];
      ghost var all := Commands(t[pos..]);
      OntoEmpty(all);
      var head := Peek();
      while head != RBrace
        invariant Valid() && old(pos) < pos && head == Head(t[pos..])
        invariant Onto(out, Commands(t[pos..])) == all
        decreases |t| - pos
      {
        CommandsStep(t[pos..]);
        if head == End {
          OntoNone<Command>(out);
          return None;
        }
        var c := ParseCommand();
        if c.None? {
          OntoNone<Command>(out);
          return None;
        }
        OntoSnoc(out, c.value, Commands(t[pos..]));
        out := out + [c.value];
        head := Peek();
      }
      CommandsStep(t[pos..]);
      head := Next();
      OntoSome(out, [], t[pos..]);
      assert out + [] == out;
      v := Some(out);
    }

    method ParseBranches() returns (v: Option<seq<Branch>>)
      requires Valid()
      modifies this
      ensures Valid() && old(pos) <= pos
      ensures Parsed(Branches(old(t[pos..])), v, t[pos..])
      decreases |t| - pos, 1
    {
      hide Branches, TestAt, Block, Onto;
      var out: seq<Branch> := [];
      ghost var all := Branches(t[pos..]);
      OntoEmpty(all);
      while true
        invariant Valid() && old(pos) <= pos
        invariant Onto(out, Branches(t[pos..])) == all
        decreases |t| - pos
      {
        BranchesStep(t[pos..]);
        ghost var start := pos;
        OntoNone<Branch>(out);
        var test := ParseTest();
        if test.None? {
          return None;
        }
        var body := ParseBlock();
        if body.None? {
          return None;
        }
        var first := Branch(Some(test.value), body.value);
        var again := Accept(Ident("elsif"));
        if again {
          OntoSnoc(out, first, Branches(t[pos..]));
          out := out + [first];
          continue;
        }
        var otherwise := Accept(Ident("else"));
        if otherwise {
          var tail := ParseBlock();
          if tail.None? {
            return None;
          }
          OntoSome(out, [first, Branch(None, tail.value)], t[pos..]);
          return Some(out + [first, Branch(None, tail.value)]);
        }
        OntoSome(out, [first], t[pos..]);
        return Some(out + [first]);
      }
    }

    method ParseCommand() returns (v: Option<Command>)
      requires Valid()
      modifies this
      ensures Valid() && old(pos) <= pos && (v.Some? ==> old(pos) < pos)
      ensures Parsed(CommandAt(old(t[pos..])), v, t[pos..])
      decreases |t| - pos, 0
    {
      hide Branches, StringList, TagArgs, Positional;
      var head := Peek();
      if !head.Ident? {
        return None;
      }
      head := Next();
      var name := head.text;
      if name == "require" {
        var caps := ParseStringList();
        if caps.None? {
          return None;
        }
        var ok := Accept(Semicolon);
        return if ok then Some(NewCommand(Require).(capabilities := caps.value)) else None;
      }
      if name == "if" {
        var branches := ParseBranches();
        return if branches.None? then None else Some(NewCommand(If).(branches := branches.value));
      }
      var kind := KindOf(name);
      if kind.None? {
        return None;
      }
      v := ParseSimple(kind.value);
    }

    method ParseSimple(kind: CommandKind) returns (v: Option<Command>)
      requires Valid()
      modifies this
      ensures Valid() && old(pos) <= pos
      ensures Parsed(SimpleCommand(kind, old(t[pos..])), v, t[pos..])
    {
      hide TagArgs, Positional;
      v := ParseTagArgs(NewCommand(kind));
      if v.None? {
        return None;
      }
      v := ParsePositional(v.value);
      if v.None? {
        return None;
      }
      var ok := Accept(Semicolon);
      if !ok {
        v := None;
      }
    }

    method ParseTagArgs(c0: Command) returns (v: Option<Command>)
      requires Valid()
      modifies this
      ensures Valid() && old(pos) <= pos
      ensures Parsed(TagArgs(old(t[pos..]), c0), v, t[pos..])
    {
      hide TagArg;
      var c := c0;
      var head := Peek();
      while head.Tag?
        invariant Valid() && old(pos) <= pos && head == Head(t[pos..])
        invariant TagArgs(t[pos..], c) == TagArgs(old(t[pos..]), c0)
        decreases |t| - pos
      {
        head := Next();
        v := ParseTagArg(head.text, c);
        if v.None? {
          return None;
        }
        c := v.value;
        head := Peek();
      }
      v := Some(c);
    }

    method ParseTagArg(tag: string, c: Command) returns (v: Option<Command>)
      requires Valid()
      modifies this
      ensures Valid() && old(pos) <= pos
      ensures Parsed(TagArg(tag, old(t[pos..]), c), v, t[pos..])
    {
      hide StringList;
      if tag == "create" {
        v := Some(c.(create := true));
      } else if tag == "copy" {
        v := Some(c.(copy := true));
      } else if tag == "flags" {
        var flags := ParseStringList();
        v := if flags.None? then None else Some(c.(flags := c.flags + flags.value, hasFlags := true));
      } else if tag == "mime" {
        v := Some(c.(vacMime := true));
      } else if tag == "days" || tag == "seconds" {
        var head := Peek();
        if !head.Number? {
          return None;
        }
        head := Next();
        v := Some(c.(vacDays := if tag == "days" then head.n else (head.n + 86399) / 86400));
      } else if tag == "subject" || tag == "from" || tag == "handle" {
        var head := Peek();
        if !head.Str? {
          return None;
        }
        head := Next();
        v := Some(if tag == "subject" then c.(vacSubject := head.text)
                  else if tag == "from" then c.(vacFrom := head.text)
                  else c.(vacHandle := head.text));
      } else if tag == "addresses" {
        var addresses := ParseStringList();
        v := if addresses.None? then None else Some(c.(vacAddresses := c.vacAddresses + addresses.value));
      } else if IsModifier(tag) {
        v := Some(c.(modifiers := c.modifiers + [tag]));
      } else {
        v := Some(c);
      }
    }

    method ParsePositional(c: Command) returns (v: Option<Command>)
      requires Valid()
      modifies this
      ensures Valid() && old(pos) <= pos
      ensures Parsed(Positional(old(t[pos..]), c), v, t[pos..])
    {
      hide StringList;
      var head := Peek();
      if c.kind == Set {
        if !head.Str? {
          return None;
        }
        head := Next();
        var name := head.text;
        head := Peek();
        if !head.Str? {
          return None;
        }
        head := Next();
        v := Some(c.(varName := name, argument := head.text));
      } else if c.kind == SetFlag || c.kind == AddFlag || c.kind == RemoveFlag {
        var flags := ParseStringList();
        if flags.None? {
          return None;
        }
        head := Peek();
        if head.Str? || head == LBracket {
          var more := ParseStringList();
          v := if more.None? then None else Some(c.(flags := more.value, hasFlags := true));
        } else {
          v := Some(c.(flags := c.flags + flags.value, hasFlags := true));
        }
      } else if head.Str? {
        head := Next();
        v := Some(c.(argument := head.text));
      } else {
        v := Some(c);
      }
    }

    /** Parse everything. */
    method ParseScript() returns (v: Option<seq<Command>>)
      requires Valid()
      modifies this
      ensures Valid() && v == Script(old(t[pos..]))
    {
      hide Script, CommandAt;
      var out: seq<Command> := [];
      ghost var all := Script(t[pos..]);
      assert all.Some? ==> [] + all.value == all.value;
      var head := Peek();
      while head != End
        invariant Valid() && head == Head(t[pos..])
        invariant all == match Script(t[pos..])
                         case None => None
                         case Some(more) => Some(out + more)
        decreases |t| - pos
      {
        ScriptStep(t[pos..]);
        var c := ParseCommand();
        if c.None? {
          return None;
        }
        ScriptGrows(out, c.value, Script(t[pos..]));
        out := out + [c.value];
        head := Peek();
      }
      ScriptStep(t[pos..]);
      assert out + [] == out;
      v := Some(out);
    }
  }

  lemma OntoNone<T>(out: seq<T>)
    ensures Onto(out, None) == None
  {
  }

  lemma OntoSome<T>(out: seq<T>, more: seq<T>, rest: seq<Token>)
    ensures Onto(out, Some((more, rest))) == Some((out + more, rest))
  {
  }

  lemma ScriptStep(ts: seq<Token>)
    ensures Script(ts) == if Head(ts) == End then Some([])
                          else match CommandAt(ts)
                               case None => None
                               case Some((c, rest)) =>
                                 match Script(rest)
                                 case None => None
                                 case Some(more) => Some([c] + more)
  {
  }

  lemma ScriptGrows(out: seq<Command>, c: Command, more: Option<seq<Command>>)
    ensures more.Some? ==> out + ([c] + more.value) == (out + [c]) + more.value
  {
  }

  /** Lex and parse a script text. */
  method ParseInternal(script: string) returns (program: Option<seq<Command>>)
    ensures program == Program(script)
  {
    hide Lex, Script, Skip, LexToken;
    var lexer := new Lexer(script);
    assert lexer.Rest() == script by {
      assert script[0..] == script;
    }
    var tokens := lexer.Run();
    LexIsClosed(script);
    if tokens.None? {
      return None;
    }
    var parser := new Parser(tokens.value);
    assert tokens.value[0..] == tokens.value;
    program := parser.ParseScript();
  }
}
