/** The grammar of Sieve scripts, as the recursive-descent parser of core/src/sieve.cpp reads it: tests, commands
    and blocks as functions of the tokens that are left. Error messages are not modelled. */
module SieveParse {
  import opened Text
  import opened SieveLex

  // ---- syntax trees -------------------------------------------------------

  datatype TestKind =
    | Always | Never | Not | AnyOf | AllOf | Header | Address | Envelope | Exists | Size | Body | StringTest | HasFlag

  datatype Test = Test(
    kind: TestKind,
    children: seq<Test>,
    names: seq<string>,
    keys: seq<string>,
    matchType: string,
    comparator: string,
    addressPart: string,
    sizeRelation: string,
    sizeLimit: nat)

  function NewTest(kind: TestKind): Test {
    Test(kind, [], [], [], "is", "i;ascii-casemap", "all", "", 0)
  }

  datatype CommandKind =
    | Require | If | Stop | Keep | Discard | FileInto | Redirect | Reject | Set | SetFlag | AddFlag | RemoveFlag | Vacation

  /** One arm of an `if`; the arm of `else` has no test. */
  datatype Branch = Branch(test: Option<Test>, body: seq<Command>)

  datatype Command = Command(
    kind: CommandKind,
    branches: seq<Branch>,
    argument: string,
    create: bool,
    copy: bool,
    varName: string,
    modifiers: seq<string>,
    flags: seq<string>,
    hasFlags: bool,
    capabilities: seq<string>,
    vacSubject: string,
    vacFrom: string,
    vacHandle: string,
    vacAddresses: seq<string>,
    vacDays: nat,
    vacMime: bool)

  function NewCommand(kind: CommandKind): Command {
    Command(kind, [], "", false, false, "", [], [], false, [], "", "", "", [], 0, false)
  }

  // ---- token streams ------------------------------------------------------

  function Head(ts: seq<Token>): Token {
    if ts == [] then End else ts[0]
  }

  /** The stream after its first token; End stays put. */
  function Next(ts: seq<Token>): (r: seq<Token>)
    ensures |r| <= |ts| && (Head(ts) != End ==> |r| < |ts|)
  {
    if Head(ts) == End then ts else ts[1..]
  }

  /** What a parse yields: a value and the tokens after it, or None on a syntax error. */
  type Parse<T> = Option<(T, seq<Token>)>

  function Expect(k: Token, ts: seq<Token>): (r: Option<seq<Token>>)
    ensures r.Some? ==> |r.value| <= |ts| && (k != End ==> |r.value| < |ts|)
  {
    if Head(ts) == k then Some(Next(ts)) else None
  }

  // ---- lists and tags -----------------------------------------------------

  /** The strings of a bracketed list, from its first string to its closing bracket. */
  function Elements(ts: seq<Token>): (r: Parse<seq<string>>)
    ensures r.Some? ==> |r.value.1| < |ts|
    decreases |ts|
  {
    if !Head(ts).Str? then None
    else
      var after := Next(ts);
      if Head(after) == Comma then
        match Elements(Next(after))
        case None => None
        case Some((more, rest)) => Some(([Head(ts).text] + more, rest))
      else if Head(after) == RBracket then Some(([Head(ts).text], Next(after)))
      else None
  }

  /** A string, or a bracketed list of strings. */
  function StringList(ts: seq<Token>): (r: Parse<seq<string>>)
    ensures r.Some? ==> |r.value.1| < |ts|
  {
    if Head(ts).Str? then Some(([Head(ts).text], Next(ts)))
    else if Head(ts) != LBracket then None
    else if Head(Next(ts)) == RBracket then Some(([], Next(Next(ts))))
    else Elements(Next(ts))
  }

  predicate IsMatchType(tag: string) {
    tag == "is" || tag == "contains" || tag == "matches"
  }

  predicate IsAddressPart(tag: string) {
    tag == "all" || tag == "localpart" || tag == "domain" || tag == "user" || tag == "detail"
  }

  /** The test with one tag applied; unknown tags change nothing. */
  function ApplyTag(tag: string, t: Test): Test {
    if IsMatchType(tag) then t.(matchType := tag)
    else if IsAddressPart(tag) then t.(addressPart := tag)
    else if tag == "over" || tag == "under" then t.(sizeRelation := tag)
    else t
  }

  /** The tagged arguments common to the match tests. */
  function MatchTags(ts: seq<Token>, t: Test): (r: (Test, seq<Token>))
    ensures |r.1| <= |ts|
    decreases |ts|
  {
    if !Head(ts).Tag? then (t, ts)
    else if Head(ts).text == "comparator" then
      var after := Next(ts);
      if Head(after).Str? then MatchTags(Next(after), t.(comparator := ToLower(Head(after).text)))
      else MatchTags(after, t)
    else MatchTags(Next(ts), ApplyTag(Head(ts).text, t))
  }

  // ---- tests --------------------------------------------------------------

  /** Tests separated by commas. */
  function Tests(ts: seq<Token>): (r: Parse<seq<Test>>)
    ensures r.Some? ==> |r.value.1| < |ts|
    decreases |ts|, 1
  {
    match TestAt(ts)
    case None => None
    case Some((first, rest)) =>
      if Head(rest) == Comma then
        match Tests(Next(rest))
        case None => None
        case Some((more, rest')) => Some(([first] + more, rest'))
      else Some(([first], rest))
  }

  function NotTest(ts: seq<Token>): (r: Parse<Test>)
    ensures r.Some? ==> |r.value.1| < |ts|
    decreases |ts|, 1
  {
    match TestAt(ts)
    case None => None
    case Some((child, rest)) => Some((NewTest(Not).(children := [child]), rest))
  }

  function GroupTest(kind: TestKind, ts: seq<Token>): (r: Parse<Test>)
    ensures r.Some? ==> |r.value.1| < |ts|
    decreases |ts|, 2
  {
    match Expect(LParen, ts)
    case None => None
    case Some(inner) =>
      match Tests(inner)
      case None => None
      case Some((children, rest)) =>
        match Expect(RParen, rest)
        case None => None
        case Some(rest') => Some((NewTest(kind).(children := children), rest'))
  }

  function SizeTest(ts: seq<Token>): (r: Parse<Test>)
    ensures r.Some? ==> |r.value.1| < |ts|
  {
    var (t, rest) := MatchTags(ts, NewTest(Size));
    if !Head(rest).Number? || t.sizeRelation == "" then None
    else Some((t.(sizeLimit := Head(rest).n), Next(rest)))
  }

  function ExistsTest(ts: seq<Token>): (r: Parse<Test>)
    ensures r.Some? ==> |r.value.1| < |ts|
  {
    match StringList(ts)
    case None => None
    case Some((names, rest)) => Some((NewTest(Exists).(names := names), rest))
  }

  /** Names, then keys, with tags before either. */
  function TwoListTest(kind: TestKind, ts: seq<Token>): (r: Parse<Test>)
    ensures r.Some? ==> |r.value.1| < |ts|
  {
    var (t, rest) := MatchTags(ts, NewTest(kind));
    match StringList(rest)
    case None => None
    case Some((names, rest1)) =>
      var (t', rest2) := MatchTags(rest1, t.(names := names));
      match StringList(rest2)
      case None => None
      case Some((keys, rest3)) => Some((t'.(keys := keys), rest3))
  }

  function BodyTest(ts: seq<Token>): (r: Parse<Test>)
    ensures r.Some? ==> |r.value.1| < |ts|
  {
    var (t, rest) := MatchTags(ts, NewTest(Body));
    match StringList(rest)
    case None => None
    case Some((keys, rest')) => Some((t.(keys := keys), rest'))
  }

  /** One list is the keys; of two, the first is the names. */
  function HasFlagTest(ts: seq<Token>): (r: Parse<Test>)
    ensures r.Some? ==> |r.value.1| < |ts|
  {
    var (t, rest) := MatchTags(ts, NewTest(HasFlag));
    match StringList(rest)
    case None => None
    case Some((first, rest1)) =>
      var (t', rest2) := MatchTags(rest1, t);
      if Head(rest2).Str? || Head(rest2) == LBracket then
        match StringList(rest2)
        case None => None
        case Some((keys, rest3)) => Some((t'.(names := first, keys := keys), rest3))
      else Some((t'.(keys := first), rest2))
  }

  function TestAt(ts: seq<Token>): (r: Parse<Test>)
    ensures r.Some? ==> |r.value.1| < |ts|
    decreases |ts|, 0
  {
    if !Head(ts).Ident? then None
    else
      var name, rest := Head(ts).text, Next(ts);
      if name == "true" then Some((NewTest(Always), rest))
      else if name == "false" then Some((NewTest(Never), rest))
      else if name == "not" then NotTest(rest)
      else if name == "anyof" then GroupTest(AnyOf, rest)
      else if name == "allof" then GroupTest(AllOf, rest)
      else if name == "size" then SizeTest(rest)
      else if name == "exists" then ExistsTest(rest)
      else if name == "header" then TwoListTest(Header, rest)
      else if name == "address" then TwoListTest(Address, rest)
      else if name == "envelope" then TwoListTest(Envelope, rest)
      else if name == "body" then BodyTest(rest)
      else if name == "string" then TwoListTest(StringTest, rest)
      else if name == "hasflag" then HasFlagTest(rest)
      else None
  }

  // ---- commands -----------------------------------------------------------

  function KindOf(name: string): Option<CommandKind> {
    if name == "stop" then Some(Stop)
    else if name == "keep" then Some(Keep)
    else if name == "discard" then Some(Discard)
    else if name == "fileinto" then Some(FileInto)
    else if name == "redirect" then Some(Redirect)
    else if name == "reject" || name == "ereject" then Some(Reject)
    else if name == "set" then Some(Set)
    else if name == "setflag" then Some(SetFlag)
    else if name == "addflag" then Some(AddFlag)
    else if name == "removeflag" then Some(RemoveFlag)
    else if name == "vacation" then Some(Vacation)
    else None
  }

  predicate IsModifier(tag: string) {
    tag == "lower" || tag == "upper" || tag == "lowerfirst" || tag == "upperfirst" || tag == "length" || tag == "quotewildcard"
  }

  /** One tagged argument, whose tag has been read already. */
  function TagArg(tag: string, ts: seq<Token>, c: Command): (r: Parse<Command>)
    ensures r.Some? ==> |r.value.1| <= |ts|
  {
    if tag == "create" then Some((c.(create := true), ts))
    else if tag == "copy" then Some((c.(copy := true), ts))
    else if tag == "flags" then
      match StringList(ts)
      case None => None
      case Some((v, rest)) => Some((c.(flags := c.flags + v, hasFlags := true), rest))
    else if tag == "mime" then Some((c.(vacMime := true), ts))
    else if tag == "days" || tag == "seconds" then
      if !Head(ts).Number? then None
      else Some((c.(vacDays := if tag == "days" then Head(ts).n else (Head(ts).n + 86399) / 86400), Next(ts)))
    else if tag == "subject" || tag == "from" || tag == "handle" then
      if !Head(ts).Str? then None
      else Some((if tag == "subject" then c.(vacSubject := Head(ts).text)
                 else if tag == "from" then c.(vacFrom := Head(ts).text)
                 else c.(vacHandle := Head(ts).text), Next(ts)))
    else if tag == "addresses" then
      match StringList(ts)
      case None => None
      case Some((v, rest)) => Some((c.(vacAddresses := c.vacAddresses + v), rest))
    else if IsModifier(tag) then Some((c.(modifiers := c.modifiers + [tag]), ts))
    else Some((c, ts))
  }

  function TagArgs(ts: seq<Token>, c: Command): (r: Parse<Command>)
    ensures r.Some? ==> |r.value.1| <= |ts|
    decreases |ts|
  {
    if !Head(ts).Tag? then Some((c, ts))
    else
      match TagArg(Head(ts).text, Next(ts), c)
      case None => None
      case Some((c', rest)) => TagArgs(rest, c')
  }

  /** The positional arguments. */
  function Positional(ts: seq<Token>, c: Command): (r: Parse<Command>)
    ensures r.Some? ==> |r.value.1| <= |ts|
  {
    if c.kind == Set then
      if !Head(ts).Str? || !Head(Next(ts)).Str? then None
      else Some((c.(varName := Head(ts).text, argument := Head(Next(ts)).text), Next(Next(ts))))
    else if c.kind == SetFlag || c.kind == AddFlag || c.kind == RemoveFlag then
      match StringList(ts)
      case None => None
      case Some((v, rest)) =>
        if Head(rest).Str? || Head(rest) == LBracket then
          match StringList(rest)
          case None => None
          case Some((w, rest')) => Some((c.(flags := w, hasFlags := true), rest'))
        else Some((c.(flags := c.flags + v, hasFlags := true), rest))
    else if Head(ts).Str? then Some((c.(argument := Head(ts).text), Next(ts)))
    else Some((c, ts))
  }

  /** A command other than `require` and `if`, after its name. */
  function SimpleCommand(kind: CommandKind, ts: seq<Token>): (r: Parse<Command>)
    ensures r.Some? ==> |r.value.1| < |ts|
  {
    match TagArgs(ts, NewCommand(kind))
    case None => None
    case Some((c, rest)) =>
      match Positional(rest, c)
      case None => None
      case Some((c', rest')) =>
        match Expect(Semicolon, rest')
        case None => None
        case Some(rest'') => Some((c', rest''))
  }

  function RequireCommand(ts: seq<Token>): (r: Parse<Command>)
    ensures r.Some? ==> |r.value.1| < |ts|
  {
    match StringList(ts)
    case None => None
    case Some((v, rest)) =>
      match Expect(Semicolon, rest)
      case None => None
      case Some(rest') => Some((NewCommand(Require).(capabilities := v), rest'))
  }

  /** Commands up to a closing brace, which is consumed. */
  function Commands(ts: seq<Token>): (r: Parse<seq<Command>>)
    ensures r.Some? ==> |r.value.1| < |ts|
    decreases |ts|, 1
  {
    if Head(ts) == RBrace then Some(([], Next(ts)))
    else if Head(ts) == End then None
    else
      match CommandAt(ts)
      case None => None
      case Some((c, rest)) =>
        match Commands(rest)
        case None => None
        case Some((more, rest')) => Some(([c] + more, rest'))
  }

  function Block(ts: seq<Token>): (r: Parse<seq<Command>>)
    ensures r.Some? ==> |r.value.1| < |ts|
    decreases |ts|, 0
  {
    if Head(ts) == LBrace then Commands(Next(ts)) else None
  }

  /** The arms of an `if`, from the first test on. */
  function Branches(ts: seq<Token>): (r: Parse<seq<Branch>>)
    ensures r.Some? ==> |r.value.1| < |ts|
    decreases |ts|, 1
  {
    match TestAt(ts)
    case None => None
    case Some((test, rest)) =>
      match Block(rest)
      case None => None
      case Some((body, rest1)) =>
        var first := Branch(Some(test), body);
        if Head(rest1) == Ident("elsif") then
          match Branches(Next(rest1))
          case None => None
          case Some((more, rest2)) => Some(([first] + more, rest2))
        else if Head(rest1) == Ident("else") then
          match Block(Next(rest1))
          case None => None
          case Some((tail, rest2)) => Some(([first, Branch(None, tail)], rest2))
        else Some(([first], rest1))
  }

  function IfCommand(ts: seq<Token>): (r: Parse<Command>)
    ensures r.Some? ==> |r.value.1| < |ts|
    decreases |ts|, 2
  {
    match Branches(ts)
    case None => None
    case Some((branches, rest)) => Some((NewCommand(If).(branches := branches), rest))
  }

  function CommandAt(ts: seq<Token>): (r: Parse<Command>)
    ensures r.Some? ==> |r.value.1| < |ts|
    decreases |ts|, 0
  {
    if !Head(ts).Ident? then None
    else
      var name, rest := Head(ts).text, Next(ts);
      if name == "require" then RequireCommand(rest)
      else if name == "if" then IfCommand(rest)
      else if KindOf(name).None? then None
      else SimpleCommand(KindOf(name).value, rest)
  }

  /** A whole script. */
  function Script(ts: seq<Token>): Option<seq<Command>>
    decreases |ts|
  {
    if Head(ts) == End then Some([])
    else
      match CommandAt(ts)
      case None => None
      case Some((c, rest)) =>
        match Script(rest)
        case None => None
        case Some(more) => Some([c] + more)
  }

  /** The program of a script text. */
  function Program(script: string): Option<seq<Command>> {
    match Lex(script)
    case None => None
    case Some(ts) => Script(ts)
  }
}
