/** Sieve programs as they may be written (RFC 5228 and its extensions): every command and test with its keyword, tagged
    arguments in any order and number, lists with or without brackets; their tokens, and the program they mean. */
module SieveSyntax {
  import opened Text
  import opened SieveLex
  import opened SieveParse

  // ---- lists of strings ---------------------------------------------------

  /** A list of strings: one alone, or any number in brackets. */
  datatype Strings = One(s: string) | Several(ss: seq<string>)

  function Listed(l: Strings): seq<string> {
    match l case One(s) => [s] case Several(ss) => ss
  }

  function PutElements(ss: seq<string>, rest: seq<Token>): seq<Token> {
    if ss == [] then [RBracket] + rest
    else [Str(ss[0])] + (if |ss| == 1 then [RBracket] + rest else [Comma] + PutElements(ss[1..], rest))
  }

  function PutStrings(l: Strings, rest: seq<Token>): seq<Token> {
    match l
    case One(s) => [Str(s)] + rest
    case Several(ss) => [LBracket] + PutElements(ss, rest)
  }

  // ---- tagged arguments of tests --------------------------------------------

  /** A comparator without its name is passed over. */
  datatype Mark = Plain(name: string) | Comparator(value: string) | BareComparator

  /** A bare comparator must not stand in front of a string, which would be its name. */
  predicate LegalMarks(ms: seq<Mark>, stringNext: bool) {
    ms == [] ||
    (LegalMarks(ms[1..], stringNext) &&
     match ms[0]
     case Plain(name) => name != "comparator"
     case Comparator(_) => true
     case BareComparator => |ms| > 1 || !stringNext)
  }

  function PutMarks(ms: seq<Mark>, rest: seq<Token>): seq<Token> {
    if ms == [] then rest
    else
      match ms[0]
      case Plain(name) => [Token.Tag(name)] + PutMarks(ms[1..], rest)
      case Comparator(value) => [Token.Tag("comparator")] + ([Str(value)] + PutMarks(ms[1..], rest))
      case BareComparator => [Token.Tag("comparator")] + PutMarks(ms[1..], rest)
  }

  /** The last tag that is one of the names. */
  function LastIn(ms: seq<Mark>, names: set<string>, value: string): string {
    if ms == [] then value
    else LastIn(ms[1..], names, if ms[0].Plain? && ms[0].name in names then ms[0].name else value)
  }

  function LastComparator(ms: seq<Mark>, value: string): string {
    if ms == [] then value else LastComparator(ms[1..], if ms[0].Comparator? then ToLower(ms[0].value) else value)
  }

  /** Tags say how to match, which part of an address to take and how to compare sizes; the last of each counts. */
  function Marked(t: Test, ms: seq<Mark>): Test {
    t.(matchType := LastIn(ms, {"is", "contains", "matches"}, t.matchType),
       addressPart := LastIn(ms, {"all", "localpart", "domain", "user", "detail"}, t.addressPart),
       sizeRelation := LastIn(ms, {"over", "under"}, t.sizeRelation),
       comparator := LastComparator(ms, t.comparator))
  }

  // ---- tests --------------------------------------------------------------

  datatype Written =
    | True
    | False
    | Negation(test: Written)
    | Group(any: bool, tests: seq<Written>)
    | SizeIs(marks: seq<Mark>, n: nat)
    | Exist(names: Strings)
    | Matching(kind: TestKind, before: seq<Mark>, names: Strings, between: seq<Mark>, keys: Strings)
    | InBody(marks: seq<Mark>, keys: Strings)
    | Flagged(before: seq<Mark>, keys: Strings, after: seq<Mark>)
    | FlaggedIn(before: seq<Mark>, names: Strings, between: seq<Mark>, keys: Strings)

  function Blank(kind: TestKind): Test {
    Test(kind, [], [], [], "is", "i;ascii-casemap", "all", "", 0)
  }

  predicate LegalTest(t: Written) {
    match t
    case Negation(test) => LegalTest(test)
    case Group(_, tests) => tests != [] && LegalTests(tests)
    case SizeIs(marks, _) => LegalMarks(marks, false) && Marked(Blank(Size), marks).sizeRelation != ""
    case Matching(kind, before, names, between, keys) =>
      && (kind.Header? || kind.Address? || kind.Envelope? || kind.StringTest?)
      && LegalMarks(before, names.One?) && LegalMarks(between, keys.One?)
    case InBody(marks, keys) => LegalMarks(marks, keys.One?)
    case Flagged(before, keys, after) => LegalMarks(before, keys.One?) && LegalMarks(after, false)
    case FlaggedIn(before, names, between, keys) => LegalMarks(before, names.One?) && LegalMarks(between, keys.One?)
    case _ => true
  }

  predicate LegalTests(ts: seq<Written>) {
    ts == [] || (LegalTest(ts[0]) && LegalTests(ts[1..]))
  }

  function Keyword(kind: TestKind): string {
    match kind
    case Header => "header"
    case Address => "address"
    case Envelope => "envelope"
    case StringTest => "string"
    case _ => ""
  }

  function PutTest(t: Written, rest: seq<Token>): seq<Token>
    decreases t, 0
  {
    match t
    case True => [Ident("true")] + rest
    case False => [Ident("false")] + rest
    case Negation(test) => [Ident("not")] + PutTest(test, rest)
    case Group(any, tests) => [Ident(if any then "anyof" else "allof")] + ([LParen] + PutTests(tests, [RParen] + rest))
    case SizeIs(marks, n) => [Ident("size")] + PutMarks(marks, [Number(n)] + rest)
    case Exist(names) => [Ident("exists")] + PutStrings(names, rest)
    case Matching(kind, before, names, between, keys) =>
      [Ident(Keyword(kind))] + PutMarks(before, PutStrings(names, PutMarks(between, PutStrings(keys, rest))))
    case InBody(marks, keys) => [Ident("body")] + PutMarks(marks, PutStrings(keys, rest))
    case Flagged(before, keys, after) => [Ident("hasflag")] + PutMarks(before, PutStrings(keys, PutMarks(after, rest)))
    case FlaggedIn(before, names, between, keys) =>
      [Ident("hasflag")] + PutMarks(before, PutStrings(names, PutMarks(between, PutStrings(keys, rest))))
  }

  function PutTests(ts: seq<Written>, rest: seq<Token>): seq<Token>
    decreases ts, 1
  {
    if ts == [] then rest
    else PutTest(ts[0], if |ts| == 1 then rest else [Comma] + PutTests(ts[1..], rest))
  }

  /** The test that is written. */
  function TestMeant(t: Written): Test {
    match t
    case True => Blank(Always)
    case False => Blank(Never)
    case Negation(test) => Blank(Not).(children := [TestMeant(test)])
    case Group(any, tests) => Blank(if any then AnyOf else AllOf).(children := TestsMeant(tests))
    case SizeIs(marks, n) => Marked(Blank(Size), marks).(sizeLimit := n)
    case Exist(names) => Blank(Exists).(names := Listed(names))
    case Matching(kind, before, names, between, keys) =>
      Marked(Marked(Blank(kind), before), between).(names := Listed(names), keys := Listed(keys))
    case InBody(marks, keys) => Marked(Blank(Body), marks).(keys := Listed(keys))
    case Flagged(before, keys, after) => Marked(Marked(Blank(HasFlag), before), after).(keys := Listed(keys))
    case FlaggedIn(before, names, between, keys) =>
      Marked(Marked(Blank(HasFlag), before), between).(names := Listed(names), keys := Listed(keys))
  }

  function TestsMeant(ts: seq<Written>): (r: seq<Test>)
    ensures |r| == |ts|
  {
    if ts == [] then [] else [TestMeant(ts[0])] + TestsMeant(ts[1..])
  }

  // ---- tagged arguments of commands -------------------------------------------

  datatype Argument =
    | Word(name: string)
    | WithFlags(list: Strings)
    | WithAddresses(list: Strings)
    | WithDays(n: nat)
    | WithSeconds(n: nat)
    | WithSubject(s: string)
    | WithFrom(s: string)
    | WithHandle(s: string)

  /** Tags that are followed by a value. */
  const VALUED: set<string> := {"flags", "addresses", "days", "seconds", "subject", "from", "handle"}

  const MODIFIERS: set<string> := {"lower", "upper", "lowerfirst", "upperfirst", "length", "quotewildcard"}

  predicate LegalArguments(args: seq<Argument>) {
    args == [] || ((args[0].Word? ==> args[0].name !in VALUED) && LegalArguments(args[1..]))
  }

  function PutArgument(a: Argument, rest: seq<Token>): seq<Token> {
    match a
    case Word(name) => [Token.Tag(name)] + rest
    case WithFlags(list) => [Token.Tag("flags")] + PutStrings(list, rest)
    case WithAddresses(list) => [Token.Tag("addresses")] + PutStrings(list, rest)
    case WithDays(n) => [Token.Tag("days")] + ([Number(n)] + rest)
    case WithSeconds(n) => [Token.Tag("seconds")] + ([Number(n)] + rest)
    case WithSubject(s) => [Token.Tag("subject")] + ([Str(s)] + rest)
    case WithFrom(s) => [Token.Tag("from")] + ([Str(s)] + rest)
    case WithHandle(s) => [Token.Tag("handle")] + ([Str(s)] + rest)
  }

  function PutArguments(args: seq<Argument>, rest: seq<Token>): seq<Token> {
    if args == [] then rest else PutArgument(args[0], PutArguments(args[1..], rest))
  }

  /** A command with one argument more: words switch something on, lists add up, and of numbers and texts the last counts.
      Seconds are rounded up to days. */
  function WithArgument(c: Command, a: Argument): Command {
    match a
    case Word(name) =>
      if name == "create" then c.(create := true)
      else if name == "copy" then c.(copy := true)
      else if name == "mime" then c.(vacMime := true)
      else if name in MODIFIERS then c.(modifiers := c.modifiers + [name])
      else c
    case WithFlags(list) => c.(flags := c.flags + Listed(list), hasFlags := true)
    case WithAddresses(list) => c.(vacAddresses := c.vacAddresses + Listed(list))
    case WithDays(n) => c.(vacDays := n)
    case WithSeconds(n) => c.(vacDays := if n % 86400 == 0 then n / 86400 else n / 86400 + 1)
    case WithSubject(s) => c.(vacSubject := s)
    case WithFrom(s) => c.(vacFrom := s)
    case WithHandle(s) => c.(vacHandle := s)
  }

  function WithArguments(c: Command, args: seq<Argument>): Command
    decreases args
  {
    if args == [] then c else WithArguments(WithArgument(c, args[0]), args[1..])
  }

  // ---- commands -----------------------------------------------------------

  /** What follows the tagged arguments: nothing, a text, a variable and its value, flags, or a variable and flags. */
  datatype Tail = Nothing | Text(s: string) | Assign(name: string, value: string) | Flags(list: Strings) | FlagsOf(variable: Strings, list: Strings)

  datatype WCommand =
    | Requires(list: Strings)
    | Conditional(arms: seq<Arm>, hasElse: bool, otherwise: seq<WCommand>)
    | Plainly(name: string, kind: CommandKind, args: seq<Argument>, tail: Tail)

  datatype Arm = Arm(test: Written, body: seq<WCommand>)

  /** The words of the language for each command. */
  predicate Called(kind: CommandKind, name: string) {
    match kind
    case Stop => name == "stop"
    case Keep => name == "keep"
    case Discard => name == "discard"
    case FileInto => name == "fileinto"
    case Redirect => name == "redirect"
    case Reject => name == "reject" || name == "ereject"
    case Set => name == "set"
    case SetFlag => name == "setflag"
    case AddFlag => name == "addflag"
    case RemoveFlag => name == "removeflag"
    case Vacation => name == "vacation"
    case Require => false
    case If => false
  }

  predicate LegalTail(kind: CommandKind, tail: Tail) {
    match kind
    case Set => tail.Assign?
    case SetFlag => tail.Flags? || tail.FlagsOf?
    case AddFlag => tail.Flags? || tail.FlagsOf?
    case RemoveFlag => tail.Flags? || tail.FlagsOf?
    case _ => tail.Nothing? || tail.Text?
  }

  predicate LegalCommand(c: WCommand) {
    match c
    case Requires(_) => true
    case Conditional(arms, hasElse, otherwise) =>
      arms != [] && LegalArms(arms) && LegalCommands(otherwise) && (!hasElse ==> otherwise == [])
    case Plainly(name, kind, args, tail) => Called(kind, name) && LegalArguments(args) && LegalTail(kind, tail)
  }

  predicate LegalArms(arms: seq<Arm>) {
    arms == [] || (LegalTest(arms[0].test) && LegalCommands(arms[0].body) && LegalArms(arms[1..]))
  }

  predicate LegalCommands(cs: seq<WCommand>) {
    cs == [] || (LegalCommand(cs[0]) && LegalCommands(cs[1..]))
  }

  function PutTail(tail: Tail, rest: seq<Token>): seq<Token> {
    match tail
    case Nothing => rest
    case Text(s) => [Str(s)] + rest
    case Assign(name, value) => [Str(name)] + ([Str(value)] + rest)
    case Flags(list) => PutStrings(list, rest)
    case FlagsOf(variable, list) => PutStrings(variable, PutStrings(list, rest))
  }

  function PutCommand(c: WCommand, rest: seq<Token>): seq<Token>
    decreases c, 0
  {
    match c
    case Requires(list) => [Ident("require")] + PutStrings(list, [Semicolon] + rest)
    case Conditional(arms, hasElse, otherwise) =>
      [Ident("if")] + PutArms(arms, if hasElse then [Ident("else")] + ([LBrace] + PutBody(otherwise, rest)) else rest)
    case Plainly(name, _, args, tail) => [Ident(name)] + PutArguments(args, PutTail(tail, [Semicolon] + rest))
  }

  /** Tests with their blocks, joined by `elsif`. */
  function PutArms(arms: seq<Arm>, rest: seq<Token>): seq<Token>
    decreases arms, 1
  {
    if arms == [] then rest
    else
      PutTest(arms[0].test, [LBrace] + PutBody(arms[0].body, if |arms| == 1 then rest else [Ident("elsif")] + PutArms(arms[1..], rest)))
  }

  /** Commands and the brace that closes them. */
  function PutBody(cs: seq<WCommand>, rest: seq<Token>): seq<Token>
    decreases cs, 1
  {
    if cs == [] then [RBrace] + rest else PutCommand(cs[0], PutBody(cs[1..], rest))
  }

  /** The tokens of a whole program. */
  function PutProgram(cs: seq<WCommand>): seq<Token>
    decreases cs, 1
  {
    if cs == [] then [End] else PutCommand(cs[0], PutProgram(cs[1..]))
  }

  function BlankCommand(kind: CommandKind): Command {
    Command(kind, [], "", false, false, "", [], [], false, [], "", "", "", [], 0, false)
  }

  /** Flags named after a variable replace those of a `:flags` argument, others add to them. */
  function WithTail(c: Command, tail: Tail): Command {
    match tail
    case Nothing => c
    case Text(s) => c.(argument := s)
    case Assign(name, value) => c.(varName := name, argument := value)
    case Flags(list) => c.(flags := c.flags + Listed(list), hasFlags := true)
    case FlagsOf(_, list) => c.(flags := Listed(list), hasFlags := true)
  }

  /** The command that is written. */
  function CommandMeant(c: WCommand): Command {
    match c
    case Requires(list) => BlankCommand(Require).(capabilities := Listed(list))
    case Conditional(arms, hasElse, otherwise) =>
      BlankCommand(If).(branches := ArmsMeant(arms) + (if hasElse then [Branch(None, CommandsMeant(otherwise))] else []))
    case Plainly(_, kind, args, tail) => WithTail(WithArguments(BlankCommand(kind), args), tail)
  }

  function ArmsMeant(arms: seq<Arm>): seq<Branch> {
    if arms == [] then [] else [Branch(Some(TestMeant(arms[0].test)), CommandsMeant(arms[0].body))] + ArmsMeant(arms[1..])
  }

  function CommandsMeant(cs: seq<WCommand>): seq<Command> {
    if cs == [] then [] else [CommandMeant(cs[0])] + CommandsMeant(cs[1..])
  }
}
