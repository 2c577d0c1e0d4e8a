/** JSON values, their text, and the grammar of the bounded parser of core/src/json.cpp, as functions that the
    serializer and the parser object are proved against. Error messages are not modelled. */
module Json {
  import opened Text
  import opened Utf8

  /** An integer up to 2^53 in size is a value; any other number is kept as the text it came as. */
  datatype Value =
    | Null
    | Bool(b: bool)
    | Int(n: int)
    | Real(text: string)
    | Str(s: string)
    | Arr(items: seq<Value>)
    | Obj(members: seq<Member>)

  datatype Member = Member(name: string, value: Value)

  datatype Limits = Limits(maxDepth: nat, maxNodes: nat, maxString: nat)

  const EXACT: int := 0x20_0000_0000_0000

  // ---- writing ------------------------------------------------------------

  function HexDigit(n: nat): char
    requires n < 16
  {
    if n < 10 then '0' + n as char else 'A' + (n - 10) as char
  }

  function EscapeJsonChar(c: char): string {
    if c == '"' then "\\\""
    else if c == '\\' then "\\\\"
    else if c == '\U{8}' then "\\b"
    else if c == '\U{c}' then "\\f"
    else if c == '\n' then "\\n"
    else if c == '\r' then "\\r"
    else if c == '\t' then "\\t"
    else if c < ' ' then "\\u00" + [HexDigit(c as int / 16), HexDigit(c as int % 16)]
    else [c]
  }

  function EscapeJson(s: string): string {
    if s == "" then "" else EscapeJsonChar(s[0]) + EscapeJson(s[1..])
  }

  function Quote(s: string): string {
    "\"" + (EscapeJson(s) + "\"")
  }

  function IntText(n: int): string {
    if n < 0 then "-" + Num(-n) else Num(n)
  }

  /** The serialized text; `show` prints the numbers that are not exact integers. */
  function ValueText(v: Value, show: string -> string): string {
    match v
    case Null => "null"
    case Bool(b) => if b then "true" else "false"
    case Int(n) => IntText(n)
    case Real(text) => show(text)
    case Str(s) => Quote(s)
    case Arr(items) => "[" + (ItemsText(items, show) + "]")
    case Obj(members) => "{" + (MembersText(members, show) + "}")
  }

  function ItemsText(items: seq<Value>, show: string -> string): string {
    if items == [] then ""
    else if |items| == 1 then ValueText(items[0], show)
    else ValueText(items[0], show) + ("," + ItemsText(items[1..], show))
  }

  function MembersText(members: seq<Member>, show: string -> string): string {
    if members == [] then ""
    else if |members| == 1 then Quote(members[0].name) + (":" + ValueText(members[0].value, show))
    else Quote(members[0].name) + (":" + (ValueText(members[0].value, show) + ("," + MembersText(members[1..], show))))
  }

  // ---- reading strings ----------------------------------------------------

  predicate IsBlankChar(c: char) {
    c == ' ' || c == '\t' || c == '\n' || c == '\r'
  }

  function SkipSpace(s: string): (r: string)
    ensures |r| <= |s|
  {
    if s != "" && IsBlankChar(s[0]) then SkipSpace(s[1..]) else s
  }

  function HexVal(c: char): (v: Option<nat>)
    ensures v.Some? ==> v.value < 16
  {
    if '0' <= c <= '9' then Some((c - '0') as nat)
    else if 'a' <= c <= 'f' then Some((c - 'a') as nat + 10)
    else if 'A' <= c <= 'F' then Some((c - 'A') as nat + 10)
    else None
  }

  function Hex4(s: string): (r: Option<(nat, string)>)
    ensures r.Some? ==> r.value.0 < 0x10000 && |s| == |r.value.1| + 4
  {
    if |s| < 4 then None
    else if HexVal(s[0]).None? || HexVal(s[1]).None? || HexVal(s[2]).None? || HexVal(s[3]).None? then None
    else Some((((HexVal(s[0]).value * 16 + HexVal(s[1]).value) * 16 + HexVal(s[2]).value) * 16 + HexVal(s[3]).value, s[4..]))
  }

  predicate HighSurrogate(cp: nat) {
    0xD800 <= cp <= 0xDBFF
  }

  predicate LowSurrogate(cp: nat) {
    0xDC00 <= cp <= 0xDFFF
  }

  /** The bytes of a `\u` escape, after the `u`; a high surrogate takes its low half along. */
  function UnicodeAt(s: string): (r: Option<(string, string)>)
    ensures r.Some? ==> |r.value.1| < |s| && |r.value.0| <= 4
  {
    match Hex4(s)
    case None => None
    case Some((cp, rest)) =>
      if HighSurrogate(cp) then
        if |rest| < 2 || rest[0] != '\\' || rest[1] != 'u' then None
        else
          match Hex4(rest[2..])
          case None => None
          case Some((lo, rest')) =>
            if !LowSurrogate(lo) then None else Some((Encode(0x10000 + (cp - 0xD800) * 1024 + (lo - 0xDC00)), rest'))
      else if LowSurrogate(cp) then None
      else Some((Encode(cp), rest))
  }

  /** The bytes of an escape, after its backslash. */
  function EscapeAt(s: string): (r: Option<(string, string)>)
    ensures r.Some? ==> |r.value.1| < |s| && |r.value.0| <= 4
  {
    if s == "" then None
    else if s[0] == '"' || s[0] == '\\' || s[0] == '/' then Some(([s[0]], s[1..]))
    else if s[0] == 'b' then Some((['\U{8}'], s[1..]))
    else if s[0] == 'f' then Some((['\U{c}'], s[1..]))
    else if s[0] == 'n' then Some((['\n'], s[1..]))
    else if s[0] == 'r' then Some((['\r'], s[1..]))
    else if s[0] == 't' then Some((['\t'], s[1..]))
    else if s[0] == 'u' then UnicodeAt(s[1..])
    else None
  }

  function Prefixed(bytes: string, r: Option<(string, string)>): Option<(string, string)> {
    match r
    case None => None
    case Some((more, rest)) => Some((bytes + more, rest))
  }

  /** The contents of a string and what follows its closing quote; `size` bytes have been read. */
  function CharsAt(s: string, size: nat, lim: Limits): (r: Option<(string, string)>)
    ensures r.Some? ==> |r.value.1| < |s|
    decreases |s|
  {
    if s == "" then None
    else if s[0] == '"' then Some(("", s[1..]))
    else if size > lim.maxString || s[0] < ' ' then None
    else if s[0] != '\\' then Prefixed([s[0]], CharsAt(s[1..], size + 1, lim))
    else
      match EscapeAt(s[1..])
      case None => None
      case Some((bytes, rest)) => Prefixed(bytes, CharsAt(rest, size + |bytes|, lim))
  }

  /** A string, after its opening quote. */
  function StringAt(s: string, lim: Limits): (r: Option<(string, string)>)
    ensures r.Some? ==> |r.value.1| < |s|
  {
    match CharsAt(s, 0, lim)
    case None => None
    case Some((v, rest)) => if Valid(v) then Some((v, rest)) else None
  }

  // ---- reading numbers ----------------------------------------------------

  /** What follows an optional fraction; None when the point has no digits after it. */
  function FractionAt(s: string): (r: Option<string>)
    ensures r.Some? ==> |r.value| <= |s|
  {
    if s == "" || s[0] != '.' then Some(s)
    else if DigitRun(s[1..]) == 0 then None
    else Some(s[1 + DigitRun(s[1..])..])
  }

  function AfterSign(s: string): (r: string)
    ensures |r| <= |s|
  {
    if s != "" && (s[0] == '+' || s[0] == '-') then s[1..] else s
  }

  function ExponentAt(s: string): (r: Option<string>)
    ensures r.Some? ==> |r.value| <= |s|
  {
    if s == "" || (s[0] != 'e' && s[0] != 'E') then Some(s)
    else
      var t := AfterSign(s[1..]);
      if DigitRun(t) == 0 then None else Some(t[DigitRun(t)..])
  }

  /** How many digits the integer part has: one when it begins with zero. */
  function WholeDigits(t: string): (n: nat)
    ensures n <= |t|
  {
    if t == "" then 0 else if t[0] == '0' then 1 else if '1' <= t[0] <= '9' then DigitRun(t) else 0
  }

  function NumberValue(negative: bool, digits: string, integral: bool, text: string): Value {
    var n: int := DecValue(digits);
    if integral && n <= EXACT then Int(if negative then -n else n) else Real(text)
  }

  function NumberAt(s: string): (r: Option<(Value, string)>)
    ensures r.Some? ==> |r.value.1| < |s|
  {
    var negative := s != "" && s[0] == '-';
    var t := if negative then s[1..] else s;
    var n := WholeDigits(t);
    if n == 0 then None
    else
      match FractionAt(t[n..])
      case None => None
      case Some(u) =>
        match ExponentAt(u)
        case None => None
        case Some(rest) => Some((NumberValue(negative, t[..n], rest == t[n..], s[..|s| - |rest|]), rest))
  }

  // ---- reading values -----------------------------------------------------

  /** A value, what follows it, and how many values have been read in all. */
  type Parse<T> = Option<(T, string, nat)>

  function LiteralAt(word: string, v: Value, s: string, nodes: nat): (r: Parse<Value>)
    requires word != ""
    ensures r.Some? ==> |r.value.1| < |s|
  {
    if word <= s then Some((v, s[|word|..], nodes)) else None
  }

  function ValueAt(s: string, depth: nat, nodes: nat, lim: Limits): (r: Parse<Value>)
    ensures r.Some? ==> |r.value.1| < |s|
    decreases |s|, 2
  {
    if depth > lim.maxDepth || nodes + 1 > lim.maxNodes || s == "" then None
    else if s[0] == '{' then ObjectAt(s[1..], depth, nodes + 1, lim)
    else if s[0] == '[' then ArrayAt(s[1..], depth, nodes + 1, lim)
    else if s[0] == '"' then
      match StringAt(s[1..], lim)
      case None => None
      case Some((v, rest)) => Some((Str(v), rest, nodes + 1))
    else if s[0] == 't' then LiteralAt("true", Bool(true), s, nodes + 1)
    else if s[0] == 'f' then LiteralAt("false", Bool(false), s, nodes + 1)
    else if s[0] == 'n' then LiteralAt("null", Null, s, nodes + 1)
    else
      match NumberAt(s)
      case None => None
      case Some((v, rest)) => Some((v, rest, nodes + 1))
  }

  /** An array, after its opening bracket. */
  function ArrayAt(s: string, depth: nat, nodes: nat, lim: Limits): (r: Parse<Value>)
    ensures r.Some? ==> |r.value.1| < |s|
    decreases |s|, 4
  {
    var t := SkipSpace(s);
    if t != "" && t[0] == ']' then Some((Arr([]), t[1..], nodes))
    else
      match ItemsAt(t, depth, nodes, lim)
      case None => None
      case Some((items, rest, nodes')) => Some((Arr(items), rest, nodes'))
  }

  function ItemsAt(s: string, depth: nat, nodes: nat, lim: Limits): (r: Parse<seq<Value>>)
    ensures r.Some? ==> |r.value.1| < |s|
    decreases |s|, 3
  {
    match ValueAt(SkipSpace(s), depth + 1, nodes, lim)
    case None => None
    case Some((item, rest, nodes')) =>
      var t := SkipSpace(rest);
      if t != "" && t[0] == ',' then
        match ItemsAt(t[1..], depth, nodes', lim)
        case None => None
        case Some((more, rest', nodes'')) => Some(([item] + more, rest', nodes''))
      else if t != "" && t[0] == ']' then Some(([item], t[1..], nodes'))
      else None
  }

  /** An object, after its opening brace. */
  function ObjectAt(s: string, depth: nat, nodes: nat, lim: Limits): (r: Parse<Value>)
    ensures r.Some? ==> |r.value.1| < |s|
    decreases |s|, 4
  {
    var t := SkipSpace(s);
    if t != "" && t[0] == '}' then Some((Obj([]), t[1..], nodes))
    else
      match MembersAt(t, depth, nodes, lim)
      case None => None
      case Some((members, rest, nodes')) => Some((Obj(members), rest, nodes'))
  }

  /** A member name and what follows its colon. */
  function NameAt(s: string, lim: Limits): (r: Option<(string, string)>)
    ensures r.Some? ==> |r.value.1| < |s|
  {
    var t := SkipSpace(s);
    if t == "" || t[0] != '"' then None
    else
      match StringAt(t[1..], lim)
      case None => None
      case Some((name, rest)) =>
        var u := SkipSpace(rest);
        if u == "" || u[0] != ':' then None else Some((name, u[1..]))
  }

  /** A member, from white space before its name on. */
  function MemberAt(s: string, depth: nat, nodes: nat, lim: Limits): (r: Parse<Member>)
    ensures r.Some? ==> |r.value.1| < |s|
    decreases |s|, 2
  {
    match NameAt(s, lim)
    case None => None
    case Some((name, after)) =>
      match ValueAt(SkipSpace(after), depth + 1, nodes, lim)
      case None => None
      case Some((value, rest, nodes')) => Some((Member(name, value), rest, nodes'))
  }

  function MembersAt(s: string, depth: nat, nodes: nat, lim: Limits): (r: Parse<seq<Member>>)
    ensures r.Some? ==> |r.value.1| < |s|
    decreases |s|, 3
  {
    match MemberAt(s, depth, nodes, lim)
    case None => None
    case Some((member, rest, nodes')) =>
      var t := SkipSpace(rest);
      if t != "" && t[0] == ',' then
        match MembersAt(t[1..], depth, nodes', lim)
        case None => None
        case Some((more, rest', nodes'')) => Some(([member] + more, rest', nodes''))
      else if t != "" && t[0] == '}' then Some(([member], t[1..], nodes'))
      else None
  }

  /** A complete document. */
  function DocumentOf(s: string, lim: Limits): Option<Value> {
    match ValueAt(SkipSpace(s), 0, 0, lim)
    case None => None
    case Some((v, rest, _)) => if SkipSpace(rest) == "" then Some(v) else None
  }
}
