/** The tests of Sieve scripts as core/src/sieve.cpp evaluates them against a message: values and keys, address parts,
    and every kind of test, with the captures that a successful match leaves behind. */
module SieveTests {
  import opened Text
  import opened SieveParse
  import opened SieveVariables
  import G = Glob

  /** A message as the evaluator sees it. `addresses` lists the addresses in the value of a header. */
  datatype Mail = Mail(headers: seq<(string, string)>, raw: string, mailFrom: string, rcptTo: string, separator: string,
                       addresses: string -> seq<string>)

  // ---- matching -----------------------------------------------------------

  predicate StandsAt(s: string, part: string, i: nat) {
    i + |part| <= |s| && s[i..i + |part|] == part
  }

  predicate Includes(s: string, part: string) {
    exists i :: 0 <= i <= |s| && StandsAt(s, part, i)
  }

  predicate Folds(comparator: string) {
    comparator != "i;octet"
  }

  /** The captures of a match of the whole value, which only `:matches` has; None without a match. */
  function MatchOne(value: string, key: string, matchType: string, comparator: string): Option<seq<string>> {
    var fold := Folds(comparator);
    if matchType == "matches" then
      var r := G.Best(G.Items(key), value, fold);
      if r.Some? && 1 + G.Calls(G.Items(key), value, fold) <= G.MAX_STEPS then Some([value] + r.value) else None
    else
      var v, k := if fold then ToLower(value) else value, if fold then ToLower(key) else key;
      if (if matchType == "contains" then Includes(v, k) else v == k) then Some([]) else None
  }

  /** The outcome of a test, and the variables after it. */
  type Outcome = (bool, Variables)

  function MatchKeys(value: string, keys: seq<string>, matchType: string, comparator: string, vars: Variables): Outcome {
    if keys == [] then (false, vars)
    else
      match MatchOne(value, Expanded(keys[0], vars), matchType, comparator)
      case Some(caps) => (true, if vars.enabled && matchType == "matches" then vars.(captures := caps) else vars)
      case None => MatchKeys(value, keys[1..], matchType, comparator, vars)
  }

  /** The first value that matches a key decides. */
  function MatchAny(values: seq<string>, keys: seq<string>, matchType: string, comparator: string, vars: Variables): Outcome {
    if values == [] then (false, vars)
    else
      var first := MatchKeys(values[0], keys, matchType, comparator, vars);
      if first.0 then first else MatchAny(values[1..], keys, matchType, comparator, vars)
  }

  // ---- values -------------------------------------------------------------

  /** The values of the headers of a name. */
  function HeaderValues(headers: seq<(string, string)>, name: string): seq<string> {
    if headers == [] then []
    else (if ToLower(TrimSpace(headers[0].0)) == ToLower(TrimSpace(name)) then [TrimSpace(headers[0].1)] else []) +
         HeaderValues(headers[1..], name)
  }

  function ValuesOfAll(headers: seq<(string, string)>, names: seq<string>, vars: Variables): seq<string> {
    if names == [] then [] else HeaderValues(headers, Expanded(names[0], vars)) + ValuesOfAll(headers, names[1..], vars)
  }

  /** A part of an address; None for the detail of an address that has none (RFC 5233). */
  function AddressPart(addr: string, part: string, separator: string): Option<string> {
    var at := LastOf(addr, '@');
    var local := if at.None? then addr else addr[..at.value];
    var cut := if separator == "" then None else FindText(local, separator, 0);
    if part == "localpart" then Some(local)
    else if part == "domain" then Some(if at.None? then "" else addr[at.value + 1..])
    else if part == "user" then Some(if cut.None? then local else local[..cut.value])
    else if part == "detail" then if cut.None? then None else Some(local[cut.value + |separator|..])
    else Some(addr)
  }

  function PartsOf(addrs: seq<string>, part: string): seq<string> {
    if addrs == [] then []
    else
      var p := if addrs[0] == "" then None else AddressPart(addrs[0], part, "+");
      (if p.Some? then [p.value] else []) + PartsOf(addrs[1..], part)
  }

  function PartsInAll(mail: Mail, values: seq<string>, part: string): seq<string> {
    if values == [] then [] else PartsOf(mail.addresses(values[0]), part) + PartsInAll(mail, values[1..], part)
  }

  function AddressesOfAll(mail: Mail, names: seq<string>, part: string, vars: Variables): seq<string> {
    if names == [] then []
    else PartsInAll(mail, HeaderValues(mail.headers, Expanded(names[0], vars)), part) + AddressesOfAll(mail, names[1..], part, vars)
  }

  /** The parts of the transaction that the names name. */
  function EnvelopeValues(mail: Mail, names: seq<string>, part: string): seq<string> {
    if names == [] then []
    else
      var name := ToLower(TrimSpace(names[0]));
      var p := if name == "from" then AddressPart(mail.mailFrom, part, mail.separator)
               else if name == "to" then AddressPart(mail.rcptTo, part, mail.separator)
               else None;
      (if p.Some? then [p.value] else []) + EnvelopeValues(mail, names[1..], part)
  }

  /** What follows the empty line after the headers. */
  function BodyOf(raw: string): string {
    match FindText(raw, "\r\n\r\n", 0)
    case Some(i) => raw[i + 4..]
    case None =>
      match FindText(raw, "\n\n", 0)
      case Some(i) => raw[i + 2..]
      case None => ""
  }

  predicate AllPresent(headers: seq<(string, string)>, names: seq<string>, vars: Variables) {
    names == [] || (HeaderValues(headers, Expanded(names[0], vars)) != [] && AllPresent(headers, names[1..], vars))
  }

  // ---- tests --------------------------------------------------------------

  /** A test against a message, with the flags that have been set. */
  function Evaluated(t: Test, mail: Mail, flags: seq<string>, vars: Variables): Outcome
    decreases t
  {
    match t.kind
    case Always => (true, vars)
    case Never => (false, vars)
    case Not =>
      if t.children == [] then (false, vars)
      else
        var r := Evaluated(t.children[0], mail, flags, vars);
        (!r.0, r.1)
    case AnyOf => FirstOf(t.children, true, mail, flags, vars)
    case AllOf => FirstOf(t.children, false, mail, flags, vars)
    case Exists => (AllPresent(mail.headers, t.names, vars), vars)
    case Size => (if t.sizeRelation == "over" then |mail.raw| > t.sizeLimit else |mail.raw| < t.sizeLimit, vars)
    case Header => MatchAny(ValuesOfAll(mail.headers, t.names, vars), t.keys, t.matchType, t.comparator, vars)
    case Address => MatchAny(AddressesOfAll(mail, t.names, t.addressPart, vars), t.keys, t.matchType, t.comparator, vars)
    case Envelope => MatchAny(EnvelopeValues(mail, t.names, t.addressPart), t.keys, t.matchType, t.comparator, vars)
    case Body => MatchAny([BodyOf(mail.raw)], t.keys, if t.matchType == "is" then "contains" else t.matchType, t.comparator, vars)
    case StringTest => MatchAny(ExpandedAll(t.names, vars), t.keys, t.matchType, t.comparator, vars)
    case HasFlag => MatchAny(flags, t.keys, t.matchType, t.comparator, vars)
  }

  /** Tests in order up to the first with this outcome; the other outcome when there is none. */
  function FirstOf(ts: seq<Test>, outcome: bool, mail: Mail, flags: seq<string>, vars: Variables): Outcome
    decreases ts
  {
    if ts == [] then (!outcome, vars)
    else
      var r := Evaluated(ts[0], mail, flags, vars);
      if r.0 == outcome then r else FirstOf(ts[1..], outcome, mail, flags, r.1)
  }
}
