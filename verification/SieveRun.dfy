/** Running Sieve scripts, as core/src/sieve.cpp does: what each command does to the state of a run, blocks and
    branches, and what becomes of the message in the end. Actions are those of the rule view. */
module SieveRun {
  import opened Text
  import opened SieveVariables
  import opened SieveTests
  import P = SieveParse
  import R = SieveRules

  type Action = R.Action

  /** What a run has come to: the flags that are set, the actions taken, whether the implicit keep is cancelled and
      whether the script has stopped. */
  datatype Run = Run(vars: Variables, flags: seq<string>, actions: seq<Action>, cancelled: bool, stopped: bool)

  // ---- flags (RFC 5232) ---------------------------------------------------

  const SYSTEM_FLAGS := ["\\Seen", "\\Answered", "\\Flagged", "\\Deleted", "\\Draft"]

  /** System flags have one spelling. */
  function CanonicalFlag(flag: string): string {
    SpelledAs(flag, SYSTEM_FLAGS)
  }

  function SpelledAs(flag: string, known: seq<string>): string {
    if known == [] then flag else if ToLower(flag) == ToLower(known[0]) then known[0] else SpelledAs(flag, known[1..])
  }

  function FlagAdded(flags: seq<string>, flag: string): seq<string> {
    if CanonicalFlag(flag) in flags then flags else flags + [CanonicalFlag(flag)]
  }

  function FlagsAdded(flags: seq<string>, more: seq<string>): seq<string>
    decreases |more|
  {
    if more == [] then flags else FlagsAdded(FlagAdded(flags, more[0]), more[1..])
  }

  function Without(flags: seq<string>, flag: string): seq<string> {
    if flags == [] then [] else (if flags[0] == flag then [] else [flags[0]]) + Without(flags[1..], flag)
  }

  function FlagsRemoved(flags: seq<string>, fewer: seq<string>): seq<string>
    decreases |fewer|
  {
    if fewer == [] then flags else FlagsRemoved(Without(flags, CanonicalFlag(fewer[0])), fewer[1..])
  }

  /** The flags of a list, whose texts may hold several each. */
  function FlagsIn(list: seq<string>, vars: Variables): seq<string> {
    R.SplitFlags(ExpandedAll(list, vars))
  }

  /** The flags of an action: those given with it, or those that are set. */
  function FlagsFor(c: P.Command, run: Run): seq<string> {
    FlagsAdded([], if c.hasFlags then FlagsIn(c.flags, run.vars) else run.flags)
  }

  // ---- set (RFC 5229) -----------------------------------------------------

  function Quoted(s: string): string {
    if s == "" then "" else (if s[0] in "*?\\" then ['\\', s[0]] else [s[0]]) + Quoted(s[1..])
  }

  function UpperChar(c: char): char {
    if 'a' <= c <= 'z' then (c as int - 32) as char else c
  }

  function ToUpper(s: string): (r: string)
    ensures |r| == |s|
  {
    if s == "" then "" else [UpperChar(s[0])] + ToUpper(s[1..])
  }

  /** Modifiers apply in the order of their precedence, whatever the order they are written in. */
  function Modified(value: string, modifiers: seq<string>): string {
    var quoted := if "quotewildcard" in modifiers then Quoted(value) else value;
    if "length" in modifiers then Num(|quoted|)
    else
      var cased := if "lower" in modifiers then ToLower(quoted) else if "upper" in modifiers then ToUpper(quoted) else quoted;
      if cased == "" then ""
      else if "lowerfirst" in modifiers then [LowerChar(cased[0])] + cased[1..]
      else if "upperfirst" in modifiers then [UpperChar(cased[0])] + cased[1..]
      else cased
  }

  // ---- vacation (RFC 5230) ------------------------------------------------

  function BeforeChar(s: string, c: char): string {
    s[..IndexOf(s, c, 0)]
  }

  predicate EndsWith(s: string, suffix: string) {
    |s| > |suffix| && s[|s| - |suffix|..] == suffix
  }

  predicate StartsWith(s: string, prefix: string) {
    |s| > |prefix| && s[..|prefix|] == prefix
  }

  /** The local parts of robots, and of the addresses of mailing lists. */
  predicate Automated(local: string) {
    || local in ["mailer-daemon", "postmaster", "listserv", "majordomo"]
    || EndsWith(local, "-request") || EndsWith(local, "-bounces") || EndsWith(local, "-confirm")
    || StartsWith(local, "owner-") || StartsWith(local, "bounce-")
  }

  predicate AutoSubmitted(mail: Mail) {
    exists v :: v in HeaderValues(mail.headers, "Auto-Submitted") && ToLower(TrimSpace(BeforeChar(v, ';'))) != "no"
  }

  predicate Bulk(mail: Mail) {
    exists v :: v in HeaderValues(mail.headers, "Precedence") && ToLower(TrimSpace(v)) in ["bulk", "list", "junk"]
  }

  const LIST_HEADERS := ["List-Id", "List-Help", "List-Unsubscribe", "List-Post", "List-Subscribe", "List-Owner", "List-Archive"]

  predicate FromList(mail: Mail) {
    exists h :: h in LIST_HEADERS && HeaderValues(mail.headers, h) != []
  }

  /** The addresses that are the user's own, in lower case. */
  function Mine(mail: Mail, addresses: seq<string>): seq<string> {
    [ToLower(TrimSpace(mail.rcptTo))] + Lowered(addresses)
  }

  function Lowered(names: seq<string>): (r: seq<string>)
    ensures |r| == |names|
  {
    if names == [] then [] else [ToLower(TrimSpace(names[0]))] + Lowered(names[1..])
  }

  const RECIPIENT_HEADERS := ["To", "Cc", "Bcc", "Resent-To", "Resent-Cc"]

  /** Some header of recipients names the address. */
  predicate Visible(mail: Mail, me: string) {
    exists h, v, a :: h in RECIPIENT_HEADERS && v in HeaderValues(mail.headers, h) && a in mail.addresses(v) && a != "" && ToLower(a) == me
  }

  /** An automatic reply is warranted: by a message from somebody else, that nothing generated and no list sent, to
      an address of the user that it names. */
  predicate Warranted(mail: Mail, addresses: seq<string>) {
    var sender := ToLower(TrimSpace(mail.mailFrom));
    && TrimSpace(mail.mailFrom) != ""
    && !AutoSubmitted(mail) && !Bulk(mail) && !FromList(mail)
    && (forall m :: m in Mine(mail, addresses) ==> m == "" || m != sender)
    && !Automated(BeforeChar(sender, '@'))
    && exists m :: m in Mine(mail, addresses) && m != "" && Visible(mail, m)
  }

  predicate Replies(actions: seq<Action>) {
    exists i :: 0 <= i < |actions| && actions[i].Vacation?
  }

  function Days(days: nat): nat {
    if days > 0 then Min(days, 365) else 7
  }

  function Reply(c: P.Command, vars: Variables): Action {
    R.Vacation(R.VacationSpec(Expanded(c.vacSubject, vars), Expanded(c.vacFrom, vars), Expanded(c.vacHandle, vars),
                              ExpandedAll(c.vacAddresses, vars), Days(c.vacDays), c.vacMime),
               Expanded(c.argument, vars))
  }

  // ---- running ------------------------------------------------------------

  /** The run with one more action. */
  function Acted(run: Run, a: Action, cancels: bool): Run {
    run.(actions := run.actions + [a], cancelled := run.cancelled || cancels)
  }

  /** What a command does that holds no others. */
  function Done(c: P.Command, mail: Mail, run: Run): Run {
    match c.kind
    case Stop => run.(stopped := true)
    case Keep => Acted(run, R.Keep(FlagsFor(c, run)), true)
    case Discard => run.(cancelled := true)
    case FileInto => Acted(run, R.FileInto(Expanded(c.argument, run.vars), c.create, FlagsFor(c, run)), !c.copy)
    case Redirect => Acted(run, R.Redirect(Expanded(c.argument, run.vars)), !c.copy)
    case Reject => Acted(run, R.Reject(Expanded(c.argument, run.vars)), true).(stopped := true)
    case Set => run.(vars := Assigned(run.vars, c.varName, Modified(Expanded(c.argument, run.vars), c.modifiers)))
    case SetFlag => run.(flags := FlagsAdded([], FlagsIn(c.flags, run.vars)))
    case AddFlag => run.(flags := FlagsAdded(run.flags, FlagsIn(c.flags, run.vars)))
    case RemoveFlag => run.(flags := FlagsRemoved(run.flags, FlagsIn(c.flags, run.vars)))
    case Vacation =>
      if Replies(run.actions) || !Warranted(mail, ExpandedAll(c.vacAddresses, run.vars)) then run
      else Acted(run, Reply(c, run.vars), false)
    case _ => run
  }

  /** The commands of a block in order, until the script stops. */
  function Ran(cs: seq<P.Command>, mail: Mail, run: Run): Run
    decreases cs
  {
    if cs == [] || run.stopped then run
    else Ran(cs[1..], mail, if cs[0].kind == P.If then RanBranch(cs[0].branches, mail, run) else Done(cs[0], mail, run))
  }

  /** The first branch whose test holds, or the one without a test. */
  function RanBranch(bs: seq<P.Branch>, mail: Mail, run: Run): Run
    decreases bs
  {
    if bs == [] then run
    else if bs[0].test.None? then Ran(bs[0].body, mail, run)
    else
      var r := Evaluated(bs[0].test.value, mail, run.flags, run.vars);
      if r.0 then Ran(bs[0].body, mail, run.(vars := r.1)) else RanBranch(bs[1..], mail, run.(vars := r.1))
  }

  function Start(enabled: bool): Run {
    Run(Variables(map[], [], enabled), [], [], false, false)
  }

  function FirstReject(actions: seq<Action>): Option<Action> {
    if actions == [] then None else if actions[0].Reject? then Some(actions[0]) else FirstReject(actions[1..])
  }

  /** What becomes of the message: a rejection stands alone, and what nothing cancelled is kept. */
  function Concluded(run: Run): seq<Action> {
    if FirstReject(run.actions).Some? then [FirstReject(run.actions).value]
    else if !run.cancelled then run.actions + [R.Keep([])]
    else if run.actions == [] then [R.Discard]
    else run.actions
  }

  function ProgramResult(p: seq<P.Command>, mail: Mail): seq<Action> {
    Concluded(Ran(p, mail, Start(R.Requires(p, "variables"))))
  }

  /** A script that is blank or cannot be read keeps the message. */
  function Result(script: string, mail: Mail): seq<Action> {
    if TrimSpace(script) == "" || P.Program(script).None? then [R.Keep([])]
    else ProgramResult(P.Program(script).value, mail)
  }
}
