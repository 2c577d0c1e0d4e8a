/** The runner object of core/src/sieve.cpp: its tests, its flags and variables, its walk over the commands, and the
    evaluation of a script, each proved against the functions that say what they do. */
module SieveRunner {
  import opened Text
  import opened SieveVariables
  import opened SieveTests
  import opened SieveRun
  import P = SieveParse
  import R = SieveRules
  import G = Glob
  import SieveParser

  // ---- values -------------------------------------------------------------

  method ValuesOf(headers: seq<(string, string)>, name: string) returns (out: seq<string>)
    ensures out == HeaderValues(headers, name)
  {
    hide ToLower, TrimSpace;
    out := [];
    var want := ToLower(TrimSpace(name));
    assert headers[0..] == headers && [] + HeaderValues(headers, name) == HeaderValues(headers, name);
    for i := 0 to |headers|
      invariant out + HeaderValues(headers[i..], name) == HeaderValues(headers, name)
    {
      assert headers[i..][0] == headers[i] && headers[i..][1..] == headers[i + 1..];
      var h := headers[i];
      Assoc(out, [TrimSpace(h.1)], HeaderValues(headers[i + 1..], name));
      assert [] + HeaderValues(headers[i + 1..], name) == HeaderValues(headers[i + 1..], name);
      if ToLower(TrimSpace(h.0)) == want {
        out := out + [TrimSpace(h.1)];
      }
    }
    assert headers[|headers|..] == [] && out + [] == out;
  }

  method MatchValue(value: string, key: string, matchType: string, comparator: string, wantCaps: bool)
      returns (ok: bool, caps: seq<string>)
    ensures ok == MatchOne(value, key, matchType, comparator).Some?
    ensures ok && wantCaps ==> caps == MatchOne(value, key, matchType, comparator).value
  {
    hide G.Best, G.Calls, G.Items, Includes;
    caps := [];
    var fold := Folds(comparator);
    if matchType == "matches" {
      var found: Option<seq<string>>;
      ok, found := G.GlobMatch(value, key, fold, wantCaps);
      if found.Some? {
        caps := found.value;
      }
      return;
    }
    var v, k := if fold then ToLower(value) else value, if fold then ToLower(key) else key;
    ok := if matchType == "contains" then Includes(v, k) else v == k;
  }

  method PartsOfList(addrs: seq<string>, part: string) returns (out: seq<string>)
    ensures out == PartsOf(addrs, part)
  {
    hide AddressPart;
    out := [];
    assert addrs[0..] == addrs && [] + PartsOf(addrs, part) == PartsOf(addrs, part);
    for i := 0 to |addrs|
      invariant out + PartsOf(addrs[i..], part) == PartsOf(addrs, part)
    {
      assert addrs[i..][0] == addrs[i] && addrs[i..][1..] == addrs[i + 1..];
      assert [] + PartsOf(addrs[i + 1..], part) == PartsOf(addrs[i + 1..], part);
      if addrs[i] != "" {
        var p := AddressPart(addrs[i], part, "+");
        if p.Some? {
          Assoc(out, [p.value], PartsOf(addrs[i + 1..], part));
          out := out + [p.value];
        }
      }
    }
    assert addrs[|addrs|..] == [] && out + [] == out;
  }

  method Split(list: seq<string>, vars: Variables) returns (out: seq<string>)
    ensures out == FlagsIn(list, vars)
  {
    hide R.Words;
    out := [];
    var all := ExpandAll(list, vars);
    assert all[0..] == all && [] + R.SplitFlags(all) == R.SplitFlags(all);
    for i := 0 to |all|
      invariant out + R.SplitFlags(all[i..]) == R.SplitFlags(all)
    {
      assert all[i..][0] == all[i] && all[i..][1..] == all[i + 1..];
      var words := WordsOf(all[i]);
      Assoc(out, words, R.SplitFlags(all[i + 1..]));
      out := out + words;
    }
    assert all[|all|..] == [] && out + [] == out;
  }

  /** The words of a text, skipping white space in front of each. */
  method WordsOf(s: string) returns (out: seq<string>)
    ensures out == R.Words(s)
  {
    hide R.WordsAfter;
    out := [];
    var i := 0;
    assert s[0..] == s && [] + R.WordsAfter("", s) == R.WordsAfter("", s);
    while i < |s|
      invariant i <= |s| && out + R.WordsAfter("", s[i..]) == R.WordsAfter("", s)
    {
      ghost var begun := i;
      while i < |s| && IsSpace(s[i])
        invariant begun <= i <= |s| && R.WordsAfter("", s[i..]) == R.WordsAfter("", s[begun..])
      {
        WordStep("", s, i);
        i := i + 1;
      }
      var start := i;
      assert s[start..i] == "";
      while i < |s| && !IsSpace(s[i])
        invariant start <= i <= |s| && R.WordsAfter(s[start..i], s[i..]) == R.WordsAfter("", s[begun..])
      {
        WordStep(s[start..i], s, i);
        assert s[start..i] + [s[i]] == s[start..i + 1];
        i := i + 1;
      }
      WordEnds(s[start..i], s, i);
      if i > start {
        Assoc(out, [s[start..i]], R.WordsAfter("", s[i..]));
        out := out + [s[start..i]];
      } else {
        assert s[start..i] == "";
      }
    }
    WordEnds("", s, i);
    assert s[|s|..] == "" && out + [] == out;
  }

  lemma WordStep(word: string, s: string, i: nat)
    requires i < |s| && (word == "" || !IsSpace(s[i]))
    ensures R.WordsAfter(word, s[i..]) == R.WordsAfter(if IsSpace(s[i]) then "" else word + [s[i]], s[i + 1..])
  {
    Tail(s, i);
    assert [] + R.WordsAfter("", s[i + 1..]) == R.WordsAfter("", s[i + 1..]);
  }

  lemma WordEnds(word: string, s: string, i: nat)
    requires i <= |s| && (i < |s| ==> IsSpace(s[i]) || word == "")
    ensures R.WordsAfter(word, s[i..]) == (if word == "" then [] else [word]) + R.WordsAfter("", s[i..])
    ensures i == |s| ==> R.WordsAfter("", s[i..]) == []
  {
    if i < |s| {
      Tail(s, i);
    }
    assert [] + R.WordsAfter("", s[i..]) == R.WordsAfter("", s[i..]);
  }

  method AddFlags(flags: seq<string>, more: seq<string>) returns (out: seq<string>)
    ensures out == FlagsAdded(flags, more)
  {
    hide CanonicalFlag;
    out := flags;
    assert more[0..] == more;
    for i := 0 to |more|
      invariant FlagsAdded(out, more[i..]) == FlagsAdded(flags, more)
    {
      assert more[i..][0] == more[i] && more[i..][1..] == more[i + 1..];
      var f := Spelling(more[i]);
      if f !in out {
        out := out + [f];
      }
    }
  }

  method Spelling(flag: string) returns (r: string)
    ensures r == CanonicalFlag(flag)
  {
    hide ToLower;
    assert SYSTEM_FLAGS[0..] == SYSTEM_FLAGS;
    for i := 0 to |SYSTEM_FLAGS|
      invariant SpelledAs(flag, SYSTEM_FLAGS[i..]) == CanonicalFlag(flag)
    {
      assert SYSTEM_FLAGS[i..][0] == SYSTEM_FLAGS[i] && SYSTEM_FLAGS[i..][1..] == SYSTEM_FLAGS[i + 1..];
      if ToLower(flag) == ToLower(SYSTEM_FLAGS[i]) {
        return SYSTEM_FLAGS[i];
      }
    }
    r := flag;
  }

  method RemoveFlags(flags: seq<string>, fewer: seq<string>) returns (out: seq<string>)
    ensures out == FlagsRemoved(flags, fewer)
  {
    hide CanonicalFlag;
    out := flags;
    assert fewer[0..] == fewer;
    for i := 0 to |fewer|
      invariant FlagsRemoved(out, fewer[i..]) == FlagsRemoved(flags, fewer)
    {
      assert fewer[i..][0] == fewer[i] && fewer[i..][1..] == fewer[i + 1..];
      var f := Spelling(fewer[i]);
      out := Without(out, f);
    }
  }

  method QuoteWildcards(s: string) returns (out: string)
    ensures out == Quoted(s)
  {
    out := "";
    assert s[0..] == s && "" + Quoted(s) == Quoted(s);
    for i := 0 to |s|
      invariant out + Quoted(s[i..]) == Quoted(s)
    {
      Tail(s, i);
      Assoc(out, if s[i] in "*?\\" then ['\\', s[i]] else [s[i]], Quoted(s[i + 1..]));
      if s[i] == '*' || s[i] == '?' || s[i] == '\\' {
        out := out + ['\\'];
        assert (out[..|out| - 1] + ['\\']) + [s[i]] == out[..|out| - 1] + ['\\', s[i]];
      }
      out := out + [s[i]];
    }
    assert s[|s|..] == "" && out + "" == out;
  }

  method ApplyModifiers(value: string, modifiers: seq<string>) returns (r: string)
    ensures r == Modified(value, modifiers)
  {
    r := value;
    if "quotewildcard" in modifiers {
      r := QuoteWildcards(r);
    }
    if "length" in modifiers {
      return Num(|r|);
    }
    if "lower" in modifiers {
      r := ToLower(r);
    } else if "upper" in modifiers {
      r := ToUpper(r);
    }
    if r != "" {
      if "lowerfirst" in modifiers {
        r := [LowerChar(r[0])] + r[1..];
      } else if "upperfirst" in modifiers {
        r := [UpperChar(r[0])] + r[1..];
      }
    }
  }

  // ---- automatic replies --------------------------------------------------

  /** The addresses in a header, in lower case. */
  method CollectAddresses(mail: Mail, header: string, before: seq<string>) returns (out: seq<string>)
    ensures forall x :: x in out <==> x in before || NamedIn(mail, header, x)
  {
    hide ToLower;
    out := before;
    var values := ValuesOf(mail.headers, header);
    for i := 0 to |values|
      invariant forall x :: x in out <==> x in before || NamedInSome(mail, values[..i], x)
    {
      var addrs := mail.addresses(values[i]);
      ghost var was := out;
      for k := 0 to |addrs|
        invariant forall x :: x in out <==> x in was || NamedAmong(addrs[..k], x)
      {
        NamedMore(addrs, k);
        if addrs[k] != "" {
          out := out + [ToLower(addrs[k])];
        }
      }
      assert addrs[..|addrs|] == addrs;
      NamedInMore(mail, values, i);
    }
    assert values[..|values|] == values;
    NamedInAll(mail, header, values);
  }

  predicate NamedAmong(addrs: seq<string>, x: string) {
    exists a :: a in addrs && a != "" && ToLower(a) == x
  }

  predicate NamedInSome(mail: Mail, values: seq<string>, x: string) {
    exists v :: v in values && NamedAmong(mail.addresses(v), x)
  }

  predicate NamedIn(mail: Mail, header: string, x: string) {
    NamedInSome(mail, HeaderValues(mail.headers, header), x)
  }

  lemma NamedMore(addrs: seq<string>, k: nat)
    requires k < |addrs|
    ensures forall x :: NamedAmong(addrs[..k + 1], x) <==> NamedAmong(addrs[..k], x) || (addrs[k] != "" && ToLower(addrs[k]) == x)
  {
    hide ToLower;
    assert addrs[..k + 1] == addrs[..k] + [addrs[k]];
    forall x
      ensures NamedAmong(addrs[..k + 1], x) <==> NamedAmong(addrs[..k], x) || (addrs[k] != "" && ToLower(addrs[k]) == x)
    {
      if a :| a in addrs[..k] && a != "" && ToLower(a) == x {
        assert a in addrs[..k + 1];
      }
      assert addrs[k] in addrs[..k + 1];
    }
  }

  lemma NamedInMore(mail: Mail, values: seq<string>, i: nat)
    requires i < |values|
    ensures forall x :: NamedInSome(mail, values[..i + 1], x) <==> NamedInSome(mail, values[..i], x) || NamedAmong(mail.addresses(values[i]), x)
  {
    hide NamedAmong;
    assert values[..i + 1] == values[..i] + [values[i]];
    forall x
      ensures NamedInSome(mail, values[..i + 1], x) <==> NamedInSome(mail, values[..i], x) || NamedAmong(mail.addresses(values[i]), x)
    {
      if v :| v in values[..i] && NamedAmong(mail.addresses(v), x) {
        assert v in values[..i + 1];
      }
      assert values[i] in values[..i + 1];
    }
  }

  lemma NamedInAll(mail: Mail, header: string, values: seq<string>)
    requires values == HeaderValues(mail.headers, header)
    ensures forall x :: NamedInSome(mail, values, x) <==> NamedIn(mail, header, x)
  {
  }

  lemma VisibleIs(mail: Mail, me: string)
    ensures Visible(mail, me) <==> exists h :: h in RECIPIENT_HEADERS && NamedIn(mail, h, me)
  {
    hide HeaderValues, ToLower;
    if h, v, a :| h in RECIPIENT_HEADERS && v in HeaderValues(mail.headers, h) && a in mail.addresses(v) && a != "" && ToLower(a) == me {
      assert NamedAmong(mail.addresses(v), me);
      assert NamedIn(mail, h, me);
    }
    if h :| h in RECIPIENT_HEADERS && NamedIn(mail, h, me) {
      var v :| v in HeaderValues(mail.headers, h) && NamedAmong(mail.addresses(v), me);
      var a :| a in mail.addresses(v) && a != "" && ToLower(a) == me;
    }
  }

  /** The checks in their order; whichever refuses, no reply is sent. */
  method ReplyWarranted(mail: Mail, addresses: seq<string>) returns (b: bool)
    ensures b == Warranted(mail, addresses)
  {
    hide HeaderValues, ToLower, TrimSpace, Automated, NamedIn, Visible, LIST_HEADERS, RECIPIENT_HEADERS, Lowered;
    if TrimSpace(mail.mailFrom) == "" {
      return false;
    }
    var submitted := ValuesOf(mail.headers, "Auto-Submitted");
    for i := 0 to |submitted|
      invariant forall k :: 0 <= k < i ==> ToLower(TrimSpace(BeforeChar(submitted[k], ';'))) == "no"
    {
      if ToLower(TrimSpace(BeforeChar(submitted[i], ';'))) != "no" {
        assert submitted[i] in HeaderValues(mail.headers, "Auto-Submitted");
        return false;
      }
    }
    assert !AutoSubmitted(mail);
    var precedence := ValuesOf(mail.headers, "Precedence");
    for i := 0 to |precedence|
      invariant forall k :: 0 <= k < i ==> ToLower(TrimSpace(precedence[k])) !in ["bulk", "list", "junk"]
    {
      var p := ToLower(TrimSpace(precedence[i]));
      if p == "bulk" || p == "list" || p == "junk" {
        assert precedence[i] in HeaderValues(mail.headers, "Precedence");
        return false;
      }
    }
    assert !Bulk(mail);
    for i := 0 to |LIST_HEADERS|
      invariant forall k :: 0 <= k < i ==> HeaderValues(mail.headers, LIST_HEADERS[k]) == []
    {
      var values := ValuesOf(mail.headers, LIST_HEADERS[i]);
      if values != [] {
        assert LIST_HEADERS[i] in LIST_HEADERS;
        return false;
      }
    }
    assert !FromList(mail);
    var mine := OwnAddresses(mail, addresses);
    var sender := ToLower(TrimSpace(mail.mailFrom));
    for i := 0 to |mine|
      invariant forall k :: 0 <= k < i ==> mine[k] == "" || mine[k] != sender
    {
      if mine[i] != "" && mine[i] == sender {
        assert mine[i] in Mine(mail, addresses);
        return false;
      }
    }
    if Automated(BeforeChar(sender, '@')) {
      return false;
    }
    var recipients := Recipients(mail);
    for i := 0 to |mine|
      invariant forall k :: 0 <= k < i ==> mine[k] == "" || !Visible(mail, mine[k])
    {
      if mine[i] != "" && mine[i] in recipients {
        assert mine[i] in Mine(mail, addresses);
        return true;
      }
    }
    b := false;
  }

  method OwnAddresses(mail: Mail, addresses: seq<string>) returns (mine: seq<string>)
    ensures mine == Mine(mail, addresses)
  {
    hide ToLower, TrimSpace;
    mine := [ToLower(TrimSpace(mail.rcptTo))];
    assert addresses[0..] == addresses;
    for i := 0 to |addresses|
      invariant mine + Lowered(addresses[i..]) == Mine(mail, addresses)
    {
      assert addresses[i..][0] == addresses[i] && addresses[i..][1..] == addresses[i + 1..];
      Assoc(mine, [ToLower(TrimSpace(addresses[i]))], Lowered(addresses[i + 1..]));
      mine := mine + [ToLower(TrimSpace(addresses[i]))];
    }
    assert addresses[|addresses|..] == [] && mine + [] == mine;
  }

  method Recipients(mail: Mail) returns (out: seq<string>)
    ensures forall x :: x in out <==> Visible(mail, x)
  {
    hide NamedIn, Visible;
    out := [];
    for i := 0 to |RECIPIENT_HEADERS|
      invariant forall x :: x in out <==> exists k :: 0 <= k < i && NamedIn(mail, RECIPIENT_HEADERS[k], x)
    {
      out := CollectAddresses(mail, RECIPIENT_HEADERS[i], out);
    }
    forall x
      ensures x in out <==> Visible(mail, x)
    {
      VisibleIs(mail, x);
      if k :| 0 <= k < |RECIPIENT_HEADERS| && NamedIn(mail, RECIPIENT_HEADERS[k], x) {
        assert RECIPIENT_HEADERS[k] in RECIPIENT_HEADERS;
      }
      if h :| h in RECIPIENT_HEADERS && NamedIn(mail, h, x) {
        var k :| 0 <= k < |RECIPIENT_HEADERS| && RECIPIENT_HEADERS[k] == h;
      }
    }
  }

  // ---- the runner ---------------------------------------------------------

  class Runner {
    const mail: Mail
    var vars: Variables
    var flags: seq<string>
    var actions: seq<Action>
    var cancelImplicitKeep: bool
    var stopped: bool

    function View(): Run
      reads this
    {
      Run(vars, flags, actions, cancelImplicitKeep, stopped)
    }

    constructor (mail: Mail, enabled: bool)
      ensures View() == Start(enabled) && this.mail == mail
    {
      this.mail := mail;
      vars := Variables(map[], [], enabled);
      flags, actions := [], [];
      cancelImplicitKeep, stopped := false, false;
    }

    /** The first value that matches a key decides, and a match of wildcards leaves its captures. */
    method MatchAnyOf(values: seq<string>, keys: seq<string>, matchType: string, comparator: string) returns (b: bool)
      modifies this`vars
      ensures (b, vars) == MatchAny(values, keys, matchType, comparator, old(vars))
    {
      hide MatchOne, Expanded;
      var wantCaps := vars.enabled && matchType == "matches";
      assert values[0..] == values;
      for i := 0 to |values|
        invariant vars == old(vars)
        invariant MatchAny(values[i..], keys, matchType, comparator, vars) == MatchAny(values, keys, matchType, comparator, vars)
      {
        assert values[i..][0] == values[i] && values[i..][1..] == values[i + 1..];
        assert keys[0..] == keys;
        for k := 0 to |keys|
          invariant vars == old(vars)
          invariant MatchKeys(values[i], keys[k..], matchType, comparator, vars) == MatchKeys(values[i], keys, matchType, comparator, vars)
        {
          assert keys[k..][0] == keys[k] && keys[k..][1..] == keys[k + 1..];
          var key := Expand(keys[k], vars);
          var ok, caps := MatchValue(values[i], key, matchType, comparator, wantCaps);
          if ok {
            if wantCaps {
              vars := vars.(captures := caps);
            }
            return true;
          }
        }
      }
      b := false;
    }

    method HeadersNamed(names: seq<string>) returns (out: seq<string>)
      ensures out == ValuesOfAll(mail.headers, names, vars)
    {
      hide HeaderValues, Expanded;
      out := [];
      assert names[0..] == names && [] + ValuesOfAll(mail.headers, names, vars) == ValuesOfAll(mail.headers, names, vars);
      for i := 0 to |names|
        invariant out + ValuesOfAll(mail.headers, names[i..], vars) == ValuesOfAll(mail.headers, names, vars)
      {
        assert names[i..][0] == names[i] && names[i..][1..] == names[i + 1..];
        var name := Expand(names[i], vars);
        var values := ValuesOf(mail.headers, name);
        Assoc(out, values, ValuesOfAll(mail.headers, names[i + 1..], vars));
        out := out + values;
      }
      assert names[|names|..] == [] && out + [] == out;
    }

    method AddressesNamed(names: seq<string>, part: string) returns (out: seq<string>)
      ensures out == AddressesOfAll(mail, names, part, vars)
    {
      hide HeaderValues, Expanded, PartsOf;
      out := [];
      assert names[0..] == names && [] + AddressesOfAll(mail, names, part, vars) == AddressesOfAll(mail, names, part, vars);
      for i := 0 to |names|
        invariant out + AddressesOfAll(mail, names[i..], part, vars) == AddressesOfAll(mail, names, part, vars)
      {
        assert names[i..][0] == names[i] && names[i..][1..] == names[i + 1..];
        var name := Expand(names[i], vars);
        var values := ValuesOf(mail.headers, name);
        ghost var was, rest := out, AddressesOfAll(mail, names[i + 1..], part, vars);
        Assoc(out, PartsInAll(mail, values, part), rest);
        assert values[0..] == values;
        for k := 0 to |values|
          invariant out + PartsInAll(mail, values[k..], part) == was + PartsInAll(mail, values, part)
        {
          assert values[k..][0] == values[k] && values[k..][1..] == values[k + 1..];
          var parts := PartsOfList(mail.addresses(values[k]), part);
          Assoc(out, parts, PartsInAll(mail, values[k + 1..], part));
          out := out + parts;
        }
        assert values[|values|..] == [] && out + [] == out;
      }
      assert names[|names|..] == [] && out + [] == out;
    }

    method EnvelopeNamed(names: seq<string>, part: string) returns (out: seq<string>)
      ensures out == EnvelopeValues(mail, names, part)
    {
      hide AddressPart, ToLower, TrimSpace;
      out := [];
      assert names[0..] == names && [] + EnvelopeValues(mail, names, part) == EnvelopeValues(mail, names, part);
      for i := 0 to |names|
        invariant out + EnvelopeValues(mail, names[i..], part) == EnvelopeValues(mail, names, part)
      {
        assert names[i..][0] == names[i] && names[i..][1..] == names[i + 1..];
        ghost var rest := EnvelopeValues(mail, names[i + 1..], part);
        assert [] + rest == rest;
        var name := ToLower(TrimSpace(names[i]));
        var p := None;
        if name == "from" {
          p := AddressPart(mail.mailFrom, part, mail.separator);
        } else if name == "to" {
          p := AddressPart(mail.rcptTo, part, mail.separator);
        }
        if p.Some? {
          Assoc(out, [p.value], rest);
          out := out + [p.value];
        }
      }
      assert names[|names|..] == [] && out + [] == out;
    }

    method AllNamed(names: seq<string>) returns (b: bool)
      ensures b == AllPresent(mail.headers, names, vars)
    {
      hide HeaderValues, Expanded;
      assert names[0..] == names;
      for i := 0 to |names|
        invariant AllPresent(mail.headers, names[i..], vars) == AllPresent(mail.headers, names, vars)
      {
        assert names[i..][0] == names[i] && names[i..][1..] == names[i + 1..];
        var name := Expand(names[i], vars);
        var values := ValuesOf(mail.headers, name);
        if values == [] {
          return false;
        }
      }
      b := true;
    }

    method EvalTest(t: P.Test) returns (b: bool)
      modifies this`vars
      ensures (b, vars) == Evaluated(t, mail, flags, old(vars))
      decreases t
    {
      hide MatchAny, HeaderValues, ValuesOfAll, AddressesOfAll, EnvelopeValues, BodyOf, AllPresent, ExpandedAll;
      match t.kind
      case Always => b := true;
      case Never => b := false;
      case Not =>
        if t.children == [] {
          return false;
        }
        b := EvalTest(t.children[0]);
        b := !b;
      case AnyOf => b := EvalFirst(t.children, true);
      case AllOf => b := EvalFirst(t.children, false);
      case Exists => b := AllNamed(t.names);
      case Size => b := if t.sizeRelation == "over" then |mail.raw| > t.sizeLimit else |mail.raw| < t.sizeLimit;
      case Header =>
        var values := HeadersNamed(t.names);
        b := MatchAnyOf(values, t.keys, t.matchType, t.comparator);
      case Address =>
        var values := AddressesNamed(t.names, t.addressPart);
        b := MatchAnyOf(values, t.keys, t.matchType, t.comparator);
      case Envelope =>
        var values := EnvelopeNamed(t.names, t.addressPart);
        b := MatchAnyOf(values, t.keys, t.matchType, t.comparator);
      case Body => b := MatchAnyOf([BodyOf(mail.raw)], t.keys, if t.matchType == "is" then "contains" else t.matchType, t.comparator);
      case StringTest =>
        var values := ExpandAll(t.names, vars);
        b := MatchAnyOf(values, t.keys, t.matchType, t.comparator);
      case HasFlag => b := MatchAnyOf(flags, t.keys, t.matchType, t.comparator);
    }

    /** Tests in order up to the first with this outcome. */
    method EvalFirst(ts: seq<P.Test>, outcome: bool) returns (b: bool)
      modifies this`vars
      ensures (b, vars) == FirstOf(ts, outcome, mail, flags, old(vars))
      decreases ts
    {
      hide Evaluated;
      assert ts[0..] == ts;
      for i := 0 to |ts|
        invariant FirstOf(ts[i..], outcome, mail, flags, vars) == FirstOf(ts, outcome, mail, flags, old(vars))
      {
        assert ts[i..][0] == ts[i] && ts[i..][1..] == ts[i + 1..];
        b := EvalTest(ts[i]);
        if b == outcome {
          return;
        }
      }
      b := !outcome;
    }

    method ChosenFlags(c: P.Command) returns (out: seq<string>)
      ensures out == FlagsFor(c, View())
    {
      hide FlagsIn, FlagsAdded;
      var chosen := flags;
      if c.hasFlags {
        chosen := Split(c.flags, vars);
      }
      out := AddFlags([], chosen);
    }

    method AddAction(a: Action, cancels: bool)
      modifies this`actions, this`cancelImplicitKeep
      ensures View() == Acted(old(View()), a, cancels)
    {
      actions := actions + [a];
      if cancels {
        cancelImplicitKeep := true;
      }
    }

    method Vacation(c: P.Command)
      requires c.kind == P.Vacation
      modifies this`actions, this`cancelImplicitKeep
      ensures View() == Done(c, mail, old(View()))
    {
      hide Expanded, ExpandedAll, Warranted;
      for i := 0 to |actions|
        invariant forall k :: 0 <= k < i ==> !actions[k].Vacation?
      {
        if actions[i].Vacation? {
          return;
        }
      }
      var reason := Expand(c.argument, vars);
      var subject := Expand(c.vacSubject, vars);
      var sender := Expand(c.vacFrom, vars);
      var handle := Expand(c.vacHandle, vars);
      var addresses := ExpandAll(c.vacAddresses, vars);
      var warranted := ReplyWarranted(mail, addresses);
      if warranted {
        AddAction(R.Vacation(R.VacationSpec(subject, sender, handle, addresses, Days(c.vacDays), c.vacMime), reason), false);
      }
    }

    /** A command that holds no others. */
    method Do(c: P.Command)
      modifies this
      ensures View() == Done(c, mail, old(View()))
    {
      hide Expanded, ExpandedAll, Warranted, FlagsFor, FlagsAdded, FlagsRemoved, FlagsIn, Modified, Assigned;
      match c.kind
      case Stop => stopped := true;
      case Keep =>
        var carried := ChosenFlags(c);
        AddAction(R.Keep(carried), true);
      case Discard => cancelImplicitKeep := true;
      case FileInto =>
        var folder := Expand(c.argument, vars);
        var carried := ChosenFlags(c);
        AddAction(R.FileInto(folder, c.create, carried), !c.copy);
      case Redirect =>
        var address := Expand(c.argument, vars);
        AddAction(R.Redirect(address), !c.copy);
      case Reject =>
        var reason := Expand(c.argument, vars);
        AddAction(R.Reject(reason), true);
        stopped := true;
      case Set =>
        var value := Expand(c.argument, vars);
        value := ApplyModifiers(value, c.modifiers);
        vars := Assigned(vars, c.varName, value);
      case SetFlag =>
        var more := Split(c.flags, vars);
        flags := AddFlags([], more);
      case AddFlag =>
        var more := Split(c.flags, vars);
        flags := AddFlags(flags, more);
      case RemoveFlag =>
        var fewer := Split(c.flags, vars);
        flags := RemoveFlags(flags, fewer);
      case Vacation => Vacation(c);
      case Require =>
      case If =>
    }

    /** The commands of a block, until the script stops. */
    method Walk(block: seq<P.Command>)
      modifies this
      ensures View() == Ran(block, mail, old(View()))
      decreases block, 0
    {
      hide Done, Evaluated;
      assert block[0..] == block;
      for i := 0 to |block|
        invariant Ran(block[i..], mail, View()) == Ran(block, mail, old(View()))
      {
        assert block[i..][0] == block[i] && block[i..][1..] == block[i + 1..];
        if stopped {
          return;
        }
        if block[i].kind == P.If {
          Choose(block[i].branches);
        } else {
          Do(block[i]);
        }
      }
    }

    method Choose(branches: seq<P.Branch>)
      modifies this
      ensures View() == RanBranch(branches, mail, old(View()))
      decreases branches, 0
    {
      hide Evaluated, Ran;
      assert branches[0..] == branches;
      for i := 0 to |branches|
        invariant RanBranch(branches[i..], mail, View()) == RanBranch(branches, mail, old(View()))
      {
        assert branches[i..][0] == branches[i] && branches[i..][1..] == branches[i + 1..];
        if branches[i].test.None? {
          Walk(branches[i].body);
          return;
        }
        var holds := EvalTest(branches[i].test.value);
        if holds {
          Walk(branches[i].body);
          return;
        }
      }
    }
  }

  /** What becomes of a message. */
  method Evaluate(script: string, mail: Mail) returns (actions: seq<Action>)
    ensures actions == Result(script, mail)
  {
    hide Ran, P.Program, R.Requires;
    if TrimSpace(script) == "" {
      return [R.Keep([])];
    }
    var program := SieveParser.ParseInternal(script);
    if program.None? {
      return [R.Keep([])];
    }
    var enabled := R.RequiresCapability(program.value, "variables");
    var runner := new Runner(mail, enabled);
    runner.Walk(program.value);
    actions := runner.actions;
    ghost var run := runner.View();
    assert actions[0..] == actions;
    for i := 0 to |actions|
      invariant FirstReject(actions[i..]) == FirstReject(actions)
    {
      assert actions[i..][0] == actions[i] && actions[i..][1..] == actions[i + 1..];
      if actions[i].Reject? {
        return [actions[i]];
      }
    }
    if !runner.cancelImplicitKeep {
      actions := actions + [R.Keep([])];
    } else if actions == [] {
      actions := [R.Discard];
    }
  }
}
