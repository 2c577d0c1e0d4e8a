/** The variables of Sieve scripts as core/src/sieve.cpp keeps and substitutes them (RFC 5229): the bounded store, the
    references in a text, and what a text with references expands to. */
module SieveVariables {
  import opened Text
  import opened SieveLex

  const MAX_NAMES := 128
  const MAX_VALUE := 4096

  /** Values by name, and what the wildcards of the last match stood for. */
  datatype Variables = Variables(named: map<string, string>, captures: seq<string>, enabled: bool)

  /** Names fold case. */
  function NameKey(name: string): string {
    ToLower(TrimSpace(name))
  }

  /** A value too long, or one name too many, is dropped. */
  function Assigned(v: Variables, name: string, value: string): Variables {
    var key := NameKey(name);
    if |value| > MAX_VALUE || (key !in v.named && |v.named| >= MAX_NAMES) then v
    else v.(named := v.named[key := value])
  }

  /** What a name stands for: a single digit for a capture; nothing when it is not set. */
  function Value(v: Variables, name: string): string {
    var key := NameKey(name);
    if |key| == 1 && IsDigit(key[0]) then
      if DigitValue(key[0]) < |v.captures| then v.captures[DigitValue(key[0])] else ""
    else if key in v.named then v.named[key]
    else ""
  }

  predicate AllDigits(s: string) {
    forall i :: 0 <= i < |s| ==> IsDigit(s[i])
  }

  /** Identifiers joined by dots; `start` says that one has to begin. */
  predicate Qualified(s: string, start: bool) {
    if s == "" then !start
    else if start then (IsAlpha(s[0]) || s[0] == '_') && Qualified(s[1..], false)
    else if s[0] == '.' then Qualified(s[1..], true)
    else IsNameChar(s[0]) && Qualified(s[1..], false)
  }

  predicate ValidName(name: string) {
    0 < |name| <= 128 && if AllDigits(name) then |name| == 1 else Qualified(name, true)
  }

  /** Where the reference that a text starts with is closed, or the length of the text. */
  function Closing(s: string): (n: nat)
    ensures n <= |s| && (n < |s| ==> n >= 2 && s[0] == '$' && s[1] == '{' && s[n] == '}')
  {
    if |s| >= 2 && s[0] == '$' && s[1] == '{' then IndexOf(s, '}', 2) else |s|
  }

  /** Each reference to a valid name replaced by what it stands for, from left to right. */
  function Substituted(s: string, v: Variables): string
    decreases |s|
  {
    if s == "" then ""
    else
      var close := Closing(s);
      if close < |s| && ValidName(s[2..close]) then Value(v, s[2..close]) + Substituted(s[close + 1..], v)
      else [s[0]] + Substituted(s[1..], v)
  }

  function Expanded(s: string, v: Variables): string {
    if v.enabled then Substituted(s, v) else s
  }

  function ExpandedAll(ss: seq<string>, v: Variables): (r: seq<string>)
    ensures |r| == |ss|
  {
    if ss == [] then [] else [Expanded(ss[0], v)] + ExpandedAll(ss[1..], v)
  }

  // ---- the loops ----------------------------------------------------------

  predicate Mentions(s: string) {
    exists i :: 0 <= i < |s| - 1 && s[i] == '$' && s[i + 1] == '{'
  }

  lemma {:induction false} NothingMentioned(s: string, v: Variables)
    requires !Mentions(s)
    ensures Substituted(s, v) == s
  {
    if s != "" {
      assert !(|s| >= 2 && s[0] == '$' && s[1] == '{');
      NothingMentioned(s[1..], v);
    }
  }

  /** The same for the reference that starts at a place. */
  function ClosingAt(s: string, i: nat): (n: nat)
    requires i < |s|
    ensures n <= |s| && (n < |s| ==> i + 2 <= n)
  {
    if s[i] == '$' && i + 1 < |s| && s[i + 1] == '{' then IndexOf(s, '}', i + 2) else |s|
  }

  lemma ClosingIs(s: string, i: nat)
    requires i < |s|
    ensures Closing(s[i..]) == ClosingAt(s, i) - i
    ensures ClosingAt(s, i) < |s| ==>
              s[i..][2..Closing(s[i..])] == s[i + 2..ClosingAt(s, i)] && s[i..][Closing(s[i..]) + 1..] == s[ClosingAt(s, i) + 1..]
  {
    var t := s[i..];
    if s[i] == '$' && i + 1 < |s| && s[i + 1] == '{' {
      assert t[2..] == s[i + 2..];
      IndexOfSuffix(t, '}', 2);
      IndexOfSuffix(s, '}', i + 2);
    }
  }

  lemma SubstituteStep(out: string, s: string, i: nat, v: Variables)
    requires i < |s|
    ensures var close := ClosingAt(s, i);
            out + Substituted(s[i..], v) ==
            if close < |s| && ValidName(s[i + 2..close]) then (out + Value(v, s[i + 2..close])) + Substituted(s[close + 1..], v)
            else (out + [s[i]]) + Substituted(s[i + 1..], v)
  {
    hide ValidName, Value, Closing, ClosingAt;
    ClosingIs(s, i);
    var close := ClosingAt(s, i);
    if close < |s| {
      Assoc(out, Value(v, s[i + 2..close]), Substituted(s[close + 1..], v));
    }
    Tail(s, i);
    Assoc(out, [s[i]], Substituted(s[i + 1..], v));
  }

  method IsValidName(name: string) returns (b: bool)
    ensures b == ValidName(name)
  {
    if name == "" || |name| > 128 {
      return false;
    }
    var digits := true;
    for i := 0 to |name|
      invariant digits && forall k :: 0 <= k < i ==> IsDigit(name[k])
    {
      if !IsDigit(name[i]) {
        digits := false;
        break;
      }
    }
    if digits {
      return |name| == 1;
    }
    var start := true;
    assert name[0..] == name;
    for i := 0 to |name|
      invariant Qualified(name[i..], start) == Qualified(name, true)
    {
      var c := name[i];
      assert name[i..][0] == c && name[i..][1..] == name[i + 1..];
      if start {
        if !IsAlpha(c) && c != '_' {
          return false;
        }
        start := false;
        continue;
      }
      if c == '.' {
        start := true;
        continue;
      }
      if !IsNameChar(c) {
        return false;
      }
    }
    assert name[|name|..] == "";
    b := !start;
  }

  method Expand(s: string, v: Variables) returns (out: string)
    ensures out == Expanded(s, v)
  {
    hide ValidName, Value, Substituted, Mentions;
    if !v.enabled {
      return s;
    }
    if !Mentions(s) {
      NothingMentioned(s, v);
      return s;
    }
    out := "";
    var i := 0;
    assert s[0..] == s && "" + Substituted(s, v) == Substituted(s, v);
    while i < |s|
      invariant i <= |s| && out + Substituted(s[i..], v) == Substituted(s, v)
    {
      SubstituteStep(out, s, i, v);
      if s[i] == '$' && i + 1 < |s| && s[i + 1] == '{' {
        var close := IndexOf(s, '}', i + 2);
        if close < |s| {
          var valid := IsValidName(s[i + 2..close]);
          if valid {
            out := out + Value(v, s[i + 2..close]);
            i := close + 1;
            continue;
          }
        }
      }
      out := out + [s[i]];
      i := i + 1;
    }
    NothingLeft(s, v, out);
  }

  lemma NothingLeft(s: string, v: Variables, out: string)
    ensures s[|s|..] == "" && Substituted("", v) == "" && out + "" == out
  {
  }

  method ExpandAll(ss: seq<string>, v: Variables) returns (out: seq<string>)
    ensures out == ExpandedAll(ss, v)
  {
    hide Expanded;
    if !v.enabled {
      NothingExpanded(ss, v);
      return ss;
    }
    out := [];
    assert ss[0..] == ss && [] + ExpandedAll(ss, v) == ExpandedAll(ss, v);
    for i := 0 to |ss|
      invariant out + ExpandedAll(ss[i..], v) == ExpandedAll(ss, v)
    {
      assert ss[i..][0] == ss[i] && ss[i..][1..] == ss[i + 1..];
      var s := Expand(ss[i], v);
      Assoc(out, [s], ExpandedAll(ss[i + 1..], v));
      out := out + [s];
    }
    assert ss[|ss|..] == [] && out + [] == out;
  }

  lemma {:induction false} NothingExpanded(ss: seq<string>, v: Variables)
    requires !v.enabled
    ensures ExpandedAll(ss, v) == ss
  {
    if ss != [] {
      NothingExpanded(ss[1..], v);
      assert ss == [ss[0]] + ss[1..];
    }
  }

  // ---- what an expansion is -----------------------------------------------

  /** A piece of a text: as it stands, a reference, or what looks like one but wraps no name. */
  datatype Part = Plain(text: string) | Reference(name: string) | Broken(text: string)

  /** No reference opens in the text, nor between it and what follows. */
  predicate OpensNone(text: string) {
    forall i :: 0 <= i < |text| && text[i] == '$' ==> i + 1 < |text| && text[i + 1] != '{'
  }

  predicate LegalPart(p: Part) {
    match p
    case Plain(text) => OpensNone(text)
    case Reference(name) => ValidName(name)
    case Broken(text) => !ValidName(text) && (forall i :: 0 <= i < |text| ==> text[i] != '}' && text[i] != '$')
  }

  predicate LegalParts(ps: seq<Part>) {
    ps == [] || (LegalPart(ps[0]) && LegalParts(ps[1..]))
  }

  function Written(p: Part): string {
    match p
    case Plain(text) => text
    case Reference(name) => "${" + (name + "}")
    case Broken(text) => "${" + (text + "}")
  }

  function Put(ps: seq<Part>): string {
    if ps == [] then "" else Written(ps[0]) + Put(ps[1..])
  }

  /** What a piece becomes: the value of its name, the empty text for one that is not set. */
  function Filled(p: Part, v: Variables): string {
    if p.Reference? then Value(v, p.name) else Written(p)
  }

  function FilledAll(ps: seq<Part>, v: Variables): string {
    if ps == [] then "" else Filled(ps[0], v) + FilledAll(ps[1..], v)
  }

  /** References are replaced and everything else stays, the values themselves included: what looks like a
      reference in a value is not replaced. */
  lemma {:induction false} ExpansionFills(ps: seq<Part>, v: Variables)
    requires LegalParts(ps) && v.enabled
    ensures Expanded(Put(ps), v) == FilledAll(ps, v)
  {
    hide Value, Closing, ValidName, OpensNone;
    if ps != [] {
      ExpansionFills(ps[1..], v);
      match ps[0]
      case Plain(text) => PlainStays(text, Put(ps[1..]), v);
      case Reference(name) => ReferenceFills(name, Put(ps[1..]), v);
      case Broken(text) => BrokenStays(text, Put(ps[1..]), v);
    }
  }

  lemma {:induction false} PlainStays(text: string, rest: string, v: Variables)
    requires OpensNone(text)
    ensures Substituted(text + rest, v) == text + Substituted(rest, v)
  {
    if text == "" {
      assert "" + rest == rest && "" + Substituted(rest, v) == Substituted(rest, v);
    } else {
      var s := text + rest;
      assert s[0] == text[0] && s[1..] == text[1..] + rest;
      if text[0] == '$' {
        assert 1 < |text| && s[1] == text[1];
      }
      assert forall i :: 0 <= i < |text[1..]| ==> text[1..][i] == text[i + 1];
      assert OpensNone(text[1..]);
      PlainStays(text[1..], rest, v);
      assert text == [text[0]] + text[1..];
      Assoc([text[0]], text[1..], Substituted(rest, v));
    }
  }

  lemma {:induction false} NamesHaveNoBrace(s: string, start: bool, i: nat)
    requires Qualified(s, start) && i < |s|
    ensures s[i] != '}'
  {
    if i > 0 {
      NamesHaveNoBrace(s[1..], !start && s[0] == '.', i - 1);
    }
  }

  lemma ClosesAt(name: string, rest: string)
    requires forall i :: 0 <= i < |name| ==> name[i] != '}'
    ensures var s := "${" + (name + "}") + rest;
            Closing(s) == |name| + 2 && s[2..|name| + 2] == name && s[|name| + 3..] == rest
  {
    var s := "${" + (name + "}") + rest;
    assert s[0] == '$' && s[1] == '{' && s[|name| + 2] == '}';
    assert forall i :: 0 <= i < |name| ==> s[i + 2] == name[i];
    assert forall k :: 2 <= k < |name| + 2 ==> s[k] == name[k - 2];
    assert IndexOf(s, '}', 2) == |name| + 2;
  }

  lemma ReferenceFills(name: string, rest: string, v: Variables)
    requires LegalPart(Reference(name))
    ensures Substituted(Written(Reference(name)) + rest, v) == Value(v, name) + Substituted(rest, v)
  {
    hide Value;
    forall i | 0 <= i < |name|
      ensures name[i] != '}'
    {
      if !AllDigits(name) {
        NamesHaveNoBrace(name, true, i);
      }
    }
    ClosesAt(name, rest);
  }

  lemma BrokenStays(text: string, rest: string, v: Variables)
    requires LegalPart(Broken(text))
    ensures Substituted(Written(Broken(text)) + rest, v) == Written(Broken(text)) + Substituted(rest, v)
  {
    hide Substituted;
    ClosesAt(text, rest);
    var s := "${" + (text + "}") + rest;
    var tail := "{" + (text + "}");
    assert s[0] == '$' && s[1..] == tail + rest;
    NoReference(s, v);
    assert OpensNone(tail) by {
      assert forall i :: 0 <= i < |tail| ==> tail[i] != '$';
    }
    PlainStays(tail, rest, v);
    assert "${" + (text + "}") == "$" + tail;
    Assoc("$", tail, Substituted(rest, v));
  }

  lemma NoReference(s: string, v: Variables)
    requires s != "" && (Closing(s) == |s| || !ValidName(s[2..Closing(s)]))
    ensures Substituted(s, v) == [s[0]] + Substituted(s[1..], v)
  {
    hide ValidName, Value;
  }

  // ---- the store is bounded -----------------------------------------------

  /** However many assignments are made, at most 128 names are kept, with values of at most 4096 bytes, and names
      that differ in case or in the blanks around them are one. */
  predicate Bounded(v: Variables) {
    && |v.named| <= 128
    && forall name :: name in v.named ==> |v.named[name]| <= 4096 && NameKey(name) == name
  }

  lemma AssignedStaysBounded(v: Variables, name: string, value: string)
    requires Bounded(v)
    ensures Bounded(Assigned(v, name, value))
  {
    KeyTwice(name);
    var key := NameKey(name);
    if key !in v.named {
      assert v.named[key := value].Keys == v.named.Keys + {key};
    } else {
      assert v.named[key := value].Keys == v.named.Keys;
    }
  }

  lemma KeyTwice(name: string)
    ensures NameKey(NameKey(name)) == NameKey(name)
  {
    var t := TrimSpace(name);
    TrimmedEnds(name);
    LowerTwice(t);
    if t != "" {
      assert ToLower(t)[0] == LowerChar(t[0]) by {
        ToLowerAt(t, 0);
      }
      ToLowerAt(t, |t| - 1);
      TrimSpaceShortens(ToLower(t));
    }
  }

  lemma {:induction false} TrimmedEnds(s: string)
    ensures var t := TrimSpace(s); t != "" ==> t[0] !in " \t\r\n" && t[|t| - 1] !in " \t\r\n"
    decreases |s|
  {
    if s != "" && s[0] in " \t\r\n" {
      TrimmedEnds(s[1..]);
    } else if s != "" && s[|s| - 1] in " \t\r\n" {
      TrimmedEnds(s[..|s| - 1]);
    }
  }

  /** The value last given to a name is what it stands for, in any spelling of the name, unless it was dropped. */
  lemma LastAssignmentCounts(v: Variables, name: string, other: string, value: string)
    requires NameKey(name) == NameKey(other) && !(|NameKey(name)| == 1 && IsDigit(NameKey(name)[0]))
    requires |value| <= 4096 && (NameKey(name) in v.named || |v.named| < 128)
    ensures Value(Assigned(v, name, value), other) == value
  {
  }

  lemma OthersKeepTheirValues(v: Variables, name: string, other: string, value: string)
    requires NameKey(name) != NameKey(other)
    ensures Value(Assigned(v, name, value), other) == Value(v, other)
  {
  }
}
