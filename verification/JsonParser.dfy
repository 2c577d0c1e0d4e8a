/** The parser object and the serializer of core/src/json.cpp, proved against the grammar and the text. */
module JsonParser {
  import opened Text
  import opened Utf8
  import opened Json

  /** A method has given what the grammar says, leaving `rest`. */
  ghost predicate Gave<T>(r: Option<(T, string)>, v: Option<T>, rest: string) {
    match r
    case None => v == None
    case Some((x, after)) => v == Some(x) && after == rest
  }

  /** And having read so many values. */
  ghost predicate GaveCounted<T>(r: Parse<T>, v: Option<T>, rest: string, nodes: nat) {
    match r
    case None => v == None
    case Some((x, after, n)) => v == Some(x) && after == rest && n == nodes
  }

  /** Bytes read so far in front of what the rest yields. */
  function Onto(out: string, r: Option<(string, string)>): Option<(string, string)> {
    match r
    case None => None
    case Some((more, rest)) => Some((out + more, rest))
  }

  lemma OntoPrefixed(out: string, bytes: string, r: Option<(string, string)>)
    ensures Onto(out, Prefixed(bytes, r)) == Onto(out + bytes, r)
  {
    if r.Some? {
      Assoc(out, bytes, r.value.0);
    }
  }

  lemma OntoBounds(r: Option<(string, string)>, out: string, rest: string)
    ensures Onto("", r) == r && Onto(out, None) == None && Onto(out, Some(("", rest))) == Some((out, rest))
  {
    assert out + "" == out;
    if r.Some? {
      assert "" + r.value.0 == r.value.0;
    }
  }

  function OntoList<T>(out: seq<T>, r: Parse<seq<T>>): Parse<seq<T>> {
    match r
    case None => None
    case Some((more, rest, nodes)) => Some((out + more, rest, nodes))
  }

  lemma OntoListStep<T>(out: seq<T>, x: T, r: Parse<seq<T>>, rest: string, nodes: nat)
    ensures OntoList(out, OntoList([x], r)) == OntoList(out + [x], r)
    ensures OntoList([], r) == r && OntoList(out, None) == None
    ensures OntoList(out, Some(([x], rest, nodes))) == Some((out + [x], rest, nodes))
  {
    if r.Some? {
      Assoc(out, [x], r.value.0);
      assert [] + r.value.0 == r.value.0;
    }
  }

  lemma CharsStep(s: string, size: nat, lim: Limits)
    ensures CharsAt(s, size, lim) ==
            if s == "" then None
            else if s[0] == '"' then Some(("", s[1..]))
            else if size > lim.maxString || s[0] < ' ' then None
            else if s[0] != '\\' then Prefixed([s[0]], CharsAt(s[1..], size + 1, lim))
            else match EscapeAt(s[1..])
                 case None => None
                 case Some((bytes, rest)) => Prefixed(bytes, CharsAt(rest, size + |bytes|, lim))
  {
  }

  lemma ItemsStep(s: string, depth: nat, nodes: nat, lim: Limits)
    ensures ItemsAt(s, depth, nodes, lim) ==
            match ValueAt(SkipSpace(s), depth + 1, nodes, lim)
            case None => None
            case Some((item, rest, nodes')) =>
              var t := SkipSpace(rest);
              if t != "" && t[0] == ',' then OntoList([item], ItemsAt(t[1..], depth, nodes', lim))
              else if t != "" && t[0] == ']' then Some(([item], t[1..], nodes'))
              else None
  {
    hide ValueAt;
  }

  lemma MembersStep(s: string, depth: nat, nodes: nat, lim: Limits)
    ensures MembersAt(s, depth, nodes, lim) ==
            match MemberAt(s, depth, nodes, lim)
            case None => None
            case Some((member, rest, nodes')) =>
              var t := SkipSpace(rest);
              if t != "" && t[0] == ',' then OntoList([member], MembersAt(t[1..], depth, nodes', lim))
              else if t != "" && t[0] == '}' then Some(([member], t[1..], nodes'))
              else None
  {
    hide MemberAt;
  }

  class Parser {
    const src: string
    const limits: Limits
    var pos: nat
    var nodes: nat

    constructor (s: string, lim: Limits)
      ensures src == s && limits == lim && pos == 0 && nodes == 0
    {
      src, limits, pos, nodes := s, lim, 0, 0;
    }

    function Rest(): string
      requires pos <= |src|
      reads this
    {
      src[pos..]
    }

    method Skip()
      requires pos <= |src|
      modifies this`pos
      ensures old(pos) <= pos <= |src| && Rest() == SkipSpace(old(Rest()))
    {
      while pos < |src| && IsBlankChar(src[pos])
        invariant old(pos) <= pos <= |src| && SkipSpace(Rest()) == SkipSpace(old(Rest()))
      {
        Tail(src, pos);
        pos := pos + 1;
      }
      if pos < |src| {
        Tail(src, pos);
      }
    }

    /** The next character, when it is the one wanted, is consumed. */
    method Accept(c: char) returns (ok: bool)
      requires pos <= |src|
      modifies this`pos
      ensures ok <==> old(Rest()) != "" && old(Rest())[0] == c
      ensures pos <= |src| && Rest() == if ok then old(Rest())[1..] else old(Rest())
      ensures pos == if ok then old(pos) + 1 else old(pos)
    {
      ok := pos < |src| && src[pos] == c;
      if ok {
        Tail(src, pos);
        pos := pos + 1;
      }
    }

    method ParseHex() returns (v: Option<nat>)
      requires pos <= |src|
      modifies this`pos
      ensures old(pos) <= pos <= |src| && Gave(Hex4(old(Rest())), v, Rest())
      ensures v.Some? ==> v.value < 0x10000
    {
      TailOf(src, pos, 0);
      if pos + 4 > |src| {
        return None;
      }
      TailOf(src, pos, 4);
      ghost var s := Rest();
      assert s[0] == src[pos] && s[1] == src[pos + 1] && s[2] == src[pos + 2] && s[3] == src[pos + 3];
      var out: nat := 0;
      for i := 0 to 4
        invariant forall k :: 0 <= k < i ==> HexVal(s[k]).Some?
        invariant i == 0 ==> out == 0
        invariant i == 1 ==> out == HexVal(s[0]).value
        invariant i == 2 ==> out == HexVal(s[0]).value * 16 + HexVal(s[1]).value
        invariant i == 3 ==> out == (HexVal(s[0]).value * 16 + HexVal(s[1]).value) * 16 + HexVal(s[2]).value
        invariant i == 4 ==> Hex4(s) == Some((out, s[4..]))
      {
        var digit := HexVal(src[pos + i]);
        assert src[pos + i] == s[i];
        if digit.None? {
          return None;
        }
        out := out * 16 + digit.value;
      }
      pos := pos + 4;
      v := Some(out);
    }

    /** A `\u` escape, after the `u`. */
    method ParseUnicode() returns (v: Option<string>)
      requires pos <= |src|
      modifies this`pos
      ensures old(pos) <= pos <= |src| && Gave(UnicodeAt(old(Rest())), v, Rest())
    {
      hide Hex4, Encode;
      ghost var all := Rest();
      var cp := ParseHex();
      if cp.None? {
        return None;
      }
      if HighSurrogate(cp.value) {
        if pos + 1 >= |src| || src[pos] != '\\' || src[pos + 1] != 'u' {
          return None;
        }
        TailOf(src, pos, 2);
        pos := pos + 2;
        var lo := ParseHex();
        if lo.None? || !LowSurrogate(lo.value) {
          return None;
        }
        v := Some(Encode(0x10000 + (cp.value - 0xD800) * 1024 + (lo.value - 0xDC00)));
      } else if LowSurrogate(cp.value) {
        v := None;
      } else {
        v := Some(Encode(cp.value));
      }
    }

    /** An escape, after its backslash. */
    method ParseEscape() returns (v: Option<string>)
      requires pos <= |src|
      modifies this`pos
      ensures old(pos) <= pos <= |src| && Gave(EscapeAt(old(Rest())), v, Rest())
    {
      hide UnicodeAt;
      if pos >= |src| {
        return None;
      }
      Tail(src, pos);
      var esc := src[pos];
      pos := pos + 1;
      match esc {
        case '"' => v := Some("\"");
        case '\\' => v := Some("\\");
        case '/' => v := Some("/");
        case 'b' => v := Some(['\U{8}']);
        case 'f' => v := Some(['\U{c}']);
        case 'n' => v := Some("\n");
        case 'r' => v := Some("\r");
        case 't' => v := Some("\t");
        case 'u' => v := ParseUnicode();
        case _ => v := None;
      }
    }

    /** A string, from its opening quote on. */
    method ParseString() returns (v: Option<string>)
      requires pos < |src|
      modifies this`pos
      ensures old(pos) < pos <= |src| && Gave(StringAt(old(Rest())[1..], limits), v, Rest())
    {
      hide CharsAt, EscapeAt, Valid;
      Tail(src, pos);
      pos := pos + 1;
      ghost var start := Rest();
      var out := "";
      OntoBounds(CharsAt(start, 0, limits), "", "");
      while pos < |src|
        invariant old(pos) < pos <= |src|
        invariant Onto(out, CharsAt(Rest(), |out|, limits)) == CharsAt(start, 0, limits)
        decreases |src| - pos
      {
        Tail(src, pos);
        CharsStep(Rest(), |out|, limits);
        OntoBounds(None, out, Rest()[1..]);
        var c := src[pos];
        if c == '"' {
          pos := pos + 1;
          var ok := ValidUtf8(out);
          v := if ok then Some(out) else None;
          return;
        }
        if |out| > limits.maxString {
          return None;
        }
        if c < ' ' {
          return None;
        }
        if c != '\\' {
          OntoPrefixed(out, [c], CharsAt(Rest()[1..], |out| + 1, limits));
          out := out + [c];
          pos := pos + 1;
          continue;
        }
        pos := pos + 1;
        var bytes := ParseEscape();
        if bytes.None? {
          return None;
        }
        OntoPrefixed(out, bytes.value, CharsAt(Rest(), |out| + |bytes.value|, limits));
        out := out + bytes.value;
      }
      CharsStep(Rest(), |out|, limits);
      OntoBounds(None, out, "");
      v := None;
    }

    /** A run of digits is passed over. */
    method SkipDigits() returns (n: nat)
      requires pos <= |src|
      modifies this`pos
      ensures n == DigitRun(old(Rest())) && pos == old(pos) + n <= |src| && Rest() == old(Rest())[n..]
    {
      n := 0;
      ghost var start := pos;
      while pos < |src| && IsDigit(src[pos])
        invariant start <= pos <= |src| && n == pos - start
        invariant DigitRun(src[start..]) == n + DigitRun(src[pos..])
      {
        Tail(src, pos);
        pos := pos + 1;
        n := n + 1;
      }
      if pos < |src| {
        Tail(src, pos);
      }
      TailOf(src, start, n);
    }

    /** An optional fraction. */
    method ParseFraction() returns (ok: bool)
      requires pos <= |src|
      modifies this`pos
      ensures old(pos) <= pos <= |src| && (ok <==> FractionAt(old(Rest())).Some?)
      ensures ok ==> Rest() == FractionAt(old(Rest())).value
    {
      hide DigitRun;
      ghost var s := Rest();
      var point := Accept('.');
      if !point {
        return true;
      }
      var digits := SkipDigits();
      ok := digits > 0;
      if ok {
        assert s[1..][digits..] == s[1 + digits..];
      }
    }

    /** An optional exponent. */
    method ParseExponent() returns (ok: bool)
      requires pos <= |src|
      modifies this`pos
      ensures old(pos) <= pos <= |src| && (ok <==> ExponentAt(old(Rest())).Some?)
      ensures ok ==> Rest() == ExponentAt(old(Rest())).value
    {
      hide DigitRun;
      var e := Accept('e');
      if !e {
        e := Accept('E');
      }
      if !e {
        return true;
      }
      var sign := Accept('+');
      if !sign {
        sign := Accept('-');
      }
      var digits := SkipDigits();
      ok := digits > 0;
    }

    method ParseNumber() returns (v: Option<Value>)
      requires pos <= |src|
      modifies this`pos
      ensures old(pos) <= pos <= |src| && Gave(NumberAt(old(Rest())), v, Rest())
      ensures v.Some? ==> old(pos) < pos
    {
      hide DigitRun, FractionAt, ExponentAt, DecValue, NumberValue;
      ghost var s := Rest();
      var start := pos;
      var negative := Accept('-');
      ghost var t := Rest();
      if pos >= |src| {
        return None;
      }
      var first := pos;
      Tail(src, pos);
      if src[pos] == '0' {
        pos := pos + 1;
      } else if '1' <= src[pos] <= '9' {
        var n := SkipDigits();
        DigitRunStarts(t);
      } else {
        return None;
      }
      var whole := pos;
      TailOf(src, first, whole - first);
      var ok := ParseFraction();
      if !ok {
        return None;
      }
      ok := ParseExponent();
      if !ok {
        return None;
      }
      var integral := pos == whole;
      SameSuffix(src, pos, whole);
      TailOf(src, start, pos - start);
      v := Some(NumberValue(negative, src[first..whole], integral, src[start..pos]));
    }

    lemma DigitRunStarts(t: string)
      requires t != "" && IsDigit(t[0])
      ensures DigitRun(t) > 0
    {
    }

    lemma SameSuffix(s: string, i: nat, j: nat)
      requires i <= |s| && j <= |s|
      ensures s[i..] == s[j..] <==> i == j
    {
      if i != j {
        assert |s[i..]| != |s[j..]|;
      }
    }

    lemma WordAt(word: string, s: string, i: nat)
      requires i <= |s|
      ensures word <= s[i..] <==> i + |word| <= |s| && s[i..i + |word|] == word
      ensures i + |word| <= |s| ==> s[i..][|word|..] == s[i + |word|..]
    {
      if i + |word| <= |s| {
        TailOf(s, i, |word|);
      }
    }

    method ParseLiteral(word: string, literal: Value) returns (v: Option<Value>)
      requires pos <= |src| && word != ""
      modifies this`pos
      ensures old(pos) <= pos <= |src| && GaveCounted(LiteralAt(word, literal, old(Rest()), nodes), v, Rest(), nodes)
      ensures v.Some? ==> old(pos) < pos
    {
      WordAt(word, src, pos);
      if pos + |word| > |src| || src[pos..pos + |word|] != word {
        return None;
      }
      pos := pos + |word|;
      v := Some(literal);
    }

    method ParseValue(depth: nat) returns (v: Option<Value>)
      requires pos <= |src|
      modifies this
      ensures old(pos) <= pos <= |src| && GaveCounted(ValueAt(old(Rest()), depth, old(nodes), limits), v, Rest(), nodes)
      ensures v.Some? ==> old(pos) < pos
      decreases |src| - pos, 2
    {
      hide ArrayAt, ObjectAt, StringAt, NumberAt, LiteralAt;
      if depth > limits.maxDepth {
        return None;
      }
      nodes := nodes + 1;
      if nodes > limits.maxNodes {
        return None;
      }
      if pos >= |src| {
        return None;
      }
      Tail(src, pos);
      match src[pos] {
        case '{' => v := ParseObject(depth);
        case '[' => v := ParseArray(depth);
        case '"' =>
          var s := ParseString();
          v := if s.Some? then Some(Str(s.value)) else None;
        case 't' => v := ParseLiteral("true", Bool(true));
        case 'f' => v := ParseLiteral("false", Bool(false));
        case 'n' => v := ParseLiteral("null", Null);
        case _ => v := ParseNumber();
      }
    }

    /** An array, from its opening bracket on. */
    method ParseArray(depth: nat) returns (v: Option<Value>)
      requires pos < |src|
      modifies this
      ensures old(pos) < pos <= |src| && GaveCounted(ArrayAt(old(Rest())[1..], depth, old(nodes), limits), v, Rest(), nodes)
      decreases |src| - pos, 1
    {
      hide ItemsAt, ValueAt, SkipSpace;
      Tail(src, pos);
      pos := pos + 1;
      Skip();
      ghost var t := Rest();
      ghost var n := nodes;
      var close := Accept(']');
      if close {
        return Some(Arr([]));
      }
      var items: seq<Value> := [];
      OntoListStep([], Null, ItemsAt(t, depth, n, limits), "", 0);
      while true
        invariant old(pos) < pos <= |src|
        invariant OntoList(items, ItemsAt(Rest(), depth, nodes, limits)) == ItemsAt(t, depth, n, limits)
        decreases |src| - pos
      {
        ItemsStep(Rest(), depth, nodes, limits);
        Skip();
        ghost var here := pos;
        var item := ParseValue(depth + 1);
        OntoListStep(items, Null, None, "", 0);
        if item.None? {
          return None;
        }
        Skip();
        ghost var u := Rest();
        if u != "" {
          OntoListStep(items, item.value, ItemsAt(u[1..], depth, nodes, limits), u[1..], nodes);
        }
        var comma := Accept(',');
        if comma {
          items := items + [item.value];
          continue;
        }
        close := Accept(']');
        if close {
          return Some(Arr(items + [item.value]));
        }
        return None;
      }
    }

    /** A member name and its colon. */
    method ParseName() returns (v: Option<string>)
      requires pos <= |src|
      modifies this`pos
      ensures old(pos) <= pos <= |src| && Gave(NameAt(old(Rest()), limits), v, Rest())
    {
      hide StringAt, SkipSpace;
      Skip();
      if pos >= |src| || src[pos] != '"' {
        return None;
      }
      Tail(src, pos);
      v := ParseString();
      if v.None? {
        return;
      }
      Skip();
      var colon := Accept(':');
      if !colon {
        v := None;
      }
    }

    method ParseMember(depth: nat) returns (v: Option<Member>)
      requires pos <= |src|
      modifies this
      ensures old(pos) <= pos <= |src| && GaveCounted(MemberAt(old(Rest()), depth, old(nodes), limits), v, Rest(), nodes)
      ensures v.Some? ==> old(pos) < pos
      decreases |src| - pos, 3
    {
      hide ValueAt, NameAt, SkipSpace;
      var name := ParseName();
      if name.None? {
        return None;
      }
      Skip();
      var value := ParseValue(depth + 1);
      if value.None? {
        return None;
      }
      v := Some(Member(name.value, value.value));
    }

    /** An object, from its opening brace on. */
    method ParseObject(depth: nat) returns (v: Option<Value>)
      requires pos < |src|
      modifies this
      ensures old(pos) < pos <= |src| && GaveCounted(ObjectAt(old(Rest())[1..], depth, old(nodes), limits), v, Rest(), nodes)
      decreases |src| - pos, 1
    {
      hide MembersAt, MemberAt, SkipSpace;
      Tail(src, pos);
      pos := pos + 1;
      Skip();
      ghost var t := Rest();
      ghost var n := nodes;
      var close := Accept('}');
      if close {
        return Some(Obj([]));
      }
      var members: seq<Member> := [];
      OntoListStep([], Member("", Null), MembersAt(t, depth, n, limits), "", 0);
      while true
        invariant old(pos) < pos <= |src|
        invariant OntoList(members, MembersAt(Rest(), depth, nodes, limits)) == MembersAt(t, depth, n, limits)
        decreases |src| - pos
      {
        MembersStep(Rest(), depth, nodes, limits);
        var member := ParseMember(depth);
        OntoListStep(members, Member("", Null), None, "", 0);
        if member.None? {
          return None;
        }
        Skip();
        ghost var u := Rest();
        if u != "" {
          OntoListStep(members, member.value, MembersAt(u[1..], depth, nodes, limits), u[1..], nodes);
        }
        var comma := Accept(',');
        if comma {
          members := members + [member.value];
          continue;
        }
        close := Accept('}');
        if close {
          return Some(Obj(members + [member.value]));
        }
        return None;
      }
    }

    method Run() returns (v: Option<Value>)
      requires pos == 0 && nodes == 0
      modifies this
      ensures v == DocumentOf(src, limits)
    {
      hide ValueAt, SkipSpace;
      assert src[0..] == src;
      Skip();
      v := ParseValue(0);
      if v.None? {
        return;
      }
      Skip();
      if pos != |src| {
        v := None;
      }
    }
  }

  method ParseDocument(text: string, limits: Limits) returns (v: Option<Value>)
    ensures v == DocumentOf(text, limits)
  {
    hide DocumentOf;
    var p := new Parser(text, limits);
    v := p.Run();
  }

  // ---- the serializer -----------------------------------------------------

  method WriteString(out: string, s: string) returns (r: string)
    ensures r == out + Quote(s)
  {
    hide EscapeJson, EscapeJsonChar;
    r := out + "\"";
    assert s[0..] == s;
    assert r == out + ("\"" + "");
    ghost var body := "";
    EscapeBounds(s);
    for i := 0 to |s|
      invariant r == out + ("\"" + body) && body + EscapeJson(s[i..]) == EscapeJson(s)
    {
      Tail(s, i);
      EscapeStep(s[i..]);
      Assoc(body, EscapeJsonChar(s[i]), EscapeJson(s[i + 1..]));
      var code := EscapeJsonChar(s[i]);
      r := r + code;
      Assoc(out, "\"" + body, code);
      Assoc("\"", body, code);
      body := body + code;
    }
    assert s[|s|..] == "";
    EscapeBounds("");
    assert body + "" == body;
    r := r + "\"";
    Assoc(out, "\"" + body, "\"");
    Assoc("\"", body, "\"");
  }

  lemma EscapeStep(s: string)
    requires s != ""
    ensures EscapeJson(s) == EscapeJsonChar(s[0]) + EscapeJson(s[1..])
  {
  }

  lemma EscapeBounds(s: string)
    ensures "" + EscapeJson(s) == EscapeJson(s) && EscapeJson("") == ""
  {
  }

  method Write(out: string, v: Value, show: string -> string) returns (r: string)
    ensures r == out + ValueText(v, show)
    decreases v
  {
    hide Quote, IntText, ItemsText, MembersText;
    match v {
      case Null => r := out + "null";
      case Bool(b) => r := out + (if b then "true" else "false");
      case Int(n) => r := out + IntText(n);
      case Real(text) => r := out + show(text);
      case Str(s) => r := WriteString(out, s);
      case Arr(items) =>
        r := out + "[";
        r := WriteItems(r, items, show);
        r := r + "]";
        Assoc(out, "[", ItemsText(items, show));
        Assoc(out, "[" + ItemsText(items, show), "]");
        Assoc("[", ItemsText(items, show), "]");
      case Obj(members) =>
        r := out + "{";
        r := WriteMembers(r, members, show);
        r := r + "}";
        Assoc(out, "{", MembersText(members, show));
        Assoc(out, "{" + MembersText(members, show), "}");
        Assoc("{", MembersText(members, show), "}");
    }
  }

  /** The text still to be written, with the comma in front of it. */
  function ItemsTail(items: seq<Value>, i: nat, show: string -> string): string
    requires i <= |items|
  {
    if i == |items| then "" else (if i > 0 then "," else "") + ItemsText(items[i..], show)
  }

  lemma ItemsTailStep(items: seq<Value>, i: nat, show: string -> string)
    requires i < |items|
    ensures ItemsTail(items, i, show) ==
            (if i > 0 then "," else "") + (ValueText(items[i], show) + ItemsTail(items, i + 1, show))
  {
    hide ValueText;
    assert items[i..][0] == items[i] && items[i..][1..] == items[i + 1..];
    if i == |items| - 1 {
      assert ValueText(items[i], show) + "" == ValueText(items[i], show);
    }
  }

  method WriteItems(out: string, items: seq<Value>, show: string -> string) returns (r: string)
    ensures r == out + ItemsText(items, show)
    decreases items, 0
  {
    hide ValueText, ItemsTail;
    r := out;
    ItemsTailBounds(items, show);
    for i := 0 to |items|
      invariant r + ItemsTail(items, i, show) == out + ItemsText(items, show)
    {
      ItemsTailStep(items, i, show);
      ghost var before, comma := r, if i > 0 then "," else "";
      ghost var item, tail := ValueText(items[i], show), ItemsTail(items, i + 1, show);
      if i > 0 {
        r := r + ",";
      }
      assert r == before + comma by {
        assert before + "" == before;
      }
      Assoc(before, comma, item + tail);
      Assoc(r, item, tail);
      r := Write(r, items[i], show);
    }
    assert r + "" == r;
  }

  lemma ItemsTailBounds(items: seq<Value>, show: string -> string)
    ensures ItemsTail(items, 0, show) == ItemsText(items, show) && ItemsTail(items, |items|, show) == ""
  {
    assert items[0..] == items;
    assert "" + ItemsText(items, show) == ItemsText(items, show);
  }

  function MembersTail(members: seq<Member>, i: nat, show: string -> string): string
    requires i <= |members|
  {
    if i == |members| then "" else (if i > 0 then "," else "") + MembersText(members[i..], show)
  }

  lemma MembersTailStep(members: seq<Member>, i: nat, show: string -> string)
    requires i < |members|
    ensures MembersTail(members, i, show) ==
            (if i > 0 then "," else "") +
            (Quote(members[i].name) + (":" + (ValueText(members[i].value, show) + MembersTail(members, i + 1, show))))
  {
    hide ValueText, Quote;
    assert members[i..][0] == members[i] && members[i..][1..] == members[i + 1..];
    if i == |members| - 1 {
      assert ValueText(members[i].value, show) + "" == ValueText(members[i].value, show);
    }
  }

  method WriteMembers(out: string, members: seq<Member>, show: string -> string) returns (r: string)
    ensures r == out + MembersText(members, show)
    decreases members, 0
  {
    hide ValueText, MembersTail, Quote;
    r := out;
    MembersTailBounds(members, show);
    for i := 0 to |members|
      invariant r + MembersTail(members, i, show) == out + MembersText(members, show)
    {
      MembersTailStep(members, i, show);
      ghost var before, comma := r, if i > 0 then "," else "";
      ghost var name, value, tail := Quote(members[i].name), ValueText(members[i].value, show), MembersTail(members, i + 1, show);
      if i > 0 {
        r := r + ",";
      }
      assert r == before + comma by {
        assert before + "" == before;
      }
      ghost var started := r;
      Assoc(before, comma, name + (":" + (value + tail)));
      r := WriteString(r, members[i].name);
      r := r + ":";
      r := Write(r, members[i].value, show);
      Assoc(started, name, ":" + (value + tail));
      Assoc(started + name, ":", value + tail);
      Assoc((started + name) + ":", value, tail);
    }
    assert r + "" == r;
  }

  lemma MembersTailBounds(members: seq<Member>, show: string -> string)
    ensures MembersTail(members, 0, show) == MembersText(members, show) && MembersTail(members, |members|, show) == ""
  {
    assert members[0..] == members;
    assert "" + MembersText(members, show) == MembersText(members, show);
  }

  method Serialize(v: Value, show: string -> string) returns (text: string)
    ensures text == ValueText(v, show)
  {
    hide ValueText;
    text := Write("", v, show);
    assert "" + ValueText(v, show) == ValueText(v, show);
  }
}
