/** The bounded parser of core/src/json.cpp on the text of a value: strings, numbers, arrays and objects read
    back in any place, with whatever follows, exactly when they fit the limits that remain; and whatever
    it accepts respects the limits. */
module JsonReadBack {
  import opened Text
  import opened Utf8
  import opened Json

  // ---- within the limits --------------------------------------------------

  /** How deeply a value nests; an empty array or object adds nothing. */
  function Depth(v: Value): nat {
    match v
    case Arr(items) => ItemsDepth(items)
    case Obj(members) => MembersDepth(members)
    case _ => 0
  }

  /** One more than the deepest item, or zero when there is none. */
  function ItemsDepth(items: seq<Value>): nat {
    if items == [] then 0 else Max(Depth(items[0]) + 1, ItemsDepth(items[1..]))
  }

  function MembersDepth(members: seq<Member>): nat {
    if members == [] then 0 else Max(Depth(members[0].value) + 1, MembersDepth(members[1..]))
  }

  /** How many values a value consists of. */
  function Count(v: Value): nat {
    match v
    case Arr(items) => 1 + ItemsCount(items)
    case Obj(members) => 1 + MembersCount(members)
    case _ => 1
  }

  function ItemsCount(items: seq<Value>): nat {
    if items == [] then 0 else Count(items[0]) + ItemsCount(items[1..])
  }

  function MembersCount(members: seq<Member>): nat {
    if members == [] then 0 else Count(members[0].value) + MembersCount(members[1..])
  }

  /** Valid UTF-8, at most one byte longer than the limit: the limit is tested before each character. */
  predicate StringFits(s: string, lim: Limits) {
    Valid(s) && |s| <= lim.maxString + 1
  }

  predicate StringsFit(v: Value, lim: Limits) {
    match v
    case Str(s) => StringFits(s, lim)
    case Arr(items) => ItemStringsFit(items, lim)
    case Obj(members) => MemberStringsFit(members, lim)
    case _ => true
  }

  predicate ItemStringsFit(items: seq<Value>, lim: Limits) {
    items == [] || (StringsFit(items[0], lim) && ItemStringsFit(items[1..], lim))
  }

  predicate MemberStringsFit(members: seq<Member>, lim: Limits) {
    members == [] ||
    (StringFits(members[0].name, lim) && StringsFit(members[0].value, lim) && MemberStringsFit(members[1..], lim))
  }

  /** The limits as the parser meets them, at a depth and with some values read already. */
  predicate Fits(v: Value, depth: nat, nodes: nat, lim: Limits) {
    && depth <= lim.maxDepth && nodes + 1 <= lim.maxNodes
    && match v
       case Str(s) => StringFits(s, lim)
       case Arr(items) => ItemsFit(items, depth, nodes + 1, lim)
       case Obj(members) => MembersFit(members, depth, nodes + 1, lim)
       case _ => true
  }

  predicate ItemsFit(items: seq<Value>, depth: nat, nodes: nat, lim: Limits) {
    items == [] || (Fits(items[0], depth + 1, nodes, lim) && ItemsFit(items[1..], depth, nodes + Count(items[0]), lim))
  }

  predicate MembersFit(members: seq<Member>, depth: nat, nodes: nat, lim: Limits) {
    members == [] ||
    (StringFits(members[0].name, lim) && Fits(members[0].value, depth + 1, nodes, lim) &&
     MembersFit(members[1..], depth, nodes + Count(members[0].value), lim))
  }

  lemma {:induction false} FitsMeans(v: Value, depth: nat, nodes: nat, lim: Limits)
    ensures Fits(v, depth, nodes, lim) <==>
            depth + Depth(v) <= lim.maxDepth && nodes + Count(v) <= lim.maxNodes && StringsFit(v, lim)
    decreases v
  {
    hide StringFits;
    if depth <= lim.maxDepth && nodes + 1 <= lim.maxNodes {
      match v
      case Arr(items) => ItemsFitMeans(items, depth, nodes + 1, lim);
      case Obj(members) => MembersFitMeans(members, depth, nodes + 1, lim);
      case _ =>
    }
  }

  lemma {:induction false} ItemsFitMeans(items: seq<Value>, depth: nat, nodes: nat, lim: Limits)
    requires depth <= lim.maxDepth && nodes <= lim.maxNodes
    ensures ItemsFit(items, depth, nodes, lim) <==>
            depth + ItemsDepth(items) <= lim.maxDepth && nodes + ItemsCount(items) <= lim.maxNodes && ItemStringsFit(items, lim)
    decreases items
  {
    hide Fits, Depth, StringsFit, Count;
    if items != [] {
      FitsMeans(items[0], depth + 1, nodes, lim);
      if nodes + Count(items[0]) <= lim.maxNodes {
        ItemsFitMeans(items[1..], depth, nodes + Count(items[0]), lim);
      }
    }
  }

  lemma {:induction false} MembersFitMeans(members: seq<Member>, depth: nat, nodes: nat, lim: Limits)
    requires depth <= lim.maxDepth && nodes <= lim.maxNodes
    ensures MembersFit(members, depth, nodes, lim) <==>
            depth + MembersDepth(members) <= lim.maxDepth && nodes + MembersCount(members) <= lim.maxNodes && MemberStringsFit(members, lim)
    decreases members
  {
    hide Fits, Depth, StringsFit, Count, StringFits;
    if members != [] {
      FitsMeans(members[0].value, depth + 1, nodes, lim);
      if nodes + Count(members[0].value) <= lim.maxNodes {
        MembersFitMeans(members[1..], depth, nodes + Count(members[0].value), lim);
      }
    }
  }

  // ---- strings ------------------------------------------------------------

  /** The escape of a control character. */
  lemma ControlReadsBack(c: char, rest: string)
    requires c < ' '
    ensures var code := "00" + [HexDigit(c as int / 16), HexDigit(c as int % 16)];
            EscapeAt("u" + (code + rest)) == Some(([c], rest))
  {
    var a, b := c as int / 16, c as int % 16;
    var code := "00" + [HexDigit(a), HexDigit(b)];
    var s := code + rest;
    assert s[0] == '0' && s[1] == '0' && s[2] == HexDigit(a) && s[3] == HexDigit(b) && s[4..] == rest;
    assert Hex4(s) == Some((c as int, rest));
    assert Encode(c as int) == [c];
    assert UnicodeAt(s) == Some(([c], rest));
    assert ("u" + s)[0] == 'u' && ("u" + s)[1..] == s;
  }

  /** Reading one printed character. */
  lemma CharReadsBack(c: char, rest: string, size: nat, lim: Limits)
    ensures EscapeJsonChar(c) != ""
    ensures CharsAt(EscapeJsonChar(c) + rest, size, lim) ==
            if size > lim.maxString then None else Prefixed([c], CharsAt(rest, size + 1, lim))
  {
    hide UnicodeAt, CharsAt;
    var s := EscapeJsonChar(c) + rest;
    CharsAtStep(s, size, lim);
    if c < ' ' && |EscapeJsonChar(c)| > 2 {
      ControlReadsBack(c, rest);
      var code := "00" + [HexDigit(c as int / 16), HexDigit(c as int % 16)];
      assert EscapeJsonChar(c) == "\\" + ("u" + code);
      Assoc("\\", "u" + code, rest);
      Assoc("u", code, rest);
      assert s == "\\" + ("u" + (code + rest));
      assert s[1..] == "u" + (code + rest);
    } else if |EscapeJsonChar(c)| == 2 {
      assert s[0] == '\\' && s[1..] == [EscapeJsonChar(c)[1]] + rest;
      assert ([EscapeJsonChar(c)[1]] + rest)[1..] == rest;
    } else {
      assert s[0] == c && s[1..] == rest;
    }
  }

  lemma CharsAtStep(s: string, size: nat, lim: Limits)
    requires s != "" && s[0] != '"'
    ensures CharsAt(s, size, lim) ==
            if size > lim.maxString || s[0] < ' ' then None
            else if s[0] != '\\' then Prefixed([s[0]], CharsAt(s[1..], size + 1, lim))
            else match EscapeAt(s[1..])
                 case None => None
                 case Some((bytes, rest)) => Prefixed(bytes, CharsAt(rest, size + |bytes|, lim))
  {
  }

  lemma {:induction false} CharsReadBack(s: string, rest: string, size: nat, lim: Limits)
    ensures CharsAt(EscapeJson(s) + ("\"" + rest), size, lim) ==
            if s == "" || size + |s| <= lim.maxString + 1 then Some((s, rest)) else None
  {
    hide EscapeJsonChar, CharsAt;
    var close := "\"" + rest;
    if s == "" {
      assert EscapeJson(s) + close == close;
      assert close[0] == '"' && close[1..] == rest;
      QuoteEnds(close, size, lim);
    } else {
      CharsReadBack(s[1..], rest, size + 1, lim);
      Assoc(EscapeJsonChar(s[0]), EscapeJson(s[1..]), close);
      CharReadsBack(s[0], EscapeJson(s[1..]) + close, size, lim);
      assert s == [s[0]] + s[1..];
    }
  }

  lemma QuoteEnds(s: string, size: nat, lim: Limits)
    requires s != "" && s[0] == '"'
    ensures CharsAt(s, size, lim) == Some(("", s[1..]))
  {
  }

  lemma StringReadsBack(s: string, rest: string, lim: Limits)
    ensures StringAt(EscapeJson(s) + ("\"" + rest), lim) == if StringFits(s, lim) then Some((s, rest)) else None
  {
    hide EscapeJson, CharsAt, Valid;
    CharsReadBack(s, rest, 0, lim);
  }

  /** A quoted string, seen from its opening quote. */
  lemma QuoteOpens(s: string, rest: string)
    ensures Quote(s) + rest == "\"" + (EscapeJson(s) + ("\"" + rest))
    ensures (Quote(s) + rest)[0] == '"' && (Quote(s) + rest)[1..] == EscapeJson(s) + ("\"" + rest)
  {
    hide EscapeJson;
    Assoc("\"", EscapeJson(s) + "\"", rest);
    Assoc(EscapeJson(s), "\"", rest);
    var tail := EscapeJson(s) + ("\"" + rest);
    assert ("\"" + tail)[1..] == tail;
  }

  // ---- numbers ------------------------------------------------------------

  /** What may follow a value. */
  predicate Stops(rest: string) {
    rest == "" || rest[0] == ',' || rest[0] == ']' || rest[0] == '}'
  }

  lemma {:induction false} DigitRunJoins(ds: string, rest: string)
    requires forall i :: 0 <= i < |ds| ==> IsDigit(ds[i])
    requires Stops(rest)
    ensures DigitRun(ds + rest) == |ds|
  {
    if ds == "" {
      assert ds + rest == rest;
    } else {
      assert (ds + rest)[0] == ds[0] && (ds + rest)[1..] == ds[1..] + rest;
      DigitRunJoins(ds[1..], rest);
    }
  }

  lemma {:induction false} NumStarts(n: nat)
    ensures n > 0 ==> Num(n)[0] != '0'
    ensures n == 0 ==> Num(n) == "0"
    decreases n
  {
    if n >= 10 {
      NumStarts(n / 10);
      assert Num(n)[0] == Num(n / 10)[0];
    } else if n == 0 {
      assert Digit(0) == '0';
    } else {
      assert Num(n) == [Digit(n)] && DigitValue(Digit(n)) == n;
    }
  }

  lemma WholeReadsBack(n: nat, rest: string)
    requires Stops(rest)
    ensures WholeDigits(Num(n) + rest) == |Num(n)| && (Num(n) + rest)[|Num(n)|..] == rest && (Num(n) + rest)[..|Num(n)|] == Num(n)
    ensures (Num(n) + rest)[0] == Num(n)[0] && IsDigit(Num(n)[0])
  {
    hide Num;
    NumStarts(n);
    DigitRunJoins(Num(n), rest);
    var s := Num(n) + rest;
    assert s[0] == Num(n)[0];
  }

  lemma NumberReadsBack(n: int, rest: string)
    requires Stops(rest) && -0x20_0000_0000_0000 <= n <= 0x20_0000_0000_0000
    ensures NumberAt(IntText(n) + rest) == Some((Int(n), rest))
    ensures (IntText(n) + rest)[0] == '-' || IsDigit((IntText(n) + rest)[0])
  {
    hide Num, DecValue, WholeDigits;
    var m: nat := if n < 0 then -n else n;
    WholeReadsBack(m, rest);
    NumValue(m);
    var t := Num(m) + rest;
    var s := IntText(n) + rest;
    if n < 0 {
      Assoc("-", Num(m), rest);
      assert s == "-" + t;
      assert s[0] == '-' && s[1..] == t;
    } else {
      assert s == t;
    }
    assert DecValue(t[..|Num(m)|]) == DecValue(Num(m));
  }

  // ---- values -------------------------------------------------------------

  /** Numbers are integers up to 2^53 in size. */
  predicate Exact(v: Value) {
    match v
    case Int(n) => -0x20_0000_0000_0000 <= n <= 0x20_0000_0000_0000
    case Real(_) => false
    case Arr(items) => ItemsExact(items)
    case Obj(members) => MembersExact(members)
    case _ => true
  }

  predicate ItemsExact(items: seq<Value>) {
    items == [] || (Exact(items[0]) && ItemsExact(items[1..]))
  }

  predicate MembersExact(members: seq<Member>) {
    members == [] || (Exact(members[0].value) && MembersExact(members[1..]))
  }

  /** Printed values start with no white space and no closing bracket. */
  lemma ValueStarts(v: Value, show: string -> string, rest: string)
    requires Exact(v)
    ensures var s := ValueText(v, show) + rest;
            s != "" && !IsBlankChar(s[0]) && s[0] != ']' && s[0] != '}' && SkipSpace(s) == s
  {
    hide ItemsText, MembersText, EscapeJson, Num, NumberAt;
    var s := ValueText(v, show) + rest;
    match v {
      case Int(n) =>
        var m: nat := if n < 0 then -n else n;
        assert Num(m) != "" && IsDigit(Num(m)[0]);
        assert s[0] == IntText(n)[0];
      case Str(t) => assert s[0] == Quote(t)[0];
      case Arr(items) => assert s[0] == '[';
      case Obj(members) => assert s[0] == '{';
      case _ =>
    }
  }

  lemma LiteralReadsBack(word: string, v: Value, rest: string, nodes: nat)
    requires word != ""
    ensures LiteralAt(word, v, word + rest, nodes) == Some((v, rest, nodes))
  {
    assert (word + rest)[|word|..] == rest;
  }

  lemma {:induction false} ValueReadsBack(v: Value, show: string -> string, rest: string, depth: nat, nodes: nat, lim: Limits)
    requires Exact(v) && Stops(rest)
    ensures ValueAt(ValueText(v, show) + rest, depth, nodes, lim) ==
            if Fits(v, depth, nodes, lim) then Some((v, rest, nodes + Count(v))) else None
    decreases v
  {
    hide ItemsText, MembersText, EscapeJson, Num, NumberAt, ArrayAt, ObjectAt, StringAt, IntText, StringFits, LiteralAt, ItemsFit, MembersFit,
      ItemsExact, MembersExact, Count;
    ValueStarts(v, show, rest);
    CountForms(v);
    match v {
      case Null => LiteralReadsBack("null", Null, rest, nodes + 1);
      case Bool(b) =>
        LiteralReadsBack("true", Bool(true), rest, nodes + 1);
        LiteralReadsBack("false", Bool(false), rest, nodes + 1);
      case Int(n) => NumberReadsBack(n, rest);
      case Str(s) =>
        QuoteOpens(s, rest);
        StringReadsBack(s, rest, lim);
      case Arr(items) =>
        Assoc("[", ItemsText(items, show) + "]", rest);
        Assoc(ItemsText(items, show), "]", rest);
        var inner := ItemsText(items, show) + ("]" + rest);
        assert ("[" + inner)[1..] == inner;
        ArrayReadsBack(items, show, rest, depth, nodes + 1, lim);
      case Obj(members) =>
        Assoc("{", MembersText(members, show) + "}", rest);
        Assoc(MembersText(members, show), "}", rest);
        var inner := MembersText(members, show) + ("}" + rest);
        assert ("{" + inner)[1..] == inner;
        ObjectReadsBack(members, show, rest, depth, nodes + 1, lim);
    }
  }

  lemma CountForms(v: Value)
    ensures Count(v) == match v case Arr(items) => 1 + ItemsCount(items) case Obj(members) => 1 + MembersCount(members) case _ => 1
    ensures v.Arr? ==> (Exact(v) <==> ItemsExact(v.items))
    ensures v.Obj? ==> (Exact(v) <==> MembersExact(v.members))
  {
  }

  lemma {:induction false} ArrayReadsBack(items: seq<Value>, show: string -> string, rest: string, depth: nat, nodes: nat, lim: Limits)
    requires ItemsExact(items)
    ensures ArrayAt(ItemsText(items, show) + ("]" + rest), depth, nodes, lim) ==
            if ItemsFit(items, depth, nodes, lim) then Some((Arr(items), rest, nodes + ItemsCount(items))) else None
    decreases items, 1
  {
    hide ItemsAt, ValueText, Fits, Exact, Count;
    var s := ItemsText(items, show) + ("]" + rest);
    if items == [] {
      assert s == "]" + rest;
      assert s[0] == ']' && s[1..] == rest;
    } else {
      ItemsReadBack(items, show, rest, depth, nodes, lim);
      FirstItem(items, show, rest);
    }
  }

  lemma FirstItem(items: seq<Value>, show: string -> string, rest: string)
    requires items != [] && ItemsExact(items)
    ensures var s := ItemsText(items, show) + ("]" + rest); s != "" && SkipSpace(s) == s && s[0] != ']'
  {
    hide ValueText, Exact;
    var t := ValueText(items[0], show);
    if |items| == 1 {
      ValueStarts(items[0], show, "]" + rest);
    } else {
      Assoc(t, "," + ItemsText(items[1..], show), "]" + rest);
      ValueStarts(items[0], show, ("," + ItemsText(items[1..], show)) + ("]" + rest));
    }
  }

  lemma ItemsStep(s: string, depth: nat, nodes: nat, lim: Limits, item: Value, rest: string, nodes': nat)
    requires SkipSpace(s) == s && ValueAt(s, depth + 1, nodes, lim) == Some((item, rest, nodes'))
    requires rest != "" && !IsBlankChar(rest[0])
    ensures ItemsAt(s, depth, nodes, lim) ==
            if rest[0] == ',' then
              (match ItemsAt(rest[1..], depth, nodes', lim)
               case None => None
               case Some((more, rest', nodes'')) => Some(([item] + more, rest', nodes'')))
            else if rest[0] == ']' then Some(([item], rest[1..], nodes'))
            else None
  {
    hide ValueAt;
  }

  lemma ItemsFail(s: string, depth: nat, nodes: nat, lim: Limits)
    requires SkipSpace(s) == s && ValueAt(s, depth + 1, nodes, lim) == None
    ensures ItemsAt(s, depth, nodes, lim) == None
  {
  }

  lemma {:induction false} ItemsReadBack(items: seq<Value>, show: string -> string, rest: string, depth: nat, nodes: nat, lim: Limits)
    requires items != [] && ItemsExact(items)
    ensures ItemsAt(ItemsText(items, show) + ("]" + rest), depth, nodes, lim) ==
            if ItemsFit(items, depth, nodes, lim) then Some((items, rest, nodes + ItemsCount(items))) else None
    decreases items, 0
  {
    hide ItemsAt, ValueAt, ValueText, Fits, Exact, Count;
    var first, close := ValueText(items[0], show), "]" + rest;
    var after := if |items| == 1 then close else "," + (ItemsText(items[1..], show) + close);
    if |items| == 1 {
      assert close[1..] == rest;
      assert items == [items[0]];
      OneItem(items, depth, nodes, lim);
    } else {
      Assoc(first, "," + ItemsText(items[1..], show), close);
      Assoc(",", ItemsText(items[1..], show), close);
      assert after[1..] == ItemsText(items[1..], show) + close;
      assert items == [items[0]] + items[1..];
    }
    assert ItemsText(items, show) + close == first + after;
    ValueReadsBack(items[0], show, after, depth + 1, nodes, lim);
    ValueStarts(items[0], show, after);
    if Fits(items[0], depth + 1, nodes, lim) {
      ItemsStep(first + after, depth, nodes, lim, items[0], after, nodes + Count(items[0]));
      if |items| > 1 {
        ItemsReadBack(items[1..], show, rest, depth, nodes + Count(items[0]), lim);
      }
    } else {
      ItemsFail(first + after, depth, nodes, lim);
    }
  }

  lemma OneItem(items: seq<Value>, depth: nat, nodes: nat, lim: Limits)
    requires |items| == 1
    ensures ItemsCount(items) == Count(items[0]) && (ItemsFit(items, depth, nodes, lim) <==> Fits(items[0], depth + 1, nodes, lim))
  {
    hide Count, Fits;
    assert items[1..] == [];
  }

  // ---- objects ------------------------------------------------------------

  lemma {:induction false} ObjectReadsBack(members: seq<Member>, show: string -> string, rest: string, depth: nat, nodes: nat, lim: Limits)
    requires MembersExact(members)
    ensures ObjectAt(MembersText(members, show) + ("}" + rest), depth, nodes, lim) ==
            if MembersFit(members, depth, nodes, lim) then Some((Obj(members), rest, nodes + MembersCount(members))) else None
    decreases members, 1
  {
    hide MembersAt, ValueText, Fits, Exact, Count, Quote, StringFits;
    var s := MembersText(members, show) + ("}" + rest);
    if members == [] {
      assert s == "}" + rest;
      assert s[0] == '}' && s[1..] == rest;
    } else {
      MembersReadBack(members, show, rest, depth, nodes, lim);
      FirstMember(members, show, rest);
    }
  }

  lemma FirstMember(members: seq<Member>, show: string -> string, rest: string)
    requires members != []
    ensures var s := MembersText(members, show) + ("}" + rest); s != "" && SkipSpace(s) == s && s[0] == '"'
  {
    hide ValueText, EscapeJson;
    var s := MembersText(members, show) + ("}" + rest);
    assert s[0] == Quote(members[0].name)[0];
  }

  /** A member name, its colon and what follows. */
  lemma NameReadsBack(name: string, after: string, lim: Limits)
    ensures NameAt(Quote(name) + (":" + after), lim) == if StringFits(name, lim) then Some((name, after)) else None
  {
    hide StringAt, EscapeJson, StringFits, Quote;
    QuoteOpens(name, ":" + after);
    StringReadsBack(name, ":" + after, lim);
    assert (":" + after)[1..] == after;
  }

  lemma MembersStep(s: string, depth: nat, nodes: nat, lim: Limits, name: string, after: string, value: Value, rest: string, nodes': nat)
    requires NameAt(s, lim) == Some((name, after)) && SkipSpace(after) == after
    requires ValueAt(after, depth + 1, nodes, lim) == Some((value, rest, nodes')) && rest != "" && !IsBlankChar(rest[0])
    ensures MembersAt(s, depth, nodes, lim) ==
            if rest[0] == ',' then
              (match MembersAt(rest[1..], depth, nodes', lim)
               case None => None
               case Some((more, rest', nodes'')) => Some(([Member(name, value)] + more, rest', nodes'')))
            else if rest[0] == '}' then Some(([Member(name, value)], rest[1..], nodes'))
            else None
  {
    hide ValueAt, NameAt;
  }

  lemma MembersFail(s: string, depth: nat, nodes: nat, lim: Limits)
    requires NameAt(s, lim).Some? ==>
               SkipSpace(NameAt(s, lim).value.1) == NameAt(s, lim).value.1 && ValueAt(NameAt(s, lim).value.1, depth + 1, nodes, lim) == None
    ensures MembersAt(s, depth, nodes, lim) == None
  {
    hide NameAt, ValueAt;
  }

  lemma {:induction false} MembersReadBack(members: seq<Member>, show: string -> string, rest: string, depth: nat, nodes: nat, lim: Limits)
    requires members != [] && MembersExact(members)
    ensures MembersAt(MembersText(members, show) + ("}" + rest), depth, nodes, lim) ==
            if MembersFit(members, depth, nodes, lim) then Some((members, rest, nodes + MembersCount(members))) else None
    decreases members, 0
  {
    hide MembersAt, ValueAt, ValueText, NameAt, Fits, Exact, Count, Quote, StringFits;
    var m := members[0];
    var q, first, close := Quote(m.name), ValueText(m.value, show), "}" + rest;
    var after := if |members| == 1 then close else "," + (MembersText(members[1..], show) + close);
    if |members| == 1 {
      assert close[1..] == rest;
      assert members == [m];
      OneMember(members, depth, nodes, lim);
      Assoc(q, ":" + first, close);
      Assoc(":", first, close);
    } else {
      var more := "," + MembersText(members[1..], show);
      Assoc(q, ":" + (first + more), close);
      Assoc(":", first + more, close);
      Assoc(first, more, close);
      Assoc(",", MembersText(members[1..], show), close);
      assert after[1..] == MembersText(members[1..], show) + close;
      assert members == [m] + members[1..];
    }
    var s := q + (":" + (first + after));
    assert MembersText(members, show) + close == s;
    NameReadsBack(m.name, first + after, lim);
    ValueReadsBack(m.value, show, after, depth + 1, nodes, lim);
    ValueStarts(m.value, show, after);
    if StringFits(m.name, lim) && Fits(m.value, depth + 1, nodes, lim) {
      MembersStep(s, depth, nodes, lim, m.name, first + after, m.value, after, nodes + Count(m.value));
      if |members| > 1 {
        MembersReadBack(members[1..], show, rest, depth, nodes + Count(m.value), lim);
      }
    } else {
      MembersFail(s, depth, nodes, lim);
    }
  }

  lemma OneMember(members: seq<Member>, depth: nat, nodes: nat, lim: Limits)
    requires |members| == 1
    ensures MembersCount(members) == Count(members[0].value)
    ensures MembersFit(members, depth, nodes, lim) <==>
            StringFits(members[0].name, lim) && Fits(members[0].value, depth + 1, nodes, lim)
  {
    hide Count, Fits, StringFits;
    assert members[1..] == [];
  }

  // ---- whatever is accepted -----------------------------------------------

  /** Valid UTF-8, at most four bytes longer than the limit: one escape may end it. */
  predicate StringBounded(s: string, lim: Limits) {
    Valid(s) && |s| <= lim.maxString + 4
  }

  predicate StringsBounded(v: Value, lim: Limits) {
    match v
    case Str(s) => StringBounded(s, lim)
    case Arr(items) => ItemStringsBounded(items, lim)
    case Obj(members) => MemberStringsBounded(members, lim)
    case _ => true
  }

  predicate ItemStringsBounded(items: seq<Value>, lim: Limits) {
    items == [] || (StringsBounded(items[0], lim) && ItemStringsBounded(items[1..], lim))
  }

  predicate MemberStringsBounded(members: seq<Member>, lim: Limits) {
    members == [] ||
    (StringBounded(members[0].name, lim) && StringsBounded(members[0].value, lim) && MemberStringsBounded(members[1..], lim))
  }

  lemma {:induction false} CharsBounded(s: string, size: nat, lim: Limits)
    ensures var r := CharsAt(s, size, lim); r.Some? ==> r.value.0 == "" || size + |r.value.0| <= lim.maxString + 4
    decreases |s|
  {
    hide EscapeAt;
    if s != "" && s[0] != '"' && size <= lim.maxString && s[0] >= ' ' {
      if s[0] != '\\' {
        CharsBounded(s[1..], size + 1, lim);
      } else if EscapeAt(s[1..]).Some? {
        var (bytes, rest) := EscapeAt(s[1..]).value;
        CharsBounded(rest, size + |bytes|, lim);
      }
    }
  }

  lemma StringIsBounded(s: string, lim: Limits)
    ensures StringAt(s, lim).Some? ==> StringBounded(StringAt(s, lim).value.0, lim)
  {
    hide CharsAt, Valid;
    CharsBounded(s, 0, lim);
  }

  /** What is read at a depth after some values keeps within the limits. */
  predicate Respects(v: Value, depth: nat, before: nat, after: nat, lim: Limits) {
    depth + Depth(v) <= lim.maxDepth && after == before + Count(v) <= lim.maxNodes && StringsBounded(v, lim)
  }

  lemma {:induction false} ValueRespects(s: string, depth: nat, nodes: nat, lim: Limits)
    ensures var r := ValueAt(s, depth, nodes, lim); r.Some? ==> Respects(r.value.0, depth, nodes, r.value.2, lim)
    decreases |s|, 2
  {
    hide ArrayAt, ObjectAt, StringAt, NumberAt, StringBounded;
    if depth <= lim.maxDepth && nodes + 1 <= lim.maxNodes && s != "" {
      StringIsBounded(s[1..], lim);
      if s[0] == '{' {
        ObjectRespects(s[1..], depth, nodes + 1, lim);
      } else if s[0] == '[' {
        ArrayRespects(s[1..], depth, nodes + 1, lim);
      }
      NumberIsScalar(s);
    }
  }

  lemma NumberIsScalar(s: string)
    ensures NumberAt(s).Some? ==> NumberAt(s).value.0.Int? || NumberAt(s).value.0.Real?
  {
  }

  /** An array or object read after its own node was counted. */
  predicate ListRespects(depth: nat, before: nat, after: nat, listDepth: nat, count: nat, strings: bool, lim: Limits) {
    depth + listDepth <= lim.maxDepth && after == before + count <= lim.maxNodes && strings
  }

  lemma {:induction false} ArrayRespects(s: string, depth: nat, nodes: nat, lim: Limits)
    requires depth <= lim.maxDepth && nodes <= lim.maxNodes
    ensures var r := ArrayAt(s, depth, nodes, lim);
            r.Some? ==> (r.value.0.Arr? &&
              ListRespects(depth, nodes, r.value.2, ItemsDepth(r.value.0.items), ItemsCount(r.value.0.items),
                           ItemStringsBounded(r.value.0.items, lim), lim))
    decreases |s|, 4
  {
    hide ItemsAt, StringsBounded, Depth, Count;
    ItemsRespect(SkipSpace(s), depth, nodes, lim);
  }

  lemma {:induction false} ItemsRespect(s: string, depth: nat, nodes: nat, lim: Limits)
    requires depth <= lim.maxDepth && nodes <= lim.maxNodes
    ensures var r := ItemsAt(s, depth, nodes, lim);
            r.Some? ==> ListRespects(depth, nodes, r.value.2, ItemsDepth(r.value.0), ItemsCount(r.value.0), ItemStringsBounded(r.value.0, lim), lim)
    decreases |s|, 3
  {
    hide ValueAt, StringsBounded, Depth, Count;
    ValueRespects(SkipSpace(s), depth + 1, nodes, lim);
    var first := ValueAt(SkipSpace(s), depth + 1, nodes, lim);
    if first.Some? {
      var (item, rest, nodes') := first.value;
      var t := SkipSpace(rest);
      if t != "" && t[0] == ',' {
        ItemsRespect(t[1..], depth, nodes', lim);
        if ItemsAt(t[1..], depth, nodes', lim).Some? {
          var more := ItemsAt(t[1..], depth, nodes', lim).value.0;
          assert ([item] + more)[1..] == more;
        }
      } else {
        assert [item][1..] == [];
      }
    }
  }

  lemma {:induction false} ObjectRespects(s: string, depth: nat, nodes: nat, lim: Limits)
    requires depth <= lim.maxDepth && nodes <= lim.maxNodes
    ensures var r := ObjectAt(s, depth, nodes, lim);
            r.Some? ==> (r.value.0.Obj? &&
              ListRespects(depth, nodes, r.value.2, MembersDepth(r.value.0.members), MembersCount(r.value.0.members),
                           MemberStringsBounded(r.value.0.members, lim), lim))
    decreases |s|, 4
  {
    hide MembersAt, StringsBounded, Depth, Count, StringBounded;
    MembersRespect(SkipSpace(s), depth, nodes, lim);
  }

  lemma NameIsBounded(s: string, lim: Limits)
    ensures NameAt(s, lim).Some? ==> StringBounded(NameAt(s, lim).value.0, lim)
  {
    hide StringAt, StringBounded;
    var t := SkipSpace(s);
    if t != "" {
      StringIsBounded(t[1..], lim);
    }
  }

  lemma {:induction false} MembersRespect(s: string, depth: nat, nodes: nat, lim: Limits)
    requires depth <= lim.maxDepth && nodes <= lim.maxNodes
    ensures var r := MembersAt(s, depth, nodes, lim);
            r.Some? ==> ListRespects(depth, nodes, r.value.2, MembersDepth(r.value.0), MembersCount(r.value.0), MemberStringsBounded(r.value.0, lim), lim)
    decreases |s|, 3
  {
    hide ValueAt, NameAt, StringsBounded, Depth, Count, StringBounded;
    NameIsBounded(s, lim);
    if NameAt(s, lim).Some? {
      var (name, after) := NameAt(s, lim).value;
      ValueRespects(SkipSpace(after), depth + 1, nodes, lim);
      var first := ValueAt(SkipSpace(after), depth + 1, nodes, lim);
      if first.Some? {
        var (value, rest, nodes') := first.value;
        var t := SkipSpace(rest);
        var m := Member(name, value);
        if t != "" && t[0] == ',' {
          MembersRespect(t[1..], depth, nodes', lim);
          if MembersAt(t[1..], depth, nodes', lim).Some? {
            var more := MembersAt(t[1..], depth, nodes', lim).value.0;
            assert ([m] + more)[1..] == more;
          }
        } else {
          assert [m][1..] == [];
        }
      }
    }
  }

}
