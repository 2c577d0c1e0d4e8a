/** What the tests of Sieve scripts mean: when each of them holds, in terms of the headers, the transaction, the flags
    and the text of the message, and what the address parts are. */
module SieveMatches {
  import opened Text
  import opened SieveVariables
  import opened SieveTests
  import P = SieveParse
  import G = Glob

  // ---- one value and one key ----------------------------------------------

  lemma LowerSame(a: string, b: string)
    ensures ToLower(a) == ToLower(b) <==> G.SameText(a, b, true)
  {
    if ToLower(a) == ToLower(b) {
      assert |a| == |ToLower(a)| == |ToLower(b)| == |b|;
      forall i | 0 <= i < |a|
        ensures G.Same(a[i], b[i], true)
      {
        ToLowerAt(a, i);
        ToLowerAt(b, i);
      }
    }
    if G.SameText(a, b, true) {
      forall i | 0 <= i < |a|
        ensures ToLower(a)[i] == ToLower(b)[i]
      {
        ToLowerAt(a, i);
        ToLowerAt(b, i);
        assert G.Same(a[i], b[i], true);
      }
    }
  }

  lemma {:induction false} LowerSlice(s: string, i: nat, j: nat)
    requires i <= j <= |s|
    ensures ToLower(s)[i..j] == ToLower(s[i..j])
  {
    forall k | 0 <= k < j - i
      ensures ToLower(s)[i..j][k] == ToLower(s[i..j])[k]
    {
      ToLowerAt(s, i + k);
      ToLowerAt(s[i..j], k);
    }
  }

  /** Some part of the value is the key. */
  predicate Somewhere(value: string, key: string, fold: bool) {
    exists i :: 0 <= i <= |value| && SameAt(value, key, i, fold)
  }

  predicate SameAt(value: string, key: string, i: nat, fold: bool) {
    i + |key| <= |value| && G.SameText(value[i..i + |key|], key, fold)
  }

  lemma ExactSame(a: string, b: string)
    ensures a == b <==> G.SameText(a, b, false)
  {
  }

  lemma IncludesIs(value: string, key: string, fold: bool)
    ensures (if fold then Includes(ToLower(value), ToLower(key)) else Includes(value, key)) <==> Somewhere(value, key, fold)
  {
    hide ToLower, G.SameText;
    forall i | 0 <= i <= |value|
      ensures (if fold then StandsAt(ToLower(value), ToLower(key), i) else StandsAt(value, key, i)) <==> SameAt(value, key, i, fold)
    {
      if i + |key| <= |value| {
        LowerSlice(value, i, i + |key|);
        LowerSame(value[i..i + |key|], key);
        ExactSame(value[i..i + |key|], key);
      }
    }
  }

  /** A value matches when it is the key, when the key stands somewhere in it, or when wildcards can be filled so that
      it is the key; in the last case only if that is found within the budget. Case counts for `i;octet` alone. */
  lemma MatchMeans(value: string, key: string, matchType: string, comparator: string)
    ensures var (fold, found) := (comparator != "i;octet", MatchOne(value, key, matchType, comparator));
            && (matchType == "is" ==> (found.Some? <==> G.SameText(value, key, fold)))
            && (matchType == "contains" ==> (found.Some? <==> Somewhere(value, key, fold)))
            && (matchType == "matches" ==>
                (found.Some? <==>
                 && (exists caps :: G.Spells(G.Items(key), caps, value, fold))
                 && 1 + G.Calls(G.Items(key), value, fold) <= 2_000_000))
            && (matchType == "matches" && found.Some? ==>
                && found.value != [] && found.value[0] == value
                && G.Spells(G.Items(key), found.value[1..], value, fold)
                && forall other :: G.Spells(G.Items(key), other, value, fold) ==> G.NoLonger(found.value[1..], other))
  {
    hide G.Best, G.Calls, G.Items, G.Spells, G.SameText, ToLower, Includes, Somewhere, G.NoLonger;
    var fold := comparator != "i;octet";
    if matchType == "is" {
      LowerSame(value, key);
      ExactSame(value, key);
    } else if matchType == "contains" {
      IncludesIs(value, key, fold);
    } else if matchType == "matches" {
      G.BestIsComplete(G.Items(key), value, fold);
      var best := G.Best(G.Items(key), value, fold);
      if best.Some? {
        G.MatchMeans(key, value, best.value, fold);
        assert ([value] + best.value)[1..] == best.value;
      }
    }
  }

  // ---- values and keys ----------------------------------------------------

  predicate Matches(value: string, key: string, t: P.Test, vars: Variables) {
    MatchOne(value, Expanded(key, vars), t.matchType, t.comparator).Some?
  }

  lemma FirstOrLater<T>(xs: seq<T>)
    requires xs != []
    ensures forall x :: x in xs <==> x == xs[0] || x in xs[1..]
  {
    assert xs == [xs[0]] + xs[1..];
  }

  lemma {:induction false} KeysMatch(value: string, t: P.Test, keys: seq<string>, vars: Variables)
    ensures MatchKeys(value, keys, t.matchType, t.comparator, vars).0 <==> exists k :: k in keys && Matches(value, k, t, vars)
  {
    hide MatchOne, Expanded;
    if keys != [] {
      KeysMatch(value, t, keys[1..], vars);
      FirstOrLater(keys);
      assert MatchOne(value, Expanded(keys[0], vars), t.matchType, t.comparator).Some? == Matches(value, keys[0], t, vars);
    }
  }

  lemma {:induction false} AnyMatch(values: seq<string>, t: P.Test, vars: Variables)
    ensures MatchAny(values, t.keys, t.matchType, t.comparator, vars).0 <==>
            exists v, k :: v in values && k in t.keys && Matches(v, k, t, vars)
  {
    hide MatchKeys, Matches;
    if values != [] {
      KeysMatch(values[0], t, t.keys, vars);
      AnyMatch(values[1..], t, vars);
      assert values == [values[0]] + values[1..];
    }
  }

  // ---- where values come from ---------------------------------------------

  predicate Called(header: (string, string), name: string) {
    ToLower(TrimSpace(header.0)) == ToLower(TrimSpace(name))
  }

  lemma {:induction false} HeaderValuesHave(headers: seq<(string, string)>, name: string, v: string)
    ensures v in HeaderValues(headers, name) <==> exists h :: h in headers && Called(h, name) && v == TrimSpace(h.1)
  {
    hide ToLower, TrimSpace;
    if headers != [] {
      HeaderValuesHave(headers[1..], name, v);
      assert headers == [headers[0]] + headers[1..];
    }
  }

  /** The value of some header with one of the names. */
  predicate InHeaders(headers: seq<(string, string)>, names: seq<string>, vars: Variables, v: string) {
    exists n, h :: n in names && h in headers && Called(h, Expanded(n, vars)) && v == TrimSpace(h.1)
  }

  lemma {:induction false} ValuesOfAllHave(headers: seq<(string, string)>, names: seq<string>, vars: Variables, v: string)
    ensures v in ValuesOfAll(headers, names, vars) <==> InHeaders(headers, names, vars, v)
  {
    hide HeaderValues, Expanded, Called, TrimSpace;
    if names != [] {
      HeaderValuesHave(headers, Expanded(names[0], vars), v);
      ValuesOfAllHave(headers, names[1..], vars, v);
      assert names == [names[0]] + names[1..];
    }
  }

  predicate PartOf(addr: string, part: string, separator: string, v: string) {
    addr != "" && AddressPart(addr, part, separator) == Some(v)
  }

  lemma {:induction false} PartsOfHave(addrs: seq<string>, part: string, v: string)
    ensures v in PartsOf(addrs, part) <==> exists a :: a in addrs && PartOf(a, part, "+", v)
  {
    hide AddressPart;
    if addrs != [] {
      PartsOfHave(addrs[1..], part, v);
      FirstOrLater(addrs);
      var first := if addrs[0] == "" then None else AddressPart(addrs[0], part, "+");
      assert PartOf(addrs[0], part, "+", v) <==> first == Some(v);
      assert v in PartsOf(addrs, part) <==> first == Some(v) || v in PartsOf(addrs[1..], part);
    }
  }

  lemma {:induction false} PartsInAllHave(mail: Mail, values: seq<string>, part: string, v: string)
    ensures v in PartsInAll(mail, values, part) <==> exists x, a :: x in values && a in mail.addresses(x) && PartOf(a, part, "+", v)
  {
    hide PartsOf, PartOf;
    if values != [] {
      PartsOfHave(mail.addresses(values[0]), part, v);
      PartsInAllHave(mail, values[1..], part, v);
      assert values == [values[0]] + values[1..];
    }
  }

  /** The part of some address in some header with one of the names. */
  ghost predicate InAddresses(mail: Mail, names: seq<string>, part: string, vars: Variables, v: string) {
    exists x, a :: InHeaders(mail.headers, names, vars, x) && a in mail.addresses(x) && PartOf(a, part, "+", v)
  }

  lemma {:induction false} AddressesHave(mail: Mail, names: seq<string>, part: string, vars: Variables, v: string)
    ensures v in AddressesOfAll(mail, names, part, vars) <==> InAddresses(mail, names, part, vars, v)
  {
    hide PartsInAll, PartOf, HeaderValues, Expanded, Called, TrimSpace, InHeaders;
    if names == [] {
      assert forall x :: !InHeaders(mail.headers, names, vars, x) by {
        NoNamesNoValues(mail.headers, vars);
      }
    } else {
      var here := HeaderValues(mail.headers, Expanded(names[0], vars));
      PartsInAllHave(mail, here, part, v);
      AddressesHave(mail, names[1..], part, vars, v);
      forall x
        ensures InHeaders(mail.headers, names, vars, x) <==> x in here || InHeaders(mail.headers, names[1..], vars, x)
      {
        FirstName(mail.headers, names, vars, x);
      }
    }
  }

  lemma NoNamesNoValues(headers: seq<(string, string)>, vars: Variables)
    ensures forall x :: !InHeaders(headers, [], vars, x)
  {
  }

  lemma FirstName(headers: seq<(string, string)>, names: seq<string>, vars: Variables, x: string)
    requires names != []
    ensures InHeaders(headers, names, vars, x) <==>
            x in HeaderValues(headers, Expanded(names[0], vars)) || InHeaders(headers, names[1..], vars, x)
  {
    hide HeaderValues, Expanded, Called, TrimSpace;
    HeaderValuesHave(headers, Expanded(names[0], vars), x);
    assert names == [names[0]] + names[1..];
  }

  /** The part of the sender or of the recipient of the transaction, whichever a name names. */
  predicate InEnvelope(mail: Mail, names: seq<string>, part: string, v: string) {
    || ((exists n :: n in names && ToLower(TrimSpace(n)) == "from") && AddressPart(mail.mailFrom, part, mail.separator) == Some(v))
    || ((exists n :: n in names && ToLower(TrimSpace(n)) == "to") && AddressPart(mail.rcptTo, part, mail.separator) == Some(v))
  }

  lemma {:induction false} EnvelopeHas(mail: Mail, names: seq<string>, part: string, v: string)
    ensures v in EnvelopeValues(mail, names, part) <==> InEnvelope(mail, names, part, v)
  {
    hide AddressPart, ToLower, TrimSpace;
    if names != [] {
      EnvelopeHas(mail, names[1..], part, v);
      assert names == [names[0]] + names[1..];
    }
  }

  lemma {:induction false} AllPresentIs(headers: seq<(string, string)>, names: seq<string>, vars: Variables)
    ensures AllPresent(headers, names, vars) <==>
            forall n :: n in names ==> exists h :: h in headers && Called(h, Expanded(n, vars))
  {
    hide HeaderValues, Expanded, Called, TrimSpace;
    if names != [] {
      AllPresentIs(headers, names[1..], vars);
      SomeHeader(headers, Expanded(names[0], vars));
      assert names == [names[0]] + names[1..];
    }
  }

  lemma SomeHeader(headers: seq<(string, string)>, name: string)
    ensures HeaderValues(headers, name) != [] <==> exists h :: h in headers && Called(h, name)
  {
    hide HeaderValues, Called, TrimSpace;
    if HeaderValues(headers, name) != [] {
      HeaderValuesHave(headers, name, HeaderValues(headers, name)[0]);
    }
    if h :| h in headers && Called(h, name) {
      HeaderValuesHave(headers, name, TrimSpace(h.1));
    }
  }

  lemma {:induction false} ExpandedHave(ss: seq<string>, vars: Variables, v: string)
    ensures v in ExpandedAll(ss, vars) <==> exists s :: s in ss && v == Expanded(s, vars)
  {
    hide Expanded;
    if ss != [] {
      ExpandedHave(ss[1..], vars, v);
      assert ss == [ss[0]] + ss[1..];
    }
  }

  // ---- when a test holds --------------------------------------------------

  /** A value that a test looks at. */
  ghost predicate Looks(t: P.Test, mail: Mail, flags: seq<string>, vars: Variables, v: string) {
    match t.kind
    case Header => InHeaders(mail.headers, t.names, vars, v)
    case Address => InAddresses(mail, t.names, t.addressPart, vars, v)
    case Envelope => InEnvelope(mail, t.names, t.addressPart, v)
    case StringTest => exists s :: s in t.names && v == Expanded(s, vars)
    case HasFlag => v in flags
    case _ => false
  }

  /** The tests that match hold when a value they look at matches a key. */
  lemma LooksAndMatches(t: P.Test, mail: Mail, flags: seq<string>, vars: Variables)
    requires t.kind in {P.Header, P.Address, P.Envelope, P.StringTest, P.HasFlag}
    ensures Evaluated(t, mail, flags, vars).0 <==>
            exists v, k :: Looks(t, mail, flags, vars, v) && k in t.keys && Matches(v, k, t, vars)
  {
    hide MatchAny, ValuesOfAll, AddressesOfAll, EnvelopeValues, ExpandedAll, InHeaders, InAddresses, InEnvelope, Matches, Expanded;
    var values := match t.kind
      case Header => ValuesOfAll(mail.headers, t.names, vars)
      case Address => AddressesOfAll(mail, t.names, t.addressPart, vars)
      case Envelope => EnvelopeValues(mail, t.names, t.addressPart)
      case StringTest => ExpandedAll(t.names, vars)
      case _ => flags;
    forall v
      ensures v in values <==> Looks(t, mail, flags, vars, v)
    {
      match t.kind
      case Header => ValuesOfAllHave(mail.headers, t.names, vars, v);
      case Address => AddressesHave(mail, t.names, t.addressPart, vars, v);
      case Envelope => EnvelopeHas(mail, t.names, t.addressPart, v);
      case StringTest => ExpandedHave(t.names, vars, v);
      case _ =>
    }
    AnyMatch(values, t, vars);
  }

  /** The others: headers that are there, the size, and the text after the headers, for which `:is` means `:contains`. */
  lemma OtherTests(t: P.Test, mail: Mail, flags: seq<string>, vars: Variables)
    ensures t.kind == P.Exists ==>
              (Evaluated(t, mail, flags, vars).0 <==>
               forall n :: n in t.names ==> exists h :: h in mail.headers && Called(h, Expanded(n, vars)))
    ensures t.kind == P.Size && t.sizeRelation == "over" ==> (Evaluated(t, mail, flags, vars).0 <==> |mail.raw| > t.sizeLimit)
    ensures t.kind == P.Size && t.sizeRelation == "under" ==> (Evaluated(t, mail, flags, vars).0 <==> |mail.raw| < t.sizeLimit)
    ensures t.kind == P.Body ==>
              (Evaluated(t, mail, flags, vars).0 <==>
               exists k :: k in t.keys &&
                 Matches(BodyOf(mail.raw), k, if t.matchType == "is" then t.(matchType := "contains") else t, vars))
  {
    hide MatchAny, BodyOf, Matches, AllPresent, Called, Expanded;
    AllPresentIs(mail.headers, t.names, vars);
    var t' := if t.matchType == "is" then t.(matchType := "contains") else t;
    AnyMatch([BodyOf(mail.raw)], t', vars);
  }

  // ---- tests put together -------------------------------------------------

  /** Without variables no test leaves anything behind. */
  lemma {:induction false} FirstOfIs(ts: seq<P.Test>, outcome: bool, mail: Mail, flags: seq<string>, vars: Variables)
    requires forall i :: 0 <= i < |ts| ==> Evaluated(ts[i], mail, flags, vars).1 == vars
    ensures FirstOf(ts, outcome, mail, flags, vars) ==
            ((if exists i :: 0 <= i < |ts| && Evaluated(ts[i], mail, flags, vars).0 == outcome then outcome else !outcome), vars)
  {
    hide Evaluated;
    if ts != [] {
      assert forall i :: 0 <= i < |ts[1..]| ==> ts[1..][i] == ts[i + 1];
      FirstOfIs(ts[1..], outcome, mail, flags, vars);
      if Evaluated(ts[0], mail, flags, vars).0 != outcome {
        if i :| 0 <= i < |ts| && Evaluated(ts[i], mail, flags, vars).0 == outcome {
          assert ts[1..][i - 1] == ts[i];
        }
        if i :| 0 <= i < |ts[1..]| && Evaluated(ts[1..][i], mail, flags, vars).0 == outcome {
          assert ts[i + 1] == ts[1..][i];
        }
      }
    }
  }

  // ---- parts of addresses -------------------------------------------------

  predicate Without(s: string, c: char) {
    forall i :: 0 <= i < |s| ==> s[i] != c
  }

  /** The first place where the separator occurs is after `user`. */
  predicate Splits(local: string, user: string, separator: string, detail: string) {
    && separator != "" && local == user + (separator + detail)
    && forall i :: 0 <= i < |user| ==> !StandsAt(local, separator, i)
  }

  /** What stands before and after the last at sign, and what the first separator makes of the former. */
  lemma PartsOfAddress(local: string, domain: string, separator: string)
    requires Without(domain, '@')
    ensures var addr := local + ("@" + domain);
            && AddressPart(addr, "all", separator) == Some(addr)
            && AddressPart(addr, "localpart", separator) == Some(local)
            && AddressPart(addr, "domain", separator) == Some(domain)
            && (forall user, detail :: Splits(local, user, separator, detail) ==>
                  AddressPart(addr, "user", separator) == Some(user) && AddressPart(addr, "detail", separator) == Some(detail))
            && (separator == "" || (forall i :: 0 <= i <= |local| ==> !StandsAt(local, separator, i)) ==>
                  AddressPart(addr, "user", separator) == Some(local) && AddressPart(addr, "detail", separator) == None)
  {
    hide Splits, StandsAt, FindText, LastOf;
    var addr := local + ("@" + domain);
    AtSign(local, domain);
    forall user, detail | Splits(local, user, separator, detail)
      ensures separator != "" && FindText(local, separator, 0) == Some(|user|)
      ensures |user| + |separator| <= |local| && local[..|user|] == user && local[|user| + |separator|..] == detail
    {
      SplitFound(local, user, separator, detail);
    }
    if separator != "" && forall i :: 0 <= i <= |local| ==> !StandsAt(local, separator, i) {
      NotFound(local, separator, 0);
    }
  }

  lemma AtSign(local: string, domain: string)
    requires Without(domain, '@')
    ensures var addr := local + ("@" + domain);
            LastOf(addr, '@') == Some(|local|) && addr[..|local|] == local && addr[|local| + 1..] == domain
  {
    var addr := local + ("@" + domain);
    assert addr[|local|] == '@';
    assert forall i :: |local| < i < |addr| ==> addr[i] == domain[i - |local| - 1];
    LastIs(addr, '@', |local|);
  }

  lemma SplitFound(local: string, user: string, separator: string, detail: string)
    requires Splits(local, user, separator, detail)
    ensures separator != "" && FindText(local, separator, 0) == Some(|user|)
    ensures |user| + |separator| <= |local| && local[..|user|] == user && local[|user| + |separator|..] == detail
  {
    assert local[|user|..|user| + |separator|] == separator;
    assert StandsAt(local, separator, |user|);
    FirstFound(local, separator, 0, |user|);
  }

  lemma {:induction false} LastIs(s: string, c: char, k: nat)
    requires k < |s| && s[k] == c && forall i :: k < i < |s| ==> s[i] != c
    ensures LastOf(s, c) == Some(k)
    decreases |s|
  {
    if k < |s| - 1 {
      LastIs(s[..|s| - 1], c, k);
    }
  }

  lemma {:induction false} FirstFound(s: string, pattern: string, from: nat, k: nat)
    requires from <= k && StandsAt(s, pattern, k) && forall i :: from <= i < k ==> !StandsAt(s, pattern, i)
    ensures FindText(s, pattern, from) == Some(k)
    decreases k - from
  {
    if from < k {
      assert !StandsAt(s, pattern, from);
      FirstFound(s, pattern, from + 1, k);
    }
  }

  lemma {:induction false} NotFound(s: string, pattern: string, from: nat)
    requires from <= |s| && forall i :: from <= i <= |s| ==> !StandsAt(s, pattern, i)
    ensures FindText(s, pattern, from) == None
    decreases |s| - from
  {
    assert !StandsAt(s, pattern, from);
    if from + |pattern| <= |s| && from < |s| {
      NotFound(s, pattern, from + 1);
    }
  }

  /** The body of a message is what follows its first empty line. */
  lemma BodyFollowsEmptyLine(head: string, body: string, raw: string)
    requires raw == head + ("\r\n\r\n" + body) && forall i :: 0 <= i < |head| ==> !StandsAt(raw, "\r\n\r\n", i)
    ensures BodyOf(raw) == body
  {
    assert raw[|head|..|head| + 4] == "\r\n\r\n";
    FirstFound(raw, "\r\n\r\n", 0, |head|);
    assert raw[|head| + 4..] == body;
  }
}
