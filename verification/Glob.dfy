/** The budgeted `:matches` of core/src/sieve.cpp. */
module Glob {
  import opened Text
  import opened SieveLex

  // Matching is that of section 2.7.1 of RFC 5228, with the captures of section 4 of RFC 5229.

  // ---- what a pattern means -----------------------------------------------

  datatype Item = Literal(c: char) | One | Many

  predicate Escapes(p: string) {
    |p| > 1 && p[0] == '\\'
  }

  /** The items of a pattern; a backslash quotes the character after it. */
  function Items(p: string): seq<Item> {
    if p == "" then []
    else if Escapes(p) then [Literal(p[1])] + Items(p[2..])
    else [if p[0] == '*' then Many else if p[0] == '?' then One else Literal(p[0])] + Items(p[1..])
  }

  predicate Same(a: char, b: char, fold: bool) {
    if fold then LowerChar(a) == LowerChar(b) else a == b
  }

  /** The value is the items in order, each wildcard standing for the next capture. */
  predicate Spells(items: seq<Item>, caps: seq<string>, value: string, fold: bool) {
    if items == [] then caps == [] && value == ""
    else if items[0].Literal? then
      value != "" && Same(value[0], items[0].c, fold) && Spells(items[1..], caps, value[1..], fold)
    else
      && caps != []
      && (items[0].One? ==> |caps[0]| == 1)
      && caps[0] <= value
      && Spells(items[1..], caps[1..], value[|caps[0]|..], fold)
  }

  /** The pattern with its wildcards replaced by the captures. */
  function Fill(items: seq<Item>, caps: seq<string>): string {
    if items == [] then ""
    else if items[0].Literal? then [items[0].c] + Fill(items[1..], caps)
    else if caps == [] then ""
    else caps[0] + Fill(items[1..], caps[1..])
  }

  predicate SameText(a: string, b: string, fold: bool) {
    |a| == |b| && forall i :: 0 <= i < |a| ==> Same(a[i], b[i], fold)
  }

  /** The lengths of `a` come no later in lexicographic order than those of `b`. */
  predicate NoLonger(a: seq<string>, b: seq<string>) {
    a == [] || (b != [] && (|a[0]| < |b[0]| || (|a[0]| == |b[0]| && NoLonger(a[1..], b[1..]))))
  }

  // ---- the search ---------------------------------------------------------

  /** The first way to match in the order the search tries them. */
  function Best(items: seq<Item>, v: string, fold: bool): Option<seq<string>>
    decreases items, 0, 0
  {
    if items == [] then (if v == "" then Some([]) else None)
    else match items[0]
      case Literal(c) => if v == "" || !Same(v[0], c, fold) then None else Best(items[1..], v[1..], fold)
      case One => if v == "" then None else Took(v[..1], Best(items[1..], v[1..], fold))
      case Many => BestFrom(items[1..], v, 0, fold)
  }

  /** The star takes `k` characters, or else more. */
  function BestFrom(items: seq<Item>, v: string, k: nat, fold: bool): Option<seq<string>>
    requires k <= |v| + 1
    decreases items, 1, |v| + 1 - k
  {
    if k > |v| then None
    else if Best(items, v[k..], fold).Some? then Took(v[..k], Best(items, v[k..], fold))
    else BestFrom(items, v, k + 1, fold)
  }

  function Took(cap: string, rest: Option<seq<string>>): Option<seq<string>> {
    match rest
    case None => None
    case Some(more) => Some([cap] + more)
  }

  /** How many further calls of the matcher an unlimited search makes. */
  function Calls(items: seq<Item>, v: string, fold: bool): nat
    decreases items, 0, 0
  {
    if items == [] then 0
    else match items[0]
      case Literal(c) => if v == "" || !Same(v[0], c, fold) then 0 else Calls(items[1..], v[1..], fold)
      case One => if v == "" then 0 else Calls(items[1..], v[1..], fold)
      case Many => CallsFrom(items[1..], v, 0, fold)
  }

  function CallsFrom(items: seq<Item>, v: string, k: nat, fold: bool): nat
    requires k <= |v| + 1
    decreases items, 1, |v| + 1 - k
  {
    if k > |v| then 0
    else 1 + Calls(items, v[k..], fold) +
         (if Best(items, v[k..], fold).Some? then 0 else CallsFrom(items, v, k + 1, fold))
  }

  // ---- the search finds the least match -----------------------------------

  lemma {:induction false} BestSpells(items: seq<Item>, v: string, fold: bool)
    ensures Best(items, v, fold).Some? ==> Spells(items, Best(items, v, fold).value, v, fold)
    decreases items, 0, 0
  {
    hide Same;
    if items != [] && Best(items, v, fold).Some? {
      match items[0]
      case Literal(c) => BestSpells(items[1..], v[1..], fold);
      case One =>
        BestSpells(items[1..], v[1..], fold);
        TookSpells(items, v, 1, Best(items[1..], v[1..], fold), fold);
      case Many => BestFromSpells(items, v, 0, fold);
    }
  }

  lemma TookSpells(items: seq<Item>, v: string, k: nat, rest: Option<seq<string>>, fold: bool)
    requires items != [] && !items[0].Literal? && k <= |v| && (items[0].One? ==> k == 1)
    requires rest.Some? && Spells(items[1..], rest.value, v[k..], fold)
    ensures Spells(items, Took(v[..k], rest).value, v, fold)
  {
    assert ([v[..k]] + rest.value)[1..] == rest.value;
  }

  lemma {:induction false} BestFromSpells(items: seq<Item>, v: string, k: nat, fold: bool)
    requires items != [] && items[0].Many? && k <= |v| + 1
    ensures var r := BestFrom(items[1..], v, k, fold); r.Some? ==> Spells(items, r.value, v, fold)
    decreases items[1..], 1, |v| + 1 - k
  {
    hide Spells, Best;
    if k <= |v| {
      if Best(items[1..], v[k..], fold).Some? {
        BestSpells(items[1..], v[k..], fold);
        TookSpells(items, v, k, Best(items[1..], v[k..], fold), fold);
      } else {
        BestFromSpells(items, v, k + 1, fold);
      }
    }
  }

  /** Any way to spell the value is found, or one with lexicographically shorter captures is. */
  lemma {:induction false} BestIsLeast(items: seq<Item>, caps: seq<string>, v: string, fold: bool)
    requires Spells(items, caps, v, fold)
    ensures Best(items, v, fold).Some? && NoLonger(Best(items, v, fold).value, caps)
    decreases items, 0, 0
  {
    hide Same;
    if items != [] {
      match items[0]
      case Literal(c) => BestIsLeast(items[1..], caps, v[1..], fold);
      case One =>
        BestIsLeast(items[1..], caps[1..], v[1..], fold);
        assert ([v[..1]] + Best(items[1..], v[1..], fold).value)[1..] == Best(items[1..], v[1..], fold).value;
      case Many => BestFromIsLeast(items, caps, v, 0, fold);
    }
  }

  lemma {:induction false} BestFromIsLeast(items: seq<Item>, caps: seq<string>, v: string, k: nat, fold: bool)
    requires items != [] && items[0].Many? && Spells(items, caps, v, fold) && k <= |caps[0]|
    ensures var r := BestFrom(items[1..], v, k, fold); r.Some? && NoLonger(r.value, caps)
    decreases items[1..], 1, |v| + 1 - k
  {
    hide Best;
    var here := Best(items[1..], v[k..], fold);
    if k == |caps[0]| {
      BestIsLeast(items[1..], caps[1..], v[k..], fold);
    }
    if here.Some? {
      assert ([v[..k]] + here.value)[1..] == here.value;
    } else {
      BestFromIsLeast(items, caps, v, k + 1, fold);
    }
  }

  /** The search succeeds exactly when some captures spell the value. */
  lemma BestIsComplete(items: seq<Item>, v: string, fold: bool)
    ensures Best(items, v, fold).Some? <==> exists caps :: Spells(items, caps, v, fold)
  {
    BestSpells(items, v, fold);
    if caps :| Spells(items, caps, v, fold) {
      BestIsLeast(items, caps, v, fold);
    }
  }

  /** Putting the captures back into the pattern gives the value, up to case when folding. */
  lemma {:induction false} SpellsFills(items: seq<Item>, caps: seq<string>, v: string, fold: bool)
    requires Spells(items, caps, v, fold)
    ensures SameText(v, Fill(items, caps), fold)
  {
    if items != [] {
      if items[0].Literal? {
        SpellsFills(items[1..], caps, v[1..], fold);
        var rest := Fill(items[1..], caps);
        assert forall i :: 0 < i < |v| ==> v[i] == v[1..][i - 1] && Fill(items, caps)[i] == rest[i - 1];
      } else {
        var n := |caps[0]|;
        SpellsFills(items[1..], caps[1..], v[n..], fold);
        var rest := Fill(items[1..], caps[1..]);
        assert forall i :: 0 <= i < n ==> v[i] == caps[0][i];
        assert forall i :: n <= i < |v| ==> v[i] == v[n..][i - n] && Fill(items, caps)[i] == rest[i - n];
      }
    }
  }

  // ---- the matcher object -------------------------------------------------

  const MAX_STEPS: nat := 2000000

  predicate IsWild(c: char) {
    c == '*' || c == '?'
  }

  /** The number of each wildcard of the pattern, counting on from `n`; zero elsewhere. */
  function Ordinals(p: string, n: nat): (r: seq<nat>)
    ensures |r| == |p|
  {
    if p == "" then []
    else if Escapes(p) then [0, 0] + Ordinals(p[2..], n)
    else if IsWild(p[0]) then [n + 1] + Ordinals(p[1..], n + 1)
    else [0] + Ordinals(p[1..], n)
  }

  function Wilds(p: string): nat {
    if p == "" then 0
    else if Escapes(p) then Wilds(p[2..])
    else (if IsWild(p[0]) then 1 else 0) + Wilds(p[1..])
  }

  /** Captures in front of those the rest of the search yields. */
  function Onto(acc: seq<string>, rest: Option<seq<string>>): Option<seq<string>> {
    match rest
    case None => None
    case Some(more) => Some(acc + more)
  }

  lemma OntoOne(acc: seq<string>, cap: string, rest: Option<seq<string>>)
    ensures Onto(acc, Took(cap, rest)) == Onto(acc + [cap], rest)
    ensures Onto([], rest) == rest
  {
    if rest.Some? {
      Assoc(acc, [cap], rest.value);
      assert [] + rest.value == rest.value;
    }
  }

  /** The items, ordinals and wildcards of a pattern that continues at `i`. */
  lemma PatternAt(p: string, i: nat, n: nat)
    requires i < |p|
    ensures p[i..] != "" && p[i..][0] == p[i] && p[i..][1..] == p[i + 1..]
    ensures Escapes(p[i..]) <==> p[i] == '\\' && i + 1 < |p|
    ensures Escapes(p[i..]) ==>
              && Items(p[i..]) == [Literal(p[i + 1])] + Items(p[i + 2..])
              && Ordinals(p[i..], n) == [0, 0] + Ordinals(p[i + 2..], n)
              && Wilds(p[i..]) == Wilds(p[i + 2..])
    ensures !Escapes(p[i..]) ==>
              && Items(p[i..]) == [if p[i] == '*' then Many else if p[i] == '?' then One else Literal(p[i])] + Items(p[i + 1..])
              && Ordinals(p[i..], n) == (if IsWild(p[i]) then [n + 1] + Ordinals(p[i + 1..], n + 1) else [0] + Ordinals(p[i + 1..], n))
              && Wilds(p[i..]) == (if IsWild(p[i]) then 1 else 0) + Wilds(p[i + 1..])
  {
    if i + 1 < |p| {
      assert p[i..][1] == p[i + 1] && p[i..][2..] == p[i + 2..];
    }
  }

  lemma Drop1<T>(x: T, s: seq<T>)
    ensures ([x] + s)[0] == x && ([x] + s)[1..] == s
  {
  }

  lemma ValueAt(v: string, i: nat)
    requires i < |v|
    ensures v[i..] != "" && v[i..][0] == v[i] && v[i..][1..] == v[i + 1..] && v[i..][..1] == v[i..i + 1]
  {
  }

  /** What the search makes of its first item. */
  lemma SearchStep(item: Item, rest: seq<Item>, v: string, i: nat, fold: bool)
    requires i <= |v|
    ensures var items := [item] + rest;
            match item
            case Literal(c) =>
              if i == |v| || !Same(v[i], c, fold) then Best(items, v[i..], fold) == None && Calls(items, v[i..], fold) == 0
              else Best(items, v[i..], fold) == Best(rest, v[i + 1..], fold) && Calls(items, v[i..], fold) == Calls(rest, v[i + 1..], fold)
            case One =>
              if i == |v| then Best(items, v[i..], fold) == None && Calls(items, v[i..], fold) == 0
              else Best(items, v[i..], fold) == Took(v[i..i + 1], Best(rest, v[i + 1..], fold)) &&
                   Calls(items, v[i..], fold) == Calls(rest, v[i + 1..], fold)
            case Many =>
              Best(items, v[i..], fold) == BestFrom(rest, v[i..], 0, fold) && Calls(items, v[i..], fold) == CallsFrom(rest, v[i..], 0, fold)
  {
    hide Same, BestFrom, CallsFrom;
    Drop1(item, rest);
    if i < |v| {
      ValueAt(v, i);
    } else {
      assert v[i..] == "";
    }
  }

  lemma StarStep(rest: seq<Item>, v: string, i: nat, k: nat, fold: bool)
    requires i <= k <= |v|
    ensures var r := Best(rest, v[k..], fold);
            && BestFrom(rest, v[i..], k - i, fold) == (if r.Some? then Took(v[i..k], r) else BestFrom(rest, v[i..], k + 1 - i, fold))
            && CallsFrom(rest, v[i..], k - i, fold) ==
               1 + Calls(rest, v[k..], fold) + (if r.Some? then 0 else CallsFrom(rest, v[i..], k + 1 - i, fold))
  {
    hide Best, Calls;
    assert v[i..][k - i..] == v[k..] && v[i..][..k - i] == v[i..k];
  }

  lemma StarEnds(rest: seq<Item>, v: string, fold: bool)
    ensures BestFrom(rest, v, |v| + 1, fold) == None && CallsFrom(rest, v, |v| + 1, fold) == 0
  {
  }

  lemma SearchEnds(v: string, i: nat, fold: bool)
    requires i <= |v|
    ensures Best([], v[i..], fold) == (if i == |v| then Some([]) else None) && Calls([], v[i..], fold) == 0
  {
  }

  lemma OrdinalsEmpty(n: nat)
    ensures Ordinals("", n) == [] && Wilds("") == 0 && Items("") == []
  {
  }

  /** The ordinals of a pattern all of whose positions from `i` on are still zero. */
  lemma OrdinalsStep(p: string, i: nat, n: nat, ordinal: seq<nat>)
    requires i < |p| && |ordinal| == |p| && forall k :: i <= k < |p| ==> ordinal[k] == 0
    ensures if Escapes(p[i..]) then i + 1 < |p| && ordinal[..i + 2] + Ordinals(p[i + 2..], n) == ordinal[..i] + Ordinals(p[i..], n)
            else if IsWild(p[i]) then ordinal[i := n + 1][..i + 1] + Ordinals(p[i + 1..], n + 1) == ordinal[..i] + Ordinals(p[i..], n)
            else ordinal[..i + 1] + Ordinals(p[i + 1..], n) == ordinal[..i] + Ordinals(p[i..], n)
  {
    hide Ordinals;
    PatternAt(p, i, n);
    if Escapes(p[i..]) {
      assert ordinal[..i + 2] == ordinal[..i] + [0, 0];
      Assoc(ordinal[..i], [0, 0], Ordinals(p[i + 2..], n));
    } else if IsWild(p[i]) {
      assert ordinal[i := n + 1][..i + 1] == ordinal[..i] + [n + 1];
      Assoc(ordinal[..i], [n + 1], Ordinals(p[i + 1..], n + 1));
    } else {
      assert ordinal[..i + 1] == ordinal[..i] + [0];
      Assoc(ordinal[..i], [0], Ordinals(p[i + 1..], n));
    }
  }

  /** The first `n` entries are unchanged, `found` follows them, and `left` entries are still to come. */
  ghost predicate Recorded(caps: Option<seq<string>>, before: Option<seq<string>>, n: nat, found: seq<string>, left: nat) {
    (caps.Some? <==> before.Some?) &&
    (caps.Some? ==>
      && |caps.value| == |before.value| == n + |found| + left
      && caps.value[..n] == before.value[..n]
      && caps.value[n..n + |found|] == found)
  }

  lemma RecordOne(caps: Option<seq<string>>, before: Option<seq<string>>, n: nat, found: seq<string>, left: nat, cap: string)
    requires Recorded(caps, before, n, found, left) && left > 0
    ensures var caps' := if caps.Some? then Some(caps.value[n + |found| := cap]) else None;
            Recorded(caps', before, n, found + [cap], left - 1)
  {
  }

  /** A deeper match has kept everything up to its own wildcard, `n`, and filled in what follows. */
  lemma RecordDeeper(caps: Option<seq<string>>, middle: Option<seq<string>>, before: Option<seq<string>>, n: nat,
                     deeper: seq<string>, left: nat, cap: string)
    requires Recorded(middle, before, n, [], 1 + |deeper| + left) && Recorded(caps, middle, n + 1, deeper, left)
    ensures Recorded(caps, before, n, [], 1 + |deeper| + left)
    ensures var caps' := if caps.Some? then Some(caps.value[n := cap]) else None;
            Recorded(caps', before, n, [cap] + deeper, left)
  {
    if caps.Some? {
      var c := caps.value[n := cap];
      assert caps.value[..n] == caps.value[..n + 1][..n] == middle.value[..n + 1][..n] == middle.value[..n];
      assert c[n..n + 1] == [cap] && c[n + 1..n + 1 + |deeper|] == caps.value[n + 1..n + 1 + |deeper|];
      assert c[n..n + 1 + |deeper|] == c[n..n + 1] + c[n + 1..n + 1 + |deeper|];
      assert c[..n] == caps.value[..n];
    }
  }

  lemma RecordJoin(caps: Option<seq<string>>, middle: Option<seq<string>>, before: Option<seq<string>>, n: nat,
                   a: seq<string>, b: seq<string>, left: nat)
    requires Recorded(middle, before, n, a, |b| + left) && Recorded(caps, middle, n + |a|, b, left)
    ensures Recorded(caps, before, n, a + b, left)
  {
    if caps.Some? {
      var c, d, k := caps.value, middle.value, n + |a|;
      assert c[..n] == c[..k][..n] == d[..k][..n] == d[..n];
      assert c[n..k] == c[..k][n..k] == d[..k][n..k] == d[n..k];
      assert c[n..k + |b|] == c[n..k] + c[k..k + |b|];
    }
  }

  lemma Forget(caps: Option<seq<string>>, before: Option<seq<string>>, n: nat, found: seq<string>, left: nat)
    requires Recorded(caps, before, n, found, left)
    ensures Recorded(caps, before, n, [], |found| + left)
  {
  }

  lemma NothingRecorded(caps: Option<seq<string>>, n: nat, left: nat)
    requires caps.Some? ==> |caps.value| == n + left
    ensures Recorded(caps, caps, n, [], left)
  {
  }

  lemma RecordedSize(caps: Option<seq<string>>, before: Option<seq<string>>, n: nat, found: seq<string>, left: nat)
    requires Recorded(caps, before, n, found, left)
    ensures caps.Some? ==> |caps.value| == n + |found| + left
  {
  }

  lemma OntoBounds(acc: seq<string>)
    ensures Onto(acc, None) == None && Onto(acc, Some([])) == Some(acc)
  {
    assert acc + [] == acc;
  }

  lemma OntoSome(acc: seq<string>, rest: Option<seq<string>>)
    ensures Onto(acc, rest).Some? <==> rest.Some?
    ensures rest.Some? ==> Onto(acc, rest).value == acc + rest.value
  {
  }

  lemma TookSome(cap: string, rest: Option<seq<string>>)
    ensures Took(cap, rest).Some? <==> rest.Some?
    ensures rest.Some? ==> Took(cap, rest).value == [cap] + rest.value
  {
  }

  /** What a star at the end of a run of recorded captures leaves recorded. */
  lemma StarRecorded(ok: bool, caps: Option<seq<string>>, middle: Option<seq<string>>, before: Option<seq<string>>, n: nat,
                     acc: seq<string>, found: Option<seq<string>>, left: nat)
    requires Recorded(middle, before, n, acc, left) && Recorded(caps, middle, n + |acc|, [], left)
    requires ok ==> found.Some? && |found.value| == left && Recorded(caps, middle, n + |acc|, found.value, 0)
    ensures Onto(acc, found).Some? <==> found.Some?
    ensures Recorded(caps, before, n, [], |acc| + left)
    ensures ok ==> |Onto(acc, found).value| == |acc| + left && Recorded(caps, before, n, Onto(acc, found).value, 0)
  {
    hide Recorded;
    RecordJoin(caps, middle, before, n, acc, [], left);
    Forget(caps, before, n, acc + [], left);
    if ok {
      RecordJoin(caps, middle, before, n, acc, found.value, 0);
    }
  }

  function Capped(n: nat): nat {
    if n <= MAX_STEPS then n else MAX_STEPS + 1
  }

  class Globber {
    const value: string
    const pattern: string
    const fold: bool
    var caps: Option<seq<string>>
    var ordinal: seq<nat>
    var steps: nat

    constructor (v: string, p: string, f: bool, wantCaps: bool)
      ensures value == v && pattern == p && fold == f && steps == 0 && ordinal == Ordinals(p, 0)
      ensures caps.Some? <==> wantCaps
      ensures caps.Some? ==> |caps.value| == Wilds(p) + 1
    {
      hide Ordinals, Wilds, Items;
      value, pattern, fold := v, p, f;
      var numbers: seq<nat> := seq(|p|, _ => 0);
      var n := 0;
      var i := 0;
      assert p[0..] == p && numbers[..0] + Ordinals(p, 0) == Ordinals(p, 0);
      while i < |p|
        invariant i <= |p| && |numbers| == |p|
        invariant forall k :: i <= k < |p| ==> numbers[k] == 0
        invariant numbers[..i] + Ordinals(p[i..], n) == Ordinals(p, 0)
        invariant n + Wilds(p[i..]) == Wilds(p)
      {
        PatternAt(p, i, n);
        OrdinalsStep(p, i, n, numbers);
        if p[i] == '\\' && i + 1 < |p| {
          i := i + 2;
          continue;
        }
        if p[i] == '*' || p[i] == '?' {
          n := n + 1;
          numbers := numbers[i := n];
        }
        i := i + 1;
      }
      assert p[|p|..] == "";
      OrdinalsEmpty(n);
      assert numbers[..|p|] + [] == numbers;
      ordinal, steps := numbers, 0;
      caps := if wantCaps then Some(seq(n + 1, _ => "")) else None;
    }

    /** What an unlimited search from these positions finds, and the calls it makes. */
    ghost function Found(vi: nat, pi: nat): Option<seq<string>>
      requires vi <= |value| && pi <= |pattern|
    {
      Best(Items(pattern[pi..]), value[vi..], fold)
    }

    ghost function Work(vi: nat, pi: nat): nat
      requires vi <= |value| && pi <= |pattern|
    {
      Calls(Items(pattern[pi..]), value[vi..], fold)
    }

    lemma Step(vi: nat, pi: nat, n: nat)
      requires vi <= |value| && pi < |pattern|
      ensures Escapes(pattern[pi..]) <==> pattern[pi] == '\\' && pi + 1 < |pattern|
      ensures Escapes(pattern[pi..]) ==>
                if vi == |value| || !Same(value[vi], pattern[pi + 1], fold) then Found(vi, pi) == None && Work(vi, pi) == 0
                else Found(vi, pi) == Found(vi + 1, pi + 2) && Work(vi, pi) == Work(vi + 1, pi + 2)
      ensures !Escapes(pattern[pi..]) ==>
                if pattern[pi] == '*' then
                  && Found(vi, pi) == BestFrom(Items(pattern[pi + 1..]), value[vi..], 0, fold)
                  && Work(vi, pi) == CallsFrom(Items(pattern[pi + 1..]), value[vi..], 0, fold)
                else if pattern[pi] == '?' then
                  if vi == |value| then Found(vi, pi) == None && Work(vi, pi) == 0
                  else Found(vi, pi) == Took(value[vi..vi + 1], Found(vi + 1, pi + 1)) && Work(vi, pi) == Work(vi + 1, pi + 1)
                else if vi == |value| || !Same(value[vi], pattern[pi], fold) then Found(vi, pi) == None && Work(vi, pi) == 0
                else Found(vi, pi) == Found(vi + 1, pi + 1) && Work(vi, pi) == Work(vi + 1, pi + 1)
    {
      hide Best, BestFrom, Calls, CallsFrom, Items, Ordinals, Wilds, Same;
      PatternAt(pattern, pi, n);
      if Escapes(pattern[pi..]) {
        SearchStep(Literal(pattern[pi + 1]), Items(pattern[pi + 2..]), value, vi, fold);
      } else {
        var c := pattern[pi];
        SearchStep(if c == '*' then Many else if c == '?' then One else Literal(c), Items(pattern[pi + 1..]), value, vi, fold);
      }
    }

    method Record(which: nat, from: nat, upTo: nat)
      requires from <= upTo <= |value|
      modifies this`caps
      ensures caps == if old(caps).Some? && which < |old(caps).value| then Some(old(caps).value[which := value[from..upTo]]) else old(caps)
    {
      if caps.Some? && which < |caps.value| {
        caps := Some(caps.value[which := value[from..upTo]]);
      }
    }

    lemma OrdinalAt(pi: nat, n: nat, numbers: seq<nat>)
      requires pi < |pattern| && |numbers| == |pattern| && numbers[pi..] == Ordinals(pattern[pi..], n)
      ensures if Escapes(pattern[pi..]) then pi + 1 < |pattern| && numbers[pi + 2..] == Ordinals(pattern[pi + 2..], n)
              else if IsWild(pattern[pi]) then numbers[pi] == n + 1 && numbers[pi + 1..] == Ordinals(pattern[pi + 1..], n + 1)
              else numbers[pi + 1..] == Ordinals(pattern[pi + 1..], n)
    {
      hide Ordinals, Items, Wilds;
      PatternAt(pattern, pi, n);
      if Escapes(pattern[pi..]) {
        assert numbers[pi + 2..] == numbers[pi..][2..];
      } else {
        assert numbers[pi + 1..] == numbers[pi..][1..] && numbers[pi] == numbers[pi..][0];
      }
    }

    lemma AtEnd(vi: nat, n: nat)
      requires vi <= |value|
      ensures Found(vi, |pattern|) == (if vi == |value| then Some([]) else None) && Work(vi, |pattern|) == 0
      ensures Wilds(pattern[|pattern|..]) == 0
    {
      assert pattern[|pattern|..] == "";
      OrdinalsEmpty(n);
      SearchEnds(value, vi, fold);
    }

    /** The rest of the value against the rest of the pattern, `n` wildcards of which come before. */
    method Match(vi: nat, pi: nat, ghost n: nat) returns (ok: bool)
      requires vi <= |value| && pi <= |pattern| && steps <= MAX_STEPS
      requires |ordinal| == |pattern| && ordinal[pi..] == Ordinals(pattern[pi..], n)
      requires caps.Some? ==> |caps.value| == n + 1 + Wilds(pattern[pi..])
      modifies this`caps, this`steps
      ensures steps == Capped(old(steps) + 1 + Work(vi, pi))
      ensures ok <==> Found(vi, pi).Some? && old(steps) + 1 + Work(vi, pi) <= MAX_STEPS
      ensures ok ==> |Found(vi, pi).value| == Wilds(pattern[pi..]) && Recorded(caps, old(caps), n + 1, Found(vi, pi).value, 0)
      ensures Recorded(caps, old(caps), n + 1, [], Wilds(pattern[pi..]))
      decreases |pattern| - pi, 1
    {
      hide Best, BestFrom, Calls, CallsFrom, Items, Ordinals, Wilds, Recorded, Found, Work, Onto, Took, Escapes, Same;
      steps := steps + 1;
      NothingRecorded(caps, n + 1, Wilds(pattern[pi..]));
      if steps > MAX_STEPS {
        return false;
      }
      var i, j := pi, vi;
      ghost var acc: seq<string> := [];
      OntoOne([], "", Found(vi, pi));
      while i < |pattern|
        invariant pi <= i <= |pattern| && vi <= j <= |value| && steps == old(steps) + 1 <= MAX_STEPS
        invariant ordinal[i..] == Ordinals(pattern[i..], n + |acc|)
        invariant Onto(acc, Found(j, i)) == Found(vi, pi) && Work(j, i) == Work(vi, pi)
        invariant Recorded(caps, old(caps), n + 1, acc, Wilds(pattern[i..]))
        invariant |acc| + Wilds(pattern[i..]) == Wilds(pattern[pi..])
      {
        Step(j, i, n + |acc|);
        PatternAt(pattern, i, n + |acc|);
        OrdinalAt(i, n + |acc|, ordinal);
        OntoBounds(acc);
        Forget(caps, old(caps), n + 1, acc, Wilds(pattern[i..]));
        RecordedSize(caps, old(caps), n + 1, acc, Wilds(pattern[i..]));
        var pc := pattern[i];
        if pc == '\\' && i + 1 < |pattern| {
          if j >= |value| || !Same(value[j], pattern[i + 1], fold) {
            return false;
          }
          j, i := j + 1, i + 2;
          continue;
        }
        if pc == '*' {
          ghost var before := caps;
          ok := MatchStar(j, i, n + |acc|);
          StarRecorded(ok, caps, before, old(caps), n + 1, acc, Found(j, i), Wilds(pattern[i..]));
          return;
        }
        if pc == '?' {
          if j >= |value| {
            return false;
          }
          RecordOne(caps, old(caps), n + 1, acc, Wilds(pattern[i..]), value[j..j + 1]);
          OntoOne(acc, value[j..j + 1], Found(j + 1, i + 1));
          Record(ordinal[i], j, j + 1);
          acc := acc + [value[j..j + 1]];
          j, i := j + 1, i + 1;
          continue;
        }
        if j >= |value| || !Same(value[j], pc, fold) {
          return false;
        }
        j, i := j + 1, i + 1;
      }
      AtEnd(j, n);
      OntoBounds(acc);
      Forget(caps, old(caps), n + 1, acc, 0);
      ok := j == |value|;
    }

    /** The loop of a star, which takes as little as it can. */
    method MatchStar(vi: nat, pi: nat, ghost n: nat) returns (ok: bool)
      requires vi <= |value| && pi < |pattern| && pattern[pi] == '*' && steps <= MAX_STEPS
      requires |ordinal| == |pattern| && ordinal[pi..] == Ordinals(pattern[pi..], n)
      requires caps.Some? ==> |caps.value| == n + 1 + Wilds(pattern[pi..])
      modifies this`caps, this`steps
      ensures steps == Capped(old(steps) + Work(vi, pi))
      ensures ok <==> Found(vi, pi).Some? && old(steps) + Work(vi, pi) <= MAX_STEPS
      ensures ok ==> |Found(vi, pi).value| == Wilds(pattern[pi..]) && Recorded(caps, old(caps), n + 1, Found(vi, pi).value, 0)
      ensures Recorded(caps, old(caps), n + 1, [], Wilds(pattern[pi..]))
      decreases |pattern| - pi, 0
    {
      hide Best, BestFrom, Calls, CallsFrom, Items, Ordinals, Wilds, Recorded, Onto, Took, Same;
      Step(vi, pi, n);
      PatternAt(pattern, pi, n);
      OrdinalAt(pi, n, ordinal);
      ghost var rest, left := Items(pattern[pi + 1..]), Wilds(pattern[pi + 1..]);
      NothingRecorded(caps, n + 1, 1 + left);
      var which := ordinal[pi];
      var k := vi;
      while k <= |value|
        invariant vi <= k <= |value| + 1 && steps <= MAX_STEPS
        invariant BestFrom(rest, value[vi..], k - vi, fold) == Found(vi, pi)
        invariant steps + CallsFrom(rest, value[vi..], k - vi, fold) == old(steps) + Work(vi, pi)
        invariant Recorded(caps, old(caps), n + 1, [], 1 + left)
      {
        StarStep(rest, value, vi, k, fold);
        RecordedSize(caps, old(caps), n + 1, [], 1 + left);
        ghost var before := caps;
        ok := Match(k, pi + 1, n + 1);
        ghost var found := Found(k, pi + 1);
        TookSome(value[vi..k], found);
        if ok {
          RecordDeeper(caps, before, old(caps), n + 1, found.value, 0, value[vi..k]);
          Record(which, vi, k);
          Forget(caps, old(caps), n + 1, [value[vi..k]] + found.value, 0);
          return;
        }
        RecordDeeper(caps, before, old(caps), n + 1, [], left, value[vi..k]);
        if steps > MAX_STEPS {
          return;
        }
        k := k + 1;
      }
      StarEnds(rest, value[vi..], fold);
      ok := false;
    }
  }

  /** The value, whole, against the pattern; entry 0 of the captures is the whole value. The search
      succeeds exactly when it finds a match within its budget. */
  method GlobMatch(value: string, pattern: string, fold: bool, wantCaps: bool) returns (ok: bool, caps: Option<seq<string>>)
    ensures var r := Best(Items(pattern), value, fold);
            && (ok <==> r.Some? && 1 + Calls(Items(pattern), value, fold) <= MAX_STEPS)
            && (caps.Some? <==> wantCaps)
            && (ok && wantCaps ==> caps.value == [value] + r.value)
  {
    hide Best, Calls, Items, Ordinals, Wilds;
    var g := new Globber(value, pattern, fold, wantCaps);
    assert pattern[0..] == pattern && value[0..] == value && g.ordinal[0..] == g.ordinal;
    ghost var found := g.Found(0, 0);
    assert found == Best(Items(pattern), value, fold) && g.Work(0, 0) == Calls(Items(pattern), value, fold);
    ghost var before := g.caps;
    ok := g.Match(0, 0, 0);
    caps := g.caps;
    if !ok {
      return;
    }
    if caps.Some? && caps.value != [] {
      assert caps.value == caps.value[..1] + caps.value[1..1 + |found.value|];
      caps := Some(caps.value[0 := value]);
      assert caps.value[0 := value] == [value] + caps.value[1..];
    }
  }

  /** What a caller may conclude from a match: the captures spell the value, no other captures that
      do have lexicographically smaller lengths, and put back they give the value. */
  lemma MatchMeans(pattern: string, value: string, caps: seq<string>, fold: bool)
    requires Best(Items(pattern), value, fold) == Some(caps)
    ensures Spells(Items(pattern), caps, value, fold) && SameText(value, Fill(Items(pattern), caps), fold)
    ensures forall other :: Spells(Items(pattern), other, value, fold) ==> NoLonger(caps, other)
  {
    BestSpells(Items(pattern), value, fold);
    SpellsFills(Items(pattern), caps, value, fold);
    forall other | Spells(Items(pattern), other, value, fold)
      ensures NoLonger(caps, other)
    {
      BestIsLeast(Items(pattern), other, value, fold);
    }
  }

  // ---- the budget ---------------------------------------------------------

  function Stars(items: seq<Item>): nat {
    if items == [] then 0 else (if items[0].Many? then 1 else 0) + Stars(items[1..])
  }

  /** A pattern with `k` stars on a value of length `n` takes at most this many calls. */
  function MostCalls(k: nat, n: nat): nat {
    if k == 0 then 0 else (n + 1) * (1 + MostCalls(k - 1, n))
  }

  /** Every search stays within that bound. */
  lemma {:induction false} StarsBoundCalls(items: seq<Item>, v: string, n: nat, fold: bool)
    requires |v| <= n
    ensures Calls(items, v, fold) <= MostCalls(Stars(items), n)
    decreases items, 0, 0
  {
    hide Same, CallsFrom, MostCalls;
    if items != [] {
      if items[0].Many? {
        StarBoundsCalls(items[1..], v, 0, n, fold);
        OneMoreStar(Stars(items[1..]), n, |v| + 1);
      } else if v != "" {
        StarsBoundCalls(items[1..], v[1..], n, fold);
      }
    }
  }

  lemma {:induction false} StarBoundsCalls(items: seq<Item>, v: string, k: nat, n: nat, fold: bool)
    requires k <= |v| + 1 && |v| <= n
    ensures CallsFrom(items, v, k, fold) <= (|v| + 1 - k) * (1 + MostCalls(Stars(items), n))
    decreases items, 1, |v| + 1 - k
  {
    hide Calls, Best, Stars, MostCalls;
    if k <= |v| {
      StarsBoundCalls(items, v[k..], n, fold);
      StarBoundsCalls(items, v, k + 1, n, fold);
      Scale(|v| - k, 1 + MostCalls(Stars(items), n));
    }
  }

  lemma Scale(a: nat, b: nat)
    ensures (a + 1) * b == a * b + b && 0 <= a * b
  {
  }

  lemma OneMoreStar(k: nat, n: nat, m: nat)
    requires m <= n + 1
    ensures m * (1 + MostCalls(k, n)) <= MostCalls(k + 1, n)
  {
    Product(m, n + 1, 1 + MostCalls(k, n));
  }

  lemma Product(a: nat, b: nat, c: nat)
    requires a <= b
    ensures a * c <= b * c
  {
  }

  function Power(b: nat, e: nat): nat {
    if e == 0 then 1 else b * Power(b, e - 1)
  }

  lemma Reorder(a: nat, b: nat, c: nat)
    ensures (a * b) * c == a * (c * b)
  {
    assert b * c == c * b;
  }

  lemma PolynomialStep(k: nat, b: nat, p: nat, m: nat)
    requires k > 0 && b >= 1 && p >= 1 && m <= (k - 1) * p
    ensures b * (1 + m) <= k * (b * p) && b * p >= 1
  {
    Scale(k - 1, p);
    Product(1 + m, k * p, b);
    Product(1, b, p);
    Reorder(k, p, b);
  }

  /** The bound is polynomial in the length of the value, of the degree of the number of stars. */
  lemma {:induction false} MostCallsIsPolynomial(k: nat, n: nat)
    ensures MostCalls(k, n) <= k * Power(n + 1, k) && Power(n + 1, k) >= 1
  {
    if k > 0 {
      MostCallsIsPolynomial(k - 1, n);
      PolynomialStep(k, n + 1, Power(n + 1, k - 1), MostCalls(k - 1, n));
    }
  }

  lemma OneStarFewCalls(items: seq<Item>, v: string, fold: bool)
    requires Stars(items) <= 1
    ensures Calls(items, v, fold) <= |v| + 1
  {
    hide Calls, Stars;
    StarsBoundCalls(items, v, |v|, fold);
    assert MostCalls(0, |v|) == 0 && MostCalls(1, |v|) == (|v| + 1) * (1 + MostCalls(0, |v|));
  }

  /** A pattern of few enough stars for the length of the value is decided within the budget. */
  lemma FewStarsAreDecided(pattern: string, value: string, fold: bool)
    requires var k := Stars(Items(pattern)); 1 + k * Power(|value| + 1, k) <= MAX_STEPS
    ensures 1 + Calls(Items(pattern), value, fold) <= MAX_STEPS
  {
    hide Calls, Stars, Items, MostCalls, Power;
    StarsBoundCalls(Items(pattern), value, |value|, fold);
    MostCallsIsPolynomial(Stars(Items(pattern)), |value|);
  }
}
