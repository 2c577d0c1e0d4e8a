/** Alias expansion of core/src/mailpolicy.cpp: bounded breadth-first reachability. */
module MailAlias {
  import opened Text

  datatype AliasRow = AliasRow(alias: string, destination: string, enabled: bool)

  const MAX_DEPTH: nat := 10

  // ---- one step -----------------------------------------------------------

  /** The destinations of an alias key, in table order; empty ones are skipped. */
  function Collect(table: seq<AliasRow>, key: string): seq<string> {
    if table == [] then []
    else (if ToLower(table[0].alias) == ToLower(key) && table[0].enabled && table[0].destination != "" then [table[0].destination] else []) +
         Collect(table[1..], key)
  }

  /** What follows the last at sign; nothing when there is none. */
  function AfterAt(addr: string): Option<string> {
    if addr == "" then None
    else if AfterAt(addr[1..]).Some? then AfterAt(addr[1..])
    else if addr[0] == '@' then Some(addr[1..])
    else None
  }

  function DomainOf(addr: string): string {
    if AfterAt(addr).None? then "" else ToLower(AfterAt(addr).value)
  }

  /** An exact alias first, then the catch-all of the domain. */
  function ExpandOnce(table: seq<AliasRow>, addr: string): seq<string> {
    if Collect(table, addr) != [] then Collect(table, addr)
    else if DomainOf(addr) != "" then Collect(table, "@" + DomainOf(addr))
    else []
  }

  predicate Final(table: seq<AliasRow>, addr: string) {
    ExpandOnce(table, addr) == []
  }

  // ---- what one step finds ------------------------------------------------

  /** An enabled row with a destination, whose alias is the key up to case. */
  predicate RowFor(row: AliasRow, key: string) {
    row.enabled && row.destination != "" && ToLower(row.alias) == ToLower(key)
  }

  predicate Listed(table: seq<AliasRow>, key: string) {
    exists k :: 0 <= k < |table| && RowFor(table[k], key)
  }

  predicate Names(table: seq<AliasRow>, key: string, dest: string) {
    exists k :: 0 <= k < |table| && RowFor(table[k], key) && table[k].destination == dest
  }

  lemma {:induction false} CollectNames(table: seq<AliasRow>, key: string, dest: string)
    ensures dest in Collect(table, key) <==> Names(table, key, dest)
  {
    hide ToLower;
    if table != [] {
      CollectNames(table[1..], key, dest);
      if dest in Collect(table[1..], key) {
        var k :| 0 <= k < |table[1..]| && RowFor(table[1..][k], key) && table[1..][k].destination == dest;
        assert table[k + 1] == table[1..][k];
      }
      if k :| 0 <= k < |table| && RowFor(table[k], key) && table[k].destination == dest {
        assert k > 0 ==> table[1..][k - 1] == table[k];
      }
    }
  }

  lemma CollectsSomething(table: seq<AliasRow>, key: string)
    ensures Collect(table, key) != [] <==> Listed(table, key)
  {
    hide ToLower, Collect, RowFor;
    if Collect(table, key) != [] {
      CollectNames(table, key, Collect(table, key)[0]);
    }
    if k :| 0 <= k < |table| && RowFor(table[k], key) {
      CollectNames(table, key, table[k].destination);
    }
  }

  predicate NoAt(s: string) {
    forall i :: 0 <= i < |s| ==> s[i] != '@'
  }

  lemma {:induction false} NothingAfterAt(s: string)
    requires NoAt(s)
    ensures AfterAt(s).None?
  {
    if s != "" {
      NothingAfterAt(s[1..]);
    }
  }

  lemma {:induction false} DomainAfterAt(local: string, domain: string)
    requires NoAt(domain)
    ensures AfterAt(local + ("@" + domain)) == Some(domain)
  {
    var s := local + ("@" + domain);
    if local == "" {
      assert s == "@" + domain && s[1..] == domain;
      NothingAfterAt(domain);
    } else {
      assert s[1..] == local[1..] + ("@" + domain);
      DomainAfterAt(local[1..], domain);
    }
  }

  lemma {:induction false} LowerJoin(a: string, b: string)
    ensures ToLower(a + b) == ToLower(a) + ToLower(b)
  {
    if a == "" {
      assert a + b == b;
    } else {
      assert (a + b)[0] == a[0] && (a + b)[1..] == a[1..] + b;
      LowerJoin(a[1..], b);
    }
  }

  /** Rows for the address itself decide alone. */
  lemma ExactFirst(table: seq<AliasRow>, addr: string, dest: string)
    requires Listed(table, addr)
    ensures dest in ExpandOnce(table, addr) <==> Names(table, addr, dest)
  {
    CollectsSomething(table, addr);
    CollectNames(table, addr, dest);
  }

  /** Without any, those for its domain, written with an at sign in front, decide. */
  lemma CatchAllNext(table: seq<AliasRow>, local: string, domain: string, dest: string)
    requires !Listed(table, local + ("@" + domain)) && NoAt(domain) && domain != ""
    ensures dest in ExpandOnce(table, local + ("@" + domain)) <==> Names(table, "@" + domain, dest)
  {
    hide ToLower, AfterAt, Collect;
    var addr := local + ("@" + domain);
    CollectsSomething(table, addr);
    DomainAfterAt(local, domain);
    LowerJoin("@", domain);
    LowerJoin("@", ToLower(domain));
    LowerTwice(domain);
    CollectByCase(table, "@" + ToLower(domain), "@" + domain);
    CollectNames(table, "@" + domain, dest);
    assert |ToLower(domain)| == |domain|;
  }

  /** An address with no row of its own and no domain leads nowhere. */
  lemma NoDomainNoStep(table: seq<AliasRow>, addr: string)
    requires !Listed(table, addr) && (NoAt(addr) || addr[|addr| - 1] == '@')
    ensures ExpandOnce(table, addr) == []
  {
    CollectsSomething(table, addr);
    if NoAt(addr) {
      NothingAfterAt(addr);
    } else {
      assert addr == addr[..|addr| - 1] + ("@" + "");
      DomainAfterAt(addr[..|addr| - 1], "");
    }
  }

  // ---- case does not matter -----------------------------------------------

  lemma {:induction false} CollectByCase(table: seq<AliasRow>, a: string, b: string)
    requires ToLower(a) == ToLower(b)
    ensures Collect(table, a) == Collect(table, b)
  {
    hide ToLower;
    if table != [] {
      CollectByCase(table[1..], a, b);
    }
  }

  lemma {:induction false} DomainByCase(a: string, b: string)
    requires ToLower(a) == ToLower(b)
    ensures AfterAt(a).Some? <==> AfterAt(b).Some?
    ensures AfterAt(a).Some? ==> ToLower(AfterAt(a).value) == ToLower(AfterAt(b).value)
  {
    assert |ToLower(a)| == |a| && |ToLower(b)| == |b|;
    if a != "" {
      assert ToLower(a)[0] == LowerChar(a[0]) && ToLower(b)[0] == LowerChar(b[0]);
      assert ToLower(a)[1..] == ToLower(a[1..]) && ToLower(b)[1..] == ToLower(b[1..]);
      DomainByCase(a[1..], b[1..]);
    }
  }

  lemma ExpandByCase(table: seq<AliasRow>, a: string, b: string)
    requires ToLower(a) == ToLower(b)
    ensures ExpandOnce(table, a) == ExpandOnce(table, b)
  {
    hide ToLower;
    CollectByCase(table, a, b);
    DomainByCase(a, b);
  }

  // ---- reachability -------------------------------------------------------

  /** The lower-cased addresses that one step leads to. */
  function StepKeys(table: seq<AliasRow>, key: string): set<string> {
    set z | z in ExpandOnce(table, key) :: ToLower(z)
  }

  /** The keys given and those one step on. */
  ghost function Further(table: seq<AliasRow>, keys: set<string>): set<string> {
    keys + set k, z | k in keys && z in StepKeys(table, k) :: z
  }

  /** The lower-cased addresses within so many steps. */
  ghost function Within(table: seq<AliasRow>, addr: string, n: nat): set<string> {
    if n == 0 then {ToLower(addr)} else Further(table, Within(table, addr, n - 1))
  }

  /** Once a step adds nothing, no further step does. */
  lemma {:induction false} WithinStable(table: seq<AliasRow>, addr: string, n: nat, m: nat)
    requires n <= m && Further(table, Within(table, addr, n)) == Within(table, addr, n)
    ensures Within(table, addr, m) == Within(table, addr, n)
    decreases m
  {
    hide Further;
    if n < m {
      WithinStable(table, addr, n, m - 1);
    }
  }

  // ---- the expansion ------------------------------------------------------

  function KeySet(names: seq<string>): set<string> {
    set z | z in names :: ToLower(z)
  }

  predicate DistinctByCase(names: seq<string>) {
    forall i, j :: 0 <= i < j < |names| ==> ToLower(names[i]) != ToLower(names[j])
  }

  /** The results are the final addresses among those seen, each once up to case. */
  ghost predicate Results(table: seq<AliasRow>, result: seq<string>, seen: set<string>, addr: string) {
    && DistinctByCase(result)
    && KeySet(result) == set k | k in seen && Final(table, k)
  }

  /** Every step from what was seen leads to something seen or to the frontier. */
  ghost predicate Bordered(table: seq<AliasRow>, seen: set<string>, from: set<string>, frontier: seq<string>) {
    forall k :: k in from ==> StepKeys(table, k) <= seen + KeySet(frontier)
  }

  lemma KeysAppend(a: seq<string>, b: seq<string>)
    ensures KeySet(a + b) == KeySet(a) + KeySet(b)
  {
    hide ToLower;
    forall k
      ensures k in KeySet(a + b) <==> k in KeySet(a) || k in KeySet(b)
    {
      if z :| z in a && ToLower(z) == k {
        assert z in a + b;
      }
      if z :| z in b && ToLower(z) == k {
        assert z in a + b;
      }
    }
  }

  lemma StepKeysOf(table: seq<AliasRow>, addr: string)
    ensures StepKeys(table, ToLower(addr)) == KeySet(ExpandOnce(table, addr))
    ensures Final(table, ToLower(addr)) <==> Final(table, addr)
  {
    LowerTwice(addr);
    ExpandByCase(table, ToLower(addr), addr);
  }

  /** A candidate not seen before joins the results exactly when it is final. */
  lemma TakeCandidate(table: seq<AliasRow>, addr: string, result: seq<string>, seen: set<string>, candidate: string)
    requires Results(table, result, seen, addr) && ToLower(candidate) !in seen
    ensures Final(table, candidate) ==> Results(table, result + [candidate], seen + {ToLower(candidate)}, addr) && candidate !in result
    ensures !Final(table, candidate) ==> Results(table, result, seen + {ToLower(candidate)}, addr)
  {
    hide ToLower, ExpandOnce;
    var key := ToLower(candidate);
    StepKeysOf(table, candidate);
    KeysAppend(result, [candidate]);
    assert KeySet([candidate]) == {key};
    forall i | 0 <= i < |result|
      ensures ToLower(result[i]) != key
    {
      assert result[i] in result;
      assert ToLower(result[i]) in KeySet(result);
    }
  }

  /** One candidate of the frontier dealt with. */
  lemma BorderStep(table: seq<AliasRow>, seen: set<string>, from: set<string>, frontier: seq<string>, i: nat, next: seq<string>)
    requires i < |frontier|
    ensures KeySet(frontier[..i + 1]) == KeySet(frontier[..i]) + {ToLower(frontier[i])}
  {
    hide ToLower;
    assert frontier[..i + 1] == frontier[..i] + [frontier[i]];
    KeysAppend(frontier[..i], [frontier[i]]);
    assert KeySet([frontier[i]]) == {ToLower(frontier[i])};
  }

  /** With the whole frontier seen, the seen addresses are those one step further. */
  lemma LevelDone(table: seq<AliasRow>, addr: string, depth: nat, frontier: seq<string>, seen: set<string>)
    requires seen == Within(table, addr, depth) + KeySet(frontier)
    requires Bordered(table, Within(table, addr, depth), Within(table, addr, depth), frontier)
    requires KeySet(frontier) <= Within(table, addr, depth + 1)
    ensures seen == Within(table, addr, depth + 1)
  {
    hide StepKeys, KeySet;
    forall k | k in Within(table, addr, depth + 1)
      ensures k in seen
    {
      if k !in Within(table, addr, depth) {
        var j :| j in Within(table, addr, depth) && k in StepKeys(table, j);
      }
    }
  }

  lemma StepsAreWithin(table: seq<AliasRow>, addr: string, depth: nat, key: string)
    requires key in Within(table, addr, depth)
    ensures StepKeys(table, key) <= Within(table, addr, depth + 1)
    ensures Within(table, addr, depth) <= Within(table, addr, depth + 1)
  {
    hide StepKeys;
  }

  /** Each final address within ten steps, once up to case, and nothing else; an address that has no
      expansion gives nothing. */
  method ExpandAlias(table: seq<AliasRow>, addr: string) returns (result: seq<string>)
    ensures Final(table, addr) ==> result == []
    ensures !Final(table, addr) ==>
              DistinctByCase(result) && KeySet(result) == set k | k in Within(table, addr, 10) && Final(table, k)
  {
    hide ToLower, ExpandOnce, StepKeys, Within, Results, Final, KeySet, Bordered;
    var frontier := ExpandOnce(table, addr);
    FinalIs(table, addr);
    if frontier == [] {
      return frontier;
    }
    var seen := [ToLower(addr)];
    result := [];
    Starts(table, addr, frontier);
    var depth: nat := 0;
    while depth < MAX_DEPTH && frontier != []
      invariant depth <= MAX_DEPTH
      invariant Elements(seen) == Within(table, addr, depth)
      invariant Results(table, result, Elements(seen), addr)
      invariant Bordered(table, Elements(seen), Elements(seen), frontier)
      invariant KeySet(frontier) <= Within(table, addr, depth + 1)
    {
      var next: seq<string> := [];
      ghost var level := Elements(seen);
      NothingTaken(table, level, frontier);
      for i := 0 to |frontier|
        invariant Elements(seen) == level + KeySet(frontier[..i])
        invariant Results(table, result, Elements(seen), addr)
        invariant Bordered(table, Elements(seen), Elements(seen) - level, next)
        invariant KeySet(next) <= Within(table, addr, depth + 2)
      {
        var candidate := frontier[i];
        var key := ToLower(candidate);
        BorderStep(table, Elements(seen), level, frontier, i, next);
        if key in seen {
          continue;
        }
        TakeCandidate(table, addr, result, Elements(seen), candidate);
        ElementsGrow(seen, key);
        var further := ExpandOnce(table, candidate);
        FinalIs(table, candidate);
        NextGrows(table, addr, Elements(seen), Elements(seen) - level, next, candidate, depth, frontier, i);
        assert (Elements(seen) + {key}) - level == (Elements(seen) - level) + {key} by {
          assert key !in level;
        }
        seen := seen + [key];
        if further == [] {
          if candidate !in result {
            result := result + [candidate];
          }
        } else {
          next := next + further;
        }
      }
      assert frontier[..|frontier|] == frontier;
      LevelDone(table, addr, depth, frontier, Elements(seen));
      NextBorder(table, addr, depth, level, Elements(seen), frontier, next);
      frontier := next;
      depth := depth + 1;
    }
    if frontier == [] {
      Closed(table, addr, depth, Elements(seen));
    }
    ResultsAre(table, result, Elements(seen), addr);
  }

  function Elements(names: seq<string>): set<string> {
    set z | z in names
  }

  lemma ElementsGrow(names: seq<string>, name: string)
    ensures Elements(names + [name]) == Elements(names) + {name}
  {
  }

  lemma FinalIs(table: seq<AliasRow>, addr: string)
    ensures Final(table, addr) <==> ExpandOnce(table, addr) == []
  {
  }

  lemma Starts(table: seq<AliasRow>, addr: string, frontier: seq<string>)
    requires frontier == ExpandOnce(table, addr) && frontier != []
    ensures Elements([ToLower(addr)]) == Within(table, addr, 0)
    ensures Results(table, [], Elements([ToLower(addr)]), addr)
    ensures Bordered(table, Elements([ToLower(addr)]), Elements([ToLower(addr)]), frontier)
    ensures KeySet(frontier) <= Within(table, addr, 1)
  {
    hide ToLower, ExpandOnce;
    StepKeysOf(table, addr);
    StepsAreWithin(table, addr, 0, ToLower(addr));
  }

  lemma NothingTaken(table: seq<AliasRow>, level: set<string>, frontier: seq<string>)
    ensures level == level + KeySet(frontier[..0])
    ensures Bordered(table, level, level - level, [])
    ensures KeySet([]) == {}
  {
  }

  /** The expansion of a new candidate joins the next frontier. */
  lemma NextGrows(table: seq<AliasRow>, addr: string, seen: set<string>, taken: set<string>, next: seq<string>, candidate: string,
                  depth: nat, frontier: seq<string>, i: nat)
    requires Bordered(table, seen, taken, next) && KeySet(next) <= Within(table, addr, depth + 2)
    requires i < |frontier| && candidate == frontier[i] && KeySet(frontier) <= Within(table, addr, depth + 1)
    ensures var key, further := ToLower(candidate), ExpandOnce(table, candidate);
            && Bordered(table, seen + {key}, taken + {key}, next + further)
            && KeySet(next + further) <= Within(table, addr, depth + 2)
            && (further == [] ==> next + further == next)
  {
    hide ToLower, ExpandOnce, Within, StepKeys;
    var key, further := ToLower(candidate), ExpandOnce(table, candidate);
    StepKeysOf(table, candidate);
    KeysAppend(next, further);
    assert candidate in frontier;
    assert key in KeySet(frontier);
    StepsAreWithin(table, addr, depth + 1, key);
  }

  lemma NextBorder(table: seq<AliasRow>, addr: string, depth: nat, level: set<string>, seen: set<string>, frontier: seq<string>, next: seq<string>)
    requires level == Within(table, addr, depth) && seen == Within(table, addr, depth + 1)
    requires Bordered(table, seen, seen - level, next)
    ensures Bordered(table, seen, seen, next)
  {
    hide Within, StepKeys, KeySet;
    forall k | k in seen
      ensures StepKeys(table, k) <= seen + KeySet(next)
    {
      if k in level {
        StepsAreWithin(table, addr, depth, k);
      }
    }
  }

  /** With nothing left to visit, further steps lead nowhere new. */
  lemma Closed(table: seq<AliasRow>, addr: string, depth: nat, seen: set<string>)
    requires depth <= MAX_DEPTH && seen == Within(table, addr, depth) && Bordered(table, seen, seen, [])
    ensures seen == Within(table, addr, MAX_DEPTH)
  {
    hide StepKeys, Within;
    assert KeySet([]) == {};
    forall k | k in Further(table, seen)
      ensures k in seen
    {
      if j :| j in seen && k in StepKeys(table, j) {
        assert StepKeys(table, j) <= seen + KeySet([]);
      }
    }
    assert Further(table, seen) == seen;
    WithinStable(table, addr, depth, MAX_DEPTH);
  }

  lemma ResultsAre(table: seq<AliasRow>, result: seq<string>, seen: set<string>, addr: string)
    requires Results(table, result, seen, addr)
    ensures DistinctByCase(result) && KeySet(result) == set k | k in seen && Final(table, k)
  {
  }
}
