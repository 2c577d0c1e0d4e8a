/** Trimming in the emitter of core/src/diff.cpp: cutting a common head and tail off both texts does not
    change the distance, and a best script for the middles is best for the whole. */
module DiffTrim {
  import opened Text
  import opened DiffScript
  import opened Myers

  // ---- trimming the common head and tail ----------------------------------

  function KeepRun(start: nat, n: nat): seq<Edit> {
    seq(n, k requires 0 <= k < n => Edit(Keep, start + k))
  }

  function Shift(es: seq<Edit>, offset: nat): (r: seq<Edit>)
    ensures |r| == |es|
  {
    seq(|es|, k requires 0 <= k < |es| => Edit(es[k].op, es[k].index + offset))
  }

  /** Keeping equal lines in front of a script is a script. */
  lemma {:induction false} KeepRunScript(a: seq<string>, b: seq<string>, x: nat, y: nat, n: nat, rest: seq<Edit>)
    requires x + n <= |a| && y + n <= |b| && a[x..x + n] == b[y..y + n]
    requires Script(rest, a, b, x + n, y + n)
    ensures Script(KeepRun(x, n) + rest, a, b, x, y) && Cost(KeepRun(x, n) + rest) == Cost(rest)
    decreases n
  {
    if n == 0 {
      assert KeepRun(x, n) + rest == rest;
    } else {
      assert a[x + 1..x + n] == a[x..x + n][1..] && b[y + 1..y + n] == b[y..y + n][1..];
      KeepRunScript(a, b, x + 1, y + 1, n - 1, rest);
      var whole := KeepRun(x, n) + rest;
      assert whole[0] == Edit(Keep, x) && whole[1..] == KeepRun(x + 1, n - 1) + rest;
      assert a[x] == a[x..x + n][0] && b[y] == b[y..y + n][0];
    }
  }

  /** A script for the middles, moved to its place, continues with any script for the tails. */
  lemma {:induction false} ShiftScript(es: seq<Edit>, a: seq<string>, b: seq<string>, head: nat, aEnd: nat, bEnd: nat,
                                       x: nat, y: nat, rest: seq<Edit>)
    requires head <= aEnd <= |a| && head <= bEnd <= |b|
    requires Script(es, a[head..aEnd], b[head..bEnd], x, y) && Script(rest, a, b, aEnd, bEnd)
    ensures Script(Shift(es, head) + rest, a, b, head + x, head + y)
    ensures Cost(Shift(es, head) + rest) == Cost(es) + Cost(rest)
    decreases |es|
  {
    if es == [] {
      assert Shift(es, head) + rest == rest;
    } else {
      ShiftScript(es[1..], a, b, head, aEnd, bEnd, if es[0].op == Ins then x else x + 1, if es[0].op == Del then y else y + 1, rest);
      var whole := Shift(es, head) + rest;
      assert Shift(es, head)[1..] == Shift(es[1..], head);
      assert whole[0] == Edit(es[0].op, es[0].index + head) && whole[1..] == Shift(es[1..], head) + rest;
      assert es[0].op == Keep ==> a[head..aEnd][x] == a[head + x] && b[head..bEnd][y] == b[head + y];
    }
  }

  /** Lines `head ..` of `a` start with `mid`. */
  ghost predicate Middle(a: seq<string>, mid: seq<string>, head: nat) {
    head + |mid| <= |a| && forall i :: 0 <= i < |mid| ==> mid[i] == a[head + i]
  }

  /** Inside the middles, distances are those of the whole texts: equal heads cost nothing. */
  lemma {:induction false} DistPastHead(a: seq<string>, b: seq<string>, midA: seq<string>, midB: seq<string>, head: nat, i: nat, j: nat)
    requires Middle(a, midA, head) && Middle(b, midB, head) && Dist(a, b, head, head) == 0
    requires i <= |midA| && j <= |midB|
    ensures Dist(a, b, head + i, head + j) == Dist(midA, midB, i, j)
    decreases i + j
  {
    hide Dist;
    if i == 0 || j == 0 {
      DistFromHead(a, b, head, i, j);
      DistEdges(midA, midB, i, j);
    } else {
      DistPastHead(a, b, midA, midB, head, i - 1, j - 1);
      DistPastHead(a, b, midA, midB, head, i - 1, j);
      DistPastHead(a, b, midA, midB, head, i, j - 1);
      assert Match(a, b, head + i - 1, head + j - 1) == Match(midA, midB, i - 1, j - 1);
      DistUnfolds(a, b, head + i, head + j);
      DistUnfolds(midA, midB, i, j);
    }
  }

  lemma {:induction false} DistFromHead(a: seq<string>, b: seq<string>, head: nat, i: nat, j: nat)
    requires Dist(a, b, head, head) == 0 && (i == 0 || j == 0)
    ensures Dist(a, b, head + i, head + j) == i + j
    decreases i + j
  {
    DistBounds(a, b, head + i, head + j);
    if i > 0 {
      DistFromHead(a, b, head, i - 1, j);
      DistStep(a, b, head + i - 1, head + j);
    } else if j > 0 {
      DistFromHead(a, b, head, i, j - 1);
      DistStep(a, b, head + i, head + j - 1);
    }
  }

  lemma {:induction false} DistEqualHeads(a: seq<string>, b: seq<string>, head: nat)
    requires head <= |a| && head <= |b| && a[..head] == b[..head]
    ensures Dist(a, b, head, head) == 0
    decreases head
  {
    if head > 0 {
      assert a[..head - 1] == a[..head][..head - 1] && b[..head - 1] == b[..head][..head - 1];
      assert a[..head][head - 1] == b[..head][head - 1];
      DistEqualHeads(a, b, head - 1);
    }
  }

  lemma SlicesPeel(a: seq<string>, b: seq<string>, i: nat, j: nat, n: nat)
    requires 0 < n && i + n <= |a| && j + n <= |b| && a[i..i + n] == b[j..j + n]
    ensures a[i..i + n - 1] == b[j..j + n - 1] && a[i + n - 1] == b[j + n - 1]
  {
    assert a[i..i + n - 1] == a[i..i + n][..n - 1] && b[j..j + n - 1] == b[j..j + n][..n - 1];
    assert a[i + n - 1] == a[i..i + n][n - 1] && b[j + n - 1] == b[j..j + n][n - 1];
  }

  lemma {:induction false} DistBeforeTail(a: seq<string>, b: seq<string>, i: nat, j: nat, n: nat)
    requires i + n <= |a| && j + n <= |b| && a[i..i + n] == b[j..j + n]
    ensures Dist(a, b, i + n, j + n) == Dist(a, b, i, j)
    decreases n
  {
    if n > 0 {
      SlicesPeel(a, b, i, j, n);
      DistBeforeTail(a, b, i, j, n - 1);
    }
  }

  /** A script for the middles, with the trimmed lines as context. */
  function Rebased(es: seq<Edit>, head: nat, tailAt: nat, tail: nat): seq<Edit> {
    KeepRun(0, head) + (Shift(es, head) + KeepRun(tailAt, tail))
  }

  lemma RebasedScript(es: seq<Edit>, a: seq<string>, b: seq<string>, head: nat, tail: nat)
    requires head + tail <= |a| && head + tail <= |b| && a[..head] == b[..head] && a[|a| - tail..] == b[|b| - tail..]
    requires Script(es, a[head..|a| - tail], b[head..|b| - tail], 0, 0)
    ensures var full := Rebased(es, head, |a| - tail, tail);
            Script(full, a, b, 0, 0) && Cost(full) == Cost(es)
  {
    var aEnd, bEnd := |a| - tail, |b| - tail;
    assert a[aEnd..aEnd + tail] == a[aEnd..] && b[bEnd..bEnd + tail] == b[bEnd..];
    KeepRunScript(a, b, aEnd, bEnd, tail, []);
    assert KeepRun(aEnd, tail) + [] == KeepRun(aEnd, tail);
    ShiftScript(es, a, b, head, aEnd, bEnd, 0, 0, KeepRun(aEnd, tail));
    assert a[0..0 + head] == a[..head] && b[0..0 + head] == b[..head];
    KeepRunScript(a, b, 0, 0, head, Shift(es, head) + KeepRun(aEnd, tail));
  }

  /** The best script for the middles is best for the whole. */
  lemma TrimmedIsOptimal(es: seq<Edit>, a: seq<string>, b: seq<string>, head: nat, tail: nat)
    requires head + tail <= |a| && head + tail <= |b| && a[..head] == b[..head] && a[|a| - tail..] == b[|b| - tail..]
    requires var midA, midB := a[head..|a| - tail], b[head..|b| - tail];
             Script(es, midA, midB, 0, 0) && Cost(es) == Distance(midA, midB)
    ensures Optimal(Rebased(es, head, |a| - tail, tail), a, b)
  {
    RebasedScript(es, a, b, head, tail);
    TrimmedDistance(a, b, head, tail);
    CostOfDistanceIsOptimal(Rebased(es, head, |a| - tail, tail), a, b);
  }

  lemma TrimmedDistance(a: seq<string>, b: seq<string>, head: nat, tail: nat)
    requires head + tail <= |a| && head + tail <= |b| && a[..head] == b[..head]
    requires a[|a| - tail..] == b[|b| - tail..]
    ensures Distance(a[head..|a| - tail], b[head..|b| - tail]) == Distance(a, b)
  {
    DistEqualHeads(a, b, head);
    DistPastHead(a, b, a[head..|a| - tail], b[head..|b| - tail], head, |a| - tail - head, |b| - tail - head);
    assert a[|a| - tail..|a|] == a[|a| - tail..] && b[|b| - tail..|b|] == b[|b| - tail..];
    DistBeforeTail(a, b, |a| - tail, |b| - tail, tail);
  }

  /** The best script between the keys of `a` and `b`, if they are within the budget. */
  method BestScript(a: seq<string>, b: seq<string>, maxEdits: nat) returns (ok: bool, full: seq<Edit>)
    ensures ok <==> Distance(a, b) <= maxEdits
    ensures ok ==> Optimal(full, a, b)
  {
    hide Rebased, Script, Cost, Optimal, Dist;
    var head := 0;
    while head < |a| && head < |b| && a[head] == b[head]
      invariant head <= |a| && head <= |b| && a[..head] == b[..head]
    {
      head := head + 1;
    }
    var tail := 0;
    while tail < |a| - head && tail < |b| - head && a[|a| - 1 - tail] == b[|b| - 1 - tail]
      invariant tail <= |a| - head && tail <= |b| - head
      invariant a[|a| - tail..] == b[|b| - tail..]
    {
      tail := tail + 1;
      assert a[|a| - tail..] == [a[|a| - tail]] + a[|a| - tail + 1..] && b[|b| - tail..] == [b[|b| - tail]] + b[|b| - tail + 1..];
    }
    TrimmedDistance(a, b, head, tail);
    var script;
    ok, script := MyersScript(a[head..|a| - tail], b[head..|b| - tail], maxEdits);
    full := [];
    if ok {
      TrimmedIsOptimal(script, a, b, head, tail);
      full := Rebase(script, head, |a| - tail, tail);
    }
  }

  /** Re-base a script onto the untrimmed line numbers, with the trimmed lines as context. */
  method Rebase(script: seq<Edit>, head: nat, tailAt: nat, tail: nat) returns (full: seq<Edit>)
    ensures full == Rebased(script, head, tailAt, tail)
  {
    full := [];
    for i := 0 to head
      invariant full == KeepRun(0, i)
    {
      full := full + [Edit(Keep, i)];
    }
    var middle: seq<Edit> := [];
    for i := 0 to |script|
      invariant middle == Shift(script[..i], head)
    {
      middle := middle + [Edit(script[i].op, script[i].index + head)];
    }
    assert script[..|script|] == script;
    for i := 0 to tail
      invariant middle == Shift(script, head) + KeepRun(tailAt, i)
    {
      middle := middle + [Edit(Keep, tailAt + i)];
    }
    full := full + middle;
  }

}
