/** Edit scripts between two lists of lines, their cost, and the least cost there can be. */
module DiffScript {
  import opened Text

  datatype Op = Keep | Del | Ins

  /** One step: `index` points into the source for Keep and Del, into the target for Ins. */
  datatype Edit = Edit(op: Op, index: nat)

  /** `es` turns `a[x..]` into `b[y..]`, using every index once and in order. */
  ghost predicate Script(es: seq<Edit>, a: seq<string>, b: seq<string>, x: nat, y: nat)
    decreases |es|
  {
    if es == [] then x == |a| && y == |b|
    else match es[0].op
      case Keep => es[0].index == x < |a| && y < |b| && a[x] == b[y] && Script(es[1..], a, b, x + 1, y + 1)
      case Del => es[0].index == x < |a| && Script(es[1..], a, b, x + 1, y)
      case Ins => es[0].index == y < |b| && Script(es[1..], a, b, x, y + 1)
  }

  /** The number of deletions and insertions. */
  ghost function Cost(es: seq<Edit>): nat {
    if es == [] then 0 else Cost(es[1..]) + (if es[0].op == Keep then 0 else 1)
  }

  /** The lines a script leaves behind: kept source lines and inserted target lines. */
  function Replay(es: seq<Edit>, a: seq<string>, b: seq<string>): seq<string>
    requires forall e :: e in es ==> e.index < if e.op == Ins then |b| else |a|
  {
    if es == [] then []
    else (match es[0].op
          case Keep => [a[es[0].index]]
          case Del => []
          case Ins => [b[es[0].index]]) + Replay(es[1..], a, b)
  }

  lemma {:induction false} ScriptIndices(es: seq<Edit>, a: seq<string>, b: seq<string>, x: nat, y: nat)
    requires Script(es, a, b, x, y)
    ensures x <= |a| && y <= |b|
    ensures forall e :: e in es ==> e.index < if e.op == Ins then |b| else |a|
  {
    if es != [] {
      ScriptIndices(es[1..], a, b, if es[0].op == Ins then x else x + 1, if es[0].op == Del then y else y + 1);
      assert forall e :: e in es ==> e == es[0] || e in es[1..];
    }
  }

  /** Replaying a script from the start produces exactly the target. */
  lemma {:induction false} ReplayYieldsTarget(es: seq<Edit>, a: seq<string>, b: seq<string>, x: nat, y: nat)
    requires Script(es, a, b, x, y)
    ensures forall e :: e in es ==> e.index < if e.op == Ins then |b| else |a|
    ensures y <= |b| && Replay(es, a, b) == b[y..]
  {
    ScriptIndices(es, a, b, x, y);
    if es != [] {
      ReplayYieldsTarget(es[1..], a, b, if es[0].op == Ins then x else x + 1, if es[0].op == Del then y else y + 1);
      if es[0].op != Del {
        assert b[y..] == [b[y]] + b[y + 1..];
      }
    }
  }

  // ---- the least cost -----------------------------------------------------

  /** Lines `i` and `j` exist on their sides and agree. */
  ghost predicate Match(a: seq<string>, b: seq<string>, i: nat, j: nat) {
    i < |a| && j < |b| && a[i] == b[j]
  }

  /** The edit distance between the first `i` lines of `a` and the first `j` of `b`. Positions
      past either end are allowed and match nothing, because Myers' search walks there too. */
  ghost function Dist(a: seq<string>, b: seq<string>, i: nat, j: nat): nat
    decreases i + j
  {
    if i == 0 then j
    else if j == 0 then i
    else if Match(a, b, i - 1, j - 1) then Dist(a, b, i - 1, j - 1)
    else 1 + Min(Dist(a, b, i - 1, j), Dist(a, b, i, j - 1))
  }

  /** The distance between whole texts. */
  ghost function Distance(a: seq<string>, b: seq<string>): nat {
    Dist(a, b, |a|, |b|)
  }

  lemma DistEdges(a: seq<string>, b: seq<string>, i: nat, j: nat)
    requires i == 0 || j == 0
    ensures Dist(a, b, i, j) == i + j
  {
  }

  lemma DistUnfolds(a: seq<string>, b: seq<string>, i: nat, j: nat)
    requires i > 0 && j > 0
    ensures Dist(a, b, i, j) == if Match(a, b, i - 1, j - 1) then Dist(a, b, i - 1, j - 1)
                                else 1 + Min(Dist(a, b, i - 1, j), Dist(a, b, i, j - 1))
  {
  }

  /** One step right or down changes the distance by at most one, and never more than one less. */
  lemma {:induction false} DistStep(a: seq<string>, b: seq<string>, i: nat, j: nat)
    ensures Dist(a, b, i + 1, j) <= Dist(a, b, i, j) + 1
    ensures Dist(a, b, i, j) <= Dist(a, b, i + 1, j) + 1
    ensures Dist(a, b, i, j + 1) <= Dist(a, b, i, j) + 1
    ensures Dist(a, b, i, j) <= Dist(a, b, i, j + 1) + 1
    decreases i + j
  {
    hide Match, Dist;
    if j > 0 {
      DistUnfolds(a, b, i + 1, j);
      DistStep(a, b, i, j - 1);
    } else {
      DistEdges(a, b, i, j);
      DistEdges(a, b, i + 1, j);
    }
    if i > 0 {
      DistUnfolds(a, b, i, j + 1);
      DistStep(a, b, i - 1, j);
    } else {
      DistEdges(a, b, i, j);
      DistEdges(a, b, i, j + 1);
    }
  }

  /** Along a diagonal the distance never falls. */
  lemma DistDiagonal(a: seq<string>, b: seq<string>, i: nat, j: nat)
    ensures Dist(a, b, i, j) <= Dist(a, b, i + 1, j + 1)
  {
    DistStep(a, b, i, j);
  }

  lemma {:induction false} DistDiagonalTo(a: seq<string>, b: seq<string>, i: nat, j: nat, t: nat)
    ensures Dist(a, b, i, j) <= Dist(a, b, i + t, j + t)
    decreases t
  {
    if t > 0 {
      DistDiagonalTo(a, b, i, j, t - 1);
      DistDiagonal(a, b, i + t - 1, j + t - 1);
    }
  }

  lemma {:induction false} DistBounds(a: seq<string>, b: seq<string>, i: nat, j: nat)
    ensures Dist(a, b, i, j) >= (if i >= j then i - j else j - i)
    ensures Dist(a, b, i, j) <= i + j
    decreases i + j
  {
    if i > 0 && j > 0 {
      DistBounds(a, b, i - 1, j - 1);
      DistBounds(a, b, i - 1, j);
      DistBounds(a, b, i, j - 1);
    }
  }

  /** Each match saves two edits, so the distance has the parity of `i + j`. */
  lemma {:induction false} DistParity(a: seq<string>, b: seq<string>, i: nat, j: nat) returns (matches: int)
    ensures Dist(a, b, i, j) == i + j - 2 * matches
    decreases i + j
  {
    if i == 0 || j == 0 {
      matches := 0;
    } else if Match(a, b, i - 1, j - 1) {
      matches := DistParity(a, b, i - 1, j - 1);
      matches := matches + 1;
    } else if Dist(a, b, i - 1, j) <= Dist(a, b, i, j - 1) {
      matches := DistParity(a, b, i - 1, j);
    } else {
      matches := DistParity(a, b, i, j - 1);
    }
  }

  /** Past the ends nothing matches, so every further step costs one. */
  lemma {:induction false} DistOutside(a: seq<string>, b: seq<string>, i: nat, j: nat)
    requires i >= |a| && j >= |b|
    ensures Dist(a, b, i, j) == Distance(a, b) + (i - |a|) + (j - |b|)
    decreases i + j
  {
    DistOutsideUpper(a, b, i, j);
    DistOutsideLower(a, b, i, j);
  }

  lemma {:induction false} DistOutsideUpper(a: seq<string>, b: seq<string>, i: nat, j: nat)
    requires i >= |a| && j >= |b|
    ensures Dist(a, b, i, j) <= Distance(a, b) + (i - |a|) + (j - |b|)
    decreases i + j
  {
    if i > |a| {
      DistOutsideUpper(a, b, i - 1, j);
      DistStep(a, b, i - 1, j);
    } else if j > |b| {
      DistOutsideUpper(a, b, i, j - 1);
      DistStep(a, b, i, j - 1);
    }
  }

  // The last step into a point outside the grid is never a match, so it costs one.
  lemma {:induction false} DistOutsideLower(a: seq<string>, b: seq<string>, i: nat, j: nat)
    requires i >= |a| && j >= |b|
    ensures Dist(a, b, i, j) >= Distance(a, b) + (i - |a|) + (j - |b|)
    decreases i + j
  {
    if i > |a| {
      BeyondSource(a, b, i - 1, j);
      DistOutsideLower(a, b, i - 1, j);
    } else if j > |b| {
      BeyondTarget(a, b, i, j - 1);
      DistOutsideLower(a, b, i, j - 1);
    }
  }

  lemma {:induction false} BeyondSource(a: seq<string>, b: seq<string>, i: nat, j: nat)
    requires i >= |a|
    ensures Dist(a, b, i + 1, j) == Dist(a, b, i, j) + 1
    decreases j
  {
    if j > 0 {
      BeyondSource(a, b, i, j - 1);
      DistStep(a, b, i, j - 1);
    }
  }

  lemma {:induction false} BeyondTarget(a: seq<string>, b: seq<string>, i: nat, j: nat)
    requires j >= |b|
    ensures Dist(a, b, i, j + 1) == Dist(a, b, i, j) + 1
    decreases i
  {
    if i > 0 {
      BeyondTarget(a, b, i - 1, j);
      DistStep(a, b, i - 1, j);
    }
  }

  /** No script is cheaper than the distance. */
  lemma {:induction false} NoCheaperScript(es: seq<Edit>, a: seq<string>, b: seq<string>, x: nat, y: nat)
    requires Script(es, a, b, x, y)
    ensures Distance(a, b) <= Dist(a, b, x, y) + Cost(es)
  {
    if es != [] {
      DistStep(a, b, x, y);
      NoCheaperScript(es[1..], a, b, if es[0].op == Ins then x else x + 1, if es[0].op == Del then y else y + 1);
    }
  }

  /** `es` is a script from `a` to `b` that no other script beats. */
  ghost predicate Optimal(es: seq<Edit>, a: seq<string>, b: seq<string>) {
    Script(es, a, b, 0, 0) && forall other :: Script(other, a, b, 0, 0) ==> Cost(es) <= Cost(other)
  }

  lemma CostOfDistanceIsOptimal(es: seq<Edit>, a: seq<string>, b: seq<string>)
    requires Script(es, a, b, 0, 0) && Cost(es) == Distance(a, b)
    ensures Optimal(es, a, b)
  {
    forall other | Script(other, a, b, 0, 0)
      ensures Cost(es) <= Cost(other)
    {
      NoCheaperScript(other, a, b, 0, 0);
    }
  }

  // ---- furthest-reaching points -------------------------------------------

  /** `x` is the furthest point on diagonal `k` reachable with at most `d` edits. */
  ghost predicate Furthest(a: seq<string>, b: seq<string>, x: int, k: int, d: int) {
    x >= 0 && x - k >= 0 && Dist(a, b, x, x - k) <= d < Dist(a, b, x + 1, x + 1 - k)
  }

  /** Anything on the diagonal within the budget lies at or before the furthest point. */
  lemma FurthestBounds(a: seq<string>, b: seq<string>, x: int, k: int, d: int, z: nat)
    requires Furthest(a, b, x, k, d)
    requires z - k >= 0
    ensures z <= x <==> Dist(a, b, z, z - k) <= d
  {
    if z <= x {
      DistDiagonalTo(a, b, z, z - k, x - z);
    } else {
      DistDiagonalTo(a, b, x + 1, x + 1 - k, z - x - 1);
    }
  }

  /** Where one more edit on top of the two neighbouring frontiers starts its run of matches. */
  ghost predicate Start(a: seq<string>, b: seq<string>, x: int, k: int, d: int) {
    && x >= 0 && x - k >= 0 && Dist(a, b, x, x - k) <= d
    && (x - k >= 0 ==> Dist(a, b, x, x - k + 1) >= d)
    && Dist(a, b, x + 1, x - k) >= d
  }

  /** From a start, the run of matches is exactly the way to the furthest point. */
  lemma {:induction false} SnakeStep(a: seq<string>, b: seq<string>, s: nat, x: nat, k: int, d: nat)
    requires Start(a, b, s, k, d) && s <= x && x - k >= 0
    ensures !Match(a, b, x, x - k) ==> Dist(a, b, x + 1, x + 1 - k) > d
  {
    DistDiagonalTo(a, b, s, s - k + 1, x - s);
    DistDiagonalTo(a, b, s + 1, s - k, x - s);
  }
}
