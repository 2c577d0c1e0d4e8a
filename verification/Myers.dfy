/** The O(ND) search of core/src/diff.cpp: frontier array, saved trace, and the walk back. */
module Myers {
  import opened Text
  import opened DiffScript

  /** Step `d` visits every second diagonal from `-d` to `d`. */
  predicate Visits(d: int, k: int) {
    -d <= k <= d && (k - d) % 2 == 0
  }

  /** The start chosen at diagonal `k` of step `d`, read off the previous frontier `v`. */
  predicate GoesDown(v: seq<int>, off: nat, k: int, d: int)
    requires Visits(d, k) && d < off && |v| == 2 * off + 1
  {
    k == -d || (k != d && v[off + k - 1] < v[off + k + 1])
  }

  /** `v` holds the furthest points of step `d` on every diagonal that step visits. */
  ghost predicate Frontier(a: seq<string>, b: seq<string>, v: seq<int>, off: nat, d: int) {
    && d < off && |v| == 2 * off + 1
    && forall k :: Visits(d, k) ==> Furthest(a, b, v[off + k], k, d)
  }

  /** The frontier before step 0 is the array of zeros the search starts from. */
  ghost predicate FrontierBefore(a: seq<string>, b: seq<string>, v: seq<int>, off: nat, d: int) {
    && d < off && |v| == 2 * off + 1
    && (if d == 0 then v[off + 1] == 0 else Frontier(a, b, v, off, d - 1))
  }

  /** The furthest point on the diagonal to the right, seen from diagonal `k`. */
  lemma BoundRight(a: seq<string>, b: seq<string>, r: int, s: nat, k: int, d: int)
    requires d > 0 && -d <= k <= d && s >= k
    requires k != d ==> Furthest(a, b, r, k + 1, d - 1) && r <= s
    ensures Dist(a, b, s + 1, s - k) >= d
  {
    if k == d {
      DistBounds(a, b, s + 1, s - k);
    } else {
      FurthestBounds(a, b, r, k + 1, d - 1, s + 1);
    }
  }

  /** The furthest point on the diagonal to the left, seen from diagonal `k`. */
  lemma BoundLeft(a: seq<string>, b: seq<string>, l: int, s: nat, k: int, d: int)
    requires d > 0 && -d <= k <= d && s >= k
    requires k != -d ==> Furthest(a, b, l, k - 1, d - 1) && l < s
    ensures Dist(a, b, s, s - k + 1) >= d
  {
    if k == -d {
      DistBounds(a, b, s, s - k + 1);
    } else {
      FurthestBounds(a, b, l, k - 1, d - 1, s);
    }
  }

  /** An insertion below the right-hand frontier point starts the run when that point is not behind. */
  lemma StartDown(a: seq<string>, b: seq<string>, l: int, r: int, k: int, d: int)
    requires d > 0 && -d <= k < d && Furthest(a, b, r, k + 1, d - 1)
    requires k != -d ==> Furthest(a, b, l, k - 1, d - 1) && l < r
    ensures Start(a, b, r, k, d)
  {
    DistStep(a, b, r, r - k - 1);
    BoundRight(a, b, r, r, k, d);
    BoundLeft(a, b, l, r, k, d);
  }

  /** A deletion after the left-hand frontier point starts the run when that point is ahead. */
  lemma StartRight(a: seq<string>, b: seq<string>, l: int, r: int, k: int, d: int)
    requires d > 0 && -d < k <= d && Furthest(a, b, l, k - 1, d - 1)
    requires k != d ==> Furthest(a, b, r, k + 1, d - 1) && r <= l
    ensures Start(a, b, l + 1, k, d)
  {
    DistStep(a, b, l, l + 1 - k);
    BoundRight(a, b, r, l + 1, k, d);
    BoundLeft(a, b, l, l + 1, k, d);
  }

  /** One edit from whichever neighbour got further starts the run of matches on `k`. */
  lemma StartFromNeighbours(a: seq<string>, b: seq<string>, l: int, r: int, k: int, d: int)
    requires d > 0 && -d <= k <= d
    requires k != -d ==> Furthest(a, b, l, k - 1, d - 1)
    requires k != d ==> Furthest(a, b, r, k + 1, d - 1)
    ensures Start(a, b, if k == -d || (k != d && l < r) then r else l + 1, k, d)
  {
    if k == -d || (k != d && l < r) {
      StartDown(a, b, l, r, k, d);
    } else {
      StartRight(a, b, l, r, k, d);
    }
  }

  /** The point an edit from the previous frontier leads to starts the run of matches on `k`. */
  lemma StartFromFrontier(a: seq<string>, b: seq<string>, v: seq<int>, off: nat, k: int, d: int)
    requires d >= 0 && FrontierBefore(a, b, v, off, d)
    requires Visits(d, k)
    ensures Start(a, b, if GoesDown(v, off, k, d) then v[off + k + 1] else v[off + k - 1] + 1, k, d)
  {
    if d > 0 {
      assert k != d ==> Visits(d - 1, k + 1);
      assert k != -d ==> Visits(d - 1, k - 1);
      StartFromNeighbours(a, b, v[off + k - 1], v[off + k + 1], k, d);
    }
  }

  /** The furthest point of diagonal `k`, still short of the far corner. */
  ghost predicate NotYet(a: seq<string>, b: seq<string>, x: int, k: int, d: int) {
    Furthest(a, b, x, k, d) && !(x >= |a| && x - k >= |b|)
  }

  /** A frontier that has not reached the far corner rules its own distance out. */
  lemma NotReached(a: seq<string>, b: seq<string>, v: seq<int>, off: nat, d: int)
    requires d >= 0 && Frontier(a, b, v, off, d)
    requires forall k :: Visits(d, k) ==> NotYet(a, b, v[off + k], k, d)
    ensures Distance(a, b) != d
  {
    if Distance(a, b) == d {
      var k := |a| - |b|;
      DistBounds(a, b, |a|, |b|);
      var matches := DistParity(a, b, |a|, |b|);
      assert k - d == 2 * (matches - |b|);
      assert Visits(d, k);
      FurthestBounds(a, b, v[off + k], k, d, |a|);
      assert false;
    }
  }

  /** The first frontier point past both ends is the far corner itself. */
  lemma Reached(a: seq<string>, b: seq<string>, x: int, k: int, d: nat)
    requires Furthest(a, b, x, k, d) && x >= |a| && x - k >= |b|
    requires Distance(a, b) >= d
    ensures x == |a| && x - k == |b| && Distance(a, b) == d
  {
    DistOutside(a, b, x, x - k);
  }

  /** Between a start and a point within the budget every diagonal step is a match. */
  lemma MatchOnTheWay(a: seq<string>, b: seq<string>, s: nat, z: nat, x: nat, k: int, d: nat)
    requires Start(a, b, s, k, d) && s <= z < x && Furthest(a, b, x, k, d)
    ensures Match(a, b, z, z - k)
  {
    SnakeStep(a, b, s, z, k, d);
    FurthestBounds(a, b, x, k, d, z + 1);
  }

  /** A start never lies past the furthest point of its diagonal. */
  lemma StartBeforeFurthest(a: seq<string>, b: seq<string>, s: nat, x: nat, k: int, d: nat)
    requires Start(a, b, s, k, d) && Furthest(a, b, x, k, d)
    ensures s <= x
  {
    FurthestBounds(a, b, x, k, d, s);
  }

  function Reverse(es: seq<Edit>): seq<Edit> {
    if es == [] then [] else Reverse(es[1..]) + [es[0]]
  }

  lemma {:induction false} ReverseSnoc(es: seq<Edit>, e: Edit)
    ensures Reverse(es + [e]) == [e] + Reverse(es)
  {
    if es != [] {
      ReverseSnoc(es[1..], e);
      assert (es + [e])[1..] == es[1..] + [e];
    }
  }

  /** `rev`, read backwards, finishes the job from `(x, y)` at the given cost. */
  ghost predicate Suffix(rev: seq<Edit>, a: seq<string>, b: seq<string>, x: int, y: int, cost: int) {
    x >= 0 && y >= 0 && x <= |a| && y <= |b| && Script(Reverse(rev), a, b, x, y) && Cost(Reverse(rev)) == cost
  }

  lemma PushKeep(rev: seq<Edit>, a: seq<string>, b: seq<string>, x: int, y: int, cost: int)
    requires x > 0 && y > 0 && Suffix(rev, a, b, x, y, cost) && Match(a, b, x - 1, y - 1)
    ensures Suffix(rev + [Edit(Keep, x - 1)], a, b, x - 1, y - 1, cost)
  {
    ReverseSnoc(rev, Edit(Keep, x - 1));
  }

  lemma PushIns(rev: seq<Edit>, a: seq<string>, b: seq<string>, x: int, y: int, cost: int)
    requires y > 0 && Suffix(rev, a, b, x, y, cost)
    ensures Suffix(rev + [Edit(Ins, y - 1)], a, b, x, y - 1, cost + 1)
  {
    ReverseSnoc(rev, Edit(Ins, y - 1));
  }

  lemma PushDel(rev: seq<Edit>, a: seq<string>, b: seq<string>, x: int, y: int, cost: int)
    requires x > 0 && Suffix(rev, a, b, x, y, cost)
    ensures Suffix(rev + [Edit(Del, x - 1)], a, b, x - 1, y, cost + 1)
  {
    ReverseSnoc(rev, Edit(Del, x - 1));
  }

  /** Every frontier saved by the search, indexed by the step it preceded. */
  ghost predicate Trace(a: seq<string>, b: seq<string>, trace: seq<seq<int>>, off: nat) {
    forall d :: 0 <= d < |trace| ==> FrontierBefore(a, b, trace[d], off, d)
  }

  /** Walk a run of matches on diagonal `k` forward from its start. */
  method Snake(a: seq<string>, b: seq<string>, s: int, k: int, ghost d: nat) returns (x: int)
    requires Start(a, b, s, k, d)
    ensures Furthest(a, b, x, k, d)
  {
    x := s;
    var y := x - k;
    while x < |a| && y < |b| && a[x] == b[y]
      invariant s <= x && y == x - k && Dist(a, b, x, y) <= d
      decreases |a| - x
    {
      assert Match(a, b, x, y);
      x := x + 1;
      y := y + 1;
    }
    SnakeStep(a, b, s, x, k, d);
  }

  /** `v` during a sweep: diagonals of step `d` below `k` are done and short of the far corner,
      everything else is as `before`. */
  ghost predicate SweptTo(a: seq<string>, b: seq<string>, v: seq<int>, before: seq<int>, off: nat, d: int, k: int) {
    && d < off && |v| == |before| == 2 * off + 1 && (k - d) % 2 == 0
    && (forall i :: 0 <= i <= 2 * off && (i - off >= k || !Visits(d, i - off)) ==> v[i] == before[i])
    && (forall j :: Visits(d, j) && j < k ==> NotYet(a, b, v[off + j], j, d))
  }

  lemma SweepAdvances(a: seq<string>, b: seq<string>, v: seq<int>, before: seq<int>, off: nat, d: int, k: int, x: int)
    requires SweptTo(a, b, v, before, off, d, k) && -d <= k <= d && NotYet(a, b, x, k, d)
    ensures SweptTo(a, b, v[off + k := x], before, off, d, k + 2)
  {
    var v' := v[off + k := x];
    forall j | Visits(d, j) && j < k + 2
      ensures NotYet(a, b, v'[off + j], j, d)
    {
      if j != k {
        assert v'[off + j] == v[off + j];
      }
    }
  }

  lemma SweepEnds(a: seq<string>, b: seq<string>, v: seq<int>, before: seq<int>, off: nat, d: int, k: int)
    requires SweptTo(a, b, v, before, off, d, k) && k > d >= 0 && Distance(a, b) >= d
    ensures Distance(a, b) > d && Frontier(a, b, v, off, d)
  {
    NotReached(a, b, v, off, d);
  }

  /** One sweep over the diagonals of step `d`, updating the frontier in place. Reports whether
      the far corner was reached, in which case the sweep stops there. */
  method Sweep(a: seq<string>, b: seq<string>, v: array<int>, off: nat, d: int) returns (found: bool)
    requires d >= 0 && v.Length == 2 * off + 1 && FrontierBefore(a, b, v[..], off, d)
    requires Distance(a, b) >= d
    modifies v
    ensures found ==> Distance(a, b) == d && Furthest(a, b, |a|, |a| - |b|, d)
    ensures !found ==> Distance(a, b) > d && Frontier(a, b, v[..], off, d)
  {
    ghost var before := v[..];
    var k := -d;
    while k <= d
      invariant -d <= k <= d + 2 && SweptTo(a, b, v[..], before, off, d, k)
      decreases d + 2 - k
    {
      StartFromFrontier(a, b, before, off, k, d);
      assert v[..][off + k + 1] == before[off + k + 1] && v[..][off + k - 1] == before[off + k - 1];
      var x;
      if k == -d || (k != d && v[off + k - 1] < v[off + k + 1]) {
        x := v[off + k + 1];
      } else {
        x := v[off + k - 1] + 1;
      }
      x := Snake(a, b, x, k, d);
      ghost var was := v[..];
      v[off + k] := x;
      if x >= |a| && x - k >= |b| {
        Reached(a, b, x, k, d);
        return true;
      }
      SweepAdvances(a, b, was, before, off, d, k, x);
      assert v[..] == was[off + k := x];
      k := k + 2;
    }
    SweepEnds(a, b, v[..], before, off, d, k);
    return false;
  }

  /** Emit the run of matches between the start `s` of step `d` on diagonal `k` and `(x0, y0)`. */
  method RunBack(a: seq<string>, b: seq<string>, ghost s: nat, prevX: int, prevY: int, k: int, ghost d: nat,
                 x0: nat, y0: int, rev0: seq<Edit>, ghost cost: nat)
    returns (x: int, y: int, rev: seq<Edit>)
    requires Start(a, b, s, k, d) && Furthest(a, b, x0, k, d) && x0 - y0 == k
    requires (prevX == s && prevY == s - k - 1) || (prevX == s - 1 && prevY == s - k)
    requires Suffix(rev0, a, b, x0, y0, cost)
    ensures x == s && y == s - k && Suffix(rev, a, b, x, y, cost)
  {
    StartBeforeFurthest(a, b, s, x0, k, d);
    x, y, rev := x0, y0, rev0;
    while x > prevX && y > prevY
      invariant s <= x <= x0 && x - y == k
      invariant Suffix(rev, a, b, x, y, cost)
      decreases x
    {
      MatchOnTheWay(a, b, s, x - 1, x0, k, d);
      PushKeep(rev, a, b, x, y, cost);
      x := x - 1;
      y := y - 1;
      rev := rev + [Edit(Keep, x)];
    }
  }

  /** The diagonal the edit into diagonal `k` came from. */
  function PrevDiagonal(vp: seq<int>, off: nat, k: int, d: int): int
    requires Visits(d, k) && d < off && |vp| == 2 * off + 1
  {
    if GoesDown(vp, off, k, d) then k + 1 else k - 1
  }

  /** The predecessor is a frontier point of the step before. */
  lemma PredecessorIsFurthest(a: seq<string>, b: seq<string>, vp: seq<int>, off: nat, k: int, d: int)
    requires d > 0 && FrontierBefore(a, b, vp, off, d) && Visits(d, k)
    ensures var p := PrevDiagonal(vp, off, k, d);
            Visits(d - 1, p) && Furthest(a, b, vp[off + p], p, d - 1)
  {
    assert Visits(d - 1, PrevDiagonal(vp, off, k, d));
  }

  /** Undo one step of the search: emit the run of matches and the edit before it. */
  method StepBack(a: seq<string>, b: seq<string>, vp: seq<int>, off: nat, d: int, x0: nat, y0: nat, rev0: seq<Edit>, ghost cost: nat)
    returns (x: nat, y: nat, rev: seq<Edit>)
    requires d > 0 && FrontierBefore(a, b, vp, off, d)
    requires Visits(d, x0 - y0)
    requires Furthest(a, b, x0, x0 - y0, d) && Suffix(rev0, a, b, x0, y0, cost)
    ensures Visits(d - 1, x - y)
    ensures Furthest(a, b, x, x - y, d - 1) && Suffix(rev, a, b, x, y, cost + 1)
  {
    hide Furthest, Suffix, Start, Dist;
    var k := x0 - y0;
    StartFromFrontier(a, b, vp, off, k, d);
    PredecessorIsFurthest(a, b, vp, off, k, d);
    var prevK := PrevDiagonal(vp, off, k, d);
    x := vp[off + prevK];
    y := x - prevK;
    x, y, rev := EditBack(a, b, x, y, prevK, k, d, x0, y0, rev0, cost);
  }

  /** The run of matches and then the one edit from the predecessor `(prevX, prevY)`. */
  method EditBack(a: seq<string>, b: seq<string>, prevX: nat, prevY: nat, prevK: int, k: int, ghost d: nat,
                  x0: nat, y0: nat, rev0: seq<Edit>, ghost cost: nat)
    returns (x: nat, y: nat, rev: seq<Edit>)
    requires prevK == prevX - prevY && k == x0 - y0 && (prevK == k + 1 || prevK == k - 1)
    requires Start(a, b, if prevK == k + 1 then prevX else prevX + 1, k, d)
    requires Furthest(a, b, x0, k, d) && Suffix(rev0, a, b, x0, y0, cost)
    ensures x == prevX && y == prevY && Suffix(rev, a, b, x, y, cost + 1)
  {
    var px, py;
    px, py, rev := RunBack(a, b, if prevK == k + 1 then prevX else prevX + 1, prevX, prevY, k, d, x0, y0, rev0, cost);
    if prevK == k + 1 {
      PushIns(rev, a, b, px, py, cost);
      rev := rev + [Edit(Ins, py - 1)];
    } else {
      PushDel(rev, a, b, px, py, cost);
      rev := rev + [Edit(Del, px - 1)];
    }
    x, y := prevX, prevY;
  }

  /** Walk the trace back to the origin. */
  method WalkBack(a: seq<string>, b: seq<string>, trace: seq<seq<int>>, off: nat, foundD: nat) returns (out: seq<Edit>)
    requires |trace| == foundD + 1 && Trace(a, b, trace, off)
    requires Distance(a, b) == foundD && Furthest(a, b, |a|, |a| - |b|, foundD)
    ensures Script(out, a, b, 0, 0) && Cost(out) == foundD
  {
    var rev: seq<Edit> := [];
    var x, y: int, d: int := |a|, |b|, foundD;
    DistBounds(a, b, |a|, |b|);
    ghost var matches := DistParity(a, b, |a|, |b|);
    assert x - y - d == 2 * (matches - |b|);
    while d > 0
      invariant 0 <= d <= foundD && x >= 0 && y >= 0
      invariant Visits(d, x - y)
      invariant Furthest(a, b, x, x - y, d) && Suffix(rev, a, b, x, y, foundD - d)
    {
      x, y, rev := StepBack(a, b, trace[d], off, d, x, y, rev, foundD - d);
      d := d - 1;
    }
    rev := RunToOrigin(a, b, x, y, rev, foundD);
    out := Reverse(rev);
  }

  /** The run of matches before the first edit. */
  method RunToOrigin(a: seq<string>, b: seq<string>, x0: int, y0: int, rev0: seq<Edit>, ghost cost: int) returns (rev: seq<Edit>)
    requires x0 == y0 >= 0 && Dist(a, b, x0, y0) == 0 && Suffix(rev0, a, b, x0, y0, cost)
    ensures Suffix(rev, a, b, 0, 0, cost)
  {
    var x, y := x0, y0;
    rev := rev0;
    while x > 0 && y > 0
      invariant x == y >= 0 && Dist(a, b, x, y) == 0 && Suffix(rev, a, b, x, y, cost)
    {
      PushKeep(rev, a, b, x, y, cost);
      x := x - 1;
      y := y - 1;
      rev := rev + [Edit(Keep, x)];
    }
  }

  /** Succeeds exactly when the texts are within `budget` edits of each other, and then with a
      script that turns `a` into `b` and that no other script beats. */
  method MyersScript(a: seq<string>, b: seq<string>, budget: nat) returns (ok: bool, out: seq<Edit>)
    ensures ok <==> Distance(a, b) <= budget
    ensures ok ==> Optimal(out, a, b) && Cost(out) == Distance(a, b)
    ensures ok ==> (forall e :: e in out ==> e.index < if e.op == Ins then |b| else |a|) && Replay(out, a, b) == b
    ensures !ok ==> out == [] && forall other :: Script(other, a, b, 0, 0) ==> Cost(other) > budget
  {
    out := [];
    DistBounds(a, b, |a|, |b|);
    var maxD := Min(budget, |a| + |b|);
    var off := maxD + 1;
    var v := new int[2 * maxD + 3](_ => 0);
    var trace: seq<seq<int>> := [];
    var d := 0;
    while d <= maxD
      invariant 0 <= d <= maxD + 1 && |trace| == d && Trace(a, b, trace, off)
      invariant d <= maxD ==> FrontierBefore(a, b, v[..], off, d)
      invariant Distance(a, b) >= d
    {
      trace := trace + [v[..]];
      var found := Sweep(a, b, v, off, d);
      if found {
        out := WalkBack(a, b, trace, off, d);
        CostOfDistanceIsOptimal(out, a, b);
        ReplayYieldsTarget(out, a, b, 0, 0);
        return true, out;
      }
      d := d + 1;
    }
    forall other | Script(other, a, b, 0, 0)
      ensures Cost(other) > budget
    {
      NoCheaperScript(other, a, b, 0, 0);
    }
    return false, [];
  }
}
