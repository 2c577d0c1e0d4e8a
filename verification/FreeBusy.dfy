/** Merging busy periods (core/src/ical.cpp). */
module FreeBusy {

  datatype Period = Period(start: int, end: int)

  // ---- sorting ------------------------------------------------------------

  predicate NotAfter(a: Period, b: Period) {
    a.start < b.start || (a.start == b.start && a.end <= b.end)
  }

  function Insert(p: Period, ps: seq<Period>): seq<Period> {
    if ps == [] || NotAfter(p, ps[0]) then [p] + ps else [ps[0]] + Insert(p, ps[1..])
  }

  /** The periods by start and then end: what the library's sort, with that order, leaves. */
  function Sorted(ps: seq<Period>): seq<Period> {
    if ps == [] then [] else Insert(ps[0], Sorted(ps[1..]))
  }

  predicate Ordered(ps: seq<Period>) {
    forall i, j :: 0 <= i < j < |ps| ==> NotAfter(ps[i], ps[j])
  }

  lemma {:induction false} InsertKeeps(p: Period, ps: seq<Period>)
    requires Ordered(ps)
    ensures Ordered(Insert(p, ps)) && multiset(Insert(p, ps)) == multiset(ps) + multiset{p}
  {
    if ps == [] || NotAfter(p, ps[0]) {
      assert forall i :: 0 < i < |ps| ==> NotAfter(ps[0], ps[i]);
    } else {
      InsertKeeps(p, ps[1..]);
      assert ps == [ps[0]] + ps[1..];
      var r := Insert(p, ps[1..]);
      forall i | 0 <= i < |r|
        ensures NotAfter(ps[0], r[i])
      {
        assert r[i] in multiset(r);
        assert r[i] == p || r[i] in ps[1..];
      }
      assert forall i :: 0 < i < |Insert(p, ps)| ==> Insert(p, ps)[i] == r[i - 1];
    }
  }

  lemma {:induction false} SortedIs(ps: seq<Period>)
    ensures Ordered(Sorted(ps)) && multiset(Sorted(ps)) == multiset(ps)
  {
    if ps != [] {
      SortedIs(ps[1..]);
      InsertKeeps(ps[0], Sorted(ps[1..]));
      assert ps == [ps[0]] + ps[1..];
    }
  }

  // ---- covering -----------------------------------------------------------

  predicate Holds(p: Period, t: int) {
    p.start <= t < p.end
  }

  predicate Covers(ps: seq<Period>, t: int) {
    exists i :: 0 <= i < |ps| && Holds(ps[i], t)
  }

  /** Non-empty periods in order, with a gap between neighbours. */
  predicate Canonical(ps: seq<Period>) {
    && (forall i :: 0 <= i < |ps| ==> ps[i].start < ps[i].end)
    && (forall i, j :: 0 <= i < j < |ps| ==> ps[i].end < ps[j].start)
  }

  ghost predicate SameCover(a: seq<Period>, b: seq<Period>) {
    forall t :: Covers(a, t) <==> Covers(b, t)
  }

  lemma CoversElement(ps: seq<Period>, t: int)
    ensures Covers(ps, t) <==> exists p :: p in ps && Holds(p, t)
  {
  }

  lemma SameElementsSameCover(a: seq<Period>, b: seq<Period>)
    requires multiset(a) == multiset(b)
    ensures SameCover(a, b)
  {
    forall t
      ensures Covers(a, t) <==> Covers(b, t)
    {
      CoversElement(a, t);
      CoversElement(b, t);
      assert forall p :: p in a <==> p in multiset(a);
      assert forall p :: p in b <==> p in multiset(b);
    }
  }

  // ---- merging ------------------------------------------------------------

  /** The merged list, with `p` taken in. */
  function TakeIn(out: seq<Period>, p: Period): seq<Period> {
    if p.end <= p.start then out
    else if out != [] && p.start <= out[|out| - 1].end then
      if p.end > out[|out| - 1].end then out[|out| - 1 := out[|out| - 1].(end := p.end)] else out
    else out + [p]
  }

  lemma TakeInKeeps(out: seq<Period>, p: Period)
    requires Canonical(out) && (out != [] ==> out[|out| - 1].start <= p.start)
    ensures Canonical(TakeIn(out, p))
    ensures TakeIn(out, p) != [] ==> TakeIn(out, p)[|TakeIn(out, p)| - 1].start <= p.start
    ensures forall t :: Covers(TakeIn(out, p), t) <==> Covers(out, t) || Holds(p, t)
  {
    var r := TakeIn(out, p);
    forall t
      ensures Covers(r, t) <==> Covers(out, t) || Holds(p, t)
    {
      if Covers(out, t) {
        var i :| 0 <= i < |out| && Holds(out[i], t);
        assert Holds(r[i], t);
      }
      if Holds(p, t) {
        assert |r| > 0;
        assert Holds(r[|r| - 1], t);
      }
    }
  }

  lemma MergeStep(out: seq<Period>, ps: seq<Period>, p: Period)
    requires Canonical(out) && SameCover(out, ps) && (out != [] ==> out[|out| - 1].start <= p.start)
    ensures var r := TakeIn(out, p);
            Canonical(r) && SameCover(r, ps + [p]) && (r != [] ==> r[|r| - 1].start <= p.start)
  {
    hide Canonical, Covers, TakeIn;
    TakeInKeeps(out, p);
    CoverGrows(ps, p);
  }

  method MergePeriods(periods: seq<Period>) returns (out: seq<Period>)
    ensures Canonical(out) && SameCover(out, periods)
  {
    hide Canonical, SameCover, Sorted, Ordered;
    out := [];
    NothingIsCanonical();
    SameElementsSameCover([], []);
    if periods == [] {
      return;
    }
    var sorted := Sorted(periods);
    SortedIs(periods);
    for i := 0 to |sorted|
      invariant Canonical(out) && SameCover(out, sorted[..i])
      invariant out != [] ==> i > 0 && out[|out| - 1].start <= sorted[i - 1].start
    {
      var p := sorted[i];
      assert sorted[..i + 1] == sorted[..i] + [p];
      OrderedNeighbours(sorted, i);
      MergeStep(out, sorted[..i], p);
      if p.end <= p.start {
        continue;
      }
      if out != [] && p.start <= out[|out| - 1].end {
        if p.end > out[|out| - 1].end {
          out := out[|out| - 1 := out[|out| - 1].(end := p.end)];
        }
        continue;
      }
      out := out + [p];
    }
    assert sorted[..|sorted|] == sorted;
    SameElementsSameCover(sorted, periods);
    SameCoverChain(out, sorted, periods);
  }

  lemma SameCoverChain(a: seq<Period>, b: seq<Period>, c: seq<Period>)
    requires SameCover(a, b) && SameCover(b, c)
    ensures SameCover(a, c)
  {
    hide Covers;
  }

  lemma OrderedNeighbours(ps: seq<Period>, i: nat)
    requires Ordered(ps) && i < |ps|
    ensures i > 0 ==> ps[i - 1].start <= ps[i].start
  {
    assert i > 0 ==> NotAfter(ps[i - 1], ps[i]);
  }

  lemma NothingIsCanonical()
    ensures Canonical([]) && forall t :: !Covers([], t)
  {
  }

  lemma CoverGrows(ps: seq<Period>, p: Period)
    ensures forall t :: Covers(ps + [p], t) <==> Covers(ps, t) || Holds(p, t)
  {
    forall t
      ensures Covers(ps + [p], t) <==> Covers(ps, t) || Holds(p, t)
    {
      if Covers(ps, t) {
        var i :| 0 <= i < |ps| && Holds(ps[i], t);
        assert (ps + [p])[i] == ps[i];
      }
      assert (ps + [p])[|ps|] == p;
    }
  }

  // ---- the canonical form is unique ---------------------------------------

  lemma CanonicalHead(ps: seq<Period>)
    requires Canonical(ps) && ps != []
    ensures ps[0].start < ps[0].end && Covers(ps, ps[0].start) && !Covers(ps, ps[0].end)
    ensures forall t :: Covers(ps, t) ==> ps[0].start <= t
    ensures forall t :: ps[0].start <= t < ps[0].end ==> Covers(ps, t)
    ensures Canonical(ps[1..]) && forall t :: Covers(ps[1..], t) <==> Covers(ps, t) && t >= ps[0].end
  {
    assert Holds(ps[0], ps[0].start);
    forall t
      ensures Covers(ps[1..], t) <==> Covers(ps, t) && t >= ps[0].end
    {
      if Covers(ps[1..], t) {
        var i :| 0 <= i < |ps[1..]| && Holds(ps[1..][i], t);
        assert Holds(ps[i + 1], t);
      }
      if Covers(ps, t) && t >= ps[0].end {
        var i :| 0 <= i < |ps| && Holds(ps[i], t);
        assert Holds(ps[1..][i - 1], t);
      }
    }
    assert forall t :: ps[0].start <= t < ps[0].end ==> Holds(ps[0], t);
  }

  /** Two canonical lists that cover the same instants are the same list. */
  lemma {:induction false} CanonicalIsUnique(a: seq<Period>, b: seq<Period>)
    requires Canonical(a) && Canonical(b) && SameCover(a, b)
    ensures a == b
  {
    hide Canonical, Covers;
    if a == [] {
      NothingIsCanonical();
      if b != [] {
        CanonicalHead(b);
      }
    } else if b == [] {
      NothingIsCanonical();
      CanonicalHead(a);
    } else {
      CanonicalHead(a);
      CanonicalHead(b);
      assert Covers(b, a[0].start) && Covers(a, b[0].start);
      assert a[0].start == b[0].start;
      assert !Covers(b, a[0].end) && !Covers(a, b[0].end);
      assert a[0].end == b[0].end;
      CanonicalIsUnique(a[1..], b[1..]);
      assert a == [a[0]] + a[1..] && b == [b[0]] + b[1..];
    }
  }

  /** What merging gives depends only on the instants covered: not on the order of the periods, and
      merging again changes nothing. */
  lemma MergeIsCanonicalForm(periods: seq<Period>, again: seq<Period>, out: seq<Period>, out': seq<Period>)
    requires Canonical(out) && SameCover(out, periods) && Canonical(out') && SameCover(out', again)
    requires multiset(again) == multiset(periods) || again == out
    ensures out' == out
  {
    if multiset(again) == multiset(periods) {
      SameElementsSameCover(again, periods);
    }
    CanonicalIsUnique(out, out');
  }
}
