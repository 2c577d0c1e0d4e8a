/** Unified diffs of core/src/diff.cpp, and why applying one gives the target text back. */
module Diff {
  import opened Text
  import opened DiffScript
  import opened DiffText
  import opened DiffApply
  import opened DiffHunks

  /** With readable headers, the rest of the patch brings any run at step `k` to the target. */
  lemma {:induction false} PatchApplies(a: Lines, b: Lines, es: seq<Edit>, cs: seq<Chunk>, k: nat, st: State, saw: bool)
    requires WellFormed(a) && WellFormed(b) && KeyScript(es, a, b, 0, 0)
    requires Covers(es, cs, k) && At(a, b, es, k, st) && AllFit(es, cs)
    ensures var r := ApplyLines(a, PatchLines(a, b, es, cs), st, saw);
            r.Some? && Finish(a, r.value) == b
    decreases |cs|
  {
    CoveredChunks(es, cs, k);
    if cs == [] {
      GapApplies(a, b, es, k, |es|, st);
      ScriptFrom(a, b, es, |es|);
      assert es[..|es|] == es;
    } else {
      var st' := ChunkApplies(a, b, es, cs, k, st, saw);
      PatchApplies(a, b, es, cs[1..], cs[0].hi, st', true);
    }
  }

  // ---- headers that do not read back --------------------------------------

  /** Line numbers only grow, so an unreadable header makes every later one unreadable. */
  lemma {:induction false} MisfitsPersist(es: seq<Edit>, cs: seq<Chunk>, k: nat, c: Chunk)
    requires Covers(es, cs, k) && c.lo <= c.hi <= k && !HeaderFits(HeaderOf(es, c))
    ensures forall d :: d in cs ==> d.lo <= d.hi <= |es| && !HeaderFits(HeaderOf(es, d))
    decreases |cs|
  {
    CoveredChunks(es, cs, k);
    forall d | d in cs
      ensures !HeaderFits(HeaderOf(es, d))
    {
      CountSlice(es, 0, c.lo, c.hi);
      CountSlice(es, 0, c.hi, d.lo);
      assert es[..c.lo] == es[0..c.lo] && es[..d.lo] == es[0..d.lo];
    }
  }

  lemma EditLineIsNotHeader(a: Lines, b: Lines, e: Edit)
    ensures var lines := EditLines(a, b, e);
            1 <= |lines| <= 2 && lines[0] != "" && lines[0] != MARKER && (|lines| == 2 ==> lines[1] == MARKER)
    ensures forall line :: line in EditLines(a, b, e) ==> !("@@ -" <= line) && ParseHeader(line) == None
  {
    var first := EditLines(a, b, e)[0];
    assert first[0] in {' ', '-', '+'} && MARKER[0] == '\\' && "@@ -"[0] == '@';
  }

  lemma {:induction false} BodySkipped(a: Lines, b: Lines, es: seq<Edit>, tail: seq<string>, st: State)
    ensures ApplyLines(a, BodyLines(a, b, es) + tail, st, false) == ApplyLines(a, tail, st, false)
    decreases |es|
  {
    if es == [] {
      assert BodyLines(a, b, es) + tail == tail;
    } else {
      var next := BodyLines(a, b, es[1..]) + tail;
      var first := EditLines(a, b, es[0]);
      assert BodyLines(a, b, es) + tail == first + next;
      EditLineIsNotHeader(a, b, es[0]);
      var marked := |first| == 2;
      assert (first + next)[1..] == Mark(marked) + next;
      MarkerSkipped(a, next, st, false, marked);
      BodySkipped(a, b, es[1..], tail, st);
    }
  }

  /** When every header is unreadable the whole patch is skipped as preamble. */
  lemma {:induction false} PatchSkipped(a: Lines, b: Lines, es: seq<Edit>, cs: seq<Chunk>, st: State)
    requires forall c :: c in cs ==> c.lo <= c.hi <= |es| && !HeaderFits(HeaderOf(es, c))
    ensures ApplyLines(a, PatchLines(a, b, es, cs), st, false) == Some(st)
    decreases |cs|
  {
    if cs != [] {
      var c := cs[0];
      var rest := BodyLines(a, b, es[c.lo..c.hi]) + PatchLines(a, b, es, cs[1..]);
      PatchUnfolds(a, b, es, cs);
      MisfitStep(a, HeaderOf(es, c), rest, st, false);
      BodySkipped(a, b, es[c.lo..c.hi], PatchLines(a, b, es, cs[1..]), st);
      PatchSkipped(a, b, es, cs[1..], st);
    }
  }

  /** An unreadable header: after a readable one the patch is refused, at the front it is ignored. */
  lemma {:induction false} PatchFails(a: Lines, b: Lines, es: seq<Edit>, cs: seq<Chunk>, k: nat, st: State, saw: bool)
    requires WellFormed(a) && WellFormed(b) && KeyScript(es, a, b, 0, 0)
    requires Covers(es, cs, k) && (forall c :: c in cs ==> c.lo <= c.hi <= |es|)
    requires At(a, b, es, k, st) && !AllFit(es, cs)
    ensures var r := ApplyLines(a, PatchLines(a, b, es, cs), st, saw);
            r == None || (!saw && r == Some(st))
    decreases |cs|
  {
    CoveredChunks(es, cs, k);
    var c := cs[0];
    assert forall d :: d in cs <==> d == c || d in cs[1..];
    if HeaderFits(HeaderOf(es, c)) {
      var st' := ChunkApplies(a, b, es, cs, k, st, saw);
      PatchFails(a, b, es, cs[1..], c.hi, st', true);
    } else {
      MisfitFirst(a, b, es, cs, k, st, saw);
    }
  }

  lemma MisfitFirst(a: Lines, b: Lines, es: seq<Edit>, cs: seq<Chunk>, k: nat, st: State, saw: bool)
    requires Covers(es, cs, k) && (forall c :: c in cs ==> c.lo <= c.hi <= |es|)
    requires cs != [] && !HeaderFits(HeaderOf(es, cs[0]))
    ensures ApplyLines(a, PatchLines(a, b, es, cs), st, saw) == if saw then None else Some(st)
  {
    if saw {
      PatchUnfolds(a, b, es, cs);
      MisfitStep(a, HeaderOf(es, cs[0]), BodyLines(a, b, es[cs[0].lo..cs[0].hi]) + PatchLines(a, b, es, cs[1..]), st, true);
    } else {
      MisfitsPersist(es, cs[1..], cs[0].hi, cs[0]);
      assert forall d :: d in cs <==> d == cs[0] || d in cs[1..];
      PatchSkipped(a, b, es, cs, st);
    }
  }

  // ---- the round trip -----------------------------------------------------

  /** Every line of the patch that starts like a hunk header can be read as one. */
  ghost predicate HeadersReadable(patch: string) {
    forall line :: line in SplitOf(patch).v && "@@ -" <= line ==> ParseHeader(line).Some?
  }

  lemma {:induction false} BodyLineShape(a: Lines, b: Lines, es: seq<Edit>)
    requires WellFormed(a) && WellFormed(b)
    ensures forall line :: line in BodyLines(a, b, es) ==> NoNewline(line) && !("@@ -" <= line)
  {
    if es != [] {
      BodyLineShape(a, b, es[1..]);
      var e := es[0];
      assert NoNewline(LineAt(a, e.index)) && NoNewline(LineAt(b, e.index));
      assert NoNewline(MARKER);
      EditLineIsNotHeader(a, b, e);
      assert NoNewline(EditLines(a, b, e)[0]);
      assert forall line :: line in EditLines(a, b, e) ==> line == EditLines(a, b, e)[0] || line == MARKER;
    }
  }

  /** The header lines of an emitted patch are readable exactly when their numbers fit. */
  lemma {:induction false} PatchLineShape(a: Lines, b: Lines, es: seq<Edit>, cs: seq<Chunk>)
    requires WellFormed(a) && WellFormed(b)
    requires forall c :: c in cs ==> c.lo <= c.hi <= |es|
    ensures forall line :: line in PatchLines(a, b, es, cs) ==> NoNewline(line)
    ensures AllFit(es, cs) <==>
            forall line :: line in PatchLines(a, b, es, cs) && "@@ -" <= line ==> ParseHeader(line).Some?
  {
    if cs != [] {
      var c := cs[0];
      PatchLineShape(a, b, es, cs[1..]);
      var h := HeaderOf(es, c);
      HeaderHasNoNewline(h);
      HeaderReadsBack(h);
      BodyLineShape(a, b, es[c.lo..c.hi]);
      var lines, body, tail := PatchLines(a, b, es, cs), BodyLines(a, b, es[c.lo..c.hi]), PatchLines(a, b, es, cs[1..]);
      assert lines == [HeaderLine(h)] + body + tail;
      assert lines[0] == HeaderLine(h);
      assert forall line :: line in lines <==> line == HeaderLine(h) || line in body || line in tail;
      assert forall d :: d in cs <==> d == c || d in cs[1..];
    }
  }

  /** A patch emitted for any script and any covering hunks gives the target back exactly when
      all its header lines are readable; otherwise it is refused or changes nothing. */
  lemma {:induction false} RoundTrip(from: string, to: string, es: seq<Edit>, cs: seq<Chunk>)
    requires from != to
    requires KeyScript(es, SplitOf(from), SplitOf(to), 0, 0)
    requires Covers(es, cs, 0) && (forall c :: c in cs ==> c.lo <= c.hi <= |es|)
    ensures var patch := Terminate(PatchLines(SplitOf(from), SplitOf(to), es, cs));
            && (HeadersReadable(patch) <==> ApplyText(from, patch) == Some(to))
            && (!HeadersReadable(patch) ==> ApplyText(from, patch) in {None, Some(from)})
  {
    var a, b := SplitOf(from), SplitOf(to);
    var lines := PatchLines(a, b, es, cs);
    JoinInvertsSplit(from);
    JoinInvertsSplit(to);
    PatchLineShape(a, b, es, cs);
    SplitInvertsTerminate(lines);
    assert es[..0] == [];
    if AllFit(es, cs) {
      PatchApplies(a, b, es, cs, 0, Begin(a), false);
    } else {
      PatchFails(a, b, es, cs, 0, Begin(a), false);
      FinishUntouched(a, Begin(a));
    }
  }

  /** Copying the whole source from the start reproduces it. */
  lemma {:induction false} FinishUntouched(a: Lines, st: State)
    requires WellFormed(a) && st.srcAt <= |a.v| && st.result == a.v[..st.srcAt]
    requires st.noNewline == !a.finalNewline || st.srcAt < |a.v|
    ensures Finish(a, st) == a
    decreases |a.v| - st.srcAt
  {
    if st.srcAt < |a.v| {
      FinishUntouched(a, TakeSrc(a, st));
    }
  }
}
