/** The emitter of core/src/diff.cpp: trimming, searching, grouping into hunks, printing. */
module DiffUnified {
  import opened Text
  import opened DiffScript
  import opened DiffText
  import opened DiffApply
  import opened DiffPatch
  import opened Diff
  import opened DiffHunks
  import opened DiffTrim
  import opened DiffGroups

  // ---- the emitter --------------------------------------------------------

  /** Both texts are short enough to search, and close enough to be found. */
  ghost predicate Searched(from: string, to: string, maxLines: nat, maxEdits: nat) {
    var a, b := SplitOf(from), SplitOf(to);
    |a.v| <= maxLines && |b.v| <= maxLines && Distance(KeysOf(a), KeysOf(b)) <= maxEdits
  }

  /** `patch` prints the hunks `cs` of a script from `from` to `to`. */
  ghost predicate Prints(from: string, to: string, es: seq<Edit>, cs: seq<Chunk>, patch: string) {
    var a, b := SplitOf(from), SplitOf(to);
    && KeyScript(es, a, b, 0, 0)
    && Covers(es, cs, 0) && cs != []
    && patch == Terminate(PatchLines(a, b, es, cs))
  }

  /** Every header number of either text is small enough to read back. */
  predicate LineCountsFit(from: string, to: string) {
    Fits(|SplitOf(from).v|) && Fits(|SplitOf(to).v|)
  }

  lemma {:induction false} AllKeepSame(es: seq<Edit>, a: seq<string>, b: seq<string>, x: nat, y: nat)
    requires Script(es, a, b, x, y) && AllKeep(es, 0, |es|)
    ensures x <= |a| && y <= |b| && a[x..] == b[y..]
    decreases |es|
  {
    if es != [] {
      assert es[0].op == Keep;
      assert forall p :: 0 <= p < |es| - 1 ==> es[1..][p] == es[p + 1];
      AllKeepSame(es[1..], a, b, x + 1, y + 1);
      assert a[x..] == [a[x]] + a[x + 1..] && b[y..] == [b[y]] + b[y + 1..];
    }
  }

  lemma DifferentTextsChange(from: string, to: string, es: seq<Edit>)
    requires from != to && KeyScript(es, SplitOf(from), SplitOf(to), 0, 0)
    ensures exists p :: 0 <= p < |es| && es[p].op != Keep
  {
    if AllKeep(es, 0, |es|) {
      AllKeepSame(es, KeysOf(SplitOf(from)), KeysOf(SplitOf(to)), 0, 0);
      JoinInvertsSplit(from);
      JoinInvertsSplit(to);
      KeysInjective(SplitOf(from), SplitOf(to));
      assert false;
    }
  }

  lemma HeaderNumbersFit(from: string, to: string, es: seq<Edit>, c: Chunk)
    requires KeyScript(es, SplitOf(from), SplitOf(to), 0, 0) && c.lo <= c.hi <= |es| && LineCountsFit(from, to)
    ensures HeaderFits(HeaderOf(es, c))
  {
    var a, b := SplitOf(from), SplitOf(to);
    CountSlice(es, 0, c.lo, c.hi);
    assert es[..c.lo] == es[0..c.lo] && es[..c.hi] == es[0..c.hi];
    ScriptFrom(a, b, es, c.hi);
    ScriptIndices(es[c.hi..], KeysOf(a), KeysOf(b), CountA(es[..c.hi]), CountB(es[..c.hi]));
  }

  /** A printed patch gives the target back exactly when its headers are readable, and they are
      whenever the line counts fit. */
  lemma PrintedPatchApplies(from: string, to: string, es: seq<Edit>, cs: seq<Chunk>, patch: string)
    requires from != to && Prints(from, to, es, cs, patch)
    ensures patch != ""
    ensures HeadersReadable(patch) <==> ApplyText(from, patch) == Some(to)
    ensures LineCountsFit(from, to) ==> ApplyText(from, patch) == Some(to)
  {
    var a, b := SplitOf(from), SplitOf(to);
    CoveredChunks(es, cs, 0);
    RoundTrip(from, to, es, cs);
    PatchUnfolds(a, b, es, cs);
    if LineCountsFit(from, to) {
      forall c | c in cs
        ensures HeaderFits(HeaderOf(es, c))
      {
        HeaderNumbersFit(from, to, es, c);
      }
      HeadersReadableIfFit(from, to, es, cs, patch);
    }
  }

  lemma HeadersReadableIfFit(from: string, to: string, es: seq<Edit>, cs: seq<Chunk>, patch: string)
    requires Prints(from, to, es, cs, patch)
    ensures AllFit(es, cs) <==> HeadersReadable(patch)
  {
    JoinInvertsSplit(from);
    JoinInvertsSplit(to);
    CoveredChunks(es, cs, 0);
    PatchLineShape(SplitOf(from), SplitOf(to), es, cs);
    SplitInvertsTerminate(PatchLines(SplitOf(from), SplitOf(to), es, cs));
  }

  /** The empty patch changes nothing. */
  lemma EmptyPatchApplies(from: string)
    ensures ApplyText(from, "") == Some(from) && HeadersReadable("")
  {
    JoinInvertsSplit(from);
    FinishUntouched(SplitOf(from), Begin(SplitOf(from)));
  }

  /** The patch is empty exactly for equal texts. Otherwise it prints hunks of a script between
      the texts: a script no other beats, grouped so that precisely the changes and their context
      are shown, when the texts are within both bounds; one hunk replacing everything when not.
      Applying it to `from` yields `to` exactly when its headers can be read back. */
  method Unified(from: string, to: string, ctxlen: int, maxLines: nat, maxEdits: nat)
    returns (patch: string, ghost es: seq<Edit>, ghost cs: seq<Chunk>)
    ensures patch == "" <==> from == to
    ensures from != to ==> Prints(from, to, es, cs, patch)
    ensures from != to && Searched(from, to, maxLines, maxEdits) ==>
              Optimal(es, KeysOf(SplitOf(from)), KeysOf(SplitOf(to))) && Grouped(es, if ctxlen < 0 then 0 else ctxlen, cs)
    ensures from != to && !Searched(from, to, maxLines, maxEdits) ==>
              es == WholeScript(|SplitOf(from).v|, |SplitOf(to).v|) && cs == [Chunk(0, |es|)]
    ensures HeadersReadable(patch) <==> ApplyText(from, patch) == Some(to)
    ensures LineCountsFit(from, to) ==> ApplyText(from, patch) == Some(to)
  {
    if from == to {
      EmptyPatchApplies(from);
      return "", [], [];
    }
    patch, es, cs := UnifiedOfDifferent(from, to, ctxlen, maxLines, maxEdits);
    PrintedPatchApplies(from, to, es, cs, patch);
  }

  /** The emitter past its check for equal texts. */
  method UnifiedOfDifferent(from: string, to: string, ctxlen: int, maxLines: nat, maxEdits: nat)
    returns (patch: string, ghost es: seq<Edit>, ghost cs: seq<Chunk>)
    requires from != to
    ensures Prints(from, to, es, cs, patch)
    ensures Searched(from, to, maxLines, maxEdits) ==>
              Optimal(es, KeysOf(SplitOf(from)), KeysOf(SplitOf(to))) && Grouped(es, if ctxlen < 0 then 0 else ctxlen, cs)
    ensures !Searched(from, to, maxLines, maxEdits) ==>
              es == WholeScript(|SplitOf(from).v|, |SplitOf(to).v|) && cs == [Chunk(0, |es|)]
  {
    hide Grouped, Terminate, BodyLines, SplitOf, KeysOf, Distance, Cost;
    var ctx := if ctxlen < 0 then 0 else ctxlen;
    var a := Split(from);
    var b := Split(to);
    JoinInvertsSplit(from);
    JoinInvertsSplit(to);
    var ok := |a.v| <= maxLines && |b.v| <= maxLines;
    var full: seq<Edit> := [];
    if ok {
      ok, full := BestScript(KeysOf(a), KeysOf(b), maxEdits);
    }
    if ok {
      ScriptInRange(a, b, full);
      DifferentTextsChange(from, to, full);
      patch, cs := EmitHunks(a, b, full, ctx);
      es := full;
    } else {
      es := WholeScript(|a.v|, |b.v|);
      cs := [Chunk(0, |es|)];
      WholeScriptCovers(from, to);
      patch := WholeFileDiff(a, b);
      assert PatchLines(a, b, es, cs) == ChunkLines(a, b, es, cs[0]);
    }
  }

  lemma {:induction false} WholeScriptCovers(from: string, to: string)
    requires from != to
    ensures var a, b := SplitOf(from), SplitOf(to);
            var es := WholeScript(|a.v|, |b.v|);
            KeyScript(es, a, b, 0, 0) && InRange(a, b, es) && es != [] && Covers(es, [Chunk(0, |es|)], 0)
  {
    var a, b := SplitOf(from), SplitOf(to);
    var es := WholeScript(|a.v|, |b.v|);
    WholeScriptFrom(KeysOf(a), KeysOf(b), 0);
    assert es[0..] == es;
    ScriptInRange(a, b, es);
    DifferentTextsChange(from, to, es);
    assert Covers(es, [Chunk(0, |es|)][1..], |es|);
  }

  /** Diff and patch undo each other, for every context length and both bounds. */
  method Reconstruct(from: string, to: string, ctxlen: int, maxLines: nat, maxEdits: nat) returns (result: Option<string>)
    requires LineCountsFit(from, to)
    ensures result == Some(to)
  {
    var patch, _, _ := Unified(from, to, ctxlen, maxLines, maxEdits);
    result := Apply(from, patch);
  }

  /** The limit on header numbers is real: printing more lines than that over an empty text
      gives a patch that does not bring them back. */
  lemma HugeInsertionIsLost(n: nat) returns (target: string, patch: string)
    requires !Fits(n)
    ensures |SplitOf(target).v| == n && Prints("", target, WholeScript(0, n), [Chunk(0, n)], patch)
    ensures ApplyText("", patch) != Some(target)
  {
    hide PatchLines, ApplyText, SplitOf, Terminate, HeadersReadable, KeyScript, Covers;
    var lines := seq(n, _ => "");
    target := Terminate(lines);
    SplitInvertsTerminate(lines);
    NothingSplits();
    WholeScriptCovers("", target);
    patch := Terminate(PatchLines(SplitOf(""), SplitOf(target), WholeScript(0, n), [Chunk(0, n)]));
    HugeHeaderUnreadable(target, patch, n);
    RoundTrip("", target, WholeScript(0, n), [Chunk(0, n)]);
  }

  lemma NothingSplits()
    ensures SplitOf("") == Lines([], true)
  {
  }

  lemma {:induction false} HugeHeaderUnreadable(target: string, patch: string, n: nat)
    requires !Fits(n) && |SplitOf(target).v| == n && Prints("", target, WholeScript(0, n), [Chunk(0, n)], patch)
    ensures !HeadersReadable(patch)
  {
    var es, cs := WholeScript(0, n), [Chunk(0, n)];
    WholeCounts(0, n, n);
    assert es[..n] == es[0..n] == es;
    assert cs[0] in cs && !HeaderFits(HeaderOf(es, cs[0]));
    HeadersReadableIfFit("", target, es, cs, patch);
  }
}
