/** Printing and grouping in the emitter of core/src/diff.cpp: lines, hunk headers, the fallback to the whole
    file, and the hunks that show exactly the changes with their context. */
module DiffGroups {
  import opened Text
  import opened DiffScript
  import opened DiffText
  import opened DiffHunks

  // ---- printing -----------------------------------------------------------

  lemma TerminateOne(line: string)
    ensures Terminate([line]) == line + "\n"
  {
    assert [line][1..] == [];
  }

  method EmitLine(out0: string, prefix: char, text: string, lastOfSide: bool, sideFinalNewline: bool) returns (out: string)
    ensures out == out0 + Terminate([[prefix] + text] + Mark(lastOfSide && !sideFinalNewline))
  {
    TerminateOne([prefix] + text);
    TerminateOne(MARKER);
    TerminateAppend([[prefix] + text], Mark(lastOfSide && !sideFinalNewline));
    out := out0 + [prefix];
    out := out + text;
    out := out + "\n";
    assert out == out0 + ([prefix] + text + "\n");
    if lastOfSide && !sideFinalNewline {
      out := out + (MARKER + "\n");
    }
  }

  /** `out` is `out0` followed by the lines of the steps `lo .. k`. */
  ghost predicate BodyPrinted(a: Lines, b: Lines, es: seq<Edit>, lo: nat, k: nat, out0: string, out: string) {
    lo <= k <= |es| && out == out0 + Terminate(BodyLines(a, b, es[lo..k]))
  }

  lemma BodyBegins(a: Lines, b: Lines, es: seq<Edit>, lo: nat, out0: string)
    requires lo <= |es|
    ensures BodyPrinted(a, b, es, lo, lo, out0, out0)
  {
    assert es[lo..lo] == [];
  }

  /** One more step's lines extend the text printed so far. */
  lemma BodyGrows(a: Lines, b: Lines, es: seq<Edit>, lo: nat, k: nat, out0: string, out: string)
    requires BodyPrinted(a, b, es, lo, k, out0, out) && k < |es|
    ensures BodyPrinted(a, b, es, lo, k + 1, out0, out + Terminate(EditLines(a, b, es[k])))
  {
    assert es[lo..k + 1] == es[lo..k] + [es[k]];
    BodySnoc(a, b, es[lo..k], es[k]);
    TerminateAppend(BodyLines(a, b, es[lo..k]), EditLines(a, b, es[k]));
    Assoc(out0, Terminate(BodyLines(a, b, es[lo..k])), Terminate(EditLines(a, b, es[k])));
  }

  lemma {:induction false} BodySnoc(a: Lines, b: Lines, es: seq<Edit>, e: Edit)
    ensures BodyLines(a, b, es + [e]) == BodyLines(a, b, es) + EditLines(a, b, e)
    decreases |es|
  {
    if es == [] {
      assert es + [e] == [e] && [e][1..] == [];
    } else {
      assert (es + [e])[0] == es[0] && (es + [e])[1..] == es[1..] + [e];
      BodySnoc(a, b, es[1..], e);
      Assoc(EditLines(a, b, es[0]), BodyLines(a, b, es[1..]), EditLines(a, b, e));
    }
  }

  lemma ChunkText(a: Lines, b: Lines, es: seq<Edit>, c: Chunk)
    requires c.lo <= c.hi <= |es|
    ensures Terminate(ChunkLines(a, b, es, c)) == HeaderLine(HeaderOf(es, c)) + "\n" + Terminate(BodyLines(a, b, es[c.lo..c.hi]))
  {
    TerminateOne(HeaderLine(HeaderOf(es, c)));
    TerminateAppend([HeaderLine(HeaderOf(es, c))], BodyLines(a, b, es[c.lo..c.hi]));
  }

  /** The line numbers at the start of a hunk and the counts of its two sides. */
  method HunkNumbers(full: seq<Edit>, begin: nat, end: nat) returns (h: Header)
    requires begin <= end <= |full|
    ensures h == HeaderOf(full, Chunk(begin, end))
  {
    var aAt, bAt := 0, 0;
    for k := 0 to begin
      invariant aAt == CountA(full[0..k]) && bAt == CountB(full[0..k])
    {
      CountOne(full, 0, k);
      if full[k].op != Ins {
        aAt := aAt + 1;
      }
      if full[k].op != Del {
        bAt := bAt + 1;
      }
    }
    var aCount, bCount := 0, 0;
    for k := begin to end
      invariant aCount == CountA(full[begin..k]) && bCount == CountB(full[begin..k])
    {
      CountOne(full, begin, k);
      if full[k].op != Ins {
        aCount := aCount + 1;
      }
      if full[k].op != Del {
        bCount := bCount + 1;
      }
    }
    assert full[0..begin] == full[..begin];
    h := Header(aAt, aCount, bAt, bCount);
  }

  method EmitEdit(out0: string, a: Lines, b: Lines, e: Edit) returns (out: string)
    requires e.index < if e.op == Ins then |b.v| else |a.v|
    ensures out == out0 + Terminate(EditLines(a, b, e))
  {
    match e.op
    case Keep =>
      out := EmitLine(out0, ' ', a.v[e.index], e.index + 1 == |a.v|, a.finalNewline && b.finalNewline);
    case Del =>
      out := EmitLine(out0, '-', a.v[e.index], e.index + 1 == |a.v|, a.finalNewline);
    case Ins =>
      out := EmitLine(out0, '+', b.v[e.index], e.index + 1 == |b.v|, b.finalNewline);
  }

  /** Print one hunk: its header, then its lines. */
  method EmitHunk(out0: string, a: Lines, b: Lines, full: seq<Edit>, begin: nat, end: nat) returns (out: string)
    requires InRange(a, b, full) && begin <= end <= |full|
    ensures out == out0 + Terminate(ChunkLines(a, b, full, Chunk(begin, end)))
  {
    var h := HunkNumbers(full, begin, end);
    var header := HunkHeader(h.aStart, h.aCount, h.bStart, h.bCount);
    ChunkText(a, b, full, Chunk(begin, end));
    out := EmitBody(out0 + header, a, b, full, begin, end);
  }

  method EmitBody(out0: string, a: Lines, b: Lines, full: seq<Edit>, begin: nat, end: nat) returns (out: string)
    requires InRange(a, b, full) && begin <= end <= |full|
    ensures out == out0 + Terminate(BodyLines(a, b, full[begin..end]))
  {
    hide BodyPrinted, EditLines, Terminate, BodyLines;
    out := out0;
    BodyBegins(a, b, full, begin, out0);
    for k := begin to end
      invariant BodyPrinted(a, b, full, begin, k, out0, out)
    {
      BodyGrows(a, b, full, begin, k, out0, out);
      ghost var grown := out + Terminate(EditLines(a, b, full[k]));
      out := EmitEdit(out, a, b, full[k]);
      assert out == grown;
    }
    BodyEnds(a, b, full, begin, end, out0, out);
  }

  lemma BodyEnds(a: Lines, b: Lines, es: seq<Edit>, lo: nat, hi: nat, out0: string, out: string)
    requires BodyPrinted(a, b, es, lo, hi, out0, out)
    ensures out == out0 + Terminate(BodyLines(a, b, es[lo..hi]))
  {
  }

  // ---- the whole-file fallback --------------------------------------------

  function DelRun(n: nat): seq<Edit> {
    seq(n, k requires 0 <= k < n => Edit(Del, k))
  }

  function InsRun(n: nat): seq<Edit> {
    seq(n, k requires 0 <= k < n => Edit(Ins, k))
  }

  /** Delete everything, then insert everything. */
  function WholeScript(n: nat, m: nat): seq<Edit> {
    DelRun(n) + InsRun(m)
  }

  lemma {:induction false} WholeScriptFrom(a: seq<string>, b: seq<string>, k: nat)
    requires k <= |a| + |b|
    ensures Script(WholeScript(|a|, |b|)[k..], a, b, if k <= |a| then k else |a|, if k <= |a| then 0 else k - |a|)
    decreases |a| + |b| - k
  {
    var es := WholeScript(|a|, |b|);
    if k < |es| {
      WholeScriptFrom(a, b, k + 1);
      assert es[k..][1..] == es[k + 1..];
    }
  }

  lemma {:induction false} WholeCounts(n: nat, m: nat, k: nat)
    requires k <= n + m
    ensures CountA(WholeScript(n, m)[..k]) == if k <= n then k else n
    ensures CountB(WholeScript(n, m)[..k]) == if k <= n then 0 else k - n
    decreases k
  {
    var es := WholeScript(n, m);
    if k > 0 {
      WholeCounts(n, m, k - 1);
      assert es[..k][..k - 1] == es[..k - 1];
    }
  }

  method WholeFileDiff(a: Lines, b: Lines) returns (out: string)
    requires InRange(a, b, WholeScript(|a.v|, |b.v|))
    ensures var es := WholeScript(|a.v|, |b.v|);
            out == Terminate(ChunkLines(a, b, es, Chunk(0, |es|)))
  {
    hide Terminate, ChunkLines, BodyLines;
    ghost var es := WholeScript(|a.v|, |b.v|);
    var header := HunkHeader(0, |a.v|, 0, |b.v|);
    WholeCounts(|a.v|, |b.v|, |es|);
    assert es[..|es|] == es[0..|es|] && es[..0] == [];
    ChunkText(a, b, es, Chunk(0, |es|));
    BodyBegins(a, b, es, 0, header);
    out := DeleteAll(header, a, b);
    out := InsertAll(header, out, a, b);
  }

  method DeleteAll(header: string, a: Lines, b: Lines) returns (out: string)
    requires InRange(a, b, WholeScript(|a.v|, |b.v|))
    ensures BodyPrinted(a, b, WholeScript(|a.v|, |b.v|), 0, |a.v|, header, out)
  {
    hide BodyPrinted, Terminate;
    ghost var es := WholeScript(|a.v|, |b.v|);
    out := header;
    BodyBegins(a, b, es, 0, header);
    for i := 0 to |a.v|
      invariant BodyPrinted(a, b, es, 0, i, header, out)
    {
      assert es[i] == Edit(Del, i);
      BodyGrows(a, b, es, 0, i, header, out);
      ghost var grown := out + Terminate(EditLines(a, b, es[i]));
      out := EmitLine(out, '-', a.v[i], i + 1 == |a.v|, a.finalNewline);
      assert out == grown;
    }
  }

  method InsertAll(ghost header: string, out0: string, a: Lines, b: Lines) returns (out: string)
    requires BodyPrinted(a, b, WholeScript(|a.v|, |b.v|), 0, |a.v|, header, out0)
    ensures BodyPrinted(a, b, WholeScript(|a.v|, |b.v|), 0, |a.v| + |b.v|, header, out)
  {
    hide BodyPrinted, Terminate;
    ghost var es := WholeScript(|a.v|, |b.v|);
    out := out0;
    for i := 0 to |b.v|
      invariant BodyPrinted(a, b, es, 0, |a.v| + i, header, out)
    {
      assert es[|a.v| + i] == Edit(Ins, i);
      BodyGrows(a, b, es, 0, |a.v| + i, header, out);
      ghost var grown := out + Terminate(EditLines(a, b, es[|a.v| + i]));
      out := EmitLine(out, '+', b.v[i], i + 1 == |b.v|, b.finalNewline);
      assert out == grown;
    }
  }

  // ---- grouping -----------------------------------------------------------

  /** A step is shown when a change lies within `ctx` steps of it. */
  ghost predicate Shown(es: seq<Edit>, ctx: nat, p: nat) {
    exists q :: 0 <= q < |es| && es[q].op != Keep && p - ctx <= q <= p + ctx
  }

  ghost predicate InHunk(cs: seq<Chunk>, p: nat) {
    exists c :: c in cs && c.lo <= p < c.hi
  }

  /** Hunks in order with at least one step left out between neighbours. */
  ghost predicate Separated(es: seq<Edit>, cs: seq<Chunk>) {
    && (forall i :: 0 <= i < |cs| ==> cs[i].lo < cs[i].hi <= |es|)
    && (forall i, j :: 0 <= i < j < |cs| ==> cs[i].hi < cs[j].lo)
  }

  /** The hunks show exactly the changes and their context; this determines them. */
  ghost predicate Grouped(es: seq<Edit>, ctx: nat, cs: seq<Chunk>) {
    Separated(es, cs) && forall p :: 0 <= p < |es| ==> (InHunk(cs, p) <==> Shown(es, ctx, p))
  }

  ghost predicate Changes(es: seq<Edit>, n: nat, changed: seq<nat>)
    requires n <= |es|
  {
    && Ascending(changed, n)
    && (forall i :: 0 <= i < |changed| ==> es[changed[i]].op != Keep)
    && (forall p :: 0 <= p < n && es[p].op != Keep ==> p in changed)
  }

  /** `p` is within `ctx` of one of the changes `lo .. hi`. */
  ghost predicate Near(changed: seq<nat>, lo: nat, hi: nat, ctx: nat, p: int)
    requires hi <= |changed|
  {
    exists t :: lo <= t < hi && changed[t] - ctx <= p <= changed[t] + ctx
  }

  /** The contexts of change `t` and the next one touch or overlap. */
  predicate Close(changed: seq<nat>, t: nat, ctx: nat) {
    t + 1 < |changed| && changed[t + 1] <= changed[t] + 2 * ctx + 1
  }

  /** Changes close enough to share a hunk leave no gap between their contexts. */
  lemma {:induction false} GroupIsNear(changed: seq<nat>, i: nat, j: nat, ctx: nat, p: int)
    requires i <= j < |changed| && changed[i] - ctx <= p <= changed[j] + ctx
    requires forall t :: i <= t < j ==> Close(changed, t, ctx)
    ensures Near(changed, i, j + 1, ctx, p)
    decreases j - i
  {
    if p > changed[i] + ctx {
      assert Close(changed, i, ctx);
      GroupIsNear(changed, i + 1, j, ctx, p);
    }
  }

  lemma {:induction false} SeparatedCovers(es: seq<Edit>, cs: seq<Chunk>, k: nat)
    requires Separated(es, cs) && k <= |es| && (cs != [] ==> k <= cs[0].lo)
    requires forall p :: k <= p < |es| && es[p].op != Keep ==> InHunk(cs, p)
    ensures Covers(es, cs, k)
    decreases |cs|
  {
    if cs != [] {
      SeparatedAscends(es, cs);
      forall p | cs[0].hi <= p < |es| && es[p].op != Keep
        ensures InHunk(cs[1..], p)
      {
        var c :| c in cs && c.lo <= p < c.hi;
        assert c in cs[1..];
      }
      forall p | k <= p < cs[0].lo
        ensures es[p].op == Keep
      {
        assert !InHunk(cs, p);
      }
      SeparatedCovers(es, cs[1..], cs[0].hi);
    } else {
      forall p | k <= p < |es|
        ensures es[p].op == Keep
      {
        assert !InHunk(cs, p);
      }
    }
  }

  lemma {:induction false} SeparatedAscends(es: seq<Edit>, cs: seq<Chunk>)
    requires Separated(es, cs) && cs != []
    ensures forall c :: c in cs ==> cs[0].lo <= c.lo
    decreases |cs|
  {
    if |cs| > 1 {
      SeparatedAscends(es, cs[1..]);
      assert forall c :: c in cs ==> c == cs[0] || c in cs[1..];
    }
  }

  /** The positions of the changes in a script. */
  method FindChanges(full: seq<Edit>) returns (changed: seq<nat>)
    ensures Changes(full, |full|, changed)
  {
    changed := [];
    for i := 0 to |full|
      invariant Changes(full, i, changed)
    {
      if full[i].op != Keep {
        changed := changed + [i];
      }
    }
  }

  /** The last change of the group that starts at change `i`. */
  function GroupEndOf(changed: seq<nat>, i: nat, ctx: nat): (j: nat)
    requires i < |changed|
    ensures i <= j < |changed|
    decreases |changed| - i
  {
    if Close(changed, i, ctx) then GroupEndOf(changed, i + 1, ctx) else i
  }

  lemma {:induction false} GroupEndSpec(changed: seq<nat>, i: nat, ctx: nat)
    requires i < |changed|
    ensures var j := GroupEndOf(changed, i, ctx);
            !Close(changed, j, ctx) && forall t :: i <= t < j ==> Close(changed, t, ctx)
    decreases |changed| - i
  {
    if Close(changed, i, ctx) {
      GroupEndSpec(changed, i + 1, ctx);
    }
  }

  method GroupEnd(changed: seq<nat>, i: nat, ctx: nat) returns (j: nat)
    requires i < |changed|
    ensures j == GroupEndOf(changed, i, ctx)
  {
    j := i;
    while j + 1 < |changed| && changed[j + 1] <= changed[j] + 2 * ctx + 1
      invariant i <= j < |changed| && GroupEndOf(changed, j, ctx) == GroupEndOf(changed, i, ctx)
    {
      j := j + 1;
    }
  }

  /** The hunk around the changes `i ..= j` of a script of `n` steps. */
  function GroupChunk(changed: seq<nat>, i: nat, j: nat, ctx: nat, n: nat): Chunk
    requires i <= j < |changed|
  {
    Chunk(if changed[i] > ctx then changed[i] - ctx else 0, Min(n, changed[j] + ctx + 1))
  }

  ghost predicate Ascending(changed: seq<nat>, n: nat) {
    && (forall i, j :: 0 <= i < j < |changed| ==> changed[i] < changed[j])
    && (forall i :: 0 <= i < |changed| ==> changed[i] < n)
  }

  /** The hunks of the changes from `i` on. */
  function ChunksFrom(changed: seq<nat>, i: nat, ctx: nat, n: nat): (cs: seq<Chunk>)
    requires i <= |changed|
    decreases |changed| - i
  {
    if i == |changed| then []
    else
      [GroupChunk(changed, i, GroupEndOf(changed, i, ctx), ctx, n)] + ChunksFrom(changed, GroupEndOf(changed, i, ctx) + 1, ctx, n)
  }

  /** One hunk covers exactly the steps near its changes. */
  lemma ChunkIsNear(changed: seq<nat>, i: nat, ctx: nat, n: nat, p: nat)
    requires i < |changed| && Ascending(changed, n) && p < n
    ensures var j := GroupEndOf(changed, i, ctx);
            var c := GroupChunk(changed, i, j, ctx, n);
            c.lo <= p < c.hi <==> Near(changed, i, j + 1, ctx, p)
  {
    var j := GroupEndOf(changed, i, ctx);
    var c := GroupChunk(changed, i, j, ctx, n);
    GroupEndSpec(changed, i, ctx);
    if c.lo <= p < c.hi {
      GroupIsNear(changed, i, j, ctx, p);
    }
    if t :| i <= t < j + 1 && changed[t] - ctx <= p <= changed[t] + ctx {
      assert changed[i] <= changed[t] <= changed[j];
    }
  }

  /** Hunks of successive groups leave a step out between them. */
  lemma {:induction false} ChunksSeparate(changed: seq<nat>, i: nat, ctx: nat, es: seq<Edit>)
    requires i <= |changed| && Ascending(changed, |es|)
    ensures var cs := ChunksFrom(changed, i, ctx, |es|);
            Separated(es, cs) && if i < |changed| then cs != [] && changed[i] <= cs[0].lo + ctx else cs == []
    decreases |changed| - i
  {
    if i < |changed| {
      var j := GroupEndOf(changed, i, ctx);
      assert changed[i] <= changed[j] < |es|;
      GroupEndSpec(changed, i, ctx);
      ChunksSeparate(changed, j + 1, ctx, es);
      HunksSeparate(es, GroupChunk(changed, i, j, ctx, |es|), ChunksFrom(changed, j + 1, ctx, |es|));
    }
  }

  lemma InHunkSplits(c: Chunk, rest: seq<Chunk>, p: nat)
    ensures InHunk([c] + rest, p) <==> c.lo <= p < c.hi || InHunk(rest, p)
  {
    assert forall d :: d in [c] + rest <==> d == c || d in rest;
  }

  /** The hunks cover exactly the steps near a change. */
  lemma {:induction false} ChunksCover(changed: seq<nat>, i: nat, ctx: nat, n: nat, p: nat)
    requires i <= |changed| && Ascending(changed, n) && p < n
    ensures InHunk(ChunksFrom(changed, i, ctx, n), p) <==> Near(changed, i, |changed|, ctx, p)
    decreases |changed| - i
  {
    if i < |changed| {
      var j := GroupEndOf(changed, i, ctx);
      ChunkIsNear(changed, i, ctx, n, p);
      ChunksCover(changed, j + 1, ctx, n, p);
      InHunkSplits(GroupChunk(changed, i, j, ctx, n), ChunksFrom(changed, j + 1, ctx, n), p);
    }
  }

  lemma HunksSeparate(es: seq<Edit>, c: Chunk, rest: seq<Chunk>)
    requires Separated(es, rest) && c.lo < c.hi <= |es| && (rest != [] ==> c.hi < rest[0].lo)
    ensures Separated(es, [c] + rest)
  {
    var cs := [c] + rest;
    forall i, j | 0 <= i < j < |cs|
      ensures cs[i].hi < cs[j].lo
    {
      assert cs[j] == rest[j - 1];
      if i == 0 && j > 1 {
        assert rest[0].hi < rest[j - 1].lo;
      }
    }
  }

  lemma NearIsShown(es: seq<Edit>, changed: seq<nat>, ctx: nat, p: nat)
    requires Changes(es, |es|, changed) && p < |es|
    ensures Near(changed, 0, |changed|, ctx, p) <==> Shown(es, ctx, p)
  {
    if t :| 0 <= t < |changed| && changed[t] - ctx <= p <= changed[t] + ctx {
      assert es[changed[t]].op != Keep;
    }
    if q :| 0 <= q < |es| && es[q].op != Keep && p - ctx <= q <= p + ctx {
      var t :| 0 <= t < |changed| && changed[t] == q;
    }
  }

  /** The grouping of all changes shows the changes and their context, and covers them. */
  lemma GroupingIsRight(es: seq<Edit>, changed: seq<nat>, ctx: nat)
    requires Changes(es, |es|, changed) && changed != []
    ensures var cs := ChunksFrom(changed, 0, ctx, |es|);
            Grouped(es, ctx, cs) && Covers(es, cs, 0) && cs != []
  {
    var cs := ChunksFrom(changed, 0, ctx, |es|);
    ChunksSeparate(changed, 0, ctx, es);
    forall p: nat | p < |es|
      ensures InHunk(cs, p) <==> Shown(es, ctx, p)
      ensures es[p].op != Keep ==> InHunk(cs, p)
    {
      ChunksCover(changed, 0, ctx, |es|, p);
      NearIsShown(es, changed, ctx, p);
    }
    SeparatedCovers(es, cs, 0);
  }

  /** Group the changes into hunks with context and print them. */
  method EmitHunks(a: Lines, b: Lines, full: seq<Edit>, ctx: nat) returns (out: string, ghost cs: seq<Chunk>)
    requires InRange(a, b, full) && exists p :: 0 <= p < |full| && full[p].op != Keep
    ensures Grouped(full, ctx, cs) && Covers(full, cs, 0) && cs != []
    ensures out == Terminate(PatchLines(a, b, full, cs))
  {
    var changed := FindChanges(full);
    GroupingIsRight(full, changed, ctx);
    cs := ChunksFrom(changed, 0, ctx, |full|);
    out := PrintGroups(a, b, full, changed, ctx);
  }

  /** The text of the hunks of the changes from `i` on. */
  ghost function GroupsText(a: Lines, b: Lines, es: seq<Edit>, changed: seq<nat>, i: nat, ctx: nat): string
    requires i <= |changed|
  {
    Terminate(PatchLines(a, b, es, ChunksFrom(changed, i, ctx, |es|)))
  }

  /** Printing the next hunk leaves the hunks after it to print. */
  lemma {:induction false} GroupsTextUnfolds(a: Lines, b: Lines, es: seq<Edit>, changed: seq<nat>, i: nat, j: nat, ctx: nat, text: string)
    requires i < |changed| && j == GroupEndOf(changed, i, ctx)
    requires text == Terminate(ChunkLines(a, b, es, GroupChunk(changed, i, j, ctx, |es|)))
    ensures GroupsText(a, b, es, changed, i, ctx) == text + GroupsText(a, b, es, changed, j + 1, ctx)
  {
    hide GroupEndOf, GroupChunk, ChunkLines, Terminate, PatchLines;
    PatchTextCons(a, b, es, GroupChunk(changed, i, j, ctx, |es|), ChunksFrom(changed, j + 1, ctx, |es|),
                  ChunksFrom(changed, i, ctx, |es|), text, GroupsText(a, b, es, changed, j + 1, ctx));
  }

  lemma PatchTextCons(a: Lines, b: Lines, es: seq<Edit>, c: Chunk, rest: seq<Chunk>, whole: seq<Chunk>, text: string, more: string)
    requires whole == [c] + rest
    requires text == Terminate(ChunkLines(a, b, es, c)) && more == Terminate(PatchLines(a, b, es, rest))
    ensures Terminate(PatchLines(a, b, es, whole)) == text + more
  {
    hide ChunkLines, Terminate;
    assert whole[0] == c && whole[1..] == rest;
    TerminateAppend(ChunkLines(a, b, es, c), PatchLines(a, b, es, rest));
  }

  lemma AfterGroup(a: Lines, b: Lines, es: seq<Edit>, changed: seq<nat>, i: nat, j: nat, ctx: nat, out: string, text: string)
    requires i < |changed| && j == GroupEndOf(changed, i, ctx)
    requires text == Terminate(ChunkLines(a, b, es, GroupChunk(changed, i, j, ctx, |es|)))
    ensures (out + text) + GroupsText(a, b, es, changed, j + 1, ctx) == out + GroupsText(a, b, es, changed, i, ctx)
  {
    GroupsTextUnfolds(a, b, es, changed, i, j, ctx, text);
    Assoc(out, text, GroupsText(a, b, es, changed, j + 1, ctx));
  }

  lemma GroupsTextEnds(a: Lines, b: Lines, es: seq<Edit>, changed: seq<nat>, ctx: nat)
    ensures GroupsText(a, b, es, changed, |changed|, ctx) == ""
  {
  }

  method PrintGroups(a: Lines, b: Lines, full: seq<Edit>, changed: seq<nat>, ctx: nat) returns (out: string)
    requires InRange(a, b, full) && Ascending(changed, |full|)
    ensures out == GroupsText(a, b, full, changed, 0, ctx)
  {
    hide GroupsText, GroupEndOf, GroupChunk, ChunkLines, Terminate;
    out := "";
    var i := 0;
    GroupsTextEnds(a, b, full, changed, ctx);
    while i < |changed|
      invariant i <= |changed|
      invariant out + GroupsText(a, b, full, changed, i, ctx) == GroupsText(a, b, full, changed, 0, ctx)
    {
      var j, text := PrintGroup(a, b, full, changed, i, ctx);
      AfterGroup(a, b, full, changed, i, j, ctx, out, text);
      out := out + text;
      i := j + 1;
    }
  }

  /** The text of the hunk around the group that starts at change `i`, and its last change. */
  method PrintGroup(a: Lines, b: Lines, full: seq<Edit>, changed: seq<nat>, i: nat, ctx: nat) returns (j: nat, out: string)
    requires InRange(a, b, full) && i < |changed| && Ascending(changed, |full|)
    ensures j == GroupEndOf(changed, i, ctx)
    ensures out == Terminate(ChunkLines(a, b, full, GroupChunk(changed, i, j, ctx, |full|)))
  {
    var first := changed[i];
    j := GroupEnd(changed, i, ctx);
    var last := changed[j];
    var begin := if first > ctx then first - ctx else 0;
    var end := Min(|full|, last + ctx + 1);
    assert changed[i] <= changed[j];
    ghost var c := GroupChunk(changed, i, j, ctx, |full|);
    assert c == Chunk(begin, end);
    out := EmitHunk("", a, b, full, begin, end);
    assert ChunkLines(a, b, full, c) == ChunkLines(a, b, full, Chunk(begin, end));
  }

}
