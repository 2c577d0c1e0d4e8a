/** The hunks of core/src/diff.cpp over an edit script, and what the patcher does with one: the lines of a
    hunk perform exactly its steps of the script, whatever comes after it. */
module DiffHunks {
  import opened Text
  import opened DiffScript
  import opened DiffText
  import opened DiffApply

  // ---- hunks over an edit script ------------------------------------------

  /** A hunk covers the steps `lo .. hi` of the script. */
  datatype Chunk = Chunk(lo: nat, hi: nat)

  ghost predicate KeyScript(es: seq<Edit>, a: Lines, b: Lines, x: nat, y: nat) {
    Script(es, KeysOf(a), KeysOf(b), x, y)
  }

  /** How many source and target lines a stretch of the script covers. */
  ghost function CountA(es: seq<Edit>): nat {
    if es == [] then 0 else CountA(es[..|es| - 1]) + (if es[|es| - 1].op == Ins then 0 else 1)
  }

  ghost function CountB(es: seq<Edit>): nat {
    if es == [] then 0 else CountB(es[..|es| - 1]) + (if es[|es| - 1].op == Del then 0 else 1)
  }

  lemma {:induction false} CountSlice(es: seq<Edit>, lo: nat, mid: nat, hi: nat)
    requires lo <= mid <= hi <= |es|
    ensures CountA(es[lo..hi]) == CountA(es[lo..mid]) + CountA(es[mid..hi])
    ensures CountB(es[lo..hi]) == CountB(es[lo..mid]) + CountB(es[mid..hi])
    decreases hi - mid
  {
    if mid < hi {
      CountSlice(es, lo, mid, hi - 1);
      assert es[lo..hi][..hi - lo - 1] == es[lo..hi - 1];
      assert es[mid..hi][..hi - mid - 1] == es[mid..hi - 1];
    } else {
      assert es[mid..hi] == [];
    }
  }

  lemma CountOne(es: seq<Edit>, lo: nat, hi: nat)
    requires lo <= hi < |es|
    ensures CountA(es[lo..hi + 1]) == CountA(es[lo..hi]) + (if es[hi].op == Ins then 0 else 1)
    ensures CountB(es[lo..hi + 1]) == CountB(es[lo..hi]) + (if es[hi].op == Del then 0 else 1)
  {
    assert es[lo..hi + 1][..hi - lo] == es[lo..hi];
  }

  ghost predicate AllKeep(es: seq<Edit>, lo: nat, hi: nat)
    requires hi <= |es|
  {
    forall p :: lo <= p < hi ==> es[p].op == Keep
  }

  /** The hunks, in order, cover every change from step `k` on. */
  ghost predicate Covers(es: seq<Edit>, cs: seq<Chunk>, k: nat)
    decreases |cs|
  {
    && k <= |es|
    && if cs == [] then AllKeep(es, k, |es|)
       else k <= cs[0].lo < cs[0].hi <= |es| && AllKeep(es, k, cs[0].lo) && Covers(es, cs[1..], cs[0].hi)
  }

  ghost predicate InRange(a: Lines, b: Lines, es: seq<Edit>) {
    forall i :: 0 <= i < |es| ==> es[i].index < if es[i].op == Ins then |b.v| else |a.v|
  }

  function Mark(present: bool): seq<string> {
    if present then [MARKER] else []
  }

  function LineAt(l: Lines, i: nat): string {
    if i < |l.v| then l.v[i] else ""
  }

  /** The patch lines for one step of the script. */
  function EditLines(a: Lines, b: Lines, e: Edit): seq<string> {
    match e.op
    case Keep => [" " + LineAt(a, e.index)] + Mark(e.index + 1 == |a.v| && !(a.finalNewline && b.finalNewline))
    case Del => ["-" + LineAt(a, e.index)] + Mark(Unterminated(a, e.index))
    case Ins => ["+" + LineAt(b, e.index)] + Mark(Unterminated(b, e.index))
  }

  function BodyLines(a: Lines, b: Lines, es: seq<Edit>): seq<string> {
    if es == [] then [] else EditLines(a, b, es[0]) + BodyLines(a, b, es[1..])
  }

  ghost function HeaderOf(es: seq<Edit>, c: Chunk): Header
    requires c.lo <= c.hi <= |es|
  {
    Header(CountA(es[..c.lo]), CountA(es[c.lo..c.hi]), CountB(es[..c.lo]), CountB(es[c.lo..c.hi]))
  }

  /** The lines of one hunk. */
  ghost function ChunkLines(a: Lines, b: Lines, es: seq<Edit>, c: Chunk): seq<string> {
    if c.lo <= c.hi <= |es| then [HeaderLine(HeaderOf(es, c))] + BodyLines(a, b, es[c.lo..c.hi]) else []
  }

  ghost function PatchLines(a: Lines, b: Lines, es: seq<Edit>, cs: seq<Chunk>): seq<string> {
    if cs == [] then [] else ChunkLines(a, b, es, cs[0]) + PatchLines(a, b, es, cs[1..])
  }

  // ---- applying what was emitted ------------------------------------------

  /** A patch run that has performed the first `k` steps of the script. */
  ghost predicate At(a: Lines, b: Lines, es: seq<Edit>, k: nat, st: State) {
    && k <= |es|
    && st.srcAt == CountA(es[..k])
    && CountB(es[..k]) <= |b.v| && st.result == b.v[..CountB(es[..k])]
    && (CountB(es[..k]) == |b.v| > 0 ==> st.noNewline == !b.finalNewline)
  }

  /** Step `k` of a script starts where the counts of the steps before it say. */
  lemma {:induction false} ScriptFrom(a: Lines, b: Lines, es: seq<Edit>, k: nat)
    requires KeyScript(es, a, b, 0, 0) && k <= |es|
    ensures KeyScript(es[k..], a, b, CountA(es[..k]), CountB(es[..k]))
  {
    if k > 0 {
      ScriptFrom(a, b, es, k - 1);
      CountOne(es, 0, k - 1);
      assert es[..k] == es[0..k] && es[..k - 1] == es[0..k - 1];
      assert es[k - 1..][1..] == es[k..];
    } else {
      assert es[0..] == es;
    }
  }

  lemma ScriptInRange(a: Lines, b: Lines, es: seq<Edit>)
    requires KeyScript(es, a, b, 0, 0)
    ensures InRange(a, b, es)
  {
    ScriptIndices(es, KeysOf(a), KeysOf(b), 0, 0);
  }

  /** A source line taken over by a Keep step, under either rule for the newline flag. */
  lemma KeepStep(a: Lines, b: Lines, es: seq<Edit>, k: nat, st: State, flag: bool)
    requires WellFormed(a) && WellFormed(b) && KeyScript(es, a, b, 0, 0)
    requires k < |es| && es[k].op == Keep && At(a, b, es, k, st)
    requires flag == (es[k].index + 1 == |a.v| && !(a.finalNewline && b.finalNewline)) || flag == Unterminated(a, es[k].index)
    ensures es[k].index == st.srcAt < |a.v|
    ensures At(a, b, es, k + 1, TakeSrc(a, st).(noNewline := flag))
  {
    ScriptFrom(a, b, es, k);
    CountOne(es, 0, k);
    assert es[..k] == es[0..k] && es[..k + 1] == es[0..k + 1];
    assert es[k..][0] == es[k];
    KeysEqual(a, b, st.srcAt, CountB(es[..k]));
  }

  lemma DelStep(a: Lines, b: Lines, es: seq<Edit>, k: nat, st: State)
    requires KeyScript(es, a, b, 0, 0) && k < |es| && es[k].op == Del && At(a, b, es, k, st)
    ensures es[k].index == st.srcAt < |a.v|
    ensures At(a, b, es, k + 1, st.(srcAt := st.srcAt + 1))
  {
    ScriptFrom(a, b, es, k);
    CountOne(es, 0, k);
    assert es[..k] == es[0..k] && es[..k + 1] == es[0..k + 1];
    assert es[k..][0] == es[k];
  }

  lemma InsStep(a: Lines, b: Lines, es: seq<Edit>, k: nat, st: State)
    requires KeyScript(es, a, b, 0, 0) && k < |es| && es[k].op == Ins && At(a, b, es, k, st)
    ensures es[k].index == |st.result| < |b.v|
    ensures At(a, b, es, k + 1, st.(result := st.result + [LineAt(b, es[k].index)], noNewline := Unterminated(b, es[k].index)))
  {
    ScriptFrom(a, b, es, k);
    CountOne(es, 0, k);
    assert es[..k] == es[0..k] && es[..k + 1] == es[0..k + 1];
    assert es[k..][0] == es[k];
  }

  /** Copying source lines performs a stretch of Keep steps. */
  lemma {:induction false} GapApplies(a: Lines, b: Lines, es: seq<Edit>, k: nat, till: nat, st: State)
    requires WellFormed(a) && WellFormed(b) && KeyScript(es, a, b, 0, 0)
    requires k <= till <= |es| && AllKeep(es, k, till) && At(a, b, es, k, st)
    ensures CountA(es[..till]) <= |a.v| && At(a, b, es, till, TakeTo(a, st, CountA(es[..till])))
    ensures st.srcAt <= CountA(es[..till])
    decreases till - k
  {
    CountSlice(es, 0, k, till);
    assert es[..k] == es[0..k] && es[..till] == es[0..till];
    if k < till {
      KeepStep(a, b, es, k, st, Unterminated(a, es[k].index));
      CountSlice(es, 0, k + 1, till);
      CountOne(es, 0, k);
      assert es[..k + 1] == es[0..k + 1];
      GapApplies(a, b, es, k + 1, till, TakeSrc(a, st));
    } else {
      assert es[till..till] == [];
      ScriptFrom(a, b, es, till);
      ScriptIndices(es[till..], KeysOf(a), KeysOf(b), CountA(es[..till]), CountB(es[..till]));
    }
  }

  predicate NoMarkerFirst(lines: seq<string>) {
    lines == [] || lines[0] != MARKER
  }

  lemma BodyStartsUnmarked(a: Lines, b: Lines, es: seq<Edit>, tail: seq<string>)
    requires NoMarkerFirst(tail)
    ensures NoMarkerFirst(BodyLines(a, b, es) + tail)
  {
    assert MARKER[0] == '\\';
    if es == [] {
      assert BodyLines(a, b, es) + tail == tail;
    } else {
      assert (BodyLines(a, b, es) + tail)[0] == EditLines(a, b, es[0])[0];
    }
  }

  /** After the last line of a hunk the counts are met; a trailing marker is left to the caller. */
  lemma HunkEnds(s: Lines, tail: seq<string>, st: State, aCount: nat, bCount: nat, marked: bool)
    ensures HunkBody(s, Mark(marked) + tail, st, aCount, bCount, aCount, bCount) == Some((Mark(marked) + tail, st))
  {
  }

  lemma HunkSkipsMarker(s: Lines, tail: seq<string>, st: State, aCount: nat, bCount: nat, consumed: nat, produced: nat, marked: bool)
    requires consumed < aCount || produced < bCount
    ensures HunkBody(s, Mark(marked) + tail, st, aCount, bCount, consumed, produced) == HunkBody(s, tail, st, aCount, bCount, consumed, produced)
  {
    if marked {
      assert (Mark(true) + tail)[1..] == tail;
    } else {
      assert Mark(false) + tail == tail;
    }
  }

  lemma HunkKeepLine(s: Lines, text: string, next: seq<string>, st: State, aCount: nat, bCount: nat, consumed: nat, produced: nat)
    requires (consumed < aCount || produced < bCount) && st.srcAt < |s.v| && s.v[st.srcAt] == text
    ensures HunkBody(s, [" " + text] + next, st, aCount, bCount, consumed, produced)
         == HunkBody(s, next, TakeSrc(s, st).(noNewline := MarkerFirst(next)), aCount, bCount, consumed + 1, produced + 1)
  {
    var lines := [" " + text] + next;
    assert lines[0] == " " + text && lines[1..] == next && lines[0][1..] == text;
    assert MARKER[0] == '\\';
  }

  lemma HunkDelLine(s: Lines, text: string, next: seq<string>, st: State, aCount: nat, bCount: nat, consumed: nat, produced: nat)
    requires (consumed < aCount || produced < bCount) && st.srcAt < |s.v| && s.v[st.srcAt] == text
    ensures HunkBody(s, ["-" + text] + next, st, aCount, bCount, consumed, produced)
         == HunkBody(s, next, st.(srcAt := st.srcAt + 1), aCount, bCount, consumed + 1, produced)
  {
    var lines := ["-" + text] + next;
    assert lines[0] == "-" + text && lines[1..] == next && lines[0][1..] == text;
    assert MARKER[0] == '\\';
  }

  lemma HunkInsLine(s: Lines, text: string, next: seq<string>, st: State, aCount: nat, bCount: nat, consumed: nat, produced: nat)
    requires consumed < aCount || produced < bCount
    ensures HunkBody(s, ["+" + text] + next, st, aCount, bCount, consumed, produced)
         == HunkBody(s, next, st.(result := st.result + [text], noNewline := MarkerFirst(next)), aCount, bCount, consumed, produced + 1)
  {
    var lines := ["+" + text] + next;
    assert lines[0] == "+" + text && lines[1..] == next && lines[0][1..] == text;
    assert MARKER[0] == '\\';
  }

  /** The rest after the line of one step, and whether a marker comes first. */
  function AfterLine(a: Lines, b: Lines, e: Edit, next: seq<string>): seq<string> {
    Mark(|EditLines(a, b, e)| == 2) + next
  }

  lemma EditLinesSplit(a: Lines, b: Lines, e: Edit, next: seq<string>)
    ensures EditLines(a, b, e) + next == [EditLines(a, b, e)[0]] + AfterLine(a, b, e, next)
    ensures NoMarkerFirst(next) ==> MarkerFirst(AfterLine(a, b, e, next)) == (|EditLines(a, b, e)| == 2)
  {
    var marked := |EditLines(a, b, e)| == 2;
    Assoc([EditLines(a, b, e)[0]], Mark(marked), next);
    assert EditLines(a, b, e) == [EditLines(a, b, e)[0]] + Mark(marked);
  }

  lemma KeepLineApplies(a: Lines, b: Lines, es: seq<Edit>, j: nat, st: State, next: seq<string>, aCount: nat, bCount: nat, consumed: nat, produced: nat)
    returns (st': State)
    requires WellFormed(a) && WellFormed(b) && KeyScript(es, a, b, 0, 0)
    requires j < |es| && es[j].op == Keep && At(a, b, es, j, st) && NoMarkerFirst(next)
    requires consumed < aCount || produced < bCount
    ensures At(a, b, es, j + 1, st')
    ensures HunkBody(a, EditLines(a, b, es[j]) + next, st, aCount, bCount, consumed, produced)
         == HunkBody(a, AfterLine(a, b, es[j], next), st', aCount, bCount, consumed + 1, produced + 1)
  {
    var e := es[j];
    EditLinesSplit(a, b, e, next);
    KeepStep(a, b, es, j, st, |EditLines(a, b, e)| == 2);
    HunkKeepLine(a, LineAt(a, e.index), AfterLine(a, b, e, next), st, aCount, bCount, consumed, produced);
    st' := TakeSrc(a, st).(noNewline := |EditLines(a, b, e)| == 2);
  }

  lemma DelLineApplies(a: Lines, b: Lines, es: seq<Edit>, j: nat, st: State, next: seq<string>, aCount: nat, bCount: nat, consumed: nat, produced: nat)
    returns (st': State)
    requires KeyScript(es, a, b, 0, 0) && j < |es| && es[j].op == Del && At(a, b, es, j, st)
    requires consumed < aCount || produced < bCount
    ensures At(a, b, es, j + 1, st')
    ensures HunkBody(a, EditLines(a, b, es[j]) + next, st, aCount, bCount, consumed, produced)
         == HunkBody(a, AfterLine(a, b, es[j], next), st', aCount, bCount, consumed + 1, produced)
  {
    EditLinesSplit(a, b, es[j], next);
    DelStep(a, b, es, j, st);
    HunkDelLine(a, LineAt(a, es[j].index), AfterLine(a, b, es[j], next), st, aCount, bCount, consumed, produced);
    st' := st.(srcAt := st.srcAt + 1);
  }

  lemma InsLineApplies(a: Lines, b: Lines, es: seq<Edit>, j: nat, st: State, next: seq<string>, aCount: nat, bCount: nat, consumed: nat, produced: nat)
    returns (st': State)
    requires KeyScript(es, a, b, 0, 0) && j < |es| && es[j].op == Ins && At(a, b, es, j, st) && NoMarkerFirst(next)
    requires consumed < aCount || produced < bCount
    ensures At(a, b, es, j + 1, st')
    ensures HunkBody(a, EditLines(a, b, es[j]) + next, st, aCount, bCount, consumed, produced)
         == HunkBody(a, AfterLine(a, b, es[j], next), st', aCount, bCount, consumed, produced + 1)
  {
    EditLinesSplit(a, b, es[j], next);
    InsStep(a, b, es, j, st);
    HunkInsLine(a, LineAt(b, es[j].index), AfterLine(a, b, es[j], next), st, aCount, bCount, consumed, produced);
    st' := st.(result := st.result + [LineAt(b, es[j].index)], noNewline := Unterminated(b, es[j].index));
  }

  /** The line of one step performs that step. */
  lemma LineApplies(a: Lines, b: Lines, es: seq<Edit>, j: nat, st: State, next: seq<string>, aCount: nat, bCount: nat, consumed: nat, produced: nat)
    returns (st': State)
    requires WellFormed(a) && WellFormed(b) && KeyScript(es, a, b, 0, 0)
    requires j < |es| && At(a, b, es, j, st) && NoMarkerFirst(next)
    requires consumed < aCount || produced < bCount
    ensures At(a, b, es, j + 1, st')
    ensures HunkBody(a, EditLines(a, b, es[j]) + next, st, aCount, bCount, consumed, produced)
         == HunkBody(a, AfterLine(a, b, es[j], next), st', aCount, bCount,
                     consumed + (if es[j].op == Ins then 0 else 1), produced + (if es[j].op == Del then 0 else 1))
  {
    match es[j].op
    case Keep => st' := KeepLineApplies(a, b, es, j, st, next, aCount, bCount, consumed, produced);
    case Del => st' := DelLineApplies(a, b, es, j, st, next, aCount, bCount, consumed, produced);
    case Ins => st' := InsLineApplies(a, b, es, j, st, next, aCount, bCount, consumed, produced);
  }

  lemma BodyUnfolds(a: Lines, b: Lines, es: seq<Edit>, j: nat, hi: nat, tail: seq<string>)
    requires j < hi <= |es|
    ensures BodyLines(a, b, es[j..hi]) + tail == EditLines(a, b, es[j]) + (BodyLines(a, b, es[j + 1..hi]) + tail)
  {
    assert es[j..hi][0] == es[j] && es[j..hi][1..] == es[j + 1..hi];
    Assoc(EditLines(a, b, es[j]), BodyLines(a, b, es[j + 1..hi]), tail);
  }

  /** Inside a hunk at least one of its counts is still open. */
  lemma CountsOpen(es: seq<Edit>, lo: nat, j: nat, hi: nat)
    requires lo <= j < hi <= |es|
    ensures CountA(es[lo..j]) < CountA(es[lo..hi]) || CountB(es[lo..j]) < CountB(es[lo..hi])
  {
    CountOne(es, lo, j);
    CountSlice(es, lo, j + 1, hi);
  }

  /** The first of a hunk's remaining lines performs its step. */
  lemma BodyStep(a: Lines, b: Lines, es: seq<Edit>, c: Chunk, j: nat, st: State, tail: seq<string>,
                 aCount: nat, bCount: nat, consumed: nat, produced: nat)
    returns (st': State, marked: bool)
    requires WellFormed(a) && WellFormed(b) && KeyScript(es, a, b, 0, 0)
    requires c.lo <= j < c.hi <= |es| && At(a, b, es, j, st) && NoMarkerFirst(tail)
    requires aCount == CountA(es[c.lo..c.hi]) && bCount == CountB(es[c.lo..c.hi])
    requires consumed == CountA(es[c.lo..j]) && produced == CountB(es[c.lo..j])
    ensures At(a, b, es, j + 1, st')
    ensures HunkBody(a, BodyLines(a, b, es[j..c.hi]) + tail, st, aCount, bCount, consumed, produced)
         == HunkBody(a, Mark(marked) + (BodyLines(a, b, es[j + 1..c.hi]) + tail), st', aCount, bCount,
                     CountA(es[c.lo..j + 1]), CountB(es[c.lo..j + 1]))
  {
    var next := BodyLines(a, b, es[j + 1..c.hi]) + tail;
    BodyUnfolds(a, b, es, j, c.hi, tail);
    BodyStartsUnmarked(a, b, es[j + 1..c.hi], tail);
    CountsOpen(es, c.lo, j, c.hi);
    CountOne(es, c.lo, j);
    marked := |EditLines(a, b, es[j])| == 2;
    assert CountA(es[c.lo..j + 1]) == consumed + (if es[j].op == Ins then 0 else 1);
    assert CountB(es[c.lo..j + 1]) == produced + (if es[j].op == Del then 0 else 1);
    assert AfterLine(a, b, es[j], next) == Mark(marked) + next;
    var lines := BodyLines(a, b, es[j..c.hi]) + tail;
    assert lines == EditLines(a, b, es[j]) + next;
    st' := LineApplies(a, b, es, j, st, next, aCount, bCount, consumed, produced);
    assert HunkBody(a, lines, st, aCount, bCount, consumed, produced) == HunkBody(a, EditLines(a, b, es[j]) + next, st, aCount, bCount, consumed, produced);
  }

  lemma NoBody(a: Lines, b: Lines, es: seq<Edit>, tail: seq<string>)
    requires es == []
    ensures BodyLines(a, b, es) + tail == tail
  {
  }

  /** A hunk's lines perform exactly its steps of the script. */
  lemma {:induction false} BodyApplies(a: Lines, b: Lines, es: seq<Edit>, c: Chunk, j: nat, st: State, tail: seq<string>,
                                       aCount: nat, bCount: nat, consumed: nat, produced: nat)
    returns (st': State, marked: bool)
    requires WellFormed(a) && WellFormed(b) && KeyScript(es, a, b, 0, 0)
    requires c.lo <= j < c.hi <= |es| && At(a, b, es, j, st) && NoMarkerFirst(tail)
    requires aCount == CountA(es[c.lo..c.hi]) && bCount == CountB(es[c.lo..c.hi])
    requires consumed == CountA(es[c.lo..j]) && produced == CountB(es[c.lo..j])
    ensures At(a, b, es, c.hi, st')
    ensures HunkBody(a, BodyLines(a, b, es[j..c.hi]) + tail, st, aCount, bCount, consumed, produced) == Some((Mark(marked) + tail, st'))
    decreases c.hi - j
  {
    hide HunkBody, BodyLines, CountA, CountB, At, WellFormed, KeyScript, NoMarkerFirst, Mark;
    st', marked := BodyStep(a, b, es, c, j, st, tail, aCount, bCount, consumed, produced);
    var consumed', produced' := CountA(es[c.lo..j + 1]), CountB(es[c.lo..j + 1]);
    if j + 1 == c.hi {
      NoBody(a, b, es[j + 1..c.hi], tail);
      HunkEnds(a, tail, st', aCount, bCount, marked);
    } else {
      CountsOpen(es, c.lo, j + 1, c.hi);
      HunkSkipsMarker(a, BodyLines(a, b, es[j + 1..c.hi]) + tail, st', aCount, bCount, consumed', produced', marked);
      st', marked := BodyApplies(a, b, es, c, j + 1, st', tail, aCount, bCount, consumed', produced');
    }
  }

  ghost predicate AllFit(es: seq<Edit>, cs: seq<Chunk>) {
    forall c :: c in cs ==> c.lo <= c.hi <= |es| && HeaderFits(HeaderOf(es, c))
  }

  lemma PatchStartsUnmarked(a: Lines, b: Lines, es: seq<Edit>, cs: seq<Chunk>)
    requires forall c :: c in cs ==> c.lo <= c.hi <= |es|
    ensures NoMarkerFirst(PatchLines(a, b, es, cs))
  {
    if cs != [] {
      HeaderHasNoNewline(HeaderOf(es, cs[0]));
      assert MARKER[0] == '\\';
    }
  }

  lemma MarkerSkipped(s: Lines, tail: seq<string>, st: State, saw: bool, marked: bool)
    ensures ApplyLines(s, Mark(marked) + tail, st, saw) == ApplyLines(s, tail, st, saw)
  {
    if marked {
      assert (Mark(true) + tail)[1..] == tail;
    } else {
      assert Mark(false) + tail == tail;
    }
  }

  lemma {:induction false} CoveredChunks(es: seq<Edit>, cs: seq<Chunk>, k: nat)
    requires Covers(es, cs, k)
    ensures forall c :: c in cs ==> k <= c.lo < c.hi <= |es|
    decreases |cs|
  {
    if cs != [] {
      CoveredChunks(es, cs[1..], cs[0].hi);
      assert forall c :: c in cs ==> c == cs[0] || c in cs[1..];
    }
  }

  /** A readable header positions the run and hands over to the hunk's lines. */
  lemma HunkStep(s: Lines, h: Header, rest: seq<string>, st: State, saw: bool)
    requires HeaderFits(h) && st.srcAt <= h.aStart <= |s.v|
    ensures ApplyLines(s, [HeaderLine(h)] + rest, st, saw) ==
            match HunkBody(s, rest, TakeTo(s, st, h.aStart), h.aCount, h.bCount, 0, 0)
            case None => None
            case Some((rest', st')) => ApplyLines(s, rest', st', true)
  {
    HeaderReadsBack(h);
    HeaderIsNotMarker(h);
    var lines := [HeaderLine(h)] + rest;
    assert lines[0] == HeaderLine(h) && lines[1..] == rest;
    assert Want(ParseHeader(lines[0]).value) == h.aStart;
  }

  /** A readable header followed by lines that meet its counts runs to the end of the hunk. */
  lemma HunkRuns(s: Lines, h: Header, body: seq<string>, tail: seq<string>, st: State, st': State, saw: bool, marked: bool)
    requires HeaderFits(h) && st.srcAt <= h.aStart <= |s.v|
    requires HunkBody(s, body + tail, TakeTo(s, st, h.aStart), h.aCount, h.bCount, 0, 0) == Some((Mark(marked) + tail, st'))
    ensures ApplyLines(s, [HeaderLine(h)] + (body + tail), st, saw) == ApplyLines(s, tail, st', true)
  {
    MarkerSkipped(s, tail, st', true, marked);
    HunkStep(s, h, body + tail, st, saw);
  }

  lemma PatchUnfolds(a: Lines, b: Lines, es: seq<Edit>, cs: seq<Chunk>)
    requires (forall c :: c in cs ==> c.lo <= c.hi <= |es|) && cs != []
    ensures PatchLines(a, b, es, cs)
         == [HeaderLine(HeaderOf(es, cs[0]))] + (BodyLines(a, b, es[cs[0].lo..cs[0].hi]) + PatchLines(a, b, es, cs[1..]))
  {
    var head, body, tail := [HeaderLine(HeaderOf(es, cs[0]))], BodyLines(a, b, es[cs[0].lo..cs[0].hi]), PatchLines(a, b, es, cs[1..]);
    Assoc(head, body, tail);
  }

  /** An unreadable header is an error after a hunk and preamble before one. */
  lemma MisfitStep(s: Lines, h: Header, rest: seq<string>, st: State, saw: bool)
    requires !HeaderFits(h)
    ensures ApplyLines(s, [HeaderLine(h)] + rest, st, saw) == if saw then None else ApplyLines(s, rest, st, false)
  {
    HeaderReadsBack(h);
    HeaderIsNotMarker(h);
    assert ([HeaderLine(h)] + rest)[1..] == rest;
  }

  lemma HeaderIsNotMarker(h: Header)
    ensures HeaderLine(h) != "" && HeaderLine(h) != MARKER
  {
    HeaderHasNoNewline(h);
    assert HeaderLine(h)[0] == '@' && MARKER[0] == '\\';
  }

  /** The first hunk of a patch, when its header is readable, brings the run to its end. */
  lemma ChunkApplies(a: Lines, b: Lines, es: seq<Edit>, cs: seq<Chunk>, k: nat, st: State, saw: bool) returns (st': State)
    requires WellFormed(a) && WellFormed(b) && KeyScript(es, a, b, 0, 0)
    requires cs != [] && Covers(es, cs, k) && (forall c :: c in cs ==> c.lo <= c.hi <= |es|)
    requires At(a, b, es, k, st) && HeaderFits(HeaderOf(es, cs[0]))
    ensures At(a, b, es, cs[0].hi, st')
    ensures ApplyLines(a, PatchLines(a, b, es, cs), st, saw) == ApplyLines(a, PatchLines(a, b, es, cs[1..]), st', true)
  {
    var c := cs[0];
    var h := HeaderOf(es, c);
    var body, tail := BodyLines(a, b, es[c.lo..c.hi]), PatchLines(a, b, es, cs[1..]);
    GapApplies(a, b, es, k, c.lo, st);
    PatchStartsUnmarked(a, b, es, cs[1..]);
    var st1 := TakeTo(a, st, h.aStart);
    assert es[c.lo..c.lo] == [];
    var marked;
    st', marked := BodyApplies(a, b, es, c, c.lo, st1, tail, h.aCount, h.bCount, 0, 0);
    HunkRuns(a, h, body, tail, st, st', saw, marked);
    PatchUnfolds(a, b, es, cs);
  }

}
