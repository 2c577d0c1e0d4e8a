/** The strict patcher of core/src/diff.cpp. */
module DiffApply {
  import opened Text
  import opened DiffText

  /** Where a patch run stands: the next unconsumed source line, the result so far, and whether
      the line appended last ends without a newline. */
  datatype State = State(srcAt: nat, result: seq<string>, noNewline: bool)

  function TakeSrc(s: Lines, st: State): State
    requires st.srcAt < |s.v|
  {
    State(st.srcAt + 1, st.result + [s.v[st.srcAt]], Unterminated(s, st.srcAt))
  }

  /** Copy source lines until `want` is the next one. */
  function TakeTo(s: Lines, st: State, want: nat): (r: State)
    ensures st.srcAt <= want <= |s.v| ==> r.srcAt == want
    decreases want - st.srcAt
  {
    if st.srcAt >= want || st.srcAt >= |s.v| then st else TakeTo(s, TakeSrc(s, st), want)
  }

  /** Lines of one hunk, until both of its counts are met. */
  function HunkBody(s: Lines, rest: seq<string>, st: State, aCount: nat, bCount: nat, consumed: nat, produced: nat)
    : (r: Option<(seq<string>, State)>)
    ensures r.Some? ==> |r.value.0| <= |rest|
    decreases |rest|
  {
    if rest == [] || (consumed >= aCount && produced >= bCount) then
      if consumed == aCount && produced == bCount then Some((rest, st)) else None
    else
      var line, next := rest[0], rest[1..];
      if line == MARKER then HunkBody(s, next, st, aCount, bCount, consumed, produced)
      else if line == "" then
        if consumed >= aCount || st.srcAt >= |s.v| || s.v[st.srcAt] != "" then None
        else HunkBody(s, next, TakeSrc(s, st).(noNewline := MarkerFirst(next)), aCount, bCount, consumed + 1, produced + 1)
      else if line[0] == ' ' then
        if st.srcAt >= |s.v| || s.v[st.srcAt] != line[1..] then None
        else HunkBody(s, next, TakeSrc(s, st).(noNewline := MarkerFirst(next)), aCount, bCount, consumed + 1, produced + 1)
      else if line[0] == '-' then
        if st.srcAt >= |s.v| || s.v[st.srcAt] != line[1..] then None
        else HunkBody(s, next, st.(srcAt := st.srcAt + 1), aCount, bCount, consumed + 1, produced)
      else if line[0] == '+' then
        HunkBody(s, next, st.(result := st.result + [line[1..]], noNewline := MarkerFirst(next)), aCount, bCount, consumed, produced + 1)
      else None
  }

  /** The source line a hunk starts at. */
  function Want(h: Header): nat {
    if h.aCount == 0 then h.aStart else if h.aStart > 0 then h.aStart - 1 else 0
  }

  /** The remaining patch lines, from a state. `saw` records whether a hunk has been seen. */
  function ApplyLines(s: Lines, rest: seq<string>, st: State, saw: bool): Option<State>
    decreases |rest|
  {
    if rest == [] then Some(st)
    else if rest[0] == "" || rest[0] == MARKER then ApplyLines(s, rest[1..], st, saw)
    else match ParseHeader(rest[0])
      case None => if saw then None else ApplyLines(s, rest[1..], st, false)
      case Some(h) =>
        if Want(h) < st.srcAt || Want(h) > |s.v| then None
        else match HunkBody(s, rest[1..], TakeTo(s, st, Want(h)), h.aCount, h.bCount, 0, 0)
          case None => None
          case Some((rest', st')) => ApplyLines(s, rest', st', true)
  }

  function Begin(s: Lines): State {
    State(0, [], !s.finalNewline)
  }

  /** Copy the rest of the source and settle the final newline. */
  function Finish(s: Lines, st: State): Lines {
    var end := TakeTo(s, st, |s.v|);
    Lines(end.result, end.result == [] || !end.noNewline)
  }

  /** The patched text, or None when a hunk does not apply. */
  function ApplyText(src: string, patch: string): Option<string> {
    var s := SplitOf(src);
    match ApplyLines(s, SplitOf(patch).v, Begin(s), false)
    case None => None
    case Some(st) => Some(JoinOf(Finish(s, st)))
  }

  /** The loop over one hunk's lines. */
  method RunHunk(s: Lines, p: seq<string>, i0: nat, st0: State, aCount: nat, bCount: nat)
    returns (ok: bool, i: nat, st: State)
    requires i0 <= |p|
    ensures ok ==> i0 <= i <= |p| && HunkBody(s, p[i0..], st0, aCount, bCount, 0, 0) == Some((p[i..], st))
    ensures !ok ==> HunkBody(s, p[i0..], st0, aCount, bCount, 0, 0) == None
  {
    i, st := i0, st0;
    var consumed, produced := 0, 0;
    while i < |p| && (consumed < aCount || produced < bCount)
      invariant i0 <= i <= |p|
      invariant HunkBody(s, p[i0..], st0, aCount, bCount, 0, 0) == HunkBody(s, p[i..], st, aCount, bCount, consumed, produced)
    {
      var line := p[i];
      assert p[i..][0] == line && p[i..][1..] == p[i + 1..];
      if line == MARKER {
        i := i + 1;
        continue;
      }
      var marked := i + 1 < |p| && p[i + 1] == MARKER;
      assert marked == MarkerFirst(p[i + 1..]);
      if line == "" {
        if consumed >= aCount || st.srcAt >= |s.v| || s.v[st.srcAt] != "" {
          return false, i, st;
        }
        st := TakeSrc(s, st).(noNewline := marked);
        consumed, produced := consumed + 1, produced + 1;
      } else if line[0] == ' ' {
        if st.srcAt >= |s.v| || s.v[st.srcAt] != line[1..] {
          return false, i, st;
        }
        st := TakeSrc(s, st).(noNewline := marked);
        consumed, produced := consumed + 1, produced + 1;
      } else if line[0] == '-' {
        if st.srcAt >= |s.v| || s.v[st.srcAt] != line[1..] {
          return false, i, st;
        }
        st := st.(srcAt := st.srcAt + 1);
        consumed := consumed + 1;
      } else if line[0] == '+' {
        st := st.(result := st.result + [line[1..]], noNewline := marked);
        produced := produced + 1;
      } else {
        return false, i, st;
      }
      i := i + 1;
    }
    ok := consumed == aCount && produced == bCount;
  }

  method CopyTo(s: Lines, st0: State, want: nat) returns (st: State)
    requires want <= |s.v|
    ensures st == TakeTo(s, st0, want)
  {
    st := st0;
    while st.srcAt < want
      invariant TakeTo(s, st, want) == TakeTo(s, st0, want)
      decreases want - st.srcAt
    {
      st := TakeSrc(s, st);
    }
  }
}
