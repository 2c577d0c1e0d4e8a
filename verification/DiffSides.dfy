/** What a patch says before any source is looked at: its hunks, each with an old side and a new side, and what it means
    that the old sides stand in a text and are replaced there. Used by the patcher of core/src/diff.cpp. */
module DiffSides {
  import opened Text
  import opened DiffText

  /** A line, and whether it ends its text without a newline. */
  datatype Line = Line(text: string, bare: bool)

  datatype Tag = Context | Removed | Added

  /** A line of a hunk. What is marked bare on a removed line has no meaning. */
  datatype Entry = Entry(tag: Tag, line: Line)

  datatype Hunk = Hunk(header: Header, body: seq<Entry>)

  /** What the hunk expects to find: its context and removed lines. */
  function Old(es: seq<Entry>): seq<string> {
    if es == [] then [] else (if es[0].tag == Added then [] else [es[0].line.text]) + Old(es[1..])
  }

  /** What the hunk puts there: its context and added lines. */
  function New(es: seq<Entry>): seq<Line> {
    if es == [] then [] else (if es[0].tag == Removed then [] else [es[0].line]) + New(es[1..])
  }

  /** How many lines of the source come before the hunk. A hunk that expects nothing is numbered from the line before. */
  function Place(h: Hunk): nat {
    if h.header.aCount == 0 then h.header.aStart else if h.header.aStart > 0 then h.header.aStart - 1 else 0
  }

  function PlaceAfter(h: Hunk): nat {
    Place(h) + |Old(h.body)|
  }

  /** The old sides stand in `v`, each at the place its header names, one after the other from line `from` on. */
  ghost predicate Stand(v: seq<string>, hs: seq<Hunk>, from: nat) {
    forall k :: 0 <= k < |hs| ==> StandsAt(v, hs, from, k)
  }

  predicate StandsAt(v: seq<string>, hs: seq<Hunk>, from: nat, k: nat)
    requires k < |hs|
  {
    && (if k == 0 then from else PlaceAfter(hs[k - 1])) <= Place(hs[k])
    && PlaceAfter(hs[k]) <= |v|
    && v[Place(hs[k])..PlaceAfter(hs[k])] == Old(hs[k].body)
  }

  lemma StandStep(v: seq<string>, hs: seq<Hunk>, from: nat)
    requires hs != []
    ensures Stand(v, hs, from) <==> StandsAt(v, hs, from, 0) && Stand(v, hs[1..], PlaceAfter(hs[0]))
  {
    var next := PlaceAfter(hs[0]);
    forall k | 0 <= k < |hs| - 1
      ensures StandsAt(v, hs[1..], next, k) == StandsAt(v, hs, from, k + 1)
    {
    }
    if StandsAt(v, hs, from, 0) && Stand(v, hs[1..], next) {
      forall k | 0 <= k < |hs|
        ensures StandsAt(v, hs, from, k)
      {
        if k > 0 {
          assert StandsAt(v, hs[1..], next, k - 1);
        }
      }
    }
  }

  /** The lines of a text with their ends. */
  function Source(s: Lines): seq<Line> {
    seq(|s.v|, i requires 0 <= i < |s.v| => Line(s.v[i], Unterminated(s, i)))
  }

  function Slice(v: seq<Line>, lo: nat, hi: nat): seq<Line> {
    if lo <= hi <= |v| then v[lo..hi] else []
  }

  /** The text from line `from` on with each old side replaced by the new one. */
  function Replaced(v: seq<Line>, hs: seq<Hunk>, from: nat): seq<Line> {
    if hs == [] then Slice(v, from, |v|)
    else Slice(v, from, Place(hs[0])) + New(hs[0].body) + Replaced(v, hs[1..], PlaceAfter(hs[0]))
  }

  function Texts(v: seq<Line>): seq<string> {
    seq(|v|, i requires 0 <= i < |v| => v[i].text)
  }

  /** Lines as a text: whether it ends in a newline is up to its last line. */
  function Settled(v: seq<Line>): Lines {
    Lines(Texts(v), v == [] || !v[|v| - 1].bare)
  }

  // ---- the hunks of a patch -----------------------------------------------

  function TagOf(line: string): Option<Tag> {
    if line == "" || line[0] == ' ' then Some(Context)
    else if line[0] == '-' then Some(Removed)
    else if line[0] == '+' then Some(Added)
    else None
  }

  /** The lines of a hunk that still needs `olds` lines for its old side and `news` for its new one. */
  function BodyOf(rest: seq<string>, olds: nat, news: nat): (r: Option<(seq<Entry>, seq<string>)>)
    ensures r.Some? ==> |r.value.1| <= |rest|
    decreases |rest|
  {
    if olds == 0 && news == 0 then Some(([], rest))
    else if rest == [] then None
    else if rest[0] == MARKER then BodyOf(rest[1..], olds, news)
    else match TagOf(rest[0])
      case None => None
      case Some(tag) =>
        if (tag != Added && olds == 0) || (tag != Removed && news == 0) then None
        else match BodyOf(rest[1..], if tag == Added then olds else olds - 1, if tag == Removed then news else news - 1)
          case None => None
          case Some((es, last)) =>
            var text := if rest[0] == "" then "" else rest[0][1..];
            Some(([Entry(tag, Line(text, MarkerFirst(rest[1..])))] + es, last))
  }

  /** All hunks of a patch. Before the first one any line is passed over; after it, only blank lines and markers. */
  function HunksOf(rest: seq<string>, saw: bool): Option<seq<Hunk>>
    decreases |rest|
  {
    if rest == [] then Some([])
    else if rest[0] == "" || rest[0] == MARKER then HunksOf(rest[1..], saw)
    else match ParseHeader(rest[0])
      case None => if saw then None else HunksOf(rest[1..], false)
      case Some(h) =>
        match BodyOf(rest[1..], h.aCount, h.bCount)
        case None => None
        case Some((es, last)) =>
          match HunksOf(last, true)
          case None => None
          case Some(hs) => Some([Hunk(h, es)] + hs)
  }

  /** What a patch makes of a text: nothing when it cannot be read or its old sides do not stand there. */
  ghost function Patched(src: string, patch: string): Option<string> {
    match HunksOf(SplitOf(patch).v, false)
    case None => None
    case Some(hs) =>
      if Stand(SplitOf(src).v, hs, 0) then Some(JoinOf(Settled(Replaced(Source(SplitOf(src)), hs, 0)))) else None
  }

  // ---- patches as they are written ----------------------------------------

  /** How a line of a hunk may be written: a blank context line may have lost its leading blank. */
  predicate LineShows(line: string, e: Entry) {
    match e.tag
    case Context => line == " " + e.line.text || (line == "" && e.line.text == "")
    case Removed => line == "-" + e.line.text
    case Added => line == "+" + e.line.text
  }

  /** `lines` are those of a hunk, with a marker after each line that is bare. */
  predicate BodyShows(lines: seq<string>, es: seq<Entry>) {
    if es == [] then lines == []
    else
      && lines != [] && LineShows(lines[0], es[0])
      && if es[0].line.bare
         then |lines| >= 2 && lines[1] == "\\ No newline at end of file" && BodyShows(lines[2..], es[1..])
         else BodyShows(lines[1..], es[1..])
  }

  /** A hunk in writing. A count of one may be left out, and anything may follow the second pair of signs. */
  datatype Written = Written(hunk: Hunk, briefA: bool, briefB: bool, note: string, lines: seq<string>)

  function Pair(start: nat, count: nat, brief: bool): string {
    Num(start) + (if brief then "" else "," + Num(count))
  }

  function Head(w: Written): string {
    var h := w.hunk.header;
    "@@ -" + (Pair(h.aStart, h.aCount, w.briefA) + (" +" + (Pair(h.bStart, h.bCount, w.briefB) + (" @@" + w.note))))
  }

  ghost predicate InWriting(w: Written) {
    var h := w.hunk.header;
    && BodyShows(w.lines, w.hunk.body)
    && h.aCount == |Old(w.hunk.body)| && h.bCount == |New(w.hunk.body)|
    && (w.briefA ==> h.aCount == 1) && (w.briefB ==> h.bCount == 1)
    && Fits(h.aStart) && Fits(h.aCount) && Fits(h.bStart) && Fits(h.bCount)
  }

  function LinesOf(ws: seq<Written>): seq<string> {
    if ws == [] then [] else [Head(ws[0])] + ws[0].lines + LinesOf(ws[1..])
  }

  function HunksIn(ws: seq<Written>): seq<Hunk> {
    if ws == [] then [] else [ws[0].hunk] + HunksIn(ws[1..])
  }

  lemma PairReadsBack(pre: string, start: nat, count: nat, brief: bool, post: string)
    requires post != "" && !IsDigit(post[0]) && post[0] != ',' && (brief ==> count == 1) && Fits(start) && Fits(count)
    ensures SideAt(pre + (Pair(start, count, brief) + post), |pre|) == Some((start, count, |pre| + |Pair(start, count, brief)|))
  {
    var line := pre + (Pair(start, count, brief) + post);
    if brief {
      assert Pair(start, count, brief) == Num(start);
      DigitsOfNum(pre, start, post);
      assert line[|pre| + |Num(start)|] == post[0];
    } else {
      var tail := "," + Num(count) + post;
      assert line == pre + (Num(start) + tail);
      DigitsOfNum(pre, start, tail);
      var pre' := pre + Num(start) + ",";
      assert line == pre' + (Num(count) + post);
      DigitsOfNum(pre', count, post);
      assert line[|pre| + |Num(start)|] == ',';
    }
  }

  lemma HeadPieces(a: string, b: string, note: string)
    ensures var line := "@@ -" + (a + (" +" + (b + (" @@" + note))));
            var p := 4 + |a|;
            && |line| >= p + 5 + |b| && line[..4] == "@@ -" && line[p] == ' ' && line[p + 1] == '+'
            && line == ("@@ -" + a + " +") + (b + (" @@" + note)) && " @@" <= line[p + 2 + |b|..]
  {
    var line := "@@ -" + (a + (" +" + (b + (" @@" + note))));
    assert line[6 + |a| + |b|..] == " @@" + note;
  }

  lemma HeadReadsBack(w: Written)
    requires InWriting(w)
    ensures ParseHeader(Head(w)) == Some(w.hunk.header) && Head(w) != "" && Head(w) != MARKER
  {
    var h := w.hunk.header;
    HeadReads(h, Pair(h.aStart, h.aCount, w.briefA), w.briefA, Pair(h.bStart, h.bCount, w.briefB), w.briefB, w.note);
  }

  lemma HeadReads(h: Header, a: string, briefA: bool, b: string, briefB: bool, note: string)
    requires a == Pair(h.aStart, h.aCount, briefA) && b == Pair(h.bStart, h.bCount, briefB)
    requires (briefA ==> h.aCount == 1) && (briefB ==> h.bCount == 1)
    requires Fits(h.aStart) && Fits(h.aCount) && Fits(h.bStart) && Fits(h.bCount)
    ensures var line := "@@ -" + (a + (" +" + (b + (" @@" + note))));
            ParseHeader(line) == Some(h) && line != "" && line != MARKER
  {
    hide Pair, SideAt, Fits;
    var line, last := "@@ -" + (a + (" +" + (b + (" @@" + note)))), " @@" + note;
    HeadPieces(a, b, note);
    assert last[0] == ' ' && (" +" + (b + last))[0] == ' ';
    PairReadsBack("@@ -", h.aStart, h.aCount, briefA, " +" + (b + last));
    PairReadsBack("@@ -" + a + " +", h.bStart, h.bCount, briefB, last);
    assert SideAt(line, 6 + |a|) == SideAt(("@@ -" + a + " +") + (b + last), 6 + |a|);
    assert line[0] == line[..4][0] == '@' && MARKER[0] == '\\';
  }

  /** What a hunk leaves to be read: the marker of its last line stays. */
  function Left(es: seq<Entry>, tail: seq<string>): seq<string> {
    if es != [] && es[|es| - 1].line.bare then [MARKER] + tail else tail
  }

  function MarkerIf(marked: bool): seq<string> {
    if marked then [MARKER] else []
  }

  lemma NextIsNoMarker(lines: seq<string>, es: seq<Entry>, tail: seq<string>)
    requires BodyShows(lines, es) && !MarkerFirst(tail)
    ensures !MarkerFirst(lines + tail)
  {
    if es == [] {
      assert lines + tail == tail;
    } else {
      LineReads(lines[0], es[0]);
      assert (lines + tail)[0] == lines[0];
    }
  }

  lemma MarkerPassed(rest: seq<string>, marked: bool, olds: nat, news: nat)
    ensures BodyOf(MarkerIf(marked) + rest, olds, news) ==
            if marked && olds == 0 && news == 0 then Some(([], [MARKER] + rest)) else BodyOf(rest, olds, news)
  {
    if marked {
      assert ([MARKER] + rest)[1..] == rest;
    } else {
      assert [] + rest == rest;
    }
  }

  lemma LineReads(line: string, e: Entry)
    requires LineShows(line, e)
    ensures line != MARKER && TagOf(line) == Some(e.tag) && (if line == "" then "" else line[1..]) == e.line.text
  {
    assert MARKER[0] == '\\';
    if line != "" {
      assert line[1..] == e.line.text;
    }
  }

  lemma BodyStep(line: string, e: Entry, rest: seq<string>, olds: nat, news: nat)
    requires LineShows(line, e) && MarkerFirst(rest) == e.line.bare
    ensures BodyOf([line] + rest, olds + (if e.tag == Added then 0 else 1), news + (if e.tag == Removed then 0 else 1)) ==
            match BodyOf(rest, olds, news) case None => None case Some((es, last)) => Some(([e] + es, last))
  {
    LineReads(line, e);
    assert ([line] + rest)[0] == line && ([line] + rest)[1..] == rest;
  }

  lemma BodyShowsStep(lines: seq<string>, es: seq<Entry>, tail: seq<string>)
    requires BodyShows(lines, es) && es != []
    ensures var cut := if es[0].line.bare then 2 else 1;
            && cut <= |lines| && LineShows(lines[0], es[0]) && BodyShows(lines[cut..], es[1..])
            && lines + tail == [lines[0]] + (MarkerIf(es[0].line.bare) + (lines[cut..] + tail))
  {
    hide LineShows;
    var marker, cut := MarkerIf(es[0].line.bare), if es[0].line.bare then 2 else 1;
    assert lines[1..cut] == marker;
    Cut(lines, cut, tail);
  }

  lemma Cut(lines: seq<string>, cut: nat, tail: seq<string>)
    requires 1 <= cut <= |lines|
    ensures lines + tail == [lines[0]] + (lines[1..cut] + (lines[cut..] + tail))
  {
  }

  lemma NothingShown(es: seq<Entry>)
    ensures |Old(es)| == 0 && |New(es)| == 0 <==> es == []
  {
  }

  /** A line and its marker in front of what reads as the rest of a hunk. */
  lemma EntryReads(line: string, e: Entry, es: seq<Entry>, next: seq<string>, tail: seq<string>)
    requires LineShows(line, e) && !MarkerFirst(next) && (es == [] ==> next == tail)
    requires BodyOf(next, |Old(es)|, |New(es)|) == Some((es, Left(es, tail)))
    ensures var all := [e] + es;
            BodyOf([line] + (MarkerIf(e.line.bare) + next), |Old(all)|, |New(all)|) == Some((all, Left(all, tail)))
  {
    hide BodyOf, LineShows;
    var all := [e] + es;
    MarkerPassed(next, e.line.bare, |Old(es)|, |New(es)|);
    assert MarkerFirst(MarkerIf(e.line.bare) + next) == e.line.bare;
    BodyStep(line, e, MarkerIf(e.line.bare) + next, |Old(es)|, |New(es)|);
    assert all[0] == e && all[1..] == es;
    NothingShown(es);
  }

  /** The written lines of a hunk read back as its entries. */
  lemma {:induction false} BodyReadsBack(lines: seq<string>, es: seq<Entry>, tail: seq<string>)
    requires BodyShows(lines, es) && !MarkerFirst(tail)
    ensures BodyOf(lines + tail, |Old(es)|, |New(es)|) == Some((es, Left(es, tail)))
    decreases |es|
  {
    if es == [] {
      assert lines + tail == tail;
    } else {
      hide BodyOf, LineShows, Old, New, Left;
      BodyShowsStep(lines, es, tail);
      var rest := lines[if es[0].line.bare then 2 else 1..];
      BodyReadsBack(rest, es[1..], tail);
      NextIsNoMarker(rest, es[1..], tail);
      assert es[1..] == [] ==> rest + tail == tail;
      EntryReads(lines[0], es[0], es[1..], rest + tail, tail);
      assert es == [es[0]] + es[1..];
    }
  }

  lemma HunkStep(head: string, h: Header, rest: seq<string>, saw: bool)
    requires ParseHeader(head) == Some(h) && head != "" && head != MARKER
    ensures HunksOf([head] + rest, saw) ==
            match BodyOf(rest, h.aCount, h.bCount)
            case None => None
            case Some((es, last)) =>
              match HunksOf(last, true)
              case None => None
              case Some(hs) => Some([Hunk(h, es)] + hs)
  {
    assert ([head] + rest)[0] == head && ([head] + rest)[1..] == rest;
  }

  lemma WrittenParts(w: Written)
    requires InWriting(w)
    ensures ParseHeader(Head(w)) == Some(w.hunk.header) && Head(w) != "" && Head(w) != MARKER
    ensures BodyShows(w.lines, w.hunk.body)
    ensures w.hunk.header.aCount == |Old(w.hunk.body)| && w.hunk.header.bCount == |New(w.hunk.body)|
  {
    HeadReadsBack(w);
  }

  /** A patch in writing is read as its hunks. */
  lemma {:induction false} WrittenReadsBack(ws: seq<Written>, saw: bool)
    requires forall k :: 0 <= k < |ws| ==> InWriting(ws[k])
    ensures HunksOf(LinesOf(ws), saw) == Some(HunksIn(ws))
    decreases |ws|
  {
    if ws != [] {
      hide InWriting, ParseHeader, Head, BodyOf, BodyShows, Old, New, Left;
      var w, tail := ws[0], LinesOf(ws[1..]);
      WrittenParts(w);
      if ws[1..] != [] {
        WrittenParts(ws[1]);
        assert tail[0] == Head(ws[1]);
      }
      BodyReadsBack(w.lines, w.hunk.body, tail);
      WrittenReadsBack(ws[1..], true);
      LeftPassed(w.hunk.body, tail);
      HunkStep(Head(w), w.hunk.header, w.lines + tail, saw);
      Assoc([Head(w)], w.lines, tail);
    }
  }

  lemma LeftPassed(es: seq<Entry>, tail: seq<string>)
    ensures HunksOf(Left(es, tail), true) == HunksOf(tail, true)
  {
    assert Left(es, tail) != tail ==> Left(es, tail)[0] == MARKER && Left(es, tail)[1..] == tail;
  }

  /** Lines in front that are no headers are passed over. */
  lemma {:induction false} FrontPassed(front: seq<string>, rest: seq<string>)
    requires forall k :: 0 <= k < |front| ==> !("@@ -" <= front[k])
    ensures HunksOf(front + rest, false) == HunksOf(rest, false)
    decreases |front|
  {
    if front == [] {
      assert front + rest == rest;
    } else {
      assert (front + rest)[0] == front[0] && (front + rest)[1..] == front[1..] + rest;
      FrontPassed(front[1..], rest);
    }
  }
}
