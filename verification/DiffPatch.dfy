/** Applying a patch: exactly what the patch says of itself. */
module DiffPatch {
  import opened Text
  import opened DiffText
  import opened DiffSides
  import opened DiffApply

  /** The state has appended the lines `out`. */
  ghost predicate Shown(st: State, out: seq<Line>) {
    st.result == Texts(out) && (out != [] ==> st.noNewline == out[|out| - 1].bare)
  }

  lemma ShownMore(st: State, out: seq<Line>, at: nat, line: Line)
    requires Shown(st, out)
    ensures Shown(State(at, st.result + [line.text], line.bare), out + [line])
  {
    assert Texts(out + [line]) == Texts(out) + [line.text];
  }

  /** Copying appends a slice of the source. */
  lemma {:induction false} TakeToShows(s: Lines, st: State, want: nat, out: seq<Line>)
    requires Shown(st, out) && st.srcAt <= want <= |s.v|
    ensures TakeTo(s, st, want).srcAt == want && Shown(TakeTo(s, st, want), out + Slice(Source(s), st.srcAt, want))
    decreases want - st.srcAt
  {
    var slice := Slice(Source(s), st.srcAt, want);
    if st.srcAt < want {
      var line := Line(s.v[st.srcAt], Unterminated(s, st.srcAt));
      ShownMore(st, out, st.srcAt + 1, line);
      TakeToShows(s, TakeSrc(s, st), want, out + [line]);
      assert slice == [line] + Slice(Source(s), st.srcAt + 1, want);
      Assoc(out, [line], Slice(Source(s), st.srcAt + 1, want));
    } else {
      assert out + slice == out;
    }
  }

  lemma {:induction false} OvershootFails(s: Lines, rest: seq<string>, st: State, aCount: nat, bCount: nat, consumed: nat, produced: nat)
    requires consumed > aCount || produced > bCount
    ensures HunkBody(s, rest, st, aCount, bCount, consumed, produced) == None
    decreases |rest|
  {
    if rest != [] && !(consumed >= aCount && produced >= bCount) {
      var line, next := rest[0], rest[1..];
      if line == MARKER {
        OvershootFails(s, next, st, aCount, bCount, consumed, produced);
      } else if line == "" || line[0] == ' ' {
        if st.srcAt < |s.v| {
          OvershootFails(s, next, TakeSrc(s, st).(noNewline := MarkerFirst(next)), aCount, bCount, consumed + 1, produced + 1);
        }
      } else if line[0] == '-' {
        OvershootFails(s, next, st.(srcAt := st.srcAt + 1), aCount, bCount, consumed + 1, produced);
      } else if line[0] == '+' {
        OvershootFails(s, next, st.(result := st.result + [line[1..]], noNewline := MarkerFirst(next)), aCount, bCount, consumed, produced + 1);
      }
    }
  }

  // ---- one hunk -----------------------------------------------------------

  /** The lines `want` are the next ones of the source. */
  predicate Next(s: Lines, at: nat, want: seq<string>) {
    at + |want| <= |s.v| && s.v[at..at + |want|] == want
  }

  /** What running over a hunk comes to: its want side is required and skipped, its new side appended. */
  ghost predicate RanOver(s: Lines, at: nat, out: seq<Line>, body: Option<(seq<Entry>, seq<string>)>, ran: Option<(seq<string>, State)>) {
    if body.None? || !Next(s, at, Old(body.value.0)) then ran == None
    else
      && ran.Some? && ran.value.0 == body.value.1
      && ran.value.1.srcAt == at + |Old(body.value.0)|
      && Shown(ran.value.1, out + New(body.value.0))
  }

  /** One entry in front of a hunk that is run over. */
  lemma OneMore(s: Lines, at: nat, out: seq<Line>, e: Entry, es: seq<Entry>, last: seq<string>, ran: Option<(seq<string>, State)>)
    requires e.tag != Added ==> at < |s.v| && s.v[at] == e.line.text
    requires RanOver(s, if e.tag == Added then at else at + 1, if e.tag == Removed then out else out + [e.line], Some((es, last)), ran)
    ensures RanOver(s, at, out, Some(([e] + es, last)), ran)
  {
    var all := [e] + es;
    assert all[0] == e && all[1..] == es;
    if e.tag == Added {
      assert Old(all) == Old(es);
    } else {
      assert Old(all) == [e.line.text] + Old(es);
      NextStep(s, at, e.line.text, Old(es));
    }
    if e.tag == Removed {
      assert New(all) == New(es);
    } else {
      Assoc(out, [e.line], New(es));
    }
  }

  lemma NextStep(s: Lines, at: nat, text: string, want: seq<string>)
    ensures Next(s, at, [text] + want) <==> at < |s.v| && s.v[at] == text && Next(s, at + 1, want)
  {
    if at + 1 + |want| <= |s.v| {
      assert s.v[at..at + 1 + |want|] == [s.v[at]] + s.v[at + 1..at + 1 + |want|];
      assert ([text] + want)[0] == text && ([text] + want)[1..] == want;
    }
  }

  lemma Mismatch(s: Lines, at: nat, out: seq<Line>, e: Entry, es: seq<Entry>, last: seq<string>)
    requires e.tag != Added && !(at < |s.v| && s.v[at] == e.line.text)
    ensures RanOver(s, at, out, Some(([e] + es, last)), None)
  {
    assert ([e] + es)[0] == e && ([e] + es)[1..] == es;
    assert Old([e] + es) == [e.line.text] + Old(es);
    NextStep(s, at, e.line.text, Old(es));
  }

  /** A hunk runs over the source exactly when its old side comes next there. */
  lemma {:induction false} HunkRuns(s: Lines, rest: seq<string>, st: State, out: seq<Line>, aCount: nat, bCount: nat, consumed: nat, produced: nat)
    requires Shown(st, out) && st.srcAt <= |s.v| && consumed <= aCount && produced <= bCount
    ensures RanOver(s, st.srcAt, out, BodyOf(rest, aCount - consumed, bCount - produced),
                    HunkBody(s, rest, st, aCount, bCount, consumed, produced))
    decreases |rest|
  {
    var olds, news := aCount - consumed, bCount - produced;
    if olds == 0 && news == 0 {
      assert out + New([]) == out;
    } else if rest != [] {
      if rest[0] == MARKER {
        HunkRuns(s, rest[1..], st, out, aCount, bCount, consumed, produced);
      } else if TagOf(rest[0]).Some? {
        var tag := TagOf(rest[0]).value;
        if (tag != Added && olds == 0) || (tag != Removed && news == 0) {
          EntryOver(s, rest, st, aCount, bCount, consumed, produced, tag);
        } else {
          EntryRuns(s, rest, st, out, aCount, bCount, consumed, produced, tag);
        }
      }
    }
  }

  /** A line too many for its side. */
  lemma EntryOver(s: Lines, rest: seq<string>, st: State, aCount: nat, bCount: nat, consumed: nat, produced: nat, tag: Tag)
    requires consumed <= aCount && produced <= bCount && (consumed < aCount || produced < bCount)
    requires rest != [] && rest[0] != MARKER && TagOf(rest[0]) == Some(tag)
    requires (tag != Added && consumed == aCount) || (tag != Removed && produced == bCount)
    ensures HunkBody(s, rest, st, aCount, bCount, consumed, produced) == None
  {
    var line, next := rest[0], rest[1..];
    if tag == Context && st.srcAt < |s.v| {
      OvershootFails(s, next, TakeSrc(s, st).(noNewline := MarkerFirst(next)), aCount, bCount, consumed + 1, produced + 1);
    } else if tag == Removed {
      OvershootFails(s, next, st.(srcAt := st.srcAt + 1), aCount, bCount, consumed + 1, produced);
    } else if tag == Added {
      OvershootFails(s, next, st.(result := st.result + [line[1..]], noNewline := MarkerFirst(next)), aCount, bCount, consumed, produced + 1);
    }
  }

  function EntryOf(rest: seq<string>, tag: Tag): Entry
    requires rest != []
  {
    Entry(tag, Line(if rest[0] == "" then "" else rest[0][1..], MarkerFirst(rest[1..])))
  }

  function AfterEntry(st: State, e: Entry): State {
    if e.tag == Removed then st.(srcAt := st.srcAt + 1)
    else State(if e.tag == Added then st.srcAt else st.srcAt + 1, st.result + [e.line.text], e.line.bare)
  }

  predicate Misses(s: Lines, at: nat, e: Entry) {
    e.tag != Added && !(at < |s.v| && s.v[at] == e.line.text)
  }

  lemma RunStep(s: Lines, rest: seq<string>, st: State, aCount: nat, bCount: nat, consumed: nat, produced: nat, tag: Tag)
    requires consumed < aCount || (produced < bCount && tag == Added && consumed <= aCount)
    requires rest != [] && rest[0] != MARKER && TagOf(rest[0]) == Some(tag)
    ensures HunkBody(s, rest, st, aCount, bCount, consumed, produced) ==
            if Misses(s, st.srcAt, EntryOf(rest, tag)) then None
            else HunkBody(s, rest[1..], AfterEntry(st, EntryOf(rest, tag)), aCount, bCount,
                          if tag == Added then consumed else consumed + 1, if tag == Removed then produced else produced + 1)
  {
  }

  lemma ReadStep(rest: seq<string>, olds: nat, news: nat, tag: Tag)
    requires rest != [] && rest[0] != MARKER && TagOf(rest[0]) == Some(tag)
    requires (tag != Added ==> olds > 0) && (tag != Removed ==> news > 0)
    ensures BodyOf(rest, olds, news) ==
            match BodyOf(rest[1..], if tag == Added then olds else olds - 1, if tag == Removed then news else news - 1)
            case None => None
            case Some((es, last)) => Some(([EntryOf(rest, tag)] + es, last))
  {
  }

  lemma EntryRuns(s: Lines, rest: seq<string>, st: State, out: seq<Line>, aCount: nat, bCount: nat, consumed: nat, produced: nat, tag: Tag)
    requires Shown(st, out) && st.srcAt <= |s.v| && consumed <= aCount && produced <= bCount && (consumed < aCount || produced < bCount)
    requires rest != [] && rest[0] != MARKER && TagOf(rest[0]) == Some(tag)
    requires (tag != Added ==> consumed < aCount) && (tag != Removed ==> produced < bCount)
    ensures RanOver(s, st.srcAt, out, BodyOf(rest, aCount - consumed, bCount - produced),
                    HunkBody(s, rest, st, aCount, bCount, consumed, produced))
    decreases |rest|, 0
  {
    hide HunkBody, BodyOf, RanOver, Shown;
    var next, e := rest[1..], EntryOf(rest, tag);
    var consumed', produced' := if tag == Added then consumed else consumed + 1, if tag == Removed then produced else produced + 1;
    var inner := BodyOf(next, aCount - consumed', bCount - produced');
    ReadStep(rest, aCount - consumed, bCount - produced, tag);
    RunStep(s, rest, st, aCount, bCount, consumed, produced, tag);
    if Misses(s, st.srcAt, e) {
      MissesFail(s, st.srcAt, out, e, inner);
    } else {
      var out' := if tag == Removed then out else out + [e.line];
      AfterShows(st, out, e);
      HunkRuns(s, next, AfterEntry(st, e), out', aCount, bCount, consumed', produced');
      OneMoreOf(s, st.srcAt, out, e, inner, HunkBody(s, next, AfterEntry(st, e), aCount, bCount, consumed', produced'));
    }
  }

  lemma AfterShows(st: State, out: seq<Line>, e: Entry)
    requires Shown(st, out)
    ensures Shown(AfterEntry(st, e), if e.tag == Removed then out else out + [e.line])
  {
    ShownMore(st, out, AfterEntry(st, e).srcAt, e.line);
  }

  lemma MissesFail(s: Lines, at: nat, out: seq<Line>, e: Entry, inner: Option<(seq<Entry>, seq<string>)>)
    requires Misses(s, at, e)
    ensures RanOver(s, at, out, match inner case None => None case Some((es, last)) => Some(([e] + es, last)), None)
  {
    if inner.Some? {
      Mismatch(s, at, out, e, inner.value.0, inner.value.1);
    }
  }

  lemma OneMoreOf(s: Lines, at: nat, out: seq<Line>, e: Entry, inner: Option<(seq<Entry>, seq<string>)>, ran: Option<(seq<string>, State)>)
    requires !Misses(s, at, e)
    requires RanOver(s, if e.tag == Added then at else at + 1, if e.tag == Removed then out else out + [e.line], inner, ran)
    ensures RanOver(s, at, out, match inner case None => None case Some((es, last)) => Some(([e] + es, last)), ran)
  {
    if inner.Some? {
      OneMore(s, at, out, e, inner.value.0, inner.value.1, ran);
    }
  }

  // ---- the whole patch ----------------------------------------------------

  /** What the remaining patch lines come to. */
  ghost predicate Comes(s: Lines, at: nat, out: seq<Line>, hs: Option<seq<Hunk>>, ran: Option<State>) {
    if hs.None? || !Stand(s.v, hs.value, at) then ran == None
    else ran.Some? && Finish(s, ran.value) == Settled(out + Replaced(Source(s), hs.value, at))
  }

  lemma FinishSettles(s: Lines, st: State, out: seq<Line>)
    requires Shown(st, out) && st.srcAt <= |s.v|
    ensures Finish(s, st) == Settled(out + Slice(Source(s), st.srcAt, |s.v|))
  {
    TakeToShows(s, st, |s.v|, out);
  }

  /** One hunk and what follows it. */
  lemma HunkComes(s: Lines, at: nat, out: seq<Line>, h: Hunk, hs: Option<seq<Hunk>>, ran: Option<State>)
    requires at <= Place(h) <= |s.v|
    requires if Next(s, Place(h), Old(h.body))
             then Comes(s, PlaceAfter(h), (out + Slice(Source(s), at, Place(h))) + New(h.body), hs, ran) else ran == None
    ensures Comes(s, at, out, if hs.None? then None else Some([h] + hs.value), ran)
  {
    if hs.Some? {
      var all := [h] + hs.value;
      assert all[0] == h && all[1..] == hs.value;
      StandStep(s.v, all, at);
      var slice, more := Slice(Source(s), at, Place(h)), Replaced(Source(s), hs.value, PlaceAfter(h));
      assert ((out + slice) + New(h.body)) + more == out + ((slice + New(h.body)) + more);
    }
  }

  /** A hunk that lies behind what is used up, or past the end, stands nowhere. */
  lemma Misplaced(s: Lines, at: nat, h: Hunk, hs: seq<Hunk>)
    requires Place(h) < at || Place(h) > |s.v|
    ensures !Stand(s.v, [h] + hs, at)
  {
    assert !StandsAt(s.v, [h] + hs, at, 0);
  }

  lemma {:induction false} LinesCome(s: Lines, rest: seq<string>, st: State, out: seq<Line>, saw: bool)
    requires Shown(st, out) && st.srcAt <= |s.v|
    ensures Comes(s, st.srcAt, out, HunksOf(rest, saw), ApplyLines(s, rest, st, saw))
    decreases |rest|
  {
    if rest == [] {
      FinishSettles(s, st, out);
    } else if rest[0] == "" || rest[0] == MARKER {
      LinesCome(s, rest[1..], st, out, saw);
    } else if ParseHeader(rest[0]).None? {
      if !saw {
        LinesCome(s, rest[1..], st, out, false);
      }
    } else {
      HunkAndMore(s, rest, st, out, saw);
    }
  }

  lemma HunkAndMore(s: Lines, rest: seq<string>, st: State, out: seq<Line>, saw: bool)
    requires Shown(st, out) && st.srcAt <= |s.v|
    requires rest != [] && rest[0] != "" && rest[0] != MARKER && ParseHeader(rest[0]).Some?
    ensures Comes(s, st.srcAt, out, HunksOf(rest, saw), ApplyLines(s, rest, st, saw))
    decreases |rest|, 0
  {
    hide HunkBody, BodyOf, ParseHeader, TakeTo, Stand, Replaced, Source, Finish, Shown, Next;
    var head := ParseHeader(rest[0]).value;
    var body := BodyOf(rest[1..], head.aCount, head.bCount);
    var want := Want(head);
    if want < st.srcAt || want > |s.v| {
      if HunksOf(rest, saw).Some? {
        Misplaced(s, st.srcAt, Hunk(head, body.value.0), HunksOf(body.value.1, true).value);
      }
    } else {
      var out' := out + Slice(Source(s), st.srcAt, want);
      var st' := TakeTo(s, st, want);
      TakeToShows(s, st, want, out);
      HunkRuns(s, rest[1..], st', out', head.aCount, head.bCount, 0, 0);
      var ran := HunkBody(s, rest[1..], st', head.aCount, head.bCount, 0, 0);
      if body.Some? {
        var h := Hunk(head, body.value.0);
        if ran.Some? {
          NextFits(s, want, Old(h.body));
          LinesCome(s, ran.value.0, ran.value.1, out' + New(h.body), true);
        }
        HunkComes(s, st.srcAt, out, h, HunksOf(body.value.1, true), ApplyLines(s, rest, st, saw));
      }
    }
  }

  lemma NextFits(s: Lines, at: nat, lines: seq<string>)
    requires Next(s, at, lines)
    ensures at + |lines| <= |s.v|
  {
  }

  /** Applying a patch succeeds exactly when it can be read and its old sides stand, one after the other, at the lines
      their headers name; the result is the source with them replaced by the new sides. */
  lemma PatchesExactly(src: string, patch: string)
    ensures ApplyText(src, patch) == Patched(src, patch)
  {
    var s := SplitOf(src);
    LinesCome(s, SplitOf(patch).v, Begin(s), [], false);
    var hs := HunksOf(SplitOf(patch).v, false);
    if hs.Some? {
      assert [] + Replaced(Source(s), hs.value, 0) == Replaced(Source(s), hs.value, 0);
    }
  }

  /** The same for a patch in writing, after any lines that are no headers. */
  lemma WrittenPatch(src: string, front: seq<string>, ws: seq<Written>)
    requires forall k :: 0 <= k < |front| ==> !("@@ -" <= front[k])
    requires forall k :: 0 <= k < |ws| ==> InWriting(ws[k])
    requires forall line :: line in front + LinesOf(ws) ==> NoNewline(line)
    ensures var s := SplitOf(src);
            ApplyText(src, Terminate(front + LinesOf(ws))) ==
            if Stand(s.v, HunksIn(ws), 0) then Some(JoinOf(Settled(Replaced(Source(s), HunksIn(ws), 0)))) else None
  {
    PatchesExactly(src, Terminate(front + LinesOf(ws)));
    SplitInvertsTerminate(front + LinesOf(ws));
    FrontPassed(front, LinesOf(ws));
    WrittenReadsBack(ws, false);
  }

  /** A patch whose context is not what stands there is refused. */
  lemma ForeignContext()
    ensures ApplyText("a\n", "@@ -1,1 +1,2 @@\n b\n+c\n") == None
  {
    hide ApplyText, Stand, Replaced, SplitOf, BodyShows;
    var b, c := Entry(Context, Line("b", false)), Entry(Added, Line("c", false));
    var w := Written(Hunk(Header(1, 1, 1, 2), [b, c]), false, false, "", [" b", "+c"]);
    ForeignHunk(b, c, w);
    ForeignText();
    WrittenPatch("a\n", [], [w]);
    assert [] + LinesOf([w]) == LinesOf([w]);
    ForeignSource(w.hunk);
  }

  lemma ForeignSource(h: Hunk)
    requires Place(h) == 0 && Old(h.body) == ["b"]
    ensures !Stand(SplitOf("a\n").v, [h], 0)
  {
    assert SplitOf("") == Lines([], true);
    assert "a" + "\n" + "" == "a\n";
    SplitCons("a", "");
    assert SplitOf("a\n").v == ["a"];
    assert !StandsAt(["a"], [h], 0, 0) by {
      assert ["a"][0..1] == ["a"] && "a"[0] != "b"[0];
    }
  }

  lemma ForeignBody(b: Entry, c: Entry)
    requires b == Entry(Context, Line("b", false)) && c == Entry(Added, Line("c", false))
    ensures Old([b, c]) == ["b"] && |New([b, c])| == 2 && BodyShows([" b", "+c"], [b, c])
  {
    assert [b, c][1..] == [c] && [c][1..] == [];
    var none: seq<Entry> := [];
    assert Old(none) == [] && New(none) == [];
    assert Old([c]) == [] + Old([c][1..]) == [] && New([c]) == [c.line] + New([c][1..]) == [c.line];
    assert Old([b, c]) == ["b"] + Old([b, c][1..]) == ["b"];
    assert [" b", "+c"][1..] == ["+c"] && ["+c"][1..] == [];
    assert BodyShows(["+c"], [c]);
  }

  lemma ForeignHead(w: Written)
    requires w.hunk.header == Header(1, 1, 1, 2) && !w.briefA && !w.briefB && w.note == ""
    ensures Head(w) == "@@ -1,1 +1,2 @@"
  {
    assert Num(1) == "1" && Num(2) == "2";
    assert Pair(1, 1, false) == "1,1" && Pair(1, 2, false) == "1,2";
  }

  lemma ForeignText()
    ensures Terminate(["@@ -1,1 +1,2 @@", " b", "+c"]) == "@@ -1,1 +1,2 @@\n b\n+c\n"
  {
    var lines := ["@@ -1,1 +1,2 @@", " b", "+c"];
    assert lines[1..] == [" b", "+c"] && lines[1..][1..] == ["+c"] && ["+c"][1..] == [];
    assert Terminate(["+c"]) == "+c\n";
    assert Terminate([" b", "+c"]) == " b\n+c\n";
    assert Terminate(lines) == "@@ -1,1 +1,2 @@" + "\n" + " b\n+c\n";
  }

  lemma ForeignHunk(b: Entry, c: Entry, w: Written)
    requires b == Entry(Context, Line("b", false)) && c == Entry(Added, Line("c", false))
    requires w == Written(Hunk(Header(1, 1, 1, 2), [b, c]), false, false, "", [" b", "+c"])
    ensures InWriting(w) && Old(w.hunk.body) == ["b"]
    ensures LinesOf([w]) == ["@@ -1,1 +1,2 @@", " b", "+c"] && HunksIn([w]) == [w.hunk]
    ensures forall line :: line in LinesOf([w]) ==> NoNewline(line)
  {
    hide Head, BodyShows, Old, New;
    ForeignBody(b, c);
    ForeignHead(w);
    assert [w][1..] == [];
    assert LinesOf([w]) == [Head(w)] + [" b", "+c"] + [];
  }

  method Apply(src: string, patch: string) returns (r: Option<string>)
    ensures r == ApplyText(src, patch)
    ensures r == Patched(src, patch)
  {
    hide Patched, HunkBody, SplitOf, ParseHeader, JoinOf, TakeTo;
    PatchesExactly(src, patch);
    var s := Split(src);
    var split := Split(patch);
    var p := split.v;
    var st := State(0, [], !s.finalNewline);
    var i, saw := 0, false;
    while i < |p|
      invariant i <= |p|
      invariant ApplyLines(s, p, Begin(s), false) == ApplyLines(s, p[i..], st, saw)
    {
      var line := p[i];
      assert p[i..][0] == line && p[i..][1..] == p[i + 1..];
      if line == "" || line == MARKER {
        i := i + 1;
        continue;
      }
      var header := ParseHunk(line);
      if header.None? {
        if saw {
          return None;
        }
        i := i + 1;
        continue;
      }
      saw := true;
      i := i + 1;
      var h := header.value;
      var want := if h.aCount == 0 then h.aStart else if h.aStart > 0 then h.aStart - 1 else 0;
      if want < st.srcAt || want > |s.v| {
        return None;
      }
      st := CopyTo(s, st, want);
      var ok;
      ok, i, st := RunHunk(s, p, i, st, h.aCount, h.bCount);
      if !ok {
        return None;
      }
    }
    st := CopyTo(s, st, |s.v|);
    var text := Join(Lines(st.result, st.result == [] || !st.noNewline));
    r := Some(text);
  }
}
