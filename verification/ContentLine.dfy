/** Folding and unfolding of content lines (core/src/contentline.cpp, section 3.1 of RFC 5545). */
module ContentLine {
  import opened Text
  import opened Utf8

  const LIMIT := 75

  predicate IsBlank(c: char) {
    c == ' ' || c == '\t'
  }

  // ---- unfolding ----------------------------------------------------------

  /** A line joins the one before it when it starts with a blank, which goes. */
  function AddLine(lines: seq<string>, line: string): seq<string> {
    if line != "" && IsBlank(line[0]) && lines != [] then lines[|lines| - 1 := lines[|lines| - 1] + line[1..]]
    else lines + [line]
  }

  /** The lines of a text, after those read already. */
  function UnfoldFrom(lines: seq<string>, text: string): seq<string>
    decreases |text|
  {
    var nl := IndexOf(text, '\n', 0);
    var read := AddLine(lines, StripCr(text[..nl]));
    if nl == |text| then read else UnfoldFrom(read, text[nl + 1..])
  }

  lemma UnfoldAt(lines: seq<string>, text: string, i: nat, nl: nat)
    requires i <= |text| && nl == IndexOf(text, '\n', i)
    ensures var read := AddLine(lines, StripCr(text[i..nl]));
            UnfoldFrom(lines, text[i..]) == if nl == |text| then read else UnfoldFrom(read, text[nl + 1..])
  {
    hide AddLine, StripCr;
    IndexOfSuffix(text, '\n', i);
    assert text[i..][..nl - i] == text[i..nl];
    if nl < |text| {
      assert text[i..][nl - i + 1..] == text[nl + 1..];
    }
  }

  method Unfold(text: string) returns (lines: seq<string>)
    ensures lines == UnfoldFrom([], text)
  {
    hide UnfoldFrom, StripCr;
    lines := [];
    var cur := "";
    var start := 0;
    assert text[0..] == text;
    for i := 0 to |text| + 1
      invariant start <= i
      invariant i <= |text| ==> cur == text[start..i] && IndexOf(text, '\n', start) >= i
      invariant i <= |text| ==> UnfoldFrom(lines, text[start..]) == UnfoldFrom([], text)
      invariant i == |text| + 1 ==> lines == UnfoldFrom([], text)
    {
      if i == |text| || text[i] == '\n' {
        UnfoldAt(lines, text, start, i);
        var line := StripCr(cur);
        if line != "" && IsBlank(line[0]) && lines != [] {
          lines := lines[|lines| - 1 := lines[|lines| - 1] + line[1..]];
        } else {
          lines := lines + [line];
        }
        cur := "";
        start := i + 1;
      } else {
        cur := cur + [text[i]];
      }
    }
  }

  // ---- what a written text unfolds to -------------------------------------

  /** The end of a physical line: CRLF, or a line feed alone. */
  datatype Ending = Crlf | Lf

  function Break(e: Ending): string {
    if e.Crlf? then "\r\n" else "\n"
  }

  /** A continuation starts with a space or a tab. */
  datatype Part = Part(tab: bool, text: string, end: Ending)

  /** A logical line as it is written: its first physical line, and its continuations. */
  datatype Logical = Logical(head: string, end: Ending, parts: seq<Part>)

  /** No line feed, and no carriage return before a line feed that ends the line alone. */
  predicate LegalText(text: string, e: Ending) {
    && (forall i :: 0 <= i < |text| ==> text[i] != '\n')
    && (e.Lf? && text != "" ==> text[|text| - 1] != '\r')
  }

  predicate LegalParts(ps: seq<Part>) {
    ps == [] || (LegalText(ps[0].text, ps[0].end) && LegalParts(ps[1..]))
  }

  predicate LegalLine(l: Logical) {
    LegalText(l.head, l.end) && (l.head != "" ==> l.head[0] != ' ' && l.head[0] != '\t') && LegalParts(l.parts)
  }

  predicate LegalLines(ls: seq<Logical>) {
    ls == [] || (LegalLine(ls[0]) && LegalLines(ls[1..]))
  }

  /** Continuations and what follows them. */
  function PutParts(ps: seq<Part>, rest: string): string {
    if ps == [] then rest
    else ((if ps[0].tab then "\t" else " ") + ps[0].text) + (Break(ps[0].end) + PutParts(ps[1..], rest))
  }

  function PutLines(ls: seq<Logical>, rest: string): string {
    if ls == [] then rest else ls[0].head + (Break(ls[0].end) + PutParts(ls[0].parts, PutLines(ls[1..], rest)))
  }

  /** The text of the continuations, without breaks and marks. */
  function PartsText(ps: seq<Part>): string {
    if ps == [] then "" else ps[0].text + PartsText(ps[1..])
  }

  function LineTexts(ls: seq<Logical>): seq<string> {
    if ls == [] then [] else [ls[0].head + PartsText(ls[0].parts)] + LineTexts(ls[1..])
  }

  lemma UnfoldBroken(lines: seq<string>, line: string, e: Ending, rest: string)
    requires LegalText(line, e)
    ensures UnfoldFrom(lines, line + (Break(e) + rest)) == UnfoldFrom(AddLine(lines, line), rest)
  {
    hide AddLine;
    var text := line + (Break(e) + rest);
    var nl := |line| + |Break(e)| - 1;
    assert forall k :: 0 <= k < |line| ==> text[k] == line[k];
    assert forall k :: 0 <= k < |Break(e)| ==> text[|line| + k] == Break(e)[k];
    assert IndexOf(text, '\n', 0) == nl;
    var head := text[..nl];
    if e.Crlf? {
      assert head == line + "\r" && head[..|head| - 1] == line;
    } else {
      assert head == line;
    }
    assert StripCr(head) == line;
    assert text[nl + 1..] == rest;
  }

  lemma {:induction false} UnfoldParts(lines: seq<string>, last: string, ps: seq<Part>, rest: string)
    requires LegalParts(ps)
    ensures UnfoldFrom(lines + [last], PutParts(ps, rest)) == UnfoldFrom(lines + [last + PartsText(ps)], rest)
    decreases |ps|
  {
    hide UnfoldFrom, Break, LegalText;
    if ps == [] {
      assert last + "" == last;
    } else {
      var p := ps[0];
      var line := (if p.tab then "\t" else " ") + p.text;
      MarkIsLegal(p.tab, p.text, p.end);
      UnfoldBroken(lines + [last], line, p.end, PutParts(ps[1..], rest));
      assert line[1..] == p.text;
      assert AddLine(lines + [last], line) == lines + [last + p.text];
      UnfoldParts(lines, last + p.text, ps[1..], rest);
      Assoc(last, p.text, PartsText(ps[1..]));
    }
  }

  lemma MarkIsLegal(tab: bool, text: string, e: Ending)
    requires LegalText(text, e)
    ensures LegalText((if tab then "\t" else " ") + text, e)
  {
  }

  lemma {:induction false} UnfoldLines(before: seq<string>, ls: seq<Logical>, rest: string)
    requires LegalLines(ls)
    ensures UnfoldFrom(before, PutLines(ls, rest)) == UnfoldFrom(before + LineTexts(ls), rest)
    decreases |ls|
  {
    hide UnfoldFrom, Break, LegalText, PutParts, PartsText;
    if ls == [] {
      assert before + [] == before;
    } else {
      var l := ls[0];
      var more := PutLines(ls[1..], rest);
      UnfoldBroken(before, l.head, l.end, PutParts(l.parts, more));
      assert AddLine(before, l.head) == before + [l.head];
      UnfoldParts(before, l.head, l.parts, more);
      var line := l.head + PartsText(l.parts);
      UnfoldLines(before + [line], ls[1..], rest);
      Assoc(before, [line], LineTexts(ls[1..]));
    }
  }

  /** A text of logical lines, wherever they are broken, whether the breaks are CRLF or line feeds alone and
      whether a space or a tab marks what continues a line, unfolds to the logical lines and what follows
      the last break. */
  lemma WrittenUnfolds(ls: seq<Logical>, last: string)
    requires LegalLines(ls) && LegalText(last, Lf) && (last != "" ==> last[0] != ' ' && last[0] != '\t')
    ensures UnfoldFrom([], PutLines(ls, last)) == LineTexts(ls) + [last]
  {
    hide UnfoldFrom, PutLines, LineTexts;
    UnfoldLines([], ls, last);
    assert [] + LineTexts(ls) == LineTexts(ls);
    UnfoldLast(LineTexts(ls), last);
  }

  lemma UnfoldLast(before: seq<string>, last: string)
    requires LegalText(last, Lf) && (last != "" ==> last[0] != ' ' && last[0] != '\t')
    ensures UnfoldFrom(before, last) == before + [last]
  {
    assert IndexOf(last, '\n', 0) == |last|;
    assert last[..|last|] == last && StripCr(last) == last;
  }

  // ---- folding ------------------------------------------------------------

  /** The cut moved back while it lies in front of a continuation byte. */
  function BackOff(line: string, take: nat): (r: nat)
    requires 1 <= take < |line|
    ensures 1 <= r <= take
  {
    if take > 1 && IsContinuation(line[take]) then BackOff(line, take - 1) else take
  }

  /** How much of the rest of a line the next physical line takes. */
  function Taken(line: string, first: bool): (r: nat)
    requires line != ""
    ensures 1 <= r <= |line| && r <= (if first then LIMIT else LIMIT - 1)
  {
    var budget := if first then LIMIT else LIMIT - 1;
    if budget >= |line| then |line| else BackOff(line, budget)
  }

  /** The pieces of a line in order; the first may be longer by one. */
  function Pieces(line: string, first: bool): seq<string> {
    if line == "" then [] else [line[..Taken(line, first)]] + Pieces(line[Taken(line, first)..], false)
  }

  /** The physical lines: pieces after the first are marked by a space. */
  function Physical(pieces: seq<string>, first: bool): string {
    if pieces == [] then "" else (if first then "" else " ") + (pieces[0] + ("\r\n" + Physical(pieces[1..], false)))
  }

  function FoldedLine(line: string): string {
    if line == "" then "\r\n" else Physical(Pieces(line, true), true)
  }

  lemma {:induction false} FoldStep(out: string, line: string, i: nat, first: bool)
    requires i < |line|
    ensures var take := Taken(line[i..], first);
            out + Physical(Pieces(line[i..], first), first) ==
            (((if first then out else out + " ") + line[i..i + take]) + "\r\n") + Physical(Pieces(line[i + take..], false), false)
  {
    hide Taken;
    var s := line[i..];
    var take := Taken(s, first);
    var mark := if first then "" else " ";
    assert s[..take] == line[i..i + take] && s[take..] == line[i + take..];
    var rest := Physical(Pieces(s[take..], false), false);
    assert Pieces(s, first)[1..] == Pieces(s[take..], false);
    Assoc(out, mark, s[..take] + ("\r\n" + rest));
    Assoc(out + mark, s[..take], "\r\n" + rest);
    Assoc((out + mark) + s[..take], "\r\n", rest);
    assert first ==> out + mark == out;
  }

  method AppendFolded(out: string, line: string) returns (r: string)
    ensures r == out + FoldedLine(line)
    ensures Flatten(Pieces(line, true)) == line
  {
    hide Physical, Pieces, Taken, BackOff;
    PiecesAreTheLine(line, true);
    r := out;
    var i := 0;
    var first := true;
    assert line[0..] == line;
    while i < |line|
      invariant i <= |line| && (first <==> i == 0)
      invariant r + Physical(Pieces(line[i..], first), first) == out + Physical(Pieces(line, true), true)
      decreases |line| - i
    {
      var budget := if first then LIMIT else LIMIT - 1;
      var take := if budget < |line| - i then budget else |line| - i;
      TakenIs(line[i..], first, take);
      if i + take < |line| {
        ghost var cut := take;
        while take > 1 && IsContinuation(line[i + take])
          invariant 1 <= take <= cut && BackOff(line[i..], take) == BackOff(line[i..], cut)
        {
          BackOffStep(line[i..], take);
          assert line[i..][take] == line[i + take];
          take := take - 1;
        }
        BackOffStep(line[i..], take);
        assert line[i..][take] == line[i + take];
      }
      FoldStep(r, line, i, first);
      if !first {
        r := r + " ";
      }
      r := r + line[i..i + take];
      r := r + "\r\n";
      i := i + take;
      first := false;
    }
    assert line[|line|..] == "";
    NoPieces(r);
    if line == "" {
      r := r + "\r\n";
    }
  }

  lemma TakenIs(line: string, first: bool, take: nat)
    requires line != ""
    requires var budget := if first then LIMIT else LIMIT - 1; take == if budget < |line| then budget else |line|
    ensures 1 <= take <= |line|
    ensures Taken(line, first) == if take < |line| then BackOff(line, take) else take
  {
  }

  lemma BackOffStep(line: string, take: nat)
    requires 1 <= take < |line|
    ensures BackOff(line, take) == if take > 1 && IsContinuation(line[take]) then BackOff(line, take - 1) else take
  {
  }

  lemma NoPieces(out: string)
    ensures Pieces("", true) == [] && Pieces("", false) == [] && Physical([], true) == "" && Physical([], false) == "" && out + "" == out
  {
  }

  // ---- no physical line is too long ---------------------------------------

  lemma {:induction false} PiecesFit(line: string, first: bool)
    ensures forall k :: 0 <= k < |Pieces(line, first)| ==>
              Pieces(line, first)[k] != "" && |Pieces(line, first)[k]| + (if first && k == 0 then 0 else 1) <= 75
    decreases |line|
  {
    hide Taken;
    if line != "" {
      var take := Taken(line, first);
      PiecesFit(line[take..], false);
      var ps := Pieces(line, first);
      assert forall k :: 0 < k < |ps| ==> ps[k] == Pieces(line[take..], false)[k - 1];
    }
  }

  lemma {:induction false} PiecesAreTheLine(line: string, first: bool)
    ensures Flatten(Pieces(line, first)) == line
    decreases |line|
  {
    hide Taken;
    if line != "" {
      var take := Taken(line, first);
      PiecesAreTheLine(line[take..], false);
      assert Pieces(line, first)[1..] == Pieces(line[take..], false);
      assert line == line[..take] + line[take..];
    }
  }

  // ---- cuts fall between characters ---------------------------------------

  lemma FirstHasContinuations(s: string, k: nat)
    requires First(s).Some? && 1 <= k < First(s).value.1
    ensures IsContinuation(s[k]) && First(s).value.1 <= 4
  {
    EncodeOfFirst(s);
    var (cp, n) := First(s).value;
    assert s[k] == s[..n][k] == Encode(cp)[k];
  }

  lemma FirstIsLead(s: string)
    requires First(s).Some?
    ensures !IsContinuation(s[0])
  {
  }

  /** A valid string starts with no continuation byte, and has none at the end of four in a row. */
  lemma {:induction false} LeadNearby(s: string, i: nat)
    requires Valid(s) && i < |s|
    ensures exists j :: 0 <= j <= i && i - j <= 3 && !IsContinuation(s[j])
    decreases |s|
  {
    hide First;
    var n := First(s).value.1;
    if i < n {
      FirstIsLead(s);
      if i > 0 {
        FirstHasContinuations(s, i);
      }
      assert !IsContinuation(s[0]);
    } else {
      LeadNearby(s[n..], i - n);
      var j :| 0 <= j <= i - n && i - n - j <= 3 && !IsContinuation(s[n..][j]);
      assert s[n..][j] == s[n + j];
    }
  }

  /** A valid string cut in front of a lead byte falls into two valid strings. */
  lemma {:induction false} CutIsValid(s: string, i: nat)
    requires Valid(s) && i <= |s| && (i < |s| ==> !IsContinuation(s[i]))
    ensures Valid(s[..i]) && Valid(s[i..])
    decreases |s|
  {
    hide First;
    if i == 0 {
      assert s[..0] == "" && s[0..] == s;
    } else {
      var n := First(s).value.1;
      if i < n {
        FirstHasContinuations(s, i);
      }
      assert n <= i;
      CutIsValid(s[n..], i - n);
      assert s[n..][..i - n] == s[n..i] && s[n..][i - n..] == s[i..];
      PrefixFirst(s, i);
      assert s[..i][n..] == s[n..i];
    }
  }

  /** The first code point of a string is the first of any prefix that holds it. */
  lemma PrefixFirst(s: string, i: nat)
    requires First(s).Some? && First(s).value.1 <= i <= |s|
    ensures First(s[..i]) == First(s)
  {
    hide First, Encode;
    var (cp, n) := First(s).value;
    EncodeOfFirst(s);
    assert s[..i] == s[..n] + s[n..i];
    FirstOfEncode(cp, s[n..i]);
  }

  lemma {:induction false} BackOffFindsLead(line: string, take: nat, j: nat)
    requires 1 < j <= take < |line| && !IsContinuation(line[j])
    ensures !IsContinuation(line[BackOff(line, take)])
  {
    if take > j && IsContinuation(line[take]) {
      BackOffFindsLead(line, take - 1, j);
    }
  }

  lemma TakenIsValid(line: string, first: bool)
    requires Valid(line) && line != ""
    ensures Valid(line[..Taken(line, first)]) && Valid(line[Taken(line, first)..])
  {
    hide Valid, BackOff;
    var budget := if first then LIMIT else LIMIT - 1;
    if budget < |line| {
      LeadNearby(line, budget);
      var j :| 0 <= j <= budget && budget - j <= 3 && !IsContinuation(line[j]);
      BackOffFindsLead(line, budget, j);
    }
    CutIsValid(line, Taken(line, first));
  }

  /** Cuts of valid text are made as late as they can be: a physical line that is continued is no more than
      three octets short of 75. */
  lemma {:induction false} PiecesAreFull(line: string, first: bool)
    requires Valid(line)
    ensures forall k :: 0 <= k < |Pieces(line, first)| - 1 ==>
              |Pieces(line, first)[k]| + (if first && k == 0 then 0 else 1) >= 72
    decreases |line|
  {
    hide Taken, Valid;
    if line != "" {
      var take := Taken(line, first);
      var more := Pieces(line[take..], false);
      TakenIsValid(line, first);
      PiecesAreFull(line[take..], false);
      TakenIsFull(line, first);
      var ps := Pieces(line, first);
      assert forall k :: 0 < k < |ps| ==> ps[k] == more[k - 1];
      assert take == |line| ==> more == [];
    }
  }

  lemma TakenIsFull(line: string, first: bool)
    requires Valid(line) && line != ""
    ensures Taken(line, first) == |line| || Taken(line, first) + (if first then 0 else 1) >= 72
  {
    hide Valid, BackOff;
    var budget := if first then LIMIT else LIMIT - 1;
    if budget < |line| {
      LeadNearby(line, budget);
      var j :| 0 <= j <= budget && budget - j <= 3 && !IsContinuation(line[j]);
      BackOffStaysNear(line, budget, j);
    }
  }

  lemma {:induction false} BackOffStaysNear(line: string, take: nat, j: nat)
    requires 1 < j <= take < |line| && !IsContinuation(line[j])
    ensures BackOff(line, take) >= j
  {
    if take > j && IsContinuation(line[take]) {
      BackOffStaysNear(line, take - 1, j);
    }
  }

  predicate AllValid(pieces: seq<string>) {
    pieces == [] || (Valid(pieces[0]) && AllValid(pieces[1..]))
  }

  /** No cut of a valid line falls inside a character: every piece is valid. */
  lemma {:induction false} PiecesAreValid(line: string, first: bool)
    requires Valid(line)
    ensures AllValid(Pieces(line, first))
    decreases |line|
  {
    hide Taken, Valid;
    if line != "" {
      var take := Taken(line, first);
      TakenIsValid(line, first);
      PiecesAreValid(line[take..], false);
      assert Pieces(line, first)[1..] == Pieces(line[take..], false);
    }
  }

  // ---- unfolding undoes folding -------------------------------------------

  /** What may be folded: no line breaks, and no blank in front. */
  predicate Foldable(line: string) {
    OneLine(line) && (line != "" ==> !IsBlank(line[0]))
  }

  predicate AllFoldable(lines: seq<string>) {
    lines == [] || (Foldable(lines[0]) && AllFoldable(lines[1..]))
  }

  lemma UnfoldLine(lines: seq<string>, line: string, rest: string)
    requires OneLine(line)
    ensures UnfoldFrom(lines, line + ("\r\n" + rest)) == UnfoldFrom(AddLine(lines, line), rest)
  {
    UnfoldBroken(lines, line, Crlf, rest);
  }

  lemma {:induction false} UnfoldContinuations(lines: seq<string>, last: string, line: string, rest: string)
    requires OneLine(line)
    ensures UnfoldFrom(lines + [last], Physical(Pieces(line, false), false) + rest) == UnfoldFrom(lines + [last + line], rest)
    decreases |line|
  {
    hide UnfoldFrom, Taken;
    if line == "" {
      assert last + "" == last && "" + rest == rest;
    } else {
      var take := Taken(line, false);
      var piece, more := line[..take], line[take..];
      var tail := Physical(Pieces(more, false), false);
      assert Pieces(line, false)[1..] == Pieces(more, false);
      Assoc(" ", piece + ("\r\n" + tail), rest);
      Assoc(piece, "\r\n" + tail, rest);
      Assoc("\r\n", tail, rest);
      Assoc(" ", piece, "\r\n" + (tail + rest));
      UnfoldLine(lines + [last], " " + piece, tail + rest);
      assert (" " + piece)[1..] == piece;
      assert AddLine(lines + [last], " " + piece) == lines + [last + piece];
      UnfoldContinuations(lines, last + piece, more, rest);
      assert (last + piece) + more == last + line;
    }
  }

  lemma UnfoldFolded(lines: seq<string>, line: string, rest: string)
    requires Foldable(line)
    ensures UnfoldFrom(lines, FoldedLine(line) + rest) == UnfoldFrom(lines + [line], rest)
  {
    hide UnfoldFrom, Taken;
    if line == "" {
      UnfoldLine(lines, "", rest);
      assert "" + ("\r\n" + rest) == "\r\n" + rest;
    } else {
      var take := Taken(line, true);
      var piece, more := line[..take], line[take..];
      var tail := Physical(Pieces(more, false), false);
      assert Pieces(line, true)[1..] == Pieces(more, false);
      assert FoldedLine(line) == piece + ("\r\n" + tail) by {
        assert "" + (piece + ("\r\n" + tail)) == piece + ("\r\n" + tail);
      }
      Assoc(piece, "\r\n" + tail, rest);
      Assoc("\r\n", tail, rest);
      UnfoldLine(lines, piece, tail + rest);
      assert piece[0] == line[0];
      UnfoldContinuations(lines, piece, more, rest);
      assert piece + more == line;
    }
  }

  /** The folded lines one after another. */
  function FoldedText(lines: seq<string>): string {
    if lines == [] then "" else FoldedLine(lines[0]) + FoldedText(lines[1..])
  }

  lemma {:induction false} FoldThenUnfoldFrom(before: seq<string>, lines: seq<string>)
    requires AllFoldable(lines)
    ensures UnfoldFrom(before, FoldedText(lines)) == (before + lines) + [""]
    decreases |lines|
  {
    hide UnfoldFrom, FoldedLine, Foldable;
    if lines == [] {
      UnfoldEmpty(before);
      assert before + [] == before;
    } else {
      UnfoldFolded(before, lines[0], FoldedText(lines[1..]));
      FoldThenUnfoldFrom(before + [lines[0]], lines[1..]);
      assert (before + [lines[0]]) + lines[1..] == before + lines;
    }
  }

  lemma UnfoldEmpty(before: seq<string>)
    ensures UnfoldFrom(before, "") == before + [""]
  {
    assert StripCr("") == "" && ""[..0] == "";
  }

  /** Unfolding the folded lines gives the lines and the empty line after the last break. */
  lemma FoldThenUnfold(lines: seq<string>)
    requires AllFoldable(lines)
    ensures UnfoldFrom([], FoldedText(lines)) == lines + [""]
  {
    hide UnfoldFrom, FoldedText;
    FoldThenUnfoldFrom([], lines);
    assert [] + lines == lines;
  }
}
