/** Texts as lines, comparison keys, hunk headers and the patch-side line parser of core/src/diff.cpp. */
module DiffText {
  import opened Text

  /** A text as lines; an absent final newline is remembered separately. */
  datatype Lines = Lines(v: seq<string>, finalNewline: bool)

  /** What splitting can produce: no line holds a newline, and a missing final newline belongs
      to a last line that is not empty. */
  ghost predicate WellFormed(l: Lines) {
    && (forall line :: line in l.v ==> NoNewline(line))
    && (!l.finalNewline ==> l.v != [] && l.v[|l.v| - 1] != "")
  }

  function SplitOf(s: string): Lines
    decreases |s|
  {
    if s == "" then Lines([], true)
    else
      var nl := IndexOf(s, '\n', 0);
      if nl == |s| then Lines([s], false)
      else
        var rest := SplitOf(s[nl + 1..]);
        Lines([s[..nl]] + rest.v, rest.finalNewline)
  }

  function JoinOf(l: Lines): string
    decreases |l.v|
  {
    if l.v == [] then ""
    else if |l.v| == 1 then l.v[0] + (if l.finalNewline then "\n" else "")
    else l.v[0] + "\n" + JoinOf(Lines(l.v[1..], l.finalNewline))
  }

  /** How splitting continues at a line start. */
  lemma SplitStep(s: string, start: nat)
    requires start < |s|
    ensures var nl := IndexOf(s, '\n', start);
            SplitOf(s[start..]) == if nl == |s| then Lines([s[start..]], false)
                                   else Lines([s[start..nl]] + SplitOf(s[nl + 1..]).v, SplitOf(s[nl + 1..]).finalNewline)
  {
    IndexOfSuffix(s, '\n', start);
    var nl, t := IndexOf(s, '\n', start), s[start..];
    if nl < |s| {
      var line, rest := s[start..nl], s[nl + 1..];
      assert t == line + "\n" + rest;
      SplitCons(line, rest);
      assert SplitOf(t) == SplitOf(line + "\n" + rest);
    }
  }

  lemma {:induction false} SplitCons(line: string, rest: string)
    requires NoNewline(line)
    ensures SplitOf(line + "\n" + rest) == Lines([line] + SplitOf(rest).v, SplitOf(rest).finalNewline)
  {
    var s := line + "\n" + rest;
    IndexOfLine(line, rest);
    assert s[..|line|] == line && s[|line| + 1..] == rest;
  }

  /** `v` and the lines still to come are the lines of the whole text. */
  ghost predicate SplitSoFar(s: string, start: nat, v: seq<string>) {
    start <= |s| && v + SplitOf(s[start..]).v == SplitOf(s).v && SplitOf(s[start..]).finalNewline == SplitOf(s).finalNewline
  }

  lemma SplitBegins(s: string)
    ensures SplitSoFar(s, 0, [])
  {
    assert s[0..] == s;
  }

  lemma SplitAdvances(s: string, start: nat, v: seq<string>)
    requires SplitSoFar(s, start, v) && start < |s|
    ensures var nl := IndexOf(s, '\n', start);
            if nl == |s| then SplitOf(s) == Lines(v + [s[start..]], false) else SplitSoFar(s, nl + 1, v + [s[start..nl]])
  {
    var nl := IndexOf(s, '\n', start);
    SplitStep(s, start);
    if nl < |s| {
      Assoc(v, [s[start..nl]], SplitOf(s[nl + 1..]).v);
    }
  }

  method Split(s: string) returns (out: Lines)
    ensures out == SplitOf(s)
  {
    if s == "" {
      return Lines([], true);
    }
    var v: seq<string> := [];
    var start := 0;
    SplitBegins(s);
    while start < |s|
      invariant SplitSoFar(s, start, v)
    {
      SplitAdvances(s, start, v);
      var nl := IndexOf(s, '\n', start);
      if nl == |s| {
        v := v + [s[start..]];
        return Lines(v, false);
      }
      v := v + [s[start..nl]];
      start := nl + 1;
    }
    out := Lines(v, true);
  }

  method Join(l: Lines) returns (out: string)
    ensures out == JoinOf(l)
  {
    out := "";
    var i := 0;
    while i < |l.v|
      invariant i <= |l.v|
      invariant out + JoinOf(Lines(l.v[i..], l.finalNewline)) == JoinOf(l)
    {
      var part := l.v[i] + (if i + 1 < |l.v| || l.finalNewline then "\n" else "");
      assert l.v[i..][0] == l.v[i] && l.v[i..][1..] == l.v[i + 1..];
      Assoc(out, part, JoinOf(Lines(l.v[i + 1..], l.finalNewline)));
      out := out + part;
      i := i + 1;
    }
  }

  /** Splitting loses nothing. */
  lemma {:induction false} JoinInvertsSplit(s: string)
    ensures WellFormed(SplitOf(s)) && JoinOf(SplitOf(s)) == s
    decreases |s|
  {
    if s != "" {
      var nl := IndexOf(s, '\n', 0);
      if nl < |s| {
        hide JoinOf, WellFormed;
        JoinInvertsSplit(s[nl + 1..]);
        assert s == (s[..nl] + "\n") + s[nl + 1..];
        JoinCons(s[..nl], SplitOf(s[nl + 1..]));
      }
    }
  }

  /** A terminated line in front of a text of lines. */
  lemma JoinCons(line: string, rest: Lines)
    requires WellFormed(rest) && NoNewline(line)
    ensures var l := Lines([line] + rest.v, rest.finalNewline);
            WellFormed(l) && JoinOf(l) == (line + "\n") + JoinOf(rest)
  {
    var l := Lines([line] + rest.v, rest.finalNewline);
    assert l.v[0] == line && l.v[1..] == rest.v;
    if rest.v != [] {
      assert l.v[|l.v| - 1] == rest.v[|rest.v| - 1];
    }
  }

  /** And what is split off a join is what was joined. */
  lemma {:induction false} SplitInvertsJoin(l: Lines)
    requires WellFormed(l)
    ensures SplitOf(JoinOf(l)) == l
    decreases |l.v|
  {
    if l.v != [] {
      var line, rest := l.v[0], Lines(l.v[1..], l.finalNewline);
      assert l.v == [line] + rest.v;
      assert NoNewline(line);
      if |l.v| == 1 && !l.finalNewline {
        assert l == Lines([line], false) && line + "" == line;
        assert IndexOf(line, '\n', 0) == |line|;
        assert SplitOf(line) == Lines([line], false);
      } else {
        assert rest.v != [] ==> rest.v[|rest.v| - 1] == l.v[|l.v| - 1];
        SplitInvertsJoin(rest);
        JoinCons(line, rest);
        SplitCons(line, JoinOf(rest));
      }
    }
  }

  lemma IndexOfLine(line: string, rest: string)
    requires NoNewline(line)
    ensures IndexOf(line + "\n" + rest, '\n', 0) == |line|
  {
    var s := line + "\n" + rest;
    assert s[|line|] == '\n';
    assert forall i :: 0 <= i < |line| ==> s[i] == line[i];
  }

  /** A text of terminated lines splits back into exactly those lines. */
  lemma {:induction false} SplitInvertsTerminate(lines: seq<string>)
    requires forall line :: line in lines ==> NoNewline(line)
    ensures SplitOf(Terminate(lines)) == Lines(lines, true)
  {
    if lines != [] {
      SplitInvertsTerminate(lines[1..]);
      SplitCons(lines[0], Terminate(lines[1..]));
      assert lines == [lines[0]] + lines[1..];
    }
  }

  // ---- comparison keys ----------------------------------------------------

  const NO_NEWLINE_KEY := "\n\U{1}no-final-newline"

  function KeysOf(l: Lines): (k: seq<string>)
    ensures |k| == |l.v|
  {
    if l.v != [] && !l.finalNewline then
      l.v[|l.v| - 1 := l.v[|l.v| - 1] + NO_NEWLINE_KEY]
    else l.v
  }

  /** Line `i` of `l` is a last line that does not end in a newline. */
  predicate Unterminated(l: Lines, i: nat) {
    i + 1 == |l.v| && !l.finalNewline
  }

  lemma KeyHasNewline(line: string)
    ensures !NoNewline(line + NO_NEWLINE_KEY)
  {
    assert (line + NO_NEWLINE_KEY)[|line|] == '\n';
  }

  /** Equal keys mean equal lines that are terminated alike. */
  lemma KeysEqual(a: Lines, b: Lines, i: nat, j: nat)
    requires WellFormed(a) && WellFormed(b) && i < |a.v| && j < |b.v|
    requires KeysOf(a)[i] == KeysOf(b)[j]
    ensures a.v[i] == b.v[j] && (Unterminated(a, i) <==> Unterminated(b, j))
  {
    KeyHasNewline(a.v[i]);
    KeyHasNewline(b.v[j]);
    assert NoNewline(a.v[i]) && NoNewline(b.v[j]);
    var x, y := a.v[i], b.v[j];
    if Unterminated(a, i) && Unterminated(b, j) {
      assert x + NO_NEWLINE_KEY == y + NO_NEWLINE_KEY;
      assert |x| == |y|;
      assert x == (x + NO_NEWLINE_KEY)[..|x|] && y == (y + NO_NEWLINE_KEY)[..|y|];
    }
  }

  /** The keys determine the text. */
  lemma KeysInjective(a: Lines, b: Lines)
    requires WellFormed(a) && WellFormed(b) && KeysOf(a) == KeysOf(b)
    ensures a == b
  {
    forall i | 0 <= i < |a.v|
      ensures a.v[i] == b.v[i] && (Unterminated(a, i) <==> Unterminated(b, i))
    {
      KeysEqual(a, b, i, i);
    }
    assert a.v == b.v;
  }

  // ---- headers ------------------------------------------------------------

  const MARKER := "\\ No newline at end of file"

  predicate MarkerFirst(rest: seq<string>) {
    rest != [] && rest[0] == MARKER
  }

  datatype Header = Header(aStart: nat, aCount: nat, bStart: nat, bCount: nat)

  function Side(start: nat, count: nat): string {
    Num(if count == 0 then start else start + 1) + (if count != 1 then "," + Num(count) else "")
  }

  /** The header line, without its newline. A zero-length side is numbered from the line before. */
  function HeaderLine(h: Header): string {
    "@@ -" + (Side(h.aStart, h.aCount) + (" +" + (Side(h.bStart, h.bCount) + " @@")))
  }

  const LIMIT: nat := 0x100_0000_0000

  /** The digits from `p` on, appended to `val`; refused once another digit meets a value over the limit. */
  function Digits(line: string, p: nat, val: nat): Option<(nat, nat)>
    requires p <= |line|
    decreases |line| - p
  {
    if p == |line| || !IsDigit(line[p]) then Some((val, p))
    else if val > LIMIT then None
    else Digits(line, p + 1, val * 10 + DigitValue(line[p]))
  }

  function NumberAt(line: string, p: nat): (r: Option<(nat, nat)>)
    requires p <= |line|
    ensures r.Some? ==> p <= r.value.1 <= |line|
  {
    if p == |line| || !IsDigit(line[p]) then None
    else
      DigitsAdvance(line, p, 0);
      Digits(line, p, 0)
  }

  lemma DigitsAdvance(line: string, p: nat, val: nat)
    requires p <= |line|
    ensures Digits(line, p, val).Some? ==> p <= Digits(line, p, val).value.1 <= |line|
    decreases |line| - p
  {
  }

  /** "start" or "start,count"; the count defaults to one. */
  function SideAt(line: string, p: nat): (r: Option<(nat, nat, nat)>)
    requires p <= |line|
    ensures r.Some? ==> r.value.2 <= |line|
  {
    match NumberAt(line, p)
    case None => None
    case Some((start, q)) =>
      if q < |line| && line[q] == ',' then
        match NumberAt(line, q + 1)
        case None => None
        case Some((count, r)) => Some((start, count, r))
      else Some((start, 1, q))
  }

  /** The numbers of a header line as written, or None for anything that is not a header. */
  function ParseHeader(line: string): Option<Header> {
    if !("@@ -" <= line) then None
    else match SideAt(line, 4)
      case None => None
      case Some((aStart, aCount, p)) =>
        if p + 1 >= |line| || line[p] != ' ' || line[p + 1] != '+' then None
        else match SideAt(line, p + 2)
          case None => None
          case Some((bStart, bCount, q)) =>
            if " @@" <= line[q..] then Some(Header(aStart, aCount, bStart, bCount)) else None
  }

  /** The number a side is written with. */
  function Written(start: nat, count: nat): nat {
    if count == 0 then start else start + 1
  }

  /** Numbers of this size survive the limit check made before each further digit. */
  predicate Fits(n: nat) {
    n / 10 <= 0x100_0000_0000
  }

  predicate HeaderFits(h: Header) {
    Fits(Written(h.aStart, h.aCount)) && Fits(h.aCount) && Fits(Written(h.bStart, h.bCount)) && Fits(h.bCount)
  }

  method Number(line: string, p0: nat) returns (r: Option<(nat, nat)>)
    requires p0 <= |line|
    ensures r == NumberAt(line, p0)
  {
    if p0 >= |line| || !IsDigit(line[p0]) {
      return None;
    }
    var p, val: nat := p0, 0;
    while p < |line| && IsDigit(line[p])
      invariant p0 <= p <= |line| && Digits(line, p, val) == Digits(line, p0, 0)
    {
      if val > LIMIT {
        return None;
      }
      val := val * 10 + DigitValue(line[p]);
      p := p + 1;
    }
    r := Some((val, p));
  }

  method ParseHunk(line: string) returns (r: Option<Header>)
    ensures r == ParseHeader(line)
  {
    if !("@@ -" <= line) {
      return None;
    }
    var p := 4;
    var n := Number(line, p);
    if n.None? {
      return None;
    }
    var aStart, aCount := n.value.0, 1;
    p := n.value.1;
    if p < |line| && line[p] == ',' {
      p := p + 1;
      n := Number(line, p);
      if n.None? {
        return None;
      }
      aCount, p := n.value.0, n.value.1;
    }
    if p + 1 >= |line| || line[p] != ' ' || line[p + 1] != '+' {
      return None;
    }
    p := p + 2;
    n := Number(line, p);
    if n.None? {
      return None;
    }
    var bStart, bCount := n.value.0, 1;
    p := n.value.1;
    if p < |line| && line[p] == ',' {
      p := p + 1;
      n := Number(line, p);
      if n.None? {
        return None;
      }
      bCount, p := n.value.0, n.value.1;
    }
    if " @@" <= line[p..] {
      r := Some(Header(aStart, aCount, bStart, bCount));
    } else {
      r := None;
    }
  }

  method HunkHeader(aStart: nat, aCount: nat, bStart: nat, bCount: nat) returns (h: string)
    ensures h == HeaderLine(Header(aStart, aCount, bStart, bCount)) + "\n"
  {
    h := "@@ -";
    h := AppendSide(h, aStart, aCount);
    h := h + " +";
    h := AppendSide(h, bStart, bCount);
    h := h + " @@\n";
    HeaderAssociates(Side(aStart, aCount), Side(bStart, bCount));
  }

  method AppendSide(h0: string, start: nat, count: nat) returns (h: string)
    ensures h == h0 + Side(start, count)
  {
    h := h0 + Num(if count == 0 then start else start + 1);
    if count != 1 {
      h := h + "," + Num(count);
    }
  }

  lemma HeaderAssociates(a: string, b: string)
    ensures "@@ -" + a + " +" + b + " @@\n" == "@@ -" + (a + (" +" + (b + " @@"))) + "\n"
  {
    assert " @@\n" == " @@" + "\n";
  }

  // Reading `Num(n)` between `pre` and a non-digit gives `n` back exactly when `n` fits.
  lemma {:induction false} DigitsOfNum(pre: string, n: nat, post: string)
    requires post == "" || !IsDigit(post[0])
    ensures var line := pre + (Num(n) + post);
            NumberAt(line, |pre|) == if Fits(n) then Some((n, |pre| + |Num(n)|)) else None
  {
    var line := pre + (Num(n) + post);
    assert line[|pre|] == Num(n)[0];
    NumPrefix(pre, n, post);
    var q := |pre| + |Num(n)|;
    assert q < |line| ==> line[q] == post[0];
  }

  // After the digits of `n` the scan holds `n`, unless an earlier digit was refused.
  lemma {:induction false} NumPrefix(pre: string, n: nat, post: string)
    ensures var line := pre + (Num(n) + post);
            Digits(line, |pre|, 0) == if Fits(n) then Digits(line, |pre| + |Num(n)|, n) else None
    decreases n
  {
    var line := pre + (Num(n) + post);
    var last := |pre| + |Num(n)| - 1;
    if n < 10 {
      assert line[last] == Digit(n);
      assert Fits(n);
    } else {
      var rest := [Digit(n % 10)] + post;
      assert line == pre + (Num(n / 10) + rest);
      NumPrefix(pre, n / 10, rest);
      assert line[last] == Digit(n % 10);
      assert n / 10 <= LIMIT ==> Fits(n / 10);
    }
  }

  lemma SideReadsBack(pre: string, start: nat, count: nat, post: string)
    requires post != "" && !IsDigit(post[0]) && post[0] != ','
    ensures var line := pre + (Side(start, count) + post);
            SideAt(line, |pre|) == if Fits(Written(start, count)) && Fits(count)
                                   then Some((Written(start, count), count, |pre| + |Side(start, count)|)) else None
  {
    var line := pre + (Side(start, count) + post);
    var w := Written(start, count);
    if count == 1 {
      assert Side(start, count) == Num(w);
      DigitsOfNum(pre, w, post);
      assert line[|pre| + |Num(w)|] == post[0];
    } else {
      var tail := "," + Num(count) + post;
      assert line == pre + (Num(w) + tail);
      DigitsOfNum(pre, w, tail);
      var pre' := pre + Num(w) + ",";
      assert line == pre' + (Num(count) + post);
      DigitsOfNum(pre', count, post);
      assert line[|pre| + |Num(w)|] == ',';
    }
  }

  lemma HeaderPieces(sa: string, sb: string)
    ensures var line := "@@ -" + (sa + (" +" + (sb + " @@")));
            var p := 4 + |sa|;
            && |line| == p + 2 + |sb| + 3 && line[..4] == "@@ -" && line[p] == ' ' && line[p + 1] == '+'
            && line == ("@@ -" + sa + " +") + (sb + " @@") && line[p + 2 + |sb|..] == " @@"
  {
  }

  /** A printed header reads back as its written numbers exactly when all of them fit. */
  lemma HeaderReadsBack(h: Header)
    ensures ParseHeader(HeaderLine(h)) ==
            if HeaderFits(h) then Some(Header(Written(h.aStart, h.aCount), h.aCount, Written(h.bStart, h.bCount), h.bCount))
            else None
  {
    var sa, sb := Side(h.aStart, h.aCount), Side(h.bStart, h.bCount);
    HeaderPieces(sa, sb);
    SideReadsBack("@@ -", h.aStart, h.aCount, " +" + (sb + " @@"));
    SideReadsBack("@@ -" + sa + " +", h.bStart, h.bCount, " @@");
    var line := HeaderLine(h);
    assert SideAt(line, 6 + |sa|) == SideAt(("@@ -" + sa + " +") + (sb + " @@"), 6 + |sa|);
  }

  lemma HeaderHasNoNewline(h: Header)
    ensures NoNewline(HeaderLine(h)) && "@@ -" <= HeaderLine(h)
  {
    assert NoNewline(Side(h.aStart, h.aCount)) && NoNewline(Side(h.bStart, h.bCount));
    assert HeaderLine(h)[..4] == "@@ -";
  }
}
