/** How the pieces of a signature header of core/src/dkim.cpp read back: folded text as the header it was, the
    tag list as its tags, the folded signature as its base64, the list of names as the names; and
    emptying the b= tag gives the value that was signed. */
module DkimText {
  import opened Text
  import opened Dkim

  /** Text without blanks, line breaks or semicolons. */
  predicate Solid(s: string) {
    forall i :: 0 <= i < |s| ==> s[i] !in " \t\r\n;"
  }

  /** The first line of the message starts a header: it is neither empty nor a continuation. */
  predicate StartsHeader(s: string) {
    s != "" ==> !IsWsp(s[0]) && s[0] != '\r'
  }

  // ---- folded text --------------------------------------------------------

  /** Every line break is a CRLF with a tab after it. */
  predicate FoldedText(s: string) {
    s == "" ||
    (if s[0] == '\r' then |s| >= 3 && s[1] == '\n' && s[2] == '\t' && FoldedText(s[2..])
     else s[0] != '\n' && FoldedText(s[1..]))
  }

  lemma {:induction false} FoldedJoin(a: string, b: string)
    requires FoldedText(a) && FoldedText(b)
    ensures FoldedText(a + b)
    decreases |a|
  {
    var s := a + b;
    if a == "" {
      assert s == b;
    } else if a[0] == '\r' {
      assert s[0] == a[0] && s[1] == a[1] && s[2] == a[2] && s[2..] == a[2..] + b;
      FoldedJoin(a[2..], b);
      assert FoldedText(s[2..]);
    } else {
      assert s[0] == a[0] && s[1..] == a[1..] + b;
      FoldedJoin(a[1..], b);
      assert FoldedText(s[1..]);
    }
  }

  lemma {:induction false} OneLineFolded(s: string)
    requires OneLine(s)
    ensures FoldedText(s)
  {
    if s != "" {
      assert OneLine(s[1..]);
      OneLineFolded(s[1..]);
    }
  }

  lemma FoldIsFolded()
    ensures FoldedText(FOLD)
  {
    assert FoldedText("\t") by {
      OneLineFolded("\t");
    }
    assert FOLD[2..] == "\t";
  }

  lemma {:induction false} NormalFolded(s: string, rest: string)
    requires FoldedText(s)
    ensures Normal(s + rest) == s + Normal(rest)
    decreases |s|
  {
    var t := s + rest;
    if s == "" {
      assert t == rest && "" + Normal(rest) == Normal(rest);
    } else if s[0] == '\r' {
      NormalFolded(s[2..], rest);
      assert t[1..][0] == '\n' && t[1..][1..] == s[2..] + rest;
      assert Normal(t) == "" + Normal(t[1..]) == Normal(t[1..]);
      assert Normal(t[1..]) == "\r\n" + Normal(t[1..][1..]);
      assert s == "\r\n" + s[2..];
      Assoc("\r\n", s[2..], Normal(rest));
    } else {
      NormalFolded(s[1..], rest);
      assert t[1..] == s[1..] + rest;
      assert s == [s[0]] + s[1..];
      Assoc([s[0]], s[1..], Normal(rest));
    }
  }

  lemma GapAfterBreak(n: string)
    requires StartsHeader(n)
    ensures FindGap("\r\n" + n) == 2 + FindGap(n)
  {
    var s := "\r\n" + n;
    assert s[1..] == "\n" + n && s[1..][1..] == n;
    if |s| >= 4 {
      assert s[..4] != "\r\n\r\n" by {
        assert s[2] == n[0];
      }
      assert s[1..][0] == '\n';
      if |s| >= 5 {
        assert s[1..][..4] != "\r\n\r\n";
      }
    }
  }

  lemma {:induction false} GapFolded(s: string, n: string)
    requires FoldedText(s) && StartsHeader(n)
    ensures FindGap(s + ("\r\n" + n)) == |s| + 2 + FindGap(n)
    decreases |s|
  {
    hide FindGap;
    var t := s + ("\r\n" + n);
    if s == "" {
      assert t == "\r\n" + n;
      GapAfterBreak(n);
    } else if s[0] == '\r' {
      GapFolded(s[2..], n);
      assert t[1..][1..] == s[2..] + ("\r\n" + n);
      assert t[2] == '\t' && t[1] == '\n';
      GapSkips(t);
      GapSkips(t[1..]);
    } else {
      GapFolded(s[1..], n);
      assert t[1..] == s[1..] + ("\r\n" + n);
      GapSkips(t);
    }
  }

  lemma GapSkips(s: string)
    requires s != "" && (s[0] != '\r' || (|s| >= 3 && s[2] != '\r'))
    ensures FindGap(s) == 1 + FindGap(s[1..])
  {
    if |s| >= 4 {
      assert s[0] == s[..4][0] && s[2] == s[..4][2];
    }
  }

  // ---- header lines -------------------------------------------------------

  lemma {:induction false} CrlfFolded(s: string, m: string)
    requires FoldedText(s)
    ensures var k := IndexOf(s, '\r', 0);
            && FindCrlf(s + ("\r\n" + m)) == k
            && (k < |s| ==> k + 2 < |s| && s[k + 1] == '\n' && s[k + 2] == '\t' && FoldedText(s[k + 2..]))
    decreases |s|
  {
    var t := s + ("\r\n" + m);
    if s == "" {
      assert t == "\r\n" + m;
    } else if s[0] == '\r' {
      assert t[1] == '\n';
    } else {
      CrlfFolded(s[1..], m);
      assert t[1..] == s[1..] + ("\r\n" + m) && t[0] == s[0];
      IndexOfSuffix(s, '\r', 1);
      var k := IndexOf(s, '\r', 1);
      if k < |s| {
        assert s[1..][k - 1 + 1] == s[k + 1] && s[1..][k - 1 + 2..] == s[k + 2..];
      }
    }
  }

  lemma CutBreak(s: string, m: string, k: nat)
    requires k + 2 <= |s| && s[k] == '\r' && s[k + 1] == '\n'
    ensures var t := s + ("\r\n" + m);
            t[..k] == s[..k] && t[k + 2..] == s[k + 2..] + ("\r\n" + m) && s == s[..k] + ("\r\n" + s[k + 2..])
  {
  }

  lemma LineEnds(s: string, m: string)
    requires FoldedText(s)
    ensures var k, t := IndexOf(s, '\r', 0), s + ("\r\n" + m);
            && (k < |s| ==> k + 2 <= |s|)
            && t != "" && t[..FindCrlf(t)] == s[..k]
            && AfterCrlf(t) == (if k < |s| then s[k + 2..] + ("\r\n" + m) else m)
            && (k < |s| ==> s == s[..k] + ("\r\n" + s[k + 2..]))
  {
    hide FindCrlf, FoldedText, IndexOf;
    CrlfFolded(s, m);
    var k := IndexOf(s, '\r', 0);
    if k < |s| {
      CutBreak(s, m, k);
    }
  }

  /** A line that opens a header closes the one before it. */
  lemma Closes(m: string, h: Header)
    requires StartsHeader(m)
    ensures HeadersOf(m, Some(h)) == [h] + HeadersOf(m, None)
  {
    if m == "" {
      assert [h] + [] == [h];
    } else {
      var line := m[..FindCrlf(m)];
      assert line != "" && line[0] == m[0];
      assert [] + HeadersOf(AfterCrlf(m), Opened(line)) == HeadersOf(AfterCrlf(m), Opened(line));
    }
  }

  lemma {:induction false} Continues(s: string, m: string, h: Header)
    requires FoldedText(s) && s != "" && s[0] == '\t' && StartsHeader(m)
    ensures HeadersOf(s + ("\r\n" + m), Some(h)) == [h.(value := h.value + ("\r\n" + s))] + HeadersOf(m, None)
    decreases |s|
  {
    hide FindCrlf, AfterCrlf;
    LineEnds(s, m);
    CrlfFolded(s, m);
    var k := IndexOf(s, '\r', 0);
    var line := s[..k];
    var h' := h.(value := h.value + ("\r\n" + line));
    assert line != "" && line[0] == '\t';
    if k < |s| {
      Continues(s[k + 2..], m, h');
      Assoc(h.value, "\r\n" + line, "\r\n" + s[k + 2..]);
      Assoc("\r\n", line, "\r\n" + s[k + 2..]);
    } else {
      assert line == s;
      Closes(m, h');
    }
  }

  lemma {:induction false} FirstColon(name: string, v: string)
    requires forall i :: 0 <= i < |name| ==> name[i] != ':'
    ensures IndexOf(name + (":" + v), ':', 0) == |name|
  {
    var s := name + (":" + v);
    assert s[|name|] == ':' && forall i :: 0 <= i < |name| ==> s[i] == name[i];
  }

  lemma OpensWith(name: string, v: string)
    requires name != "" && forall i :: 0 <= i < |name| ==> name[i] != ':'
    ensures var line := name + (":" + v); Opened(line) == Some(Header(name, v)) && line[0] == name[0]
  {
    hide IndexOf;
    FirstColon(name, v);
    var line := name + (":" + v);
    assert line[|name| + 1..] == v && line[..|name|] == name;
  }

  /** The first line of a header, and the lines that continue it. */
  lemma FirstLine(name: string, v: string, k: nat)
    requires OneLine(name)
    requires k == IndexOf(name + (":" + v), '\r', 0)
    ensures |name| < k <= |name| + 1 + |v|
    ensures (name + (":" + v))[..k] == name + (":" + v[..k - |name| - 1])
    ensures k == |name| + 1 + |v| ==> v[..k - |name| - 1] == v
  {
    var s := name + (":" + v);
    assert forall i :: 0 <= i < |name| ==> s[i] == name[i];
    assert s[|name|] == ':';
    assert k < |s| ==> s[k] == '\r';
    assert s[..k] == name + (":" + v[..k - |name| - 1]);
  }

  lemma OtherLines(name: string, v: string, k: nat)
    requires var s := name + (":" + v); |name| < k && k + 2 <= |s| && s == s[..k] + ("\r\n" + s[k + 2..])
    requires (name + (":" + v))[..k] == name + (":" + v[..k - |name| - 1])
    ensures var s := name + (":" + v); v == v[..k - |name| - 1] + ("\r\n" + s[k + 2..])
  {
    var s := name + (":" + v);
    assert s[|name| + 1..] == v;
    assert s[k + 2..] == v[k - |name| + 1..];
    assert s[k] == '\r' && s[k + 1] == '\n';
  }

  /** A folded header in front of further headers. */
  lemma {:induction false} HeaderFirst(name: string, v: string, m: string)
    requires OneLine(name) && name != "" && !IsWsp(name[0]) && FoldedText(v) && StartsHeader(m)
    requires forall i :: 0 <= i < |name| ==> name[i] != ':'
    ensures HeadersOf((name + (":" + v)) + ("\r\n" + m), None) == [Header(name, v)] + HeadersOf(m, None)
  {
    hide FindCrlf, AfterCrlf, FoldedText, Opened, IndexOf, OneLine;
    var s := name + (":" + v);
    HeaderFolded(name, v);
    LineEnds(s, m);
    CrlfFolded(s, m);
    var k := IndexOf(s, '\r', 0);
    FirstLine(name, v, k);
    var line, v0 := s[..k], v[..k - |name| - 1];
    OpensWith(name, v0);
    if k < |s| {
      OtherLines(name, v, k);
      Continues(s[k + 2..], m, Header(name, v0));
    } else {
      Closes(m, Header(name, v));
    }
    assert [] + HeadersOf(AfterCrlf(s + ("\r\n" + m)), Opened(line)) == HeadersOf(AfterCrlf(s + ("\r\n" + m)), Opened(line));
  }

  lemma HeaderFolded(name: string, v: string)
    requires OneLine(name) && FoldedText(v)
    ensures FoldedText(name + (":" + v))
  {
    hide FoldedText;
    OneLineFolded(name);
    OneLineFolded(":");
    FoldedJoin(":", v);
    FoldedJoin(name, ":" + v);
  }

  /** A folded header put in front of a message becomes its first header and changes nothing else. */
  lemma {:induction false} HeaderPrepended(name: string, v: string, raw: string)
    requires OneLine(name) && name != "" && !IsWsp(name[0]) && FoldedText(v) && StartsHeader(Normal(raw))
    requires forall i :: 0 <= i < |name| ==> name[i] != ':'
    ensures var message := (name + (":" + v)) + ("\r\n" + raw);
            && MessageHeaders(message) == [Header(name, v)] + MessageHeaders(raw)
            && MessageBody(message) == MessageBody(raw)
  {
    hide FoldedText, FindGap, Normal, HeadersOf;
    var s, n := name + (":" + v), Normal(raw);
    HeaderFolded(name, v);
    NormalFolded(s, "\r\n" + raw);
    NormalBreak(raw);
    GapFolded(s, n);
    var all, gap := s + ("\r\n" + n), FindGap(n);
    var m := HeadOf(n);
    if gap < |n| {
      assert all[..|s| + 2 + gap + 2] == s + ("\r\n" + n[..gap + 2]);
      assert all[|s| + 2 + gap + 4..] == n[gap + 4..];
    }
    assert HeadOf(all) == s + ("\r\n" + m) && BodyOf(all) == BodyOf(n);
    assert m != "" ==> m[0] == n[0];
    HeaderFirst(name, v, m);
  }

  lemma NormalBreak(raw: string)
    ensures Normal("\r\n" + raw) == "\r\n" + Normal(raw)
  {
    var s := "\r\n" + raw;
    assert s[1..][0] == '\n' && s[1..][1..] == raw;
    assert Normal(s) == "" + Normal(s[1..]) == Normal(s[1..]);
  }

  // ---- tags ---------------------------------------------------------------

  predicate Has(s: string, c: char) {
    exists i :: 0 <= i < |s| && s[i] == c
  }

  predicate Blanks(s: string) {
    forall i :: 0 <= i < |s| ==> IsWsp(s[i]) || IsBreak(s[i])
  }

  /** A tag name: one or two lower-case letters. */
  predicate TagName(name: string) {
    name != "" && forall i :: 0 <= i < |name| ==> 'a' <= name[i] <= 'z'
  }

  lemma {:induction false} TrimBlanks(gap: string, name: string)
    requires Blanks(gap) && TagName(name)
    ensures TrimSpace(gap + name) == name
  {
    if gap == "" {
      assert gap + name == name;
      TrimSpaceShortens(name);
    } else {
      assert (gap + name)[0] == gap[0] && (gap + name)[1..] == gap[1..] + name;
      TrimBlanks(gap[1..], name);
    }
  }

  lemma NameRead(gap: string, name: string)
    requires Blanks(gap) && TagName(name)
    ensures ToLower(TrimSpace(gap + name)) == name
  {
    TrimBlanks(gap, name);
    ToLowerSame(name);
  }

  lemma SplitAt(a: string, c: char, b: string)
    requires !Has(a, c)
    ensures var s := a + ([c] + b); IndexOf(s, c, 0) == |a| && s[..|a|] == a && s[|a| + 1..] == b && |a| < |s|
  {
    var s := a + ([c] + b);
    assert s[|a|] == c && forall i :: 0 <= i < |a| ==> s[i] == a[i];
  }

  lemma Chunk(gap: string, name: string, value: string)
    requires Blanks(gap) && TagName(name) && !Has(value, ';')
    ensures var chunk := gap + (name + ("=" + value));
            !Has(chunk, ';') && IndexOf(chunk, '=', 0) == |gap| + |name| && chunk[..|gap| + |name|] == gap + name &&
            chunk[|gap| + |name| + 1..] == value
  {
    var chunk := gap + (name + ("=" + value));
    Assoc(gap, name, "=" + value);
    SplitAt(gap + name, '=', value);
    forall i | 0 <= i < |chunk|
      ensures chunk[i] != ';'
    {
      if i > |gap| + |name| {
        assert chunk[i] == value[i - |gap| - |name| - 1];
      }
    }
  }

  lemma NoneFound(s: string, c: char)
    requires !Has(s, c)
    ensures IndexOf(s, c, 0) == |s|
  {
  }

  lemma ChunkRead(gap: string, name: string, value: string)
    requires Blanks(gap) && TagName(name) && !Has(value, ';')
    ensures var chunk := gap + (name + ("=" + value));
            !Has(chunk, ';') && TagOf(chunk) == Some(TagPair(name, TrimSpace(Clean(value))))
  {
    hide ToLower, TrimSpace, Clean, Blanks, TagName, IndexOf;
    Chunk(gap, name, value);
    NameRead(gap, name);
  }

  lemma TagsOfChunk(chunk: string, rest: string)
    requires !Has(chunk, ';')
    ensures var s := chunk + ([';'] + rest); s != "" && ChunkOf(s) == chunk && AfterChunk(s) == rest
  {
    hide IndexOf, Has;
    SplitAt(chunk, ';', rest);
  }

  lemma TagRead(gap: string, name: string, value: string, rest: string)
    requires Blanks(gap) && TagName(name) && !Has(value, ';')
    ensures TagsOf(TagText(gap, name, value, rest)) == [TagPair(name, TrimSpace(Clean(value)))] + TagsOf(rest)
  {
    hide ToLower, TrimSpace, Clean, Blanks, TagName, Has, TagOf, ChunkOf, AfterChunk;
    var chunk := gap + (name + ("=" + value));
    ChunkRead(gap, name, value);
    Assoc(gap, name + ("=" + value), ";" + rest);
    Assoc(name, "=" + value, ";" + rest);
    Assoc("=", value, ";" + rest);
    TagsOfChunk(chunk, rest);
    assert TagText(gap, name, value, rest) == chunk + ([';'] + rest);
  }

  lemma LastTagRead(gap: string, name: string, value: string)
    requires Blanks(gap) && TagName(name) && !Has(value, ';')
    ensures TagsOf(gap + (name + ("=" + value))) == [TagPair(name, TrimSpace(Clean(value)))]
  {
    hide ToLower, TrimSpace, Clean, Blanks, TagName, TagOf;
    var chunk := gap + (name + ("=" + value));
    ChunkRead(gap, name, value);
    NoneFound(chunk, ';');
    assert chunk[..|chunk|] == chunk;
    assert [TagPair(name, TrimSpace(Clean(value)))] + TagsOf("") == [TagPair(name, TrimSpace(Clean(value)))];
  }

  lemma SolidRead(v: string)
    requires Solid(v)
    ensures TrimSpace(Clean(v)) == v && !Has(v, ';') && OneLine(v)
  {
    CleanOneLine(v);
    TrimSpaceShortens(v);
  }

  // ---- the signature value ------------------------------------------------

  lemma TagTextAppend(gap: string, name: string, value: string, rest: string, more: string)
    ensures TagText(gap, name, value, rest) + more == TagText(gap, name, value, rest + more)
  {
    Assoc(gap, name + ("=" + (value + (";" + rest))), more);
    Assoc(name, "=" + (value + (";" + rest)), more);
    Assoc("=", value + (";" + rest), more);
    Assoc(value, ";" + rest, more);
    Assoc(";", rest, more);
  }

  lemma ChainAppend(a: string, c: string, d: string, s: string, t: string, h: string, bh: string, last: string, more: string)
    ensures Chain(a, c, d, s, t, h, bh, last) + more == Chain(a, c, d, s, t, h, bh, last + more)
  {
    hide TagText, CanonTag;
    var r8 := TagText(FOLD, "bh", bh, last);
    var r7 := TagText(FOLD, "h", h, r8);
    var r6 := TagText(FOLD, "t", t, r7);
    var r5 := TagText(" ", "s", s, r6);
    var r4 := TagText(FOLD, "d", d, r5);
    var r3 := CanonTag(c, r4);
    var r2 := TagText(" ", "a", a, r3);
    TagTextAppend(FOLD, "bh", bh, last, more);
    TagTextAppend(FOLD, "h", h, r8, more);
    TagTextAppend(FOLD, "t", t, r7, more);
    TagTextAppend(" ", "s", s, r6, more);
    TagTextAppend(FOLD, "d", d, r5, more);
    CanonTagAppend(c, r4, more);
    TagTextAppend(" ", "a", a, r3, more);
    TagTextAppend(" ", "v", "1", r2, more);
  }

  lemma TagTextFolded(gap: string, name: string, value: string, rest: string)
    requires FoldedText(gap) && TagName(name) && OneLine(value) && FoldedText(rest)
    ensures FoldedText(TagText(gap, name, value, rest))
  {
    hide FoldedText;
    OneLineFolded(name);
    OneLineFolded("=");
    OneLineFolded(value);
    OneLineFolded(";");
    FoldedJoin(";", rest);
    FoldedJoin(value, ";" + rest);
    FoldedJoin("=", value + (";" + rest));
    FoldedJoin(name, "=" + (value + (";" + rest)));
    FoldedJoin(gap, name + ("=" + (value + (";" + rest))));
  }

  lemma ChainFolded(a: string, c: string, d: string, s: string, t: string, h: string, bh: string, last: string)
    requires OneLine(a) && OneLine(c) && OneLine(d) && OneLine(s) && OneLine(t) && OneLine(h) && OneLine(bh) && FoldedText(last)
    ensures FoldedText(Chain(a, c, d, s, t, h, bh, last))
  {
    hide FoldedText, TagText, CanonTag, OneLine;
    FoldIsFolded();
    OneLineFolded(" ") by {
      assert OneLine(" ") by {
        Plain(" ");
      }
    }
    assert OneLine("1") by {
      Plain("1");
    }
    var r8 := TagText(FOLD, "bh", bh, last);
    var r7 := TagText(FOLD, "h", h, r8);
    var r6 := TagText(FOLD, "t", t, r7);
    var r5 := TagText(" ", "s", s, r6);
    var r4 := TagText(FOLD, "d", d, r5);
    var r3 := CanonTag(c, r4);
    var r2 := TagText(" ", "a", a, r3);
    TagTextFolded(FOLD, "bh", bh, last);
    TagTextFolded(FOLD, "h", h, r8);
    TagTextFolded(FOLD, "t", t, r7);
    TagTextFolded(" ", "s", s, r6);
    TagTextFolded(FOLD, "d", d, r5);
    CanonTagFolded(c, r4);
    TagTextFolded(" ", "a", a, r3);
    TagTextFolded(" ", "v", "1", r2);
  }

  lemma Plain(s: string)
    requires forall i :: 0 <= i < |s| ==> s[i] != '\r' && s[i] != '\n'
    ensures OneLine(s)
  {
  }

  /** The tags of a signature; a c= tag that is empty is not there. */
  function TagPairs(v: string, a: string, c: string, d: string, s: string, t: string, h: string, bh: string, b: string): seq<TagPair> {
    [TagPair("v", v)] + ([TagPair("a", a)] + ((if c == "" then [] else [TagPair("c", c)]) +
    [TagPair("d", d), TagPair("s", s), TagPair("t", t), TagPair("h", h), TagPair("bh", bh), TagPair("b", b)]))
  }

  lemma CanonTagRead(c: string, rest: string)
    requires !Has(c, ';') && TrimSpace(Clean(c)) == c
    ensures TagsOf(CanonTag(c, rest)) == (if c == "" then [] else [TagPair("c", c)]) + TagsOf(rest)
  {
    hide TagsOf, Clean, TrimSpace, Has, TagText;
    ChainNames();
    if c == "" {
      assert [] + TagsOf(rest) == TagsOf(rest);
    } else {
      TagRead(" ", "c", c, rest);
    }
  }

  lemma CanonTagAppend(c: string, rest: string, more: string)
    ensures CanonTag(c, rest) + more == CanonTag(c, rest + more)
  {
    TagTextAppend(" ", "c", c, rest, more);
  }

  lemma CanonTagFolded(c: string, rest: string)
    requires OneLine(c) && FoldedText(rest)
    ensures FoldedText(CanonTag(c, rest))
  {
    hide FoldedText;
    Plain(" ");
    OneLineFolded(" ");
    TagTextFolded(" ", "c", c, rest);
  }

  lemma PassCanonTag(c: string, rest: string, signed: string)
    requires !Has(c, ';') && FindB(rest, true) == |signed| - 2
    ensures FindB(CanonTag(c, rest), true) == |CanonTag(c, signed)| - 2
  {
    hide FindB, Has, TagText;
    ChainNames();
    if c != "" {
      PassTag(" ", "c", c, rest, signed);
    }
  }

  /** The tags that the verifier reads. */
  lemma ChainRead(a: string, c: string, d: string, s: string, t: string, h: string, bh: string, b: string)
    requires Solid(a) && Solid(c) && Solid(d) && Solid(s) && Solid(t) && Solid(h) && Solid(bh) && !Has(b, ';')
    ensures TagsOf(Chain(a, c, d, s, t, h, bh, FOLD + ("b" + ("=" + b)))) ==
            TagPairs("1", a, c, d, s, t, h, bh, TrimSpace(Clean(b)))
  {
    hide TagsOf, TrimSpace, Clean, Solid, TagText, Has, CanonTag;
    SolidRead(a);
    SolidRead(c);
    SolidRead(d);
    SolidRead(s);
    SolidRead(t);
    SolidRead(h);
    SolidRead(bh);
    LiteralsAreSolid();
    SolidRead("1");
    var r9 := FOLD + ("b" + ("=" + b));
    var r8 := TagText(FOLD, "bh", bh, r9);
    var r7 := TagText(FOLD, "h", h, r8);
    var r6 := TagText(FOLD, "t", t, r7);
    var r5 := TagText(" ", "s", s, r6);
    var r4 := TagText(FOLD, "d", d, r5);
    var r3 := CanonTag(c, r4);
    var r2 := TagText(" ", "a", a, r3);
    LastTagRead(FOLD, "b", b);
    TagRead(FOLD, "bh", bh, r9);
    TagRead(FOLD, "h", h, r8);
    TagRead(FOLD, "t", t, r7);
    TagRead(" ", "s", s, r6);
    TagRead(FOLD, "d", d, r5);
    CanonTagRead(c, r4);
    TagRead(" ", "a", a, r3);
    TagRead(" ", "v", "1", r2);
  }

  lemma ChainNames()
    ensures Blanks(" ") && Blanks(FOLD)
    ensures TagName("v") && TagName("a") && TagName("c") && TagName("d") && TagName("s") && TagName("t") && TagName("h") && TagName("bh")
    ensures TagName("b")
  {
  }

  lemma LiteralsAreSolid()
    ensures Solid("1") && Solid("ed25519-sha256") && Solid("rsa-sha256")
  {
  }

  // ---- finding b= ---------------------------------------------------------

  lemma {:induction false} SkipToSemicolon(s: string, rest: string)
    requires !Has(s, ';')
    ensures FindB(s + (";" + rest), false) == |s| + 1 + FindB(rest, true)
  {
    var t := s + (";" + rest);
    if s == "" {
      assert t == ";" + rest && t[1..] == rest;
      if rest == "" {
        assert t[1..] == "";
      }
    } else {
      assert t[0] == s[0] && t[1..] == s[1..] + (";" + rest);
      assert s[0] != ';';
      assert !Has(s[1..], ';') by {
        assert forall i :: 0 <= i < |s| - 1 ==> s[1..][i] == s[i + 1];
      }
      SkipToSemicolon(s[1..], rest);
    }
  }

  lemma {:induction false} SkipBlanks(gap: string, s: string)
    requires Blanks(gap) && |s| >= 2
    ensures FindB(gap + s, true) == |gap| + FindB(s, true)
  {
    var t := gap + s;
    if gap == "" {
      assert t == s;
    } else {
      assert t[0] == gap[0] && t[1..] == gap[1..] + s;
      SkipBlanks(gap[1..], s);
    }
  }

  /** A tag that is not `b` is passed over. */
  lemma SkipTag(gap: string, name: string, value: string, rest: string)
    requires Blanks(gap) && TagName(name) && name != "b" && !Has(value, ';')
    ensures FindB(TagText(gap, name, value, rest), true) == |TagText(gap, name, value, "")| + FindB(rest, true)
  {
    hide Blanks;
    var inner := name[1..] + ("=" + value);
    var s := name + ("=" + (value + (";" + rest)));
    SkipBlanks(gap, s);
    assert s[0] == name[0];
    assert s[1..] == inner + (";" + rest) by {
      assert name == [name[0]] + name[1..];
    }
    assert !Has(inner, ';') by {
      forall i | 0 <= i < |inner|
        ensures inner[i] != ';'
      {
        if i < |name| - 1 {
          assert inner[i] == name[i + 1];
        } else if i >= |name| {
          assert inner[i] == value[i - |name|];
        }
      }
    }
    SkipToSemicolon(inner, rest);
    if name[0] == 'b' {
      assert |name| > 1 && s[1] == name[1];
    }
    assert FindB(s, true) == 1 + FindB(s[1..], false);
  }

  /** The same, when the b= tag is the last thing in `rest` and `signed` is `rest` without its value. */
  lemma PassTag(gap: string, name: string, value: string, rest: string, signed: string)
    requires Blanks(gap) && TagName(name) && name != "b" && !Has(value, ';')
    requires FindB(rest, true) == |signed| - 2
    ensures FindB(TagText(gap, name, value, rest), true) == |TagText(gap, name, value, signed)| - 2
  {
    hide FindB, Has, Blanks, TagName;
    SkipTag(gap, name, value, rest);
  }

  lemma ChainFindsB(a: string, c: string, d: string, s: string, t: string, h: string, bh: string, b: string)
    requires !Has(a, ';') && !Has(c, ';') && !Has(d, ';') && !Has(s, ';') && !Has(t, ';') && !Has(h, ';') && !Has(bh, ';')
    ensures FindB(Chain(a, c, d, s, t, h, bh, FOLD + ("b" + ("=" + b))), true) == |Chain(a, c, d, s, t, h, bh, FOLD + "b=")| - 2
  {
    hide FindB, Has, TagText, CanonTag, Solid, OneLine, Clean, TrimSpace, Blanks, TagName;
    ChainNames();
    LiteralsAreSolid();
    SolidRead("1");
    var r9, q9 := FOLD + ("b" + ("=" + b)), FOLD + "b=";
    var r8, q8 := TagText(FOLD, "bh", bh, r9), TagText(FOLD, "bh", bh, q9);
    var r7, q7 := TagText(FOLD, "h", h, r8), TagText(FOLD, "h", h, q8);
    var r6, q6 := TagText(FOLD, "t", t, r7), TagText(FOLD, "t", t, q7);
    var r5, q5 := TagText(" ", "s", s, r6), TagText(" ", "s", s, q6);
    var r4, q4 := TagText(FOLD, "d", d, r5), TagText(FOLD, "d", d, q5);
    var r3, q3 := CanonTag(c, r4), CanonTag(c, q4);
    var r2, q2 := TagText(" ", "a", a, r3), TagText(" ", "a", a, q3);
    FindsLastB(b);
    PassTag(FOLD, "bh", bh, r9, q9);
    PassTag(FOLD, "h", h, r8, q8);
    PassTag(FOLD, "t", t, r7, q7);
    PassTag(" ", "s", s, r6, q6);
    PassTag(FOLD, "d", d, r5, q5);
    PassCanonTag(c, r4, q4);
    PassTag(" ", "a", a, r3, q3);
    PassTag(" ", "v", "1", r2, q2);
  }

  lemma FindsLastB(b: string)
    ensures FindB(FOLD + ("b" + ("=" + b)), true) == 3
  {
    var s := "b" + ("=" + b);
    assert s[0] == 'b' && s[1] == '=';
    SkipBlanks(FOLD, s);
  }

  /** Emptying the b= tag of the finished header gives back the value that was signed. */
  lemma EmptiedChain(a: string, c: string, d: string, s: string, t: string, h: string, bh: string, b: string)
    requires !Has(a, ';') && !Has(c, ';') && !Has(d, ';') && !Has(s, ';') && !Has(t, ';') && !Has(h, ';') && !Has(bh, ';') && !Has(b, ';')
    ensures EmptyB(Chain(a, c, d, s, t, h, bh, FOLD + "b=") + b) == Chain(a, c, d, s, t, h, bh, FOLD + "b=")
  {
    hide FindB, Chain;
    var v := Chain(a, c, d, s, t, h, bh, FOLD + "b=");
    ChainAppend(a, c, d, s, t, h, bh, FOLD + "b=", b);
    assert (FOLD + "b=") + b == FOLD + ("b" + ("=" + b));
    ChainFindsB(a, c, d, s, t, h, bh, b);
    ChainEnds(a, c, d, s, t, h, bh);
    var value, at := v + b, |v| - 2;
    assert value[at..] == "b=" + b;
    NoneOf("b=", b);
    NoneFound("b=" + b, ';');
    IndexOfSuffix(value, ';', at);
    assert value[..at + 2] == v && value[|value|..] == "";
  }

  lemma ChainEnds(a: string, c: string, d: string, s: string, t: string, h: string, bh: string)
    ensures var v := Chain(a, c, d, s, t, h, bh, FOLD + "b="); |v| >= 2 && v[|v| - 2..] == "b="
  {
    hide TagText;
    assert FOLD + "b=" == FOLD + "b=";
    ChainAppend(a, c, d, s, t, h, bh, FOLD, "b=");
  }

  // ---- the folded signature -----------------------------------------------

  lemma {:induction false} StripJoin(a: string, b: string)
    ensures StripWsp(a + b) == StripWsp(a) + StripWsp(b)
  {
    if a == "" {
      assert a + b == b;
    } else {
      assert (a + b)[0] == a[0] && (a + b)[1..] == a[1..] + b;
      StripJoin(a[1..], b);
    }
  }

  lemma {:induction false} StripSolid(s: string)
    requires Solid(s)
    ensures StripWsp(s) == s
  {
    if s != "" {
      StripSolid(s[1..]);
      assert s == [s[0]] + s[1..];
      assert s[0] !in " \t\r\n;";
    }
  }

  lemma StripFold()
    ensures StripWsp(FOLD) == ""
  {
    assert FOLD[1..] == "\n\t" && "\n\t"[1..] == "\t" && "\t"[1..] == "";
    assert StripWsp("\t") == "";
    assert StripWsp("\n\t") == "";
  }

  lemma {:induction false} FoldedReadsBack(b64: string)
    requires Solid(b64)
    ensures StripWsp(Folded(b64)) == b64 && !Has(Folded(b64), ';') && FoldedText(Folded(b64))
    decreases |b64|
  {
    hide FoldedText, StripWsp, Has, TrimSpace, Clean, OneLine;
    if |b64| <= 64 {
      StripSolid(b64);
      SolidRead(b64);
      OneLineFolded(b64);
    } else {
      var a, rest := b64[..64], b64[64..];
      assert Solid(a) && Solid(rest);
      FoldedReadsBack(rest);
      SolidRead(a);
      OneLineFolded(a);
      StripSolid(a);
      StripFold();
      StripJoin(FOLD, Folded(rest));
      StripJoin(a, FOLD + Folded(rest));
      FoldIsFolded();
      FoldedJoin(FOLD, Folded(rest));
      FoldedJoin(a, FOLD + Folded(rest));
      NoneOf(a, FOLD + Folded(rest));
      NoneOf(FOLD, Folded(rest));
      FoldHasNone();
      assert b64 == a + rest;
    }
  }

  lemma FoldHasNone()
    ensures !Has(FOLD, ';')
  {
  }

  lemma NoneOf(a: string, b: string)
    ensures Has(a + b, ';') <==> Has(a, ';') || Has(b, ';')
  {
    if Has(a, ';') {
      var i :| 0 <= i < |a| && a[i] == ';';
      assert (a + b)[i] == ';';
    }
    if Has(b, ';') {
      var i :| 0 <= i < |b| && b[i] == ';';
      assert (a + b)[|a| + i] == ';';
    }
  }

  lemma {:induction false} StripClean(s: string)
    ensures StripWsp(Clean(s)) == StripWsp(s)
  {
    if s != "" {
      StripClean(s[1..]);
      var head := if IsBreak(s[0]) then "" else [s[0]];
      StripJoin(head, Clean(s[1..]));
      assert StripWsp(head) == if IsWsp(s[0]) || IsBreak(s[0]) then "" else [s[0]];
    }
  }

  lemma {:induction false} StripTrim(s: string)
    ensures StripWsp(TrimSpace(s)) == StripWsp(s)
    decreases |s|
  {
    if s != "" && s[0] in " \t\r\n" {
      StripTrim(s[1..]);
    } else if s != "" && s[|s| - 1] in " \t\r\n" {
      var front := s[..|s| - 1];
      StripTrim(front);
      assert s == front + [s[|s| - 1]];
      StripJoin(front, [s[|s| - 1]]);
      assert StripWsp([s[|s| - 1]]) == "";
    }
  }

  // ---- the list of names --------------------------------------------------

  /** A name as the lists hold it: lower case, not empty, without colons, and here without blanks. */
  predicate ListName(w: string) {
    w != "" && Solid(w) && !Has(w, ':') && ToLower(w) == w
  }

  predicate AllListNames(names: seq<string>) {
    names == [] || (ListName(names[0]) && AllListNames(names[1..]))
  }

  predicate AllSolid(names: seq<string>) {
    names == [] || (Solid(names[0]) && AllSolid(names[1..]))
  }

  lemma {:induction false} NamesStep(w: string, rest: string)
    requires w != "" && !Has(w, ':') && ToLower(TrimSpace(w)) == w
    ensures NamesOf(w + ([':'] + rest)) == [w] + NamesOf(rest)
  {
    hide ToLower, TrimSpace, IndexOf, Has;
    SplitAt(w, ':', rest);
  }

  lemma NamesSingle(w: string)
    requires w != "" && !Has(w, ':') && ToLower(TrimSpace(w)) == w
    ensures NamesOf(w) == [w]
  {
    hide ToLower, TrimSpace, IndexOf;
    NoneFound(w, ':');
    assert w[..|w|] == w && [w] + [] == [w];
  }

  lemma SolidJoin(a: string, b: string)
    requires Solid(a) && Solid(b)
    ensures Solid(a + (":" + b))
  {
  }

  lemma {:induction false} ListReadsBack(names: seq<string>)
    requires AllListNames(names)
    ensures NamesOf(Colons(names)) == names && Solid(Colons(names)) && (names != [] ==> Colons(names) != "")
  {
    hide ToLower, TrimSpace, Has, Clean, OneLine, Solid, NamesOf;
    if names == [] {
      NoNames();
      LiteralsAreSolid();
    } else {
      var w := names[0];
      ListNameTrims(w);
      if |names| == 1 {
        NamesSingle(w);
        assert names == [w];
      } else {
        ListReadsBack(names[1..]);
        NamesStep(w, Colons(names[1..]));
        SolidJoin(w, Colons(names[1..]));
        assert names == [w] + names[1..];
      }
    }
  }

  lemma ListNameTrims(w: string)
    requires ListName(w)
    ensures ToLower(TrimSpace(w)) == w
  {
    hide ToLower, Has;
    TrimSpaceShortens(w);
  }

  lemma NoNames()
    ensures NamesOf("") == [] && Solid("")
  {
    assert ""[..0] == "";
  }

  lemma {:induction false} TrimKeeps(s: string, c: char)
    requires !Has(s, c)
    ensures !Has(TrimSpace(s), c)
    decreases |s|
  {
    if s != "" && s[0] in " \t\r\n" {
      assert forall i :: 0 <= i < |s| - 1 ==> s[1..][i] == s[i + 1];
      TrimKeeps(s[1..], c);
    } else if s != "" && s[|s| - 1] in " \t\r\n" {
      TrimKeeps(s[..|s| - 1], c);
    }
  }

  lemma LowerKeeps(s: string)
    requires !Has(s, ':')
    ensures !Has(ToLower(s), ':') && ToLower(ToLower(s)) == ToLower(s)
  {
    hide ToLower;
    forall i | 0 <= i < |s|
      ensures ToLower(s)[i] != ':' && !('A' <= ToLower(s)[i] <= 'Z')
    {
      ToLowerAt(s, i);
    }
    ToLowerSame(ToLower(s));
  }

  predicate Lowered(names: seq<string>) {
    names == [] || (names[0] != "" && !Has(names[0], ':') && ToLower(names[0]) == names[0] && Lowered(names[1..]))
  }

  lemma {:induction false} NamesAreLowered(list: string)
    ensures Lowered(NamesOf(list))
    decreases |list|
  {
    hide ToLower, TrimSpace;
    var colon := IndexOf(list, ':', 0);
    TrimKeeps(list[..colon], ':');
    LowerKeeps(TrimSpace(list[..colon]));
    if colon < |list| {
      NamesAreLowered(list[colon + 1..]);
    }
    var name, rest := ToLower(TrimSpace(list[..colon])), if colon == |list| then [] else NamesOf(list[colon + 1..]);
    assert Lowered(rest);
    assert ([name] + rest)[1..] == rest && [] + rest == rest;
  }

  lemma {:induction false} PresentAreLowered(headers: seq<Header>, names: seq<string>)
    requires Lowered(names)
    ensures Lowered(Present(headers, names))
  {
    hide ToLower, NameOf, Has;
    if names != [] {
      PresentAreLowered(headers, names[1..]);
      var rest := Present(headers, names[1..]);
      assert ([names[0]] + rest)[1..] == rest && [] + rest == rest;
    }
  }

  lemma {:induction false} LoweredAndSolid(names: seq<string>)
    requires Lowered(names) && AllSolid(names)
    ensures AllListNames(names)
  {
    hide ToLower, Has, Solid;
    if names != [] {
      LoweredAndSolid(names[1..]);
    }
  }

}
