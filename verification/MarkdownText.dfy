/** What the Markdown renderer of core/src/markdown.cpp shows literally. */
module MarkdownText {
  import opened Text
  import opened Html
  import opened MarkdownTree

  // ---- text that means itself ---------------------------------------------

  /** What the line from `i` on shows, when nothing in it but backslashes means more than itself. */
  function LiteralFrom(s: string, i: nat): Option<string>
    requires i <= |s|
    decreases |s| - i
  {
    if i == |s| then Some("")
    else if Escapes(s, i) then Prepend(s[i + 1], LiteralFrom(s, i + 2))
    else if s[i] == '`' || s[i] == '[' || s[i] == '*' || s[i] == '_' || (s[i] == 'h' && UrlStarts(s, i)) then None
    else Prepend(s[i], LiteralFrom(s, i + 1))
  }

  function Prepend(c: char, rest: Option<string>): Option<string> {
    if rest.None? then None else Some([c] + rest.value)
  }

  lemma EscapeUnfolds(c: char, rest: string)
    ensures EscapeHtml([c] + rest) == EscapeHtml([c]) + EscapeHtml(rest)
    ensures EscapeHtml([c]) != ""
  {
    assert ([c] + rest)[1..] == rest && [c][1..] == "";
    assert EscapeHtml("") == "";
  }

  lemma NoSpecial(n: nat, opts: Options, s: string, i: nat, depth: nat)
    requires i < |s| && depth <= MAX_INLINE_DEPTH && !Escapes(s, i) && LiteralFrom(s, i).Some?
    ensures SpecialAt(n, opts, s, i, depth) == None
  {
    hide UrlStarts, Ahead;
    assert LiteralFrom(s, i + 1).Some?;
  }

  /** How many characters of a text are printed, from a size of the output on: the cap is tested before each. */
  function Kept(n: nat, cap: nat, t: string): (k: nat)
    ensures k <= |t|
    decreases |t|
  {
    if t == "" || n >= cap then 0 else 1 + Kept(n + |EscapeHtml([t[0]])|, cap, t[1..])
  }

  /** A text is printed whole exactly when what comes before its last character is under the cap. */
  lemma {:induction false} KeptWhole(n: nat, cap: nat, t: string)
    ensures Kept(n, cap, t) == |t| <==> t == "" || n + |EscapeHtml(t[..|t| - 1])| < cap
    decreases |t|
  {
    hide EscapeHtml;
    if t != "" {
      EscapeOfNothing();
      KeptWhole(n + |EscapeHtml([t[0]])|, cap, t[1..]);
      if |t| > 1 {
        EscapeUnfolds(t[0], t[1..][..|t| - 2]);
        assert t[..|t| - 1] == [t[0]] + t[1..][..|t| - 2];
      } else {
        assert t[..|t| - 1] == "";
      }
    }
  }

  /** The character that the line shows at `i`, and where the next one is. */
  function ShownAt(s: string, i: nat): (char, nat)
    requires i < |s|
  {
    if Escapes(s, i) then (s[i + 1], i + 2) else (s[i], i + 1)
  }

  lemma ShownStep(n: nat, opts: Options, s: string, i: nat, depth: nat)
    requires i < |s| && depth <= MAX_INLINE_DEPTH && LiteralFrom(s, i).Some? && n < opts.maxOutput
    ensures var (c, next) := ShownAt(s, i);
            && i < next <= |s| && LiteralFrom(s, next).Some? && LiteralFrom(s, i).value == [c] + LiteralFrom(s, next).value
            && InlineFrom(n, opts, s, i, depth) == [Words([c])] + InlineFrom(n + |EscapeHtml([c])|, opts, s, next, depth)
  {
    hide EscapeHtml, SpecialAt, UrlStarts;
    if !Escapes(s, i) {
      NoSpecial(n, opts, s, i, depth);
    }
  }

  /** Such a line prints as the part of its text that is kept. */
  lemma {:induction false} LiteralPrints(n: nat, opts: Options, s: string, i: nat, depth: nat)
    requires i <= |s| && depth <= MAX_INLINE_DEPTH && LiteralFrom(s, i).Some?
    ensures var t := LiteralFrom(s, i).value;
            PrintAll(InlineFrom(n, opts, s, i, depth)) == EscapeHtml(t[..Kept(n, opts.maxOutput, t)])
    decreases |s| - i
  {
    hide EscapeHtml, SpanAt, ShownAt;
    if i < |s| && n < opts.maxOutput {
      hide LiteralFrom, InlineFrom, Kept;
      ShownStep(n, opts, s, i, depth);
      var (c, next) := ShownAt(s, i);
      var rest, m := LiteralFrom(s, next).value, n + |EscapeHtml([c])|;
      LiteralPrints(m, opts, s, next, depth);
      assert ([Words([c])] + InlineFrom(m, opts, s, next, depth))[1..] == InlineFrom(m, opts, s, next, depth);
      KeptStep(n, opts.maxOutput, c, rest);
    } else {
      EscapeOfNothing();
    }
  }

  lemma KeptStep(n: nat, cap: nat, c: char, rest: string)
    requires n < cap
    ensures var t, k := [c] + rest, Kept(n + |EscapeHtml([c])|, cap, rest);
            Kept(n, cap, t) == 1 + k && EscapeHtml(t[..1 + k]) == EscapeHtml([c]) + EscapeHtml(rest[..k])
  {
    hide EscapeHtml;
    var t, k := [c] + rest, Kept(n + |EscapeHtml([c])|, cap, rest);
    assert t[1..] == rest && t[..1 + k] == [c] + rest[..k];
    EscapeUnfolds(c, rest[..k]);
  }

  lemma EscapeOfNothing()
    ensures EscapeHtml("") == ""
  {
  }

  /** A text with a backslash before every punctuation character. */
  function Protected(t: string): string {
    if t == "" then "" else (if IsPunct(t[0]) then ['\\', t[0]] else [t[0]]) + Protected(t[1..])
  }

  /** No colon of a protected text is bare. */
  lemma {:induction false} ColonsProtected(t: string, k: nat)
    requires k < |Protected(t)| && Protected(t)[k] == ':'
    ensures k > 0 && Protected(t)[k - 1] == '\\'
  {
    var head := if IsPunct(t[0]) then ['\\', t[0]] else [t[0]];
    if k >= |head| {
      ColonsProtected(t[1..], k - |head|);
    }
  }

  lemma NoUrl(s: string, i: nat)
    requires i <= |s| && forall k :: i < k < |s| && s[k] == ':' ==> s[k - 1] == '\\'
    ensures !UrlStarts(s, i)
  {
    if UrlStarts(s, i) {
      var k := UrlColon(s, i);
      assert false;
    }
  }

  lemma UrlColon(s: string, i: nat) returns (k: nat)
    requires UrlStarts(s, i)
    ensures i < k < |s| && s[k] == ':' && s[k - 1] != '\\'
  {
    var t := s[i..];
    if "http://" <= t {
      k := i + 4;
      assert t[4] == "http://"[4] && t[3] == "http://"[3];
    } else {
      k := i + 5;
      assert t[5] == "https://"[5] && t[4] == "https://"[4];
    }
    assert s[k] == t[k - i] && s[k - 1] == t[k - i - 1];
  }

  lemma {:induction false} ProtectedIsLiteral(before: string, t: string)
    ensures LiteralFrom(before + Protected(t), |before|) == Some(t)
    decreases |t|
  {
    hide UrlStarts;
    var s, i := before + Protected(t), |before|;
    if t != "" {
      var head := if IsPunct(t[0]) then ['\\', t[0]] else [t[0]];
      ProtectedIsLiteral(before + head, t[1..]);
      Assoc(before, head, Protected(t[1..]));
      assert t == [t[0]] + t[1..];
      assert s[i] == head[0];
      if IsPunct(t[0]) {
        assert s[i + 1] == head[1] == t[0];
      } else {
        forall k | i < k < |s| && s[k] == ':'
          ensures s[k - 1] == '\\'
        {
          assert s[k] == Protected(t)[k - i] && s[k - 1] == Protected(t)[k - i - 1];
          ColonsProtected(t, k - i);
        }
        NoUrl(s, i);
      }
    }
  }

  /** A backslash before every punctuation character makes any text show as itself, cut where the output
      reaches its cap: nothing is lost exactly when what comes before the last character is under the cap. */
  lemma BackslashesProtect(n: nat, opts: Options, t: string, depth: nat)
    requires depth <= MAX_INLINE_DEPTH
    ensures var shown, kept := PrintAll(Inline(n, opts, Protected(t), depth)), Kept(n, opts.maxOutput, t);
            && shown == EscapeHtml(t[..kept]) && Unescape(shown) == t[..kept]
            && (Unescape(shown) == t <==> t == "" || n + |EscapeHtml(t[..|t| - 1])| < opts.maxOutput)
  {
    hide EscapeHtml, Unescape, InlineFrom, Kept;
    ProtectedIsLiteral("", t);
    assert "" + Protected(t) == Protected(t);
    LiteralPrints(n, opts, Protected(t), 0, depth);
    EscapeReadsBack(t[..Kept(n, opts.maxOutput, t)]);
    KeptWhole(n, opts.maxOutput, t);
  }

  /** The rest of a text is dropped at the cap: with room for one character, the second is lost. */
  lemma SecondLetterDropped(opts: Options)
    requires opts.maxOutput == 1
    ensures PrintAll(Inline(0, opts, "ab", 0)) == "a"
  {
    hide InlineFrom;
    assert "ab"[1..] == "b" && "b"[1..] == "";
    assert Protected("b") == "b" && Protected("ab") == "ab";
    BackslashesProtect(0, opts, "ab", 0);
    EscapeUnfolds('a', "");
    assert EscapeHtml("a") == "a";
    assert Kept(0, 1, "ab") == 1 && "ab"[..1] == "a";
  }

  /** A tab counts as four columns, so indentation can be longer than its line: there the code reads past the
      end when it looks for a heading, and nothing is read here. */
  lemma TabReadsPastTheEnd()
    ensures Indent("\tx") == 4 > |"\tx"| && Mark("\tx") == '\0'
    ensures !IsBlank("\tx") && Fence("\tx") == None && !IsRule("\tx")
  {
    assert "\tx"[1..] == "x";
    assert Trim("\tx") == Trim("x") == "x";
  }

  /** Lines between fences are shown as they are, unless one of them closes the fence. */
  lemma FencedIsVerbatim(n: nat, opts: Options, lines: seq<string>, depth: nat)
    requires depth <= opts.maxNesting && n < opts.maxOutput
    requires forall i :: 0 <= i < |lines| ==> !ClosesFence(lines[i])
    ensures var page := ["```"] + lines + ["```"];
            BlocksOf(n, opts, page, 0, |page|, depth) == [CodeNode(Simple("code"), Terminate(lines)), NL]
  {
    hide ClosesFence, PrintAll;
    var page := ["```"] + lines + ["```"];
    OpeningFence();
    assert page[0] == "```" && page[|lines| + 1] == "```";
    assert forall i :: 1 <= i < |lines| + 1 ==> page[i] == lines[i - 1];
    FenceEndIs(page, 1, |lines| + 1, |page|);
    assert page[1..|lines| + 1] == lines;
    var (nodes, next) := BlockAt(n, opts, page, 0, |page|, depth);
    assert next == |page|;
    assert BlocksFrom(n + |PrintAll(nodes)|, opts, page, next, |page|, depth) == [];
    assert nodes + [] == nodes;
  }

  lemma OpeningFence()
    ensures Fence("```") == Some("") && !IsBlank("```") && ClosesFence("```")
  {
    var t := "```";
    assert Trim(t) == t;
    assert t[3..] == "";
    assert MarkRun("", '`') == 0;
    assert Trim("") == "";
  }

  lemma {:induction false} FenceEndIs(lines: seq<string>, j: nat, end: nat, upTo: nat)
    requires j <= end < upTo <= |lines| && ClosesFence(lines[end])
    requires forall i :: j <= i < end ==> !ClosesFence(lines[i])
    ensures FenceEnd(lines, j, upTo) == end
    decreases end - j
  {
    if j < end {
      FenceEndIs(lines, j + 1, end, upTo);
    }
  }
}
