/** What a Markdown page shows: the HTML of its document. */
module MarkdownShows {
  import opened Text
  import opened Html
  import opened MarkdownTree
  import opened MarkdownDoc
  import opened MarkdownSpans
  import opened MarkdownPages
  import opened MarkdownNests

  /** A line that stands in a text by itself. */
  predicate WholeLine(l: string) {
    NoNewline(l) && (l == "" || l[|l| - 1] != '\r')
  }

  lemma {:induction false} LinesSplit(lines: seq<string>)
    requires forall k :: 0 <= k < |lines| ==> WholeLine(lines[k])
    ensures SplitLines(Terminate(lines)) == lines
    decreases |lines|
  {
    if lines != [] {
      LinesSplit(lines[1..]);
      FirstLine(lines[0], Terminate(lines[1..]));
      assert lines == [lines[0]] + lines[1..];
    }
  }

  lemma FirstLine(l: string, rest: string)
    requires WholeLine(l)
    ensures SplitLines(l + "\n" + rest) == [l] + SplitLines(rest)
  {
    var s := l + "\n" + rest;
    FindsChar(s, '\n', 0, l);
    assert s[..|l|] == l && s[|l| + 1..] == rest;
  }

  /** A page of a document shows as the HTML of the document, when it is within the limits. */
  lemma PageShowsAs(es: seq<Entry>, opts: Options)
    requires LegalEntries(es, 0, opts.maxNesting) && 0 <= opts.maxNesting
    requires forall k :: 0 <= k < |EntryLines(es)| ==> WholeLine(EntryLines(es)[k])
    requires |Terminate(EntryLines(es))| <= opts.maxInput && |PageShown(opts, es)| <= opts.maxOutput
    ensures PrintAll(PageOfSource(Terminate(EntryLines(es)), opts)) == PageShown(opts, es)
  {
    hide BlocksOf, PrintAll, PageShown, EntryLines, LegalEntries, WholeLine;
    LinesSplit(EntryLines(es));
    PageShows(0, opts, es, 0);
    var nodes := BlocksOf(0, opts, EntryLines(es), 0, |EntryLines(es)|, 0);
    assert nodes + [] == nodes;
  }

  /** A line of spans shows as their HTML, when that is within the limit. */
  lemma LineShowsAs(ds: seq<Span>, opts: Options)
    requires AllWritable(ds, "", 0) && |ShownAll(opts, ds)| <= opts.maxOutput
    ensures PrintAll(Inline(0, opts, SourceOf(ds), 0)) == ShownAll(opts, ds)
  {
    SpansShow(0, opts, ds, 0);
  }

  /** One star is emphasis, two are strong emphasis. */
  lemma OneStarOrTwo(opts: Options)
    requires opts.maxOutput >= 18
    ensures PrintAll(Inline(0, opts, "*a*", 0)) == "<em>a</em>" && PrintAll(Inline(0, opts, "**a**", 0)) == "<strong>a</strong>"
  {
    hide Inline, Shown, ShownAll, Source, SourceOf, AllWritable;
    var a := [Letter('a')];
    LetterA(opts);
    var em, strong := Em('*', a), Strong('*', a);
    StarredA(opts, em, strong);
    LineShowsAs([em], opts);
    LineShowsAs([strong], opts);
  }

  lemma LetterA(opts: Options)
    ensures SourceOf([Letter('a')]) == "a" && ShownAll(opts, [Letter('a')]) == "a" && AllWritable([Letter('a')], "", 1)
  {
    assert [Letter('a')][1..] == [];
    assert "a" + "" == "a" && "a"[1..] == "";
    assert EscapeHtml("") == "";
    assert EscapeHtml("a") == "a" + EscapeHtml("a"[1..]) == "a";
  }

  lemma StarredA(opts: Options, em: Span, strong: Span)
    requires em == Em('*', [Letter('a')]) && strong == Strong('*', [Letter('a')])
    ensures SourceOf([em]) == "*a*" && ShownAll(opts, [em]) == "<em>a</em>" && AllWritable([em], "", 0)
    ensures SourceOf([strong]) == "**a**" && ShownAll(opts, [strong]) == "<strong>a</strong>" && AllWritable([strong], "", 0)
  {
    hide EscapeHtml;
    LetterA(opts);
    assert [em][1..] == [] && [strong][1..] == [];
    assert Source(em) == "*" + ("a" + "*") == "*a*" && Source(strong) == "**" + ("a" + "**") == "**a**";
    assert "*a*" + "" == "*a*" && "**a**" + "" == "**a**";
    assert Shown(opts, em) == "<em>" + "a" + "</em>" == "<em>a</em>";
    assert Shown(opts, strong) == "<strong>" + "a" + "</strong>" == "<strong>a</strong>";
    assert "<em>a</em>" + "" == "<em>a</em>" && "<strong>a</strong>" + "" == "<strong>a</strong>";
    assert ("a" + "*")[0] == 'a' && ("a" + "**")[0] == 'a';
    assert "*"[0] == '*' && "**"[0] == '*';
  }
}
