/** The inline renderer of core/src/markdown.cpp shows a line of text as the HTML of its spans: each span is found where it
    starts, up to where it ends, and its body rendered by itself. */
module MarkdownSpans {
  import opened Text
  import opened Html
  import opened MarkdownTree
  import opened MarkdownDoc

  lemma PunctuationIs(c: char)
    ensures c in PUNCTUATION <==> IsPunct(c)
  {
  }

  // ---- searching ------------------------------------------------------------

  lemma SliceOf(s: string, a: nat, b: nat, c: nat, d: nat)
    requires a <= b <= |s| && c <= d <= b - a
    ensures s[a..b][c..d] == s[a + c..a + d]
  {
    forall k | 0 <= k < d - c
      ensures s[a..b][c..d][k] == s[a + c..a + d][k]
    {
      assert s[a..b][c..d][k] == s[a..b][c + k] == s[a + c + k];
    }
  }

  lemma {:induction false} FindsFirst(s: string, mark: string, from: nat, t: string, skip: nat)
    requires from + |t| + |mark| <= |s| && s[from..from + |t| + |mark|] == t + mark && FirstAt(t, mark) && skip <= |t|
    ensures FindText(s, mark, from + skip) == Some(from + |t|)
    decreases |t| - skip
  {
    hide FindText, FirstAt;
    var at, all := from + skip, t + mark;
    SliceOf(s, from, from + |all|, skip, skip + |mark|);
    FindStep(s, mark, at);
    if skip < |t| {
      NotHere(t, mark, skip);
      FindsFirst(s, mark, from, t, skip + 1);
    } else {
      assert all[skip..skip + |mark|] == mark;
    }
  }

  lemma FindStep(s: string, mark: string, at: nat)
    requires at + |mark| <= |s|
    ensures s[at..at + |mark|] == mark ==> FindText(s, mark, at) == Some(at)
    ensures s[at..at + |mark|] != mark && at < |s| ==> FindText(s, mark, at) == FindText(s, mark, at + 1)
  {
  }

  lemma NotHere(t: string, mark: string, k: nat)
    requires FirstAt(t, mark) && k < |t|
    ensures (t + mark)[k..k + |mark|] != mark
  {
    PrefixIs(t + mark, k, mark);
  }

  lemma PrefixIs(s: string, k: nat, mark: string)
    requires k + |mark| <= |s|
    ensures mark <= s[k..] <==> s[k..k + |mark|] == mark
  {
    assert s[k..][..|mark|] == s[k..k + |mark|];
  }

  lemma {:induction false} FindsChar(s: string, c: char, from: nat, t: string)
    requires from + |t| < |s| && s[from..from + |t|] == t && s[from + |t|] == c && Lacks(t, c)
    ensures IndexOf(s, c, from) == from + |t|
  {
    forall k | from <= k < from + |t|
      ensures s[k] != c
    {
      assert s[k] == t[k - from];
    }
  }

  lemma {:induction false} IsAhead(s: string, c: char, i: nat, j: nat)
    requires i < j < |s| && s[j] == c
    ensures Ahead(s, c, i)
    decreases |s|
  {
    if s[|s| - 1] != c {
      IsAhead(s[..|s| - 1], c, i, j);
    }
  }

  lemma TrimmedIs(t: string)
    requires Trimmed(t)
    ensures Trim(t) == t
  {
  }

  /** A place in a text: what is at it, and what comes after that. */
  predicate At(s: string, i: nat, d: string, rest: string) {
    i <= |s| && s[i..] == d + rest
  }

  lemma AtParts(s: string, i: nat, a: string, b: string, rest: string)
    requires At(s, i, a + b, rest)
    ensures At(s, i, a, b + rest) && At(s, i + |a|, b, rest) && i + |a| + |b| <= |s| && s[i..i + |a|] == a
  {
    assert s[i..] == a + (b + rest);
    assert s[i + |a|..] == s[i..][|a|..] == b + rest;
    assert s[i..i + |a|] == s[i..][..|a|];
  }

  lemma AtPiece(s: string, i: nat, a: string, rest: string)
    requires At(s, i, a, rest)
    ensures i + |a| <= |s| && s[i..i + |a|] == a && s[i + |a|..] == rest && forall k :: 0 <= k < |a| ==> s[i + k] == a[k]
  {
    assert s[i..i + |a|] == s[i..][..|a|];
    assert s[i + |a|..] == s[i..][|a|..];
    forall k | 0 <= k < |a|
      ensures s[i + k] == a[k]
    {
      assert s[i + k] == s[i..][k];
    }
  }

  // ---- the spans ------------------------------------------------------------

  /** What is found at a place: a node, and where the next one starts. */
  predicate Finds(found: Option<(Node, nat)>, html: string, next: nat) {
    found.Some? && Print(found.value.0) == html && found.value.1 == next
  }

  lemma OpenSimple(name: string)
    ensures Open(Simple(name)) == "<" + name + ">" && Close(Simple(name)) == "</" + name + ">"
  {
    assert "" + ">" == ">";
  }

  lemma PrintOne(n: Node)
    ensures PrintAll([n]) == Print(n)
  {
    assert [n][1..] == [];
    assert Print(n) + "" == Print(n);
  }

  lemma CodePrints(text: string)
    ensures Print(Element(Simple("code"), [Words(text)])) == "<code>" + EscapeHtml(text) + "</code>"
  {
    hide EscapeHtml;
    OpenSimple("code");
    PrintOne(Words(text));
    assert "<" + "code" + ">" == "<code>" && "</" + "code" + ">" == "</code>";
    Assoc("<code>", EscapeHtml(text), "</code>");
  }

  lemma {:induction false} TickRun(n: nat, rest: string)
    requires rest == "" || rest[0] != '`'
    ensures MarkRun(Ticks(n) + rest, '`') == n
  {
    var s := Ticks(n) + rest;
    if n == 0 {
      assert s == rest;
    } else {
      assert s[0] == '`' && s[1..] == Ticks(n - 1) + rest;
      TickRun(n - 1, rest);
    }
  }

  lemma {:induction false} TicksAre(n: nat)
    ensures forall k :: 0 <= k < n ==> Ticks(n)[k] == '`'
  {
    if n > 0 {
      TicksAre(n - 1);
    }
  }

  lemma CodeFound(s: string, i: nat, ticks: nat, text: string, rest: string)
    requires At(s, i, Source(Code(ticks, text)), rest) && ticks >= 1 && text != "" && text[0] != '`' && FirstAt(text, Ticks(ticks))
    ensures i < |s| && s[i] == '`' && Ahead(s, '`', i)
    ensures Finds(CodeAt(s, i), "<code>" + EscapeHtml(text) + "</code>", i + |Source(Code(ticks, text))|)
  {
    hide FirstAt, EscapeHtml, Print, FindText, MarkRun, Ticks, Ahead, At;
    var t := Ticks(ticks);
    TicksAre(ticks);
    CodeParts(s, i, t, text, rest);
    IsAhead(s, '`', i, i + ticks + |text|);
    TickRun(ticks, text + (t + rest));
    FindsFirst(s, t, i + ticks, text, 0);
    CodePrints(text);
    assert MarkRun(s[i..], '`') == ticks;
  }

  lemma CodeParts(s: string, i: nat, t: string, text: string, rest: string)
    requires At(s, i, t + (text + t), rest) && t != ""
    ensures var j := i + |t| + |text|;
            && j + |t| <= |s| && s[i..] == t + (text + (t + rest)) && s[i] == t[0] && s[j] == t[0] && s[i..i + |t|] == t
            && s[i + |t|..j + |t|] == text + t && s[i + |t|..j] == text
  {
    Assoc(t, text + t, rest);
    Assoc(text, t, rest);
    AtParts(s, i, t, text + t, rest);
    AtPiece(s, i + |t|, text + t, rest);
    AtParts(s, i + |t|, text, t, rest);
    AtPiece(s, i + |t| + |text|, t, rest);
  }

  // ---- wiki links -----------------------------------------------------------

  lemma WikiPrints(opts: Options, target: string, page: string, caption: string)
    requires PageOf(target) == page && LabelOf(target) == caption
    ensures Print(WikiNode(opts, target)) == WikiHtml(opts, page, caption)
  {
    hide EscapeHtml, SafeUrl, PageOf, LabelOf, Open;
    var href := if opts.link.Some? then opts.link.value(page) else "";
    PrintOne(Words(caption));
    AnchorOpens(href);
    WantedOpens(href, opts.wantedClass);
    AnchorsClose(href, opts.wantedClass);
    var b := EscapeHtml(caption);
    NoMark("<a href=\"" + EscapeHtml(href) + "\"");
    Assoc(Open(Anchor(href)), b, "</a>");
    Assoc(Open(Wanted(href, opts.wantedClass)), b, "</a>");
  }

  lemma NoMark(s: string)
    ensures s + "" == s
  {
  }

  lemma AnchorsClose(url: string, cls: string)
    ensures Close(Anchor(url)) == "</a>" && Close(Wanted(url, cls)) == "</a>"
  {
  }

  lemma AnchorOpens(url: string)
    ensures Open(Anchor(url)) == "<a href=\"" + EscapeHtml(url) + "\">"
  {
    hide EscapeHtml;
    var e := EscapeHtml(url);
    assert Attributes(Anchor(url)) == " href=\"" + (e + "\"");
    assert "<" + ("a" + ((" href=\"" + (e + "\"")) + ">")) == "<a href=\"" + e + "\">";
  }

  /** The pieces of an opening tag with two attributes and a title, put together in either way. */
  lemma TagShape(lt: string, name: string, href: string, e: string, cls: string, c: string, q: string, title: string, gt: string)
    ensures lt + (name + (((href + (e + q)) + ((cls + (c + q)) + title)) + gt)) ==
            ((((lt + name) + href) + e) + q) + (((cls + c) + q) + title) + gt
  {
    var h, k := href + (e + q), cls + (c + q);
    Assoc(lt, name, (h + (k + title)) + gt);
    Assoc(lt + name, h + (k + title), gt);
    Assoc(lt + name, h, k + title);
    Assoc(lt + name, href, e + q);
    Assoc((lt + name) + href, e, q);
    Assoc(cls, c, q);
  }

  lemma WantedOpens(url: string, cls: string)
    ensures Open(Wanted(url, cls)) ==
            "<a href=\"" + EscapeHtml(url) + "\"" + (" class=\"" + EscapeHtml(cls) + "\"" + " title=\"This page does not exist yet\"") + ">"
  {
    hide EscapeHtml;
    AttributeIs("href", url);
    AttributeIs("class", cls);
    assert " " + "href" + "=\"" == " href=\"" && " " + "class" + "=\"" == " class=\"";
    TagShape("<", "a", " href=\"", EscapeHtml(url), " class=\"", EscapeHtml(cls), "\"", " title=\"This page does not exist yet\"", ">");
    assert ("<" + "a") + " href=\"" == "<a href=\"";
  }

  lemma AttributeIs(name: string, value: string)
    ensures Attribute(name, value) == (" " + name + "=\"") + (EscapeHtml(value) + "\"")
  {
    hide EscapeHtml;
    var rest := EscapeHtml(value) + "\"";
    Assoc(name, "=\"", rest);
    Assoc(" ", name + "=\"", rest);
    Assoc(" ", name, "=\"");
  }

  lemma TargetParts(page: string, caption: string)
    requires Lacks(page, '|') && Trimmed(page) && Trimmed(caption)
    ensures PageOf(page) == page && LabelOf(page) == page
    ensures PageOf(page + ("|" + caption)) == page && LabelOf(page + ("|" + caption)) == caption
  {
    var t := page + ("|" + caption);
    FindsChar(t, '|', 0, page);
    assert t[..|page|] == page && t[|page| + 1..] == caption;
    TrimmedIs(page);
    TrimmedIs(caption);
    assert IndexOf(page, '|', 0) == |page|;
  }

  lemma WikiFound(opts: Options, s: string, i: nat, target: string, page: string, caption: string, rest: string)
    requires At(s, i, "[[" + (target + "]]"), rest) && FirstAt(target, "]]") && Trimmed(target)
    requires PageOf(target) == page && LabelOf(target) == caption
    ensures i + 2 <= |s| && Pair(s, i, '[', '[') && Ahead(s, ']', i)
    ensures Finds(WikiAt(opts, s, i), WikiHtml(opts, page, caption), i + |"[[" + (target + "]]")|)
  {
    hide FirstAt, EscapeHtml, Print, FindText, Ahead, PageOf, LabelOf, WikiNode, WikiHtml;
    AtPiece(s, i, "[[" + (target + "]]"), rest);
    AtParts(s, i, "[[", target + "]]", rest);
    AtPiece(s, i + 2, target + "]]", rest);
    AtParts(s, i + 2, target, "]]", rest);
    AtPiece(s, i + 2 + |target|, "]]", rest);
    IsAhead(s, ']', i, i + 2 + |target|);
    FindsFirst(s, "]]", i + 2, target, 0);
    TrimmedIs(target);
    WikiPrints(opts, target, page, caption);
  }

  // ---- links and images -------------------------------------------------------

  /** Text in brackets and an address in parentheses. */
  lemma PartsFound(s: string, from: nat, text: string, url: string, rest: string)
    requires At(s, from, text + ("](" + (url + ")")), rest) && Lacks(text, ']') && Lacks(url, ')')
    ensures var close, paren := from + |text|, from + |text| + 2 + |url|;
            && LinkParts(s, from) == Some((close, paren)) && paren < |s|
            && s[from..close] == text && s[close + 2..paren] == url && s[close] == ']' && s[paren] == ')'
  {
    hide IndexOf, Lacks, At;
    var close := from + |text|;
    AtParts(s, from, text, "](" + (url + ")"), rest);
    AtParts(s, close, "](", url + ")", rest);
    AtPiece(s, close, "](" + (url + ")"), rest);
    AtParts(s, close + 2, url, ")", rest);
    AtPiece(s, close + 2 + |url|, ")", rest);
    FindsChar(s, ']', from, text);
    FindsChar(s, ')', close + 2, url);
  }

  lemma PicturePrints(alt: string, url: string)
    ensures Print(ImageNode(alt, url)) == if SafeUrl(url) then "<img src=\"" + EscapeHtml(url) + "\" alt=\"" + EscapeHtml(alt) + "\">" else EscapeHtml(alt)
  {
    hide EscapeHtml, SafeUrl;
    var e, a := EscapeHtml(url), EscapeHtml(alt);
    var h, k := Attribute("src", url), Attribute("alt", alt);
    assert h == " src=\"" + (e + "\"") && k == " alt=\"" + (a + "\"");
    assert "<" + ("img" + ((h + k) + ">")) == "<img src=\"" + e + "\" alt=\"" + a + "\">";
  }

  lemma Bracketed(s: string, i: nat, opening: string, text: string, url: string, rest: string)
    requires At(s, i, opening + (text + ("](" + (url + ")"))), rest) && Lacks(text, ']') && Lacks(url, ')') && opening != ""
    ensures var from := i + |opening|;
            var close, paren := from + |text|, from + |text| + 2 + |url|;
            && LinkParts(s, from) == Some((close, paren)) && i < close && paren < |s|
            && s[from..close] == text && s[close + 2..paren] == url
            && s[i..from] == opening && Ahead(s, ']', i) && Ahead(s, ')', i)
            && s[from] == (if text == "" then ']' else text[0])
  {
    hide Ahead, LinkParts, Lacks;
    var tail := text + ("](" + (url + ")"));
    AtPiece(s, i, opening + tail, rest);
    AtParts(s, i, opening, tail, rest);
    PartsFound(s, i + |opening|, text, url, rest);
    IsAhead(s, ']', i, i + |opening| + |text|);
    IsAhead(s, ')', i, i + |opening| + |text| + 2 + |url|);
    AtPiece(s, i + |opening|, tail, rest);
    assert tail[0] == if text == "" then ']' else text[0];
  }

  lemma PictureFound(s: string, i: nat, alt: string, url: string, rest: string)
    requires At(s, i, Source(Picture(alt, url)), rest) && Address(url) && Lacks(alt, ']')
    ensures i + 2 <= |s| && Pair(s, i, '!', '[') && Ahead(s, ']', i) && Ahead(s, ')', i)
    ensures Finds(ImageAt(s, i),
                  if SafeUrl(url) then "<img src=\"" + EscapeHtml(url) + "\" alt=\"" + EscapeHtml(alt) + "\">" else EscapeHtml(alt),
                  i + |Source(Picture(alt, url))|)
  {
    hide EscapeHtml, Print, Ahead, ImageNode, SafeUrl, LinkParts, Lacks, At;
    Bracketed(s, i, "![", alt, url, rest);
    assert s[i] == s[i..i + 2][0] && s[i + 1] == s[i..i + 2][1];
    TrimmedIs(url);
    PicturePrints(alt, url);
  }

  lemma LinkPrints(n: nat, opts: Options, body: seq<Span>, url: string, depth: nat)
    requires SafeUrl(url) ==> PrintAll(Inline(n + |Open(Anchor(url))|, opts, SourceOf(body), depth + 1)) == ShownAll(opts, body)
    ensures Print(LinkNode(n, opts, SourceOf(body), url, depth + 1)) == Shown(opts, Link(body, url))
  {
    hide EscapeHtml, SafeUrl, Inline, ShownAll, SourceOf;
    AnchorOpens(url);
    assert Close(Anchor(url)) == "</a>";
    Assoc(Open(Anchor(url)), ShownAll(opts, body), "</a>");
  }

  lemma LinkFound(n: nat, opts: Options, s: string, i: nat, body: seq<Span>, url: string, rest: string, depth: nat)
    requires At(s, i, Source(Link(body, url)), rest) && Address(url) && Lacks(SourceOf(body), ']') && !("[" <= SourceOf(body)) && depth <= 8
    requires SafeUrl(url) ==> PrintAll(Inline(n + |Open(Anchor(url))|, opts, SourceOf(body), depth + 1)) == ShownAll(opts, body)
    ensures i < |s| && s[i] == '[' && !Pair(s, i, '[', '[') && Ahead(s, ']', i) && Ahead(s, ')', i)
    ensures Finds(LinkAt(n, opts, s, i, depth), Shown(opts, Link(body, url)), i + |Source(Link(body, url))|)
  {
    hide EscapeHtml, Print, Ahead, LinkNode, SafeUrl, LinkParts, Lacks, SourceOf, Inline, Shown, At;
    var src := SourceOf(body);
    Bracketed(s, i, "[", src, url, rest);
    assert s[i] == s[i..i + 1][0];
    TrimmedIs(url);
    LinkPrints(n, opts, body, url, depth);
    assert src != "" ==> src[0] != '[';
  }

  // ---- emphasis ---------------------------------------------------------------

  lemma EmphasisPrints(n: nat, opts: Options, strong: bool, body: seq<Span>, depth: nat)
    requires var tag := Simple(if strong then "strong" else "em");
             PrintAll(Inline(n + |Open(tag)|, opts, SourceOf(body), depth)) == ShownAll(opts, body)
    ensures var tag := Simple(if strong then "strong" else "em");
            Print(Element(tag, Inline(n + |Open(tag)|, opts, SourceOf(body), depth))) ==
            if strong then "<strong>" + ShownAll(opts, body) + "</strong>" else "<em>" + ShownAll(opts, body) + "</em>"
  {
    hide Inline, ShownAll, SourceOf;
    var name := if strong then "strong" else "em";
    OpenSimple(name);
    assert "<" + "strong" + ">" == "<strong>" && "</" + "strong" + ">" == "</strong>";
    assert "<" + "em" + ">" == "<em>" && "</" + "em" + ">" == "</em>";
    Assoc(Open(Simple(name)), ShownAll(opts, body), Close(Simple(name)));
  }

  /** Where the text between marks is. */
  lemma Between(s: string, i: nat, m: string, src: string, rest: string)
    requires At(s, i, m + (src + m), rest) && m != "" && src != ""
    ensures var from := i + |m|;
            && from + |src| + |m| <= |s| && s[i..from] == m && s[from] == src[0] && s[i] == m[0] && (|m| > 1 ==> s[i + 1] == m[1])
            && s[from..from + |src| + |m|] == src + m && s[from..from + |src|] == src
  {
    AtPiece(s, i, m + (src + m), rest);
    AtParts(s, i, m, src + m, rest);
    var from := i + |m|;
    AtPiece(s, from, src + m, rest);
    AtParts(s, from, src, m, rest);
    assert s[from] == (src + m)[0];
    assert s[i] == (m + (src + m))[0];
    assert |m| > 1 ==> s[i + 1] == (m + (src + m))[1];
  }

  lemma NotDoubled(src: string, mark: char)
    requires FirstAt(src, [mark]) && src != ""
    ensures src[0] != mark
  {
    NotHere(src, [mark], 0);
    assert (src + [mark])[0..1] == [src[0]];
  }

  lemma EmphasisIs(n: nat, opts: Options, s: string, i: nat, mark: char, strong: bool, src: string, rest: string, depth: nat)
    requires var m := if strong then [mark, mark] else [mark];
             At(s, i, m + (src + m), rest) && FirstAt(src, m)
    requires src != "" && !IsSpace(src[0]) && depth <= 8
    ensures i + 1 < |s| && s[i] == mark
    ensures var tag := Simple(if strong then "strong" else "em");
            EmphasisAt(n, opts, s, i, depth) ==
            Some((Element(tag, Inline(n + |Open(tag)|, opts, src, depth + 1)), i + (if strong then 4 else 2) + |src|))
  {
    hide Inline, FindText, FirstAt, At, Open;
    var m := if strong then [mark, mark] else [mark];
    Between(s, i, m, src, rest);
    if !strong {
      NotDoubled(src, mark);
    }
    FindsFirst(s, m, i + |m|, src, 0);
  }

  lemma EmphasisFound(n: nat, opts: Options, s: string, i: nat, mark: char, strong: bool, body: seq<Span>, rest: string, depth: nat)
    requires var m := if strong then [mark, mark] else [mark];
             At(s, i, m + (SourceOf(body) + m), rest) && FirstAt(SourceOf(body), m)
    requires SourceOf(body) != "" && !IsSpace(SourceOf(body)[0]) && depth <= 8
    requires var tag := Simple(if strong then "strong" else "em");
             PrintAll(Inline(n + |Open(tag)|, opts, SourceOf(body), depth + 1)) == ShownAll(opts, body)
    ensures i + 1 < |s| && s[i] == mark
    ensures Finds(EmphasisAt(n, opts, s, i, depth),
                  if strong then "<strong>" + ShownAll(opts, body) + "</strong>" else "<em>" + ShownAll(opts, body) + "</em>",
                  i + (if strong then 4 else 2) + |SourceOf(body)|)
  {
    hide Print, Inline, ShownAll, SourceOf, FindText, FirstAt, At, Open, EmphasisAt;
    EmphasisIs(n, opts, s, i, mark, strong, SourceOf(body), rest, depth);
    EmphasisPrints(n, opts, strong, body, depth + 1);
  }

  // ---- bare addresses -----------------------------------------------------------

  lemma {:induction false} StopsAfter(s: string, i: nat, k: nat, url: string)
    requires k <= |url| && i + |url| <= |s| && s[i..i + |url|] == url
    requires forall j :: 0 <= j < |url| ==> !EndsAddress(url[j])
    requires i + |url| == |s| || EndsAddress(s[i + |url|])
    ensures UrlStop(s, i + k) == i + |url|
    decreases |url| - k
  {
    if k < |url| {
      assert s[i + k] == url[k];
      StopsAfter(s, i, k + 1, url);
    }
  }

  lemma UrlIsSafe(url: string)
    requires StartsAddress(url)
    ensures SafeUrl(url)
  {
    var colon := if "http://" <= url then 4 else 5;
    var head := if "http://" <= url then "http" else "https";
    assert url[..colon] == head by {
      if "http://" <= url {
        assert url[..7] == "http://" && "http://"[..4] == "http";
      } else {
        assert url[..8] == "https://" && "https://"[..5] == "https";
      }
    }
    assert url[colon] == ':';
    FindsChar(url, ':', 0, head);
    ToLowerSame(head);
    if IndexOf(url, '/', 0) < colon {
      assert head[IndexOf(url, '/', 0)] == '/';
    }
  }

  lemma UrlFound(s: string, i: nat, url: string, rest: string)
    requires At(s, i, url, rest) && Writable(Url(url), s[..i], rest, 0)
    ensures i < |s| && s[i] == 'h' && UrlStarts(s, i) && (i == 0 || IsSpace(s[i - 1]) || s[i - 1] == '(')
    ensures UrlEnd(s, i) == i + |url| && s[i..i + |url|] == url && SafeUrl(url)
  {
    AtPiece(s, i, url, rest);
    assert url[0] == 'h';
    assert url <= s[i..];
    var before := s[..i];
    assert i > 0 ==> before[|before| - 1] == s[i - 1];
    assert rest != "" ==> s[i + |url|] == rest[0];
    StopsAfter(s, i, 0, url);
    UrlIsSafe(url);
    assert s[i + |url| - 1] == url[|url| - 1];
  }

  lemma BarePrints(url: string)
    requires SafeUrl(url)
    ensures Print(BareNode(url)) == "<a href=\"" + EscapeHtml(url) + "\">" + EscapeHtml(url) + "</a>"
  {
    hide EscapeHtml, SafeUrl;
    AnchorOpens(url);
    PrintOne(Words(url));
    assert Close(Anchor(url)) == "</a>";
    Assoc(Open(Anchor(url)), EscapeHtml(url), "</a>");
  }

  // ---- letters ------------------------------------------------------------------

  lemma SourceStarts(d: Span, before: string, rest: string, depth: nat)
    requires Writable(d, before, rest, depth)
    ensures Source(d) != "" && (!d.Letter? ==> Source(d)[0] != '\\')
  {
    hide SourceOf, FirstAt, Lacks, Trimmed, AllWritable, BodyWritable;
    match d
    case Code(ticks, text) => assert Source(d)[0] == Ticks(ticks)[0] == '`';
    case Url(url) => assert url[0] == 'h';
    case Em(mark, _) => assert Source(d)[0] == mark;
    case Strong(mark, _) => assert Source(d)[0] == mark;
    case _ =>
  }

  lemma LetterShows(n: nat, opts: Options, s: string, i: nat, c: char, rest: string, depth: nat)
    requires At(s, i, Source(Letter(c)), rest) && depth <= 8 && (c == 'h' ==> !StartsAddress("h" + rest))
    ensures i < |s| && SpanAt(n, opts, s, i, depth) == (Words([c]), i + |Source(Letter(c))|)
  {
    hide EscapeHtml, Ahead;
    PunctuationIs(c);
    AtPiece(s, i, Source(Letter(c)), rest);
    assert c == 'h' ==> s[i..] == "h" + rest;
  }

  lemma BareShows(n: nat, opts: Options, s: string, i: nat, c: char, rest: string, depth: nat)
    requires At(s, i, [c], rest) && depth <= 8 && Writable(Bare(c), s[..i], rest, depth)
    ensures i < |s| && SpanAt(n, opts, s, i, depth) == (Words([c]), i + 1)
  {
    hide EscapeHtml, Ahead;
    AtPiece(s, i, [c], rest);
    assert c == 'h' ==> s[i..] == "h" + rest;
    assert c !in "\\`[*_" ==> c != "\\`[*_"[0] && c != "\\`[*_"[1] && c != "\\`[*_"[2] && c != "\\`[*_"[3] && c != "\\`[*_"[4];
    if i + 1 < |s| {
      assert s[i + 1] == rest[0];
    }
  }

  // ---- lines ----------------------------------------------------------------------

  /** Which construct is tried first at a place, by the character there. */
  lemma TriedFirst(n: nat, opts: Options, s: string, i: nat, depth: nat)
    requires i < |s| && depth <= 8
    ensures s[i] == '`' && Ahead(s, '`', i) && CodeAt(s, i).Some? ==> SpanAt(n, opts, s, i, depth) == CodeAt(s, i).value
    ensures Pair(s, i, '[', '[') && Ahead(s, ']', i) && WikiAt(opts, s, i).Some? ==> SpanAt(n, opts, s, i, depth) == WikiAt(opts, s, i).value
    ensures Pair(s, i, '!', '[') && Ahead(s, ']', i) && Ahead(s, ')', i) && ImageAt(s, i).Some? ==>
              SpanAt(n, opts, s, i, depth) == ImageAt(s, i).value
    ensures s[i] == '[' && !Pair(s, i, '[', '[') && Ahead(s, ']', i) && Ahead(s, ')', i) && LinkAt(n, opts, s, i, depth).Some? ==>
              SpanAt(n, opts, s, i, depth) == LinkAt(n, opts, s, i, depth).value
    ensures (s[i] == '*' || s[i] == '_') && i + 1 < |s| && EmphasisAt(n, opts, s, i, depth).Some? ==>
              SpanAt(n, opts, s, i, depth) == EmphasisAt(n, opts, s, i, depth).value
    ensures s[i] == 'h' && UrlStarts(s, i) && (i == 0 || IsSpace(s[i - 1]) || s[i - 1] == '(') ==>
              SpanAt(n, opts, s, i, depth) == (BareNode(s[i..UrlEnd(s, i)]), UrlEnd(s, i))
  {
    hide Ahead, CodeAt, WikiAt, ImageAt, LinkAt, EmphasisAt, UrlStarts, UrlEnd, BareNode, IsSpace;
  }

  lemma {:induction false} SpanShows(n: nat, opts: Options, s: string, i: nat, d: Span, rest: string, depth: nat)
    requires At(s, i, Source(d), rest) && Writable(d, s[..i], rest, depth) && depth <= 8
    requires n + |Shown(opts, d)| <= opts.maxOutput
    ensures i < |s|
    ensures var (node, next) := SpanAt(n, opts, s, i, depth);
            Print(node) == Shown(opts, d) && next == i + |Source(d)|
    decreases d, 0
  {
    hide SpanAt, Print, Ahead, CodeAt, WikiAt, ImageAt, LinkAt, EmphasisAt, EscapeHtml, SourceOf, ShownAll, FirstAt, Lacks, Trimmed, AllWritable,
      Inline, UrlStarts, UrlEnd, WikiHtml, BareNode, PageOf, LabelOf, IsSpace, SafeUrl, Open, At;
    if d.Em? || d.Strong? || d.Link? {
      PlaceIs(s, i, d, rest, depth);
      TriedFirst(n, opts, s, i, depth);
    }
    match d {
      case Em(mark, body) =>
        OpenLengths();
        SpansShow(n + |Open(Simple("em"))|, opts, body, depth + 1);
        EmphasisFound(n, opts, s, i, mark, false, body, rest, depth);
      case Strong(mark, body) =>
        OpenLengths();
        SpansShow(n + |Open(Simple("strong"))|, opts, body, depth + 1);
        EmphasisFound(n, opts, s, i, mark, true, body, rest, depth);
      case Link(body, url) =>
        AnchorOpens(url);
        if SafeUrl(url) {
          SpansShow(n + |Open(Anchor(url))|, opts, body, depth + 1);
        }
        LinkFound(n, opts, s, i, body, url, rest, depth);
      case _ => FlatShows(n, opts, s, i, d, rest, depth);
    }
  }

  /** The spans without a body. */
  lemma FlatShows(n: nat, opts: Options, s: string, i: nat, d: Span, rest: string, depth: nat)
    requires At(s, i, Source(d), rest) && Writable(d, s[..i], rest, depth) && depth <= 8
    requires !d.Em? && !d.Strong? && !d.Link?
    ensures i < |s|
    ensures var (node, next) := SpanAt(n, opts, s, i, depth);
            Print(node) == Shown(opts, d) && next == i + |Source(d)|
  {
    hide SpanAt, Print, Ahead, CodeAt, WikiAt, ImageAt, LinkAt, EmphasisAt, EscapeHtml, SourceOf, ShownAll, FirstAt, Lacks, Trimmed, AllWritable,
      Inline, UrlStarts, UrlEnd, WikiHtml, BareNode, PageOf, LabelOf, IsSpace, SafeUrl, Open, At;
    PlaceIs(s, i, d, rest, depth);
    if !d.Letter? && !d.Bare? {
      TriedFirst(n, opts, s, i, depth);
    }
    match d {
      case Letter(c) =>
        LetterShows(n, opts, s, i, c, rest, depth);
        WordsPrint([c]);
      case Bare(c) =>
        BareShows(n, opts, s, i, c, rest, depth);
        WordsPrint([c]);
      case Code(ticks, text) => CodeFound(s, i, ticks, text, rest);
      case Picture(alt, url) => PictureFound(s, i, alt, url, rest);
      case Wiki(page) =>
        TargetParts(page, "");
        WikiFound(opts, s, i, page, page, page, rest);
      case WikiAs(page, caption) =>
        TargetParts(page, caption);
        WikiFound(opts, s, i, page + ("|" + caption), page, caption, rest);
      case Url(url) =>
        UrlFound(s, i, url, rest);
        BarePrints(url);
    }
  }

  lemma PlaceIs(s: string, i: nat, d: Span, rest: string, depth: nat)
    requires At(s, i, Source(d), rest) && Writable(d, s[..i], rest, depth)
    ensures i < |s| && i + |Source(d)| <= |s|
  {
    hide Writable, Source;
    SourceStarts(d, s[..i], rest, depth);
    AtPiece(s, i, Source(d), rest);
  }

  lemma WordsPrint(s: string)
    ensures Print(Words(s)) == EscapeHtml(s)
  {
  }

  lemma OpenLengths()
    ensures |Open(Simple("em"))| == 4 && |Open(Simple("strong"))| == 8
  {
    OpenSimple("em");
    OpenSimple("strong");
  }

  /** A line of spans shows as their HTML, when that is within the cap. */
  lemma {:induction false} SpansShow(n: nat, opts: Options, ds: seq<Span>, depth: nat)
    requires AllWritable(ds, "", depth) && depth <= 8 && n + |ShownAll(opts, ds)| <= opts.maxOutput
    ensures PrintAll(Inline(n, opts, SourceOf(ds), depth)) == ShownAll(opts, ds)
    decreases ds, 2
  {
    assert "" + SourceOf(ds) == SourceOf(ds);
    SpansShowFrom(n, opts, ds, "", depth);
  }

  lemma {:induction false} SpansShowFrom(n: nat, opts: Options, ds: seq<Span>, before: string, depth: nat)
    requires AllWritable(ds, before, depth) && depth <= 8 && n + |ShownAll(opts, ds)| <= opts.maxOutput
    ensures PrintAll(InlineFrom(n, opts, before + SourceOf(ds), |before|, depth)) == ShownAll(opts, ds)
    decreases ds, 1
  {
    hide Writable, SpanAt, Source, Shown, Print;
    var s, i := before + SourceOf(ds), |before|;
    if ds == [] {
      assert s == before;
    } else {
      var d, rest := ds[0], SourceOf(ds[1..]);
      assert s[i..] == SourceOf(ds) && s[..i] == before;
      SourceStarts(d, before, rest, depth);
      if n < opts.maxOutput {
        SpanShows(n, opts, s, i, d, rest, depth);
        Assoc(before, Source(d), rest);
        SpansShowFrom(n + |Shown(opts, d)|, opts, ds[1..], before + Source(d), depth);
        var node := SpanAt(n, opts, s, i, depth).0;
        var more := InlineFrom(n + |Shown(opts, d)|, opts, s, i + |Source(d)|, depth);
        assert ([node] + more)[1..] == more;
      }
    }
  }
}
