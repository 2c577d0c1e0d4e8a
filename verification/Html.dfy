/** The HTML that core/src/markdown.cpp emits. */
module Html {
  import opened Text

  // Trees, their text, and a scanner that checks nesting from the text alone.

  // ---- escaping -----------------------------------------------------------

  function EscapeHtmlChar(c: char): string {
    if c == '&' then "&amp;"
    else if c == '<' then "&lt;"
    else if c == '>' then "&gt;"
    else if c == '"' then "&quot;"
    else if c == '\'' then "&#39;"
    else [c]
  }

  function EscapeHtml(s: string): string {
    if s == "" then "" else EscapeHtmlChar(s[0]) + EscapeHtml(s[1..])
  }

  /** No character that could begin or end a tag or an attribute value. */
  predicate Inert(s: string) {
    forall i :: 0 <= i < |s| ==> s[i] != '<' && s[i] != '>' && s[i] != '"' && s[i] != '\''
  }

  lemma {:induction false} EscapeIsInert(s: string)
    ensures Inert(EscapeHtml(s))
  {
    if s != "" {
      EscapeIsInert(s[1..]);
    }
  }

  function Unescape(s: string): string {
    if s == "" then ""
    else if "&amp;" <= s then "&" + Unescape(s[5..])
    else if "&lt;" <= s then "<" + Unescape(s[4..])
    else if "&gt;" <= s then ">" + Unescape(s[4..])
    else if "&quot;" <= s then "\"" + Unescape(s[6..])
    else if "&#39;" <= s then "'" + Unescape(s[5..])
    else [s[0]] + Unescape(s[1..])
  }

  lemma UnescapeChar(c: char, rest: string)
    ensures Unescape(EscapeHtmlChar(c) + rest) == [c] + Unescape(rest)
  {
    var s := EscapeHtmlChar(c) + rest;
    if c == '&' {
      assert s[..5] == "&amp;" && s[5..] == rest;
    } else if c == '<' {
      assert s[..4] == "&lt;" && s[4..] == rest && s[1] == 'l';
    } else if c == '>' {
      assert s[..4] == "&gt;" && s[4..] == rest && s[1] == 'g';
    } else if c == '"' {
      assert s[..6] == "&quot;" && s[6..] == rest && s[1] == 'q';
    } else if c == '\'' {
      assert s[..5] == "&#39;" && s[5..] == rest && s[1] == '#';
    } else {
      assert s[0] == c && s[1..] == rest;
    }
  }

  /** Escaping loses nothing. */
  lemma {:induction false} EscapeReadsBack(s: string)
    ensures Unescape(EscapeHtml(s)) == s
  {
    hide Unescape, EscapeHtmlChar;
    if s == "" {
      NothingEscaped();
    } else {
      EscapeReadsBack(s[1..]);
      UnescapeChar(s[0], EscapeHtml(s[1..]));
      assert s == [s[0]] + s[1..];
    }
  }

  lemma NothingEscaped()
    ensures Unescape("") == "" && EscapeHtml("") == ""
  {
  }

  // ---- links --------------------------------------------------------------

  /** Same-origin, relative, or one of three schemes. */
  predicate SafeUrl(url: string) {
    url != "" &&
    (|| url[0] == '/' || url[0] == '#' || url[0] == '?'
     || IndexOf(url, ':', 0) == |url| || IndexOf(url, '/', 0) < IndexOf(url, ':', 0)
     || (var scheme := ToLower(url[..IndexOf(url, ':', 0)]); scheme == "http" || scheme == "https" || scheme == "mailto"))
  }

  lemma EscapesAre(c: char)
    ensures EscapeHtmlChar('&') == "&amp;" && EscapeHtmlChar('<') == "&lt;" && EscapeHtmlChar('>') == "&gt;"
    ensures EscapeHtmlChar('"') == "&quot;" && EscapeHtmlChar('\'') == "&#39;"
    ensures c !in "&<>\"'" ==> EscapeHtmlChar(c) == [c]
  {
  }

  /** An address with a scheme is safe for three schemes, in any case; one without a scheme is. */
  lemma SafeSchemes(scheme: string, rest: string)
    requires scheme != "" && scheme[0] !in "/#?" && forall i :: 0 <= i < |scheme| ==> scheme[i] != ':' && scheme[i] != '/'
    ensures SafeUrl(scheme + (":" + rest)) <==> ToLower(scheme) == "http" || ToLower(scheme) == "https" || ToLower(scheme) == "mailto"
    ensures SafeUrl(scheme)
  {
    var url := scheme + (":" + rest);
    assert forall i :: 0 <= i < |scheme| ==> url[i] == scheme[i];
    assert url[|scheme|] == ':';
    assert IndexOf(url, ':', 0) == |scheme| && IndexOf(url, '/', 0) > |scheme|;
    assert url[..|scheme|] == scheme;
    assert IndexOf(scheme, ':', 0) == |scheme|;
  }

  // ---- trees --------------------------------------------------------------

  datatype Tag =
    | Simple(name: string)
    | Anchor(url: string)
    | Wanted(url: string, cls: string)
    | LangCode(info: string)
    | Truncated
    | Break
    | Rule
    | Image(url: string, alt: string)

  datatype Node =
    | Words(s: string)
    | Element(tag: Tag, children: seq<Node>)
    | Lone(tag: Tag)

  function TagName(t: Tag): string {
    match t
    case Simple(name) => name
    case Anchor(_) => "a"
    case Wanted(_, _) => "a"
    case LangCode(_) => "code"
    case Truncated => "p"
    case Break => "br"
    case Rule => "hr"
    case Image(_, _) => "img"
  }

  function Attribute(name: string, value: string): string {
    " " + (name + ("=\"" + (EscapeHtml(value) + "\"")))
  }

  function Attributes(t: Tag): string {
    match t
    case Anchor(url) => Attribute("href", url)
    case Wanted(url, cls) => Attribute("href", url) + (Attribute("class", cls) + " title=\"This page does not exist yet\"")
    case LangCode(info) => " class=\"lang-" + (EscapeHtml(info) + "\"")
    case Truncated => " class=\"truncated\""
    case Image(url, alt) => Attribute("src", url) + Attribute("alt", alt)
    case _ => ""
  }

  function Open(t: Tag): string {
    "<" + (TagName(t) + (Attributes(t) + ">"))
  }

  function Close(t: Tag): string {
    "</" + (TagName(t) + ">")
  }

  predicate IsVoidName(name: string) {
    name == "br" || name == "hr" || name == "img"
  }

  predicate IsTagName(name: string) {
    name != "" && forall i :: 0 <= i < |name| ==> 'a' <= name[i] <= 'z' || IsDigit(name[i])
  }

  /** Links and images only lead to safe places; element names are plain words. */
  predicate LegalTag(t: Tag) {
    match t
    case Simple(name) => IsTagName(name) && !IsVoidName(name)
    case Anchor(url) => SafeUrl(url)
    case Wanted(url, _) => SafeUrl(url)
    case Image(url, _) => SafeUrl(url)
    case _ => true
  }

  predicate Legal(n: Node) {
    match n
    case Words(_) => true
    case Element(tag, children) => LegalTag(tag) && !IsVoidName(TagName(tag)) && AllLegal(children)
    case Lone(tag) => LegalTag(tag) && IsVoidName(TagName(tag))
  }

  predicate AllLegal(ns: seq<Node>) {
    ns == [] || (Legal(ns[0]) && AllLegal(ns[1..]))
  }

  function Print(n: Node): string {
    match n
    case Words(s) => EscapeHtml(s)
    case Element(tag, children) => Open(tag) + (PrintAll(children) + Close(tag))
    case Lone(tag) => Open(tag)
  }

  function PrintAll(ns: seq<Node>): string {
    if ns == [] then "" else Print(ns[0]) + PrintAll(ns[1..])
  }

  // ---- a scanner ----------------------------------------------------------

  /** Every angle bracket belongs to a tag, and every tag that is not void is closed, innermost first;
      `stack` holds the names still open. */
  predicate Scan(s: string, stack: seq<string>)
    decreases |s|
  {
    if s == "" then stack == []
    else if s[0] == '>' then false
    else if s[0] != '<' then Scan(s[1..], stack)
    else
      var end := IndexOf(s, '>', 0);
      end < |s| &&
      var body, rest := s[1..end], s[end + 1..];
      IndexOf(body, '<', 0) == |body| &&
      if body != "" && body[0] == '/' then
        stack != [] && stack[|stack| - 1] == body[1..] && Scan(rest, stack[..|stack| - 1])
      else
        var name := body[..IndexOf(body, ' ', 0)];
        Scan(rest, if IsVoidName(name) then stack else stack + [name])
  }

  predicate WellNested(s: string) {
    Scan(s, [])
  }

  lemma {:induction false} ScanWords(s: string, rest: string, stack: seq<string>)
    requires Inert(s)
    ensures Scan(s + rest, stack) == Scan(rest, stack)
  {
    if s == "" {
      assert s + rest == rest;
    } else {
      assert (s + rest)[0] == s[0] && (s + rest)[1..] == s[1..] + rest;
      ScanWords(s[1..], rest, stack);
    }
  }

  predicate NoAngles(s: string) {
    forall i :: 0 <= i < |s| ==> s[i] != '<' && s[i] != '>'
  }

  lemma {:induction false} ScanTag(body: string, rest: string, stack: seq<string>)
    requires NoAngles(body)
    ensures Scan("<" + (body + (">" + rest)), stack) ==
            if body != "" && body[0] == '/' then
              stack != [] && stack[|stack| - 1] == body[1..] && Scan(rest, stack[..|stack| - 1])
            else
              Scan(rest, if IsVoidName(body[..IndexOf(body, ' ', 0)]) then stack else stack + [body[..IndexOf(body, ' ', 0)]])
  {
    hide IsVoidName;
    var s := "<" + (body + (">" + rest));
    TagEnds(body, rest);
  }

  lemma TagEnds(body: string, rest: string)
    requires NoAngles(body)
    ensures var s := "<" + (body + (">" + rest));
            var end := IndexOf(s, '>', 0);
            s[0] == '<' && end == |body| + 1 < |s| && s[1..end] == body && s[end + 1..] == rest
  {
    var s := "<" + (body + (">" + rest));
    assert s[|body| + 1] == '>' && forall i :: 0 < i < |body| + 1 ==> s[i] == body[i - 1];
  }

  lemma NoAnglesJoin(a: string, b: string)
    requires NoAngles(a) && NoAngles(b)
    ensures NoAngles(a + b)
  {
  }

  lemma EscapedHasNoAngles(s: string)
    ensures NoAngles(EscapeHtml(s))
  {
    EscapeIsInert(s);
  }

  lemma AttributeHasNoAngles(name: string, value: string)
    requires NoAngles(name)
    ensures NoAngles(Attribute(name, value)) && Attribute(name, value)[0] == ' '
  {
    hide EscapeHtml, NoAngles;
    EscapedHasNoAngles(value);
    Plain(" ");
    Plain("=\"");
    Plain("\"");
    NoAnglesJoin(EscapeHtml(value), "\"");
    NoAnglesJoin("=\"", EscapeHtml(value) + "\"");
    NoAnglesJoin(name, "=\"" + (EscapeHtml(value) + "\""));
    NoAnglesJoin(" ", name + ("=\"" + (EscapeHtml(value) + "\"")));
  }

  lemma Plain(s: string)
    requires forall i :: 0 <= i < |s| ==> s[i] != '<' && s[i] != '>'
    ensures NoAngles(s)
  {
  }

  lemma AttributesHaveNoAngles(t: Tag)
    ensures NoAngles(Attributes(t)) && (Attributes(t) != "" ==> Attributes(t)[0] == ' ')
  {
    hide EscapeHtml, NoAngles, Attribute;
    Plain("");
    Plain("href");
    Plain("class");
    Plain("src");
    Plain("alt");
    Plain("\"");
    match t {
      case Anchor(url) => AttributeHasNoAngles("href", url);
      case Wanted(url, cls) =>
        AttributeHasNoAngles("href", url);
        AttributeHasNoAngles("class", cls);
        Plain(" title=\"This page does not exist yet\"");
        NoAnglesJoin(Attribute("class", cls), " title=\"This page does not exist yet\"");
        NoAnglesJoin(Attribute("href", url), Attribute("class", cls) + " title=\"This page does not exist yet\"");
      case LangCode(info) =>
        EscapedHasNoAngles(info);
        Plain(" class=\"lang-");
        NoAnglesJoin(EscapeHtml(info), "\"");
        NoAnglesJoin(" class=\"lang-", EscapeHtml(info) + "\"");
      case Truncated => Plain(" class=\"truncated\"");
      case Image(url, alt) =>
        AttributeHasNoAngles("src", url);
        AttributeHasNoAngles("alt", alt);
        NoAnglesJoin(Attribute("src", url), Attribute("alt", alt));
      case _ =>
    }
  }

  lemma NameIsPlain(name: string, attributes: string)
    requires IsTagName(name) && (attributes != "" ==> attributes[0] == ' ')
    ensures NoAngles(name) && name[0] != '/' && (name + attributes)[0] == name[0]
    ensures (name + attributes)[..IndexOf(name + attributes, ' ', 0)] == name
  {
    var s := name + attributes;
    assert forall i :: 0 <= i < |name| ==> s[i] == name[i];
    assert attributes != "" ==> s[|name|] == ' ';
    assert IndexOf(s, ' ', 0) == |name|;
  }

  lemma NameOfLegal(t: Tag)
    requires LegalTag(t)
    ensures IsTagName(TagName(t))
  {
  }

  lemma ScanOpen(t: Tag, rest: string, stack: seq<string>)
    requires LegalTag(t)
    ensures Scan(Open(t) + rest, stack) == Scan(rest, if IsVoidName(TagName(t)) then stack else stack + [TagName(t)])
  {
    hide Scan, NoAngles, Attributes, TagName, IsVoidName, IsTagName, LegalTag;
    var body := TagName(t) + Attributes(t);
    AttributesHaveNoAngles(t);
    NameOfLegal(t);
    NameIsPlain(TagName(t), Attributes(t));
    NoAnglesJoin(TagName(t), Attributes(t));
    ScanTag(body, rest, stack);
    Assoc("<", TagName(t) + (Attributes(t) + ">"), rest);
    Assoc(TagName(t), Attributes(t) + ">", rest);
    Assoc(Attributes(t), ">", rest);
    Assoc(TagName(t), Attributes(t), ">" + rest);
  }

  lemma ScanClose(t: Tag, rest: string, stack: seq<string>)
    requires LegalTag(t)
    ensures Scan(Close(t) + rest, stack + [TagName(t)]) == Scan(rest, stack)
  {
    hide Scan, NoAngles, TagName, IsTagName, LegalTag, IsVoidName;
    var name := TagName(t);
    NameOfLegal(t);
    NameIsPlain(name, "");
    Plain("/");
    NoAnglesJoin("/", name);
    ScanTag("/" + name, rest, stack + [name]);
    assert ("/" + name)[1..] == name && (stack + [name])[..|stack|] == stack;
    assert Close(t) + rest == "<" + (("/" + name) + (">" + rest));
  }

  lemma {:induction false} ScanNode(n: Node, rest: string, stack: seq<string>)
    requires Legal(n)
    ensures Scan(Print(n) + rest, stack) == Scan(rest, stack)
    decreases n
  {
    hide Scan, Open, Close, EscapeHtml, LegalTag, TagName, IsVoidName;
    match n {
      case Words(s) =>
        EscapeIsInert(s);
        ScanWords(EscapeHtml(s), rest, stack);
      case Element(tag, children) =>
        Assoc(Open(tag), PrintAll(children) + Close(tag), rest);
        Assoc(PrintAll(children), Close(tag), rest);
        ScanOpen(tag, PrintAll(children) + (Close(tag) + rest), stack);
        ScanNodes(children, Close(tag) + rest, stack + [TagName(tag)]);
        ScanClose(tag, rest, stack);
      case Lone(tag) => ScanOpen(tag, rest, stack);
    }
  }

  lemma {:induction false} ScanNodes(ns: seq<Node>, rest: string, stack: seq<string>)
    requires AllLegal(ns)
    ensures Scan(PrintAll(ns) + rest, stack) == Scan(rest, stack)
    decreases ns
  {
    hide Scan, Print, Legal;
    if ns == [] {
      assert "" + rest == rest;
    } else {
      Assoc(Print(ns[0]), PrintAll(ns[1..]), rest);
      ScanNode(ns[0], PrintAll(ns[1..]) + rest, stack);
      ScanNodes(ns[1..], rest, stack);
    }
  }

  /** The text of any legal tree is well nested. */
  lemma TreesAreWellNested(ns: seq<Node>)
    requires AllLegal(ns)
    ensures WellNested(PrintAll(ns))
  {
    hide PrintAll, AllLegal;
    ScanNodes(ns, "", []);
    assert PrintAll(ns) + "" == PrintAll(ns);
    assert Scan("", []);
  }

  // ---- lists of trees -----------------------------------------------------

  lemma {:induction false} PrintJoin(a: seq<Node>, b: seq<Node>)
    ensures PrintAll(a + b) == PrintAll(a) + PrintAll(b)
    ensures AllLegal(a) && AllLegal(b) ==> AllLegal(a + b)
  {
    hide Print, Legal;
    if a == [] {
      assert a + b == b;
    } else {
      assert (a + b)[0] == a[0] && (a + b)[1..] == a[1..] + b;
      PrintJoin(a[1..], b);
      Assoc(Print(a[0]), PrintAll(a[1..]), PrintAll(b));
    }
  }
}
