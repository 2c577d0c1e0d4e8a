/** Documents: text with emphasis, code, links and images, and blocks of it. Their Markdown source, and the HTML that
    core/include/quackmail/markdown.hpp promises for it, written out. */
module MarkdownDoc {
  import opened Text
  import opened Html
  import opened MarkdownTree

  // ---- lines of text --------------------------------------------------------

  datatype Span =
    | Letter(c: char)
    | Bare(c: char)
    | Code(ticks: nat, text: string)
    | Em(mark: char, body: seq<Span>)
    | Strong(mark: char, body: seq<Span>)
    | Link(body: seq<Span>, url: string)
    | Picture(alt: string, url: string)
    | Wiki(page: string)
    | WikiAs(page: string, caption: string)
    | Url(url: string)

  const PUNCTUATION: set<char> :=
    {'!', '"', '#', '$', '%', '&', '\'', '(', ')', '*', '+', ',', '-', '.', '/', ':', ';', '<', '=', '>', '?', '@', '[', '\\', ']', '^',
     '_', '`', '{', '|', '}', '~'}

  function Ticks(n: nat): (r: string)
    ensures |r| == n
  {
    if n == 0 then "" else "`" + Ticks(n - 1)
  }

  /** The Markdown of a span: a backslash protects punctuation, unless it is to stand bare. */
  function Source(d: Span): string
    decreases d, 0
  {
    match d
    case Letter(c) => if c in PUNCTUATION then ['\\', c] else [c]
    case Bare(c) => [c]
    case Code(ticks, text) => Ticks(ticks) + (text + Ticks(ticks))
    case Em(mark, body) => [mark] + (SourceOf(body) + [mark])
    case Strong(mark, body) => [mark, mark] + (SourceOf(body) + [mark, mark])
    case Link(body, url) => "[" + (SourceOf(body) + ("](" + (url + ")")))
    case Picture(alt, url) => "![" + (alt + ("](" + (url + ")")))
    case Wiki(page) => "[[" + (page + "]]")
    case WikiAs(page, caption) => "[[" + ((page + ("|" + caption)) + "]]")
    case Url(url) => url
  }

  function SourceOf(ds: seq<Span>): string
    decreases ds, 1
  {
    if ds == [] then "" else Source(ds[0]) + SourceOf(ds[1..])
  }

  /** What a wiki page shows as: an anchor, marked when the page does not exist, or only its caption when the page leads to
      no safe place. */
  function WikiHtml(opts: Options, page: string, caption: string): string {
    var href := if opts.link.Some? then opts.link.value(page) else "";
    if href == "" || !SafeUrl(href) then EscapeHtml(caption)
    else
      "<a href=\"" + EscapeHtml(href) + "\"" +
      (if opts.known.Some? && !opts.known.value(page)
       then " class=\"" + EscapeHtml(opts.wantedClass) + "\"" + " title=\"This page does not exist yet\"" else "") +
      ">" + EscapeHtml(caption) + "</a>"
  }

  /** The HTML of a span. Only safe addresses are linked. */
  function Shown(opts: Options, d: Span): string
    decreases d, 0
  {
    match d
    case Letter(c) => EscapeHtml([c])
    case Bare(c) => EscapeHtml([c])
    case Code(_, text) => "<code>" + EscapeHtml(text) + "</code>"
    case Em(_, body) => "<em>" + ShownAll(opts, body) + "</em>"
    case Strong(_, body) => "<strong>" + ShownAll(opts, body) + "</strong>"
    case Link(body, url) =>
      if SafeUrl(url) then "<a href=\"" + EscapeHtml(url) + "\">" + ShownAll(opts, body) + "</a>" else EscapeHtml(SourceOf(body))
    case Picture(alt, url) =>
      if SafeUrl(url) then "<img src=\"" + EscapeHtml(url) + "\" alt=\"" + EscapeHtml(alt) + "\">" else EscapeHtml(alt)
    case Wiki(page) => WikiHtml(opts, page, page)
    case WikiAs(page, caption) => WikiHtml(opts, page, caption)
    case Url(url) => "<a href=\"" + EscapeHtml(url) + "\">" + EscapeHtml(url) + "</a>"
  }

  function ShownAll(opts: Options, ds: seq<Span>): string
    decreases ds, 1
  {
    if ds == [] then "" else Shown(opts, ds[0]) + ShownAll(opts, ds[1..])
  }

  // ---- which documents can be written -----------------------------------------

  /** The mark after the text is the first: it is found by its characters alone, protected or not. */
  predicate FirstAt(t: string, mark: string) {
    forall k :: 0 <= k < |t| ==> !(mark <= (t + mark)[k..])
  }

  predicate Lacks(t: string, c: char) {
    forall k :: 0 <= k < |t| ==> t[k] != c
  }

  predicate Trimmed(t: string) {
    t == "" || (t[0] !in " \t\r" && t[|t| - 1] !in " \t\r")
  }

  predicate Address(url: string) {
    Lacks(url, ')') && Trimmed(url)
  }

  predicate StartsAddress(s: string) {
    "http://" <= s || "https://" <= s
  }

  /** What ends a bare address. */
  predicate EndsAddress(c: char) {
    c == ' ' || '\t' <= c <= '\r' || c == '<' || c == ')'
  }

  /** What is not part of a bare address that it ends. */
  predicate Closing(c: char) {
    c == '.' || c == ',' || c == ';' || c == ':' || c == '!' || c == '?' || c == '\0'
  }

  /** A span after the text `before` and in front of the text `rest`. */
  predicate Writable(d: Span, before: string, rest: string, depth: nat)
    decreases d, 0
  {
    match d
    case Letter(c) => c == 'h' ==> !StartsAddress("h" + rest)
    case Bare(c) => c !in "\\`[*_" && (c == '!' ==> !("[" <= rest)) && (c == 'h' ==> !StartsAddress("h" + rest))
    case Code(ticks, text) => ticks >= 1 && text != "" && text[0] != '`' && FirstAt(text, Ticks(ticks))
    case Em(mark, body) => (mark == '*' || mark == '_') && FirstAt(SourceOf(body), [mark]) && BodyWritable(body, depth)
    case Strong(mark, body) => (mark == '*' || mark == '_') && FirstAt(SourceOf(body), [mark, mark]) && BodyWritable(body, depth)
    case Link(body, url) =>
      && Address(url) && Lacks(SourceOf(body), ']') && !("[" <= SourceOf(body))
      && (SafeUrl(url) ==> depth < 8 && AllWritable(body, "", depth + 1))
    case Picture(alt, url) => Address(url) && Lacks(alt, ']')
    case Wiki(page) => FirstAt(page, "]]") && Trimmed(page) && Lacks(page, '|')
    case WikiAs(page, caption) =>
      && FirstAt(page + ("|" + caption), "]]") && Trimmed(page + ("|" + caption))
      && Trimmed(page) && Trimmed(caption) && Lacks(page, '|')
    case Url(url) =>
      && StartsAddress(url) && (forall k :: 0 <= k < |url| ==> !EndsAddress(url[k]))
      && !Closing(url[|url| - 1])
      && (before == "" || IsSpace(before[|before| - 1]) || before[|before| - 1] == '(')
      && (rest == "" || EndsAddress(rest[0]))
  }

  /** Emphasis nests up to eight deep and does not begin with a blank. */
  predicate BodyWritable(body: seq<Span>, depth: nat)
    decreases body, 2
  {
    SourceOf(body) != "" && !IsSpace(SourceOf(body)[0]) && depth < 8 && AllWritable(body, "", depth + 1)
  }

  predicate AllWritable(ds: seq<Span>, before: string, depth: nat)
    decreases ds, 1
  {
    ds == [] ||
    (Writable(ds[0], before, SourceOf(ds[1..]), depth) && AllWritable(ds[1..], before + Source(ds[0]), depth))
  }
}
