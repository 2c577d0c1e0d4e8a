/** What a signature covers in core/src/dkim.cpp. */
module Dkim {
  import opened Text

  // The text processing, as the signer and the verifier each compute it. Digests, base64 and signing are
  // parameters.

  datatype Header = Header(name: string, value: string)

  predicate IsWsp(c: char) {
    c == ' ' || c == '\t'
  }

  predicate IsBreak(c: char) {
    c == '\r' || c == '\n'
  }

  // ---- splitting a message ------------------------------------------------

  /** Line ends rewritten as CRLF. */
  function Normal(raw: string): string {
    if raw == "" then ""
    else (if raw[0] == '\r' then "" else if raw[0] == '\n' then "\r\n" else [raw[0]]) + Normal(raw[1..])
  }

  /** The position of the first CRLF, or the length when there is none. */
  function FindCrlf(s: string): (n: nat)
    ensures n <= |s| && (n < |s| ==> n + 2 <= |s| && s[n..n + 2] == "\r\n")
  {
    if |s| < 2 then |s|
    else if s[0] == '\r' && s[1] == '\n' then 0
    else 1 + FindCrlf(s[1..])
  }

  /** The position of the first empty line's two CRLFs, or the length when there are none. */
  function FindGap(s: string): (n: nat)
    ensures n <= |s| && (n < |s| ==> n + 4 <= |s|)
  {
    if |s| < 4 then |s|
    else if s[..4] == "\r\n\r\n" then 0
    else 1 + FindGap(s[1..])
  }

  function Finished(current: Option<Header>): seq<Header> {
    if current.Some? then [current.value] else []
  }

  /** The header that a line opens, if it has a colon. */
  function Opened(line: string): Option<Header> {
    var colon := IndexOf(line, ':', 0);
    if colon == |line| then None else Some(Header(line[..colon], line[colon + 1..]))
  }

  function Continued(current: Option<Header>, line: string): Option<Header> {
    if current.Some? then Some(current.value.(value := current.value.value + ("\r\n" + line))) else None
  }

  function AfterCrlf(s: string): (r: string)
    ensures |r| <= |s| && (s != "" ==> |r| < |s|)
  {
    var eol := FindCrlf(s);
    if eol == |s| then "" else s[eol + 2..]
  }

  /** The headers of a block, continuation lines joined; `current` is still open. */
  function HeadersOf(head: string, current: Option<Header>): seq<Header>
    decreases |head|
  {
    if head == "" then Finished(current)
    else
      var line := head[..FindCrlf(head)];
      if line == "" then HeadersOf(AfterCrlf(head), current)
      else if IsWsp(line[0]) then HeadersOf(AfterCrlf(head), Continued(current, line))
      else Finished(current) + HeadersOf(AfterCrlf(head), Opened(line))
  }

  function HeadOf(norm: string): string {
    var gap := FindGap(norm);
    if gap == |norm| then norm else norm[..gap + 2]
  }

  function BodyOf(norm: string): string {
    var gap := FindGap(norm);
    if gap == |norm| then "" else norm[gap + 4..]
  }

  function MessageHeaders(raw: string): seq<Header> {
    HeadersOf(HeadOf(Normal(raw)), None)
  }

  function MessageBody(raw: string): string {
    BodyOf(Normal(raw))
  }

  // ---- tag lists ----------------------------------------------------------

  datatype TagPair = TagPair(name: string, value: string)

  /** The text up to the first semicolon, and what follows it. */
  function ChunkOf(s: string): string {
    s[..IndexOf(s, ';', 0)]
  }

  function AfterChunk(s: string): (r: string)
    ensures s != "" ==> |r| < |s|
  {
    var semi := IndexOf(s, ';', 0);
    if semi == |s| then "" else s[semi + 1..]
  }

  /** The tag of a chunk that has an equals sign. */
  function TagOf(chunk: string): Option<TagPair> {
    var eq := IndexOf(chunk, '=', 0);
    if eq == |chunk| then None else Some(TagPair(ToLower(TrimSpace(chunk[..eq])), TrimSpace(Clean(chunk[eq + 1..]))))
  }

  function TagsOf(s: string): seq<TagPair>
    decreases |s|
  {
    if s == "" then []
    else
      match TagOf(ChunkOf(s))
      case None => TagsOf(AfterChunk(s))
      case Some(t) => [t] + TagsOf(AfterChunk(s))
  }

  function TagValue(tags: seq<TagPair>, name: string): string {
    if tags == [] then "" else if tags[0].name == name then tags[0].value else TagValue(tags[1..], name)
  }

  function StripWsp(s: string): string {
    if s == "" then "" else (if IsWsp(s[0]) || IsBreak(s[0]) then "" else [s[0]]) + StripWsp(s[1..])
  }

  // ---- canonical forms (section 3.4 of RFC 6376) ----------------------------

  /** Runs of blanks as one space, none at either end: `blank` when one is pending, `begun` when text came before. */
  function Collapse(s: string, blank: bool, begun: bool): string {
    if s == "" then ""
    else if IsWsp(s[0]) then Collapse(s[1..], true, begun)
    else (if blank && begun then [' ', s[0]] else [s[0]]) + Collapse(s[1..], false, true)
  }

  function BodyLines(body: string): seq<string>
    decreases |body|
  {
    if body == "" then []
    else
      var eol := FindCrlf(body);
      if eol == |body| then [body] else [body[..eol]] + BodyLines(body[eol + 2..])
  }

  function CollapseAll(lines: seq<string>): (r: seq<string>)
    ensures |r| == |lines|
  {
    if lines == [] then [] else [Collapse(lines[0], false, false)] + CollapseAll(lines[1..])
  }

  function DropEmptyTail(lines: seq<string>): seq<string> {
    if lines != [] && lines[|lines| - 1] == "" then DropEmptyTail(lines[..|lines| - 1]) else lines
  }

  function JoinLines(lines: seq<string>): string {
    if lines == [] then "" else lines[0] + ("\r\n" + JoinLines(lines[1..]))
  }

  function CanonicalBody(body: string, relaxed: bool): string {
    var lines := DropEmptyTail(if relaxed then CollapseAll(BodyLines(body)) else BodyLines(body));
    if lines == [] then (if relaxed then "" else "\r\n") else JoinLines(lines)
  }

  function CanonicalHeader(h: Header, relaxed: bool): string {
    if relaxed then ToLower(TrimSpace(h.name)) + (":" + (Collapse(Clean(h.value), false, false) + "\r\n"))
    else h.name + (":" + (h.value + "\r\n"))
  }

  // ---- choosing headers (section 5.4.2 of RFC 6376) --------------------------

  function NameOf(h: Header): string {
    ToLower(TrimSpace(h.name))
  }

  /** The names of a colon-separated list, lower-cased; empty ones dropped. */
  function NamesOf(list: string): seq<string>
    decreases |list|
  {
    var colon := IndexOf(list, ':', 0);
    var name := ToLower(TrimSpace(list[..colon]));
    (if name == "" then [] else [name]) + (if colon == |list| then [] else NamesOf(list[colon + 1..]))
  }

  /** The last of the first `n` headers that is unused and has the name; `n` headers when there is none. */
  function LastUnused(headers: seq<Header>, used: set<nat>, name: string, n: nat): (r: Option<nat>)
    requires n <= |headers|
    ensures r.Some? ==> r.value < n
  {
    if n == 0 then None
    else if (n - 1) !in used && NameOf(headers[n - 1]) == name then Some(n - 1)
    else LastUnused(headers, used, name, n - 1)
  }

  /** It is unused and named so, and every later header of the name is used. */
  lemma {:induction false} LastUnusedIs(headers: seq<Header>, used: set<nat>, name: string, n: nat)
    requires n <= |headers|
    ensures var r := LastUnused(headers, used, name, n);
            && (r.Some? ==> r.value !in used && NameOf(headers[r.value]) == name)
            && forall i :: (if r.Some? then r.value + 1 else 0) <= i < n ==> i in used || NameOf(headers[i]) != name
  {
    hide NameOf;
    if n > 0 && !((n - 1) !in used && NameOf(headers[n - 1]) == name) {
      LastUnusedIs(headers, used, name, n - 1);
    }
  }

  /** The canonical text of the headers that a list of names takes, each from the bottom up. */
  function Chosen(headers: seq<Header>, used: set<nat>, names: seq<string>, relaxed: bool): string
    decreases |names|
  {
    if names == [] then ""
    else
      match LastUnused(headers, used, names[0], |headers|)
      case None => Chosen(headers, used, names[1..], relaxed)
      case Some(i) => CanonicalHeader(headers[i], relaxed) + Chosen(headers, used + {i}, names[1..], relaxed)
  }

  /** The names of which some header is present. */
  function Present(headers: seq<Header>, names: seq<string>): seq<string> {
    if names == [] then []
    else (if exists i :: 0 <= i < |headers| && NameOf(headers[i]) == names[0] then [names[0]] else []) + Present(headers, names[1..])
  }

  // ---- emptying the b= tag ------------------------------------------------

  /** Where a `b=` starts a tag, or the length; `start` when nothing but blanks has come since a semicolon. */
  function FindB(s: string, start: bool): (n: nat)
    ensures n <= |s| && (n < |s| ==> n + 2 <= |s|)
  {
    if |s| < 2 then |s|
    else if start && LowerChar(s[0]) == 'b' && s[1] == '=' then 0
    else 1 + FindB(s[1..], if IsWsp(s[0]) || IsBreak(s[0]) then start else s[0] == ';')
  }

  /** The signature value with whatever its b= tag holds removed. */
  function EmptyB(value: string): string {
    var at := FindB(value, true);
    if at == |value| then value
    else value[..at + 2] + value[IndexOf(value, ';', at)..]
  }

  /** The signature header as it is signed: canonical, and without its CRLF. */
  function SignatureText(h: Header, relaxed: bool): string {
    var c := CanonicalHeader(h, relaxed);
    if |c| >= 2 then c[..|c| - 2] else c
  }

  // ---- what the two sides compute -----------------------------------------

  /** What a signature names and what it covers. */
  datatype Cover = Cover(domain: string, selector: string, algorithm: string, bodyHash: string, signature: string,
                         body: string, headers: string)

  function BeforeSlash(canon: string): string {
    canon[..IndexOf(canon, '/', 0)]
  }

  function AfterSlash(canon: string): string {
    var slash := IndexOf(canon, '/', 0);
    if slash == |canon| then "simple" else canon[slash + 1..]
  }

  predicate RelaxedHeader(canon: string) {
    canon != "" && TrimSpace(BeforeSlash(canon)) == "relaxed"
  }

  predicate RelaxedBody(canon: string) {
    canon != "" && TrimSpace(AfterSlash(canon)) == "relaxed"
  }

  function Algorithm(tag: string): string {
    if tag == "" then "rsa-sha256" else tag
  }

  /** The algorithms the verifier knows. */
  predicate Supported(algorithm: string) {
    algorithm == "rsa-sha256" || algorithm == "rsa-sha1" || algorithm == "ed25519-sha256"
  }

  /** What the verifier rebuilds for the signature header at an index; None when a required tag is
      missing or the algorithm is not supported. */
  function Rebuilt(headers: seq<Header>, body: string, at: nat): Option<Cover>
    requires at < |headers|
  {
    var tags := TagsOf(headers[at].value);
    var domain, selector := TagValue(tags, "d"), TagValue(tags, "s");
    var b, bh := StripWsp(TagValue(tags, "b")), StripWsp(TagValue(tags, "bh"));
    var list, canon := TagValue(tags, "h"), ToLower(TagValue(tags, "c"));
    if domain == "" || selector == "" || b == "" || bh == "" || list == "" then None
    else if !Supported(Algorithm(ToLower(TagValue(tags, "a")))) then None
    else
      Some(Cover(domain, selector, Algorithm(ToLower(TagValue(tags, "a"))), bh, b,
                 CanonicalBody(body, RelaxedBody(canon)),
                 Chosen(headers, {at}, NamesOf(list), RelaxedHeader(canon)) +
                 SignatureText(Header(headers[at].name, EmptyB(headers[at].value)), RelaxedHeader(canon))))
  }

  const DEFAULT_LIST := "from:to:cc:subject:date:message-id:mime-version:" + "content-type:content-transfer-encoding"

  /** Names joined by colons. */
  function Colons(names: seq<string>): string {
    if names == [] then "" else if |names| == 1 then names[0] else names[0] + (":" + Colons(names[1..]))
  }

  /** A tag, what stands before it, and what follows its semicolon. */
  function TagText(gap: string, name: string, value: string, rest: string): string {
    gap + (name + ("=" + (value + (";" + rest))))
  }

  const FOLD := "\r\n\t"

  /** The c= tag, left out when it is empty. */
  function CanonTag(c: string, rest: string): string {
    if c == "" then rest else TagText(" ", "c", c, rest)
  }

  /** The value of the signature header as a chain of tags that ends in the b= tag. */
  function Chain(a: string, c: string, d: string, s: string, t: string, h: string, bh: string, last: string): string {
    TagText(" ", "v", "1", TagText(" ", "a", a, CanonTag(c, TagText(FOLD, "d", d,
    TagText(" ", "s", s, TagText(FOLD, "t", t, TagText(FOLD, "h", h, TagText(FOLD, "bh", bh, last))))))))
  }

  /** The value of a signature header, with an empty b= tag. */
  function SignatureValue(algorithm: string, c: string, domain: string, selector: string, time: nat, list: string, bodyHash: string): string {
    Chain(algorithm, c, domain, selector, Num(time), list, bodyHash, FOLD + "b=")
  }

  /** Base64 text in lines of 64. */
  function Folded(b64: string): string {
    if |b64| <= 64 then b64 else b64[..64] + (FOLD + Folded(b64[64..]))
  }

  /** The inputs of the signer that it does not compute itself. */
  datatype Signer = Signer(ed25519: bool, time: nat, digest: string -> string, encode: string -> string, sign: string -> Option<string>)

  function AlgorithmOf(s: Signer): string {
    if s.ed25519 then "ed25519-sha256" else "rsa-sha256"
  }

  datatype Form = Simple | Relaxed

  /** How a signer canonicalizes, and how its c= tag says so (section 3.5 of RFC 6376): both halves, the header half
      alone, or not at all; what is left out is simple. */
  datatype Canon = Both(header: Form, body: Form) | HeaderOnly(header: Form) | Unsaid

  function FormName(f: Form): string {
    match f case Simple => "simple" case Relaxed => "relaxed"
  }

  function CanonText(c: Canon): string {
    match c
    case Both(header, body) => FormName(header) + ("/" + FormName(body))
    case HeaderOnly(header) => FormName(header)
    case Unsaid => ""
  }

  predicate HeaderIsRelaxed(c: Canon) {
    !c.Unsaid? && c.header == Relaxed
  }

  predicate BodyIsRelaxed(c: Canon) {
    c.Both? && c.body == Relaxed
  }

  function BodyHashOf(s: Signer, c: Canon, raw: string): string {
    s.encode(s.digest(CanonicalBody(MessageBody(raw), BodyIsRelaxed(c))))
  }

  function WantedNames(raw: string, list: string): seq<string> {
    Present(MessageHeaders(raw), NamesOf(if list == "" then DEFAULT_LIST else list))
  }

  function UnsignedValue(s: Signer, c: Canon, raw: string, domain: string, selector: string, list: string): string {
    SignatureValue(AlgorithmOf(s), CanonText(c), domain, selector, s.time, Colons(WantedNames(raw, list)), BodyHashOf(s, c, raw))
  }

  /** The header block that a signer signs. */
  function SignedBlock(s: Signer, c: Canon, raw: string, domain: string, selector: string, list: string): string {
    Chosen(MessageHeaders(raw), {}, WantedNames(raw, list), HeaderIsRelaxed(c)) +
    SignatureText(Header("DKIM-Signature", UnsignedValue(s, c, raw, domain, selector, list)), HeaderIsRelaxed(c))
  }

  /** The message as signed by a signer of any canonicalization; None when nothing is to be signed or signing fails. */
  function SignedAs(s: Signer, c: Canon, raw: string, domain: string, selector: string, list: string): Option<string> {
    if domain == "" || selector == "" || WantedNames(raw, list) == [] then None
    else
      match s.sign(SignedBlock(s, c, raw, domain, selector, list))
      case None => None
      case Some(signature) =>
        Some("DKIM-Signature:" + (UnsignedValue(s, c, raw, domain, selector, list) + (Folded(s.encode(signature)) + ("\r\n" + raw))))
  }

  /** The message as this program signs it: always relaxed. */
  function Signed(s: Signer, raw: string, domain: string, selector: string, list: string): Option<string> {
    SignedAs(s, Both(Relaxed, Relaxed), raw, domain, selector, list)
  }
}
