/** The Sieve lexer of core/src/sieve.cpp (section 8.1 of RFC 5228): the grammar of tokens, and the lexer object
    that is proved against it. Token line numbers, which only error messages use, are not modelled. */
module SieveLex {
  import opened Text

  datatype Token =
    | End
    | Ident(text: string)
    | Tag(text: string)
    | Number(n: nat)
    | Str(text: string)
    | LBracket | RBracket | LParen | RParen | LBrace | RBrace | Comma | Semicolon

  // ---- characters (the C locale) ------------------------------------------

  predicate IsAlpha(c: char) {
    'a' <= c <= 'z' || 'A' <= c <= 'Z'
  }

  predicate IsNameChar(c: char) {
    IsAlpha(c) || IsDigit(c) || c == '_'
  }

  predicate IsTagChar(c: char) {
    IsNameChar(c) || c == '.' || c == '-'
  }

  // ---- runs ---------------------------------------------------------------

  datatype Class = Names | Tags | Digits

  predicate Within(k: Class, c: char) {
    match k
    case Names => IsNameChar(c)
    case Tags => IsTagChar(c)
    case Digits => IsDigit(c)
  }

  /** How many leading characters belong to the class. */
  function Span(k: Class, s: string): (n: nat)
    ensures n <= |s|
  {
    if s != "" && Within(k, s[0]) then 1 + Span(k, s[1..]) else 0
  }

  // ---- strings ------------------------------------------------------------

  /** The contents of a quoted string and what follows its closing quote; `s` starts after the
      opening one. */
  function Quoted(s: string): (r: Option<(string, string)>)
    ensures r.Some? ==> |r.value.1| < |s|
  {
    if s == "" then None
    else if s[0] == '"' then Some(("", s[1..]))
    else
      var skip := if s[0] == '\\' && |s| > 1 then 1 else 0;
      match Quoted(s[skip + 1..])
      case None => None
      case Some((value, rest)) => Some(([s[skip]] + value, rest))
  }

  function Unstuff(line: string): string {
    if |line| >= 2 && line[0] == '.' && line[1] == '.' then line[1..] else line
  }

  /** What follows the first newline. */
  function AfterLine(s: string): (r: string)
    ensures |r| <= |s|
  {
    var nl := IndexOf(s, '\n', 0);
    if nl == |s| then "" else s[nl + 1..]
  }

  /** The lines of a `text:` block up to its lone dot, and what follows it. */
  function BlockLines(s: string): (r: Option<(string, string)>)
    ensures r.Some? ==> |r.value.1| <= |s|
    decreases |s|
  {
    if s == "" then None
    else
      var line := StripCr(s[..IndexOf(s, '\n', 0)]);
      if line == "." then Some(("", AfterLine(s)))
      else match BlockLines(AfterLine(s))
        case None => None
        case Some((value, rest)) => Some(((Unstuff(line) + "\r\n") + value, rest))
  }

  // ---- tokens -------------------------------------------------------------

  function Punct(c: char): Option<Token> {
    match c
    case '[' => Some(LBracket)
    case ']' => Some(RBracket)
    case '(' => Some(LParen)
    case ')' => Some(RParen)
    case '{' => Some(LBrace)
    case '}' => Some(RBrace)
    case ',' => Some(Comma)
    case ';' => Some(Semicolon)
    case _ => None
  }

  function Scale(s: string): nat {
    if s == "" then 1
    else match LowerChar(s[0])
      case 'k' => 1024
      case 'm' => 1024 * 1024
      case 'g' => 1024 * 1024 * 1024
      case _ => 1
  }

  function LexTag(s: string): (r: Option<(Token, string)>)
    requires s != ""
    ensures r.Some? ==> |r.value.1| < |s|
  {
    var n := Span(Tags, s[1..]);
    if n == 0 then None else Some((Tag(ToLower(s[1..n + 1])), s[n + 1..]))
  }

  function LexNumber(s: string): (r: Option<(Token, string)>)
    requires s != "" && IsDigit(s[0])
    ensures r.Some? ==> |r.value.1| < |s|
  {
    var n := Span(Digits, s);
    var scale := Scale(s[n..]);
    Some((Number(DecValue(s[..n]) * scale), if scale > 1 && n < |s| then s[n + 1..] else s[n..]))
  }

  /** The string that a `text:` block starting here denotes. */
  function BlockToken(s: string): (r: Option<(Token, string)>)
    ensures r.Some? ==> |r.value.1| <= |s|
  {
    match BlockLines(AfterLine(s))
    case None => None
    case Some((value, rest)) => Some((Str(value), rest))
  }

  function LexWord(s: string): (r: Option<(Token, string)>)
    requires s != "" && IsNameChar(s[0])
    ensures r.Some? ==> |r.value.1| < |s|
  {
    var n := Span(Names, s);
    if ToLower(s[..n]) == "text" && n < |s| && s[n] == ':' then BlockToken(s[n + 1..])
    else Some((Ident(ToLower(s[..n])), s[n..]))
  }

  /** The token at the start of `s`, which is neither white space nor a comment. */
  function LexToken(s: string): (r: Option<(Token, string)>)
    requires s != ""
    ensures r.Some? ==> |r.value.1| < |s|
  {
    var c := s[0];
    if Punct(c).Some? then Some((Punct(c).value, s[1..]))
    else if c == '"' then
      match Quoted(s[1..])
      case None => None
      case Some((value, rest)) => Some((Str(value), rest))
    else if c == ':' then LexTag(s)
    else if IsDigit(c) then LexNumber(s)
    else if IsAlpha(c) || c == '_' then LexWord(s)
    else None
  }

  /** What follows the `*` `/` that closes a comment. */
  function AfterComment(s: string): (r: string)
    ensures |r| <= |s|
  {
    if |s| < 2 then ""
    else if s[0] == '*' && s[1] == '/' then s[2..]
    else AfterComment(s[1..])
  }

  /** The text with leading white space and comments removed. */
  function Skip(s: string): (r: string)
    ensures |r| <= |s|
    decreases |s|
  {
    if s == "" then s
    else if IsSpace(s[0]) then Skip(s[1..])
    else if s[0] == '#' then Skip(s[IndexOf(s, '\n', 1)..])
    else if s[0] == '/' && |s| > 1 && s[1] == '*' then Skip(AfterComment(s[2..]))
    else s
  }

  function Prepend(t: Token, ts: Option<seq<Token>>): Option<seq<Token>> {
    match ts
    case None => None
    case Some(v) => Some([t] + v)
  }

  /** All the tokens of a script, closed by End; None on a lexical error. */
  function Lex(s: string): Option<seq<Token>>
    decreases |s|
  {
    var t := Skip(s);
    if t == "" then Some([End])
    else match LexToken(t)
      case None => None
      case Some((token, rest)) => Prepend(token, Lex(rest))
  }

  // ---- the lexer object ---------------------------------------------------

  lemma CloseComment(s: string, i: nat)
    requires i <= |s| && (i + 1 < |s| ==> s[i] == '*' && s[i + 1] == '/')
    ensures AfterComment(s[i..]) == if i + 2 < |s| then s[i + 2..] else ""
  {
    if i + 1 < |s| {
      assert s[i..][0] == s[i] && s[i..][1] == s[i + 1] && s[i..][2..] == s[i + 2..];
    }
  }

  /** The quoted string whose first characters `v` have been read already. */
  function QuotedFrom(v: string, s: string): Option<(string, string)> {
    match Quoted(s)
    case None => None
    case Some((w, rest)) => Some((v + w, rest))
  }

  lemma QuotedBegins(s: string)
    ensures QuotedFrom("", s) == Quoted(s)
  {
    if Quoted(s).Some? {
      assert "" + Quoted(s).value.0 == Quoted(s).value.0;
    }
  }

  lemma QuotedRunsOut(v: string)
    ensures QuotedFrom(v, "") == None
  {
  }

  lemma QuotedEnds(s: string, i: nat, v: string)
    requires i < |s| && s[i] == '"'
    ensures QuotedFrom(v, s[i..]) == Some((v, s[i + 1..]))
  {
    Tail(s, i);
    assert v + "" == v;
  }

  /** Reading one character, or one escaped character. */
  lemma QuotedStep(s: string, i: nat, v: string)
    requires i < |s| && s[i] != '"'
    ensures var j := if s[i] == '\\' && i + 1 < |s| then i + 1 else i;
            QuotedFrom(v + [s[j]], s[j + 1..]) == QuotedFrom(v, s[i..])
  {
    var j := if s[i] == '\\' && i + 1 < |s| then i + 1 else i;
    var t := s[i..];
    assert t[0] == s[i] && t[j - i] == s[j] && t[j - i + 1..] == s[j + 1..];
    assert Quoted(t[j - i + 1..]) == Quoted(s[j + 1..]);
    if Quoted(s[j + 1..]).Some? {
      Assoc(v, [s[j]], Quoted(s[j + 1..]).value.0);
    }
  }

  lemma NumberToken(s: string, n: nat, rest: string, v: nat)
    requires s != "" && IsDigit(s[0]) && n == Span(Digits, s) && rest == s[n..] && v == DecValue(s[..n])
    ensures n > 0
    ensures LexNumber(s) == Some((Number(v * Scale(rest)), if Scale(rest) > 1 && rest != "" then rest[1..] else rest))
  {
    if rest != "" {
      assert rest[1..] == s[n + 1..];
    }
  }

  lemma {:induction false} WordToken(s: string, i: nat, p: nat, name: string)
    requires i < |s| && IsNameChar(s[i]) && p == i + Span(Names, s[i..])
    requires p <= |s| && name == s[i..p]
    ensures i < p
    ensures LexWord(s[i..]) ==
            if ToLower(name) == "text" && p < |s| && s[p] == ':' then BlockToken(s[p + 1..])
            else Some((Ident(ToLower(name)), s[p..]))
  {
    var t, n := s[i..], p - i;
    assert t[0] == s[i];
    assert t[..n] == name && t[n..] == s[p..];
    assert ToLower(t[..n]) == ToLower(name);
    if p < |s| {
      assert t[n] == s[p] && t[n + 1..] == s[p + 1..];
    }
  }

  lemma {:induction false} NextLineAt(s: string, from: nat, nl: nat, next: nat)
    requires from <= |s| && nl == IndexOf(s, '\n', from) && next == if nl < |s| then nl + 1 else |s|
    ensures from <= nl <= next <= |s| && (from < |s| ==> from < next)
    ensures s[next..] == AfterLine(s[from..])
    ensures s[from..nl] == s[from..][..IndexOf(s[from..], '\n', 0)]
  {
    hide IndexOf;
    IndexOfSuffix(s, '\n', from);
    TailOf(s, from, nl - from);
    if nl < |s| {
      TailOf(s, from, nl - from + 1);
    }
  }

  lemma SpanStep(k: Class, s: string, i: nat)
    requires i < |s|
    ensures Span(k, s[i..]) == if Within(k, s[i]) then 1 + Span(k, s[i + 1..]) else 0
  {
    Tail(s, i);
  }

  lemma CommentStep(s: string, i: nat)
    requires i + 1 < |s| && !(s[i] == '*' && s[i + 1] == '/')
    ensures AfterComment(s[i..]) == AfterComment(s[i + 1..])
  {
    Tail(s, i);
    assert s[i..][1] == s[i + 1];
  }

  /** Reading one more digit of a number. */
  lemma DigitStep(s: string, start: nat, i: nat)
    requires start <= i < |s| && IsDigit(s[i])
    ensures DecValue(s[start..i + 1]) == DecValue(s[start..i]) * 10 + DigitValue(s[i])
    ensures Span(Digits, s[i..]) == 1 + Span(Digits, s[i + 1..])
  {
    Tail(s, i);
    assert s[start..i + 1][..i - start] == s[start..i] && s[start..i + 1][i - start] == s[i];
  }

  lemma NoDigits(s: string)
    requires s == ""
    ensures DecValue(s) == 0
  {
  }

  lemma SkipStep(s: string)
    requires s != ""
    ensures Skip(s) == if IsSpace(s[0]) then Skip(s[1..])
                       else if s[0] == '#' then Skip(s[IndexOf(s, '\n', 1)..])
                       else if s[0] == '/' && |s| > 1 && s[1] == '*' then Skip(AfterComment(s[2..]))
                       else s
  {
    hide AfterComment;
  }

  class Lexer {
    const src: string
    var pos: nat

    constructor (s: string)
      ensures src == s && pos == 0
    {
      src := s;
      pos := 0;
    }

    /** What is still unread. */
    function Rest(): string
      reads this
    {
      if pos <= |src| then src[pos..] else ""
    }

    method SkipWhitespaceAndComments()
      requires pos <= |src|
      modifies this
      ensures pos <= |src| && Rest() == Skip(old(Rest()))
    {
      hide Skip, AfterComment, IndexOf;
      ghost var all := Rest();
      while pos < |src|
        invariant pos <= |src| && Skip(Rest()) == Skip(all)
        decreases |src| - pos
      {
        Tail(src, pos);
        SkipStep(Rest());
        assert pos + 1 < |src| ==> Rest()[1] == src[pos + 1];
        var c := src[pos];
        if IsSpace(c) {
          pos := pos + 1;
        } else if c == '#' {
          SkipComment();
        } else if c == '/' && pos + 1 < |src| && src[pos + 1] == '*' {
          SkipBlockComment();
        } else {
          return;
        }
      }
    }

    method SkipComment()
      requires pos < |src| && src[pos] == '#'
      modifies this
      ensures old(pos) < pos <= |src|
      ensures Rest() == old(Rest())[IndexOf(old(Rest()), '\n', 1)..]
    {
      ghost var all, start := Rest(), pos;
      pos := pos + 1;
      while pos < |src| && src[pos] != '\n'
        invariant start < pos <= |src| && IndexOf(all, '\n', 1) == IndexOf(all, '\n', pos - start)
      {
        pos := pos + 1;
      }
      TailOf(src, start, pos - start);
    }

    method SkipBlockComment()
      requires pos + 1 < |src|
      modifies this
      ensures old(pos) < pos <= |src|
      ensures Rest() == AfterComment(old(Rest())[2..])
    {
      hide AfterComment;
      ghost var start := pos;
      TailOf(src, pos, 2);
      pos := pos + 2;
      ghost var after := AfterComment(src[pos..]);
      while pos + 1 < |src| && !(src[pos] == '*' && src[pos + 1] == '/')
        invariant start < pos <= |src| && AfterComment(src[pos..]) == after
      {
        CommentStep(src, pos);
        pos := pos + 1;
      }
      CloseComment(src, pos);
      pos := if pos + 2 < |src| then pos + 2 else |src|;
      assert Rest() == after;
    }

    method ReadQuotedString() returns (value: Option<string>)
      requires pos < |src|
      modifies this
      ensures old(pos) <= pos <= |src|
      ensures match Quoted(old(Rest())[1..])
              case None => value == None
              case Some((v, rest)) => value == Some(v) && Rest() == rest
    {
      hide Quoted, QuotedFrom;
      ghost var all := src[pos + 1..];
      Tail(src, pos);
      pos := pos + 1;
      var v := "";
      QuotedBegins(all);
      while pos < |src| && src[pos] != '"'
        invariant old(pos) < pos <= |src|
        invariant QuotedFrom(v, src[pos..]) == Quoted(all)
        decreases |src| - pos
      {
        ghost var at := pos;
        if src[pos] == '\\' && pos + 1 < |src| {
          pos := pos + 1;
        }
        QuotedStep(src, at, v);
        assert QuotedFrom(v + [src[pos]], src[pos + 1..]) == Quoted(all);
        v := v + [src[pos]];
        pos := pos + 1;
      }
      if pos >= |src| {
        assert src[pos..] == "";
        QuotedRunsOut(v);
        return None;
      }
      QuotedEnds(src, pos, v);
      pos := pos + 1;
      value := Some(v);
    }

    /** The position after the next newline, or the end. */
    method NextLine(from: nat) returns (nl: nat, next: nat)
      requires from <= |src|
      ensures from <= nl <= next <= |src|
      ensures src[next..] == AfterLine(src[from..])
      ensures src[from..nl] == src[from..][..IndexOf(src[from..], '\n', 0)]
      ensures from < |src| ==> from < next
    {
      hide AfterLine, IndexOf;
      nl := IndexOf(src, '\n', from);
      next := if nl < |src| then nl + 1 else |src|;
      NextLineAt(src, from, nl, next);
    }

    method ReadMultiline() returns (value: Option<string>)
      requires pos <= |src|
      modifies this
      ensures old(pos) <= pos <= |src|
      ensures match BlockLines(AfterLine(old(Rest())))
              case None => value == None
              case Some((v, rest)) => value == Some(v) && Rest() == rest
    {
      var nl, next := NextLine(pos);
      pos := next;
      ghost var start := pos;
      var v := "";
      ghost var all := BlockLines(src[start..]);
      assert all.Some? ==> "" + all.value.0 == all.value.0;
      while pos < |src|
        invariant start <= pos <= |src|
        invariant match BlockLines(Rest())
                  case None => BlockLines(src[start..]) == None
                  case Some((w, rest)) => BlockLines(src[start..]) == Some((v + w, rest))
        decreases |src| - pos
      {
        nl, next := NextLine(pos);
        var stripped := StripCr(src[pos..nl]);
        pos := next;
        if stripped == "." {
          assert v + "" == v;
          return Some(v);
        }
        stripped := Unstuff(stripped);
        BlockGrows(v, stripped + "\r\n", BlockLines(Rest()));
        v := v + (stripped + "\r\n");
      }
      value := None;
    }

    method ReadSpan(k: Class) returns (name: string)
      requires pos <= |src|
      modifies this
      ensures pos == old(pos) + Span(k, old(Rest())) <= |src|
      ensures name == src[old(pos)..pos]
    {
      hide Span;
      ghost var start, n := pos, Span(k, src[pos..]);
      name := "";
      while pos < |src| && Within(k, src[pos])
        invariant start <= pos <= |src| && name == src[start..pos]
        invariant (pos - start) + Span(k, src[pos..]) == n
      {
        SpanStep(k, src, pos);
        name := name + [src[pos]];
        pos := pos + 1;
      }
      if pos < |src| {
        SpanStep(k, src, pos);
      }
    }

    /** Read one token; the position is at neither white space nor a comment. */
    method ReadToken() returns (token: Option<Token>)
      requires pos < |src|
      modifies this
      ensures match LexToken(old(Rest()))
              case None => token == None
              case Some((t, rest)) => token == Some(t) && old(pos) < pos <= |src| && Rest() == rest
    {
      Tail(src, pos);
      var c := src[pos];
      if Punct(c).Some? {
        pos := pos + 1;
        return Punct(c);
      }
      if c == '"' {
        ghost var at := pos;
        var value := ReadQuotedString();
        if value.None? {
          return None;
        }
        return Some(Str(value.value));
      }
      if c == ':' {
        token := ReadTag();
        return;
      }
      if IsDigit(c) {
        token := ReadNumber();
        return;
      }
      if IsAlpha(c) || c == '_' {
        token := ReadWord();
        return;
      }
      return None;
    }

    method ReadTag() returns (token: Option<Token>)
      requires pos < |src| && src[pos] == ':'
      modifies this
      ensures match LexTag(old(Rest()))
              case None => token == None
              case Some((t, rest)) => token == Some(t) && old(pos) < pos <= |src| && Rest() == rest
    {
      Tail(src, pos);
      ghost var all := Rest();
      pos := pos + 1;
      var name := ReadSpan(Tags);
      TailOf(src, old(pos), |name| + 1);
      assert all[1..|name| + 1] == name;
      if name == "" {
        return None;
      }
      token := Some(Tag(ToLower(name)));
    }

    method ReadNumber() returns (token: Option<Token>)
      requires pos < |src| && IsDigit(src[pos])
      modifies this
      ensures match LexNumber(old(Rest()))
              case None => token == None
              case Some((t, rest)) => token == Some(t) && old(pos) < pos <= |src| && Rest() == rest
    {
      Tail(src, pos);
      ghost var all, start := Rest(), pos;
      var v := ReadDigits();
      TailOf(src, start, pos - start);
      NumberToken(all, pos - start, Rest(), v);
      v := ReadSuffix(v);
      token := Some(Number(v));
    }

    method ReadDigits() returns (v: nat)
      requires pos <= |src|
      modifies this
      ensures pos == old(pos) + Span(Digits, old(Rest())) <= |src| && v == DecValue(src[old(pos)..pos])
    {
      hide Span, DecValue;
      ghost var start, all := pos, Rest();
      v := 0;
      NoDigits(src[start..pos]);
      while pos < |src| && IsDigit(src[pos])
        invariant start <= pos <= |src| && v == DecValue(src[start..pos])
        invariant (pos - start) + Span(Digits, src[pos..]) == Span(Digits, all)
      {
        DigitStep(src, start, pos);
        v := v * 10 + DigitValue(src[pos]);
        pos := pos + 1;
      }
      if pos < |src| {
        SpanStep(Digits, src, pos);
      }
    }

    /** A K, M or G suffix scales the number (section 2.4.2 of RFC 5228). */
    method ReadSuffix(v0: nat) returns (v: nat)
      requires pos <= |src|
      modifies this
      ensures v == v0 * Scale(old(Rest())) && old(pos) <= pos <= |src|
      ensures Rest() == if Scale(old(Rest())) > 1 && old(Rest()) != "" then old(Rest())[1..] else old(Rest())
    {
      v := v0;
      if pos < |src| {
        Tail(src, pos);
        var suffix := LowerChar(src[pos]);
        if suffix == 'k' {
          v := v * 1024;
          pos := pos + 1;
        } else if suffix == 'm' {
          v := v * (1024 * 1024);
          pos := pos + 1;
        } else if suffix == 'g' {
          v := v * (1024 * 1024 * 1024);
          pos := pos + 1;
        }
      }
    }

    method ReadWord() returns (token: Option<Token>)
      requires pos < |src| && IsNameChar(src[pos])
      modifies this
      ensures match LexWord(old(Rest()))
              case None => token == None
              case Some((t, rest)) => token == Some(t) && old(pos) < pos <= |src| && Rest() == rest
    {
      hide LexWord, BlockToken, ToLower, Span;
      ghost var start, word := pos, LexWord(src[pos..]);
      var name := ReadSpan(Names);
      WordToken(src, start, pos, name);
      if ToLower(name) == "text" && pos < |src| && src[pos] == ':' {
        assert word == BlockToken(src[pos + 1..]);
        token := ReadBlock();
      } else {
        assert word == Some((Ident(ToLower(name)), src[pos..]));
        token := Some(Ident(ToLower(name)));
      }
    }

    /** The block after `text`, from its colon. */
    method ReadBlock() returns (token: Option<Token>)
      requires pos < |src|
      modifies this
      ensures match BlockToken(src[old(pos) + 1..])
              case None => token == None
              case Some((t, rest)) => token == Some(t) && old(pos) < pos <= |src| && src[pos..] == rest
    {
      pos := pos + 1;
      var value := ReadMultiline();
      token := if value.None? then None else Some(Str(value.value));
    }

    /** Tokenize everything unread. */
    method Run() returns (tokens: Option<seq<Token>>)
      requires pos <= |src|
      modifies this
      ensures tokens == Lex(old(Rest()))
    {
      var out: seq<Token> := [];
      ghost var all := Lex(Rest());
      assert all.Some? ==> [] + all.value == all.value;
      while true
        invariant pos <= |src|
        invariant Lex(old(Rest())) == Append(out, Lex(Rest()))
        decreases |src| - pos
      {
        ghost var before := Rest();
        SkipWhitespaceAndComments();
        if pos >= |src| {
          assert Lex(before) == Some([End]);
          return Some(out + [End]);
        }
        var token := ReadToken();
        if token.None? {
          assert Lex(before) == None;
          return None;
        }
        assert Lex(before) == Prepend(token.value, Lex(Rest()));
        AppendPrepend(out, token.value, Lex(Rest()));
        out := out + [token.value];
      }
    }
  }

  lemma BlockGrows(v: string, line: string, rest: Option<(string, string)>)
    ensures rest.Some? ==> (v + line) + rest.value.0 == v + (line + rest.value.0)
  {
    if rest.Some? {
      Assoc(v, line, rest.value.0);
    }
  }

  function Append(out: seq<Token>, ts: Option<seq<Token>>): Option<seq<Token>> {
    match ts
    case None => None
    case Some(v) => Some(out + v)
  }

  lemma AppendPrepend(out: seq<Token>, t: Token, ts: Option<seq<Token>>)
    ensures Append(out, Prepend(t, ts)) == Append(out + [t], ts)
  {
    if ts.Some? {
      Assoc(out, [t], ts.value);
    }
  }
}
