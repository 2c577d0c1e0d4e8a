/** The loops of core/src/dkim.cpp, proved against what the signature is said to cover. */
module DkimMethods {
  import opened Text
  import opened Dkim

  lemma Whole(s: string)
    ensures s[0..] == s && s[|s|..] == "" && s + "" == s && "" + s == s
  {
  }

  method NormaliseLineEnds(raw: string) returns (norm: string)
    ensures norm == Normal(raw)
  {
    hide Normal;
    norm := "";
    Whole(raw);
    Whole(Normal(raw));
    for i := 0 to |raw|
      invariant norm + Normal(raw[i..]) == Normal(raw)
    {
      Tail(raw, i);
      NormalStep(raw[i..], norm);
      if raw[i] == '\r' {
        continue;
      }
      if raw[i] == '\n' {
        norm := norm + "\r\n";
      } else {
        norm := norm + [raw[i]];
      }
    }
    NormalEmpty();
    Whole(norm);
  }

  lemma NormalEmpty()
    ensures Normal("") == ""
  {
  }

  lemma NormalStep(s: string, norm: string)
    requires s != ""
    ensures norm + Normal(s) ==
            (norm + (if s[0] == '\r' then "" else if s[0] == '\n' then "\r\n" else [s[0]])) + Normal(s[1..])
    ensures norm + "" == norm
  {
    Assoc(norm, if s[0] == '\r' then "" else if s[0] == '\n' then "\r\n" else [s[0]], Normal(s[1..]));
  }

  /** The current line of a header block, and what follows it. */
  lemma LineAt(s: string, pos: nat, eol: nat)
    requires pos < |s| && eol == pos + FindCrlf(s[pos..])
    ensures eol <= |s| && s[pos..eol] == s[pos..][..FindCrlf(s[pos..])]
    ensures AfterCrlf(s[pos..]) == s[if eol == |s| then |s| else eol + 2..]
    ensures eol < |s| ==> eol + 2 <= |s|
  {
    if eol < |s| {
      assert s[pos..][FindCrlf(s[pos..]) + 2..] == s[eol + 2..];
    }
  }

  lemma HeadersStep(head: string, current: Option<Header>, out: seq<Header>, line: string)
    requires head != "" && line == head[..FindCrlf(head)]
    ensures out + HeadersOf(head, current) ==
            if line == "" then out + HeadersOf(AfterCrlf(head), current)
            else if IsWsp(line[0]) then out + HeadersOf(AfterCrlf(head), Continued(current, line))
            else (out + Finished(current)) + HeadersOf(AfterCrlf(head), Opened(line))
  {
    hide FindCrlf, AfterCrlf, Opened, Continued;
    Assoc(out, Finished(current), HeadersOf(AfterCrlf(head), Opened(line)));
  }

  method SplitMessage(raw: string) returns (headers: seq<Header>, body: string)
    ensures headers == MessageHeaders(raw) && body == MessageBody(raw)
  {
    hide Normal, FindGap, FindCrlf, AfterCrlf, HeadersOf, Opened, Continued;
    var norm := NormaliseLineEnds(raw);
    var gap := FindGap(norm);
    var head := norm;
    body := "";
    if gap != |norm| {
      head := norm[..gap + 2];
      body := norm[gap + 4..];
    }
    assert head == HeadOf(norm) && body == BodyOf(norm);
    headers := [];
    var pos := 0;
    var current: Option<Header> := None;
    Whole(head);
    assert headers + HeadersOf(head, None) == HeadersOf(head, None);
    while pos < |head|
      invariant pos <= |head| && headers + HeadersOf(head[pos..], current) == HeadersOf(head, None)
      decreases |head| - pos
    {
      var eol := pos + FindCrlf(head[pos..]);
      Tail(head, pos);
      LineAt(head, pos, eol);
      var line := head[pos..eol];
      HeadersStep(head[pos..], current, headers, line);
      pos := if eol == |head| then |head| else eol + 2;
      if line == "" {
        continue;
      }
      if IsWsp(line[0]) {
        current := Continued(current, line);
        continue;
      }
      headers := headers + Finished(current);
      current := Opened(line);
    }
    HeadersEnd(current);
    headers := headers + Finished(current);
  }

  lemma HeadersEnd(current: Option<Header>)
    ensures HeadersOf("", current) == Finished(current)
  {
  }

  // ---- tags ---------------------------------------------------------------

  lemma ChunkAt(s: string, pos: nat, semi: nat)
    requires pos < |s| && semi == IndexOf(s, ';', pos)
    ensures ChunkOf(s[pos..]) == s[pos..semi]
    ensures AfterChunk(s[pos..]) == s[if semi == |s| then |s| else semi + 1..]
  {
    IndexOfSuffix(s, ';', pos);
    assert s[pos..][..semi - pos] == s[pos..semi];
    if semi < |s| {
      assert s[pos..][semi - pos + 1..] == s[semi + 1..];
    }
  }

  lemma TagsStep(s: string, out: seq<TagPair>)
    requires s != ""
    ensures out + TagsOf(s) ==
            (match TagOf(ChunkOf(s))
             case None => out + TagsOf(AfterChunk(s))
             case Some(t) => (out + [t]) + TagsOf(AfterChunk(s)))
  {
    hide TagOf, ChunkOf, AfterChunk;
    if TagOf(ChunkOf(s)).Some? {
      Assoc(out, [TagOf(ChunkOf(s)).value], TagsOf(AfterChunk(s)));
    }
  }

  method ParseTagList(s: string) returns (tags: seq<TagPair>)
    ensures tags == TagsOf(s)
  {
    hide TagsOf, ChunkOf, AfterChunk, ToLower, TrimSpace, Clean;
    tags := [];
    var pos := 0;
    Whole(s);
    assert tags + TagsOf(s) == TagsOf(s);
    while pos < |s|
      invariant pos <= |s| && tags + TagsOf(s[pos..]) == TagsOf(s)
      decreases |s| - pos
    {
      var semi := IndexOf(s, ';', pos);
      Tail(s, pos);
      ChunkAt(s, pos, semi);
      TagsStep(s[pos..], tags);
      var chunk := s[pos..semi];
      pos := if semi == |s| then |s| else semi + 1;
      var eq := IndexOf(chunk, '=', 0);
      if eq == |chunk| {
        continue;
      }
      var cleaned := RemoveBreaks(chunk[eq + 1..]);
      tags := tags + [TagPair(ToLower(TrimSpace(chunk[..eq])), TrimSpace(cleaned))];
    }
    TagsEmpty();
    assert tags + [] == tags;
  }

  lemma TagsEmpty()
    ensures TagsOf("") == []
  {
  }

  method RemoveBreaks(s: string) returns (out: string)
    ensures out == Clean(s)
  {
    hide Clean;
    out := "";
    Whole(s);
    Whole(Clean(s));
    for i := 0 to |s|
      invariant out + Clean(s[i..]) == Clean(s)
    {
      Tail(s, i);
      CleanStep(s[i..], out);
      if s[i] == '\r' || s[i] == '\n' {
        continue;
      }
      out := out + [s[i]];
    }
    CleanEmpty();
    Whole(out);
  }

  lemma CleanEmpty()
    ensures Clean("") == ""
  {
  }

  lemma {:induction false} CleanStep(s: string, out: string)
    requires s != ""
    ensures out + Clean(s) == if s[0] == '\r' || s[0] == '\n' then out + Clean(s[1..]) else (out + [s[0]]) + Clean(s[1..])
  {
    Assoc(out, [s[0]], Clean(s[1..]));
    Whole(Clean(s[1..]));
  }

  method RemoveWhitespace(s: string) returns (out: string)
    ensures out == StripWsp(s)
  {
    hide StripWsp;
    out := "";
    Whole(s);
    Whole(StripWsp(s));
    for i := 0 to |s|
      invariant out + StripWsp(s[i..]) == StripWsp(s)
    {
      Tail(s, i);
      StripStep(s[i..], out);
      if !IsWsp(s[i]) && s[i] != '\r' && s[i] != '\n' {
        out := out + [s[i]];
      }
    }
    StripEmpty();
    Whole(out);
  }

  lemma StripEmpty()
    ensures StripWsp("") == ""
  {
  }

  lemma StripStep(s: string, out: string)
    requires s != ""
    ensures out + StripWsp(s) == if IsWsp(s[0]) || IsBreak(s[0]) then out + StripWsp(s[1..]) else (out + [s[0]]) + StripWsp(s[1..])
  {
    Assoc(out, [s[0]], StripWsp(s[1..]));
    Whole(StripWsp(s[1..]));
  }

  // ---- canonical forms ----------------------------------------------------

  method CollapseBlanks(s: string) returns (out: string)
    ensures out == Collapse(s, false, false)
  {
    hide Collapse;
    out := "";
    var blank := false;
    Whole(s);
    Whole(Collapse(s, false, false));
    for i := 0 to |s|
      invariant out + Collapse(s[i..], blank, out != "") == Collapse(s, false, false)
    {
      Tail(s, i);
      CollapseStep(s[i..], out, blank);
      if IsWsp(s[i]) {
        blank := true;
        continue;
      }
      if blank && out != "" {
        out := out + [' '];
      }
      blank := false;
      out := out + [s[i]];
    }
    CollapseEmpty(blank, out != "");
    Whole(out);
  }

  lemma CollapseEmpty(blank: bool, begun: bool)
    ensures Collapse("", blank, begun) == ""
  {
  }

  lemma CollapseStep(s: string, out: string, blank: bool)
    requires s != ""
    ensures out + Collapse(s, blank, out != "") ==
            if IsWsp(s[0]) then out + Collapse(s[1..], true, out != "")
            else if blank && out != "" then ((out + [' ']) + [s[0]]) + Collapse(s[1..], false, true)
            else (out + [s[0]]) + Collapse(s[1..], false, true)
  {
    if !IsWsp(s[0]) {
      var rest := Collapse(s[1..], false, true);
      if blank && out != "" {
        assert (out + [' ']) + [s[0]] == out + [' ', s[0]];
        Assoc(out, [' ', s[0]], rest);
      } else {
        Assoc(out, [s[0]], rest);
      }
    }
  }

  lemma BodyLineAt(s: string, pos: nat, eol: nat)
    requires pos < |s| && eol == pos + FindCrlf(s[pos..])
    ensures eol <= |s| && s[pos..eol] == s[pos..][..FindCrlf(s[pos..])] && (eol < |s| ==> eol + 2 <= |s|)
    ensures eol < |s| ==> BodyLines(s[pos..]) == [s[pos..eol]] + BodyLines(s[eol + 2..])
    ensures eol == |s| ==> BodyLines(s[pos..]) == [s[pos..]]
  {
    hide FindCrlf;
    if eol < |s| {
      assert s[pos..][FindCrlf(s[pos..]) + 2..] == s[eol + 2..];
    }
  }

  method SplitLines(body: string) returns (lines: seq<string>)
    ensures lines == BodyLines(body)
  {
    hide BodyLines, FindCrlf;
    lines := [];
    var pos := 0;
    Whole(body);
    assert lines + BodyLines(body) == BodyLines(body);
    while pos < |body|
      invariant pos <= |body| && lines + BodyLines(body[pos..]) == BodyLines(body)
      decreases |body| - pos
    {
      var eol := pos + FindCrlf(body[pos..]);
      BodyLineAt(body, pos, eol);
      if eol == |body| {
        return lines + [body[pos..]];
      }
      Assoc(lines, [body[pos..eol]], BodyLines(body[eol + 2..]));
      lines := lines + [body[pos..eol]];
      pos := eol + 2;
    }
    NoLines();
    assert lines + [] == lines;
  }

  lemma NoLines()
    ensures BodyLines("") == [] && CollapseAll([]) == []
  {
  }

  lemma {:induction false} CollapseAllAt(lines: seq<string>, i: nat)
    requires i < |lines|
    ensures CollapseAll(lines)[i] == Collapse(lines[i], false, false)
  {
    if i > 0 {
      CollapseAllAt(lines[1..], i - 1);
      assert CollapseAll(lines)[i] == CollapseAll(lines[1..])[i - 1];
    }
  }

  method CanonicalizeBody(body: string, relaxed: bool) returns (out: string)
    ensures out == CanonicalBody(body, relaxed)
  {
    hide BodyLines, Collapse, CollapseAll, DropEmptyTail, JoinLines;
    var lines := SplitLines(body);
    ghost var split := lines;
    if relaxed {
      for i := 0 to |lines|
        invariant |lines| == |split|
        invariant forall k :: 0 <= k < i ==> lines[k] == Collapse(split[k], false, false)
        invariant forall k :: i <= k < |split| ==> lines[k] == split[k]
      {
        var line := CollapseBlanks(lines[i]);
        lines := lines[i := line];
      }
      forall k | 0 <= k < |split|
        ensures lines[k] == CollapseAll(split)[k]
      {
        CollapseAllAt(split, k);
      }
      assert lines == CollapseAll(split);
    }
    ghost var all := lines;
    while lines != [] && lines[|lines| - 1] == ""
      invariant DropEmptyTail(lines) == DropEmptyTail(all)
      decreases |lines|
    {
      DropStep(lines);
      lines := lines[..|lines| - 1];
    }
    DropStep(lines);
    if lines == [] {
      return if relaxed then "" else "\r\n";
    }
    out := "";
    assert lines[0..] == lines;
    Whole(JoinLines(lines));
    for i := 0 to |lines|
      invariant out + JoinLines(lines[i..]) == JoinLines(lines)
    {
      assert lines[i..][0] == lines[i] && lines[i..][1..] == lines[i + 1..];
      JoinStep(lines[i..], out);
      out := out + lines[i];
      out := out + "\r\n";
    }
    assert lines[|lines|..] == [];
    JoinNothing();
    Whole(out);
  }

  lemma JoinNothing()
    ensures JoinLines([]) == ""
  {
  }

  lemma JoinStep(lines: seq<string>, out: string)
    requires lines != []
    ensures out + JoinLines(lines) == ((out + lines[0]) + "\r\n") + JoinLines(lines[1..])
  {
    Assoc(out, lines[0], "\r\n" + JoinLines(lines[1..]));
    Assoc(out + lines[0], "\r\n", JoinLines(lines[1..]));
  }

  lemma DropStep(lines: seq<string>)
    ensures DropEmptyTail(lines) == if lines != [] && lines[|lines| - 1] == "" then DropEmptyTail(lines[..|lines| - 1]) else lines
  {
  }

  method CanonicalizeHeader(name: string, value: string, relaxed: bool) returns (out: string)
    ensures out == CanonicalHeader(Header(name, value), relaxed)
  {
    hide Collapse, Clean, ToLower, TrimSpace;
    if !relaxed {
      return name + (":" + (value + "\r\n"));
    }
    var unfolded := RemoveBreaks(value);
    var collapsed := CollapseBlanks(unfolded);
    out := ToLower(TrimSpace(name)) + (":" + (collapsed + "\r\n"));
  }

  // ---- choosing headers ---------------------------------------------------

  /** The inner loop of both sides: the next header of a name, from the bottom up. */
  method TakeHeader(headers: seq<Header>, used: set<nat>, name: string) returns (at: Option<nat>)
    ensures at == LastUnused(headers, used, name, |headers|)
    ensures at.Some? ==> at.value < |headers| && at.value !in used && NameOf(headers[at.value]) == name
    ensures forall i :: (if at.Some? then at.value + 1 else 0) <= i < |headers| ==> i in used || NameOf(headers[i]) != name
  {
    hide NameOf;
    LastUnusedIs(headers, used, name, |headers|);
    var i: nat := |headers|;
    while i > 0
      invariant i <= |headers| && LastUnused(headers, used, name, i) == LastUnused(headers, used, name, |headers|)
    {
      i := i - 1;
      if i in used || NameOf(headers[i]) != name {
        continue;
      }
      return Some(i);
    }
    at := None;
  }

  lemma ChosenStep(headers: seq<Header>, used: set<nat>, names: seq<string>, relaxed: bool, out: string)
    requires names != []
    ensures out + Chosen(headers, used, names, relaxed) ==
            (match LastUnused(headers, used, names[0], |headers|)
             case None => out + Chosen(headers, used, names[1..], relaxed)
             case Some(i) => (out + CanonicalHeader(headers[i], relaxed)) + Chosen(headers, used + {i}, names[1..], relaxed))
  {
    hide LastUnused, CanonicalHeader;
    var r := LastUnused(headers, used, names[0], |headers|);
    if r.Some? {
      Assoc(out, CanonicalHeader(headers[r.value], relaxed), Chosen(headers, used + {r.value}, names[1..], relaxed));
    }
  }

  lemma NoneChosen(headers: seq<Header>, used: set<nat>, relaxed: bool, out: string)
    ensures Chosen(headers, used, [], relaxed) == "" && out + "" == out
  {
  }

  /** The signer's loop over the names it wants. */
  method ChooseHeaders(headers: seq<Header>, names: seq<string>) returns (out: string)
    ensures out == Chosen(headers, {}, names, true)
  {
    hide Chosen, LastUnused, CanonicalHeader, Collapse, Clean, ToLower, TrimSpace;
    out := "";
    var used: set<nat> := {};
    assert names[0..] == names;
    Whole(Chosen(headers, {}, names, true));
    for k := 0 to |names|
      invariant out + Chosen(headers, used, names[k..], true) == Chosen(headers, {}, names, true)
    {
      assert names[k..][0] == names[k] && names[k..][1..] == names[k + 1..];
      ChosenStep(headers, used, names[k..], true, out);
      var at := TakeHeader(headers, used, names[k]);
      if at.Some? {
        used := used + {at.value};
        var text := CanonicalizeHeader(headers[at.value].name, headers[at.value].value, true);
        out := out + text;
      }
    }
    assert names[|names|..] == [];
    NoneChosen(headers, used, true, out);
  }

  lemma NamesForm(s: string, colon: nat)
    requires colon == IndexOf(s, ':', 0)
    ensures var name := ToLower(TrimSpace(s[..colon]));
            NamesOf(s) == (if name == "" then [] else [name]) + (if colon == |s| then [] else NamesOf(s[colon + 1..]))
  {
    hide ToLower, TrimSpace, IndexOf;
  }

  /** The names from a position of a list on; past its end there are none. */
  function NamesFrom(list: string, pos: nat): seq<string> {
    if pos <= |list| then NamesOf(list[pos..]) else []
  }

  lemma NameAt(list: string, pos: nat, colon: nat)
    requires pos <= |list| && colon == IndexOf(list, ':', pos)
    ensures var name := ToLower(TrimSpace(list[pos..colon]));
            NamesFrom(list, pos) == if name == "" then NamesFrom(list, colon + 1) else [name] + NamesFrom(list, colon + 1)
  {
    hide ToLower, TrimSpace, IndexOf, NamesOf;
    IndexOfSuffix(list, ':', pos);
    NamesForm(list[pos..], colon - pos);
    assert list[pos..][..colon - pos] == list[pos..colon];
    if colon < |list| {
      assert list[pos..][colon - pos + 1..] == list[colon + 1..];
    }
    assert [] + NamesFrom(list, colon + 1) == NamesFrom(list, colon + 1);
  }

  lemma NamesFromEnds(list: string)
    ensures NamesFrom(list, 0) == NamesOf(list) && NamesFrom(list, |list| + 1) == []
  {
    hide NamesOf;
    Whole(list);
  }

  /** The verifier's walk over the h= list, choosing as it goes. */
  method ChooseListed(headers: seq<Header>, at: nat, list: string, relaxed: bool) returns (out: string)
    requires at < |headers|
    ensures out == Chosen(headers, {at}, NamesOf(list), relaxed)
  {
    hide Chosen, LastUnused, CanonicalHeader, Collapse, Clean, ToLower, TrimSpace, NamesOf, NamesFrom, IndexOf;
    out := "";
    var used: set<nat> := {at};
    var pos := 0;
    NamesFromEnds(list);
    Whole(Chosen(headers, {at}, NamesOf(list), relaxed));
    while pos <= |list|
      invariant pos <= |list| + 1
      invariant out + Chosen(headers, used, NamesFrom(list, pos), relaxed) ==
                Chosen(headers, {at}, NamesOf(list), relaxed)
      decreases |list| + 1 - pos
    {
      var colon := IndexOf(list, ':', pos);
      NameAt(list, pos, colon);
      var want := ToLower(TrimSpace(list[pos..colon]));
      ghost var rest := NamesFrom(list, colon + 1);
      pos := colon + 1;
      if want == "" {
        continue;
      }
      ChosenStep(headers, used, [want] + rest, relaxed, out);
      var found := TakeHeader(headers, used, want);
      if found.Some? {
        used := used + {found.value};
        var text := CanonicalizeHeader(headers[found.value].name, headers[found.value].value, relaxed);
        out := out + text;
      }
    }
    NoneChosen(headers, used, relaxed, out);
  }

  // ---- the b= tag ---------------------------------------------------------

  /** Nothing but blanks lies between a position and the semicolon or the start before it. */
  predicate TagStart(s: string, i: nat)
    requires i <= |s|
  {
    i == 0 || (if IsWsp(s[i - 1]) || IsBreak(s[i - 1]) then TagStart(s, i - 1) else s[i - 1] == ';')
  }

  /** The backward look of the source, from a candidate position. */
  method AtTagStart(s: string, i: nat) returns (ok: bool)
    requires i <= |s|
    ensures ok == TagStart(s, i)
  {
    var j: nat := i;
    while j > 0
      invariant j <= i && TagStart(s, j) == TagStart(s, i)
    {
      j := j - 1;
      if IsWsp(s[j]) || s[j] == '\r' || s[j] == '\n' {
        continue;
      }
      return s[j] == ';';
    }
    ok := true;
  }

  lemma FindStep(s: string, i: nat)
    requires i + 2 <= |s|
    ensures FindB(s[i..], TagStart(s, i)) ==
            if TagStart(s, i) && LowerChar(s[i]) == 'b' && s[i + 1] == '=' then 0 else 1 + FindB(s[i + 1..], TagStart(s, i + 1))
  {
    Tail(s, i);
    assert s[i..][1] == s[i + 1];
  }

  method FindBTag(s: string) returns (at: nat)
    ensures at == FindB(s, true)
  {
    hide FindB;
    var i := 0;
    Whole(s);
    assert TagStart(s, 0);
    while i + 1 < |s|
      invariant i <= |s| && i + FindB(s[i..], TagStart(s, i)) == FindB(s, true)
    {
      FindStep(s, i);
      if LowerChar(s[i]) == 'b' && s[i + 1] == '=' {
        var start := AtTagStart(s, i);
        if start {
          return i;
        }
      }
      i := i + 1;
    }
    at := |s|;
  }

  method EmptySignature(value: string) returns (out: string)
    ensures out == EmptyB(value)
  {
    hide FindB;
    var at := FindBTag(value);
    if at == |value| {
      return value;
    }
    var end := IndexOf(value, ';', at);
    out := value[..at + 2] + value[end..];
  }

  // ---- the two sides ------------------------------------------------------

  /** What `Verify` computes for one signature header before any cryptography. */
  method Rebuild(headers: seq<Header>, body: string, at: nat) returns (r: Option<Cover>)
    requires at < |headers|
    ensures r == Rebuilt(headers, body, at)
  {
    hide TagsOf, TagValue, StripWsp, ToLower, Chosen, NamesOf, CanonicalBody, EmptyB, CanonicalHeader, RelaxedHeader, RelaxedBody;
    var tags := ParseTagList(headers[at].value);
    var domain, selector := TagValue(tags, "d"), TagValue(tags, "s");
    var b := RemoveWhitespace(TagValue(tags, "b"));
    var bh := RemoveWhitespace(TagValue(tags, "bh"));
    var list, canon := TagValue(tags, "h"), ToLower(TagValue(tags, "c"));
    if domain == "" || selector == "" || b == "" || bh == "" || list == "" {
      return None;
    }
    var algorithm := ToLower(TagValue(tags, "a"));
    if algorithm == "" {
      algorithm := "rsa-sha256";
    }
    if algorithm != "rsa-sha256" && algorithm != "rsa-sha1" && algorithm != "ed25519-sha256" {
      return None;
    }
    var relaxed := RelaxedHeader(canon);
    var canonical := CanonicalizeBody(body, RelaxedBody(canon));
    var block := ChooseListed(headers, at, list, relaxed);
    var value := EmptySignature(headers[at].value);
    var last := CanonicalizeHeader(headers[at].name, value, relaxed);
    if |last| >= 2 {
      last := last[..|last| - 2];
    }
    r := Some(Cover(domain, selector, algorithm, bh, b, canonical, block + last));
  }

  lemma {:induction false} PresentStep(headers: seq<Header>, names: seq<string>, out: seq<string>)
    requires names != []
    ensures out + Present(headers, names) ==
            (if exists i :: 0 <= i < |headers| && NameOf(headers[i]) == names[0] then out + [names[0]] else out) + Present(headers, names[1..])
  {
    hide NameOf;
    var rest := Present(headers, names[1..]);
    Assoc(out, [names[0]], rest);
    assert [] + rest == rest;
  }

  method IsPresent(headers: seq<Header>, name: string) returns (b: bool)
    ensures b <==> exists i :: 0 <= i < |headers| && NameOf(headers[i]) == name
  {
    hide NameOf;
    for i := 0 to |headers|
      invariant forall k :: 0 <= k < i ==> NameOf(headers[k]) != name
    {
      if NameOf(headers[i]) == name {
        return true;
      }
    }
    b := false;
  }

  /** The names to sign: those of the list that some header has, in the list's order. */
  method WantNames(headers: seq<Header>, list: string) returns (want: seq<string>)
    ensures want == Present(headers, NamesOf(list))
  {
    hide Present, NamesOf, ToLower, TrimSpace, NameOf, NamesFrom, IndexOf;
    want := [];
    var pos := 0;
    NamesFromEnds(list);
    assert want + Present(headers, NamesOf(list)) == Present(headers, NamesOf(list));
    while pos <= |list|
      invariant pos <= |list| + 1
      invariant want + Present(headers, NamesFrom(list, pos)) == Present(headers, NamesOf(list))
      decreases |list| + 1 - pos
    {
      var colon := IndexOf(list, ':', pos);
      NameAt(list, pos, colon);
      var name := ToLower(TrimSpace(list[pos..colon]));
      ghost var rest := NamesFrom(list, colon + 1);
      pos := colon + 1;
      if name == "" {
        continue;
      }
      PresentStep(headers, [name] + rest, want);
      var present := IsPresent(headers, name);
      if present {
        want := want + [name];
      }
    }
    NonePresent(headers);
    assert want + [] == want;
  }

  lemma NonePresent(headers: seq<Header>)
    ensures Present(headers, []) == []
  {
  }

  lemma ColonsStep(names: seq<string>, i: nat)
    requires i < |names|
    ensures Colons(names[..i + 1]) == Colons(names[..i]) + ((if i > 0 then ":" else "") + names[i])
    decreases i
  {
    if i == 0 {
      assert names[..1] == [names[0]] && names[..0] == [];
    } else {
      ColonsGrow(names[..i], names[i]);
      assert names[..i + 1] == names[..i] + [names[i]];
    }
  }

  lemma {:induction false} ColonsGrow(names: seq<string>, name: string)
    requires names != []
    ensures Colons(names + [name]) == Colons(names) + (":" + name)
  {
    var all := names + [name];
    assert all[0] == names[0] && all[1..] == names[1..] + [name];
    if |names| == 1 {
      assert all[1..] == [name];
    } else {
      ColonsGrow(names[1..], name);
      Assoc(":", Colons(names[1..]), ":" + name);
      Assoc(names[0], ":" + Colons(names[1..]), ":" + name);
    }
  }

  method JoinColons(names: seq<string>) returns (out: string)
    ensures out == Colons(names)
  {
    out := "";
    for i := 0 to |names|
      invariant out == Colons(names[..i])
    {
      ColonsStep(names, i);
      out := out + ((if i > 0 then ":" else "") + names[i]);
    }
    assert names[..|names|] == names;
  }

  lemma FoldedStep(b64: string, i: nat, out: string)
    requires i + 64 < |b64|
    ensures out + Folded(b64[i..]) == ((out + b64[i..i + 64]) + FOLD) + Folded(b64[i + 64..])
  {
    var s := b64[i..];
    assert s[..64] == b64[i..i + 64] && s[64..] == b64[i + 64..];
    Assoc(out, s[..64], FOLD + Folded(s[64..]));
    Assoc(out + s[..64], FOLD, Folded(s[64..]));
  }

  lemma FoldedEnds(s: string)
    requires |s| <= 64
    ensures Folded(s) == s
  {
  }

  method FoldBase64(b64: string) returns (out: string)
    ensures out == Folded(b64)
  {
    hide Folded;
    out := "";
    var i := 0;
    Whole(b64);
    Whole(Folded(b64));
    FoldedEnds("");
    while i < |b64|
      invariant i <= |b64|
      invariant i < |b64| ==> (if i > 0 then out + FOLD else out) + Folded(b64[i..]) == Folded(b64)
      invariant i == |b64| ==> out == Folded(b64)
      invariant i == 0 ==> out == ""
      decreases |b64| - i
    {
      if i > 0 {
        out := out + FOLD;
      }
      if i + 64 < |b64| {
        FoldedStep(b64, i, out);
        out := out + b64[i..i + 64];
        i := i + 64;
      } else {
        FoldedEnds(b64[i..]);
        out := out + b64[i..];
        i := |b64|;
      }
    }
  }

  /** The signed message; the reading of the key is the caller's. */
  method Sign(s: Signer, raw: string, domain: string, selector: string, list: string) returns (out: Option<string>)
    ensures out == Signed(s, raw, domain, selector, list)
  {
    hide MessageHeaders, MessageBody, Present, NamesOf, Colons, Chosen, CanonicalBody, CanonicalHeader, SignatureValue, Folded, AlgorithmOf;
    if domain == "" || selector == "" {
      return None;
    }
    var headers, body := SplitMessage(raw);
    var canonical := CanonicalizeBody(body, true);
    var bodyHash := s.encode(s.digest(canonical));
    var want := WantNames(headers, if list == "" then DEFAULT_LIST else list);
    if want == [] {
      return None;
    }
    var names := JoinColons(want);
    assert CanonText(Both(Relaxed, Relaxed)) == "relaxed/relaxed";
    var value := SignatureValue(AlgorithmOf(s), "relaxed/relaxed", domain, selector, s.time, names, bodyHash);
    var block := ChooseHeaders(headers, want);
    var last := CanonicalizeHeader("DKIM-Signature", value, true);
    if |last| >= 2 {
      last := last[..|last| - 2];
    }
    var signature := s.sign(block + last);
    if signature.None? {
      return None;
    }
    var folded := FoldBase64(s.encode(signature.value));
    out := Some("DKIM-Signature:" + (value + (folded + ("\r\n" + raw))));
  }
}
