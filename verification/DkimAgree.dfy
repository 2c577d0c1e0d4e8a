/** The signer and the verifier of core/src/dkim.cpp compute the same bytes. */
module DkimAgree {
  import opened Text
  import opened Dkim
  import opened DkimText

  // ---- choosing the same headers ------------------------------------------

  function Shift(used: set<nat>): set<nat> {
    set i | i in used :: i + 1
  }

  lemma {:induction false} SameLast(h: Header, headers: seq<Header>, used: set<nat>, name: string, n: nat)
    requires n <= |headers|
    ensures var r := LastUnused([h] + headers, {0} + Shift(used), name, n + 1);
            r == (match LastUnused(headers, used, name, n) case None => None case Some(i) => Some(i + 1))
  {
    hide NameOf;
    if n == 0 {
      assert 0 in {0} + Shift(used);
    } else {
      SameLast(h, headers, used, name, n - 1);
      assert ([h] + headers)[n] == headers[n - 1];
      assert n in {0} + Shift(used) <==> n - 1 in used;
    }
  }

  lemma ShiftAdd(used: set<nat>, i: nat)
    ensures ({0} + Shift(used)) + {i + 1} == {0} + Shift(used + {i})
  {
    assert forall k :: k in Shift(used + {i}) <==> k in Shift(used) || k == i + 1;
  }

  /** With the header in front used already, the names choose the same headers. */
  lemma {:induction false} SameChoice(h: Header, headers: seq<Header>, used: set<nat>, names: seq<string>, relaxed: bool)
    ensures Chosen([h] + headers, {0} + Shift(used), names, relaxed) == Chosen(headers, used, names, relaxed)
    decreases |names|
  {
    hide LastUnused, CanonicalHeader, Shift;
    if names != [] {
      SameLast(h, headers, used, names[0], |headers|);
      var r := LastUnused(headers, used, names[0], |headers|);
      if r.Some? {
        var i := r.value;
        ShiftAdd(used, i);
        SameChoice(h, headers, used + {i}, names[1..], relaxed);
        assert ([h] + headers)[i + 1] == headers[i];
      } else {
        SameChoice(h, headers, used, names[1..], relaxed);
      }
    }
  }

  // ---- the two sides agree ------------------------------------------------

  /** The values that go into a signature are single tokens. */
  ghost predicate Tokens(s: Signer, c: Canon, raw: string, domain: string, selector: string, list: string, signature: string) {
    && Solid(domain) && Solid(selector)
    && AllSolid(WantedNames(raw, list))
    && Solid(BodyHashOf(s, c, raw)) && BodyHashOf(s, c, raw) != ""
    && Solid(s.encode(signature)) && s.encode(signature) != ""
  }

  /** Each half of the c= tag governs its own part; a half that is missing means simple. */
  lemma HalvesGovern(header: string, body: string)
    requires !Has(header, '/')
    ensures var c := header + ("/" + body);
            && (RelaxedHeader(c) <==> TrimSpace(header) == "relaxed")
            && (RelaxedBody(c) <==> TrimSpace(body) == "relaxed")
    ensures (RelaxedHeader(header) <==> TrimSpace(header) == "relaxed") && !RelaxedBody(header)
  {
    hide TrimSpace;
    SplitAt(header, '/', body);
    NoneFound(header, '/');
    assert header[..|header|] == header;
    PlainWords();
  }

  lemma PlainWords()
    ensures TrimSpace("relaxed") == "relaxed" && TrimSpace("simple") == "simple" && TrimSpace("") == ""
    ensures "relaxed" != "simple"
  {
    hide TrimSpace;
    TrimSpaceShortens("relaxed");
    TrimSpaceShortens("simple");
    TrimSpaceShortens("");
    assert "relaxed"[0] != "simple"[0];
  }

  /** What the verifier reads from the c= tag of a signer is how the signer canonicalized. */
  lemma CanonReadsBack(c: Canon)
    ensures ToLower(CanonText(c)) == CanonText(c) && Solid(CanonText(c))
    ensures RelaxedHeader(CanonText(c)) <==> HeaderIsRelaxed(c)
    ensures RelaxedBody(CanonText(c)) <==> BodyIsRelaxed(c)
  {
    hide ToLower, TrimSpace, RelaxedHeader, RelaxedBody;
    PlainWords();
    ToLowerSame(CanonText(c));
    if c.Both? {
      HalvesGovern(FormName(c.header), FormName(c.body));
    } else {
      HalvesGovern(CanonText(c), "");
    }
  }

  lemma AlgorithmRead(s: Signer)
    ensures Algorithm(ToLower(AlgorithmOf(s))) == AlgorithmOf(s) && Solid(AlgorithmOf(s)) && Supported(AlgorithmOf(s))
  {
    hide Solid, ToLower;
    ToLowerSame("ed25519-sha256");
    ToLowerSame("rsa-sha256");
    LiteralsAreSolid();
  }

  lemma TimeIsSolid(n: nat)
    ensures Solid(Num(n))
  {
    hide Num;
    forall i | 0 <= i < |Num(n)|
      ensures Num(n)[i] !in " \t\r\n;"
    {
      assert IsDigit(Num(n)[i]);
    }
  }

  /** The names the verifier reads from the h= tag are those the signer wanted. */
  lemma WantedReadsBack(raw: string, list: string)
    requires AllSolid(WantedNames(raw, list)) && WantedNames(raw, list) != []
    ensures var want := WantedNames(raw, list); NamesOf(Colons(want)) == want && Solid(Colons(want)) && Colons(want) != ""
  {
    hide NamesOf, Present, MessageHeaders;
    NamesAreLowered(if list == "" then DEFAULT_LIST else list);
    PresentAreLowered(MessageHeaders(raw), NamesOf(if list == "" then DEFAULT_LIST else list));
    LoweredAndSolid(WantedNames(raw, list));
    ListReadsBack(WantedNames(raw, list));
  }

  /** The tags of the finished signature header. */
  lemma FinishedTags(s: Signer, c: string, domain: string, selector: string, list: string, bodyHash: string, b64: string)
    requires Solid(c) && Solid(domain) && Solid(selector) && Solid(list) && Solid(bodyHash) && Solid(b64)
    ensures var v := SignatureValue(AlgorithmOf(s), c, domain, selector, s.time, list, bodyHash);
            var tags := TagsOf(v + Folded(b64));
            && TagValue(tags, "d") == domain && TagValue(tags, "s") == selector && TagValue(tags, "h") == list
            && TagValue(tags, "bh") == bodyHash && StripWsp(TagValue(tags, "b")) == b64
            && TagValue(tags, "a") == AlgorithmOf(s) && TagValue(tags, "c") == c
            && FoldedText(v + Folded(b64)) && EmptyB(v + Folded(b64)) == v
  {
    hide TagsOf, TagText, Clean, TrimSpace, StripWsp, Solid, AlgorithmOf, FoldedText, EmptyB, Has, Num, Folded, TagValue, TagPairs;
    var a, t, f := AlgorithmOf(s), Num(s.time), Folded(b64);
    var v := SignatureValue(a, c, domain, selector, s.time, list, bodyHash);
    AlgorithmRead(s);
    TimeIsSolid(s.time);
    SolidRead(a);
    SolidRead(c);
    SolidRead(t);
    SolidRead(domain);
    SolidRead(selector);
    SolidRead(list);
    SolidRead(bodyHash);
    FoldedReadsBack(b64);
    assert v == Chain(a, c, domain, selector, t, list, bodyHash, FOLD + "b=");
    ChainAppend(a, c, domain, selector, t, list, bodyHash, FOLD + "b=", f);
    assert (FOLD + "b=") + f == FOLD + ("b" + ("=" + f));
    ChainRead(a, c, domain, selector, t, list, bodyHash, f);
    TagPairsHold("1", a, c, domain, selector, t, list, bodyHash, TrimSpace(Clean(f)));
    StripTrim(Clean(f));
    StripClean(f);
    EmptiedChain(a, c, domain, selector, t, list, bodyHash, f);
    LastFolded();
    ChainFolded(a, c, domain, selector, t, list, bodyHash, FOLD + "b=");
    FoldedJoin(v, f);
  }

  lemma LastFolded()
    ensures FoldedText(FOLD + "b=")
  {
    hide FoldedText;
    FoldIsFolded();
    Plain("b=");
    OneLineFolded("b=");
    FoldedJoin(FOLD, "b=");
  }

  lemma {:induction false} TagValueAt(tags: seq<TagPair>, i: nat)
    requires i < |tags| && forall k :: 0 <= k < i ==> tags[k].name != tags[i].name
    ensures TagValue(tags, tags[i].name) == tags[i].value
  {
    if i > 0 {
      TagValueAt(tags[1..], i - 1);
    }
  }

  lemma TagPairsHold(v: string, a: string, c: string, d: string, s: string, t: string, h: string, bh: string, b: string)
    ensures var tags := TagPairs(v, a, c, d, s, t, h, bh, b);
            && TagValue(tags, "a") == a && TagValue(tags, "c") == c && TagValue(tags, "d") == d && TagValue(tags, "s") == s
            && TagValue(tags, "h") == h && TagValue(tags, "bh") == bh && TagValue(tags, "b") == b
  {
    hide TagValue;
    var tags := TagPairs(v, a, c, d, s, t, h, bh, b);
    var k := if c == "" then 2 else 3;
    assert tags[0].name == "v" && tags[1] == TagPair("a", a) && (c != "" ==> tags[2] == TagPair("c", c));
    assert tags[k] == TagPair("d", d) && tags[k + 1] == TagPair("s", s) && tags[k + 2] == TagPair("t", t);
    assert tags[k + 3] == TagPair("h", h) && tags[k + 4] == TagPair("bh", bh) && tags[k + 5] == TagPair("b", b);
    TagValueAt(tags, 1);
    TagValueAt(tags, k);
    TagValueAt(tags, k + 1);
    TagValueAt(tags, k + 3);
    TagValueAt(tags, k + 4);
    TagValueAt(tags, k + 5);
    if c == "" {
      TagMissing(tags, "c");
    } else {
      TagValueAt(tags, 2);
    }
  }

  lemma {:induction false} TagMissing(tags: seq<TagPair>, name: string)
    requires forall k :: 0 <= k < |tags| ==> tags[k].name != name
    ensures TagValue(tags, name) == ""
  {
    if tags != [] {
      TagMissing(tags[1..], name);
    }
  }

  /** For a message signed with any canonicalization of headers and body, the verifier reads back what the signature
      names and rebuilds exactly the body and the header block that were hashed and signed. */
  lemma AnySignerRebuilds(s: Signer, c: Canon, raw: string, domain: string, selector: string, list: string, signature: string)
    requires s.sign(SignedBlock(s, c, raw, domain, selector, list)) == Some(signature)
    requires SignedAs(s, c, raw, domain, selector, list).Some?
    requires Tokens(s, c, raw, domain, selector, list, signature) && StartsHeader(Normal(raw))
    ensures var message := SignedAs(s, c, raw, domain, selector, list).value;
            && MessageBody(message) == MessageBody(raw)
            && |MessageHeaders(message)| == |MessageHeaders(raw)| + 1
            && Rebuilt(MessageHeaders(message), MessageBody(message), 0) ==
               Some(Cover(domain, selector, AlgorithmOf(s), BodyHashOf(s, c, raw), s.encode(signature),
                          CanonicalBody(MessageBody(raw), BodyIsRelaxed(c)), SignedBlock(s, c, raw, domain, selector, list)))
  {
    hide Folded, SignatureValue, TagsOf, TagValue, MessageHeaders, MessageBody, Chosen, CanonicalBody, EmptyB, NamesOf, WantedNames,
      BodyHashOf, FoldedText, Solid, StripWsp, ToLower, SignatureText, RelaxedHeader, RelaxedBody, Algorithm, AlgorithmOf, Normal,
      AllSolid, Colons, CanonText, HeaderIsRelaxed, BodyIsRelaxed;
    var want, b64 := WantedNames(raw, list), s.encode(signature);
    var v, f := UnsignedValue(s, c, raw, domain, selector, list), Folded(s.encode(signature));
    WantedReadsBack(raw, list);
    CanonReadsBack(c);
    FinishedTags(s, CanonText(c), domain, selector, Colons(want), BodyHashOf(s, c, raw), b64);
    AlgorithmRead(s);
    HeaderPrepended("DKIM-Signature", v + f, raw);
    MessageForm(v, f, raw);
    var h := Header("DKIM-Signature", v + f);
    SameChoice(h, MessageHeaders(raw), {}, want, HeaderIsRelaxed(c));
    assert {0} + Shift({}) == {0};
    var message := SignedAs(s, c, raw, domain, selector, list).value;
    assert message == ("DKIM-Signature" + (":" + (v + f))) + ("\r\n" + raw);
    var hs := MessageHeaders(message);
    assert hs == [h] + MessageHeaders(raw) && hs[0] == h;
    assert Chosen(hs, {0}, want, HeaderIsRelaxed(c)) == Chosen(MessageHeaders(raw), {}, want, HeaderIsRelaxed(c));
    RebuiltIs(hs, MessageBody(message), c, domain, selector, AlgorithmOf(s), BodyHashOf(s, c, raw), b64, Colons(want), v);
  }

  /** The same for this program's own signer, which is always relaxed. */
  lemma SignThenRebuild(s: Signer, raw: string, domain: string, selector: string, list: string, signature: string)
    requires s.sign(SignedBlock(s, Both(Relaxed, Relaxed), raw, domain, selector, list)) == Some(signature)
    requires Signed(s, raw, domain, selector, list).Some?
    requires Tokens(s, Both(Relaxed, Relaxed), raw, domain, selector, list, signature) && StartsHeader(Normal(raw))
    ensures var message, c := Signed(s, raw, domain, selector, list).value, Both(Relaxed, Relaxed);
            && MessageBody(message) == MessageBody(raw)
            && |MessageHeaders(message)| == |MessageHeaders(raw)| + 1
            && Rebuilt(MessageHeaders(message), MessageBody(message), 0) ==
               Some(Cover(domain, selector, AlgorithmOf(s), BodyHashOf(s, c, raw), s.encode(signature),
                          CanonicalBody(MessageBody(raw), true), SignedBlock(s, c, raw, domain, selector, list)))
  {
    hide MessageBody, MessageHeaders, Rebuilt, SignedBlock, BodyHashOf, CanonicalBody, AlgorithmOf, SignedAs, Tokens, Normal;
    AnySignerRebuilds(s, Both(Relaxed, Relaxed), raw, domain, selector, list, signature);
  }

  /** What the verifier rebuilds, from what it reads out of the signature header. */
  lemma RebuiltIs(headers: seq<Header>, body: string, c: Canon, domain: string, selector: string, algorithm: string, bodyHash: string,
                  b64: string, list: string, unsigned: string)
    requires headers != [] && domain != "" && selector != "" && bodyHash != "" && b64 != "" && list != ""
    requires var tags := TagsOf(headers[0].value);
             && TagValue(tags, "d") == domain && TagValue(tags, "s") == selector && TagValue(tags, "h") == list
             && TagValue(tags, "bh") == bodyHash && StripWsp(TagValue(tags, "b")) == b64
             && TagValue(tags, "a") == algorithm && TagValue(tags, "c") == CanonText(c)
    requires Solid(bodyHash) && Algorithm(ToLower(algorithm)) == algorithm && Supported(algorithm) && EmptyB(headers[0].value) == unsigned
    ensures Rebuilt(headers, body, 0) ==
            Some(Cover(domain, selector, algorithm, bodyHash, b64, CanonicalBody(body, BodyIsRelaxed(c)),
                       Chosen(headers, {0}, NamesOf(list), HeaderIsRelaxed(c)) +
                       SignatureText(Header(headers[0].name, unsigned), HeaderIsRelaxed(c))))
  {
    hide TagsOf, TagValue, StripWsp, ToLower, Algorithm, EmptyB, Chosen, NamesOf, CanonicalBody, SignatureText, RelaxedHeader, RelaxedBody, Solid,
      CanonText, HeaderIsRelaxed, BodyIsRelaxed;
    StripSolid(bodyHash);
    CanonReadsBack(c);
  }

  lemma MessageForm(v: string, f: string, raw: string)
    ensures "DKIM-Signature:" + (v + (f + ("\r\n" + raw))) == ("DKIM-Signature" + (":" + (v + f))) + ("\r\n" + raw)
  {
    var tail := "\r\n" + raw;
    Assoc("DKIM-Signature", ":" + (v + f), tail);
    Assoc(":", v + f, tail);
    Assoc(v, f, tail);
    Assoc("DKIM-Signature", ":", v + (f + tail));
    assert "DKIM-Signature" + ":" == "DKIM-Signature:";
  }

  /** Messages that can be signed under these conditions exist: here is one with a single header. */
  lemma SigningHappens(c: Canon) returns (s: Signer, raw: string, signature: string)
    ensures s.sign(SignedBlock(s, c, raw, "d", "s", "a")) == Some(signature) && SignedAs(s, c, raw, "d", "s", "a").Some?
    ensures Tokens(s, c, raw, "d", "s", "a", signature) && StartsHeader(Normal(raw))
  {
    hide MessageHeaders, MessageBody, NamesOf, SignatureValue, Chosen, CanonicalBody, Normal;
    s := Signer(false, 0, t => t, t => "x", t => Some("y"));
    raw, signature := ("a" + (":" + "")) + ("\r\n" + ""), "y";
    EmptyMessage();
    HeaderPrepended("a", "", "");
    OneName();
    ListReadsBack(["a"]);
    var headers := MessageHeaders(raw);
    assert headers[0] == Header("a", "");
    assert exists i :: 0 <= i < |headers| && NameOf(headers[i]) == "a";
    assert WantedNames(raw, "a") == ["a"] + Present(headers, []);
    assert AllSolid(["a"][1..]);
    assert Solid("a") && Solid("d") && Solid("s") && Solid("x");
  }

  lemma EmptyMessage()
    ensures Normal("") == "" && StartsHeader("")
    ensures StartsHeader(Normal(("a" + (":" + "")) + ("\r\n" + "")))
  {
    var raw := ("a" + (":" + "")) + ("\r\n" + "");
    assert raw[0] == 'a';
    assert Normal(raw) == "a" + Normal(raw[1..]);
  }

  lemma OneName()
    ensures AllListNames(["a"]) && Colons(["a"]) == "a" && NameOf(Header("a", "")) == "a" && OneLine("a") && FoldedText("")
  {
    assert ["a"][1..] == [];
    assert ToLower("a") == [LowerChar('a')] + ToLower("");
    assert TrimSpace("a") == "a";
  }
}
