/** Serialized values parse back, exactly when they are within the limits. */
module JsonRoundTrip {
  import opened Text
  import opened Utf8
  import opened Json
  import opened JsonReadBack

  /** A serialized value parses to itself when it is within the limits, and to nothing otherwise. */
  lemma SerializeThenParse(v: Value, show: string -> string, lim: Limits)
    requires Exact(v)
    ensures DocumentOf(ValueText(v, show), lim) ==
            if Depth(v) <= lim.maxDepth && Count(v) <= lim.maxNodes && StringsFit(v, lim) then Some(v) else None
  {
    hide ValueAt, ValueText, Exact, Depth, Count, StringsFit, Fits;
    ValueReadsBack(v, show, "", 0, 0, lim);
    ValueStarts(v, show, "");
    assert ValueText(v, show) + "" == ValueText(v, show);
    FitsMeans(v, 0, 0, lim);
  }

  /** Any accepted document nests and counts within the limits, and no string of it is more than four bytes
      longer than its limit. */
  lemma AcceptedRespectsLimits(s: string, lim: Limits)
    ensures var r := DocumentOf(s, lim);
            r.Some? ==> Depth(r.value) <= lim.maxDepth && Count(r.value) <= lim.maxNodes && StringsBounded(r.value, lim)
  {
    hide ValueAt, Depth, Count, StringsBounded;
    ValueRespects(SkipSpace(s), 0, 0, lim);
  }

  /** The limit on strings is tested before each character: with a limit of zero bytes one character is
      accepted, an escape of four bytes too, and a second character is not. */
  lemma LimitIsTestedBefore(lim: Limits)
    requires lim.maxString == 0
    ensures StringAt("a\"", lim) == Some(("a", "")) && StringAt("ab\"", lim) == None
    ensures StringAt("\\ud83d\\ude00\"", lim) == Some((Encode(0x1F600), "")) && |Encode(0x1F600)| == 4
  {
    hide CharsAt, Valid, Encode;
    OneScalar(0x61);
    OneScalar(0x1F600);
    LettersAt(lim);
    FaceAt(lim);
    FaceEscape();
  }

  lemma LettersAt(lim: Limits)
    requires lim.maxString == 0
    ensures Encode(0x61) == "a" && CharsAt("a\"", 0, lim) == Some(("a", "")) && CharsAt("ab\"", 0, lim) == None
  {
    assert "a\""[1..] == "\"" && "ab\""[1..] == "b\"" && "\""[1..] == "";
    assert CharsAt("\"", 1, lim) == Some(("", ""));
    assert "a" + "" == "a";
    assert CharsAt("b\"", 1, lim) == None;
    assert CharsAt("a\"", 0, lim) == Prefixed("a", CharsAt("\"", 1, lim));
    assert CharsAt("ab\"", 0, lim) == Prefixed("a", CharsAt("b\"", 1, lim));
  }

  lemma FaceAt(lim: Limits)
    requires lim.maxString == 0
    ensures CharsAt("\\ud83d\\ude00\"", 0, lim) == Some((Encode(0x1F600), ""))
  {
    hide EscapeAt, Encode;
    FaceEscape();
    var s := "\\ud83d\\ude00\"";
    assert s[1..] == "ud83d\\ude00\"" && s[0] == '\\' && "\""[1..] == "";
    assert CharsAt("\"", 4, lim) == Some(("", ""));
    assert CharsAt(s, 0, lim) == Prefixed(Encode(0x1F600), CharsAt("\"", 0 + |Encode(0x1F600)|, lim));
    assert Encode(0x1F600) + "" == Encode(0x1F600);
  }

  lemma FaceEscape()
    ensures EscapeAt("ud83d\\ude00\"") == Some((Encode(0x1F600), "\"")) && |Encode(0x1F600)| == 4
  {
    var s := "ud83d\\ude00\"";
    assert s[1..] == "d83d\\ude00\"";
    assert s[1..][4..] == "\\ude00\"" && "\\ude00\""[2..] == "de00\"" && "de00\""[4..] == "\"";
    assert Hex4("d83d\\ude00\"") == Some((0xD83D, "\\ude00\""));
    assert Hex4("de00\"") == Some((0xDE00, "\""));
  }

  lemma OneScalar(cp: nat)
    requires Scalar(cp)
    ensures Valid(Encode(cp))
  {
    hide Valid, Encode;
    assert AllScalar([cp]) && [cp][1..] == [];
    EncodeThenDecode([cp]);
    assert EncodeAll([cp]) == Encode(cp) + "" == Encode(cp);
  }
}
