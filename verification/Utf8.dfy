/** UTF-8 as core/src/json.cpp writes and checks it. */
module Utf8 {
  import opened Text

  // Section 3 of RFC 3629. A byte is a character below 256, and the masks and shifts of the code are written
  // as the arithmetic they perform.

  predicate Scalar(cp: nat) {
    cp < 0xD800 || 0xE000 <= cp <= 0x10FFFF
  }

  function Byte(n: nat): char
    requires n < 256
  {
    n as char
  }

  /** The bytes appended for a code point. */
  function Encode(cp: nat): (s: string)
    requires Scalar(cp)
    ensures 1 <= |s| <= 4
  {
    if cp < 0x80 then [Byte(cp)]
    else if cp < 0x800 then [Byte(0xC0 + cp / 64), Byte(0x80 + cp % 64)]
    else if cp < 0x10000 then [Byte(0xE0 + cp / 4096), Byte(0x80 + cp / 64 % 64), Byte(0x80 + cp % 64)]
    else [Byte(0xF0 + cp / 262144), Byte(0x80 + cp / 4096 % 64), Byte(0x80 + cp / 64 % 64), Byte(0x80 + cp % 64)]
  }

  // ---- reading ------------------------------------------------------------

  predicate IsContinuation(c: char) {
    0x80 <= c as int < 0xC0
  }

  /** How many bytes follow a lead byte, and the bits it carries; None for a byte that is no lead. */
  function Lead(c: char): Option<(nat, nat)> {
    var n := c as int;
    if n < 0x80 then Some((0, n))
    else if 0xC0 <= n < 0xE0 then Some((1, n - 0xC0))
    else if 0xE0 <= n < 0xF0 then Some((2, n - 0xE0))
    else if 0xF0 <= n < 0xF8 then Some((3, n - 0xF0))
    else None
  }

  /** The bits of `n` continuation bytes at `i`, after those gathered so far. */
  function Gather(s: string, i: nat, n: nat, cp: nat): Option<nat>
    decreases n
  {
    if n == 0 then Some(cp)
    else if i >= |s| || !IsContinuation(s[i]) then None
    else Gather(s, i + 1, n - 1, cp * 64 + (s[i] as int - 0x80))
  }

  /** The least code point that needs so many continuation bytes. */
  function Least(extra: nat): nat {
    if extra == 0 then 0 else if extra == 1 then 0x80 else if extra == 2 then 0x800 else 0x10000
  }

  /** The first code point of a string and the length of its encoding. */
  function First(s: string): (r: Option<(nat, nat)>)
    ensures r.Some? ==> Scalar(r.value.0) && 1 <= r.value.1 <= |s|
  {
    if s == "" || Lead(s[0]).None? then None
    else
      var (extra, bits) := Lead(s[0]).value;
      if extra >= |s| then None
      else
        match Gather(s, 1, extra, bits)
        case None => None
        case Some(cp) => if cp < Least(extra) || !Scalar(cp) then None else Some((cp, extra + 1))
  }

  predicate Valid(s: string)
    decreases |s|
  {
    s == "" || (First(s).Some? && Valid(s[First(s).value.1..]))
  }

  // ---- one code point -----------------------------------------------------

  lemma {:induction false} FirstOfEncode(cp: nat, rest: string)
    requires Scalar(cp)
    ensures First(Encode(cp) + rest) == Some((cp, |Encode(cp)|))
  {
    var s := Encode(cp) + rest;
    var n := |Encode(cp)|;
    assert forall i :: 0 <= i < n ==> s[i] == Encode(cp)[i];
    if n == 2 {
      GatherTwo(s, cp);
    } else if n == 3 {
      GatherThree(s, cp);
    } else if n == 4 {
      GatherFour(s, cp);
    }
  }

  lemma Quotients(cp: nat)
    ensures cp / 262144 * 64 + cp / 4096 % 64 == cp / 4096
    ensures cp / 4096 * 64 + cp / 64 % 64 == cp / 64
    ensures cp / 64 * 64 + cp % 64 == cp
  {
  }

  lemma GatherTwo(s: string, cp: nat)
    requires |s| >= 2 && s[1] == Byte(0x80 + cp % 64)
    ensures Gather(s, 1, 1, cp / 64) == Some(cp)
  {
    assert Gather(s, 2, 0, cp) == Some(cp);
  }

  lemma GatherThree(s: string, cp: nat)
    requires |s| >= 3 && s[1] == Byte(0x80 + cp / 64 % 64) && s[2] == Byte(0x80 + cp % 64)
    ensures Gather(s, 1, 2, cp / 4096) == Some(cp)
  {
    Quotients(cp);
    assert Gather(s, 3, 0, cp) == Some(cp);
    assert Gather(s, 2, 1, cp / 64) == Some(cp);
  }

  lemma {:induction false} GatherFour(s: string, cp: nat)
    requires |s| >= 4 && s[1] == Byte(0x80 + cp / 4096 % 64) && s[2] == Byte(0x80 + cp / 64 % 64) && s[3] == Byte(0x80 + cp % 64)
    ensures Gather(s, 1, 3, cp / 262144) == Some(cp)
  {
    Quotients(cp);
    assert Gather(s, 4, 0, cp) == Some(cp);
    assert Gather(s, 3, 1, cp / 64) == Some(cp);
    assert Gather(s, 2, 2, cp / 4096) == Some(cp);
  }

  lemma Split64(a: nat, b: nat)
    requires b < 64
    ensures (a * 64 + b) / 64 == a && (a * 64 + b) % 64 == b
  {
  }

  lemma {:induction false} EncodeOfFirst(s: string)
    requires First(s).Some?
    ensures s[..First(s).value.1] == Encode(First(s).value.0)
  {
    var (cp, n) := First(s).value;
    var (extra, bits) := Lead(s[0]).value;
    if extra == 1 {
      var b1 := s[1] as int - 0x80;
      assert Gather(s, 2, 0, bits * 64 + b1) == Some(cp);
      Split64(bits, b1);
      assert s[..2] == [s[0], s[1]];
    } else if extra == 2 {
      EncodeThree(s, cp, bits);
    } else if extra == 3 {
      EncodeFour(s, cp, bits);
    } else {
      assert s[..1] == [s[0]];
    }
  }

  lemma {:induction false} EncodeThree(s: string, cp: nat, bits: nat)
    requires |s| >= 3 && Lead(s[0]) == Some((2, bits)) && Gather(s, 1, 2, bits) == Some(cp) && cp >= 0x800 && Scalar(cp)
    ensures s[..3] == Encode(cp)
  {
    var b1, b2 := s[1] as int - 0x80, s[2] as int - 0x80;
    assert Gather(s, 2, 1, bits * 64 + b1) == Some(cp);
    assert Gather(s, 3, 0, (bits * 64 + b1) * 64 + b2) == Some(cp);
    Split64(bits * 64 + b1, b2);
    Split64(bits, b1);
    assert cp / 4096 == cp / 64 / 64;
    assert s[..3] == [s[0], s[1], s[2]];
  }

  lemma {:induction false} EncodeFour(s: string, cp: nat, bits: nat)
    requires |s| >= 4 && Lead(s[0]) == Some((3, bits)) && Gather(s, 1, 3, bits) == Some(cp) && cp >= 0x10000 && Scalar(cp)
    ensures s[..4] == Encode(cp)
  {
    var b1, b2, b3 := s[1] as int - 0x80, s[2] as int - 0x80, s[3] as int - 0x80;
    assert Gather(s, 2, 2, bits * 64 + b1) == Some(cp);
    assert Gather(s, 3, 1, (bits * 64 + b1) * 64 + b2) == Some(cp);
    assert Gather(s, 4, 0, ((bits * 64 + b1) * 64 + b2) * 64 + b3) == Some(cp);
    Split64((bits * 64 + b1) * 64 + b2, b3);
    Split64(bits * 64 + b1, b2);
    Split64(bits, b1);
    assert cp / 4096 == cp / 64 / 64 && cp / 262144 == cp / 64 / 64 / 64;
    assert s[..4] == [s[0], s[1], s[2], s[3]];
  }

  // ---- whole strings ------------------------------------------------------

  predicate AllScalar(cps: seq<nat>) {
    forall i :: 0 <= i < |cps| ==> Scalar(cps[i])
  }

  function EncodeAll(cps: seq<nat>): string
    requires AllScalar(cps)
  {
    if cps == [] then "" else Encode(cps[0]) + EncodeAll(cps[1..])
  }

  function DecodeAll(s: string): (cps: seq<nat>)
    requires Valid(s)
    ensures AllScalar(cps)
    decreases |s|
  {
    if s == "" then [] else [First(s).value.0] + DecodeAll(s[First(s).value.1..])
  }

  lemma {:induction false} EncodeThenDecode(cps: seq<nat>)
    requires AllScalar(cps)
    ensures Valid(EncodeAll(cps)) && DecodeAll(EncodeAll(cps)) == cps
  {
    hide First, Encode;
    if cps != [] {
      EncodeThenDecode(cps[1..]);
      FirstOfEncode(cps[0], EncodeAll(cps[1..]));
      var s, n := EncodeAll(cps), |Encode(cps[0])|;
      assert s[n..] == EncodeAll(cps[1..]);
      assert Valid(s[n..]) && DecodeAll(s[n..]) == cps[1..];
      assert s != "";
      assert cps == [cps[0]] + cps[1..];
    }
  }

  lemma {:induction false} DecodeThenEncode(s: string)
    requires Valid(s)
    ensures EncodeAll(DecodeAll(s)) == s
    decreases |s|
  {
    hide First, Encode;
    if s != "" {
      var n := First(s).value.1;
      EncodeOfFirst(s);
      DecodeThenEncode(s[n..]);
      assert DecodeAll(s)[1..] == DecodeAll(s[n..]);
      assert s == s[..n] + s[n..];
    }
  }

  /** A string is valid exactly when it is the encoding of some code points. */
  lemma {:induction false} ValidIsEncoded(s: string)
    ensures Valid(s) <==> exists cps :: AllScalar(cps) && EncodeAll(cps) == s
  {
    if Valid(s) {
      DecodeThenEncode(s);
    }
    if cps :| AllScalar(cps) && EncodeAll(cps) == s {
      EncodeThenDecode(cps);
    }
  }

  /** And those code points are the only ones it encodes. */
  lemma EncodingIsUnique(a: seq<nat>, b: seq<nat>)
    requires AllScalar(a) && AllScalar(b) && EncodeAll(a) == EncodeAll(b)
    ensures a == b
  {
    EncodeThenDecode(a);
    EncodeThenDecode(b);
  }

  // ---- the octets of section 4 of RFC 3629 ---------------------------------

  predicate Between(s: string, i: nat, low: int, high: int) {
    i < |s| && low <= s[i] as int <= high
  }

  /** The length of the character that a string starts with by the grammar of octets, zero when there is none. */
  function Octets(s: string): (n: nat)
    ensures n <= |s|
  {
    if Between(s, 0, 0x00, 0x7F) then 1
    else if Between(s, 0, 0xC2, 0xDF) && Between(s, 1, 0x80, 0xBF) then 2
    else if || (Between(s, 0, 0xE0, 0xE0) && Between(s, 1, 0xA0, 0xBF) && Between(s, 2, 0x80, 0xBF))
            || (Between(s, 0, 0xE1, 0xEC) && Between(s, 1, 0x80, 0xBF) && Between(s, 2, 0x80, 0xBF))
            || (Between(s, 0, 0xED, 0xED) && Between(s, 1, 0x80, 0x9F) && Between(s, 2, 0x80, 0xBF))
            || (Between(s, 0, 0xEE, 0xEF) && Between(s, 1, 0x80, 0xBF) && Between(s, 2, 0x80, 0xBF)) then 3
    else if || (Between(s, 0, 0xF0, 0xF0) && Between(s, 1, 0x90, 0xBF) && Between(s, 2, 0x80, 0xBF) && Between(s, 3, 0x80, 0xBF))
            || (Between(s, 0, 0xF1, 0xF3) && Between(s, 1, 0x80, 0xBF) && Between(s, 2, 0x80, 0xBF) && Between(s, 3, 0x80, 0xBF))
            || (Between(s, 0, 0xF4, 0xF4) && Between(s, 1, 0x80, 0x8F) && Between(s, 2, 0x80, 0xBF) && Between(s, 3, 0x80, 0xBF)) then 4
    else 0
  }

  predicate WellFormed(s: string)
    decreases |s|
  {
    s == "" || (Octets(s) > 0 && WellFormed(s[Octets(s)..]))
  }

  lemma {:induction false} FirstIsOctets(s: string)
    ensures First(s).Some? ==> First(s).value.1 == Octets(s)
    ensures First(s).None? ==> Octets(s) == 0
  {
    if s != "" && Lead(s[0]).Some? && Lead(s[0]).value.0 < |s| {
      var (extra, bits) := Lead(s[0]).value;
      GatherOctets(s, extra, bits);
    }
  }

  lemma {:induction false} GatherOctets(s: string, extra: nat, bits: nat)
    requires extra < |s| && extra <= 3
    ensures Gather(s, 1, extra, bits) ==
            if forall k :: 1 <= k <= extra ==> IsContinuation(s[k]) then
              Some(if extra == 0 then bits
                   else if extra == 1 then bits * 64 + (s[1] as int - 0x80)
                   else if extra == 2 then bits * 4096 + (s[1] as int - 0x80) * 64 + (s[2] as int - 0x80)
                   else bits * 262144 + (s[1] as int - 0x80) * 4096 + (s[2] as int - 0x80) * 64 + (s[3] as int - 0x80))
            else None
  {
    if extra >= 1 && IsContinuation(s[1]) {
      var b1 := bits * 64 + (s[1] as int - 0x80);
      assert Gather(s, 1, extra, bits) == Gather(s, 2, extra - 1, b1);
      if extra >= 2 && IsContinuation(s[2]) {
        var b2 := b1 * 64 + (s[2] as int - 0x80);
        assert Gather(s, 2, extra - 1, b1) == Gather(s, 3, extra - 2, b2);
        if extra == 3 && IsContinuation(s[3]) {
          assert Gather(s, 3, 1, b2) == Gather(s, 4, 0, b2 * 64 + (s[3] as int - 0x80));
        }
      }
    }
  }

  /** What is valid is what the grammar of octets allows. */
  lemma {:induction false} ValidIsWellFormed(s: string)
    ensures Valid(s) <==> WellFormed(s)
    decreases |s|
  {
    hide First, Octets;
    FirstIsOctets(s);
    if s != "" && First(s).Some? {
      ValidIsWellFormed(s[Octets(s)..]);
    }
  }

  /** The order of the bits, by examples of section 7 of RFC 3629. */
  lemma BitsInOrder()
    ensures Encode(0x41) == [0x41 as char]
    ensures Encode(0x391) == [0xCE as char, 0x91 as char]
    ensures Encode(0x2262) == [0xE2 as char, 0x89 as char, 0xA2 as char]
    ensures Encode(0x65E5) == [0xE6 as char, 0x97 as char, 0xA5 as char]
    ensures Encode(0x233B4) == [0xF0 as char, 0xA3 as char, 0x8E as char, 0xB4 as char]
  {
  }

  // ---- the checker --------------------------------------------------------

  lemma ValidStep(s: string, i: nat)
    requires i < |s|
    ensures Valid(s[i..]) <==> First(s[i..]).Some? && Valid(s[i + First(s[i..]).value.1..])
  {
    hide First;
    var t := s[i..];
    if First(t).Some? {
      assert t[First(t).value.1..] == s[i + First(t).value.1..];
    }
  }

  lemma {:induction false} GatherShift(s: string, i: nat, k: nat, n: nat, cp: nat)
    requires i <= |s|
    ensures Gather(s[i..], k, n, cp) == Gather(s, i + k, n, cp)
    decreases n
  {
    if n > 0 && i + k < |s| {
      assert s[i..][k] == s[i + k];
      if IsContinuation(s[i + k]) {
        GatherShift(s, i, k + 1, n - 1, cp * 64 + (s[i + k] as int - 0x80));
      }
    }
  }

  method ValidUtf8(s: string) returns (ok: bool)
    ensures ok == Valid(s)
  {
    hide Valid, Gather;
    var i := 0;
    assert s[0..] == s;
    while i < |s|
      invariant i <= |s| && Valid(s[i..]) == Valid(s)
    {
      ValidStep(s, i);
      var c := s[i];
      assert s[i..][0] == c;
      var lead := Lead(c);
      if lead.None? {
        return false;
      }
      var extra: nat, cp: nat := lead.value.0, lead.value.1;
      GatherShift(s, i, 1, extra, cp);
      ghost var bits := cp;
      GatherNone(s, i + 1, cp);
      if extra == 0 {
        i := i + 1;
        continue;
      }
      if i + extra >= |s| {
        return false;
      }
      for k := 1 to extra + 1
        invariant Gather(s, i + 1, extra, bits) == Gather(s, i + k, extra + 1 - k, cp)
      {
        var cont := s[i + k];
        GatherOne(s, i + k, extra + 1 - k, cp);
        if !IsContinuation(cont) {
          return false;
        }
        cp := cp * 64 + (cont as int - 0x80);
      }
      GatherNone(s, i + extra + 1, cp);
      if cp < Least(extra) || !Scalar(cp) {
        return false;
      }
      i := i + extra + 1;
    }
    assert s[|s|..] == "";
    ValidEmpty();
    ok := true;
  }

  lemma ValidEmpty()
    ensures Valid("")
  {
  }

  lemma GatherNone(s: string, i: nat, cp: nat)
    ensures Gather(s, i, 0, cp) == Some(cp)
  {
  }

  lemma GatherOne(s: string, i: nat, n: nat, cp: nat)
    requires i < |s| && n > 0
    ensures Gather(s, i, n, cp) == if IsContinuation(s[i]) then Gather(s, i + 1, n - 1, cp * 64 + (s[i] as int - 0x80)) else None
  {
  }
}
