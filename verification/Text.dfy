/** Small pieces of text handling shared by the models: decimal numbers, searching, letters and blanks of the C
    locale, lines and their ends. */
module Text {

  datatype Option<+T> = None | Some(value: T)

  /** Concatenation of a list of strings. */
  function Flatten(parts: seq<string>): string {
    if parts == [] then "" else parts[0] + Flatten(parts[1..])
  }

  lemma {:induction false} FlattenAppend(a: seq<string>, b: seq<string>)
    ensures Flatten(a + b) == Flatten(a) + Flatten(b)
  {
    if a == [] {
      assert a + b == b;
    } else {
      FlattenAppend(a[1..], b);
      assert (a + b)[0] == a[0] && (a + b)[1..] == a[1..] + b;
      Assoc(a[0], Flatten(a[1..]), Flatten(b));
    }
  }

  lemma Assoc<T>(a: seq<T>, b: seq<T>, c: seq<T>)
    ensures (a + b) + c == a + (b + c)
  {
  }

  function Max(a: nat, b: nat): nat {
    if a < b then b else a
  }

  function Min(a: int, b: int): (r: int)
    ensures r <= a && r <= b && (r == a || r == b)
  {
    if a <= b then a else b
  }

  // ---- decimal numbers ----------------------------------------------------

  predicate IsDigit(c: char) {
    '0' <= c <= '9'
  }

  function Digit(d: nat): (c: char)
    requires d < 10
    ensures IsDigit(c) && DigitValue(c) == d
  {
    '0' + d as char
  }

  function DigitValue(c: char): (d: nat)
    requires IsDigit(c)
    ensures d < 10
  {
    (c - '0') as nat
  }

  /** Decimal text of a natural number, as `std::to_string` writes it. */
  function Num(n: nat): (s: string)
    ensures s != [] && forall i :: 0 <= i < |s| ==> IsDigit(s[i])
  {
    if n < 10 then [Digit(n)] else Num(n / 10) + [Digit(n % 10)]
  }

  /** How many digits a text starts with. */
  function DigitRun(s: string): (n: nat)
    ensures n <= |s|
  {
    if s != "" && IsDigit(s[0]) then 1 + DigitRun(s[1..]) else 0
  }

  /** The value of a run of digits. */
  function DecValue(ds: string): nat {
    if ds == "" then 0
    else DecValue(ds[..|ds| - 1]) * 10 + (if IsDigit(ds[|ds| - 1]) then DigitValue(ds[|ds| - 1]) else 0)
  }

  lemma {:induction false} NumValue(n: nat)
    ensures DecValue(Num(n)) == n
    decreases n
  {
    var s := Num(n);
    if n >= 10 {
      NumValue(n / 10);
      assert s[..|s| - 1] == Num(n / 10) && s[|s| - 1] == Digit(n % 10);
      assert DecValue(s[..|s| - 1]) == DecValue(Num(n / 10));
    } else {
      assert s == [Digit(n)] && s[..0] == "";
      assert DecValue(s[..0]) == 0;
    }
  }

  // ---- searching ----------------------------------------------------------

  /** The first position of `c` at or after `from`, or `|s|` when there is none. */
  function IndexOf(s: string, c: char, from: nat): (i: nat)
    requires from <= |s|
    ensures from <= i <= |s|
    ensures forall k :: from <= k < i ==> s[k] != c
    ensures i < |s| ==> s[i] == c
    decreases |s| - from
  {
    if from == |s| || s[from] == c then from else IndexOf(s, c, from + 1)
  }

  lemma IndexOfSuffix(s: string, c: char, from: nat)
    requires from <= |s|
    ensures IndexOf(s[from..], c, 0) == IndexOf(s, c, from) - from
  {
    var i, k := IndexOf(s[from..], c, 0), IndexOf(s, c, from);
    assert i < |s| - from ==> s[from + i] == c;
    assert k < |s| ==> s[from..][k - from] == c;
  }

  /** The first place at or after `from` where a text occurs. */
  function FindText(s: string, pattern: string, from: nat): (r: Option<nat>)
    requires from <= |s|
    ensures r.Some? ==> from <= r.value && r.value + |pattern| <= |s| && s[r.value..r.value + |pattern|] == pattern
    decreases |s| - from
  {
    if from + |pattern| > |s| then None
    else if s[from..from + |pattern|] == pattern then Some(from)
    else if from == |s| then None
    else FindText(s, pattern, from + 1)
  }

  /** The last place of a character. */
  function LastOf(s: string, c: char): (r: Option<nat>)
    ensures r.Some? ==> r.value < |s|
  {
    if s == "" then None else if s[|s| - 1] == c then Some(|s| - 1) else LastOf(s[..|s| - 1], c)
  }

  /** Reading on from a place in a text. */
  lemma Tail(s: string, i: nat)
    requires i < |s|
    ensures s[i..] != "" && s[i..][0] == s[i] && s[i..][1..] == s[i + 1..]
  {
  }

  lemma TailOf(s: string, i: nat, j: nat)
    requires i + j <= |s|
    ensures s[i..][j..] == s[i + j..] && s[i..][..j] == s[i..i + j]
  {
  }

  // ---- letters, blanks and line breaks (the C locale) ----------------------

  /** What `isspace` takes. */
  predicate IsSpace(c: char) {
    c == ' ' || '\t' <= c <= '\r'
  }

  function LowerChar(c: char): char {
    if 'A' <= c <= 'Z' then (c as int + 32) as char else c
  }

  /** The letters of the C locale, and nothing else, change. */
  lemma CaseTable(c: char)
    ensures forall i :: 0 <= i < 26 ==> LowerChar("ABCDEFGHIJKLMNOPQRSTUVWXYZ"[i]) == "abcdefghijklmnopqrstuvwxyz"[i]
    ensures c !in "ABCDEFGHIJKLMNOPQRSTUVWXYZ" ==> LowerChar(c) == c
  {
    var upper := "ABCDEFGHIJKLMNOPQRSTUVWXYZ";
    if 'A' <= c <= 'Z' {
      assert upper[c as int - 65] == c;
    }
  }

  function ToLower(s: string): (r: string)
    ensures |r| == |s|
  {
    if s == "" then "" else [LowerChar(s[0])] + ToLower(s[1..])
  }

  lemma {:induction false} ToLowerSame(s: string)
    requires forall i :: 0 <= i < |s| ==> !('A' <= s[i] <= 'Z')
    ensures ToLower(s) == s
  {
    if s != "" {
      ToLowerSame(s[1..]);
      assert s == [s[0]] + s[1..];
    }
  }

  lemma {:induction false} ToLowerAt(s: string, i: nat)
    requires i < |s|
    ensures ToLower(s)[i] == LowerChar(s[i])
  {
    if i > 0 {
      ToLowerAt(s[1..], i - 1);
    }
  }

  lemma {:induction false} LowerTwice(a: string)
    ensures ToLower(ToLower(a)) == ToLower(a)
  {
    hide ToLower;
    forall i | 0 <= i < |ToLower(a)|
      ensures !('A' <= ToLower(a)[i] <= 'Z')
    {
      ToLowerAt(a, i);
    }
    ToLowerSame(ToLower(a));
  }

  /** Blanks and line breaks removed from both ends. */
  function TrimSpace(s: string): string {
    if s != "" && s[0] in " \t\r\n" then TrimSpace(s[1..])
    else if s != "" && s[|s| - 1] in " \t\r\n" then TrimSpace(s[..|s| - 1])
    else s
  }

  lemma {:induction false} TrimSpaceShortens(s: string)
    ensures |TrimSpace(s)| <= |s|
    ensures s != "" && s[0] !in " \t\r\n" && s[|s| - 1] !in " \t\r\n" ==> TrimSpace(s) == s
    decreases |s|
  {
    if s != "" && s[0] in " \t\r\n" {
      TrimSpaceShortens(s[1..]);
    } else if s != "" && s[|s| - 1] in " \t\r\n" {
      TrimSpaceShortens(s[..|s| - 1]);
    }
  }

  predicate OneLine(s: string) {
    forall i :: 0 <= i < |s| ==> s[i] != '\r' && s[i] != '\n'
  }

  /** A string without its line breaks. */
  function Clean(s: string): string {
    if s == "" then "" else (if s[0] == '\r' || s[0] == '\n' then "" else [s[0]]) + Clean(s[1..])
  }

  lemma {:induction false} CleanOneLine(s: string)
    ensures OneLine(s) <==> Clean(s) == s
    ensures |Clean(s)| <= |s|
  {
    if s != "" {
      CleanOneLine(s[1..]);
      assert s == [s[0]] + s[1..];
      if s[0] != '\r' && s[0] != '\n' {
        assert Clean(s)[1..] == Clean(s[1..]);
        assert forall i :: 0 <= i < |s| - 1 ==> s[1..][i] == s[i + 1];
        assert OneLine(s) <==> OneLine(s[1..]) by {
          if OneLine(s[1..]) {
            forall i | 0 <= i < |s|
              ensures s[i] != '\r' && s[i] != '\n'
            {
              if i > 0 {
                assert s[i] == s[1..][i - 1];
              }
            }
          }
        }
      }
    }
  }

  /** One trailing carriage return removed. */
  function StripCr(line: string): string {
    if line != "" && line[|line| - 1] == '\r' then line[..|line| - 1] else line
  }

  predicate NoNewline(line: string) {
    forall i :: 0 <= i < |line| ==> line[i] != '\n'
  }

  // ---- newline-terminated lines -------------------------------------------

  /** Each line followed by a newline. */
  function Terminate(lines: seq<string>): string {
    if lines == [] then "" else lines[0] + "\n" + Terminate(lines[1..])
  }

  lemma {:induction false} TerminateAppend(a: seq<string>, b: seq<string>)
    ensures Terminate(a + b) == Terminate(a) + Terminate(b)
  {
    if a == [] {
      assert a + b == b;
    } else {
      TerminateAppend(a[1..], b);
      assert (a + b)[0] == a[0] && (a + b)[1..] == a[1..] + b;
      Assoc(a[0] + "\n", Terminate(a[1..]), Terminate(b));
    }
  }
}
