/** The string operations the repository relies on: prefix tests, case folding over ASCII,
    splitting on a character, and decimal printing and parsing. */
module Text {
  import opened Wrappers

  function LowerChar(c: char): char {
    if 'A' <= c <= 'Z' then (c as int + 32) as char else c
  }

  /** `toLowerCase` on ASCII text. */
  function ToLower(s: string): string {
    seq(|s|, i requires 0 <= i < |s| => LowerChar(s[i]))
  }

  function UpperChar(c: char): char {
    if 'a' <= c <= 'z' then (c as int - 32) as char else c
  }

  /** `toUpperCase` on ASCII text. */
  function ToUpper(s: string): string {
    seq(|s|, i requires 0 <= i < |s| => UpperChar(s[i]))
  }

  /** Equal, or the two cases of one ASCII letter. */
  predicate SameLetter(a: char, b: char) {
    || a == b
    || ('A' <= a <= 'Z' && b as int == a as int + 32)
    || ('A' <= b <= 'Z' && a as int == b as int + 32)
  }

  predicate SameUpToCase(a: string, b: string) {
    |a| == |b| && forall i :: 0 <= i < |a| ==> SameLetter(a[i], b[i])
  }

  lemma SameLetterExactly(a: char, b: char)
    ensures LowerChar(a) == LowerChar(b) <==> SameLetter(a, b)
    ensures UpperChar(a) == UpperChar(b) <==> SameLetter(a, b)
  {
  }

  /** Folding to lower case identifies exactly the texts that differ in case only, ... */
  lemma LowerSameExactly(a: string, b: string)
    ensures ToLower(a) == ToLower(b) <==> SameUpToCase(a, b)
  {
    if SameUpToCase(a, b) {
      forall i | 0 <= i < |a| ensures ToLower(a)[i] == ToLower(b)[i] { SameLetterExactly(a[i], b[i]); }
    }
    if ToLower(a) == ToLower(b) {
      assert |a| == |b|;
      forall i | 0 <= i < |a| ensures SameLetter(a[i], b[i]) {
        assert ToLower(a)[i] == ToLower(b)[i];
        SameLetterExactly(a[i], b[i]);
      }
    }
  }

  /** What is folded differs from the text in case only, and has no capital letter: only one text does. */
  lemma LowerExactly(s: string, t: string)
    ensures t == ToLower(s) <==> SameUpToCase(t, s) && forall i :: 0 <= i < |t| ==> !('A' <= t[i] <= 'Z')
  {
    if SameUpToCase(t, s) && forall i :: 0 <= i < |t| ==> !('A' <= t[i] <= 'Z') {
      assert forall i :: 0 <= i < |t| ==> t[i] == ToLower(s)[i];
    }
  }

  /** ... and so does folding to upper case. */
  lemma UpperSameExactly(a: string, b: string)
    ensures ToUpper(a) == ToUpper(b) <==> SameUpToCase(a, b)
  {
    if SameUpToCase(a, b) {
      forall i | 0 <= i < |a| ensures ToUpper(a)[i] == ToUpper(b)[i] { SameLetterExactly(a[i], b[i]); }
    }
    if ToUpper(a) == ToUpper(b) {
      assert |a| == |b|;
      forall i | 0 <= i < |a| ensures SameLetter(a[i], b[i]) {
        assert ToUpper(a)[i] == ToUpper(b)[i];
        SameLetterExactly(a[i], b[i]);
      }
    }
  }

  predicate IsBlank(c: char) {
    c in {' ', '\t', '\n', '\U{0B}', '\U{0C}', '\r'}
  }

  /** `trim()`, for the ASCII blanks. */
  function Trim(s: string): string {
    if s != "" && IsBlank(s[0]) then Trim(s[1..])
    else if s != "" && IsBlank(s[|s| - 1]) then Trim(s[..|s| - 1])
    else s
  }

  /** Blanks, listed one by one. */
  predicate Blanks(s: string) {
    forall i :: 0 <= i < |s| ==> s[i] in {' ', '\t', '\n', '\U{0B}', '\U{0C}', '\r'}
  }

  /** No blank at either end. */
  predicate Unpadded(s: string) {
    s == "" || !(Blanks(s[..1]) || Blanks(s[|s| - 1..]))
  }

  lemma {:induction false} TrimAfter(core: string, trail: string)
    requires core != "" && Unpadded(core) && Blanks(trail)
    ensures Trim(core + trail) == core
    decreases |trail|
  {
    var s := core + trail;
    assert s[0] == core[..1][0];
    if trail == "" {
      assert s == core && core[|core| - 1..][0] == core[|core| - 1];
    } else {
      var n := |trail| - 1;
      assert s[|s| - 1] == trail[n] && s[..|s| - 1] == core + trail[..n];
      TrimAfter(core, trail[..n]);
    }
  }

  /** Whatever blanks stand around a text without blanks at its ends are removed, and nothing else. */
  lemma {:induction false} TrimExactly(lead: string, core: string, trail: string)
    requires Blanks(lead) && Unpadded(core) && Blanks(trail)
    ensures Trim(lead + core + trail) == core
    decreases |lead|
  {
    var s := lead + core + trail;
    if lead != "" {
      assert s[1..] == lead[1..] + core + trail && s[0] == lead[0];
      TrimExactly(lead[1..], core, trail);
    } else if core == "" {
      assert s == trail;
      AllBlankTrims(s);
    } else {
      assert s == core + trail;
      TrimAfter(core, trail);
    }
  }

  lemma {:induction false} AllBlankTrims(s: string)
    requires Blanks(s)
    ensures Trim(s) == ""
  {
    if s != "" {
      AllBlankTrims(s[1..]);
    }
  }

  /** Every text is such a text with such blanks around it. */
  lemma {:induction false} TrimSplits(s: string) returns (lead: string, core: string, trail: string)
    ensures s == lead + core + trail && Blanks(lead) && Unpadded(core) && Blanks(trail)
    decreases |s|
  {
    if s != "" && Blanks(s[..1]) {
      lead, core, trail := TrimSplits(s[1..]);
      lead := s[..1] + lead;
    } else if s != "" && Blanks(s[|s| - 1..]) {
      lead, core, trail := TrimSplits(s[..|s| - 1]);
      assert s == s[..|s| - 1] + s[|s| - 1..];
      trail := trail + s[|s| - 1..];
    } else {
      lead, core, trail := "", s, "";
    }
  }

  /** `split(sep)`: never empty, and `""` splits into one empty part. */
  function Split(s: string, sep: char): (parts: seq<string>)
    ensures |parts| >= 1
  {
    if s == "" then [""]
    else
      var rest := Split(s[1..], sep);
      if s[0] == sep then [""] + rest else [[s[0]] + rest[0]] + rest[1..]
  }

  lemma {:induction false} SplitOne(s: string, sep: char)
    requires sep !in s
    ensures Split(s, sep) == [s]
  {
    if s != "" {
      SplitOne(s[1..], sep);
      assert [s[0]] + s[1..] == s;
    }
  }

  /** Splitting after a separator-free head yields that head, then the parts of the tail. */
  lemma {:induction false} SplitHead(head: string, sep: char, tail: string)
    requires sep !in head
    ensures Split(head + [sep] + tail, sep) == [head] + Split(tail, sep)
  {
    var s := head + [sep] + tail;
    if head == "" {
      assert s[1..] == tail;
    } else {
      assert s[1..] == head[1..] + [sep] + tail;
      SplitHead(head[1..], sep, tail);
      assert [s[0]] + head[1..] == head;
    }
  }

  /** `join(sep)` of at least one part. */
  function Join(parts: seq<string>, sep: char): string
    requires parts != []
  {
    if |parts| == 1 then parts[0] else parts[0] + [sep] + Join(parts[1..], sep)
  }

  /** The parts of a split hold no separator ... */
  lemma {:induction false} SplitClean(s: string, sep: char)
    ensures forall part | part in Split(s, sep) :: sep !in part
  {
    if s != "" {
      SplitClean(s[1..], sep);
      assert Split(s[1..], sep)[0] in Split(s[1..], sep);
    }
  }

  lemma JoinOntoHead(c: char, parts: seq<string>, sep: char)
    requires parts != []
    ensures Join([[c] + parts[0]] + parts[1..], sep) == [c] + Join(parts, sep)
  {
    var longer := [[c] + parts[0]] + parts[1..];
    assert longer[1..] == parts[1..];
    if |parts| > 1 {
      assert ([c] + parts[0]) + [sep] + Join(parts[1..], sep) == [c] + (parts[0] + [sep] + Join(parts[1..], sep));
    }
  }

  /** ... and joining them gives the text back. */
  lemma {:induction false} SplitJoin(s: string, sep: char)
    ensures Join(Split(s, sep), sep) == s
  {
    if s != "" {
      var rest := Split(s[1..], sep);
      SplitJoin(s[1..], sep);
      assert s == [s[0]] + s[1..];
      if s[0] == sep {
        assert ([""] + rest)[1..] == rest;
      } else {
        JoinOntoHead(s[0], rest, sep);
      }
    }
  }

  // ---- Decimal numbers ----

  predicate IsDigit(c: char) { '0' <= c <= '9' }

  function Digit(n: nat): (c: char)
    requires n < 10
    ensures IsDigit(c) && c as int - '0' as int == n
  {
    ('0' as int + n) as char
  }

  /** `String(n)` for a non-negative integer. */
  function PrintNat(n: nat): (s: string)
    ensures s != "" && forall i | 0 <= i < |s| :: IsDigit(s[i])
  {
    if n < 10 then [Digit(n)] else PrintNat(n / 10) + [Digit(n % 10)]
  }

  function PrintInt(n: int): string {
    if n < 0 then "-" + PrintNat(-n) else PrintNat(n)
  }

  /** The number of leading characters that are digits. */
  function DigitRun(s: string): (n: nat)
    ensures n <= |s|
  {
    if s != "" && IsDigit(s[0]) then 1 + DigitRun(s[1..]) else 0
  }

  /** The value of a string of digits, most significant first. */
  function DigitsValue(s: string): nat
    requires forall i | 0 <= i < |s| :: IsDigit(s[i])
  {
    if s == "" then 0
    else
      assert IsDigit(s[|s| - 1]);
      10 * DigitsValue(s[..|s| - 1]) + (s[|s| - 1] as int - '0' as int)
  }

  lemma {:induction false} DigitRunIsDigits(s: string)
    ensures forall i | 0 <= i < DigitRun(s) :: IsDigit(s[i])
    ensures DigitRun(s) < |s| ==> !IsDigit(s[DigitRun(s)])
  {
    if s != "" && IsDigit(s[0]) {
      DigitRunIsDigits(s[1..]);
      forall i | 0 <= i < DigitRun(s) ensures IsDigit(s[i]) {
        if i > 0 { assert s[i] == s[1..][i - 1]; }
      }
    }
  }

  /** `parseInt(s, 10)` on text without leading blanks: an optional minus sign and the leading
      digits; None is NaN. */
  function ParseInt(s: string): Option<int> {
    if s != "" && s[0] == '-' then
      match ParseNatPrefix(s[1..]) { case None => None case Some(n) => Some(-n) }
    else
      ParseNatPrefix(s)
  }

  function ParseNatPrefix(s: string): Option<int> {
    DigitRunIsDigits(s);
    if DigitRun(s) == 0 then None else Some(DigitsValue(s[..DigitRun(s)]))
  }

  lemma {:induction false} DigitRunAll(s: string, tail: string)
    requires forall i | 0 <= i < |s| :: IsDigit(s[i])
    requires tail == "" || !IsDigit(tail[0])
    ensures DigitRun(s + tail) == |s|
  {
    if s == "" {
      assert s + tail == tail;
    } else {
      assert (s + tail)[1..] == s[1..] + tail;
      DigitRunAll(s[1..], tail);
    }
  }

  lemma {:induction false} DigitsOfPrint(n: nat)
    ensures DigitsValue(PrintNat(n)) == n
  {
    var s := PrintNat(n);
    if n < 10 {
      assert s[..0] == "";
    } else {
      DigitsOfPrint(n / 10);
      assert s[..|s| - 1] == PrintNat(n / 10);
    }
  }

  lemma ParsePrintNat(m: nat, tail: string)
    requires tail == "" || !IsDigit(tail[0])
    ensures ParseNatPrefix(PrintNat(m) + tail) == Some(m)
  {
    var s := PrintNat(m) + tail;
    DigitRunAll(PrintNat(m), tail);
    DigitsOfPrint(m);
    assert s[..|PrintNat(m)|] == PrintNat(m);
  }

  lemma ParseMinus(s: string, rest: string, m: int)
    requires s == "-" + rest && ParseNatPrefix(rest) == Some(m)
    ensures ParseInt(s) == Some(-m)
  {
    assert s[1..] == rest;
  }

  /** Printing and parsing back is the identity on every integer, whatever non-digit follows. */
  lemma ParsePrint(n: int, tail: string)
    requires tail == "" || !IsDigit(tail[0])
    ensures ParseInt(PrintInt(n) + tail) == Some(n)
  {
    if n < 0 {
      ParsePrintNat(-n, tail);
      assert PrintInt(n) + tail == "-" + (PrintNat(-n) + tail);
      ParseMinus(PrintInt(n) + tail, PrintNat(-n) + tail, -n);
    } else {
      ParsePrintNat(n, tail);
      assert IsDigit(PrintNat(n)[0]);
    }
  }
}
