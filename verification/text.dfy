/**
 The few Python string operations the label-file parser relies on:
 `str.strip()`, `str.isdigit()` on ASCII digits, `int(...)` of a digit
 string, and `re.split(r'[:\s]+', s, maxsplit=1)`.

 Whitespace is Python's `str.isspace()` set, which is also what `\s`
 matches in a `str` pattern of the `re` module.
 */
module PyText {

  /** Python's `str.isspace()` for one code point. */
  predicate IsSpace(c: char) {
    var n := c as int;
    || 0x09 <= n <= 0x0D
    || 0x1C <= n <= 0x20
    || n == 0x85 || n == 0xA0 || n == 0x1680
    || 0x2000 <= n <= 0x200A
    || n == 0x2028 || n == 0x2029 || n == 0x202F || n == 0x205F || n == 0x3000
  }

  /** A character of the class `[:\s]`. */
  predicate IsSep(c: char) {
    c == ':' || IsSpace(c)
  }

  predicate AllSpace(s: string) {
    forall i :: 0 <= i < |s| ==> IsSpace(s[i])
  }

  predicate NoSep(s: string) {
    forall i :: 0 <= i < |s| ==> !IsSep(s[i])
  }

  predicate AllSep(s: string) {
    forall i :: 0 <= i < |s| ==> IsSep(s[i])
  }

  /** Neither end of `s` is whitespace. */
  predicate Trimmed(s: string) {
    |s| == 0 || (!IsSpace(s[0]) && !IsSpace(s[|s| - 1]))
  }

  /** `s.lstrip()`: the longest suffix of `s` not starting with whitespace,
      everything before it being whitespace. */
  function StripLeft(s: string): (r: string)
    ensures |r| <= |s| && r == s[|s| - |r|..]
    ensures AllSpace(s[..|s| - |r|])
    ensures |r| == 0 || !IsSpace(r[0])
  {
    if |s| > 0 && IsSpace(s[0]) then StripLeft(s[1..]) else s
  }

  /** `s.rstrip()`: the longest prefix of `s` not ending in whitespace,
      everything after it being whitespace. */
  function StripRight(s: string): (r: string)
    ensures |r| <= |s| && r == s[..|r|]
    ensures AllSpace(s[|r|..])
    ensures |r| == 0 || !IsSpace(r[|r| - 1])
  {
    if |s| > 0 && IsSpace(s[|s| - 1]) then StripRight(s[..|s| - 1]) else s
  }

  /** `rstrip` keeps a first character that is not whitespace. */
  lemma {:induction false} StripRightKeepsHead(s: string)
    requires |s| > 0 && !IsSpace(s[0])
    ensures |StripRight(s)| > 0 && StripRight(s)[0] == s[0]
  {
    if IsSpace(s[|s| - 1]) {
      StripRightKeepsHead(s[..|s| - 1]);
    }
  }

  /** `s.strip()`. */
  function Strip(s: string): (r: string)
    ensures Trimmed(r)
    ensures |r| <= |s|
  {
    var l := StripLeft(s);
    var r := StripRight(l);
    assert |r| > 0 ==> r[0] == l[0];
    r
  }

  lemma EmptyPrefix(x: string)
    ensures "" + x == x
  {
  }

  /** Leading whitespace is exactly what `lstrip` removes. */
  lemma StripLeftOf(lead: string, x: string)
    requires AllSpace(lead)
    requires |x| == 0 || !IsSpace(x[0])
    ensures StripLeft(lead + x) == x
  {
    var s := lead + x;
    var r := StripLeft(s);
    assert r == s[|lead|..] == x;
  }

  /** Trailing whitespace is exactly what `rstrip` removes. */
  lemma StripRightOf(x: string, trail: string)
    requires AllSpace(trail)
    requires |x| == 0 || !IsSpace(x[|x| - 1])
    ensures StripRight(x + trail) == x
  {
    var s := x + trail;
    var r := StripRight(s);
    assert r == s[..|x|] == x;
  }

  /** `strip` removes exactly the surrounding whitespace of a trimmed text:
      this pins down `Strip` for every input. */
  lemma StripOf(lead: string, x: string, trail: string)
    requires AllSpace(lead) && AllSpace(trail)
    requires Trimmed(x)
    ensures Strip(lead + x + trail) == x
  {
    if |x| == 0 {
      assert lead + x + trail == lead + trail;
      StripLeftOf(lead + trail, "");
      assert lead + trail + "" == lead + trail;
    } else {
      assert lead + x + trail == lead + (x + trail);
      StripLeftOf(lead, x + trail);
      StripRightOf(x, trail);
    }
  }

  /** `s.strip()` is trimmed and is a piece of `s` cut out between
      whitespace. */
  lemma StripShape(s: string)
    ensures Trimmed(Strip(s))
    ensures exists a :: && 0 <= a <= |s| - |Strip(s)|
                        && s[a..a + |Strip(s)|] == Strip(s)
                        && AllSpace(s[..a])
                        && AllSpace(s[a + |Strip(s)|..])
  {
    var l := StripLeft(s);
    var r := StripRight(l);
    var a := |s| - |l|;
    assert s[a..a + |r|] == l[..|r|] == r;
    assert s[a + |r|..] == l[|r|..];
    if |r| > 0 && |l| > 0 {
      assert r[0] == l[0];
    }
  }

  lemma StripIdempotent(s: string)
    ensures Strip(Strip(s)) == Strip(s)
  {
    StripShape(s);
    StripOf("", Strip(s), "");
    assert "" + Strip(s) + "" == Strip(s);
  }

  /** A text without separators has no surrounding whitespace to strip. */
  lemma StripNoSep(s: string)
    requires NoSep(s)
    ensures Strip(s) == s
  {
    StripOf("", s, "");
    assert "" + s + "" == s;
  }

  // ---------------------------------------------------------------------
  // Digits

  predicate IsDigit(c: char) {
    '0' <= c <= '9'
  }

  /** `s.isdigit()`, restricted to the ASCII digits. */
  predicate IsDigits(s: string) {
    |s| > 0 && forall i :: 0 <= i < |s| ==> IsDigit(s[i])
  }

  function DigitValue(c: char): (d: nat)
    requires IsDigit(c)
    ensures d < 10
  {
    (c as int) - ('0' as int)
  }

  function DigitChar(d: nat): (c: char)
    requires d < 10
    ensures IsDigit(c) && DigitValue(c) == d
  {
    ('0' as int + d) as char
  }

  /** `int(s)` for a decimal digit string. */
  function DigitsValue(s: string): (v: nat)
    requires forall i :: 0 <= i < |s| ==> IsDigit(s[i])
    // `int` reads zero exactly from a string of zeros, such as "000"
    ensures v == 0 <==> forall i :: 0 <= i < |s| ==> s[i] == '0'
  {
    if |s| == 0 then 0
    else 10 * DigitsValue(s[..|s| - 1]) + DigitValue(s[|s| - 1])
  }

  /** `str(n)` for a natural number. */
  function NatToString(n: nat): (r: string)
    ensures IsDigits(r)
    ensures n < 10 <==> |r| == 1
  {
    if n < 10 then [DigitChar(n)] else NatToString(n / 10) + [DigitChar(n % 10)]
  }

  /** `int(str(n)) == n`. */
  lemma {:induction false} DigitsRoundTrip(n: nat)
    ensures DigitsValue(NatToString(n)) == n
  {
    var r := NatToString(n);
    if n >= 10 {
      DigitsRoundTrip(n / 10);
      assert r[..|r| - 1] == NatToString(n / 10);
    }
  }

  /** Leading zeros do not change the value `int` reads. */
  lemma {:induction false} LeadingZero(s: string)
    requires forall i :: 0 <= i < |s| ==> IsDigit(s[i])
    ensures DigitsValue("0" + s) == DigitsValue(s)
  {
    if |s| > 0 {
      var t := "0" + s;
      assert t[..|t| - 1] == "0" + s[..|s| - 1];
      LeadingZero(s[..|s| - 1]);
    }
  }

  // ---------------------------------------------------------------------
  // re.split(r'[:\s]+', s, maxsplit=1)

  /** Result of a split with at most one cut: no match, or the text before
      the first run of separators and the text after it. */
  datatype Split = Whole(text: string) | Pair(head: string, rest: string)

  /** Index of the first separator at or after `from`, or `|s|`. */
  function FirstSep(s: string, from: nat): (p: nat)
    requires from <= |s|
    ensures from <= p <= |s|
    ensures forall i :: from <= i < p ==> !IsSep(s[i])
    ensures p < |s| ==> IsSep(s[p])
    decreases |s| - from
  {
    if from == |s| || IsSep(s[from]) then from else FirstSep(s, from + 1)
  }

  /** End of the run of separators starting at `from` (greedy `+`). */
  function RunEnd(s: string, from: nat): (e: nat)
    requires from <= |s|
    ensures from <= e <= |s|
    ensures forall i :: from <= i < e ==> IsSep(s[i])
    ensures e < |s| ==> !IsSep(s[e])
    decreases |s| - from
  {
    if from == |s| || !IsSep(s[from]) then from else RunEnd(s, from + 1)
  }

  /**
   `re.split(r'[:\s]+', s, maxsplit=1)`: with no separator the list `[s]`;
   otherwise the text before the leftmost run of separators and the text
   after the whole (greedy) run.
   */
  function SplitOnce(s: string): (r: Split)
    ensures r.Whole? <==> NoSep(s)
    ensures r.Whole? ==> r.text == s
    ensures r.Pair? ==>
              && |r.head| + |r.rest| < |s|
              && s[..|r.head|] == r.head
              && s[|s| - |r.rest|..] == r.rest
              && NoSep(r.head)
              && AllSep(s[|r.head|..|s| - |r.rest|])
              && (|r.rest| == 0 || !IsSep(r.rest[0]))
  {
    var p := FirstSep(s, 0);
    if p == |s| then Whole(s)
    else
      var e := RunEnd(s, p);
      Pair(s[..p], s[e..])
  }

  /** A text starting with a separator splits with an empty head. */
  lemma SplitLeadingSep(s: string)
    requires |s| > 0 && IsSep(s[0])
    ensures SplitOnce(s).Pair? && SplitOnce(s).head == ""
  {
    assert FirstSep(s, 0) == 0;
  }

  /** A text made of a separator-free head, a run of separators and a rest
      not starting with one splits into exactly those pieces. */
  lemma SplitOf(head: string, sep: string, rest: string)
    requires NoSep(head)
    requires |sep| > 0 && AllSep(sep)
    requires |rest| == 0 || !IsSep(rest[0])
    ensures SplitOnce(head + sep + rest) == Pair(head, rest)
  {
    var s := head + sep + rest;
    assert s[|head|] == sep[0];
    var r := SplitOnce(s);
    assert r.head == s[..|head|] == head;
    assert r.rest == s[|head| + |sep|..] == rest;
  }
}
