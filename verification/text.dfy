/** The string operations the narration is built from: Python's
    `sep.join(parts)`, the decimal rendering of integers inside f-strings, and
    `str.lower()` as far as the persona comparison needs it. */
module Text {

  /** Python's `sep.join(parts)`. */
  function Join(sep: string, parts: seq<string>): string
  {
    if |parts| == 0 then ""
    else if |parts| == 1 then parts[0]
    else parts[0] + sep + Join(sep, parts[1..])
  }

  /** The position at which `parts[i]` starts inside `Join(sep, parts)`. */
  function JoinOffset(sep: string, parts: seq<string>, i: nat): nat
    requires i < |parts|
  {
    if i == 0 then 0 else |parts[0]| + |sep| + JoinOffset(sep, parts[1..], i - 1)
  }

  /** Every part appears, unaltered, at its offset in the joined string. */
  lemma {:induction false} JoinPlacesEachPart(sep: string, parts: seq<string>, i: nat)
    requires i < |parts|
    ensures JoinOffset(sep, parts, i) + |parts[i]| <= |Join(sep, parts)|
    ensures Join(sep, parts)[JoinOffset(sep, parts, i)..JoinOffset(sep, parts, i) + |parts[i]|] == parts[i]
  {
    if i == 0 {
      if |parts| > 1 {
        var tail := sep + Join(sep, parts[1..]);
        assert Join(sep, parts) == parts[0] + tail;
        assert (parts[0] + tail)[..|parts[0]|] == parts[0];
      }
    } else {
      JoinPlacesEachPart(sep, parts[1..], i - 1);
      var head := parts[0] + sep;
      var rest := Join(sep, parts[1..]);
      var o := JoinOffset(sep, parts[1..], i - 1);
      assert Join(sep, parts) == head + rest;
      assert (head + rest)[|head| + o..|head| + o + |parts[i]|] == rest[o..o + |parts[i]|];
    }
  }

  /** Between `parts[i]` and `parts[i + 1]` stands exactly the separator. */
  lemma {:induction false} JoinSeparatesParts(sep: string, parts: seq<string>, i: nat)
    requires i + 1 < |parts|
    ensures var o := JoinOffset(sep, parts, i) + |parts[i]|;
      o + |sep| <= |Join(sep, parts)| && Join(sep, parts)[o..o + |sep|] == sep
  {
    var head := parts[0] + sep;
    var rest := Join(sep, parts[1..]);
    assert Join(sep, parts) == head + rest;
    if i == 0 {
      assert (head + rest)[|parts[0]|..|head|] == sep;
    } else {
      JoinSeparatesParts(sep, parts[1..], i - 1);
      var o := JoinOffset(sep, parts[1..], i - 1) + |parts[i]|;
      assert parts[1..][i - 1] == parts[i];
      assert (head + rest)[|head| + o..|head| + o + |sep|] == rest[o..o + |sep|];
    }
  }

  /** The joined string stops where the last part stops: with the two
      lemmas above, every character is accounted for. */
  lemma {:induction false} JoinLength(sep: string, parts: seq<string>)
    requires |parts| > 0
    ensures |Join(sep, parts)| == JoinOffset(sep, parts, |parts| - 1) + |parts[|parts| - 1]|
  {
    if |parts| > 1 {
      JoinLength(sep, parts[1..]);
      assert parts[1..][|parts| - 2] == parts[|parts| - 1];
    }
  }

  /** The joined string ends with the last part. */
  lemma {:induction false} JoinEndsWithLastPart(sep: string, parts: seq<string>)
    requires |parts| > 0
    ensures |parts[|parts| - 1]| <= |Join(sep, parts)|
    ensures Join(sep, parts)[|Join(sep, parts)| - |parts[|parts| - 1]|..] == parts[|parts| - 1]
  {
    if |parts| > 1 {
      JoinEndsWithLastPart(sep, parts[1..]);
      var head := parts[0] + sep;
      var rest := Join(sep, parts[1..]);
      var last := parts[|parts| - 1];
      assert parts[1..][|parts[1..]| - 1] == last;
      assert Join(sep, parts) == head + rest;
      assert (head + rest)[|head + rest| - |last|..] == rest[|rest| - |last|..];
    }
  }

  /** The joined string starts with the first part and ends with the last. */
  lemma JoinFramedByEnds(sep: string, parts: seq<string>)
    requires |parts| > 0
    ensures parts[0] <= Join(sep, parts)
    ensures |parts[|parts| - 1]| <= |Join(sep, parts)|
    ensures Join(sep, parts)[|Join(sep, parts)| - |parts[|parts| - 1]|..] == parts[|parts| - 1]
  {
    JoinPlacesEachPart(sep, parts, 0);
    JoinEndsWithLastPart(sep, parts);
  }

  /** Where the pieces of a three-part concatenation sit. */
  lemma ConcatParts(a: string, b: string, c: string)
    ensures a <= a + b + c
    ensures (a + b + c)[|a|..|a| + |b|] == b
    ensures (a + b + c)[|a + b + c| - |c|..] == c
  {
    assert a + b + c == a + (b + c);
  }

  /** `intro + lead + body + " " + closing`, with each piece at its place. */
  function FramedText(intro: string, lead: string, body: string, closing: string): (r: string)
    ensures var o := |intro| + |lead| + |body|;
            && |r| == o + 1 + |closing|
            && r[..|intro|] == intro
            && r[|intro|..|intro| + |lead|] == lead
            && r[|intro| + |lead|..o] == body
            && r[o] == ' '
            && r[o + 1..] == closing
  {
    var r := intro + lead + body + " " + closing;
    var o := |intro| + |lead| + |body|;
    assert r == (intro + lead) + body + (" " + closing);
    ConcatParts(intro + lead, body, " " + closing);
    assert r[..o][..|intro|] == intro && r[..o][|intro|..|intro| + |lead|] == lead;
    r
  }

  predicate IsDigit(c: char) {
    '0' <= c <= '9'
  }

  predicate AllDigits(s: string) {
    forall i :: 0 <= i < |s| ==> IsDigit(s[i])
  }

  function DigitChar(d: nat): (c: char)
    requires d < 10
    ensures IsDigit(c)
  {
    ('0' as int + d) as char
  }

  function DigitValue(c: char): (d: nat)
    requires IsDigit(c)
    ensures d < 10 && DigitChar(d) == c
  {
    c as int - '0' as int
  }

  /** Python's `str(n)` for a non-negative integer: canonical decimal, no
      leading zeros. */
  function NatToDecimal(n: nat): (r: string)
    ensures |r| > 0 && AllDigits(r)
    ensures (r[0] == '0') == (n == 0)
    decreases n
  {
    if n < 10 then [DigitChar(n)] else NatToDecimal(n / 10) + [DigitChar(n % 10)]
  }

  /** Python's `str(i)`, with a leading minus sign for negative values. */
  function IntToDecimal(i: int): (r: string)
    ensures |r| > 0
    ensures (r[0] == '-') == (i < 0)
  {
    if i < 0 then "-" + NatToDecimal(-i) else NatToDecimal(i)
  }

  /** Reads a string of decimal digits back (the reference against which the
      rendering is checked). */
  function ParseNat(s: string): nat
    requires AllDigits(s)
  {
    if |s| == 0 then 0 else 10 * ParseNat(s[..|s| - 1]) + DigitValue(s[|s| - 1])
  }

  predicate IsDecimal(s: string) {
    if |s| > 0 && s[0] == '-' then |s| > 1 && AllDigits(s[1..]) else |s| > 0 && AllDigits(s)
  }

  function ParseInt(s: string): int
    requires IsDecimal(s)
  {
    if s[0] == '-' then -(ParseNat(s[1..]) as int) else ParseNat(s)
  }

  lemma {:induction false} ParseNatOfDecimal(n: nat)
    ensures ParseNat(NatToDecimal(n)) == n
    decreases n
  {
    if n >= 10 {
      var prefix := NatToDecimal(n / 10);
      var s := prefix + [DigitChar(n % 10)];
      assert s[..|s| - 1] == prefix;
      ParseNatOfDecimal(n / 10);
    } else {
      assert NatToDecimal(n)[..0] == "";
    }
  }

  /** The rendering of an integer is a well-formed decimal that reads back
      as the same integer: no two integers share a rendering. */
  lemma DecimalRoundTrip(i: int)
    ensures IsDecimal(IntToDecimal(i))
    ensures ParseInt(IntToDecimal(i)) == i
  {
    if i < 0 {
      var s := IntToDecimal(i);
      assert s[1..] == NatToDecimal(-i);
      ParseNatOfDecimal(-i);
    } else {
      ParseNatOfDecimal(i);
    }
  }

  /** `str.lower()` on one character. Only A-Z is mapped; see README. */
  function LowerChar(c: char): char
  {
    if 'A' <= c <= 'Z' then (c as int + 32) as char else c
  }

  function Lower(s: string): (r: string)
    ensures |r| == |s|
    ensures forall i :: 0 <= i < |s| ==> r[i] == LowerChar(s[i])
  {
    seq(|s|, i requires 0 <= i < |s| => LowerChar(s[i]))
  }

  predicate IsLowerWord(w: string) {
    forall i :: 0 <= i < |w| ==> 'a' <= w[i] <= 'z'
  }

  function UpperChar(c: char): char
    requires 'a' <= c <= 'z'
  {
    (c as int - 32) as char
  }

  /** A string lowers to a lower-case word exactly when it spells that word
      with each letter in either case. */
  lemma LowerMatchesWord(s: string, w: string)
    requires IsLowerWord(w)
    ensures Lower(s) == w <==>
              |s| == |w| && forall i :: 0 <= i < |w| ==> s[i] == w[i] || s[i] == UpperChar(w[i])
  {
    if |s| == |w| {
      forall i | 0 <= i < |w|
        ensures LowerChar(s[i]) == w[i] <==> s[i] == w[i] || s[i] == UpperChar(w[i])
      {
      }
      if forall i :: 0 <= i < |w| ==> s[i] == w[i] || s[i] == UpperChar(w[i]) {
        assert forall i :: 0 <= i < |w| ==> Lower(s)[i] == w[i];
      }
    }
  }
}
