/**
 * Printf-style rendering of unsigned integers, as the drivers use it:
 * `%d` for the year of a date and for numbered field names, `%02d` for
 * months and days, `%06x` for the Ultrimis info codes. Each rendering has
 * a parser as its partner, and the two are proved inverse.
 */
module Text {

  function Pow(b: nat, w: nat): (p: nat)
    ensures b >= 1 ==> p >= 1
  {
    if w == 0 then 1 else b * Pow(b, w - 1)
  }

  /** The digit character for d in bases up to 16, lower-case as `%x` prints it. */
  function DigitChar(d: nat): (c: char)
    requires d < 16
    ensures ('0' <= c <= '9') || ('a' <= c <= 'f')
  {
    if d < 10 then ('0' as int + d) as char else ('a' as int + d - 10) as char
  }

  function DigitValue(c: char): nat
  {
    if '0' <= c <= '9' then c as int - '0' as int
    else if 'a' <= c <= 'f' then c as int - 'a' as int + 10
    else 0
  }

  lemma DigitValueOfChar(d: nat)
    requires d < 16
    ensures DigitValue(DigitChar(d)) == d
  {
  }

  /**
   * The w least significant base-b digits of n, most significant first,
   * zero-padded on the left (printf's `%0<w>d` / `%0<w>x`).
   */
  function Digits(n: nat, b: nat, w: nat): (s: string)
    requires 2 <= b <= 16
    ensures |s| == w
    ensures forall i :: 0 <= i < |s| ==> ('0' <= s[i] <= '9') || ('a' <= s[i] <= 'f')
    ensures b <= 10 ==> forall i :: 0 <= i < |s| ==> '0' <= s[i] <= '9'
    decreases w
  {
    if w == 0 then [] else Digits(n / b, b, w - 1) + [DigitChar(n % b)]
  }

  /** Reads a string of base-b digits back as a number. */
  function ParseDigits(s: string, b: nat): nat
  {
    if s == [] then 0 else ParseDigits(s[..|s| - 1], b) * b + DigitValue(s[|s| - 1])
  }

  lemma DivBound(n: nat, b: nat, p: nat)
    requires b >= 1 && n < b * p
    ensures n / b < p && n == (n / b) * b + n % b
  {
  }

  /** Dropping the last digit leaves a number of one digit fewer. */
  lemma QuotientBound(n: nat, b: nat, w: nat)
    requires 2 <= b && w > 0 && n < Pow(b, w)
    ensures n / b < Pow(b, w - 1)
  {
    DivBound(n, b, Pow(b, w - 1));
  }

  lemma ParseSnoc(s: string, c: char, b: nat)
    ensures ParseDigits(s + [c], b) == ParseDigits(s, b) * b + DigitValue(c)
  {
    assert (s + [c])[..|s|] == s;
  }

  /** One digit of the round trip: the last character carries n % b. */
  lemma DigitsStep(n: nat, b: nat, w: nat)
    requires 2 <= b <= 16 && n < Pow(b, w) && w > 0
    requires ParseDigits(Digits(n / b, b, w - 1), b) == n / b
    ensures ParseDigits(Digits(n, b, w), b) == n
  {
    var head := Digits(n / b, b, w - 1);
    DivBound(n, b, Pow(b, w - 1));
    assert Digits(n, b, w) == head + [DigitChar(n % b)];
    ParseSnoc(head, DigitChar(n % b), b);
    DigitValueOfChar(n % b);
  }

  lemma {:induction false} DigitsRoundTrip(n: nat, b: nat, w: nat)
    requires 2 <= b <= 16 && n < Pow(b, w)
    ensures ParseDigits(Digits(n, b, w), b) == n
    decreases w
  {
    if w > 0 {
      QuotientBound(n, b, w);
      DigitsRoundTrip(n / b, b, w - 1);
      DigitsStep(n, b, w);
    }
  }

  /** The number of digits `%d` prints for n. */
  function DigitCount(n: nat): (k: nat)
    ensures k >= 1 && n < Pow(10, k)
  {
    if n < 10 then 1 else 1 + DigitCount(n / 10)
  }

  lemma FourDigits(n: nat)
    requires 1000 <= n < 10000
    ensures DigitCount(n) == 4
  {
    var a, b, c := n / 10, n / 100, n / 1000;
    assert a / 10 == b && b / 10 == c;
    assert DigitCount(c) == 1;
    assert DigitCount(b) == 2;
    assert DigitCount(a) == 3;
  }

  /** `%d` of an unsigned value: no padding, no sign. */
  function Decimal(n: nat): string
  {
    Digits(n, 10, DigitCount(n))
  }

  lemma DecimalRoundTrip(n: nat)
    ensures |Decimal(n)| >= 1 && ParseDigits(Decimal(n), 10) == n
    ensures forall i :: 0 <= i < |Decimal(n)| ==> '0' <= Decimal(n)[i] <= '9'
  {
    DigitsRoundTrip(n, 10, DigitCount(n));
  }

  /** Labels joined with single spaces, in the given order. */
  function JoinSpaced(labels: seq<string>): (s: string)
    ensures |labels| == 1 ==> s == labels[0]
    ensures |labels| >= 2 ==> s == labels[0] + " " + JoinSpaced(labels[1..])
    ensures |labels| >= 1 ==> |s| >= |labels[0]| && s[..|labels[0]|] == labels[0]
  {
    if labels == [] then ""
    else if |labels| == 1 then labels[0]
    else labels[0] + " " + JoinSpaced(labels[1..])
  }

  /** The position of the first space in s. */
  function FirstSpace(s: string): (i: nat)
    requires ' ' in s
    ensures i < |s| && s[i] == ' ' && ' ' !in s[..i]
  {
    if s[0] == ' ' then 0
    else
      var i := 1 + FirstSpace(s[1..]);
      assert s[..i] == [s[0]] + s[1..][..i - 1];
      i
  }

  /** Text cut at every space: the words a space-joined text is made of. */
  function SplitSpaced(s: string): (words: seq<string>)
    ensures |words| >= 1
    decreases |s|
  {
    if ' ' in s then
      var i := FirstSpace(s);
      [s[..i]] + SplitSpaced(s[i + 1..])
    else [s]
  }

  /** The first space of a + " " + b is the one after a, when a has none. */
  lemma FirstSpaceAfter(a: string, b: string)
    requires ' ' !in a
    ensures ' ' in a + " " + b && FirstSpace(a + " " + b) == |a|
  {
    var s := a + " " + b;
    assert s[|a|] == ' ';
    assert s[..|a|] == a;
  }

  /** Splitting the joined text gives back the labels, when no label holds a space. */
  lemma {:induction false} SplitJoin(labels: seq<string>)
    requires |labels| >= 1
    requires forall i :: 0 <= i < |labels| ==> ' ' !in labels[i]
    ensures SplitSpaced(JoinSpaced(labels)) == labels
  {
    if |labels| >= 2 {
      var a, tail := labels[0], labels[1..];
      var rest := JoinSpaced(tail);
      var s := a + " " + rest;
      assert JoinSpaced(labels) == s;
      assert ' ' !in a;
      FirstSpaceAfter(a, rest);
      assert s[..|a|] == a;
      assert s[|a| + 1..] == rest;
      assert SplitSpaced(s) == [a] + SplitSpaced(rest);
      forall i | 0 <= i < |tail| ensures ' ' !in tail[i] {
        assert tail[i] == labels[i + 1];
      }
      SplitJoin(tail);
      assert labels == [a] + tail;
    }
  }
}
