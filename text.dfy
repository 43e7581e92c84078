/** The text forms the application produces: decimal digits as JavaScript and
    Postgres print them, zero padding, and Array.join / String.split. */
module Text {
  import opened Options

  function Pow10(n: nat): (r: nat)
    ensures r >= 1
  {
    if n == 0 then 1 else 10 * Pow10(n - 1)
  }

  predicate IsDigit(c: char) { '0' <= c <= '9' }

  predicate AllDigits(s: string) { forall i :: 0 <= i < |s| ==> IsDigit(s[i]) }

  function Digit(n: nat): (c: char)
    requires n < 10
    ensures IsDigit(c)
  {
    ('0' as int + n) as char
  }

  function DigitValue(c: char): (n: nat)
    requires IsDigit(c)
    ensures n < 10
  {
    c as int - '0' as int
  }

  /** The number a string of decimal digits denotes (leading zeros allowed). */
  function DigitsValue(s: string): nat
    requires AllDigits(s)
  {
    if s == [] then 0 else 10 * DigitsValue(s[..|s| - 1]) + DigitValue(s[|s| - 1])
  }

  /** Decimal text of a natural number without leading zeros, as `String(n)` gives it. */
  function NatText(n: nat): (r: string)
    ensures |r| >= 1 && AllDigits(r)
  {
    if n < 10 then [Digit(n)] else NatText(n / 10) + [Digit(n % 10)]
  }

  /** NatText is read back by DigitsValue. */
  lemma {:induction false} NatTextValue(n: nat)
    ensures DigitsValue(NatText(n)) == n
  {
    if n >= 10 {
      NatTextValue(n / 10);
      var r := NatText(n);
      assert r[..|r| - 1] == NatText(n / 10);
    }
  }

  /** A number below 10^k takes at most k digits. */
  lemma {:induction false} NatTextLength(n: nat, k: nat)
    requires 1 <= k && n < Pow10(k)
    ensures |NatText(n)| <= k
  {
    if n >= 10 {
      NatTextLength(n / 10, k - 1);
    }
  }

  /** Decimal text of an integer, with a leading '-' when negative. */
  function IntText(i: int): (r: string)
    ensures |r| >= 1
    ensures forall k :: 0 <= k < |r| ==> IsDigit(r[k]) || r[k] == '-'
  {
    if i < 0 then "-" + NatText(-i) else NatText(i)
  }

  /** `s` padded on the left with '0' up to `width` characters. */
  function PadLeft(s: string, width: nat): (r: string)
    requires AllDigits(s)
    ensures AllDigits(r)
    ensures |r| == if |s| >= width then |s| else width
    decreases width - |s|
  {
    if |s| >= width then s else PadLeft("0" + s, width)
  }

  /** A leading zero does not change the value of a digit string. */
  lemma {:induction false} LeadingZeroValue(s: string)
    requires AllDigits(s)
    ensures DigitsValue("0" + s) == DigitsValue(s)
    decreases |s|
  {
    if s != [] {
      var s' := s[..|s| - 1];
      assert ("0" + s)[..|s|] == "0" + s';
      LeadingZeroValue(s');
    }
  }

  /** Zero padding does not change the value. */
  lemma {:induction false} PadLeftValue(s: string, width: nat)
    requires AllDigits(s)
    ensures DigitsValue(PadLeft(s, width)) == DigitsValue(s)
    decreases width - |s|
  {
    if |s| < width {
      LeadingZeroValue(s);
      PadLeftValue("0" + s, width);
    }
  }

  /** `xs.join(sep)`: the strings of `xs` with `sep` between neighbours; "" for no strings. */
  function JoinWith(xs: seq<string>, sep: char): string
  {
    if |xs| == 0 then ""
    else if |xs| == 1 then xs[0]
    else xs[0] + [sep] + JoinWith(xs[1..], sep)
  }

  /** A character that is not the separator and occurs in none of the strings does not
      occur in their join. */
  lemma {:induction false} JoinWithAvoids(xs: seq<string>, sep: char, c: char)
    requires c != sep
    requires forall i :: 0 <= i < |xs| ==> c !in xs[i]
    ensures c !in JoinWith(xs, sep)
    decreases |xs|
  {
    if |xs| > 1 {
      JoinWithAvoids(xs[1..], sep, c);
    }
  }

  /** The position of the first `c` in `s`, or |s| when there is none. */
  function IndexOf(s: string, c: char): (i: nat)
    ensures i <= |s|
    ensures i < |s| ==> s[i] == c
    ensures forall j :: 0 <= j < i ==> s[j] != c
  {
    if s == [] then 0
    else if s[0] == c then 0
    else 1 + IndexOf(s[1..], c)
  }

  /** `s.split(sep)`: the pieces between occurrences of `sep`; [""] for the empty string. */
  function SplitOn(s: string, sep: char): seq<string>
    decreases |s|
  {
    var i := IndexOf(s, sep);
    if i == |s| then [s] else [s[..i]] + SplitOn(s[i + 1..], sep)
  }

  /** Joining strings that contain no separator and splitting again gives them back. */
  lemma {:induction false} SplitJoin(xs: seq<string>, sep: char)
    requires |xs| >= 1
    requires forall i :: 0 <= i < |xs| ==> sep !in xs[i]
    ensures SplitOn(JoinWith(xs, sep), sep) == xs
  {
    if |xs| == 1 {
      assert IndexOf(xs[0], sep) == |xs[0]|;
    } else {
      var s := JoinWith(xs, sep);
      var rest := JoinWith(xs[1..], sep);
      assert s == xs[0] + [sep] + rest;
      assert IndexOf(s, sep) == |xs[0]| by {
        IndexOfAfter(xs[0], sep, rest);
      }
      assert s[..|xs[0]|] == xs[0];
      assert s[|xs[0]| + 1..] == rest;
      SplitJoin(xs[1..], sep);
      assert xs == [xs[0]] + xs[1..];
    }
  }

  /** The first `c` in `x + [c] + rest` is right after `x` when `x` has none. */
  lemma {:induction false} IndexOfAfter(x: string, c: char, rest: string)
    requires c !in x
    ensures IndexOf(x + [c] + rest, c) == |x|
    decreases |x|
  {
    var s := x + [c] + rest;
    if x != [] {
      assert s[1..] == x[1..] + [c] + rest;
      IndexOfAfter(x[1..], c, rest);
    }
  }

  // ---------------------------------------------------------------- decimal text

  /** The value, in hundredths, of a decimal text with no sign: at least one whole digit,
      then optionally '.' and one or two digits; None for any other text. */
  function UnsignedDecimalValue(s: string): Option<nat> {
    var i := IndexOf(s, '.');
    if i < |s| then PartsValue(s[..i], s[i + 1..], true) else PartsValue(s, "", false)
  }

  /** The value of the whole digits and the fraction digits around a point, if any. */
  function PartsValue(whole: string, frac: string, point: bool): Option<nat> {
    if whole == [] || !AllDigits(whole) || !AllDigits(frac) || |frac| > 2 || (point && frac == []) then None
    else Some(100 * DigitsValue(whole) + DigitsValue(frac) * Pow10(2 - |frac|))
  }

  /** `parseFloat` of a plain decimal text, in hundredths: an optional '-' and an unsigned
      decimal; None for any other text. */
  function DecimalValue(s: string): Option<int> {
    if |s| > 0 && s[0] == '-' then
      match UnsignedDecimalValue(s[1..])
      case Some(n) => Some(-(n as int))
      case None => None
    else UnsignedDecimalValue(s)
  }

  /** A digit string holds no point. */
  lemma DigitsAvoidPoint(s: string)
    requires AllDigits(s)
    ensures '.' !in s
  {
  }

  /** Whole digits alone read as that many hundreds of hundredths. */
  lemma UnsignedWholeValue(whole: string)
    requires |whole| >= 1 && AllDigits(whole)
    ensures UnsignedDecimalValue(whole) == Some(100 * DigitsValue(whole))
  {
    DigitsAvoidPoint(whole);
  }

  /** Whole digits, a point and fraction digits are read as those two parts. */
  lemma UnsignedFractionValue(whole: string, frac: string)
    requires AllDigits(whole)
    ensures UnsignedDecimalValue(whole + "." + frac) == PartsValue(whole, frac, true)
  {
    var s := whole + "." + frac;
    DigitsAvoidPoint(whole);
    IndexOfAfter(whole, '.', frac);
    assert s[..|whole|] == whole;
    assert s[|whole| + 1..] == frac;
  }

  /** Whole digits denoting w, a point and one or two fraction digits denoting f hundredths
      read as 100 * w + f. */
  lemma WholeAndFractionValue(whole: string, frac: string, w: nat, f: nat)
    requires AllDigits(whole) && |whole| >= 1 && DigitsValue(whole) == w
    requires AllDigits(frac) && 1 <= |frac| <= 2 && DigitsValue(frac) * Pow10(2 - |frac|) == f
    ensures UnsignedDecimalValue(whole + "." + frac) == Some(100 * w + f)
  {
    UnsignedFractionValue(whole, frac);
    PartsOf(whole, frac, w, f);
  }

  lemma PartsOf(whole: string, frac: string, w: nat, f: nat)
    requires AllDigits(whole) && |whole| >= 1 && DigitsValue(whole) == w
    requires AllDigits(frac) && 1 <= |frac| <= 2 && DigitsValue(frac) * Pow10(2 - |frac|) == f
    ensures PartsValue(whole, frac, true) == Some(100 * w + f)
  {
  }

  /** A leading '-' negates the value of an unsigned decimal. */
  lemma SignedDecimalValue(u: string, n: nat, neg: bool)
    requires |u| >= 1 && IsDigit(u[0]) && UnsignedDecimalValue(u) == Some(n)
    ensures DecimalValue((if neg then "-" else "") + u) == Some(if neg then -(n as int) else n as int)
  {
    if neg {
      assert ("-" + u)[1..] == u;
    } else {
      assert "" + u == u;
    }
  }

  /** A number below 100 padded to two digits: exactly two digits, denoting the number. */
  lemma TwoDigits(n: nat)
    requires n < 100
    ensures |PadLeft(NatText(n), 2)| == 2 && AllDigits(PadLeft(NatText(n), 2))
    ensures DigitsValue(PadLeft(NatText(n), 2)) == n
  {
    assert Pow10(2) == 100;
    NatTextLength(n, 2);
    NatTextValue(n);
    PadLeftValue(NatText(n), 2);
  }

  /** The last digit of a number's text is the number's last decimal digit. */
  lemma NatTextLast(n: nat)
    ensures NatText(n)[|NatText(n)| - 1] == Digit(n % 10)
  {
  }

  /** Zero padding keeps the last character. */
  lemma {:induction false} PadLeftLast(s: string, width: nat)
    requires AllDigits(s) && |s| >= 1
    ensures PadLeft(s, width)[|PadLeft(s, width)| - 1] == s[|s| - 1]
    decreases width - |s|
  {
    if |s| < width {
      PadLeftLast("0" + s, width);
      assert ("0" + s)[|"0" + s| - 1] == s[|s| - 1];
    }
  }

  /** `s.split(" ")[0]`: the text before the first space, or all of `s`. */
  function FirstWord(s: string): (r: string)
    ensures r <= s && ' ' !in r
    ensures |r| < |s| ==> s[|r|] == ' '
  {
    s[..IndexOf(s, ' ')]
  }

  /** FirstWord is the first piece String.split gives. */
  lemma FirstWordIsFirstPiece(s: string)
    ensures FirstWord(s) == SplitOn(s, ' ')[0]
  {
  }
}
