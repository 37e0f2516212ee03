/** Text primitives the display engine relies on: joining entries with a line
    break, splitting a screen into its lines, and the decimal form of an
    integer (the item total shown on the "Items:" entry). */
module TextFormat {

  /** The line-break-joined form of `parts` ("\n".join(parts)). */
  function JoinLines(parts: seq<string>): string
  {
    if |parts| == 0 then ""
    else if |parts| == 1 then parts[0]
    else parts[0] + "\n" + JoinLines(parts[1..])
  }

  /** True when `s` holds no line break. */
  predicate SingleLine(s: string)
  {
    '\n' !in s
  }

  /** The pieces of `s` between line breaks (text.split("\n")): an empty text
      gives one empty line, and a trailing break gives a trailing empty line. */
  function SplitLines(s: string): (lines: seq<string>)
    ensures |lines| >= 1
    ensures forall k :: 0 <= k < |lines| ==> SingleLine(lines[k])
  {
    if s == [] then [""]
    else if s[0] == '\n' then [""] + SplitLines(s[1..])
    else
      var rest := SplitLines(s[1..]);
      [[s[0]] + rest[0]] + rest[1..]
  }

  /** Joining the lines of a text gives the text back. */
  lemma {:induction false} JoinSplitLines(s: string)
    ensures JoinLines(SplitLines(s)) == s
  {
    if s == [] {
    } else if s[0] == '\n' {
      var rest := SplitLines(s[1..]);
      JoinSplitLines(s[1..]);
      assert ([""] + rest)[1..] == rest;
    } else {
      var rest := SplitLines(s[1..]);
      JoinSplitLines(s[1..]);
      var lines := [[s[0]] + rest[0]] + rest[1..];
      assert lines[1..] == rest[1..];
      if |rest| == 1 {
        assert s == [s[0]] + s[1..];
      } else {
        assert JoinLines(rest) == rest[0] + "\n" + JoinLines(rest[1..]);
        assert s == [s[0]] + s[1..];
      }
    }
  }

  /** Splitting a line-free text gives that one line. */
  lemma {:induction false} SplitSingleLine(a: string)
    requires SingleLine(a)
    ensures SplitLines(a) == [a]
  {
    if a != [] {
      assert a[0] in a;
      assert SingleLine(a[1..]) by {
        forall k | 0 <= k < |a[1..]| ensures a[1..][k] != '\n' {
          assert a[1..][k] == a[k + 1];
          assert a[k + 1] in a;
        }
      }
      SplitSingleLine(a[1..]);
      assert [a[0]] + a[1..] == a;
    }
  }

  /** A line-free prefix followed by a break splits off as the first line. */
  lemma {:induction false} SplitAfterLine(a: string, b: string)
    requires SingleLine(a)
    ensures SplitLines(a + "\n" + b) == [a] + SplitLines(b)
  {
    if a == [] {
      assert a + "\n" + b == "\n" + b;
      assert ("\n" + b)[1..] == b;
    } else {
      var t := a + "\n" + b;
      assert t[0] == a[0] && a[0] in a;
      assert SingleLine(a[1..]) by {
        forall k | 0 <= k < |a[1..]| ensures a[1..][k] != '\n' {
          assert a[1..][k] == a[k + 1];
          assert a[k + 1] in a;
        }
      }
      assert t[1..] == a[1..] + "\n" + b;
      SplitAfterLine(a[1..], b);
      assert [a[0]] + a[1..] == a;
    }
  }

  /** Splitting line-free parts after joining them gives the parts back. */
  lemma {:induction false} SplitJoinLines(parts: seq<string>)
    requires |parts| >= 1
    requires forall k :: 0 <= k < |parts| ==> SingleLine(parts[k])
    ensures SplitLines(JoinLines(parts)) == parts
  {
    if |parts| == 1 {
      SplitSingleLine(parts[0]);
    } else {
      SplitAfterLine(parts[0], JoinLines(parts[1..]));
      SplitJoinLines(parts[1..]);
      assert [parts[0]] + parts[1..] == parts;
    }
  }

  /** A decimal digit. */
  predicate IsDigit(c: char)
  {
    '0' <= c <= '9'
  }

  predicate AllDigits(s: string)
  {
    forall k :: 0 <= k < |s| ==> IsDigit(s[k])
  }

  function DigitChar(d: nat): (c: char)
    requires d < 10
    ensures IsDigit(c) && c as int - '0' as int == d
  {
    ('0' as int + d) as char
  }

  /** Decimal digits of `n`, most significant first, with no leading zero. */
  function NatToDecimal(n: nat): (s: string)
    ensures |s| >= 1 && AllDigits(s)
    ensures |s| > 1 ==> s[0] != '0'
    ensures n < 10 <==> |s| == 1
  {
    if n < 10 then [DigitChar(n)]
    else NatToDecimal(n / 10) + [DigitChar(n % 10)]
  }

  /** Python's str(n) for an int: an optional minus sign, then the digits. */
  function IntToDecimal(n: int): (s: string)
    ensures |s| >= 1
    ensures n < 0 <==> s[0] == '-'
    ensures n >= 0 ==> AllDigits(s)
    ensures n < 0 ==> AllDigits(s[1..])
  {
    if n < 0 then "-" + NatToDecimal(-n) else NatToDecimal(n)
  }

  /** The number a string of digits denotes (independent reading, used to
      state that the decimal form is faithful). */
  function DigitsValue(s: string): nat
    requires AllDigits(s)
  {
    if s == [] then 0
    else DigitsValue(s[..|s| - 1]) * 10 + (s[|s| - 1] as int - '0' as int)
  }

  function DecimalValue(s: string): (v: int)
    requires |s| >= 1
    requires if s[0] == '-' then AllDigits(s[1..]) else AllDigits(s)
  {
    if s[0] == '-' then -(DigitsValue(s[1..]) as int) else DigitsValue(s)
  }

  lemma {:induction false} NatToDecimalValue(n: nat)
    ensures DigitsValue(NatToDecimal(n)) == n
  {
    var s := NatToDecimal(n);
    if n >= 10 {
      NatToDecimalValue(n / 10);
      assert s[..|s| - 1] == NatToDecimal(n / 10);
    }
  }

  /** Reading the decimal form of `n` back gives `n`. */
  lemma IntToDecimalRoundTrip(n: int)
    ensures DecimalValue(IntToDecimal(n)) == n
  {
    if n < 0 {
      NatToDecimalValue(-n);
      assert IntToDecimal(n)[1..] == NatToDecimal(-n);
    } else {
      NatToDecimalValue(n);
    }
  }
}
