/**
 * The timestamp used to name a run's report directory: day, month, year,
 * `_`, then hour on a 12-hour clock, minutes and seconds, each two-digit
 * field left-padded with `0`. The clock read is replaced by the date
 * components it would give.
 */
module Helper {
  import opened Types

  predicate IsDigit(c: char) {
    '0' <= c <= '9'
  }

  function Digit(d: nat): (c: char)
    requires d < 10
    ensures IsDigit(c)
  {
    (('0' as int) + d) as char
  }

  function DigitValue(c: char): (d: nat)
    requires IsDigit(c)
    ensures d < 10 && Digit(d) == c
  {
    (c as int) - ('0' as int)
  }

  /** `n.toString()` for a non-negative integer: its decimal digits, no leading zero. */
  function DecimalString(n: nat): (s: string)
    ensures 1 <= |s|
    ensures forall k :: 0 <= k < |s| ==> IsDigit(s[k])
    ensures (n < 10) == (|s| == 1)
    ensures |s| > 1 ==> s[0] != '0'
  {
    if n < 10 then [Digit(n)] else DecimalString(n / 10) + [Digit(n % 10)]
  }

  /** The value of a string of decimal digits, read most significant first. */
  function ParseDecimal(s: string): nat
    requires forall k :: 0 <= k < |s| ==> IsDigit(s[k])
  {
    if s == [] then 0 else 10 * ParseDecimal(s[..|s| - 1]) + DigitValue(s[|s| - 1])
  }

  /** Reading back the decimal digits of `n` gives `n`. */
  lemma {:induction false} DecimalRoundTrip(n: nat)
    ensures ParseDecimal(DecimalString(n)) == n
  {
    var s := DecimalString(n);
    if n >= 10 {
      DecimalRoundTrip(n / 10);
      assert s[..|s| - 1] == DecimalString(n / 10);
    }
  }

  /** A four-digit year prints as exactly four digits. */
  lemma DecimalLengthFour(n: nat)
    requires 1000 <= n <= 9999
    ensures |DecimalString(n)| == 4
  {
    assert |DecimalString(n / 1000)| == 1;
    assert |DecimalString(n / 100)| == 2;
    assert |DecimalString(n / 10)| == 3;
  }

  /** `formatPart`: `n.toString().padStart(2, '0')`. */
  function FormatPart(n: nat): (s: string)
    ensures 2 <= |s|
    ensures forall k :: 0 <= k < |s| ==> IsDigit(s[k])
    ensures ParseDecimal(s) == n
    ensures n < 100 ==> |s| == 2
    ensures n < 10 ==> s == ['0', Digit(n)]
  {
    var d := DecimalString(n);
    DecimalRoundTrip(n);
    if |d| < 2 then
      assert ("0" + d)[..1] == "0";
      "0" + d
    else
      assert n < 100 ==> |DecimalString(n / 10)| == 1;
      d
  }

  /** `h % 12 || 12`: the hour on a 12-hour clock, where 0 and 12 read 12. */
  function Hour12(h: nat): (r: nat)
    ensures 1 <= r <= 12
    ensures r % 12 == h % 12
  {
    if h % 12 == 0 then 12 else h % 12
  }

  lemma Hour12Examples()
    ensures Hour12(0) == 12 && Hour12(12) == 12 && Hour12(13) == 1 && Hour12(23) == 11
  {
  }

  /**
   * What `new Date()` answers to getDate, getMonth (0-based), getFullYear,
   * getHours, getMinutes and getSeconds.
   */
  datatype DateParts = DateParts(date: nat, month: nat, fullYear: nat, hours: nat, minutes: nat, seconds: nat)

  /** The ranges JavaScript's Date getters return within. */
  predicate ValidDate(d: DateParts) {
    1 <= d.date <= 31 && d.month < 12 && d.hours < 24 && d.minutes < 60 && d.seconds < 60
  }

  /** Every character is a digit or the `_` separator. */
  predicate StampChars(s: string) {
    forall k :: 0 <= k < |s| ==> IsDigit(s[k]) || s[k] == '_'
  }

  lemma StampCharsConcat(a: string, b: string)
    requires StampChars(a) && StampChars(b)
    ensures StampChars(a + b)
  {
    forall k | 0 <= k < |a + b| ensures IsDigit((a + b)[k]) || (a + b)[k] == '_' {
      if k >= |a| {
        assert (a + b)[k] == b[k - |a|];
      }
    }
  }

  /** `generateTimestamp`, on given date components. */
  function GenerateTimestamp(d: DateParts): (s: string)
    ensures forall k :: 0 <= k < |s| ==> IsDigit(s[k]) || s[k] == '_'
  {
    var dd, mm, yyyy := FormatPart(d.date), FormatPart(d.month + 1), DecimalString(d.fullYear);
    var hh, mi, ss := FormatPart(Hour12(d.hours)), FormatPart(d.minutes), FormatPart(d.seconds);
    StampCharsConcat(dd, mm);
    StampCharsConcat(dd + mm, yyyy);
    StampCharsConcat(dd + mm + yyyy, "_");
    StampCharsConcat(dd + mm + yyyy + "_", hh);
    StampCharsConcat(dd + mm + yyyy + "_" + hh, mi);
    StampCharsConcat(dd + mm + yyyy + "_" + hh + mi, ss);
    dd + mm + yyyy + "_" + hh + mi + ss
  }

  /** A slice that ends within the left operand of a concatenation lies in it. */
  lemma SliceLeft(a: string, b: string, i: nat, j: nat)
    requires i <= j <= |a|
    ensures (a + b)[i..j] == a[i..j]
  {
  }

  /** The slice covering the right operand of a concatenation is that operand. */
  lemma SliceRight(a: string, b: string)
    ensures (a + b)[|a|..|a| + |b|] == b
  {
  }

  /** The digits of `s[from..from + len]` as a number. */
  function Field(s: string, from: nat, len: nat): nat
    requires from + len <= |s|
    requires forall k :: from <= k < from + len ==> IsDigit(s[k])
  {
    ParseDecimal(s[from..from + len])
  }

  /**
   * Seven fields of widths 2, 2, 4, 1, 2, 2, 2 laid end to end: each one is
   * found again at its fixed offset.
   */
  lemma StampOffsets(dd: string, mm: string, yyyy: string, hh: string, mi: string, ss: string)
    requires |dd| == |mm| == |hh| == |mi| == |ss| == 2 && |yyyy| == 4
    ensures var s := dd + mm + yyyy + "_" + hh + mi + ss;
      && |s| == 15 && s[8] == '_'
      && s[0..2] == dd && s[2..4] == mm && s[4..8] == yyyy
      && s[9..11] == hh && s[11..13] == mi && s[13..15] == ss
  {
    var l1 := dd + mm;
    var l2 := l1 + yyyy;
    var l3 := l2 + "_";
    var l4 := l3 + hh;
    var l5 := l4 + mi;
    // seconds, minutes, hour: the right operand of one concatenation
    SliceRight(l5, ss);
    SliceLeft(l5, ss, 11, 13); SliceRight(l4, mi);
    SliceLeft(l5, ss, 9, 11); SliceLeft(l4, mi, 9, 11); SliceRight(l3, hh);
    // the separator and the year
    SliceLeft(l5, ss, 0, 9); SliceLeft(l4, mi, 0, 9); SliceLeft(l3, hh, 0, 9);
    SliceLeft(l3, "_", 4, 8); SliceRight(l1, yyyy);
    // day and month
    SliceLeft(l3, "_", 0, 4); SliceLeft(l2, yyyy, 0, 4);
    SliceLeft(dd + mm, [], 0, 2); SliceRight(dd, mm);
  }

  /** With a four-digit year every part of the timestamp sits at a fixed offset. */
  lemma TimestampLayout(d: DateParts)
    requires ValidDate(d) && 1000 <= d.fullYear <= 9999
    ensures var s := GenerateTimestamp(d);
      && |s| == 15 && s[8] == '_'
      && s[0..2] == FormatPart(d.date) && s[2..4] == FormatPart(d.month + 1)
      && s[4..8] == DecimalString(d.fullYear) && s[9..11] == FormatPart(Hour12(d.hours))
      && s[11..13] == FormatPart(d.minutes) && s[13..15] == FormatPart(d.seconds)
  {
    DecimalLengthFour(d.fullYear);
    StampOffsets(FormatPart(d.date), FormatPart(d.month + 1), DecimalString(d.fullYear),
                 FormatPart(Hour12(d.hours)), FormatPart(d.minutes), FormatPart(d.seconds));
  }

  /**
   * With a four-digit year the timestamp has 15 characters, `_` at index 8,
   * and reading the fixed-width fields back gives the day, the 1-based
   * month, the year, the 12-hour hour, the minutes and the seconds.
   */
  lemma TimestampRoundTrip(d: DateParts)
    requires ValidDate(d) && 1000 <= d.fullYear <= 9999
    ensures var s := GenerateTimestamp(d);
      && |s| == 15 && s[8] == '_'
      && (forall k :: 0 <= k < 15 && k != 8 ==> IsDigit(s[k]))
      && Field(s, 0, 2) == d.date
      && Field(s, 2, 2) == d.month + 1
      && Field(s, 4, 4) == d.fullYear
      && Field(s, 9, 2) == Hour12(d.hours)
      && Field(s, 11, 2) == d.minutes
      && Field(s, 13, 2) == d.seconds
  {
    var s := GenerateTimestamp(d);
    TimestampLayout(d);
    DecimalRoundTrip(d.fullYear);
    forall k | 0 <= k < 15 && k != 8 ensures IsDigit(s[k]) {
      if k < 2 { assert s[k] == s[0..2][k]; }
      else if k < 4 { assert s[k] == s[2..4][k - 2]; }
      else if k < 8 { assert s[k] == s[4..8][k - 4]; }
      else if k < 11 { assert s[k] == s[9..11][k - 9]; }
      else if k < 13 { assert s[k] == s[11..13][k - 11]; }
      else { assert s[k] == s[13..15][k - 13]; }
    }
  }
}
