/**
 * The `%Y-%m-%d_%H-%M-%S` timestamp the GUIs put in every saved file name,
 * and the names themselves. The clock reading is an input.
 */
module Timestamps {
  import opened Wrappers
  import opened Decimal

  /** A reading of the wall clock, as `datetime.datetime.now()` returns it. */
  datatype DateTime = DateTime(year: int, month: int, day: int, hour: int, minute: int, second: int)

  predicate IsLeapYear(y: int) { y % 4 == 0 && (y % 100 != 0 || y % 400 == 0) }

  function DaysInMonth(y: int, m: int): int
  {
    if m == 2 then (if IsLeapYear(y) then 29 else 28)
    else if m == 4 || m == 6 || m == 9 || m == 11 then 30
    else 31
  }

  /** A clock reading with four-digit year. */
  predicate Valid(t: DateTime)
  {
    1000 <= t.year <= 9999 && 1 <= t.month <= 12 && 1 <= t.day <= DaysInMonth(t.year, t.month)
    && 0 <= t.hour < 24 && 0 <= t.minute < 60 && 0 <= t.second < 60
  }

  /** The last `width` decimal digits of n, zero-padded on the left. */
  function Pad(n: nat, width: nat): (s: string)
    ensures |s| == width && AllDigits(s)
  {
    if width == 0 then [] else Pad(n / 10, width - 1) + [DigitChar(n % 10)]
  }

  /** A number that fits the width reads back from its padded digits. */
  lemma {:induction false} PadValue(n: nat, width: nat)
    requires n < Pow10(width)
    ensures DigitsValue(Pad(n, width)) == n
  {
    if width > 0 {
      var s := Pad(n, width);
      assert s[..|s| - 1] == Pad(n / 10, width - 1);
      assert n / 10 < Pow10(width - 1) by {
        assert n < 10 * Pow10(width - 1);
      }
      PadValue(n / 10, width - 1);
    }
  }

  /** `strftime("%Y-%m-%d_%H-%M-%S")`. */
  function Timestamp(t: DateTime): (s: string)
    requires Valid(t)
    ensures |s| == 19
    ensures s[4] == '-' && s[7] == '-' && s[10] == '_' && s[13] == '-' && s[16] == '-'
  {
    Pad(t.year, 4) + "-" + Pad(t.month, 2) + "-" + Pad(t.day, 2) + "_"
    + Pad(t.hour, 2) + "-" + Pad(t.minute, 2) + "-" + Pad(t.second, 2)
  }

  /** Reads the six fields back from a `%Y-%m-%d_%H-%M-%S` text. */
  function ParseTimestamp(s: string): Option<DateTime>
  {
    if |s| == 19 && s[4] == '-' && s[7] == '-' && s[10] == '_' && s[13] == '-' && s[16] == '-'
       && AllDigits(s[0..4]) && AllDigits(s[5..7]) && AllDigits(s[8..10])
       && AllDigits(s[11..13]) && AllDigits(s[14..16]) && AllDigits(s[17..19])
    then
      Some(DateTime(DigitsValue(s[0..4]), DigitsValue(s[5..7]), DigitsValue(s[8..10]),
                    DigitsValue(s[11..13]), DigitsValue(s[14..16]), DigitsValue(s[17..19])))
    else None
  }

  /** The timestamp text determines the clock reading: formatting loses nothing. */
  lemma TimestampRoundTrip(t: DateTime)
    requires Valid(t)
    ensures ParseTimestamp(Timestamp(t)) == Some(t)
  {
    var s := Timestamp(t);
    assert s[0..4] == Pad(t.year, 4);
    assert s[5..7] == Pad(t.month, 2);
    assert s[8..10] == Pad(t.day, 2);
    assert s[11..13] == Pad(t.hour, 2);
    assert s[14..16] == Pad(t.minute, 2);
    assert s[17..19] == Pad(t.second, 2);
    assert Pow10(2) == 100 && Pow10(4) == 10000;
    PadValue(t.year, 4);
    PadValue(t.month, 2);
    PadValue(t.day, 2);
    PadValue(t.hour, 2);
    PadValue(t.minute, 2);
    PadValue(t.second, 2);
  }

  /** `f"{target_name}_{current_time}"`. */
  function FileName(target: string, t: DateTime): string
    requires Valid(t)
  {
    target + "_" + Timestamp(t)
  }

  /**
   * A file name is the target, an underscore and the 19-character
   * timestamp, and both parts can be read back from it.
   */
  lemma FileNameParts(target: string, t: DateTime)
    requires Valid(t)
    ensures var f := FileName(target, t);
      |f| == |target| + 20 && f[..|target|] == target && f[|target|] == '_'
      && ParseTimestamp(f[|target| + 1..]) == Some(t)
  {
    var f := FileName(target, t);
    assert f[|target| + 1..] == Timestamp(t);
    TimestampRoundTrip(t);
  }

  /**
   * Two saves get the same name exactly when target and clock reading agree
   * to the second: frames saved within one second under one target collide.
   */
  lemma FileNameCollision(target1: string, t1: DateTime, target2: string, t2: DateTime)
    requires Valid(t1) && Valid(t2)
    ensures FileName(target1, t1) == FileName(target2, t2) <==> target1 == target2 && t1 == t2
  {
    if FileName(target1, t1) == FileName(target2, t2) {
      FileNameParts(target1, t1);
      FileNameParts(target2, t2);
    }
  }
}
