/** `Date.prototype.toISOString` for instants whose year has four digits, and
    the `YYYY-MM-DD` date shape that the naming rules match. */
module IsoDate {
  import opened Text

  /** A UTC instant broken into calendar fields. */
  datatype Instant = Instant(year: nat, month: nat, day: nat, hour: nat, minute: nat, second: nat, millis: nat)
  {
    predicate InRange()
    {
      year <= 9999 && 1 <= month <= 12 && 1 <= day <= 31
      && hour < 24 && minute < 60 && second < 60 && millis < 1000
    }
  }

  /** The instants whose ISO form has a fixed width. */
  type Stamp = t: Instant | t.InRange() witness Instant(1970, 1, 1, 0, 0, 0, 0)

  /** `toISOString()`: `YYYY-MM-DDTHH:mm:ss.sssZ`. */
  function IsoString(t: Stamp): (r: string)
    ensures |r| == 24
    ensures r[4] == '-' && r[7] == '-' && r[10] == 'T' && r[13] == ':' && r[16] == ':'
  {
    Digits(t.year, 4) + "-" + Digits(t.month, 2) + "-" + Digits(t.day, 2)
      + "T" + Digits(t.hour, 2) + ":" + Digits(t.minute, 2) + ":" + Digits(t.second, 2)
      + "." + Digits(t.millis, 3) + "Z"
  }

  /** Matches `\d{4}-\d{2}-\d{2}`. */
  predicate IsDateShape(s: string)
  {
    && |s| == 10
    && IsDigit(s[0]) && IsDigit(s[1]) && IsDigit(s[2]) && IsDigit(s[3])
    && s[4] == '-'
    && IsDigit(s[5]) && IsDigit(s[6])
    && s[7] == '-'
    && IsDigit(s[8]) && IsDigit(s[9])
  }

  /** `toISOString().slice(0, 10)`: the calendar date of `t`. */
  function DateOf(t: Stamp): (r: string)
    ensures IsDateShape(r)
    ensures r == Digits(t.year, 4) + "-" + Digits(t.month, 2) + "-" + Digits(t.day, 2)
  {
    var iso := IsoString(t);
    assert iso[..10] == Digits(t.year, 4) + "-" + Digits(t.month, 2) + "-" + Digits(t.day, 2);
    iso[..10]
  }
}
