/**
 * The text form of a `datetime` used by the expense serialiser: the ISO 8601
 * extended complete representation (ISO 8601:2004, section 4.3.2)
 * `YYYY-MM-DDThh:mm:ss`, followed by `.ffffff` when the microsecond is not
 * zero, as `datetime.isoformat()` writes it; and the decoder for the shapes
 * `datetime.fromisoformat` accepts from that family.
 */
module IsoFormat {
  import opened Wrappers
  import opened Calendar

  predicate IsDigit(c: char) { '0' <= c <= '9' }

  function Pow10(w: nat): (p: nat)
    ensures p >= 1
  {
    if w == 0 then 1 else 10 * Pow10(w - 1)
  }

  /** `n` written in decimal with exactly `w` digits, zero-padded on the left
    * (`"%0*d" % (w, n)` for `n < 10^w`). */
  function Pad(n: nat, w: nat): (s: string)
    ensures |s| == w
    ensures forall i :: 0 <= i < |s| ==> IsDigit(s[i])
  {
    if w == 0 then "" else Pad(n / 10, w - 1) + [('0' as int + n % 10) as char]
  }

  /** The value of a string of decimal digits; `None` if any character is not a digit. */
  function ParseDigits(s: string): (r: Option<nat>)
    ensures r.Some? <==> forall i :: 0 <= i < |s| ==> IsDigit(s[i])
  {
    if s == [] then Some(0)
    else if !IsDigit(s[|s| - 1]) then None
    else match ParseDigits(s[..|s| - 1])
         case None => None
         case Some(v) => Some(10 * v + (s[|s| - 1] as int - '0' as int))
  }

  lemma {:induction false} ParsePad(n: nat, w: nat)
    requires n < Pow10(w)
    ensures ParseDigits(Pad(n, w)) == Some(n)
  {
    if w > 0 {
      var s := Pad(n, w);
      assert s[..|s| - 1] == Pad(n / 10, w - 1);
      ParsePad(n / 10, w - 1);
    }
  }

  /** `datetime.isoformat()` of a naive datetime: the date, `T`, the time. */
  function Format(t: Timestamp): (s: string)
    ensures |s| == (if t.microsecond == 0 then 19 else 26)
  {
    DateText(t.year, t.month, t.day) + "T" + TimeText(t.hour, t.minute, t.second, t.microsecond)
  }

  /** `"%04d-%02d-%02d"`. */
  function DateText(year: nat, month: nat, day: nat): (s: string)
    ensures |s| == 10
  {
    Pad(year, 4) + "-" + Pad(month, 2) + "-" + Pad(day, 2)
  }

  /** `"%02d:%02d:%02d"`, followed by `".%06d"` when there are microseconds. */
  function TimeText(hour: nat, minute: nat, second: nat, microsecond: nat): (s: string)
    ensures |s| == (if microsecond == 0 then 8 else 15)
  {
    Pad(hour, 2) + ":" + Pad(minute, 2) + ":" + Pad(second, 2)
    + (if microsecond == 0 then "" else "." + Pad(microsecond, 6))
  }

  /** The digits at `s[i..i+w]`. */
  function Field(s: string, i: nat, w: nat): Option<nat>
    requires i + w <= |s|
  {
    ParseDigits(s[i..i + w])
  }

  /** `datetime.fromisoformat` on `YYYY-MM-DD` (midnight),
    * `YYYY-MM-DDThh:mm:ss` and `YYYY-MM-DDThh:mm:ss.ffffff`; `None` stands
    * for the `ValueError` raised on any other text or on out-of-range fields. */
  function Parse(s: string): (r: Option<Timestamp>)
    ensures r.Some? ==> |s| in {10, 19, 26}
  {
    if |s| < 10 then None
    else
      var date := ParseDate(s[..10]);
      var time := if |s| == 10 then Some((0, 0, 0, 0))
                  else if s[10] == 'T' then ParseTime(s[11..])
                  else None;
      if date.None? || time.None? then None
      else
        var (year, month, day) := date.value;
        var (hour, minute, second, microsecond) := time.value;
        var t := DateTime(year, month, day, hour, minute, second, microsecond);
        if t.Valid() then Some(t) else None
  }

  /** The fields of a `YYYY-MM-DD` text. */
  function ParseDate(s: string): (r: Option<(nat, nat, nat)>)
    ensures r.Some? ==> |s| == 10
  {
    if |s| != 10 || s[4] != '-' || s[7] != '-' then None
    else
      match (Field(s, 0, 4), Field(s, 5, 2), Field(s, 8, 2))
      case (Some(year), Some(month), Some(day)) => Some((year, month, day))
      case _ => None
  }

  /** The fields of a `hh:mm:ss` or `hh:mm:ss.ffffff` text. */
  function ParseTime(s: string): (r: Option<(nat, nat, nat, nat)>)
    ensures r.Some? ==> |s| == 8 || |s| == 15
  {
    if !(|s| == 8 || (|s| == 15 && s[8] == '.')) || s[2] != ':' || s[5] != ':' then None
    else
      var micro := if |s| == 15 then Field(s, 9, 6) else Some(0);
      match (Field(s, 0, 2), Field(s, 3, 2), Field(s, 6, 2), micro)
      case (Some(hour), Some(minute), Some(second), Some(microsecond)) =>
        Some((hour, minute, second, microsecond))
      case _ => None
  }

  /** Decoding what `isoformat()` wrote gives back the same datetime. */
  lemma ParseFormat(t: Timestamp)
    ensures Parse(Format(t)) == Some(t)
  {
    var s := Format(t);
    var date := DateText(t.year, t.month, t.day);
    var time := TimeText(t.hour, t.minute, t.second, t.microsecond);
    assert s[..10] == date && s[10] == 'T' && s[11..] == time;
    ParseDateText(t.year, t.month, t.day);
    ParseTimeText(t.hour, t.minute, t.second, t.microsecond);
  }

  lemma ParseDateText(year: nat, month: nat, day: nat)
    requires year < 10000 && month < 100 && day < 100
    ensures ParseDate(DateText(year, month, day)) == Some((year, month, day))
  {
    var s := DateText(year, month, day);
    assert s[0..4] == Pad(year, 4);
    assert s[5..7] == Pad(month, 2);
    assert s[8..10] == Pad(day, 2);
    ParsePad(year, 4);
    ParsePad(month, 2);
    ParsePad(day, 2);
  }

  lemma ParseTimeText(hour: nat, minute: nat, second: nat, microsecond: nat)
    requires hour < 100 && minute < 100 && second < 100 && microsecond < 1000000
    ensures ParseTime(TimeText(hour, minute, second, microsecond))
            == Some((hour, minute, second, microsecond))
  {
    var s := TimeText(hour, minute, second, microsecond);
    var hms := Pad(hour, 2) + ":" + Pad(minute, 2) + ":" + Pad(second, 2);
    assert s[..8] == hms;
    assert s[0..2] == hms[0..2] == Pad(hour, 2);
    assert s[3..5] == hms[3..5] == Pad(minute, 2);
    assert s[6..8] == hms[6..8] == Pad(second, 2);
    ParsePad(hour, 2);
    ParsePad(minute, 2);
    ParsePad(second, 2);
    if microsecond != 0 {
      var frac := "." + Pad(microsecond, 6);
      assert s == hms + frac;
      assert s[9..15] == frac[1..] == Pad(microsecond, 6);
      ParsePad(microsecond, 6);
    }
  }

  /** A date-only text is read as midnight of that day: it decodes exactly
    * as the same date followed by `T00:00:00` does. */
  lemma ParseDateOnly(s: string)
    requires |s| == 10
    ensures Parse(s) == Parse(s + "T00:00:00")
    ensures Parse(s).Some? ==>
              Parse(s).value.hour == Parse(s).value.minute == Parse(s).value.second
              == Parse(s).value.microsecond == 0
  {
    var u := s + "T00:00:00";
    assert s[..10] == s && u[..10] == s && u[10] == 'T' && u[11..] == "00:00:00";
    assert Pad(0, 1) == "0";
    assert Pad(0, 2) == "00";
    assert TimeText(0, 0, 0, 0) == "00:00:00";
    ParseTimeText(0, 0, 0, 0);
  }
}
