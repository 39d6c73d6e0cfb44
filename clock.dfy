/** Civil UTC times with second precision and the two text forms the store uses: the
    response-ID stamp (Go layout "20060102_150405_000", where "_000" is literal text,
    not a fraction) and the "2006-01-02 15:04:05 +0000 UTC" form shown in listings. */
module Clock {
  import opened Wrappers
  import opened Text

  datatype Moment = Moment(year: int, month: int, day: int, hour: int, minute: int, second: int)

  predicate IsLeapYear(y: int) {
    y % 4 == 0 && (y % 100 != 0 || y % 400 == 0)
  }

  function DaysIn(month: int, year: int): int {
    if month == 2 then (if IsLeapYear(year) then 29 else 28)
    else if month == 4 || month == 6 || month == 9 || month == 11 then 30
    else 31
  }

  /** A calendar time whose year has four digits. */
  predicate Valid(t: Moment) {
    && 0 <= t.year <= 9999
    && 1 <= t.month <= 12
    && 1 <= t.day <= DaysIn(t.month, t.year)
    && 0 <= t.hour < 24
    && 0 <= t.minute < 60
    && 0 <= t.second < 60
  }

  const StampLength := 19
  const StampTail := "_000"

  /** A `w`-digit field followed by two two-digit fields. */
  function Fields(a: nat, w: nat, b: nat, c: nat): (s: string)
    requires a < Pow10(w) && b < 100 && c < 100
    ensures |s| == w + 4
  {
    FixedDigits(a, w);
    FixedDigits(b, 2);
    FixedDigits(c, 2);
    Fixed(a, w) + Fixed(b, 2) + Fixed(c, 2)
  }

  /** time.Format with layout "20060102_150405_000". */
  function FormatStamp(t: Moment): (s: string)
    requires Valid(t)
    ensures |s| == StampLength
  {
    Fields(t.year, 4, t.month, t.day) + "_" + Fields(t.hour, 2, t.minute, t.second) + StampTail
  }

  /** time.Parse with the same layout in UTC: four-digit year, two-digit month, day, hour,
      minute and second, fields in range (the day for its month and year), then "_000". */
  function ParseStamp(s: string): Option<Moment> {
    if |s| != StampLength || s[8] != '_' || s[15..] != StampTail || !AllDigits(s[..8]) || !AllDigits(s[9..15])
    then None
    else
      var t := Moment(DigitsValue(s[..4]), DigitsValue(s[4..6]), DigitsValue(s[6..8]),
                      DigitsValue(s[9..11]), DigitsValue(s[11..13]), DigitsValue(s[13..15]));
      if Valid(t) then Some(t) else None
  }

  lemma AllDigitsSlice(s: string, i: int, j: int)
    requires AllDigits(s) && 0 <= i <= j <= |s|
    ensures AllDigits(s[i..j])
  {
    assert forall k :: 0 <= k < j - i ==> s[i..j][k] == s[i + k];
  }

  /** Fixed-width digits are determined by their value. */
  lemma {:induction false} FixedOfDigits(d: string)
    requires AllDigits(d)
    ensures DigitsValue(d) < Pow10(|d|)
    ensures Fixed(DigitsValue(d), |d|) == d
    decreases |d|
  {
    if d != [] {
      var init := d[..|d| - 1];
      AllDigitsSlice(d, 0, |d| - 1);
      FixedOfDigits(init);
      var last := d[|d| - 1] as int - '0' as int;
      assert 0 <= last < 10;
      var v := DigitsValue(d);
      assert v == DigitsValue(init) * 10 + last;
      assert v / 10 == DigitsValue(init) && v % 10 == last;
      assert DigitChar(last) == d[|d| - 1];
      assert d == init + [d[|d| - 1]];
    }
  }

  /** A `w`-digit field and two two-digit fields are read back from their digits. */
  lemma FieldsRoundTrip(a: nat, w: nat, b: nat, c: nat)
    requires a < Pow10(w) && b < 100 && c < 100
    ensures var d := Fields(a, w, b, c);
      AllDigits(d) && DigitsValue(d[..w]) == a && DigitsValue(d[w..w + 2]) == b && DigitsValue(d[w + 2..]) == c
  {
    FixedDigits(a, w);
    FixedDigits(b, 2);
    FixedDigits(c, 2);
    var d := Fields(a, w, b, c);
    assert d[..w] == Fixed(a, w) && d[w..w + 2] == Fixed(b, 2) && d[w + 2..] == Fixed(c, 2);
  }

  /** Where the date and time digits sit in a stamp. */
  lemma StampLayout(date: string, time: string)
    requires |date| == 8 && |time| == 6
    ensures var s := date + "_" + time + StampTail;
      && s[..8] == date && s[8] == '_' && s[9..15] == time && s[15..] == StampTail
      && s[..4] == date[..4] && s[4..6] == date[4..6] && s[6..8] == date[6..]
      && s[9..11] == time[..2] && s[11..13] == time[2..4] && s[13..15] == time[4..]
  {
  }

  lemma StampSlices(t: Moment)
    requires Valid(t)
    ensures var s := FormatStamp(t);
      && s[8] == '_' && s[15..] == StampTail && AllDigits(s[..8]) && AllDigits(s[9..15])
      && DigitsValue(s[..4]) == t.year && DigitsValue(s[4..6]) == t.month && DigitsValue(s[6..8]) == t.day
      && DigitsValue(s[9..11]) == t.hour && DigitsValue(s[11..13]) == t.minute && DigitsValue(s[13..15]) == t.second
  {
    var date, time := Fields(t.year, 4, t.month, t.day), Fields(t.hour, 2, t.minute, t.second);
    FieldsRoundTrip(t.year, 4, t.month, t.day);
    FieldsRoundTrip(t.hour, 2, t.minute, t.second);
    StampLayout(date, time);
  }

  /** Parsing a formatted stamp gives back the time. */
  lemma ParseFormat(t: Moment)
    requires Valid(t)
    ensures ParseStamp(FormatStamp(t)) == Some(t)
  {
    StampSlices(t);
  }

  /** `w + 4` digits read as three fields and written back. */
  lemma ThreeFields(d: string, w: nat)
    requires |d| == w + 4 && AllDigits(d)
    ensures DigitsValue(d[..w]) < Pow10(w) && DigitsValue(d[w..w + 2]) < 100 && DigitsValue(d[w + 2..]) < 100
    ensures Fields(DigitsValue(d[..w]), w, DigitsValue(d[w..w + 2]), DigitsValue(d[w + 2..])) == d
  {
    var a, b, c := d[..w], d[w..w + 2], d[w + 2..];
    AllDigitsSlice(d, 0, w);
    AllDigitsSlice(d, w, w + 2);
    AllDigitsSlice(d, w + 2, w + 4);
    assert |a| == w && |b| == 2 && |c| == 2;
    FixedOfDigits(a);
    FixedOfDigits(b);
    FixedOfDigits(c);
    assert Pow10(2) == 100;
    calc {
      Fields(DigitsValue(a), w, DigitsValue(b), DigitsValue(c));
      Fixed(DigitsValue(a), w) + Fixed(DigitsValue(b), 2) + Fixed(DigitsValue(c), 2);
      a + b + c;
      { assert d == a + b + c; }
      d;
    }
  }

  /** The three fields of the `w + 4` digits at offset `i` of `s`. */
  lemma FieldsAt(s: string, i: nat, w: nat)
    requires i + w + 4 <= |s| && AllDigits(s[i..i + w + 4])
    ensures DigitsValue(s[i..i + w]) < Pow10(w)
    ensures DigitsValue(s[i + w..i + w + 2]) < 100 && DigitsValue(s[i + w + 2..i + w + 4]) < 100
    ensures Fields(DigitsValue(s[i..i + w]), w, DigitsValue(s[i + w..i + w + 2]), DigitsValue(s[i + w + 2..i + w + 4]))
      == s[i..i + w + 4]
  {
    var d := s[i..i + w + 4];
    assert |d| == w + 4 && forall k :: 0 <= k < w + 4 ==> d[k] == s[i + k];
    assert d[..w] == s[i..i + w];
    assert d[w..w + 2] == s[i + w..i + w + 2];
    assert d[w + 2..] == s[i + w + 2..i + w + 4];
    ThreeFields(d, w);
  }

  /** A stamp is its date digits, "_", its time digits and the literal tail. */
  lemma StampSplit(s: string)
    requires |s| == StampLength && s[8] == '_' && s[15..] == StampTail
    ensures s == s[0..8] + "_" + s[9..15] + StampTail
  {
    assert s[..9] == s[0..8] + "_";
    assert s[..15] == s[..9] + s[9..15];
    assert s == s[..15] + s[15..];
  }

  /** Only the canonical rendering of a time parses: a stamp that parses is the format of
      what it parses to. */
  lemma FormatParse(s: string)
    requires ParseStamp(s).Some?
    ensures Valid(ParseStamp(s).value) && FormatStamp(ParseStamp(s).value) == s
  {
    assert s[0..8] == s[..8] && s[0..4] == s[..4];
    FieldsAt(s, 0, 4);
    FieldsAt(s, 9, 2);
    StampSplit(s);
  }

  /** Time.String() of a time with no fraction, in UTC. */
  function Render(t: Moment): string
    requires Valid(t)
  {
    Fixed(t.year, 4) + "-" + Fixed(t.month, 2) + "-" + Fixed(t.day, 2) + " "
      + Fixed(t.hour, 2) + ":" + Fixed(t.minute, 2) + ":" + Fixed(t.second, 2) + " +0000 UTC"
  }
}
