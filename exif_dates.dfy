/**
 * The capture-date pattern all three importers compile,
 * `(\d{4}):(\d{2}):(\d{2}) (\d{2}):(\d{2}):(\d{2})`, its leftmost match, and the
 * date and time read from the six groups of that match.
 */
module ExifDates {
  import opened Wrappers
  import opened GoStrings
  import Calendar

  datatype DateTime = DateTime(year: nat, month: nat, day: nat, hour: nat, minute: nat, second: nat)

  /** Every match is 19 characters long. */
  const MatchLength := 19

  /** `n` digits (`\d`, ASCII only in Go's regexp) stand in `s` from `a` on. */
  predicate DigitsAt(s: string, a: nat, n: nat) {
    a + n <= |s| && forall k :: a <= k < a + n ==> IsDigit(s[k])
  }

  /** The pattern matches the 19 characters of `s` from `i` on. */
  predicate MatchesAt(s: string, i: nat) {
    && i + MatchLength <= |s|
    && DigitsAt(s, i, 4) && s[i + 4] == ':' && DigitsAt(s, i + 5, 2) && s[i + 7] == ':'
    && DigitsAt(s, i + 8, 2) && s[i + 10] == ' ' && DigitsAt(s, i + 11, 2) && s[i + 13] == ':'
    && DigitsAt(s, i + 14, 2) && s[i + 16] == ':' && DigitsAt(s, i + 17, 2)
  }

  /** The start of the leftmost match at or after `from` (the first element of `FindAllStringSubmatch`). */
  function FindMatch(s: string, from: nat): (r: Option<nat>)
    requires from <= |s|
    ensures r.Some? ==> from <= r.value && MatchesAt(s, r.value)
    ensures forall j :: from <= j && (r.None? || j < r.value) ==> !MatchesAt(s, j)
    decreases |s| - from
  {
    if from + MatchLength > |s| then None
    else if MatchesAt(s, from) then Some(from)
    else FindMatch(s, from + 1)
  }

  /** The number written by the `n` digits of `s` from `a` on. */
  function GroupValue(s: string, a: nat, n: nat): nat
    requires DigitsAt(s, a, n)
  {
    assert IsDigits(s[a..a + n]);
    DigitsValue(s[a..a + n])
  }

  /** The six groups of the match at `i`, read as decimal numbers (`to.Int`). */
  function GroupsAt(s: string, i: nat): DateTime
    requires MatchesAt(s, i)
  {
    DateTime(
      GroupValue(s, i, 4), GroupValue(s, i + 5, 2), GroupValue(s, i + 8, 2),
      GroupValue(s, i + 11, 2), GroupValue(s, i + 14, 2), GroupValue(s, i + 17, 2))
  }

  /** The date of the leftmost match in `taken`, or `None` when nothing matches (where Go indexes `all[0]` and panics). */
  function ParseExifDate(taken: string): (dt: Option<DateTime>)
    ensures dt.None? <==> forall i: nat :: !MatchesAt(taken, i)
    ensures dt.Some? ==>
      exists i: nat :: MatchesAt(taken, i) && dt.value == GroupsAt(taken, i) && forall j: nat :: j < i ==> !MatchesAt(taken, j)
  {
    match FindMatch(taken, 0)
    case None => None
    case Some(i) => Some(GroupsAt(taken, i))
  }

  /** A date that `time.Date` takes as it stands, without normalising any field. */
  predicate ValidDateTime(dt: DateTime) {
    Calendar.ValidDate(dt.year, dt.month, dt.day) && dt.hour < 24 && dt.minute < 60 && dt.second < 60
  }

  /** A value the importer can file: it holds a match and the match is a valid date. */
  predicate Parses(taken: string) {
    ParseExifDate(taken).Some? && ValidDateTime(ParseExifDate(taken).value)
  }

  function Pad4(n: nat): (r: string)
    requires n < 10000
    ensures |r| == 4 && IsDigits(r)
  {
    Pad2(n / 100) + Pad2(n % 100)
  }

  /** EXIF's own rendering of a date, `YYYY:MM:DD HH:MM:SS`. */
  function FormatExifDate(dt: DateTime): (r: string)
    requires dt.year < 10000 && dt.month < 100 && dt.day < 100
    requires dt.hour < 100 && dt.minute < 100 && dt.second < 100
    ensures |r| == MatchLength
  {
    Pad4(dt.year) + ":" + Pad2(dt.month) + ":" + Pad2(dt.day) + " "
      + Pad2(dt.hour) + ":" + Pad2(dt.minute) + ":" + Pad2(dt.second)
  }

  lemma Pad4RoundTrip(n: nat)
    requires n < 10000
    ensures DigitsValue(Pad4(n)) == n
  {
    var s := Pad4(n);
    var hi, lo := n / 100, n % 100;
    Pad2RoundTrip(hi);
    assert s[..3] == Pad2(hi) + [s[2]] && s[..3][..2] == Pad2(hi);
    assert s[..3][..|s[..3]| - 1] == Pad2(hi);
    assert DigitsValue(s[..3]) == hi * 10 + lo / 10;
    assert s[..|s| - 1] == s[..3];
  }

  /** Rendering a date the EXIF way and parsing it back gives the same date. */
  lemma ParseFormatRoundTrip(dt: DateTime)
    requires dt.year < 10000 && dt.month < 100 && dt.day < 100
    requires dt.hour < 100 && dt.minute < 100 && dt.second < 100
    ensures ParseExifDate(FormatExifDate(dt)) == Some(dt)
  {
    var s := FormatExifDate(dt);
    assert s[0..4] == Pad4(dt.year);
    assert s[5..7] == Pad2(dt.month);
    assert s[8..10] == Pad2(dt.day);
    assert s[11..13] == Pad2(dt.hour);
    assert s[14..16] == Pad2(dt.minute);
    assert s[17..19] == Pad2(dt.second);
    assert MatchesAt(s, 0);
    Pad4RoundTrip(dt.year);
    Pad2RoundTrip(dt.month);
    Pad2RoundTrip(dt.day);
    Pad2RoundTrip(dt.hour);
    Pad2RoundTrip(dt.minute);
    Pad2RoundTrip(dt.second);
  }
}
