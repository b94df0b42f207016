/**
 * Python's `datetime` values as far as the core uses them: `isoformat()` when a package is
 * written out, `fromisoformat()` when it is read back, and the age of an aware timestamp.
 */
module DateTimes {
  import opened Wrappers
  import opened PyStrings

  predicate IsLeap(y: int) {
    y % 4 == 0 && (y % 100 != 0 || y % 400 == 0)
  }

  function DaysInMonth(y: int, m: int): (r: int)
    requires 1 <= m <= 12
    ensures 28 <= r <= 31
  {
    if m == 2 then (if IsLeap(y) then 29 else 28)
    else if m == 4 || m == 6 || m == 9 || m == 11 then 30
    else 31
  }

  /**
   * A `datetime`; `utcOffset` is the offset from UTC in minutes of an aware value, and
   * `None` for a naive one.
   */
  datatype DateTime = DateTime(
    year: int, month: int, day: int,
    hour: int, minute: int, second: int, microsecond: int,
    utcOffset: Option<int>)
  {
    /** The ranges `datetime` enforces on its fields (offsets restricted to whole minutes). */
    predicate Valid() {
      1 <= year <= 9999 && 1 <= month <= 12 && 1 <= day <= DaysInMonth(year, month)
      && 0 <= hour < 24 && 0 <= minute < 60 && 0 <= second < 60 && 0 <= microsecond < 1_000_000
      && (utcOffset.Some? ==> -1440 < utcOffset.value < 1440)
    }
  }

  /** A `datetime` value as Python can hold it. */
  type ValidDateTime = d: DateTime | d.Valid() witness DateTime(1, 1, 1, 0, 0, 0, 0, None)

  function Pow10(w: nat): nat {
    if w == 0 then 1 else 10 * Pow10(w - 1)
  }

  predicate IsDigit(c: char) {
    '0' <= c <= '9'
  }

  /** The last `width` decimal digits of `n`, zero-padded (`'%0*d' % (width, n)` when `n` fits). */
  function Pad(n: nat, width: nat): (r: string)
    ensures |r| == width && forall i :: 0 <= i < |r| ==> IsDigit(r[i])
  {
    if width == 0 then [] else Pad(n / 10, width - 1) + [DigitChar(n % 10)]
  }

  /** The value of a string made only of decimal digits; `None` when another character occurs. */
  function ParseDigits(s: string): Option<nat> {
    if s == [] then Some(0)
    else
      match ParseDigits(s[..|s| - 1])
      case None => None
      case Some(v) =>
        if IsDigit(s[|s| - 1]) then Some(10 * v + (s[|s| - 1] as int - '0' as int)) else None
  }

  lemma {:induction false} ParsePad(n: nat, width: nat)
    requires n < Pow10(width)
    ensures ParseDigits(Pad(n, width)) == Some(n)
  {
    if width > 0 {
      var p := Pad(n, width);
      assert p[..|p| - 1] == Pad(n / 10, width - 1);
      ParsePad(n / 10, width - 1);
    }
  }

  function OffsetText(offset: Option<int>): string {
    match offset
    case None => ""
    case Some(m) =>
      var a := if m < 0 then -m else m;
      (if m < 0 then "-" else "+") + Pad(a / 60, 2) + ":" + Pad(a % 60, 2)
  }

  function FractionText(microsecond: int): string
    requires 0 <= microsecond
  {
    if microsecond != 0 then "." + Pad(microsecond, 6) else ""
  }

  /** `YYYY-MM-DD`. */
  function DateText(year: nat, month: nat, day: nat): (r: string)
    ensures |r| == 10
  {
    Pad(year, 4) + ['-'] + Pad(month, 2) + ['-'] + Pad(day, 2)
  }

  /** `HH:MM:SS`. */
  function TimeText(hour: nat, minute: nat, second: nat): (r: string)
    ensures |r| == 8
  {
    Pad(hour, 2) + [':'] + Pad(minute, 2) + [':'] + Pad(second, 2)
  }

  /** `d.isoformat()`: `YYYY-MM-DDTHH:MM:SS`, then `.ffffff` when there are microseconds, then `+HH:MM` when aware. */
  function IsoFormat(d: DateTime): string
    requires d.Valid()
  {
    IsoFormatSep(d, 'T')
  }

  /** `d.isoformat(sep)`: the same text with `sep` between date and time. */
  function IsoFormatSep(d: DateTime, sep: char): string
    requires d.Valid()
  {
    DateText(d.year, d.month, d.day) + TimeRest(d, sep)
  }

  /** The part of `isoformat(sep)` after the date. */
  function TimeRest(d: DateTime, sep: char): string
    requires d.Valid()
  {
    [sep] + (TimeText(d.hour, d.minute, d.second) + FractionText(d.microsecond)) + OffsetText(d.utcOffset)
  }

  function ParseDate(t: string): Option<(nat, nat, nat)>
    requires |t| == 10
  {
    if t[4] != '-' || t[7] != '-' then None
    else
      var y, mo, d := ParseDigits(t[..4]), ParseDigits(t[5..7]), ParseDigits(t[8..]);
      if y.None? || mo.None? || d.None? then None else Some((y.value, mo.value, d.value))
  }

  /** `t.find(c)`, with `|t|` for "not found". */
  function Find(t: string, c: char): (i: nat)
    ensures i <= |t| && (i < |t| ==> t[i] == c)
  {
    if t == [] || t[0] == c then 0 else 1 + Find(t[1..], c)
  }

  /** Where the offset of a time string starts: its first `-`, else its first `+`, else its end. */
  function OffsetStart(t: string): (i: nat)
    ensures i <= |t|
  {
    var minus := Find(t, '-');
    if minus < |t| then minus else Find(t, '+')
  }

  /** The `.fff` (milliseconds) or `.ffffff` (microseconds) digits, as microseconds. */
  function ParseFraction(f: string): Option<nat> {
    if |f| != 3 && |f| != 6 then None
    else
      match ParseDigits(f)
      case None => None
      case Some(v) => Some(if |f| == 3 then v * 1000 else v)
  }

  /** The whole of `t` as `HH[:MM[:SS[.fff|.ffffff]]]`: hour, minute, second and microsecond. */
  function ParseClock(t: string): Option<(nat, nat, nat, nat)> {
    if |t| < 2 then None
    else
      match ParseDigits(t[..2])
      case None => None
      case Some(h) =>
        if |t| == 2 then Some((h, 0, 0, 0))
        else if t[2] != ':' || |t| < 5 then None
        else
          match ParseDigits(t[3..5])
          case None => None
          case Some(mi) =>
            if |t| == 5 then Some((h, mi, 0, 0))
            else if t[5] != ':' || |t| < 8 then None
            else
              match ParseDigits(t[6..8])
              case None => None
              case Some(sec) =>
                if |t| == 8 then Some((h, mi, sec, 0))
                else if t[8] != '.' then None
                else
                  match ParseFraction(t[9..])
                  case None => None
                  case Some(us) => Some((h, mi, sec, us))
  }

  /** The optional `+HH:MM` / `-HH:MM` part, which must end the string. */
  function ParseOffset(tail: string): Option<Option<int>> {
    if tail == [] then Some(None)
    else if |tail| != 6 || (tail[0] != '+' && tail[0] != '-') || tail[3] != ':' then None
    else
      var hh, mm := ParseDigits(tail[1..3]), ParseDigits(tail[4..6]);
      if hh.None? || mm.None? then None
      else
        var total: int := hh.value * 60 + mm.value;
        if mm.value < 60 && total < 1440 then Some(Some(if tail[0] == '-' then -total else total))
        else None
  }

  function Checked(d: DateTime): (r: Option<DateTime>)
    ensures r.Some? ==> r.value.Valid()
  {
    if d.Valid() then Some(d) else None
  }

  /**
   * `datetime.fromisoformat(s)` for the forms `YYYY-MM-DD[*HH[:MM[:SS[.fff[fff]]]][+HH:MM]]`,
   * `*` being any one character; `None` stands for the `ValueError` it raises on anything else.
   */
  function FromIsoFormat(s: string): (r: Option<DateTime>)
    ensures r.Some? ==> r.value.Valid()
    ensures r.Some? ==> |s| >= 10 && ParseDate(s[..10]) == Some((r.value.year, r.value.month, r.value.day))
  {
    if |s| < 10 then None
    else
      match ParseDate(s[..10])
      case None => None
      case Some(date) => WithTime(date, s[10..])
  }

  /**
   * What follows the date: nothing, or a separator alone (midnight, naive); otherwise the
   * separator, the time up to the offset, and the offset.
   */
  function WithTime(date: (nat, nat, nat), rest: string): (r: Option<DateTime>)
    ensures r.Some? ==> r.value.Valid() && (r.value.year, r.value.month, r.value.day) == date
  {
    if |rest| <= 1 then Checked(DateTime(date.0, date.1, date.2, 0, 0, 0, 0, None))
    else
      var t := rest[1..];
      var i := OffsetStart(t);
      match ParseClock(t[..i])
      case None => None
      case Some(clock) =>
        match ParseOffset(t[i..])
        case None => None
        case Some(offset) =>
          Checked(DateTime(date.0, date.1, date.2, clock.0, clock.1, clock.2, clock.3, offset))
  }

  lemma {:induction false} OffsetRoundTrip(offset: Option<int>)
    requires offset.Some? ==> -1440 < offset.value < 1440
    ensures ParseOffset(OffsetText(offset)) == Some(offset)
  {
    if offset.Some? {
      var m := offset.value;
      var a := if m < 0 then -m else m;
      var t := OffsetText(offset);
      assert t[1..3] == Pad(a / 60, 2) && t[4..6] == Pad(a % 60, 2);
      Pow10Values();
      ParsePad(a / 60, 2);
      ParsePad(a % 60, 2);
    }
  }

  lemma {:induction false} Pow10Values()
    ensures Pow10(2) == 100 && Pow10(3) == 1000 && Pow10(4) == 10000 && Pow10(6) == 1_000_000
  {
    assert Pow10(1) == 10;
    assert Pow10(5) == 100_000;
  }

  /** The three parts of `a + [x] + b + [y] + c` can be read back by position. */
  lemma {:induction false} ThreeParts(a: string, x: char, b: string, y: char, c: string)
    ensures var t := a + [x] + b + [y] + c;
      t[..|a|] == a && t[|a|] == x && t[|a| + 1..|a| + 1 + |b|] == b
      && t[|a| + 1 + |b|] == y && t[|a| + 2 + |b|..] == c
  {
  }

  lemma {:induction false} DateRoundTrip(year: nat, month: nat, day: nat)
    requires year < 10000 && month < 100 && day < 100
    ensures ParseDate(DateText(year, month, day)) == Some((year, month, day))
  {
    ThreeParts(Pad(year, 4), '-', Pad(month, 2), '-', Pad(day, 2));
    Pow10Values();
    ParsePad(year, 4);
    ParsePad(month, 2);
    ParsePad(day, 2);
  }

  /** `find` skips a prefix that does not hold the character. */
  lemma {:induction false} FindAppend(a: string, b: string, c: char)
    requires forall k :: 0 <= k < |a| ==> a[k] != c
    ensures Find(a + b, c) == |a| + Find(b, c)
  {
    if a != [] {
      assert (a + b)[0] == a[0] != c;
      assert (a + b)[1..] == a[1..] + b;
      FindAppend(a[1..], b, c);
    } else {
      assert a + b == b;
    }
  }

  /** The offset of a time string `a + b` starts at `b` when `a` has no sign and `b` is an offset text. */
  lemma {:induction false} OffsetStartAt(a: string, offset: Option<int>)
    requires forall k :: 0 <= k < |a| ==> a[k] != '+' && a[k] != '-'
    ensures OffsetStart(a + OffsetText(offset)) == |a|
  {
    var b := OffsetText(offset);
    FindAppend(a, b, '-');
    FindAppend(a, b, '+');
    if offset.Some? {
      if offset.value >= 0 {
        assert b[0] == '+';
        forall k | 0 <= k < |b|
          ensures b[k] != '-'
        {
          assert k == 0 || b[k] == ':' || k in {1, 2} || k in {4, 5};
          if 1 <= k <= 2 {
            assert b[k] == Pad(offset.value / 60, 2)[k - 1];
          } else if 4 <= k {
            assert b[k] == Pad(offset.value % 60, 2)[k - 4];
          }
        }
        FindAppend(b, [], '-');
        assert b + [] == b;
      }
    }
  }

  /** `HH:MM:SS`, then `.ffffff` or nothing: digits, colons and one dot, no sign. */
  lemma {:induction false} ClockTextUnsigned(d: DateTime)
    requires d.Valid()
    ensures var a := TimeText(d.hour, d.minute, d.second) + FractionText(d.microsecond);
      forall k :: 0 <= k < |a| ==> a[k] != '+' && a[k] != '-'
  {
    var time := TimeText(d.hour, d.minute, d.second);
    var a := time + FractionText(d.microsecond);
    forall k | 0 <= k < |a|
      ensures a[k] != '+' && a[k] != '-'
    {
      if k < 8 {
        ThreeParts(Pad(d.hour, 2), ':', Pad(d.minute, 2), ':', Pad(d.second, 2));
        assert a[k] == time[k];
        if k < 2 {
          assert time[k] == Pad(d.hour, 2)[k];
        } else if 2 < k < 5 {
          assert time[k] == Pad(d.minute, 2)[k - 3];
        } else if 5 < k {
          assert time[k] == Pad(d.second, 2)[k - 6];
        }
      } else if k > 8 {
        assert a[k] == Pad(d.microsecond, 6)[k - 9];
      }
    }
  }

  /** `HH:MM:SS` and the optional `.ffffff` read back as the clock fields. */
  lemma {:induction false} ClockRoundTrip(d: DateTime)
    requires d.Valid()
    ensures ParseClock(TimeText(d.hour, d.minute, d.second) + FractionText(d.microsecond))
         == Some((d.hour, d.minute, d.second, d.microsecond))
  {
    var t := TimeText(d.hour, d.minute, d.second) + FractionText(d.microsecond);
    ThreeParts(Pad(d.hour, 2), ':', Pad(d.minute, 2), ':', Pad(d.second, 2));
    assert t[..2] == Pad(d.hour, 2) && t[3..5] == Pad(d.minute, 2) && t[6..8] == Pad(d.second, 2);
    Pow10Values();
    ParsePad(d.hour, 2);
    ParsePad(d.minute, 2);
    ParsePad(d.second, 2);
    if d.microsecond != 0 {
      assert t[9..] == Pad(d.microsecond, 6);
      ParsePad(d.microsecond, 6);
    }
  }

  lemma {:induction false} TimeRestRoundTrip(d: DateTime, sep: char)
    requires d.Valid()
    ensures WithTime((d.year, d.month, d.day), TimeRest(d, sep)) == Some(d)
  {
    var rest := TimeRest(d, sep);
    var a := TimeText(d.hour, d.minute, d.second) + FractionText(d.microsecond);
    var t := rest[1..];
    assert t == a + OffsetText(d.utcOffset);
    ClockTextUnsigned(d);
    OffsetStartAt(a, d.utcOffset);
    assert t[..|a|] == a && t[|a|..] == OffsetText(d.utcOffset);
    ClockRoundTrip(d);
    OffsetRoundTrip(d.utcOffset);
  }

  /** Reading back what `isoformat(sep)` wrote gives the same `datetime`, whatever the separator. */
  lemma {:induction false} IsoFormatSepRoundTrip(d: DateTime, sep: char)
    requires d.Valid()
    ensures FromIsoFormat(IsoFormatSep(d, sep)) == Some(d)
  {
    var s := IsoFormatSep(d, sep);
    assert s[..10] == DateText(d.year, d.month, d.day);
    assert s[10..] == TimeRest(d, sep);
    DateRoundTrip(d.year, d.month, d.day);
    TimeRestRoundTrip(d, sep);
  }

  /** Reading back what `isoformat()` wrote gives the same `datetime`. */
  lemma {:induction false} IsoFormatRoundTrip(d: DateTime)
    requires d.Valid()
    ensures FromIsoFormat(IsoFormat(d)) == Some(d)
  {
    IsoFormatSepRoundTrip(d, 'T');
  }

  /** A bare date reads as naive midnight of that day. */
  lemma {:induction false} DateOnly(year: nat, month: nat, day: nat)
    requires year < 10000 && month < 100 && day < 100
    ensures FromIsoFormat(DateText(year, month, day)) == Checked(DateTime(year, month, day, 0, 0, 0, 0, None))
  {
    var s := DateText(year, month, day);
    assert s[..10] == s && s[10..] == [];
    DateRoundTrip(year, month, day);
  }

  /** A time without an offset: the clock text alone decides. */
  lemma {:induction false} WithTimeNaive(date: (nat, nat, nat), sep: char, clock: string)
    requires clock != [] && forall k :: 0 <= k < |clock| ==> clock[k] != '+' && clock[k] != '-'
    ensures WithTime(date, [sep] + clock)
         == match ParseClock(clock)
            case None => None
            case Some(c) => Checked(DateTime(date.0, date.1, date.2, c.0, c.1, c.2, c.3, None))
  {
    OffsetStartAt(clock, None);
    assert clock + OffsetText(None) == clock;
    assert ([sep] + clock)[1..] == clock;
    assert clock[..|clock|] == clock && clock[|clock|..] == [];
  }

  /** `HH:MM` reads as that hour and minute with zero seconds. */
  lemma {:induction false} MinuteClock(hour: nat, minute: nat)
    requires hour < 100 && minute < 100
    ensures var clock := Pad(hour, 2) + [':'] + Pad(minute, 2);
      ParseClock(clock) == Some((hour, minute, 0, 0))
      && forall k :: 0 <= k < |clock| ==> clock[k] != '+' && clock[k] != '-'
  {
    var clock := Pad(hour, 2) + [':'] + Pad(minute, 2);
    assert clock[..2] == Pad(hour, 2) && clock[2] == ':' && clock[3..5] == Pad(minute, 2);
    forall k | 0 <= k < |clock|
      ensures clock[k] != '+' && clock[k] != '-'
    {
      if k < 2 {
        assert clock[k] == Pad(hour, 2)[k];
      } else if k > 2 {
        assert clock[k] == Pad(minute, 2)[k - 3];
      }
    }
    Pow10Values();
    ParsePad(hour, 2);
    ParsePad(minute, 2);
  }

  /** `YYYY-MM-DD*HH:MM` reads as a naive time with zero seconds, whatever the separator. */
  lemma {:induction false} MinutePrecision(year: nat, month: nat, day: nat, sep: char, hour: nat, minute: nat)
    requires year < 10000 && month < 100 && day < 100 && hour < 100 && minute < 100
    ensures FromIsoFormat(DateText(year, month, day) + [sep] + Pad(hour, 2) + [':'] + Pad(minute, 2))
         == Checked(DateTime(year, month, day, hour, minute, 0, 0, None))
  {
    var clock := Pad(hour, 2) + [':'] + Pad(minute, 2);
    var s := DateText(year, month, day) + [sep] + clock;
    assert s == DateText(year, month, day) + [sep] + Pad(hour, 2) + [':'] + Pad(minute, 2);
    assert s[..10] == DateText(year, month, day) && s[10..] == [sep] + clock;
    DateRoundTrip(year, month, day);
    MinuteClock(hour, minute);
    WithTimeNaive((year, month, day), sep, clock);
  }

  /** A three-digit fraction `.fff` counts milliseconds. */
  lemma {:induction false} MillisecondFraction(ms: nat)
    requires ms < 1000
    ensures ParseFraction(Pad(ms, 3)) == Some(ms * 1000)
  {
    Pow10Values();
    ParsePad(ms, 3);
  }

  /** Days before year `y` in the proleptic Gregorian calendar. */
  function DaysBeforeYear(y: int): int
    requires y >= 1
  {
    var p := y - 1;
    p * 365 + p / 4 - p / 100 + p / 400
  }

  function DaysBeforeMonth(y: int, m: int): int
    requires 1 <= m <= 12
  {
    if m == 1 then 0 else DaysBeforeMonth(y, m - 1) + DaysInMonth(y, m - 1)
  }

  /** `d.toordinal()`: 1 for 0001-01-01. */
  function Ordinal(d: DateTime): int
    requires d.Valid()
  {
    DaysBeforeYear(d.year) + DaysBeforeMonth(d.year, d.month) + d.day
  }

  const MicrosPerDay: int := 86_400_000_000

  /** The instant of an aware `datetime`, in microseconds of UTC since the ordinal epoch. */
  function UtcMicros(d: DateTime): int
    requires d.Valid() && d.utcOffset.Some?
  {
    Ordinal(d) * MicrosPerDay
    + ((d.hour * 60 + d.minute - d.utcOffset.value) * 60 + d.second) * 1_000_000
    + d.microsecond
  }
}
