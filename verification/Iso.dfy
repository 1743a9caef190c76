/** Timestamps as the program prints and reads them: `datetime.isoformat()` and the
    part of `datetime.fromisoformat` that reads that text back. */
module Iso {
  import opened Common

  /** `aware` tells a UTC-aware value (printed with "+00:00") from a naive one. */
  datatype Stamp = Stamp(year: nat, month: nat, day: nat, hour: nat, minute: nat,
                         second: nat, micro: nat, aware: bool) {
    predicate Valid() {
      && 1 <= year < 10000 && 1 <= month <= 12 && 1 <= day <= DaysIn(year, month)
      && hour < 24 && minute < 60 && second < 60 && micro < 1000000
    }

    /** Position on the time line; two valid stamps compare as these numbers do. */
    function Ticks(): nat {
      (((((year * 13 + month) * 32 + day) * 24 + hour) * 60 + minute) * 60 + second) * 1000000 + micro
    }
  }

  function DaysIn(year: nat, month: nat): (d: nat)
    ensures d <= 31
  {
    if month in {4, 6, 9, 11} then 30
    else if month != 2 then 31
    else if year % 4 == 0 && (year % 100 != 0 || year % 400 == 0) then 29
    else 28
  }

  /** The Gregorian calendar: long and short months, and February by the leap-year rule. */
  lemma DaysPerYear(year: nat)
    ensures DaysIn(year, 1) == DaysIn(year, 3) == DaysIn(year, 5) == DaysIn(year, 7) == 31
    ensures DaysIn(year, 8) == DaysIn(year, 10) == DaysIn(year, 12) == 31
    ensures DaysIn(year, 4) == DaysIn(year, 6) == DaysIn(year, 9) == DaysIn(year, 11) == 30
    ensures DaysIn(year, 2) == 28 || DaysIn(year, 2) == 29
    ensures DaysIn(2023, 2) == 28 && DaysIn(2024, 2) == 29 && DaysIn(1900, 2) == 28 && DaysIn(2000, 2) == 29
    ensures DaysIn(year + 400, 2) == DaysIn(year, 2)
  {
  }

  /** The calendar order of two stamps: the first field in which they differ decides. */
  predicate Earlier(s: Stamp, t: Stamp) {
    if s.year != t.year then s.year < t.year
    else if s.month != t.month then s.month < t.month
    else if s.day != t.day then s.day < t.day
    else if s.hour != t.hour then s.hour < t.hour
    else if s.minute != t.minute then s.minute < t.minute
    else if s.second != t.second then s.second < t.second
    else s.micro < t.micro
  }

  /** The same moment, whether or not it carries the UTC offset. */
  predicate SameInstant(s: Stamp, t: Stamp) {
    s.(aware := true) == t.(aware := true)
  }

  /** Ticks order valid stamps as the calendar does. */
  lemma TicksOrder(s: Stamp, t: Stamp)
    requires s.Valid() && t.Valid()
    ensures s.Ticks() < t.Ticks() <==> Earlier(s, t)
    ensures s.Ticks() == t.Ticks() <==> SameInstant(s, t)
  {
  }

  function Pow10(n: nat): nat {
    if n == 0 then 1 else 10 * Pow10(n - 1)
  }

  predicate IsDigit(c: char) { '0' <= c <= '9' }

  function Digit(n: nat): (c: char)
    requires n < 10
    ensures IsDigit(c) && c as int - '0' as int == n
  {
    n as char + '0'
  }

  /** `n` in decimal, padded on the left with zeros to exactly `width` places. */
  function Padded(n: nat, width: nat): (s: string)
    ensures |s| == width
    ensures forall i :: 0 <= i < |s| ==> IsDigit(s[i])
  {
    if width == 0 then "" else Padded(n / 10, width - 1) + [Digit(n % 10)]
  }

  function ReadNat(s: string): Option<nat> {
    if s == "" then Some(0)
    else if !IsDigit(s[|s| - 1]) then None
    else match ReadNat(s[..|s| - 1])
      case None => None
      case Some(n) => Some(10 * n + (s[|s| - 1] as int - '0' as int))
  }

  lemma {:induction false} ReadPadded(n: nat, width: nat)
    requires n < Pow10(width)
    ensures ReadNat(Padded(n, width)) == Some(n)
  {
    if width > 0 {
      ReadPadded(n / 10, width - 1);
      var s := Padded(n, width);
      assert s[..|s| - 1] == Padded(n / 10, width - 1);
    }
  }

  /** `isoformat()`: the fraction is printed only when it is not zero. */
  function IsoFormat(s: Stamp): string {
    DateText(s) + TimeText(s) + MicroText(s) + (if s.aware then "+00:00" else "")
  }

  /** Two printed stamps, character by character. */
  lemma IsoTexts()
    ensures IsoFormat(Stamp(2026, 1, 23, 4, 56, 7, 0, true)) == "2026-01-23T04:56:07+00:00"
    ensures IsoFormat(Stamp(2026, 1, 23, 4, 56, 7, 890, false)) == "2026-01-23T04:56:07.000890"
  {
    hide DateText, TimeText, Padded;
    var s := Stamp(2026, 1, 23, 4, 56, 7, 0, true);
    DateTextIs(s);
    TimeTextIs(s);
    DateTextIs(s.(micro := 890, aware := false));
    TimeTextIs(s.(micro := 890, aware := false));
    PaddedMicro();
  }

  lemma DateTextIs(s: Stamp)
    requires s.year == 2026 && s.month == 1 && s.day == 23
    ensures DateText(s) == "2026-01-23T"
  {
    PaddedPair(0, 1);
    PaddedPair(2, 3);
    assert Padded(202, 3) == "202" by { PaddedPair(2, 0); }
  }

  lemma TimeTextIs(s: Stamp)
    requires s.hour == 4 && s.minute == 56 && s.second == 7
    ensures TimeText(s) == "04:56:07"
  {
    PaddedPair(0, 4);
    PaddedPair(5, 6);
    PaddedPair(0, 7);
  }

  lemma PaddedPair(a: nat, b: nat)
    requires a < 10 && b < 10
    ensures Padded(10 * a + b, 2) == [Digit(a), Digit(b)]
  {
    hide Padded;
    PaddedStep(0, a, 0);
    PaddedStep(a, b, 1);
    PaddedNone(0);
  }

  lemma PaddedStep(n: nat, d: nat, width: nat)
    requires d < 10
    ensures Padded(10 * n + d, width + 1) == Padded(n, width) + [Digit(d)]
  {
    assert (10 * n + d) / 10 == n && (10 * n + d) % 10 == d;
  }

  lemma PaddedNone(n: nat)
    ensures Padded(n, 0) == ""
  {
  }

  lemma PaddedMicro()
    ensures Padded(890, 6) == "000890"
  {
    assert Padded(8, 4) == "0008" by { assert Padded(0, 3) == "000" by { PaddedPair(0, 0); } }
    assert Padded(89, 5) == "00089";
  }

  function MicroText(s: Stamp): string {
    if s.micro == 0 then "" else "." + Padded(s.micro, 6)
  }

  function DateText(s: Stamp): (t: string)
    ensures |t| == 11
  {
    Padded(s.year, 4) + "-" + Padded(s.month, 2) + "-" + Padded(s.day, 2) + "T"
  }

  function TimeText(s: Stamp): (t: string)
    ensures |t| == 8
  {
    Padded(s.hour, 2) + ":" + Padded(s.minute, 2) + ":" + Padded(s.second, 2)
  }

  function ReadDate(t: string): Option<(nat, nat, nat)>
    requires |t| == 11
  {
    if t[4] != '-' || t[7] != '-' || t[10] != 'T' then None
    else match (ReadNat(t[0..4]), ReadNat(t[5..7]), ReadNat(t[8..10]))
      case (Some(y), Some(m), Some(d)) => Some((y, m, d))
      case _ => None
  }

  function ReadTime(t: string): Option<(nat, nat, nat)>
    requires |t| == 8
  {
    if t[2] != ':' || t[5] != ':' then None
    else match (ReadNat(t[0..2]), ReadNat(t[3..5]), ReadNat(t[6..8]))
      case (Some(h), Some(m), Some(s)) => Some((h, m, s))
      case _ => None
  }

  /** The optional fraction: nothing, or a point and exactly six digits. */
  function ReadMicro(t: string): Option<nat> {
    if t == "" then Some(0)
    else if |t| != 7 || t[0] != '.' then None
    else ReadNat(t[1..])
  }

  /** `fromisoformat` on the layouts that `isoformat` prints. */
  function FromIso(t: string): (r: Option<Stamp>)
    ensures r.Some? ==> r.value.Valid()
  {
    FromBody(StripOffset(t), HasOffset(t))
  }

  predicate HasOffset(t: string) {
    |t| >= 6 && t[|t| - 6..] == "+00:00"
  }

  function StripOffset(t: string): string {
    if HasOffset(t) then t[..|t| - 6] else t
  }

  function FromBody(body: string, aware: bool): (r: Option<Stamp>)
    ensures r.Some? ==> r.value.Valid()
  {
    if |body| < 19 then None
    else
      match (ReadDate(body[..11]), ReadTime(body[11..19]), ReadMicro(body[19..]))
      case (Some(d), Some(t), Some(us)) =>
        var s := Stamp(d.0, d.1, d.2, t.0, t.1, t.2, us, aware);
        if s.Valid() then Some(s) else None
      case _ => None
  }

  lemma DateRoundTrip(s: Stamp)
    requires s.Valid()
    ensures ReadDate(DateText(s)) == Some((s.year, s.month, s.day))
  {
    assert Pow10(2) == 100 && Pow10(4) == 10000;
    ReadPadded(s.year, 4);
    ReadPadded(s.month, 2);
    ReadPadded(s.day, 2);
    var t := DateText(s);
    assert t[0..4] == Padded(s.year, 4);
    assert t[5..7] == Padded(s.month, 2);
    assert t[8..10] == Padded(s.day, 2);
  }

  lemma TimeRoundTrip(s: Stamp)
    requires s.Valid()
    ensures ReadTime(TimeText(s)) == Some((s.hour, s.minute, s.second))
  {
    assert Pow10(2) == 100;
    ReadPadded(s.hour, 2);
    ReadPadded(s.minute, 2);
    ReadPadded(s.second, 2);
    var t := TimeText(s);
    assert t[0..2] == Padded(s.hour, 2);
    assert t[3..5] == Padded(s.minute, 2);
    assert t[6..8] == Padded(s.second, 2);
  }

  lemma MicroRoundTrip(s: Stamp)
    requires s.Valid()
    ensures ReadMicro(MicroText(s)) == Some(s.micro)
  {
    assert Pow10(6) == 1000000 by { assert Pow10(3) == 1000; }
    ReadPadded(s.micro, 6);
  }

  lemma Slices(d: string, t: string, m: string)
    requires |d| == 11 && |t| == 8
    ensures (d + t + m)[..11] == d && (d + t + m)[11..19] == t && (d + t + m)[19..] == m
  {
  }

  lemma BodyRoundTrip(s: Stamp)
    requires s.Valid()
    ensures FromBody(DateText(s) + TimeText(s) + MicroText(s), s.aware) == Some(s)
  {
    Slices(DateText(s), TimeText(s), MicroText(s));
    DateRoundTrip(s);
    TimeRoundTrip(s);
    MicroRoundTrip(s);
  }

  /** Every valid stamp is read back from its own text. */
  lemma IsoRoundTrip(s: Stamp)
    requires s.Valid()
    ensures FromIso(IsoFormat(s)) == Some(s)
  {
    IsoTail(s);
    BodyRoundTrip(s);
  }

  /** The "+00:00" suffix is present exactly on aware stamps. */
  lemma IsoTail(s: Stamp)
    ensures HasOffset(IsoFormat(s)) <==> s.aware
    ensures StripOffset(IsoFormat(s)) == DateText(s) + TimeText(s) + MicroText(s)
  {
    var t := IsoFormat(s);
    var body := DateText(s) + TimeText(s) + MicroText(s);
    if s.aware {
      assert t[|t| - 6..] == "+00:00";
      assert t[..|t| - 6] == body;
    } else {
      assert t == body;
      assert t[|t| - 6..][0] != '+' by {
        if s.micro == 0 {
          assert t[|t| - 6] == TimeText(s)[2] == ':';
        } else {
          assert t[|t| - 6] == MicroText(s)[1];
        }
      }
    }
  }

  lemma {:induction false} PaddedOfRead(t: string)
    requires ReadNat(t).Some?
    ensures Padded(ReadNat(t).value, |t|) == t
  {
    if t != "" {
      var init, c := t[..|t| - 1], t[|t| - 1];
      PaddedOfRead(init);
      PaddedStep(ReadNat(init).value, c as int - '0' as int, |init|);
      assert t == init + [c];
    } else {
      PaddedNone(0);
    }
  }

  lemma DateOfRead(t: string)
    requires |t| == 11 && ReadDate(t).Some?
    ensures var (y, m, d) := ReadDate(t).value;
            t == Padded(y, 4) + "-" + Padded(m, 2) + "-" + Padded(d, 2) + "T"
  {
    hide Padded, ReadNat;
    PaddedOfRead(t[0..4]);
    PaddedOfRead(t[5..7]);
    PaddedOfRead(t[8..10]);
    assert t == t[0..4] + "-" + t[5..7] + "-" + t[8..10] + "T";
  }

  lemma TimeOfRead(t: string)
    requires |t| == 8 && ReadTime(t).Some?
    ensures var (h, m, s) := ReadTime(t).value;
            t == Padded(h, 2) + ":" + Padded(m, 2) + ":" + Padded(s, 2)
  {
    hide Padded, ReadNat;
    PaddedOfRead(t[0..2]);
    PaddedOfRead(t[3..5]);
    PaddedOfRead(t[6..8]);
    assert t == t[0..2] + ":" + t[3..5] + ":" + t[6..8];
  }

  lemma MicroOfRead(t: string)
    requires ReadMicro(t).Some?
    ensures if t == "" then ReadMicro(t).value == 0 else t == "." + Padded(ReadMicro(t).value, 6)
  {
    hide Padded, ReadNat;
    if t != "" {
      PaddedOfRead(t[1..]);
      assert t == "." + t[1..];
    }
  }

  /** Nothing else is read: a text that is read as a stamp is that stamp's own text, or has it
      with a fraction of six zeros. */
  lemma ReadIsExact(t: string)
    requires FromIso(t).Some?
    ensures var s := FromIso(t).value;
            var offset := if s.aware then "+00:00" else "";
            t == IsoFormat(s) || (s.micro == 0 && t == DateText(s) + TimeText(s) + "." + Padded(0, 6) + offset)
  {
    hide Padded, ReadNat, ReadDate, ReadTime, ReadMicro;
    var body := StripOffset(t);
    DateOfRead(body[..11]);
    TimeOfRead(body[11..19]);
    MicroOfRead(body[19..]);
    var s := FromIso(t).value;
    assert body == body[..11] + body[11..19] + body[19..];
    assert body[..11] == DateText(s) && body[11..19] == TimeText(s);
    if HasOffset(t) { assert t == t[..|t| - 6] + t[|t| - 6..]; }
  }

  /** The first and the last moment that a stamp can name, and none beyond. */
  lemma ValidRange(y: nat, aware: bool)
    requires 1 <= y <= 9999
    ensures Stamp(y, 1, 1, 0, 0, 0, 0, aware).Valid() && Stamp(y, 12, 31, 23, 59, 59, 999999, aware).Valid()
    ensures Stamp(2024, 2, 29, 0, 0, 0, 0, aware).Valid() && !Stamp(2023, 2, 29, 0, 0, 0, 0, aware).Valid()
    ensures !Stamp(y, 0, 1, 0, 0, 0, 0, aware).Valid() && !Stamp(y, 13, 1, 0, 0, 0, 0, aware).Valid()
    ensures !Stamp(y, 1, 0, 0, 0, 0, 0, aware).Valid() && !Stamp(y, 4, 31, 0, 0, 0, 0, aware).Valid()
    ensures !Stamp(y, 1, 1, 24, 0, 0, 0, aware).Valid() && !Stamp(y, 1, 1, 0, 60, 0, 0, aware).Valid()
    ensures !Stamp(y, 1, 1, 0, 0, 60, 0, aware).Valid() && !Stamp(y, 1, 1, 0, 0, 0, 1000000, aware).Valid()
    ensures !Stamp(0, 1, 1, 0, 0, 0, 0, aware).Valid() && !Stamp(10000, 1, 1, 0, 0, 0, 0, aware).Valid()
  {
  }

  /** No printed stamp contains a comma, so the cursor's first comma ends the date. */
  lemma IsoHasNoComma(s: Stamp)
    ensures ',' !in IsoFormat(s)
  {
    forall c | c in DateText(s) ensures c != ',' {}
    forall c | c in TimeText(s) ensures c != ',' {}
  }
}
