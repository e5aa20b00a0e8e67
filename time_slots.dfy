/**
 * The booking calendar's time-slot labels (`generateTimeSlots` in
 * components/BookingCalendar.tsx): for every hour `h` from `start` up to
 * but excluding `end`, four 15-minute labels of the form "h:mm AM/PM".
 */
module TimeSlots {
  import opened Wrappers
  import opened JsValues

  /** The slots the calendar shows by default: from 11 AM up to 8 PM. */
  const DefaultStart := 11
  const DefaultEnd := 20

  /** The hour on a 12-hour clock face, `h % 12 || 12`. */
  function Hour12(h: int): int
  {
    var x := Rem(h, 12);
    // JavaScript's `-0` is falsy like `0`, so both select 12
    if x == 0 then 12 else x
  }

  /**
   * The clock hour is 12 exactly at the multiples of 12 (midnight and
   * noon); for hours of a day it lies in 1..12 and agrees with the hour
   * modulo 12.
   */
  lemma ClockHour(h: int)
    ensures Hour12(h) == 12 <==> h % 12 == 0
    ensures h >= 0 ==> 1 <= Hour12(h) <= 12 && Hour12(h) % 12 == h % 12
    ensures h < 0 ==> -11 <= Hour12(h) <= 12
  {
    if h < 0 {
      if h % 12 == 0 {
        assert -h == 12 * (-(h / 12));
      }
      if (-h) % 12 == 0 {
        assert h == 12 * (-((-h) / 12));
      }
    }
  }

  /** "AM" before noon, "PM" from noon on. */
  function Meridiem(h: int): string
  {
    if h < 12 then "AM" else "PM"
  }

  /** `m.toString().padStart(2, "0")`. */
  function MinuteText(m: int): string
  {
    PadStart(IntToString(m), 2, '0')
  }

  /** The template `${hour12}:${minutes} ${ampm}`. */
  function FormatLabel(hour12: int, minutes: string, ampm: string): string
  {
    IntToString(hour12) + ":" + minutes + " " + ampm
  }

  /** The label of the slot that starts `m` minutes after hour `h`. */
  function SlotLabel(h: int, m: int): string
  {
    FormatLabel(Hour12(h), MinuteText(m), Meridiem(h))
  }

  /** The labels of the first `count` quarter hours of hour `h`. */
  function QuarterLabels(h: int, count: nat): seq<string>
  {
    seq(count, k => SlotLabel(h, 15 * k))
  }

  lemma QuarterLabelsNext(h: int, k: nat)
    ensures QuarterLabels(h, k + 1) == QuarterLabels(h, k) + [SlotLabel(h, 15 * k)]
  {
    var a, b := QuarterLabels(h, k + 1), QuarterLabels(h, k) + [SlotLabel(h, 15 * k)];
    forall i | 0 <= i < k + 1
      ensures a[i] == b[i]
    {
    }
  }

  /** The labels `generateTimeSlots(start, end)` returns, hour by hour. */
  function SlotLabels(start: int, end: int): seq<string>
    decreases end - start
  {
    if end <= start then [] else SlotLabels(start, end - 1) + QuarterLabels(end - 1, 4)
  }

  lemma SlotLabelsNext(start: int, h: int)
    requires start <= h
    ensures SlotLabels(start, h + 1) == SlotLabels(start, h) + QuarterLabels(h, 4)
  {
  }

  /** `generateTimeSlots`: two nested loops that push one label per quarter hour. */
  method GenerateTimeSlots(start: int, end: int) returns (slots: seq<string>)
    ensures slots == SlotLabels(start, end)
  {
    slots := [];
    var h := start;
    while h < end
      invariant start <= h && (h <= end || h == start)
      invariant slots == SlotLabels(start, h)
    {
      var m := 0;
      ghost var k := 0;
      ghost var done := slots;
      assert QuarterLabels(h, 0) == [];
      while m < 60
        invariant 0 <= k <= 4 && m == 15 * k
        invariant slots == done + QuarterLabels(h, k)
      {
        var hour12 := Hour12(h);
        var ampm := Meridiem(h);
        var text := FormatLabel(hour12, MinuteText(m), ampm);
        QuarterLabelsNext(h, k);
        assert text == SlotLabel(h, 15 * k);
        slots := slots + [text];
        m, k := m + 15, k + 1;
      }
      SlotLabelsNext(start, h);
      h := h + 1;
    }
  }

  /** There are four labels per hour of the range, and none for an empty range. */
  lemma {:induction false} SlotCount(start: int, end: int)
    ensures |SlotLabels(start, end)| == if start < end then 4 * (end - start) else 0
    decreases end - start
  {
    if start < end {
      SlotCount(start, end - 1);
    }
  }

  /** The label at index `4 * (h - start) + k` is the one for hour `h` and minute `15 * k`. */
  lemma {:induction false} SlotAt(start: int, end: int, h: int, k: int)
    requires start <= h < end && 0 <= k < 4
    ensures 4 * (h - start) + k < |SlotLabels(start, end)|
    ensures SlotLabels(start, end)[4 * (h - start) + k] == SlotLabel(h, 15 * k)
    decreases end - start
  {
    SlotCount(start, end);
    SlotCount(start, end - 1);
    var before := SlotLabels(start, end - 1);
    assert SlotLabels(start, end) == before + QuarterLabels(end - 1, 4);
    if h < end - 1 {
      SlotAt(start, end - 1, h, k);
    } else {
      assert 4 * (h - start) + k == |before| + k;
    }
  }

  /** Every index of the generated labels: slot `i` starts `15 * i` minutes after `start` o'clock. */
  lemma SlotIndex(start: int, end: int, i: int)
    requires 0 <= i < |SlotLabels(start, end)|
    ensures start < end && start <= start + i / 4 < end
    ensures SlotLabels(start, end)[i] == SlotLabel(start + i / 4, 15 * (i % 4))
    ensures 60 * (start + i / 4) + 15 * (i % 4) == 60 * start + 15 * i
  {
    SlotCount(start, end);
    SlotAt(start, end, start + i / 4, i % 4);
  }

  /** The minute part of a slot label: always two digits. */
  lemma MinuteTexts(k: int)
    requires 0 <= k < 4
    ensures MinuteText(15 * k) == ["00", "15", "30", "45"][k]
  {
    var s := IntToString(15 * k);
    if k == 0 {
      assert s == "0";
    } else {
      assert NatToString(15 * k / 10) == [DigitChar(15 * k / 10)];
      assert s == [DigitChar(15 * k / 10), DigitChar(15 * k % 10)];
    }
  }

  /**
   * The shape of every slot label: the clock hour, a colon, two minute
   * digits (00, 15, 30 or 45), a space and "AM" exactly before noon,
   * otherwise "PM".
   */
  lemma SlotLabelShape(h: int, k: int)
    requires 0 <= k < 4
    ensures var l := SlotLabel(h, 15 * k);
      |l| >= 7 &&
      l[..|l| - 6] == IntToString(Hour12(h)) &&
      l[|l| - 6] == ':' &&
      l[|l| - 5..|l| - 3] == ["00", "15", "30", "45"][k] &&
      l[|l| - 3] == ' ' &&
      (l[|l| - 2..] == "AM" <==> h < 12) &&
      (l[|l| - 2..] == "PM" <==> h >= 12)
  {
    MinuteTexts(k);
    var l := SlotLabel(h, 15 * k);
    var hh := IntToString(Hour12(h));
    IntToStringSign(Hour12(h));
    var mm := MinuteText(15 * k);
    assert l == hh + [':'] + mm + [' '] + Meridiem(h);
    assert l[..|l| - 6] == hh;
    assert l[|l| - 5..|l| - 3] == mm;
    assert l[|l| - 2..] == Meridiem(h);
  }

  /**
   * Reads a label "h:mm AM" or "h:mm PM" back as minutes after midnight;
   * None when the text is not such a label.
   */
  function ParseLabel(l: string): Option<int>
  {
    if |l| < 7 || l[|l| - 6] != ':' || l[|l| - 3] != ' ' then None
    else ReadClock(l[..|l| - 6], l[|l| - 5..|l| - 3], l[|l| - 2..])
  }

  /** The time of day that a clock hour, two minute digits and "AM"/"PM" name. */
  function ReadClock(hourText: string, minuteText: string, suffix: string): Option<int>
  {
    if !AllDigits(hourText) || !AllDigits(minuteText) || (suffix != "AM" && suffix != "PM") then None
    else
      var hour12 := ParseNat(hourText);
      var minute := ParseNat(minuteText);
      if hour12 < 1 || 12 < hour12 || 60 <= minute then None
      else Some(60 * (hour12 % 12 + if suffix == "PM" then 12 else 0) + minute)
  }

  /** A label assembled by the template reads back as the time of day it spells. */
  lemma ParseFormatted(hour12: int, minutes: string, ampm: string, time: int)
    requires 1 <= hour12 <= 12 && |minutes| == 2 && AllDigits(minutes) && ParseNat(minutes) < 60
    requires ampm == "AM" || ampm == "PM"
    requires time == 60 * (hour12 % 12 + if ampm == "PM" then 12 else 0) + ParseNat(minutes)
    ensures ParseLabel(FormatLabel(hour12, minutes, ampm)) == Some(time)
  {
    FormatLabelParts(hour12, minutes, ampm);
    ReadClockValue(hour12, minutes, ampm);
  }

  /** Where the template puts the hour, the colon, the minutes, the space and the suffix. */
  lemma FormatLabelParts(hour12: int, minutes: string, ampm: string)
    requires |minutes| == 2 && |ampm| == 2
    ensures var l := FormatLabel(hour12, minutes, ampm);
      |l| >= 7 && l[|l| - 6] == ':' && l[|l| - 3] == ' ' &&
      l[..|l| - 6] == IntToString(hour12) && l[|l| - 5..|l| - 3] == minutes && l[|l| - 2..] == ampm
  {
    var l := FormatLabel(hour12, minutes, ampm);
    IntToStringSign(hour12);
    assert l == IntToString(hour12) + [':'] + minutes + [' '] + ampm;
  }

  /** The clock reading of a valid hour, minute digits and suffix. */
  lemma ReadClockValue(hour12: int, minutes: string, ampm: string)
    requires 1 <= hour12 <= 12 && |minutes| == 2 && AllDigits(minutes) && ParseNat(minutes) < 60
    requires ampm == "AM" || ampm == "PM"
    ensures ReadClock(IntToString(hour12), minutes, ampm)
         == Some(60 * (hour12 % 12 + if ampm == "PM" then 12 else 0) + ParseNat(minutes))
  {
    ParseNatToString(hour12);
  }

  /** Within a day, the label of hour `h` and minute `15 * k` denotes exactly that time of day. */
  lemma SlotLabelDenotes(h: int, k: int)
    requires 0 <= h < 24 && 0 <= k < 4
    ensures ParseLabel(SlotLabel(h, 15 * k)) == Some(60 * h + 15 * k)
  {
    var hour12, mm, ampm := Hour12(h), MinuteText(15 * k), Meridiem(h);
    ClockHourOfDay(h);
    MinuteDigits(k, mm);
    ParseFormatted(hour12, mm, ampm, 60 * h + 15 * k);
    assert SlotLabel(h, 15 * k) == FormatLabel(hour12, mm, ampm);
  }

  /** Within a day, the clock hour and the suffix together give back the hour of the day. */
  lemma ClockHourOfDay(h: int)
    requires 0 <= h < 24
    ensures 1 <= Hour12(h) <= 12
    ensures Hour12(h) % 12 + (if Meridiem(h) == "PM" then 12 else 0) == h
  {
    ClockHour(h);
    assert h % 12 == if h < 12 then h else h - 12;
  }

  /** The two minute digits of a slot label denote its minute. */
  lemma MinuteDigits(k: int, mm: string)
    requires 0 <= k < 4 && mm == MinuteText(15 * k)
    ensures |mm| == 2 && AllDigits(mm) && ParseNat(mm) == 15 * k
  {
    MinuteTexts(k);
    ParseTwoDigits(mm);
  }

  /**
   * Within a day, the generated labels are in strictly chronological
   * order: label `i` denotes `start` o'clock plus `15 * i` minutes.
   */
  lemma SlotsChronological(start: int, end: int, i: int, j: int)
    requires 0 <= start && end <= 24
    requires 0 <= i < j < |SlotLabels(start, end)|
    ensures ParseLabel(SlotLabels(start, end)[i]) == Some(60 * start + 15 * i)
    ensures ParseLabel(SlotLabels(start, end)[j]) == Some(60 * start + 15 * j)
    ensures ParseLabel(SlotLabels(start, end)[i]).value < ParseLabel(SlotLabels(start, end)[j]).value
  {
    SlotTime(start, end, i);
    SlotTime(start, end, j);
  }

  /** Within a day, label `i` denotes `start` o'clock plus `15 * i` minutes. */
  lemma SlotTime(start: int, end: int, i: int)
    requires 0 <= start && end <= 24
    requires 0 <= i < |SlotLabels(start, end)|
    ensures ParseLabel(SlotLabels(start, end)[i]) == Some(60 * start + 15 * i)
  {
    SlotIndex(start, end, i);
    QuarterHourDenotes(start, i);
  }

  /** The label of the `i`-th quarter hour after `start` o'clock denotes that time of day. */
  lemma QuarterHourDenotes(start: int, i: int)
    requires 0 <= start && 0 <= i && start + i / 4 < 24
    ensures ParseLabel(SlotLabel(start + i / 4, 15 * (i % 4))) == Some(60 * start + 15 * i)
  {
    SlotLabelDenotes(start + i / 4, i % 4);
  }

  /** Within a day, no two slots share a label, so each label identifies its slot. */
  lemma SlotsDistinct(start: int, end: int, i: int, j: int)
    requires 0 <= start && end <= 24
    requires 0 <= i < |SlotLabels(start, end)| && 0 <= j < |SlotLabels(start, end)| && i != j
    ensures SlotLabels(start, end)[i] != SlotLabels(start, end)[j]
  {
    if i < j {
      SlotsChronological(start, end, i, j);
    } else {
      SlotsChronological(start, end, j, i);
    }
  }

  /** With the defaults there are 36 slots, from "11:00 AM" to "7:45 PM". */
  lemma DefaultSlots()
    ensures |SlotLabels(DefaultStart, DefaultEnd)| == 36
    ensures SlotLabels(DefaultStart, DefaultEnd)[0] == "11:00 AM"
    ensures SlotLabels(DefaultStart, DefaultEnd)[35] == "7:45 PM"
  {
    SlotCount(DefaultStart, DefaultEnd);
    SlotAt(DefaultStart, DefaultEnd, 11, 0);
    SlotAt(DefaultStart, DefaultEnd, 19, 3);
    MinuteTexts(0);
    MinuteTexts(3);
    assert IntToString(11) == "11";
    assert IntToString(7) == "7";
  }
}
