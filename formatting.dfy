/**
 * The integer formatting of Klipper_server.py: splitting a number of seconds
 * into hours, minutes and seconds, the handlers' "{h}h {m}m {s}s" text,
 * format_time, the filament amount in metres, and the state labels of the
 * status reply.
 */
module Formatting {
  import opened Wrappers
  import opened Text

  datatype Duration = Duration(hours: nat, minutes: nat, seconds: nat)

  function TotalSeconds(t: Duration): nat {
    t.hours * 3600 + t.minutes * 60 + t.seconds
  }

  /** divmod(d, 3600) and then divmod(remainder, 60), as the handlers do. */
  function Split(d: nat): (t: Duration)
    ensures TotalSeconds(t) == d
    ensures t.minutes < 60 && t.seconds < 60
  {
    var remainder := d % 3600;
    Duration(d / 3600, remainder / 60, remainder % 60)
  }

  lemma HourDivision(d: nat, h: nat, r: nat)
    requires d == h * 3600 + r && r < 3600
    ensures h == d / 3600 && r == d % 3600
  {
  }

  lemma MinuteDivision(d: nat, m: nat, r: nat)
    requires d == m * 60 + r && r < 60
    ensures m == d / 60 && r == d % 60
  {
  }

  /** The split is the only one with minutes and seconds below sixty. */
  lemma SplitUnique(d: nat, t: Duration)
    requires TotalSeconds(t) == d && t.minutes < 60 && t.seconds < 60
    ensures t == Split(d)
  {
    var a := t.minutes * 60 + t.seconds;
    HourDivision(d, t.hours, a);
    MinuteDivision(a, t.minutes, t.seconds);
  }

  /** format_time splits the other way round: divmod(d, 60) and then divmod(minutes, 60). */
  function MinutesFirstSplit(d: nat): Duration {
    var minutes := d / 60;
    Duration(minutes / 60, minutes % 60, d % 60)
  }

  lemma MinutesFirstSplitAgrees(d: nat)
    ensures MinutesFirstSplit(d) == Split(d)
  {
    var t := MinutesFirstSplit(d);
    var minutes := d / 60;
    assert minutes * 60 + d % 60 == d;
    assert (minutes / 60) * 60 + minutes % 60 == minutes;
    assert TotalSeconds(t) == ((minutes / 60) * 60 + minutes % 60) * 60 + d % 60;
    SplitUnique(d, t);
  }

  /** "{m}m {s}s" */
  function MinSecText(t: Duration): string {
    NatText(t.minutes) + "m " + NatText(t.seconds) + "s"
  }

  /** "{h}h {m}m {s}s" */
  function ClockText(t: Duration): string {
    NatText(t.hours) + "h " + MinSecText(t)
  }

  /** The handlers' elapsed-time text (Klipper_server.py lines 541 and 562). */
  function DurationText(d: nat): string {
    ClockText(Split(d))
  }

  /** format_time(seconds, prefix). */
  function FormatTime(seconds: int, prefix: string): string {
    if seconds <= 0 then prefix + ": 0秒"
    else
      var t := MinutesFirstSplit(seconds);
      if t.hours > 0 then prefix + ": " + ClockText(t) else prefix + ": " + MinSecText(t)
  }

  /** The part of format_time's text after "prefix: ", for positive durations. */
  function TimeBody(seconds: nat): string {
    var t := MinutesFirstSplit(seconds);
    if t.hours > 0 then ClockText(t) else MinSecText(t)
  }

  /** Reads "{m}m {s}s" back into seconds. */
  function ParseMinSec(s: string): Option<nat> {
    match ParseField(s, 'm')
    case None => None
    case Some((m, rest)) =>
      if |rest| > 0 && rest[0] == ' ' then
        match ParseField(rest[1..], 's')
        case Some((sec, tail)) => if tail == [] then Some(m * 60 + sec) else None
        case None => None
      else None
  }

  /** Reads "{h}h {m}m {s}s" or "{m}m {s}s" back into seconds. */
  function ParseClock(s: string): Option<nat> {
    match ParseField(s, 'h')
    case Some((h, rest)) =>
      if |rest| > 0 && rest[0] == ' ' then
        match ParseMinSec(rest[1..])
        case Some(ms) => Some(h * 3600 + ms)
        case None => None
      else None
    case None => ParseMinSec(s)
  }

  /** ParseMinSec reads a minutes field, " ", and a seconds field that ends the text. */
  lemma ParseMinSecOfFields(s: string, m: nat, tail: string, sec: nat)
    requires ParseField(s, 'm') == Some((m, [' '] + tail))
    requires ParseField(tail, 's') == Some((sec, []))
    ensures ParseMinSec(s) == Some(m * 60 + sec)
  {
    assert ([' '] + tail)[1..] == tail;
  }

  lemma MinSecTextMinuteField(t: Duration)
    ensures ParseField(MinSecText(t), 'm') == Some((t.minutes, [' '] + NatText(t.seconds) + ['s']))
  {
    var rest := [' '] + NatText(t.seconds) + ['s'];
    assert MinSecText(t) == NatText(t.minutes) + ['m'] + rest;
    ParseFieldOfText(t.minutes, 'm', rest);
  }

  lemma MinSecTextParses(t: Duration)
    ensures ParseMinSec(MinSecText(t)) == Some(t.minutes * 60 + t.seconds)
  {
    var secText := NatText(t.seconds) + ['s'];
    MinSecTextMinuteField(t);
    assert [' '] + NatText(t.seconds) + ['s'] == [' '] + secText;
    assert ParseField(secText, 's') == Some((t.seconds, [])) by {
      assert secText == NatText(t.seconds) + ['s'] + [];
      ParseFieldOfText(t.seconds, 's', []);
    }
    ParseMinSecOfFields(MinSecText(t), t.minutes, secText, t.seconds);
  }

  /** ParseClock reads an hour field followed by " " and a minutes-and-seconds text. */
  lemma ParseClockWithHours(s: string, h: nat, tail: string, ms: nat)
    requires ParseField(s, 'h') == Some((h, [' '] + tail))
    requires ParseMinSec(tail) == Some(ms)
    ensures ParseClock(s) == Some(h * 3600 + ms)
  {
    assert ([' '] + tail)[1..] == tail;
  }

  lemma ClockTextHourField(t: Duration)
    ensures ParseField(ClockText(t), 'h') == Some((t.hours, [' '] + MinSecText(t)))
  {
    assert ClockText(t) == NatText(t.hours) + ['h'] + ([' '] + MinSecText(t));
    ParseFieldOfText(t.hours, 'h', [' '] + MinSecText(t));
  }

  lemma ClockTextParses(t: Duration)
    ensures ParseClock(ClockText(t)) == Some(TotalSeconds(t))
  {
    ClockTextHourField(t);
    MinSecTextParses(t);
    ParseClockWithHours(ClockText(t), t.hours, MinSecText(t), t.minutes * 60 + t.seconds);
  }

  lemma MinSecTextHasNoHourField(t: Duration)
    ensures ParseField(MinSecText(t), 'h').None?
  {
    var rest := [' '] + NatText(t.seconds) + ['s'];
    assert MinSecText(t) == NatText(t.minutes) + ['m'] + rest;
    ParseFieldOtherUnit(t.minutes, 'm', 'h', rest);
  }

  /** Without an hour field, the text still reads back as minutes and seconds. */
  lemma MinSecTextParsesAsClock(t: Duration)
    ensures ParseClock(MinSecText(t)) == Some(t.minutes * 60 + t.seconds)
  {
    MinSecTextHasNoHourField(t);
    MinSecTextParses(t);
  }

  /** The handlers' elapsed-time text reads back as the duration it was made from. */
  lemma DurationTextRoundTrip(d: nat)
    ensures ParseClock(DurationText(d)) == Some(d)
  {
    ClockTextParses(Split(d));
  }

  /** format_time's text after "prefix: " reads back as the same number of seconds. */
  lemma TimeBodyRoundTrip(seconds: nat)
    requires seconds > 0
    ensures ParseClock(TimeBody(seconds)) == Some(seconds)
  {
    var t := MinutesFirstSplit(seconds);
    MinutesFirstSplitAgrees(seconds);
    if t.hours > 0 {
      ClockTextParses(t);
    } else {
      MinSecTextParsesAsClock(t);
    }
  }

  /**
   * format_time: "prefix: 0秒" for a non-positive count; otherwise "prefix: "
   * followed by a text that reads back as the same number of seconds.
   */
  lemma FormatTimeShape(seconds: int, prefix: string)
    ensures seconds <= 0 ==> FormatTime(seconds, prefix) == prefix + ": 0秒"
    ensures seconds > 0 ==> FormatTime(seconds, prefix) == prefix + ": " + TimeBody(seconds)
    ensures seconds > 0 ==> ParseClock(TimeBody(seconds)) == Some(seconds)
  {
    if seconds > 0 {
      TimeBodyRoundTrip(seconds);
    }
  }

  lemma DigitsHaveNoH(n: nat)
    ensures 'h' !in NatText(n)
  {
    var t := NatText(n);
    assert forall i :: 0 <= i < |t| ==> t[i] != 'h';
  }

  /** format_time leaves the hour field out exactly when the duration is under an hour. */
  lemma FormatTimeHourField(seconds: nat)
    requires seconds > 0
    ensures 'h' in TimeBody(seconds) <==> seconds >= 3600
  {
    var t := MinutesFirstSplit(seconds);
    MinutesFirstSplitAgrees(seconds);
    if t.hours > 0 {
      assert ClockText(t)[|NatText(t.hours)|] == 'h';
    } else {
      DigitsHaveNoH(t.minutes);
      DigitsHaveNoH(t.seconds);
      assert MinSecText(t) == NatText(t.minutes) + ['m', ' '] + NatText(t.seconds) + ['s'];
    }
  }

  /**
   * f"{filament_used / 1000:.2f}" for a whole number of millimetres that is
   * a multiple of ten, where the two-decimal rendering is exact.
   */
  function MetersText(mm: nat): string
    requires mm % 10 == 0
  {
    var centimetres := mm / 10;
    var fraction := centimetres % 100;
    NatText(centimetres / 100) + "." + [DigitChar(fraction / 10), DigitChar(fraction % 10)]
  }

  /**
   * The text is a numeral with exactly two decimals, and removing the point
   * gives the amount in centimetres: it denotes mm / 1000 metres.
   */
  lemma MetersTextValue(mm: nat)
    requires mm % 10 == 0
    ensures var r := MetersText(mm);
      |r| >= 4 && r[|r| - 3] == '.' &&
      AllDigits(r[..|r| - 3] + r[|r| - 2..]) &&
      DigitsValue(r[..|r| - 3] + r[|r| - 2..]) * 10 == mm
  {
    var r := MetersText(mm);
    var c := mm / 10;
    var f := c % 100;
    var whole := NatText(c / 100);
    var x, y := DigitChar(f / 10), DigitChar(f % 10);
    assert r == whole + "." + [x, y];
    assert r[..|r| - 3] == whole;
    assert r[|r| - 2..] == [x, y];
    DigitsValueTwoMore(whole, x, y);
    NatTextRoundTrip(c / 100);
  }

  /** Worked renderings of the handlers' elapsed time. */
  lemma DurationTextExamples()
    ensures DurationText(3600) == "1h 0m 0s"
    ensures DurationText(3661) == "1h 1m 1s"
  {
    assert NatText(0) == "0" && NatText(1) == "1";
  }

  /** Worked renderings of format_time: a sub-hour count has no hour field, and zero is 0秒. */
  lemma FormatTimeExamples()
    ensures FormatTime(45, "最长任务") == "最长任务: 0m 45s"
    ensures FormatTime(0, "总时间") == "总时间: 0秒"
  {
    assert NatText(45) == NatText(4) + [DigitChar(5)] == "45";
    assert NatText(0) == "0";
  }

  lemma MetersTextExample()
    ensures MetersText(12000) == "12.00"
  {
    assert NatText(12) == NatText(1) + [DigitChar(2)] == "12";
  }

  /** state_map in getPrintStatus. */
  const StateLabels: map<string, string> := map[
    "printing" := "打印中",
    "paused" := "已暂停",
    "complete" := "已完成",
    "cancelled" := "已取消",
    "error" := "错误",
    "ready" := "待机",
    "standby" := "待机",
    "unknown" := "未知状态"
  ]

  /** state_map.get(state, state): a known state's label, otherwise the raw state. */
  function StateLabel(state: string): (shown: string)
    ensures state !in StateLabels ==> shown == state
    ensures state in StateLabels ==> shown in StateLabels.Values
  {
    if state in StateLabels then StateLabels[state] else state
  }

  /** Two different known states share a label only when they are "ready" and "standby". */
  lemma StateLabelsDistinct(a: string, b: string)
    requires a in StateLabels && b in StateLabels && a != b
    ensures StateLabel(a) == StateLabel(b) <==> {a, b} == {"ready", "standby"}
  {
    if {a, b} == {"ready", "standby"} {
      assert a == "ready" || a == "standby";
      assert b == "ready" || b == "standby";
    }
  }
}
