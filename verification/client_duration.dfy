/**
 * The web client's progress report (`updateWatchProgress` in `api.js`): the
 * duration parser for texts such as "2h 30m", the "H:MM:SS" formatter the
 * backend's `TimeSpan` field expects, and the payload rule.
 *
 * JavaScript numbers are modelled as integers: durations are whole seconds.
 */
module ClientDuration {
  import opened Wrappers
  import opened Decimal
  import opened Clock
  import opened Entities
  import WatchHistory

  /** JavaScript's `%`, which truncates toward zero: the remainder takes the sign of the dividend. */
  function JsRem(a: int, b: int): (r: int)
    requires b > 0
    ensures a >= 0 ==> r == a % b
    ensures a < 0 ==> -b < r <= 0
  {
    if a >= 0 then a % b else -((-a) % b)
  }

  /** `n.toString().padStart(2, '0')`. */
  function TwoDigits(n: int): string {
    PadZeros(IntToString(n), 2)
  }

  /**
   * `formatTimeSpan`: whole hours (`Math.floor(s / 3600)`), then the minutes
   * and seconds of JavaScript's truncating remainder, each padded to two
   * characters.
   */
  function FormatTimeSpan(seconds: int): string {
    var hours := seconds / 3600;
    var minutes := JsRem(seconds, 3600) / 60;
    var secs := JsRem(seconds, 60);
    TwoDigits(hours) + ":" + TwoDigits(minutes) + ":" + TwoDigits(secs)
  }

  datatype ClockFields = ClockFields(hours: nat, minutes: nat, seconds: nat)

  /**
   * Reading "H:MM:SS" back: at least one hour digit, then a colon, two minute
   * digits, a colon and two second digits.
   */
  function ReadClock(s: string): (r: Option<ClockFields>)
    ensures r.Some? ==> r.value.minutes < 100 && r.value.seconds < 100
  {
    if |s| < 7 then None
    else
      var k := |s| - 6;
      if s[k] == ':' && s[k + 3] == ':' && IsDigits(s[..k]) && IsDigits(s[k + 1..k + 3]) && IsDigits(s[k + 4..]) then
        DecimalValueBound(s[k + 1..k + 3]);
        DecimalValueBound(s[k + 4..]);
        Some(ClockFields(DecimalValue(s[..k]), DecimalValue(s[k + 1..k + 3]), DecimalValue(s[k + 4..])))
      else None
  }

  /** A value below 100 is written with exactly two digits. */
  lemma TwoDigitsOfSmall(n: nat)
    requires n < 100
    ensures |TwoDigits(n)| == 2 && IsDigits(TwoDigits(n)) && DecimalValue(TwoDigits(n)) == n
  {
    assert Pow10(2) == 100;
    PaddedLength(n, 2);
    PaddedRoundTrip(n, 2);
  }

  /** Whole hours, the minutes and the seconds left over add back up to the number. */
  lemma ClockSplit(n: nat)
    ensures (n % 3600) / 60 < 60 && n % 60 < 60
    ensures 3600 * (n / 3600) + 60 * ((n % 3600) / 60) + n % 60 == n
  {
    var h := n / 3600;
    var r := n % 3600;
    assert n == 3600 * h + r;
    var m := r / 60;
    var s := r % 60;
    assert r == 60 * m + s;
    assert n % 60 == s by {
      assert n == 60 * (60 * h + m) + s;
    }
  }

  /**
   * For a non-negative number of seconds the text holds the whole hours, never
   * cut to two digits, and the minutes and seconds below 60, which add back up
   * to the number: the formatter's round trip.
   */
  lemma FormatTimeSpanRoundTrip(n: nat)
    ensures ReadClock(FormatTimeSpan(n)) == Some(ClockFields(n / 3600, (n % 3600) / 60, n % 60))
    ensures var f := ReadClock(FormatTimeSpan(n)).value;
      f.minutes < 60 && f.seconds < 60 && 3600 * f.hours + 60 * f.minutes + f.seconds == n
    ensures |FormatTimeSpan(n)| >= 8
  {
    var hours := n / 3600;
    var minutes := (n % 3600) / 60;
    var secs := n % 60;
    ClockSplit(n);
    assert JsRem(n, 3600) / 60 == minutes && JsRem(n, 60) == secs;
    var h := TwoDigits(hours);
    var m := TwoDigits(minutes);
    var sec := TwoDigits(secs);
    PaddedRoundTrip(hours, 2);
    TwoDigitsOfSmall(minutes);
    TwoDigitsOfSmall(secs);
    assert FormatTimeSpan(n) == h + ":" + m + ":" + sec;
    ReadJoinedClock(h, m, sec);
  }

  /** A clock text put together from its three digit fields reads back as their values. */
  lemma ReadJoinedClock(h: string, m: string, sec: string)
    requires |h| >= 1 && |m| == 2 && |sec| == 2
    requires IsDigits(h) && IsDigits(m) && IsDigits(sec)
    ensures ReadClock(h + ":" + m + ":" + sec) == Some(ClockFields(DecimalValue(h), DecimalValue(m), DecimalValue(sec)))
  {
    var s := h + ":" + m + ":" + sec;
    var k := |h|;
    assert |s| - 6 == k && s[..k] == h && s[k] == ':' && s[k + 3] == ':' && s[k + 1..k + 3] == m && s[k + 4..] == sec by {
      var colonM := ":" + m;
      assert colonM[1..] == m;
      var head := colonM + ":";
      var tail := head + sec;
      assert |head| == 4 && tail[4..] == sec;
      assert tail[1..3] == head[1..3] == colonM[1..];
      assert s == h + tail;
      assert s[..k] == h && s[k..] == tail;
      assert s[k + 1..k + 3] == tail[1..3];
      assert s[k + 4..] == tail[4..];
    }
  }

  /** The end of the run of decimal digits that starts at `i`. */
  function RunEnd(s: string, i: nat): (j: nat)
    requires i <= |s|
    ensures i <= j <= |s|
    ensures IsDigits(s[i..j])
    ensures j == |s| || !IsDigit(s[j])
    decreases |s| - i
  {
    if i < |s| && IsDigit(s[i]) then
      var j := RunEnd(s, i + 1);
      assert s[i..j] == [s[i]] + s[i + 1..j];
      j
    else i
  }

  /**
   * `/(\d+)u/` matches starting at `i`: a digit run starts there and the unit
   * letter follows it. Backtracking cannot help, since every shorter run is
   * followed by a digit.
   */
  predicate MatchesAt(s: string, unit: char, i: nat) {
    i < |s| && IsDigit(s[i]) && RunEnd(s, i) < |s| && s[RunEnd(s, i)] == unit
  }

  /** The leftmost match at or after `i`. */
  function FirstMatch(s: string, unit: char, i: nat): (r: Option<nat>)
    requires i <= |s|
    ensures r.Some? ==> i <= r.value < |s| && MatchesAt(s, unit, r.value)
    ensures r.Some? ==> forall j :: i <= j < r.value ==> !MatchesAt(s, unit, j)
    ensures r.None? ==> forall j :: i <= j < |s| ==> !MatchesAt(s, unit, j)
    decreases |s| - i
  {
    if i == |s| then None
    else if MatchesAt(s, unit, i) then Some(i)
    else FirstMatch(s, unit, i + 1)
  }

  /** `parseInt(s.match(/(\d+)u/)[1])`, or 0 with no match. */
  function UnitAmount(s: string, unit: char): nat {
    match FirstMatch(s, unit, 0)
    case None => 0
    case Some(i) => DecimalValue(s[i..RunEnd(s, i)])
  }

  /** The argument of `parseDurationToSeconds`: a number, a text, or `null`/`undefined`. */
  datatype DurationArg = Number(value: int) | Text(text: string) | Missing

  /**
   * `parseDurationToSeconds`: a number is returned as it is; no argument or
   * the empty text is 0; otherwise 3600 seconds per "<digits>h" and 60 per
   * "<digits>m", the first of each.
   */
  function ParseDurationToSeconds(d: DurationArg): (r: int)
    ensures d.Number? ==> r == d.value
    ensures d.Missing? || d == Text("") ==> r == 0
    ensures d.Text? ==> r == 3600 * UnitAmount(d.text, 'h') + 60 * UnitAmount(d.text, 'm')
  {
    match d
    case Number(n) => n
    case Missing => 0
    case Text(t) => if |t| == 0 then 0 else 3600 * UnitAmount(t, 'h') + 60 * UnitAmount(t, 'm')
  }

  /** A run that stops before a non-digit ends there. */
  lemma {:induction false} RunEndAt(s: string, i: nat, j: nat)
    requires i <= j <= |s| && IsDigits(s[i..j]) && (j == |s| || !IsDigit(s[j]))
    ensures RunEnd(s, i) == j
    decreases j - i
  {
    if i < j {
      assert s[i] == s[i..j][0];
      assert s[i + 1..j] == s[i..j][1..];
      RunEndAt(s, i + 1, j);
    }
  }

  /** No occurrence of the unit letter, no match. */
  lemma AbsentUnitCountsZero(s: string, unit: char)
    requires forall i :: 0 <= i < |s| ==> s[i] != unit
    ensures UnitAmount(s, unit) == 0
  {
  }

  /**
   * The texts the parser is written for: "<h>h <m>m" gives back
   * `3600 * h + 60 * m` seconds, so "2h 30m" is 9000.
   */
  lemma HoursAndMinutesRoundTrip(h: nat, m: nat)
    ensures ParseDurationToSeconds(Text(NatToString(h) + "h " + NatToString(m) + "m")) == 3600 * h + 60 * m
  {
    NatToStringDigits(h);
    NatToStringDigits(m);
    NatToStringRoundTrip(h);
    NatToStringRoundTrip(m);
    UnitsOfJoined(NatToString(h), NatToString(m));
  }

  /** In "<a>h <b>m" the parser reads `a` as the hours and `b` as the minutes. */
  lemma UnitsOfJoined(a: string, b: string)
    requires IsDigits(a) && IsDigits(b) && |a| >= 1 && |b| >= 1
    ensures UnitAmount(a + "h " + b + "m", 'h') == DecimalValue(a)
    ensures UnitAmount(a + "h " + b + "m", 'm') == DecimalValue(b)
  {
    var s := a + "h " + b + "m";
    var k := |a|;
    assert |s| == k + 3 + |b| && s[..k] == a && s[k] == 'h' && s[k + 1] == ' '
        && s[k + 2..k + 2 + |b|] == b && s[k + 2 + |b|] == 'm' by {
      var rest := "h " + b + "m";
      assert s == a + rest;
      assert rest[2..2 + |b|] == b;
    }
    assert s[0..k] == a;
    UnitAmountAt(s, 'h', 0, k);
    forall l | 0 <= l < k
      ensures !MatchesAt(s, 'm', l)
    {
      assert s[l..k] == a[l..];
      RunEndAt(s, l, k);
    }
    UnitAmountAt(s, 'm', k + 2, k + 2 + |b|);
  }

  /** A digit run from `i` to the unit letter at `j`, with no match before `i`, is what the parser reads. */
  lemma UnitAmountAt(s: string, unit: char, i: nat, j: nat)
    requires i < j < |s| && IsDigits(s[i..j]) && s[j] == unit && !IsDigit(unit)
    requires forall l :: 0 <= l < i ==> !MatchesAt(s, unit, l)
    ensures UnitAmount(s, unit) == DecimalValue(s[i..j])
  {
    assert IsDigit(s[i]) by {
      assert s[i] == s[i..j][0];
    }
    RunEndAt(s, i, j);
    assert MatchesAt(s, unit, i);
    var r := FirstMatch(s, unit, 0);
    assert r == Some(i) by {
      assert r.Some?;
      assert !(r.value < i) && !(i < r.value);
    }
  }

  /** A worked example: the input named in the helper's own comment, as an instance of `HoursAndMinutesRoundTrip`. */
  lemma ParseExample()
    ensures ParseDurationToSeconds(Text("2h 30m")) == 9000
  {
    HoursAndMinutesRoundTrip(2, 30);
    assert NatToString(2) == "2";
    assert NatToString(30) == "30";
    assert NatToString(2) + "h " + NatToString(30) + "m" == "2h 30m";
  }

  /** What the page hands to `updateWatchProgress`; absent fields are `None`. */
  datatype ProgressInput = ProgressInput(
    episodeId: Option<int>, completed: Option<bool>, watchedPercentage: Option<real>, watchedDuration: DurationArg)

  const SecondsPerDay: nat := 86400

  /** The body posted to the backend. */
  datatype BackendPayload = BackendPayload(
    profileId: int, contentId: int, episodeId: Option<int>,
    watchedPercentage: real, watchedDuration: string, isCompleted: bool)

  /** `x || 0` for a duration: every falsy argument becomes the number 0. */
  function OrZero(d: DurationArg): (r: DurationArg)
    ensures r.Missing? ==> false
    ensures d.Text? && |d.text| > 0 ==> r == d
  {
    match d
    case Missing => Number(0)
    case Text(t) => if |t| == 0 then Number(0) else d
    case Number(n) => d
  }

  /**
   * `backendPayload`: a finished report is 100 percent; a missing or zero
   * episode is `null`; the duration is parsed and formatted.
   */
  function Payload(profileId: int, contentId: int, p: ProgressInput): (r: BackendPayload)
    ensures r.isCompleted <==> p.completed == Some(true)
    ensures r.isCompleted ==> r.watchedPercentage == 100.0
    ensures !r.isCompleted ==> r.watchedPercentage == p.watchedPercentage.GetOr(0.0)
    ensures r.episodeId.Some? <==> p.episodeId.Some? && p.episodeId.value != 0
    ensures r.episodeId.Some? ==> r.episodeId == p.episodeId
    ensures p.watchedDuration.Missing? ==> r.watchedDuration == "00:00:00"
    ensures r.profileId == profileId && r.contentId == contentId
  {
    var completed := p.completed == Some(true);
    var episodeId := if p.episodeId.Some? && p.episodeId.value != 0 then p.episodeId else None;
    var percentage := if completed then 100.0 else p.watchedPercentage.GetOr(0.0);
    assert FormatTimeSpan(0) == "00:00:00" by {
      assert IntToString(0) == "0";
    }
    BackendPayload(profileId, contentId, episodeId, percentage,
      FormatTimeSpan(ParseDurationToSeconds(OrZero(p.watchedDuration))), completed)
  }

  /** The largest field values of the backend's `TimeSpan` text ("c" format): hours 0-23, minutes and seconds 0-59. */
  const MaxClockHours: nat := 23
  const MaxClockMinutes: nat := 59

  /** The bounds of the `[Range(0, 100)]` check on the watched percentage. */
  const MinPercentage: real := 0.0
  const MaxPercentage: real := 100.0

  /**
   * The backend's report read from the payload. The duration text is read by
   * the `TimeSpan` JSON reader, which refuses a clock whose hours exceed 23 or
   * whose minutes or seconds exceed 59; a percentage outside 0-100 fails
   * validation. Either way the report is `None`.
   */
  function ReportOf(b: BackendPayload): (r: Option<WatchHistory.WatchReport>)
    ensures r.Some? <==> (&& ReadClock(b.watchedDuration).Some?
                          && ReadClock(b.watchedDuration).value.hours <= MaxClockHours
                          && ReadClock(b.watchedDuration).value.minutes <= MaxClockMinutes
                          && ReadClock(b.watchedDuration).value.seconds <= MaxClockMinutes
                          && MinPercentage <= b.watchedPercentage <= MaxPercentage)
    ensures r.Some? ==> var f := ReadClock(b.watchedDuration).value;
      r.value.watchedDuration == (3600 * f.hours + 60 * f.minutes + f.seconds) * TicksPerSecond
    ensures r.Some? ==> (&& r.value.profileId == b.profileId && r.value.contentId == b.contentId
                         && r.value.episodeId == b.episodeId && r.value.isCompleted == b.isCompleted
                         && r.value.watchedPercentage == b.watchedPercentage)
  {
    match ReadClock(b.watchedDuration)
    case None => None
    case Some(f) =>
      if f.hours > MaxClockHours || f.minutes > MaxClockMinutes || f.seconds > MaxClockMinutes then None
      else if !(MinPercentage <= b.watchedPercentage <= MaxPercentage) then None
      else
        var seconds := 3600 * f.hours + 60 * f.minutes + f.seconds;
        Some(WatchHistory.WatchReport(b.profileId, b.contentId, b.episodeId, b.watchedPercentage,
          seconds * TicksPerSecond, b.isCompleted))
  }

  /**
   * A duration under a day reaches the backend whole: the report read from
   * the payload carries exactly the parsed number of seconds. A duration of a
   * day or more is formatted with 24 or more hours, which the backend refuses,
   * and so is a given percentage outside 0-100 on an unfinished report.
   */
  lemma PayloadCarriesDuration(profileId: int, contentId: int, p: ProgressInput)
    requires p.watchedDuration.Number? ==> p.watchedDuration.value >= 0
    ensures var b := Payload(profileId, contentId, p);
      ReportOf(b).Some? <==> (&& ParseDurationToSeconds(p.watchedDuration) < SecondsPerDay
                              && (p.completed == Some(true) || MinPercentage <= p.watchedPercentage.GetOr(0.0) <= MaxPercentage))
    ensures var b := Payload(profileId, contentId, p);
      ReportOf(b).Some? ==>
        && ReportOf(b).value.watchedDuration == ParseDurationToSeconds(p.watchedDuration) * TicksPerSecond
        && ReportOf(b).value.isCompleted == (p.completed == Some(true))
        && ReportOf(b).value.profileId == profileId && ReportOf(b).value.contentId == contentId
  {
    var seconds := ParseDurationToSeconds(OrZero(p.watchedDuration));
    assert seconds == ParseDurationToSeconds(p.watchedDuration);
    assert seconds >= 0;
    ReportOfFormatted(Payload(profileId, contentId, p), seconds);
  }

  /** A payload whose duration is the formatted `seconds` is accepted exactly under a day with a valid percentage. */
  lemma ReportOfFormatted(b: BackendPayload, seconds: nat)
    requires b.watchedDuration == FormatTimeSpan(seconds)
    ensures ReportOf(b).Some? <==> seconds < SecondsPerDay && MinPercentage <= b.watchedPercentage <= MaxPercentage
    ensures ReportOf(b).Some? ==> ReportOf(b).value.watchedDuration == seconds * TicksPerSecond
  {
    FormatTimeSpanRoundTrip(seconds);
  }
}
