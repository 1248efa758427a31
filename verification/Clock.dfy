/** Trip duration texts (HH:MM and HH:MM:SS) and peak-hour windows. */
module Clock {
  import opened Options
  import opened Text

  /** One part of a split time, `parts[i] || "0"`. */
  function PartOrZero(parts: seq<string>, i: nat): string {
    if i < |parts| && parts[i] != "" then parts[i] else "0"
  }

  /** Base minutes of a route's `estimatedTime`; None is NaN. */
  function BaseMinutes(estimatedTime: Option<string>): Option<nat> {
    if estimatedTime.Or("") == "" then Some(0)
    else
      var parts := Split(estimatedTime.value, ':');
      var h := ParseInt(PartOrZero(parts, 0));
      var m := ParseInt(PartOrZero(parts, 1));
      var s := ParseInt(PartOrZero(parts, 2));
      if h.None? || m.None? || s.None? then None
      else Some(h.value * 60 + m.value + (s.value + 59) / 60)
  }

  /** Travel time plus two minutes for each station. */
  function EstimatedMinutes(estimatedTime: Option<string>, stationCount: nat): Option<nat> {
    var base := BaseMinutes(estimatedTime);
    if base.None? then None else Some(base.value + 2 * stationCount)
  }

  /** Minutes as padded HH:MM. */
  function FormatMinutes(total: nat): string {
    PadStart(Decimal(total / 60), 2) + ":" + PadStart(Decimal(total % 60), 2)
  }

  /** The departure in milliseconds, moved on by some minutes. */
  function AddMinutes(time: int, minutes: int): int {
    time + minutes * 60_000
  }

  lemma FormatSplits(total: nat)
    ensures Split(FormatMinutes(total), ':') == [PadStart(Decimal(total / 60), 2), PadStart(Decimal(total % 60), 2)]
  {
    var h, m := PadStart(Decimal(total / 60), 2), PadStart(Decimal(total % 60), 2);
    PaddedReadsBack(total / 60, 2);
    PaddedReadsBack(total % 60, 2);
    assert ':' !in h && ':' !in m;
    SplitFirst(h, ':', m);
    SplitPlain(m, ':');
  }

  /** Printing a duration and reading it back as a route's `estimatedTime` loses nothing, however many hours. */
  lemma DurationRoundTrip(total: nat)
    ensures BaseMinutes(Some(FormatMinutes(total))) == Some(total)
  {
    FormatSplits(total);
    PaddedReadsBack(total / 60, 2);
    PaddedReadsBack(total % 60, 2);
    var parts := Split(FormatMinutes(total), ':');
    assert PartOrZero(parts, 0) == parts[0];
    assert PartOrZero(parts, 1) == parts[1];
    assert PartOrZero(parts, 2) == Decimal(0);
    DecimalDenotes(0);
    AllDigitsPrefix(Decimal(0));
    assert Decimal(0)[..1] == Decimal(0);
  }

  /** A route without a duration takes no time between its stations. */
  lemma NoDuration(estimatedTime: Option<string>)
    requires estimatedTime in {None, Some("")}
    ensures BaseMinutes(estimatedTime) == Some(0)
  {
  }

  function TimeParts(h: nat, m: nat, s: nat): seq<string> {
    [PadStart(Decimal(h), 2), PadStart(Decimal(m), 2), PadStart(Decimal(s), 2)]
  }

  lemma ThreeParts(h: nat, m: nat, s: nat)
    ensures var p := TimeParts(h, m, s); Split(p[0] + ":" + (p[1] + ":" + p[2]), ':') == p
  {
    PaddedReadsBack(h, 2);
    PaddedReadsBack(m, 2);
    PaddedReadsBack(s, 2);
    var p := TimeParts(h, m, s);
    assert ':' !in p[0] && ':' !in p[1] && ':' !in p[2];
    SplitFirst(p[0], ':', p[1] + ":" + p[2]);
    SplitFirst(p[1], ':', p[2]);
    SplitPlain(p[2], ':');
  }

  /** HH:MM:SS text is read in whole minutes, seconds rounded up. */
  lemma SecondsRoundUp(h: nat, m: nat, s: nat)
    ensures var p := TimeParts(h, m, s);
            var base := BaseMinutes(Some(p[0] + ":" + (p[1] + ":" + p[2])));
            base.Some? && 60 * (base.value - 1) < 3600 * h + 60 * m + s <= 60 * base.value
  {
    ThreeParts(h, m, s);
    PaddedReadsBack(h, 2);
    PaddedReadsBack(m, 2);
    PaddedReadsBack(s, 2);
  }

  // ----- peak windows

  /** JavaScript `a <= b` on numbers that may be NaN. */
  predicate AtMost(a: Option<int>, b: Option<int>) {
    a.Some? && b.Some? && a.value <= b.value
  }

  /** `hours * 60 + minutes` of an HH:MM text; None is NaN. */
  function TimeToNumber(time: string): Option<int> {
    var parts := Split(time, ':');
    if |parts| < 2 then None
    else
      var h, m := ToNumber(parts[0]), ToNumber(parts[1]);
      if h.None? || m.None? then None else Some(h.value * 60 + m.value)
  }

  /** The window test on texts used when a rule is applied. */
  predicate IsTimeBetween(time: string, start: string, end: string) {
    var t, s, e := TimeToNumber(time), TimeToNumber(start), TimeToNumber(end);
    if AtMost(s, e) then AtMost(s, t) && AtMost(t, e) else AtMost(s, t) || AtMost(t, e)
  }

  /** The window test on a time of day used by the pricing helpers. */
  predicate IsPeakHour(hours: nat, minutes: nat, start: string, end: string) {
    var t, s, e := Some(hours * 60 + minutes), TimeToNumber(start), TimeToNumber(end);
    if AtMost(s, e) then AtMost(s, t) && AtMost(t, e) else AtMost(s, t) || AtMost(t, e)
  }

  /** The HH:MM text of a time of day, as printed before the window test. */
  function TimeText(hours: nat, minutes: nat): string {
    PadStart(Decimal(hours), 2) + ":" + PadStart(Decimal(minutes), 2)
  }

  lemma TimeTextReadsBack(hours: nat, minutes: nat)
    ensures TimeToNumber(TimeText(hours, minutes)) == Some(hours * 60 + minutes)
  {
    var h, m := PadStart(Decimal(hours), 2), PadStart(Decimal(minutes), 2);
    PaddedReadsBack(hours, 2);
    PaddedReadsBack(minutes, 2);
    assert ':' !in h && ':' !in m;
    SplitFirst(h, ':', m);
    SplitPlain(m, ':');
  }

  /** The two window tests agree at every time of day and for every pair of window texts, malformed ones included. */
  lemma PeakTestsAgree(hours: nat, minutes: nat, start: string, end: string)
    ensures IsTimeBetween(TimeText(hours, minutes), start, end) <==> IsPeakHour(hours, minutes, start, end)
  {
    TimeTextReadsBack(hours, minutes);
  }

  /** On a well-formed window the test is circular distance around the day, past midnight included. */
  lemma PeakIsCircular(hours: nat, minutes: nat, start: string, end: string)
    requires hours < 24 && minutes < 60
    requires TimeToNumber(start).Some? && 0 <= TimeToNumber(start).value < 1440
    requires TimeToNumber(end).Some? && 0 <= TimeToNumber(end).value < 1440
    ensures var t, s, e := hours * 60 + minutes, TimeToNumber(start).value, TimeToNumber(end).value;
            IsTimeBetween(TimeText(hours, minutes), start, end) <==> (t - s) % 1440 <= (e - s) % 1440
  {
    TimeTextReadsBack(hours, minutes);
    var t, s, e := hours * 60 + minutes, TimeToNumber(start).value, TimeToNumber(end).value;
    RoundTheClock(t, s);
    RoundTheClock(e, s);
  }

  /** Minutes from one time of day to another, going forward. */
  lemma RoundTheClock(to: int, from: int)
    requires 0 <= from < 1440 && 0 <= to < 1440
    ensures (to - from) % 1440 == if to >= from then to - from else to - from + 1440
  {
  }

  /** A window text that is no number leaves only the other bound; two such texts are never peak. */
  lemma MalformedWindow(hours: nat, minutes: nat, start: string, end: string)
    requires TimeToNumber(start).None? || TimeToNumber(end).None?
    ensures IsTimeBetween(TimeText(hours, minutes), start, end) <==>
            AtMost(TimeToNumber(start), Some(hours * 60 + minutes))
            || AtMost(Some(hours * 60 + minutes), TimeToNumber(end))
  {
    TimeTextReadsBack(hours, minutes);
  }
}
