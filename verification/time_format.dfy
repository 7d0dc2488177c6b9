/** `App.formatTime`: the elapsed/total label shown beside the seek slider.
    Times arrive as whole milliseconds; an unknown total is `None`. The label
    is modelled as the program writes it, including the second subtraction of
    the hours, which makes the seconds field negative from one hour on. */
module TimeFormat {
  import opened Wrappers
  import opened Text

  /** Java's Integer.MAX_VALUE: `(int)` of a larger double saturates here. */
  const IntMax: nat := 0x7fff_ffff

  /** `(int) Math.floor(d.toSeconds())` for a duration of ms milliseconds. */
  function WholeSeconds(ms: nat): (s: nat)
    ensures s <= IntMax
    ensures ms < IntMax * 1000 ==> s * 1000 <= ms < s * 1000 + 1000
    ensures IntMax * 1000 <= ms ==> s == IntMax
  {
    if ms / 1000 < IntMax then ms / 1000 else IntMax
  }

  /** `duration.greaterThan(Duration.ZERO)`; an unknown duration is not. */
  predicate Positive(totalMs: Option<nat>) {
    totalMs.Some? && totalMs.value > 0
  }

  /** The three numbers one side of the label shows. */
  datatype Clock = Clock(hours: int, minutes: int, seconds: int)

  /** The number of seconds a clock reading stands for. */
  function Recombined(c: Clock): int {
    c.hours * 3600 + c.minutes * 60 + c.seconds
  }

  /** The field arithmetic of one side, step by step as the program does it:
      the hours are taken off once when they are positive and once more when
      the seconds are computed. */
  function SplitAsWritten(s: nat): (c: Clock)
    ensures c.hours == s / 3600
    ensures c.minutes == (s % 3600) / 60 && 0 <= c.minutes < 60
    ensures c.seconds == s % 60 - 3600 * (s / 3600)
  {
    var hours := s / 3600;
    var rest := if hours > 0 then s - hours * 3600 else s;
    var minutes := rest / 60;
    assert rest == s % 3600;
    assert rest - minutes * 60 == s % 60 by {
      assert s == 3600 * hours + 60 * minutes + (rest - minutes * 60);
      assert 0 <= rest - minutes * 60 < 60;
    }
    Clock(hours, minutes, rest - hours * 3600 - minutes * 60)
  }

  /** Below one hour the seconds field is the ordinary one, 0..59. */
  lemma SecondsBelowOneHour(s: nat)
    requires s < 3600
    ensures var c := SplitAsWritten(s);
      c.hours == 0 && c.minutes == s / 60 && c.seconds == s % 60 && 0 <= c.seconds < 60
      && Recombined(c) == s
  {
  }

  /** From one hour on the seconds field is negative (at most -3541), so
      `%02d` prints it with its sign and unpadded. */
  lemma SecondsFromOneHour(s: nat)
    requires 3600 <= s
    ensures var c := SplitAsWritten(s);
      c.seconds <= -3541 && Pad2(c.seconds) == "-" + NatToString(-c.seconds)
  {
  }

  /** No intermediate value of the field arithmetic leaves Java's int range,
      so computing with unbounded integers here loses nothing. */
  lemma SplitStaysInInt(s: nat)
    requires s <= IntMax
    ensures var c := SplitAsWritten(s);
      0 <= c.hours * 3600 <= s && 0 <= c.minutes * 60 < 3600 && -(IntMax as int) <= c.seconds < 60
  {
  }

  /** One side of the label: `%02d:%02d` or `%d:%02d:%02d`. */
  datatype Half =
    | MinSec(minutes: int, seconds: int)
    | HourMinSec(hours: int, minutes: int, seconds: int)

  /** The whole label: the elapsed side alone, or elapsed '/' total. */
  datatype Label = Single(only: Half) | Pair(elapsed: Half, total: Half)

  function Short(c: Clock): Half {
    MinSec(c.minutes, c.seconds)
  }

  function Long(c: Clock): Half {
    HourMinSec(c.hours, c.minutes, c.seconds)
  }

  /** `h` prints the fields of `c`: its minutes and seconds, and its hours
      when it has an hour field. */
  predicate Shows(h: Half, c: Clock) {
    && h.minutes == c.minutes && h.seconds == c.seconds
    && (h.HourMinSec? ==> h.hours == c.hours)
  }

  /** The branch structure of formatTime: with a total, the total's hours pick
      the form of both sides; without one, the elapsed hours pick it. */
  function Arrange(e: Clock, t: Option<Clock>): (r: Label)
    ensures r.Pair? <==> t.Some?
    ensures t.Some? ==> && (r.elapsed.HourMinSec? <==> t.value.hours > 0)
                        && (r.total.HourMinSec? <==> t.value.hours > 0)
                        && Shows(r.elapsed, e) && Shows(r.total, t.value)
    ensures t.None? ==> (r.only.HourMinSec? <==> e.hours > 0) && Shows(r.only, e)
  {
    if t.Some? then
      if t.value.hours > 0 then Pair(Long(e), Long(t.value)) else Pair(Short(e), Short(t.value))
    else
      if e.hours > 0 then Single(Long(e)) else Single(Short(e))
  }

  /** The numbers formatTime prints for an elapsed and a total time. */
  function Layout(elapsedMs: nat, totalMs: Option<nat>): (r: Label)
    ensures r.Pair? <==> Positive(totalMs)
    ensures r.Pair? ==> && (r.elapsed.HourMinSec? <==> 3600 <= WholeSeconds(totalMs.value))
                        && (r.total.HourMinSec? <==> 3600 <= WholeSeconds(totalMs.value))
                        && Shows(r.elapsed, SplitAsWritten(WholeSeconds(elapsedMs)))
                        && Shows(r.total, SplitAsWritten(WholeSeconds(totalMs.value)))
    ensures r.Single? ==> && (r.only.HourMinSec? <==> 3600 <= WholeSeconds(elapsedMs))
                          && Shows(r.only, SplitAsWritten(WholeSeconds(elapsedMs)))
  {
    var e := SplitAsWritten(WholeSeconds(elapsedMs));
    if Positive(totalMs) then Arrange(e, Some(SplitAsWritten(WholeSeconds(totalMs.value))))
    else Arrange(e, None)
  }

  /** The numerals one side of the label is made of, in order. */
  function Numerals(h: Half): seq<string> {
    match h
    case MinSec(m, s) => [Pad2(m), Pad2(s)]
    case HourMinSec(hh, m, s) => [IntToString(hh), Pad2(m), Pad2(s)]
  }

  /** One side of the label: `%02d:%02d` or `%d:%02d:%02d`. */
  function RenderHalf(h: Half): (r: string)
    ensures 1 <= |r|
  {
    match h
    case MinSec(m, s) => Pad2(m) + [':'] + Pad2(s)
    case HourMinSec(hh, m, s) => IntToString(hh) + [':'] + Pad2(m) + [':'] + Pad2(s)
  }

  /** The whole label: the elapsed side, then '/' and the total side if any. */
  function RenderLabel(l: Label): (r: string)
    ensures 1 <= |r|
  {
    match l
    case Single(h) => RenderHalf(h)
    case Pair(a, b) => RenderHalf(a) + ['/'] + RenderHalf(b)
  }

  /** A side of the label is its numerals joined by ':' and holds no '/'. */
  lemma HalfNumerals(h: Half)
    ensures '/' !in RenderHalf(h)
    ensures Split(RenderHalf(h), ':') == Numerals(h)
  {
    match h
    case MinSec(m, s) =>
      NumeralHasNo(Pad2(m), '/');
      NumeralHasNo(Pad2(s), '/');
      NumeralHasNo(Pad2(m), ':');
      NumeralHasNo(Pad2(s), ':');
      SplitAfter(Pad2(m), ':', Pad2(s));
      SplitWithout(Pad2(s), ':');
    case HourMinSec(hh, m, s) =>
      NumeralHasNo(IntToString(hh), '/');
      NumeralHasNo(Pad2(m), '/');
      NumeralHasNo(Pad2(s), '/');
      NumeralHasNo(IntToString(hh), ':');
      NumeralHasNo(Pad2(m), ':');
      NumeralHasNo(Pad2(s), ':');
      assert IntToString(hh) + [':'] + Pad2(m) + [':'] + Pad2(s)
          == IntToString(hh) + [':'] + (Pad2(m) + [':'] + Pad2(s));
      SplitAfter(IntToString(hh), ':', Pad2(m) + [':'] + Pad2(s));
      SplitAfter(Pad2(m), ':', Pad2(s));
      SplitWithout(Pad2(s), ':');
  }

  /** A label splits at '/' into its sides as printed. */
  lemma LabelHalves(l: Label)
    ensures l.Single? ==> Split(RenderLabel(l), '/') == [RenderHalf(l.only)]
    ensures l.Pair? ==> Split(RenderLabel(l), '/') == [RenderHalf(l.elapsed), RenderHalf(l.total)]
  {
    match l
    case Single(h) =>
      HalfNumerals(h);
      SplitWithout(RenderHalf(h), '/');
    case Pair(a, b) =>
      HalfNumerals(a);
      HalfNumerals(b);
      SplitAfter(RenderHalf(a), '/', RenderHalf(b));
      SplitWithout(RenderHalf(b), '/');
  }

  // ---- Reading a label back -------------------------------------------------

  function ParseHalf(s: string): Option<Half> {
    var parts := Split(s, ':');
    if |parts| == 2 then
      match (ParseInt(parts[0]), ParseInt(parts[1]))
      case (Some(m), Some(sec)) => Some(MinSec(m, sec))
      case _ => None
    else if |parts| == 3 then
      match (ParseInt(parts[0]), ParseInt(parts[1]), ParseInt(parts[2]))
      case (Some(h), Some(m), Some(sec)) => Some(HourMinSec(h, m, sec))
      case _ => None
    else None
  }

  function ParseLabel(s: string): Option<Label> {
    var parts := Split(s, '/');
    if |parts| == 1 then
      match ParseHalf(parts[0])
      case Some(h) => Some(Single(h))
      case None => None
    else if |parts| == 2 then
      match (ParseHalf(parts[0]), ParseHalf(parts[1]))
      case (Some(a), Some(b)) => Some(Pair(a, b))
      case _ => None
    else None
  }

  lemma HalfRoundTrip(h: Half)
    ensures ParseHalf(RenderHalf(h)) == Some(h)
  {
    match h
    case MinSec(m, s) =>
      HalfNumerals(h);
      Pad2RoundTrip(m);
      Pad2RoundTrip(s);
    case HourMinSec(hh, m, s) =>
      HalfNumerals(h);
      IntToStringRoundTrip(hh);
      Pad2RoundTrip(m);
      Pad2RoundTrip(s);
  }

  /** Every label reads back as the numbers it was made from. */
  lemma LabelRoundTrip(l: Label)
    ensures ParseLabel(RenderLabel(l)) == Some(l)
  {
    LabelHalves(l);
    match l
    case Single(h) =>
      HalfRoundTrip(h);
    case Pair(a, b) =>
      HalfRoundTrip(a);
      HalfRoundTrip(b);
  }

  /** `App.formatTime(elapsed, duration)`: the label it returns determines
      exactly the numbers it computed. */
  function FormatTime(elapsedMs: nat, totalMs: Option<nat>): (r: string)
    ensures ParseLabel(r) == Some(Layout(elapsedMs, totalMs))
  {
    LabelRoundTrip(Layout(elapsedMs, totalMs));
    RenderLabel(Layout(elapsedMs, totalMs))
  }

  // ---- What the label shows -------------------------------------------------

  /** Without a positive total only the elapsed side is shown: `MM:SS` below
      one hour, otherwise `H:MM:SS` with unpadded hours. */
  lemma ElapsedOnly(elapsedMs: nat, totalMs: Option<nat>)
    requires !Positive(totalMs)
    ensures var s := WholeSeconds(elapsedMs);
      Layout(elapsedMs, totalMs)
      == Single(if s < 3600 then MinSec(s / 60, s % 60)
                else HourMinSec(s / 3600, (s % 3600) / 60, s % 60 - 3600 * (s / 3600)))
  {
    var s := WholeSeconds(elapsedMs);
    if s < 3600 {
      SecondsBelowOneHour(s);
    }
  }

  /** With a positive total both sides are shown, and the total's hour count
      alone decides their form: below one hour of total the elapsed hours are
      dropped, from one hour on they are printed even when they are 0. */
  lemma TotalPicksForm(elapsedMs: nat, totalMs: Option<nat>)
    requires Positive(totalMs)
    ensures var se, st := WholeSeconds(elapsedMs), WholeSeconds(totalMs.value);
      var l := Layout(elapsedMs, totalMs);
      && l.Pair?
      && (l.elapsed.HourMinSec? <==> 3600 <= st)
      && (l.total.HourMinSec? <==> 3600 <= st)
      && (st < 3600 ==> l.elapsed == MinSec((se % 3600) / 60, se % 60 - 3600 * (se / 3600))
                        && l.total == MinSec(st / 60, st % 60))
      && (3600 <= st ==> l.elapsed == HourMinSec(se / 3600, (se % 3600) / 60, se % 60 - 3600 * (se / 3600)))
  {
    var st := WholeSeconds(totalMs.value);
    if st < 3600 {
      SecondsBelowOneHour(st);
    }
  }

  /** Times are floored to whole seconds first: a total under one second still
      counts as positive and is shown as `00:00`. */
  lemma SubSecondTotal(elapsedMs: nat, totalMs: nat)
    requires 0 < totalMs < 1000
    ensures Layout(elapsedMs, Some(totalMs)).Pair?
    ensures Layout(elapsedMs, Some(totalMs)).total == MinSec(0, 0)
    ensures var r := FormatTime(elapsedMs, Some(totalMs));
      6 <= |r| && r[|r| - 6..] == "/00:00"
  {
    var l := Layout(elapsedMs, Some(totalMs));
    assert WholeSeconds(totalMs) == 0 && SplitAsWritten(0) == Clock(0, 0, 0);
    assert l.total == MinSec(0, 0);
    var r := RenderHalf(l.elapsed) + ['/'] + RenderHalf(MinSec(0, 0));
    assert RenderHalf(MinSec(0, 0)) == "00:00";
    assert FormatTime(elapsedMs, Some(totalMs)) == r;
    assert r[|r| - 6..] == "/00:00";
  }

  /** A one-sided label is its only half as printed. */
  lemma FormatSingle(elapsedMs: nat, totalMs: Option<nat>, h: Half, shown: string)
    requires Layout(elapsedMs, totalMs) == Single(h) && RenderHalf(h) == shown
    ensures FormatTime(elapsedMs, totalMs) == shown
  {
  }

  /** A two-sided label is both halves as printed, joined by '/'. */
  lemma FormatPair(elapsedMs: nat, totalMs: Option<nat>, a: Half, b: Half, shown: string)
    requires Layout(elapsedMs, totalMs).Pair?
    requires Layout(elapsedMs, totalMs).elapsed == a && Layout(elapsedMs, totalMs).total == b
    requires shown == RenderHalf(a) + ['/'] + RenderHalf(b)
    ensures FormatTime(elapsedMs, totalMs) == shown
  {
  }

  /** The fields of the labels below one hour. */
  lemma ShortLayouts()
    ensures Layout(0, Some(0)) == Single(MinSec(0, 0)) && Layout(0, None) == Single(MinSec(0, 0))
    ensures Layout(5000, Some(0)) == Single(MinSec(0, 5))
    ensures Layout(65000, Some(130000)) == Pair(MinSec(1, 5), MinSec(2, 10))
  {
    assert SplitAsWritten(0) == Clock(0, 0, 0);
    assert SplitAsWritten(5) == Clock(0, 0, 5);
    assert SplitAsWritten(65) == Clock(0, 1, 5);
    assert SplitAsWritten(130) == Clock(0, 2, 10);
  }

  lemma ZeroLabel(totalMs: Option<nat>)
    requires totalMs == None || totalMs == Some(0)
    ensures FormatTime(0, totalMs) == "00:00"
  {
    ShortLayouts();
    FormatSingle(0, totalMs, MinSec(0, 0), "00:00");
  }

  lemma ZeroTotalLabel()
    ensures FormatTime(5000, Some(0)) == "00:05"
  {
    ShortLayouts();
    FormatSingle(5000, Some(0), MinSec(0, 5), "00:05");
  }

  lemma ShortPairLabel()
    ensures FormatTime(65000, Some(130000)) == "01:05/02:10"
  {
    ShortLayouts();
    assert RenderHalf(MinSec(1, 5)) == "01:05";
    assert RenderHalf(MinSec(2, 10)) == "02:10" by { assert Pad2(10) == "10"; }
    FormatPair(65000, Some(130000), MinSec(1, 5), MinSec(2, 10), "01:05/02:10");
  }

  /** Labels below one hour. */
  lemma ShortLabelExamples()
    ensures FormatTime(0, Some(0)) == "00:00"
    ensures FormatTime(0, None) == "00:00"
    ensures FormatTime(5000, Some(0)) == "00:05"
    ensures FormatTime(65000, Some(130000)) == "01:05/02:10"
  {
    ZeroLabel(Some(0));
    ZeroLabel(None);
    ZeroTotalLabel();
    ShortPairLabel();
  }

  /** The `%02d` numerals of the negative seconds fields used below. */
  lemma NegativeNumerals()
    ensures Pad2(-3599) == "-3599" && Pad2(-7200) == "-7200" && Pad2(-3560) == "-3560"
  {
    assert NatToString(35) == "35";
    assert NatToString(359) == "359";
    assert NatToString(3599) == "3599";
    assert NatToString(72) == "72";
    assert NatToString(720) == "720";
    assert NatToString(7200) == "7200";
    assert NatToString(356) == "356";
    assert NatToString(3560) == "3560";
  }

  // The halves of the examples from one hour on, as the program prints them.

  lemma ElapsedHourHalf()
    ensures RenderHalf(HourMinSec(1, 1, -3599)) == "1:01:-3599"
  {
    NegativeNumerals();
  }

  lemma TotalTwoHoursHalf()
    ensures RenderHalf(HourMinSec(2, 0, -7200)) == "2:00:-7200"
  {
    NegativeNumerals();
    assert Pad2(0) == "00";
  }

  lemma ElapsedZeroHoursHalf()
    ensures RenderHalf(HourMinSec(0, 0, 30)) == "0:00:30"
  {
    assert Pad2(0) == "00" && Pad2(30) == "30";
  }

  lemma TotalOneHourHalf()
    ensures RenderHalf(HourMinSec(1, 1, -3560)) == "1:01:-3560"
  {
    NegativeNumerals();
  }

  /** From one hour on the label is not the `1:01:01` one would expect:
      elapsed 3661 s is shown as `1:01:-3599`. */
  lemma HourLabelExample()
    ensures FormatTime(3661000, None) == "1:01:-3599"
  {
    assert SplitAsWritten(WholeSeconds(3661000)) == Clock(1, 1, -3599);
    ElapsedHourHalf();
    FormatSingle(3661000, None, HourMinSec(1, 1, -3599), "1:01:-3599");
  }

  lemma HourPairLayout()
    ensures Layout(3661000, Some(7200000)) == Pair(HourMinSec(1, 1, -3599), HourMinSec(2, 0, -7200))
  {
    assert SplitAsWritten(WholeSeconds(3661000)) == Clock(1, 1, -3599);
    assert SplitAsWritten(WholeSeconds(7200000)) == Clock(2, 0, -7200);
  }

  lemma HourPairExample()
    ensures FormatTime(3661000, Some(7200000)) == "1:01:-3599/2:00:-7200"
  {
    HourPairLayout();
    ElapsedHourHalf();
    TotalTwoHoursHalf();
    FormatPair(3661000, Some(7200000), HourMinSec(1, 1, -3599), HourMinSec(2, 0, -7200),
               "1:01:-3599/2:00:-7200");
  }

  lemma MixedPairLayout()
    ensures Layout(30000, Some(3700000)) == Pair(HourMinSec(0, 0, 30), HourMinSec(1, 1, -3560))
  {
    assert SplitAsWritten(WholeSeconds(30000)) == Clock(0, 0, 30);
    assert SplitAsWritten(WholeSeconds(3700000)) == Clock(1, 1, -3560);
  }

  /** Elapsed under one hour with a total over it: the elapsed side still
      shows its hours, `0:00:30`. */
  lemma MixedPairExample()
    ensures FormatTime(30000, Some(3700000)) == "0:00:30/1:01:-3560"
  {
    MixedPairLayout();
    ElapsedZeroHoursHalf();
    TotalOneHourHalf();
    FormatPair(30000, Some(3700000), HourMinSec(0, 0, 30), HourMinSec(1, 1, -3560),
               "0:00:30/1:01:-3560");
  }

  // ---- The reading the field arithmetic evidently aims at ---------------------

  /** Hours, minutes and seconds with the hours taken off once. */
  function SplitIntended(s: nat): (c: Clock)
    ensures Recombined(c) == s
    ensures c.hours == s / 3600 && 0 <= c.minutes < 60 && 0 <= c.seconds < 60
  {
    Clock(s / 3600, (s % 3600) / 60, s % 60)
  }

  /** As written, each side reads one full hour short per hour it holds, and
      it agrees with the intended reading exactly below one hour. */
  lemma AsWrittenLosesTheHours(s: nat)
    ensures Recombined(SplitAsWritten(s)) == s - 3600 * (s / 3600)
    ensures SplitAsWritten(s) == SplitIntended(s) <==> s < 3600
  {
    var c := SplitAsWritten(s);
    assert s == 3600 * (s / 3600) + 60 * ((s % 3600) / 60) + s % 60;
    if 3600 <= s {
      assert c.seconds < 0;
    }
  }

  function LayoutIntended(elapsedMs: nat, totalMs: Option<nat>): Label {
    var e := SplitIntended(WholeSeconds(elapsedMs));
    if Positive(totalMs) then Arrange(e, Some(SplitIntended(WholeSeconds(totalMs.value))))
    else Arrange(e, None)
  }

  /** formatTime with the seconds field computed once. */
  function FormatTimeIntended(elapsedMs: nat, totalMs: Option<nat>): string {
    RenderLabel(LayoutIntended(elapsedMs, totalMs))
  }

  /** The minutes and seconds of a half lie in 0..59. */
  predicate Normal(h: Half) {
    0 <= h.minutes < 60 && 0 <= h.seconds < 60
  }

  /** The seconds a half stands for, counting its hours when it shows them. */
  function HalfSeconds(h: Half): int {
    match h
    case MinSec(m, s) => m * 60 + s
    case HourMinSec(hh, m, s) => hh * 3600 + m * 60 + s
  }

  /** The intended label reads back as normal fields; a side that shows its
      hours stands for exactly its floored seconds, and the total side always
      does; only the elapsed side of a `MM:SS/MM:SS` label drops whole hours. */
  lemma IntendedLabelShowsTheTime(elapsedMs: nat, totalMs: Option<nat>)
    ensures var l := LayoutIntended(elapsedMs, totalMs);
      var se := WholeSeconds(elapsedMs);
      && ParseLabel(FormatTimeIntended(elapsedMs, totalMs)) == Some(l)
      && (l.Single? ==> Normal(l.only) && HalfSeconds(l.only) == se)
      && (l.Pair? ==> Normal(l.elapsed) && Normal(l.total)
                      && HalfSeconds(l.total) == WholeSeconds(totalMs.value)
                      && HalfSeconds(l.elapsed) == if l.elapsed.HourMinSec? then se else se % 3600)
  {
    var l := LayoutIntended(elapsedMs, totalMs);
    LabelRoundTrip(l);
    IntendedHalves(WholeSeconds(elapsedMs));
    if Positive(totalMs) {
      IntendedHalves(WholeSeconds(totalMs.value));
    }
  }

  lemma IntendedHalves(s: nat)
    ensures Normal(Long(SplitIntended(s))) && HalfSeconds(Long(SplitIntended(s))) == s
    ensures Normal(Short(SplitIntended(s))) && HalfSeconds(Short(SplitIntended(s))) == s % 3600
    ensures s < 3600 ==> HalfSeconds(Short(SplitIntended(s))) == s
  {
    assert s % 3600 == 60 * ((s % 3600) / 60) + s % 60;
  }

  /** Below one hour on every side shown the two readings print the same label. */
  lemma IntendedAgreesBelowOneHour(elapsedMs: nat, totalMs: Option<nat>)
    requires WholeSeconds(elapsedMs) < 3600
    requires Positive(totalMs) ==> WholeSeconds(totalMs.value) < 3600
    ensures FormatTimeIntended(elapsedMs, totalMs) == FormatTime(elapsedMs, totalMs)
  {
    AsWrittenLosesTheHours(WholeSeconds(elapsedMs));
    if Positive(totalMs) {
      AsWrittenLosesTheHours(WholeSeconds(totalMs.value));
    }
  }

  lemma IntendedHourPairLayout()
    ensures LayoutIntended(3661000, Some(7200000)) == Pair(HourMinSec(1, 1, 1), HourMinSec(2, 0, 0))
  {
    assert WholeSeconds(3661000) == 3661 && WholeSeconds(7200000) == 7200;
    assert SplitIntended(3661) == Clock(1, 1, 1);
    assert SplitIntended(7200) == Clock(2, 0, 0);
  }

  lemma IntendedElapsedHalf()
    ensures RenderHalf(HourMinSec(1, 1, 1)) == "1:01:01"
  {
    assert Pad2(1) == "01" && IntToString(1) == "1";
  }

  lemma IntendedTotalHalf()
    ensures RenderHalf(HourMinSec(2, 0, 0)) == "2:00:00"
  {
    assert Pad2(0) == "00" && IntToString(2) == "2";
  }

  /** A two-sided label as printed from its halves. */
  lemma RenderPair(a: Half, b: Half, shown: string)
    requires shown == RenderHalf(a) + ['/'] + RenderHalf(b)
    ensures RenderLabel(Pair(a, b)) == shown
  {
  }

  lemma IntendedHourPairExample()
    ensures FormatTimeIntended(3661000, Some(7200000)) == "1:01:01/2:00:00"
  {
    IntendedHourPairLayout();
    IntendedElapsedHalf();
    IntendedTotalHalf();
    RenderPair(HourMinSec(1, 1, 1), HourMinSec(2, 0, 0), "1:01:01/2:00:00");
  }
}
