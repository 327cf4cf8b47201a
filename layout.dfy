/**
 * The time grid of the calendar views (app/static/script.js): a fixed
 * 09:00-21:00 day of 30-minute slots, 24 pixels each. Times arrive as
 * "HH:MM" or "HH:MM:SS" strings and are read with `split(":").map(Number)`.
 */
module Layout {
  import opened Wrappers
  import opened Text

  const SlotMin: int := 30
  const DayStart: int := 9 * 60
  const DayEnd: int := 21 * 60
  const SlotHeight: int := 24

  /** Minutes since midnight of "HH:MM[:...]"; `None` where JavaScript gets NaN. */
  function ClockMinutes(hhmm: string): Option<int> {
    var parts := Split(hhmm, ':');
    var h, mm := NumberAt(parts, 0), NumberAt(parts, 1);
    if h.None? || mm.None? then None else Some(h.value * 60 + mm.value)
  }

  /** The pixel offset of a minute of the day below the top of the grid. */
  function TopOfMinutes(min: int): real {
    (min - DayStart) as real / SlotMin as real * SlotHeight as real
  }

  /** `posTopPx` (app/static/script.js:70-74). */
  function PosTopPx(hhmm: string): Option<real> {
    match ClockMinutes(hhmm)
    case None => None
    case Some(min) => Some(TopOfMinutes(min))
  }

  /** `heightPx` (app/static/script.js:75-79): slots spanned, in pixels, less a 2 px gap. */
  function HeightPx(start: string, end: string): Option<real> {
    match (ClockMinutes(start), ClockMinutes(end))
    case (Some(s), Some(e)) => Some((e - s) as real / SlotMin as real * SlotHeight as real - 2.0)
    case _ => None
  }

  /** The rendered height `Math.max(20, heightPx(...))` (app/static/script.js:456); NaN stays NaN. */
  function BlockHeight(start: string, end: string): Option<real> {
    match HeightPx(start, end)
    case None => None
    case Some(h) => Some(if h < 20.0 then 20.0 else h)
  }

  /** "HH:MM" from minutes since midnight, as the click handler writes it (app/static/script.js:403-404). */
  function SlotLabel(min: int): string {
    Pad2(min / 60) + ":" + Pad2(min % 60)
  }

  /** A "HH:MM" label reads back as its hours and minutes; anything after a further ':' is ignored. */
  lemma ClockOfLabel(h: int, m: int)
    requires 0 <= h && 0 <= m
    ensures ClockMinutes(Pad2(h) + ":" + Pad2(m)) == Some(h * 60 + m)
    ensures forall sec :: ClockMinutes(Pad2(h) + ":" + Pad2(m) + ":" + sec) == Some(h * 60 + m)
  {
    var a, b := Pad2(h), Pad2(m);
    Pad2Value(h);
    Pad2Value(m);
    DigitsHaveNoSeparators(a);
    DigitsHaveNoSeparators(b);
    SplitJoin(a, ':', b);
    SplitNone(b, ':');
    assert a + ":" + b == a + [':'] + b;
    ClockOfPieces(a + ":" + b, h, m);
    forall sec: string ensures ClockMinutes(a + ":" + b + ":" + sec) == Some(h * 60 + m) {
      var s := a + ":" + b + ":" + sec;
      assert s == a + [':'] + (b + [':'] + sec);
      SplitJoin(a, ':', b + [':'] + sec);
      SplitJoin(b, ':', sec);
      ClockOfPieces(s, h, m);
    }
  }

  /** The clock of a string whose first two ':'-separated pieces are numbers. */
  lemma ClockOfPieces(s: string, h: int, m: int)
    requires |Split(s, ':')| >= 2
    requires JsNumber(Split(s, ':')[0]) == Some(h) && JsNumber(Split(s, ':')[1]) == Some(m)
    ensures ClockMinutes(s) == Some(h * 60 + m)
  {
  }

  /** A slot label reads back as the minute it was made from. */
  lemma SlotLabelRoundTrip(min: int)
    requires 0 <= min
    ensures ClockMinutes(SlotLabel(min)) == Some(min)
  {
    ClockOfLabel(min / 60, min % 60);
  }

  /** 09:00 is the top of the grid. */
  lemma TopOfDayStart()
    ensures PosTopPx("09:00") == Some(0.0)
    ensures PosTopPx("09:00:00") == Some(0.0)
  {
    NineOClock();
  }

  /** Each 30 minutes moves a block down by exactly one 24 px slot. */
  lemma TopStep(min: int)
    ensures TopOfMinutes(min + SlotMin) == TopOfMinutes(min) + SlotHeight as real
    ensures TopOfMinutes(min) == (min - DayStart) as real * 0.8
  {
  }

  /** posTopPx is monotone in the time of day. */
  lemma TopMonotone(a: string, b: string)
    requires ClockMinutes(a).Some? && ClockMinutes(b).Some?
    requires ClockMinutes(a).value <= ClockMinutes(b).value
    ensures PosTopPx(a).value <= PosTopPx(b).value
  {
  }

  /** A block's height is the slot height of its duration less the 2 px gap, and never below 20 px. */
  lemma HeightOfDuration(start: string, end: string)
    requires ClockMinutes(start).Some? && ClockMinutes(end).Some?
    ensures HeightPx(start, end).value == TopOfMinutes(ClockMinutes(end).value) - TopOfMinutes(ClockMinutes(start).value) - 2.0
    ensures BlockHeight(start, end).value >= 20.0
    ensures HeightPx(start, end).value >= 20.0 ==> BlockHeight(start, end) == HeightPx(start, end)
  {
  }

  /** The clock strings used by the examples below. */
  lemma SampleClocks()
    ensures ClockMinutes("09:00") == Some(540) && ClockMinutes("09:00:00") == Some(540)
    ensures ClockMinutes("09:30") == Some(570)
    ensures ClockMinutes("10:00") == Some(600) && ClockMinutes("10:00:00") == Some(600)
  {
    NineOClock();
    HalfPastNine();
    TenOClock();
  }

  lemma NineOClock()
    ensures ClockMinutes("09:00") == Some(540) && ClockMinutes("09:00:00") == Some(540)
  {
    ClockOfLabel(9, 0);
    assert Pad2(9) + ":" + Pad2(0) == "09:00";
    assert Pad2(9) + ":" + Pad2(0) + ":" + "00" == "09:00:00";
  }

  lemma HalfPastNine()
    ensures ClockMinutes("09:30") == Some(570)
  {
    ClockOfLabel(9, 30);
    assert Pad2(9) + ":" + Pad2(30) == "09:30";
  }

  lemma TenOClock()
    ensures ClockMinutes("10:00") == Some(600) && ClockMinutes("10:00:00") == Some(600)
  {
    ClockOfLabel(10, 0);
    assert Pad2(10) + ":" + Pad2(0) == "10:00";
    assert Pad2(10) + ":" + Pad2(0) + ":" + "00" == "10:00:00";
  }

  /** A one-hour session is 46 px tall. */
  lemma HourBlockHeight()
    ensures HeightPx("09:00", "10:00") == Some(46.0) && BlockHeight("09:00", "10:00") == Some(46.0)
  {
    NineOClock();
    TenOClock();
    HeightOfClocks("09:00", "10:00", 540, 600);
  }

  /** A half-hour session is 22 px tall. */
  lemma HalfHourBlockHeight()
    ensures HeightPx("09:00", "09:30") == Some(22.0) && BlockHeight("09:00", "09:30") == Some(22.0)
  {
    NineOClock();
    HalfPastNine();
    HeightOfClocks("09:00", "09:30", 540, 570);
  }

  /** An empty session would be -2 px tall and is clamped to 20 px. */
  lemma EmptyBlockHeight()
    ensures HeightPx("09:00:00", "09:00:00") == Some(-2.0) && BlockHeight("09:00:00", "09:00:00") == Some(20.0)
  {
    NineOClock();
    HeightOfClocks("09:00:00", "09:00:00", 540, 540);
  }

  /** The height of a block whose ends read as s and e. */
  lemma HeightOfClocks(start: string, end: string, s: int, e: int)
    requires ClockMinutes(start) == Some(s) && ClockMinutes(end) == Some(e)
    ensures HeightPx(start, end) == Some((e - s) as real * 0.8 - 2.0)
    ensures BlockHeight(start, end) == Some(if (e - s) as real * 0.8 - 2.0 < 20.0 then 20.0 else (e - s) as real * 0.8 - 2.0)
  {
  }

  /** `Math.round`: the nearest integer, halves rounded up. */
  function Round(x: real): (r: int)
    ensures x - 0.5 < r as real <= x + 0.5
  {
    (x + 0.5).Floor
  }

  /** The start and end minute a click at y pixels below the column top opens (app/static/script.js:396-398). */
  function ClickSlot(y: real): (r: (int, int)) {
    var slots := Round(y / SlotHeight as real);
    var fromStart := Max(0, Min(DayEnd - DayStart, slots * SlotMin));
    var startMin := DayStart + fromStart;
    (startMin, Min(DayEnd, startMin + 60))
  }

  function Min(a: int, b: int): int { if a < b then a else b }
  function Max(a: int, b: int): int { if a < b then b else a }

  /** A click opens a grid-aligned slot inside the day window, an hour long unless cut at 21:00. */
  lemma ClickSlotInWindow(y: real)
    ensures var (s, e) := ClickSlot(y);
      && s % SlotMin == 0 && DayStart <= s <= DayEnd
      && s <= e <= DayEnd
      && (s == e <==> s == DayEnd)
      && (e == s + 60 || e == DayEnd)
  {
  }

  /** Inside the grid, a click lands on the slot boundary nearest to it, at most half a slot away. */
  lemma ClickSlotNearest(y: real)
    requires -12.0 <= y < 588.0
    ensures var (s, _) := ClickSlot(y);
      var top := TopOfMinutes(s);
      top - 12.0 <= y < top + 12.0 && PosTopPx(SlotLabel(s)) == Some(top)
  {
    var (s, _) := ClickSlot(y);
    var slots := Round(y / 24.0);
    assert 0 <= slots <= 24;
    assert s == DayStart + slots * SlotMin;
    SlotLabelRoundTrip(s);
  }

  /** The hour labels of the time rail (app/static/script.js:377-384), from 09:00 to 21:00 inclusive. */
  method TimeRailLabels() returns (labels: seq<string>)
    ensures |labels| == (DayEnd - DayStart) / SlotMin + 1
    ensures forall i :: 0 <= i < |labels| ==> labels[i] == SlotLabel(RailMinute(i))
  {
    labels := RailOf(SlotLabel);
  }

  /** The minute of the day of the i-th rail label. */
  function RailMinute(i: int): int {
    DayStart + i * SlotMin
  }

  /** The rail loop, for any way `write` of writing a minute of the day. */
  method RailOf<T>(write: int -> T) returns (labels: seq<T>)
    ensures |labels| == (DayEnd - DayStart) / SlotMin + 1
    ensures forall i :: 0 <= i < |labels| ==> labels[i] == write(RailMinute(i))
  {
    labels := [];
    var m := DayStart;
    while m <= DayEnd
      invariant |labels| <= 25 && m == RailMinute(|labels|)
      invariant forall i :: 0 <= i < |labels| ==> labels[i] == write(RailMinute(i))
    {
      labels := labels + [write(m)];
      m := m + SlotMin;
    }
  }

  /** The i-th rail label sits exactly i slots below the top of the grid. */
  lemma RailLabelTop(i: nat)
    ensures PosTopPx(SlotLabel(RailMinute(i))) == Some((i * SlotHeight) as real)
  {
    SlotLabelRoundTrip(RailMinute(i));
  }

  /** The two colours of a session block. */
  datatype Color = Color(bg: string, border: string)

  /** `statusColor` (app/static/script.js:60-69). */
  function StatusColor(status: string): Color {
    match status
    case "PENDING" => Color("#e5e7eb", "#d1d5db")
    case "REGISTERED" => Color("#dbeafe", "#93c5fd")
    case "NOT_REGISTERED" => Color("#fde68a", "#f59e0b")
    case "DONE" => Color("#d1fae5", "#34d399")
    case "CANCELED" => Color("#fecaca", "#f87171")
    case _ => Color("#e5e7eb", "#d1d5db")
  }

  /** The five statuses have five different backgrounds; any other status is drawn like PENDING. */
  lemma StatusColors(other: string)
    requires other !in ["PENDING", "REGISTERED", "NOT_REGISTERED", "DONE", "CANCELED"]
    ensures StatusColor(other) == StatusColor("PENDING")
    ensures forall a, b ::
      (a in ["PENDING", "REGISTERED", "NOT_REGISTERED", "DONE", "CANCELED"]
       && b in ["PENDING", "REGISTERED", "NOT_REGISTERED", "DONE", "CANCELED"] && a != b)
      ==> StatusColor(a).bg != StatusColor(b).bg
  {
  }

  /** One positioned block of the week, day and personal views (app/static/script.js:453-457). */
  datatype Block = Block(top: Option<real>, height: Option<real>, color: Color)

  function BlockFor(start: string, end: string, status: string): Block {
    Block(PosTopPx(start), BlockHeight(start, end), StatusColor(status))
  }

  /** A PENDING session from 09:00 to 10:00 is drawn at the top, 46 px tall, in grey. */
  lemma PendingHourBlock()
    ensures BlockFor("09:00:00", "10:00:00", "PENDING") == Block(Some(0.0), Some(46.0), Color("#e5e7eb", "#d1d5db"))
  {
    var b := BlockFor("09:00:00", "10:00:00", "PENDING");
    assert b.top == Some(0.0) by {
      TopOfDayStart();
    }
    assert b.height == Some(46.0) by {
      NineOClock();
      TenOClock();
      HeightOfClocks("09:00:00", "10:00:00", 540, 600);
    }
  }
}
