/**
 * The client's calendar boards (app/static/script.js): the week view groups
 * the fetched sessions by date into seven columns, the day view by counselor
 * into rows, the personal view lists one counselor's day, and the month view
 * lays the month out as whole Monday-first weeks of cells. Every list is
 * ordered by start time with a stable sort.
 */
module Board {
  import opened Wrappers
  import opened Text
  import opened Order
  import opened Grouping
  import opened Calendar

  /** The fields of a fetched session that the boards read. */
  datatype Event = Event(id: int, date: string, startTime: string, endTime: string, counselorId: int, status: string)

  function DateOf(e: Event): string { e.date }
  function CounselorOf(e: Event): int { e.counselorId }

  /** `(a, b) => a.start_time.localeCompare(b.start_time) <= 0`. */
  predicate StartLe(a: Event, b: Event) {
    StrLe(a.startTime, b.startTime)
  }

  lemma StartLeIsPreorder()
    ensures TotalPreorder(StartLe)
  {
    forall a: Event, b: Event ensures StartLe(a, b) || StartLe(b, a) {
      StrLeTotal(a.startTime, b.startTime);
    }
    forall a: Event, b: Event, c: Event | StartLe(a, b) && StartLe(b, c) ensures StartLe(a, c) {
      StrLeTransitive(a.startTime, b.startTime, c.startTime);
    }
  }

  /**
   * `(byDate.get(d) || []).slice().sort(...)` (app/static/script.js:449 and 851):
   * exactly the sessions dated d, ordered by start time.
   */
  function DayList(events: seq<Event>, d: string): (r: seq<Event>)
    ensures SortedBy(r, StartLe)
    ensures multiset(r) == multiset(Filter(events, HasKey(DateOf, d)))
  {
    StartLeIsPreorder();
    LookupGroupsOf(events, DateOf, d);
    Sort(Lookup(GroupsOf(events, DateOf), d), StartLe)
  }

  /** The date string of week column i (app/static/script.js:448). */
  function ColumnDate(ws: JsDate, i: int): string {
    ToDateInput(AddMinutes(ws, i * 24 * 60))
  }

  /** The seven columns of the week starting at ws. */
  function WeekColumns(events: seq<Event>, ws: JsDate): (cols: seq<seq<Event>>)
    ensures |cols| == 7
    ensures forall i :: 0 <= i < 7 ==> multiset(cols[i]) == multiset(Filter(events, HasKey(DateOf, ColumnDate(ws, i))))
    ensures forall i :: 0 <= i < 7 ==> SortedBy(cols[i], StartLe)
  {
    seq(7, i requires 0 <= i < 7 => DayList(events, ColumnDate(ws, i)))
  }

  /** Column i shows day i of the week, and the seven column dates differ. */
  lemma ColumnDates(ws: JsDate, i: int, j: int)
    requires ValidJsDate(ws) && ws.date.year >= 100
    requires 0 <= i < 7 && 0 <= j < 7 && i != j
    ensures DayNumber(AddMinutes(ws, i * 24 * 60).date) == DayNumber(ws.date) + i
    ensures ColumnDate(ws, i) != ColumnDate(ws, j)
  {
    AddMinutesWholeDays(ws, i);
    AddMinutesWholeDays(ws, j);
    var a, b := AddMinutes(ws, i * 1440), AddMinutes(ws, j * 1440);
    assert i * 24 * 60 == i * 1440 && j * 24 * 60 == j * 1440;
    YearNotBefore(ws.date, a.date);
    YearNotBefore(ws.date, b.date);
    DateInputRoundTrip(a);
    DateInputRoundTrip(b);
  }

  /** A later day is not in an earlier year. */
  lemma YearNotBefore(a: CivilDate, b: CivilDate)
    requires ValidDate(a) && ValidDate(b) && DayNumber(a) <= DayNumber(b)
    ensures a.year <= b.year
  {
    if b.year < a.year {
      DayNumberMonthOrder(b, a);
    }
  }

  /** A session dated within the week is shown in exactly one column, its day's. */
  lemma EventInOneColumn(events: seq<Event>, ws: JsDate, e: Event, i: int)
    requires ValidJsDate(ws) && ws.date.year >= 100
    requires e in events && 0 <= i < 7 && e.date == ColumnDate(ws, i)
    ensures forall j :: 0 <= j < 7 ==> (e in WeekColumns(events, ws)[j] <==> j == i)
  {
    forall j | 0 <= j < 7 ensures e in WeekColumns(events, ws)[j] <==> j == i {
      InColumn(events, ws, e, j);
      if j != i {
        ColumnDates(ws, i, j);
      }
    }
  }

  /** A session is in week column j exactly when it is dated that column's day. */
  lemma InColumn(events: seq<Event>, ws: JsDate, e: Event, j: int)
    requires e in events && 0 <= j < 7
    ensures e in WeekColumns(events, ws)[j] <==> e.date == ColumnDate(ws, j)
  {
    var d := ColumnDate(ws, j);
    var f := Filter(events, HasKey(DateOf, d));
    SameElements(WeekColumns(events, ws)[j], f, e);
    assert HasKey(DateOf, d)(e) <==> e.date == d;
  }

  /** One row of the day view: a counselor and their sessions. */
  function SortGroups(g: Groups<int, Event>): (r: Groups<int, Event>)
    ensures |r| == |g|
    ensures forall i :: 0 <= i < |g| ==> r[i].0 == g[i].0 && SortedBy(r[i].1, StartLe) && multiset(r[i].1) == multiset(g[i].1)
  {
    StartLeIsPreorder();
    if g == [] then [] else [(g[0].0, Sort(g[0].1, StartLe))] + SortGroups(g[1..])
  }

  /** `renderDayRows` (app/static/script.js:601-612): a row per counselor, in first-seen order. */
  method DayRows(list: seq<Event>) returns (rows: Groups<int, Event>)
    ensures rows == SortGroups(GroupsOf(list, CounselorOf))
  {
    var byCounselor := GroupBy(list, CounselorOf);
    rows := SortGroups(byCounselor);
  }

  /**
   * Each counselor has one row, each session lies in its counselor's row and
   * no other, and each row is ordered by start time.
   */
  lemma DayRowsPartition(list: seq<Event>)
    ensures var rows := SortGroups(GroupsOf(list, CounselorOf));
      && (forall i, j :: 0 <= i < j < |rows| ==> rows[i].0 != rows[j].0)
      && (forall i :: 0 <= i < |rows| ==>
            SortedBy(rows[i].1, StartLe) && multiset(rows[i].1) == multiset(Filter(list, HasKey(CounselorOf, rows[i].0))))
      && (forall e :: e in list ==> exists i :: 0 <= i < |rows| && rows[i].0 == e.counselorId)
  {
    var g := GroupsOf(list, CounselorOf);
    EachItemInOneGroup(list, CounselorOf);
    var rows := SortGroups(g);
    assert forall i :: 0 <= i < |rows| ==> rows[i].0 == g[i].0;
    forall i | 0 <= i < |rows|
      ensures multiset(rows[i].1) == multiset(Filter(list, HasKey(CounselorOf, rows[i].0)))
    {
      assert g[i].1 == Filter(list, HasKey(CounselorOf, g[i].0));
    }
    forall e | e in list ensures exists i :: 0 <= i < |rows| && rows[i].0 == e.counselorId {
      var i :| 0 <= i < |g| && g[i].0 == CounselorOf(e);
      assert rows[i].0 == e.counselorId;
    }
  }

  /** `loadMyDay` (app/static/script.js:766): one counselor's day, ordered by start time. */
  function MyDay(list: seq<Event>): (r: seq<Event>)
    ensures SortedBy(r, StartLe) && multiset(r) == multiset(list)
  {
    StartLeIsPreorder();
    Sort(list, StartLe)
  }

  /** A cell of the month grid: padding, or a day of the month with its sessions. */
  datatype Cell = Dim | Day(dayNum: int, date: string, items: seq<Event>)

  /** `Math.ceil((fd + dim) / 7) * 7` for a non-negative cell count. */
  function TotalCells(n: nat): (t: nat)
    ensures t % 7 == 0 && n <= t < n + 7
  {
    (n + 6) / 7 * 7
  }

  /** `${year}-${pad2(month + 1)}-${pad2(dayNum)}` (app/static/script.js:844). */
  function MonthDateString(year: int, month: int, dayNum: int): string {
    IntToString(year) + "-" + Pad2(month + 1) + "-" + Pad2(dayNum)
  }

  /** The cell at index i of the grid. */
  function CellAt(byDate: Groups<string, Event>, year: int, month: int, fd: int, dim: int, i: int): Cell {
    var dayNum := i - fd + 1;
    if dayNum < 1 || dayNum > dim then Dim
    else
      var d := MonthDateString(year, month, dayNum);
      StartLeIsPreorder();
      Day(dayNum, d, Sort(Lookup(byDate, d), StartLe))
  }

  /**
   * A month grid: whole weeks, fd leading padding cells, then the dim days of
   * the month, each with its date string and its sessions in start order,
   * then padding to the end of the last week.
   */
  predicate IsMonthGrid(cells: seq<Cell>, sessions: seq<Event>, year: int, month: int, fd: int, dim: int) {
    && 0 <= fd && 0 <= dim
    && |cells| % 7 == 0 && fd + dim <= |cells| < fd + dim + 7
    && (forall i :: 0 <= i < |cells| ==> (cells[i].Day? <==> fd <= i < fd + dim))
    && (forall i :: fd <= i < fd + dim ==>
          cells[i] == Day(i - fd + 1, MonthDateString(year, month, i - fd + 1),
                          DayList(sessions, MonthDateString(year, month, i - fd + 1))))
  }

  /** `renderMonthGrid` (app/static/script.js:820-885), without the DOM. */
  method RenderMonthGrid(sessions: seq<Event>, year: int, month: int) returns (cells: seq<Cell>)
    ensures IsMonthGrid(cells, sessions, year, month, FirstWeekday(year, month), DaysInMonth(year, month))
  {
    var fd := FirstWeekday(year, month);
    var dim := DaysInMonth(year, month);
    var byDate := GroupBy(sessions, DateOf);
    cells := BuildCells(sessions, byDate, year, month, fd, dim);
  }

  /** The cell loop of renderMonthGrid (app/static/script.js:835-884). */
  method BuildCells(sessions: seq<Event>, byDate: Groups<string, Event>, year: int, month: int, fd: nat, dim: nat)
    returns (cells: seq<Cell>)
    requires byDate == GroupsOf(sessions, DateOf)
    ensures IsMonthGrid(cells, sessions, year, month, fd, dim)
  {
    var totalCells := TotalCells(fd + dim);
    cells := CellLoop(totalCells, k => CellAt(byDate, year, month, fd, dim, k));
    CellsAreGrid(cells, sessions, byDate, year, month, fd, dim);
  }

  /** The cells 0 .. n - 1, cell k being written by `cell(k)`. */
  method CellLoop<T>(n: nat, cell: int -> T) returns (cells: seq<T>)
    ensures |cells| == n
    ensures forall k :: 0 <= k < n ==> cells[k] == cell(k)
  {
    cells := [];
    var i := 0;
    while i < n
      invariant 0 <= i <= n && |cells| == i
      invariant forall k :: 0 <= k < i ==> cells[k] == cell(k)
    {
      cells := cells + [cell(i)];
      i := i + 1;
    }
  }

  /** The cells CellAt computes for indices 0 .. TotalCells(fd + dim) - 1 form the month grid. */
  lemma CellsAreGrid(cells: seq<Cell>, sessions: seq<Event>, byDate: Groups<string, Event>,
                     year: int, month: int, fd: nat, dim: nat)
    requires byDate == GroupsOf(sessions, DateOf)
    requires |cells| == TotalCells(fd + dim)
    requires forall k :: 0 <= k < |cells| ==> cells[k] == CellAt(byDate, year, month, fd, dim, k)
    ensures IsMonthGrid(cells, sessions, year, month, fd, dim)
  {
    forall k | 0 <= k < |cells|
      ensures cells[k].Day? <==> fd <= k < fd + dim
    {
      assert cells[k] == CellAt(byDate, year, month, fd, dim, k);
    }
    forall k | fd <= k < fd + dim
      ensures cells[k] == Day(k - fd + 1, MonthDateString(year, month, k - fd + 1),
                              DayList(sessions, MonthDateString(year, month, k - fd + 1)))
    {
      assert cells[k] == CellAt(byDate, year, month, fd, dim, k);
    }
  }

  /** The grid has dim in-month cells, fd leading dim cells, and the rest of the last week dim. */
  lemma InMonthCellCount(cells: seq<Cell>, fd: nat, dim: nat)
    requires fd + dim <= |cells|
    requires forall i :: 0 <= i < |cells| ==> (cells[i].Day? <==> fd <= i < fd + dim)
    ensures Count(cells, (c: Cell) => c.Day?) == dim
    ensures Count(cells[..fd], (c: Cell) => c.Dim?) == fd
  {
    CountRange(cells, 0, |cells|, fd, dim);
    assert cells[0..|cells|] == cells;
    DimPrefix(cells[..fd]);
  }

  lemma {:induction false} CountRange(cells: seq<Cell>, lo: nat, hi: nat, fd: nat, dim: nat)
    requires lo <= hi <= |cells|
    requires forall i :: 0 <= i < |cells| ==> (cells[i].Day? <==> fd <= i < fd + dim)
    ensures Count(cells[lo..hi], (c: Cell) => c.Day?) == Overlap(lo, hi, fd, fd + dim)
    decreases hi - lo
  {
    if lo < hi {
      CountRange(cells, lo + 1, hi, fd, dim);
      assert cells[lo..hi][1..] == cells[lo + 1..hi];
    }
  }

  /** The number of integers in both [lo, hi) and [a, b). */
  function Overlap(lo: int, hi: int, a: int, b: int): int {
    var l := if lo < a then a else lo;
    var h := if hi < b then hi else b;
    if l < h then h - l else 0
  }

  lemma {:induction false} DimPrefix(s: seq<Cell>)
    requires forall i :: 0 <= i < |s| ==> s[i].Dim?
    ensures Count(s, (c: Cell) => c.Dim?) == |s|
  {
    if s != [] {
      DimPrefix(s[1..]);
    }
  }

  /** Cell dayNum shows the calendar day `new Date(year, month, dayNum)`. */
  lemma MonthCellDay(year: int, month: int, dayNum: int)
    requires year >= 100 && 0 <= month <= 11 && 1 <= dayNum <= DaysInMonth(year, month)
    ensures MakeDate(year, month, dayNum) == CivilDate(year, month + 1, dayNum)
  {
    var r := MakeDate(year, month, dayNum);
    var c := CivilDate(year, month + 1, dayNum);
    assert MapYear(year) == year && month / 12 == 0 && month % 12 + 1 == month + 1;
    assert ValidDate(c) by {
      DaysInMonthIsMonthLength(year, month);
    }
    assert DayNumber(r) == DayNumber(c) by {
      SameMonthDays(CivilDate(year, month + 1, 1), c);
    }
    DayNumberInjective(r, c);
  }

  /** The date string of cell dayNum is that day's "YYYY-MM-DD". */
  lemma MonthCellDate(year: int, month: int, dayNum: int)
    requires year >= 100 && 0 <= month <= 11 && 1 <= dayNum <= DaysInMonth(year, month)
    ensures ToDateInput(JsDate(MakeDate(year, month, dayNum), 0)) == MonthDateString(year, month, dayNum)
  {
    MonthCellDay(year, month, dayNum);
  }

  /** Within a month, day numbers advance with the day of the month. */
  lemma SameMonthDays(a: CivilDate, b: CivilDate)
    requires 1 <= a.month <= 12 && a.year == b.year && a.month == b.month
    ensures DayNumber(b) == DayNumber(a) + b.day - a.day
  {
  }

  /** The day in cell i falls on the weekday of column i % 7, Monday being column 0. */
  lemma MonthCellWeekday(year: int, month: int, fd: int, i: int)
    requires fd == FirstWeekday(year, month)
    ensures (Weekday(MakeDate(year, month, i - fd + 1)) + 6) % 7 == i % 7
  {
    var d := i - fd + 1;
    var a := DayNumber(CivilDate(MapYear(year) + month / 12, month % 12 + 1, 1)) + 6;
    WeekdayOfDay(year, month, 1, a);
    WeekdayOfDay(year, month, d, a);
    ColumnArithmetic(a, d, fd, i);
  }

  lemma WeekdayOfDay(year: int, month: int, d: int, a: int)
    requires a == DayNumber(CivilDate(MapYear(year) + month / 12, month % 12 + 1, 1)) + 6
    ensures Weekday(MakeDate(year, month, d)) == (a + d - 1) % 7
  {
    var r := MakeDate(year, month, d);
    assert DayNumber(r) + 6 == a + d - 1;
  }

  lemma ColumnArithmetic(a: int, d: int, fd: int, i: int)
    requires fd == ((a + 1 - 1) % 7 + 6) % 7 && i == fd + d - 1
    ensures ((a + d - 1) % 7 + 6) % 7 == i % 7
  {
    assert a + 1 - 1 == a;
    ModSevenShift(a + d - 1, 6);
    ModSevenShift(a % 7 + 6, d - 1);
    ModSevenShift(a, 6 + d - 1);
  }
}
