/**
 * The mismatch page (app/routers/views.py `mismatch_page`): registered
 * sessions whose registered subject differs from the requested one, newest
 * day first, each formatted into a row of display strings.
 */
module Mismatch {
  import opened Wrappers
  import opened Order
  import opened Text
  import opened Calendar
  import opened Models
  import opened Labels
  import opened Stats
  import Layout

  /** The resolved query: range and the optional branch, team and mode filters. */
  datatype MismatchQuery = MismatchQuery(from: CivilDate, to: CivilDate, branch: Option<string>, team: Option<string>, mode: Option<string>)

  /** The filter of app/routers/views.py:56-68. */
  predicate Shown(q: MismatchQuery, s: Session) {
    && DateInRange(s.date, q.from, q.to)
    && s.status == "REGISTERED"
    && s.requestedSubjectId.Some? && s.registeredSubjectId.Some?
    && s.requestedSubjectId.value != s.registeredSubjectId.value
    && (!TruthyStr(q.branch) || s.branch == q.branch.value)
    && (!TruthyStr(q.team) || s.team == q.team.value)
    && (!TruthyStr(q.mode) || s.mode == q.mode.value)
  }

  function ShownRow(q: MismatchQuery): SessionRow -> bool {
    (r: SessionRow) => Shown(q, r.session)
  }

  /** Date descending, then start time ascending. */
  predicate NewestFirst(a: SessionRow, b: SessionRow) {
    if a.session.date == b.session.date then TimeLe(a.session.startTime, b.session.startTime)
    else DateLe(b.session.date, a.session.date)
  }

  lemma NewestFirstIsPreorder()
    ensures TotalPreorder(NewestFirst)
  {
    forall a: SessionRow, b: SessionRow, c: SessionRow
      ensures NewestFirst(a, b) || NewestFirst(b, a)
      ensures NewestFirst(a, b) && NewestFirst(b, c) ==> NewestFirst(a, c)
    {
      DateLeIsOrder(a.session.date, b.session.date, c.session.date);
      DateLeIsOrder(c.session.date, b.session.date, a.session.date);
      DateLeIsOrder(a.session.date, c.session.date, b.session.date);
    }
  }

  /**
   * The query of app/routers/views.py:56-70: exactly the stored sessions the
   * filter keeps, newest day first and by start time within a day.
   */
  function MismatchRows(rows: seq<SessionRow>, q: MismatchQuery): (r: seq<SessionRow>)
    ensures forall x :: x in r <==> x in rows && Shown(q, x.session)
    ensures multiset(r) == multiset(Filter(rows, ShownRow(q)))
    ensures forall i, j :: 0 <= i < j < |r| ==>
      && DateLe(r[j].session.date, r[i].session.date)
      && (r[i].session.date == r[j].session.date ==> TimeLe(r[i].session.startTime, r[j].session.startTime))
  {
    NewestFirstIsPreorder();
    var picked := Filter(rows, ShownRow(q));
    var sorted := Sort(picked, NewestFirst);
    forall x ensures x in sorted <==> x in picked {
      SameElements(sorted, picked, x);
    }
    forall i, j | 0 <= i < j < |sorted|
      ensures DateLe(sorted[j].session.date, sorted[i].session.date)
    {
      assert NewestFirst(sorted[i], sorted[j]);
    }
    sorted
  }

  /** `t.strftime('%H:%M')`. */
  function ClockText(t: Time): string {
    Pad2(t.hour) + ":" + Pad2(t.minute)
  }

  /** The "time" column: start and end joined by "~". */
  function TimeText(s: Session): string {
    ClockText(s.startTime) + "~" + ClockText(s.endTime)
  }

  /**
   * For valid times the column is "HH:MM~HH:MM": eleven characters, and
   * splitting at "~" gives back the start and the end, each of which the
   * calendar's clock parser reads as its own minute of the day.
   */
  lemma TimeTextShape(s: Session)
    requires ValidTime(s.startTime) && ValidTime(s.endTime)
    ensures |TimeText(s)| == 11
    ensures TimeText(s)[2] == ':' && TimeText(s)[5] == '~' && TimeText(s)[8] == ':'
    ensures Split(TimeText(s), '~') == [ClockText(s.startTime), ClockText(s.endTime)]
    ensures Layout.ClockMinutes(ClockText(s.startTime)) == Some(s.startTime.hour * 60 + s.startTime.minute)
    ensures Layout.ClockMinutes(ClockText(s.endTime)) == Some(s.endTime.hour * 60 + s.endTime.minute)
  {
    TimeTextSplit(s);
    Layout.ClockOfLabel(s.startTime.hour, s.startTime.minute);
    Layout.ClockOfLabel(s.endTime.hour, s.endTime.minute);
  }

  lemma TimeTextSplit(s: Session)
    requires ValidTime(s.startTime) && ValidTime(s.endTime)
    ensures |TimeText(s)| == 11
    ensures TimeText(s)[2] == ':' && TimeText(s)[5] == '~' && TimeText(s)[8] == ':'
    ensures Split(TimeText(s), '~') == [ClockText(s.startTime), ClockText(s.endTime)]
  {
    var a, b := s.startTime, s.endTime;
    Pad2Digits(a.hour);
    Pad2Digits(a.minute);
    Pad2Digits(b.hour);
    Pad2Digits(b.minute);
    ClockHasNoTilde(a);
    ClockHasNoTilde(b);
    SplitJoin(ClockText(a), '~', ClockText(b));
    SplitNone(ClockText(b), '~');
    assert TimeText(s) == ClockText(a) + ['~'] + ClockText(b);
  }

  lemma ClockHasNoTilde(t: Time)
    requires ValidTime(t)
    ensures '~' !in ClockText(t)
  {
    Pad2Digits(t.hour);
    Pad2Digits(t.minute);
    var c := ClockText(t);
    assert forall i :: 0 <= i < |c| ==> c[i] != '~' by {
      forall i | 0 <= i < |c| ensures c[i] != '~' {
        if i < 2 {
          assert c[i] == Pad2(t.hour)[i];
        } else if i > 2 {
          assert c[i] == Pad2(t.minute)[i - 3];
        }
      }
    }
  }

  /** `subj_name` (app/routers/views.py:72-75): "" for a falsy or unknown id. */
  function SubjectName(subjects: seq<Subject>, id: Option<int>): (n: string)
    ensures !TruthyInt(id) ==> n == ""
    ensures TruthyInt(id) && (forall s :: s in subjects ==> s.id != id.value) ==> n == ""
    ensures TruthyInt(id) && (exists s :: s in subjects && s.id == id.value) ==>
      exists s :: s in subjects && s.id == id.value && n == s.name
  {
    if !TruthyInt(id) then ""
    else match FindSubject(subjects, id.value)
      case Some(s) => s.name
      case None => ""
  }

  /** The counselor column: "" when the id is 0 or no counselor has it. */
  function CounselorName(counselors: seq<Counselor>, id: int): (n: string)
    ensures id == 0 ==> n == ""
    ensures (forall c :: c in counselors ==> c.id != id) ==> n == ""
    ensures id != 0 && (exists c :: c in counselors && c.id == id) ==>
      exists c :: c in counselors && c.id == id && n == c.name
  {
    if id == 0 then ""
    else match FindCounselor(counselors, id)
      case Some(c) => c.name
      case None => ""
  }

  /** One entry of `items`; the date stays a date. */
  datatype MismatchItem = MismatchItem(
    date: CivilDate, time: string, branch: string, team: string, counselor: string,
    requested: string, registered: string, mode: string, comment: string)

  /** The entry app/routers/views.py:80-90 appends for a session. */
  function ItemOf(refs: Reference, s: Session): MismatchItem {
    MismatchItem(s.date, TimeText(s), CodeLabel(refs.branches, s.branch), CodeLabel(refs.teams, s.team),
      CounselorName(refs.counselors, s.counselorId),
      SubjectName(refs.subjects, s.requestedSubjectId), SubjectName(refs.subjects, s.registeredSubjectId),
      ModeLabel(Some(s.mode)), s.comment.GetOr(""))
  }

  /** The loop of app/routers/views.py:77-90. */
  method Items(refs: Reference, rows: seq<SessionRow>) returns (items: seq<MismatchItem>)
    ensures |items| == |rows|
    ensures forall i :: 0 <= i < |rows| ==> items[i] == ItemOf(refs, rows[i].session)
  {
    items := AppendEach(rows, (r: SessionRow) => ItemOf(refs, r.session));
  }

  /** Appends `item(r)` for each row r in turn. */
  method AppendEach<R, T>(rows: seq<R>, item: R -> T) returns (items: seq<T>)
    ensures |items| == |rows|
    ensures forall i :: 0 <= i < |rows| ==> items[i] == item(rows[i])
  {
    items := [];
    for i := 0 to |rows|
      invariant |items| == i
      invariant forall k :: 0 <= k < i ==> items[k] == item(rows[k])
    {
      items := items + [item(rows[i])];
    }
  }

  /**
   * `mismatch_page` (app/routers/views.py:42-97) without the template: the
   * resolved range and one formatted item per selected session, in order.
   */
  method MismatchPage(refs: Reference, rows: seq<SessionRow>, from: Option<CivilDate>, to: Option<CivilDate>,
                      branch: Option<string>, team: Option<string>, mode: Option<string>, today: CivilDate)
    returns (range: (CivilDate, CivilDate), items: seq<MismatchItem>)
    requires ValidDate(today)
    ensures range == DefaultRange(from, to, today)
    ensures var picked := MismatchRows(rows, MismatchQuery(range.0, range.1, branch, team, mode));
      && |items| == |picked|
      && forall i :: 0 <= i < |picked| ==> items[i] == ItemOf(refs, picked[i].session)
  {
    range := DefaultRange(from, to, today);
    var picked := MismatchRows(rows, MismatchQuery(range.0, range.1, branch, team, mode));
    items := Items(refs, picked);
  }

  /** Every item shown is of a registered session whose two subjects differ. */
  lemma ShownAreMismatches(rows: seq<SessionRow>, q: MismatchQuery, i: int)
    requires 0 <= i < |MismatchRows(rows, q)|
    ensures var s := MismatchRows(rows, q)[i].session;
      && s.status == "REGISTERED"
      && s.requestedSubjectId.Some? && s.registeredSubjectId.Some?
      && s.requestedSubjectId != s.registeredSubjectId
      && DateInRange(s.date, q.from, q.to)
  {
    var r := MismatchRows(rows, q);
    assert r[i] in r;
  }
}
