/**
 * The records and constants of the server (app/models.py): sessions with
 * their date and times, counselors, subjects, and the code tables of
 * branches and teams. Times are Python `datetime.time` values; dates are
 * calendar days.
 */
module Models {
  import opened Wrappers
  import opened Calendar

  const Branches: seq<string> := ["KH", "ATENZ", "VIDEO"]
  const Teams: seq<string> := ["JONGNO", "DANGSAN", "GANGNAM1", "GANGNAM2"]
  const Statuses: seq<string> := ["PENDING", "DONE", "REGISTERED", "NOT_REGISTERED", "CANCELED"]
  const CancelReasons: seq<string> := ["PERSONAL", "OTHER_INSTITUTE", "NO_ANSWER", "RESCHEDULE"]
  const Modes: seq<string> := ["REMOTE", "OFFLINE"]

  /** A `datetime.time` without time zone. */
  datatype Time = Time(hour: int, minute: int, second: int, micro: int)

  predicate ValidTime(t: Time) {
    0 <= t.hour < 24 && 0 <= t.minute < 60 && 0 <= t.second < 60 && 0 <= t.micro < 1000000
  }

  /** Microseconds since midnight; Python orders times by this value. */
  function Micros(t: Time): int {
    ((t.hour * 60 + t.minute) * 60 + t.second) * 1000000 + t.micro
  }

  predicate TimeLt(a: Time, b: Time) { Micros(a) < Micros(b) }
  predicate TimeLe(a: Time, b: Time) { Micros(a) <= Micros(b) }

  /** Python's order on `datetime.date`. */
  predicate DateLe(a: CivilDate, b: CivilDate) {
    a.year < b.year || (a.year == b.year && (a.month < b.month || (a.month == b.month && a.day <= b.day)))
  }

  /** Python's date order is total, transitive and antisymmetric. */
  lemma DateLeIsOrder(a: CivilDate, b: CivilDate, c: CivilDate)
    ensures DateLe(a, b) || DateLe(b, a)
    ensures DateLe(a, b) && DateLe(b, c) ==> DateLe(a, c)
    ensures DateLe(a, b) && DateLe(b, a) ==> a == b
  {
  }

  /** `from <= d <= to` on dates. */
  predicate DateInRange(d: CivilDate, from: CivilDate, to: CivilDate) {
    DateLe(from, d) && DateLe(d, to)
  }

  /** The stored fields of a session (app/models.py:30-47); timestamps are left out. */
  datatype Session = Session(
    date: CivilDate, startTime: Time, endTime: Time, counselorId: int,
    branch: string, team: string,
    requestedSubjectId: Option<int>, registeredSubjectId: Option<int>,
    mode: string, status: string, cancelReason: Option<string>, comment: Option<string>)

  /** A stored session with its primary key. */
  datatype SessionRow = SessionRow(id: int, session: Session)

  datatype Counselor = Counselor(id: int, name: string, branch: string, team: string)

  datatype Subject = Subject(id: int, name: string, branch: string, active: bool)

  /** A row of the branch or team code table. */
  datatype CodeRow = CodeRow(code: string, labelKo: string, active: bool)

  /** The tables the session rules look things up in. */
  datatype Reference = Reference(counselors: seq<Counselor>, subjects: seq<Subject>, branches: seq<CodeRow>, teams: seq<CodeRow>)

  /** `db.query(Subject).filter(Subject.id == id).first()`. */
  function FindSubject(subjects: seq<Subject>, id: int): (r: Option<Subject>)
    ensures r.Some? ==> r.value in subjects && r.value.id == id
    ensures r.None? <==> forall s :: s in subjects ==> s.id != id
  {
    if subjects == [] then None
    else if subjects[0].id == id then Some(subjects[0])
    else FindSubject(subjects[1..], id)
  }

  /** `db.query(Counselor).get(id)`. */
  function FindCounselor(counselors: seq<Counselor>, id: int): (r: Option<Counselor>)
    ensures r.Some? ==> r.value in counselors && r.value.id == id
    ensures r.None? <==> forall c :: c in counselors ==> c.id != id
  {
    if counselors == [] then None
    else if counselors[0].id == id then Some(counselors[0])
    else FindCounselor(counselors[1..], id)
  }

  /** `db.query(Branch).filter(Branch.code == code).first()`, and likewise for teams. */
  function FindCode(rows: seq<CodeRow>, code: string): (r: Option<CodeRow>)
    ensures r.Some? ==> r.value in rows && r.value.code == code
    ensures r.None? <==> forall x :: x in rows ==> x.code != code
  {
    if rows == [] then None
    else if rows[0].code == code then Some(rows[0])
    else FindCode(rows[1..], code)
  }

  /** Whether some row has the code and is active. */
  predicate ActiveCode(rows: seq<CodeRow>, code: string) {
    exists i :: 0 <= i < |rows| && rows[i].code == code && rows[i].active
  }
}
