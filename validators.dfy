/**
 * The session rules of app/services/validators.py, with the database
 * queries replaced by lookups in the given tables. A check that raises
 * `ValueError` returns `Fail` with the reason.
 */
module Validators {
  import opened Wrappers
  import opened Calendar
  import opened Models

  /** Why a session is refused; the HTTP status of each is given by `HttpStatus`. */
  datatype Error =
    | InvalidStatus | InvalidMode | OffGrid | EndNotAfterStart | CounselorNotFound | Overlap
    | UnknownBranch | UnknownTeam | MissingRegisteredSubject | MissingCancelReason | SubjectNotInBranch
    | SessionNotFound

  /** 404 for a missing counselor or session, 400 for every other refusal. */
  function HttpStatus(e: Error): (code: int)
    ensures code == 404 <==> e == CounselorNotFound || e == SessionNotFound
    ensures code == 404 || code == 400
  {
    match e
    case CounselorNotFound => 404
    case SessionNotFound => 404
    case _ => 400
  }

  const SlotMicros: int := 30 * 60 * 1000000

  /** `is_30min_grid` (app/services/validators.py:6-7). */
  predicate IsGrid(t: Time) {
    (t.minute == 0 || t.minute == 30) && t.second == 0 && t.micro == 0
  }

  /** A valid time is on the grid exactly when it is a whole number of half hours after midnight. */
  lemma IsGridIffHalfHours(t: Time)
    requires ValidTime(t)
    ensures IsGrid(t) <==> Micros(t) % SlotMicros == 0
  {
    var x := t.hour * 60 + t.minute;
    var r := t.second * 1000000 + t.micro;
    assert 0 <= r < 60000000;
    assert Micros(t) == x * 60000000 + r;
    var q := x / 30;
    assert x == 30 * q + x % 30;
    assert x % 30 == t.minute % 30 by {
      assert x == 30 * (2 * t.hour) + t.minute;
    }
    assert Micros(t) == q * SlotMicros + ((x % 30) * 60000000 + r);
    var rest := (x % 30) * 60000000 + r;
    assert 0 <= rest < SlotMicros;
    ModOfRest(Micros(t), q, rest);
  }

  lemma ModOfRest(n: int, q: int, rest: int)
    requires 0 <= rest < SlotMicros && n == q * SlotMicros + rest
    ensures n % SlotMicros == rest
  {
  }

  /** `start < other.end and end > other.start` (app/services/validators.py:13). */
  predicate Overlaps(start: Time, end: Time, otherStart: Time, otherEnd: Time) {
    TimeLt(start, otherEnd) && TimeLt(otherStart, end)
  }

  /** The instant m (in microseconds) lies in the half-open interval [s, e). */
  predicate Within(m: int, s: Time, e: Time) {
    Micros(s) <= m < Micros(e)
  }

  /** Two non-empty half-open intervals overlap exactly when some instant lies in both. */
  lemma OverlapsIffCommonInstant(s1: Time, e1: Time, s2: Time, e2: Time)
    requires TimeLt(s1, e1) && TimeLt(s2, e2)
    ensures Overlaps(s1, e1, s2, e2) <==> exists m: int :: Within(m, s1, e1) && Within(m, s2, e2)
  {
    if Overlaps(s1, e1, s2, e2) {
      var m := if Micros(s1) < Micros(s2) then Micros(s2) else Micros(s1);
      assert Within(m, s1, e1) && Within(m, s2, e2);
    }
  }

  /** The test is symmetric, and back-to-back sessions do not conflict. */
  lemma OverlapsSymmetricAndHalfOpen(s1: Time, e1: Time, s2: Time, e2: Time)
    ensures Overlaps(s1, e1, s2, e2) <==> Overlaps(s2, e2, s1, e1)
    ensures Micros(e1) == Micros(s2) ==> !Overlaps(s1, e1, s2, e2)
    ensures TimeLt(s1, e1) ==> Overlaps(s1, e1, s1, e1)
  {
  }

  /** A stored row `check_overlap` looks at: same counselor and date, and not the ignored id when that is truthy. */
  predicate Candidate(row: SessionRow, counselorId: int, date: CivilDate, ignoreId: Option<int>) {
    row.session.counselorId == counselorId && row.session.date == date
    && !(TruthyInt(ignoreId) && row.id == ignoreId.value)
  }

  /** A row that makes `check_overlap` report a clash. */
  predicate Conflicts(row: SessionRow, counselorId: int, date: CivilDate, start: Time, end: Time, ignoreId: Option<int>) {
    Candidate(row, counselorId, date, ignoreId) && Overlaps(start, end, row.session.startTime, row.session.endTime)
  }

  /** `check_overlap` (app/services/validators.py:9-14) over the stored rows. */
  function CheckOverlap(rows: seq<SessionRow>, counselorId: int, date: CivilDate, start: Time, end: Time, ignoreId: Option<int>)
    : (r: bool)
    ensures r <==> exists i :: 0 <= i < |rows| && Conflicts(rows[i], counselorId, date, start, end, ignoreId)
  {
    if rows == [] then false
    else if Conflicts(rows[0], counselorId, date, start, end, ignoreId) then true
    else
      var r := CheckOverlap(rows[1..], counselorId, date, start, end, ignoreId);
      assert forall i :: 1 <= i < |rows| ==> rows[i] == rows[1..][i - 1];
      r
  }

  /** `enforce_conditionals` (app/services/validators.py:16-20). */
  function EnforceConditionals(status: string, registeredSubjectId: Option<int>, cancelReason: Option<string>)
    : (r: Outcome<Error>)
    ensures r == Fail(MissingRegisteredSubject) <==> status == "REGISTERED" && !TruthyInt(registeredSubjectId)
    ensures r == Fail(MissingCancelReason) <==> status == "CANCELED" && !TruthyStr(cancelReason)
    ensures status != "REGISTERED" && status != "CANCELED" ==> r == Pass
  {
    if status == "REGISTERED" && !TruthyInt(registeredSubjectId) then Fail(MissingRegisteredSubject)
    else if status == "CANCELED" && !TruthyStr(cancelReason) then Fail(MissingCancelReason)
    else Pass
  }

  /** A subject id passes the guard when it is falsy, or names a subject of the branch. */
  predicate SubjectFits(subjects: seq<Subject>, branch: string, sid: Option<int>) {
    !TruthyInt(sid) || (FindSubject(subjects, sid.value).Some? && FindSubject(subjects, sid.value).value.branch == branch)
  }

  /** `branch_subject_guard` (app/services/validators.py:22-27): the requested id, then the registered id. */
  function BranchSubjectGuard(subjects: seq<Subject>, branch: string, requested: Option<int>, registered: Option<int>)
    : (r: Outcome<Error>)
    ensures r == Pass <==> SubjectFits(subjects, branch, requested) && SubjectFits(subjects, branch, registered)
    ensures r != Pass ==> r == Fail(SubjectNotInBranch)
  {
    if !SubjectFits(subjects, branch, requested) then Fail(SubjectNotInBranch)
    else if !SubjectFits(subjects, branch, registered) then Fail(SubjectNotInBranch)
    else Pass
  }

  /** With unique subject ids the guard holds exactly when each truthy id is a subject of that branch. */
  lemma GuardMeansSameBranch(subjects: seq<Subject>, branch: string, sid: Option<int>)
    requires forall i, j :: 0 <= i < j < |subjects| ==> subjects[i].id != subjects[j].id
    ensures SubjectFits(subjects, branch, sid) <==>
      (TruthyInt(sid) ==> exists s :: s in subjects && s.id == sid.value && s.branch == branch)
  {
    if TruthyInt(sid) && (exists s :: s in subjects && s.id == sid.value && s.branch == branch) {
      var s :| s in subjects && s.id == sid.value && s.branch == branch;
      var f := FindSubject(subjects, sid.value);
      assert f.Some?;
      var i :| 0 <= i < |subjects| && subjects[i] == s;
      var j :| 0 <= j < |subjects| && subjects[j] == f.value;
      assert i == j;
    }
  }

  /** `validate_branch_team` (app/services/validators.py:29-33): the branch is checked first. */
  function ValidateBranchTeam(branches: seq<CodeRow>, teams: seq<CodeRow>, branch: string, team: string)
    : (r: Outcome<Error>)
    ensures r == Pass <==> ActiveCode(branches, branch) && ActiveCode(teams, team)
    ensures r == Fail(UnknownBranch) <==> !ActiveCode(branches, branch)
    ensures r == Fail(UnknownTeam) <==> ActiveCode(branches, branch) && !ActiveCode(teams, team)
  {
    if !ActiveCode(branches, branch) then Fail(UnknownBranch)
    else if !ActiveCode(teams, team) then Fail(UnknownTeam)
    else Pass
  }
}
