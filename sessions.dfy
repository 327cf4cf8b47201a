/**
 * The session endpoints (app/routers/sessions.py) over an in-memory table
 * of rows. Create and update run the same ordered validation; update first
 * merges the partial payload into the stored session. The store keeps an
 * invariant that the validation establishes: ids are unique, every stored
 * session is well-formed, and no two sessions of one counselor on one day
 * overlap.
 */
module Sessions {
  import opened Wrappers
  import opened Order
  import opened Calendar
  import opened Models
  import opened Validators

  // ---------------------------------------------------------------- listing

  /** The query parameters of `GET /api/sessions`. */
  datatype SessionQuery = SessionQuery(
    from: Option<CivilDate>, to: Option<CivilDate>, branch: Option<string>, team: Option<string>,
    counselorId: Option<int>, status: Option<string>, mode: Option<string>)

  /** Every supplied (truthy) filter holds (app/routers/sessions.py:56-62). */
  predicate Matches(q: SessionQuery, s: Session) {
    && (q.from.None? || DateLe(q.from.value, s.date))
    && (q.to.None? || DateLe(s.date, q.to.value))
    && (!TruthyStr(q.branch) || s.branch == q.branch.value)
    && (!TruthyStr(q.team) || s.team == q.team.value)
    && (!TruthyInt(q.counselorId) || s.counselorId == q.counselorId.value)
    && (!TruthyStr(q.status) || s.status == q.status.value)
    && (!TruthyStr(q.mode) || s.mode == q.mode.value)
  }

  function MatchesRow(q: SessionQuery): SessionRow -> bool {
    (r: SessionRow) => Matches(q, r.session)
  }

  /** `order_by(Sess.date, Sess.start_time)`. */
  predicate DateStartLe(a: SessionRow, b: SessionRow) {
    if a.session.date == b.session.date then TimeLe(a.session.startTime, b.session.startTime)
    else DateLe(a.session.date, b.session.date)
  }

  lemma DateStartLeIsPreorder()
    ensures TotalPreorder(DateStartLe)
  {
    forall a: SessionRow, b: SessionRow, c: SessionRow
      ensures DateStartLe(a, b) || DateStartLe(b, a)
      ensures DateStartLe(a, b) && DateStartLe(b, c) ==> DateStartLe(a, c)
    {
      DateLeIsOrder(a.session.date, b.session.date, c.session.date);
      DateLeIsOrder(a.session.date, c.session.date, b.session.date);
      DateLeIsOrder(b.session.date, a.session.date, c.session.date);
    }
  }

  /**
   * `list_sessions` (app/routers/sessions.py:44-78): exactly the stored rows
   * that satisfy every supplied filter, ordered by date and then start time.
   * Rows the order ties keep their table order.
   */
  function ListSessions(rows: seq<SessionRow>, q: SessionQuery): (r: seq<SessionRow>)
    ensures forall x :: x in r <==> x in rows && Matches(q, x.session)
    ensures SortedBy(r, DateStartLe)
    ensures multiset(r) == multiset(Filter(rows, MatchesRow(q)))
  {
    DateStartLeIsPreorder();
    var picked := Filter(rows, MatchesRow(q));
    var sorted := Sort(picked, DateStartLe);
    forall x ensures x in sorted <==> x in picked {
      SameElements(sorted, picked, x);
    }
    sorted
  }

  /** A query with no filters lists every row. */
  lemma ListAll(rows: seq<SessionRow>)
    ensures multiset(ListSessions(rows, SessionQuery(None, None, None, None, None, None, None))) == multiset(rows)
  {
    var q := SessionQuery(None, None, None, None, None, None, None);
    FilterAll(rows, MatchesRow(q));
  }

  lemma {:induction false} FilterAll<T(!new)>(s: seq<T>, p: T -> bool)
    requires forall x :: p(x)
    ensures Filter(s, p) == s
  {
    if s != [] {
      FilterAll(s[1..], p);
      assert s == [s[0]] + s[1..];
    }
  }

  // ------------------------------------------------------------- validation

  /**
   * The checks of create and update, in the order they run
   * (app/routers/sessions.py:103-129 and 170-196). Check k holds for a
   * session when `StepHolds(k, ...)`.
   */
  predicate StepHolds(k: int, refs: Reference, rows: seq<SessionRow>, s: Session, ignoreId: Option<int>) {
    match k
    case 0 => s.status in Statuses
    case 1 => s.mode in Modes
    case 2 => IsGrid(s.startTime) && IsGrid(s.endTime)
    case 3 => TimeLt(s.startTime, s.endTime)
    case 4 => FindCounselor(refs.counselors, s.counselorId).Some?
    case 5 => !CheckOverlap(rows, s.counselorId, s.date, s.startTime, s.endTime, ignoreId)
    case 6 => ValidateBranchTeam(refs.branches, refs.teams, s.branch, s.team) == Pass
    case 7 => EnforceConditionals(s.status, s.registeredSubjectId, s.cancelReason) == Pass
    case 8 => BranchSubjectGuard(refs.subjects, s.branch, s.requestedSubjectId, s.registeredSubjectId) == Pass
    case _ => true
  }

  const StepCount: int := 9

  /** The check that reports each error. */
  function StepOf(e: Error): int {
    match e
    case InvalidStatus => 0
    case InvalidMode => 1
    case OffGrid => 2
    case EndNotAfterStart => 3
    case CounselorNotFound => 4
    case Overlap => 5
    case UnknownBranch => 6
    case UnknownTeam => 6
    case MissingRegisteredSubject => 7
    case MissingCancelReason => 7
    case SubjectNotInBranch => 8
    case SessionNotFound => StepCount
  }

  /**
   * The validation pipeline: it passes exactly when every check holds, and
   * otherwise reports the error of the first check that fails.
   */
  function ValidateSession(refs: Reference, rows: seq<SessionRow>, s: Session, ignoreId: Option<int>): (r: Outcome<Error>)
    ensures r.Fail? ==> 0 <= StepOf(r.error) < StepCount && !StepHolds(StepOf(r.error), refs, rows, s, ignoreId)
  {
    if s.status !in Statuses then Fail(InvalidStatus)
    else if s.mode !in Modes then Fail(InvalidMode)
    else if !IsGrid(s.startTime) || !IsGrid(s.endTime) then Fail(OffGrid)
    else if TimeLe(s.endTime, s.startTime) then Fail(EndNotAfterStart)
    else if FindCounselor(refs.counselors, s.counselorId).None? then Fail(CounselorNotFound)
    else if CheckOverlap(rows, s.counselorId, s.date, s.startTime, s.endTime, ignoreId) then Fail(Overlap)
    else
      match ValidateBranchTeam(refs.branches, refs.teams, s.branch, s.team)
      case Fail(e) => Fail(e)
      case Pass =>
        match EnforceConditionals(s.status, s.registeredSubjectId, s.cancelReason)
        case Fail(e) => Fail(e)
        case Pass => BranchSubjectGuard(refs.subjects, s.branch, s.requestedSubjectId, s.registeredSubjectId)
  }

  /**
   * The pipeline passes exactly when every check holds; when it fails, every
   * check before the reported one held.
   */
  lemma ValidatePipeline(refs: Reference, rows: seq<SessionRow>, s: Session, ignoreId: Option<int>)
    ensures var r := ValidateSession(refs, rows, s, ignoreId);
      && (r == Pass <==> forall k :: 0 <= k < StepCount ==> StepHolds(k, refs, rows, s, ignoreId))
      && (r.Fail? ==> forall k :: 0 <= k < StepOf(r.error) ==> StepHolds(k, refs, rows, s, ignoreId))
  {
    var r := ValidateSession(refs, rows, s, ignoreId);
    var bound := if r.Fail? then StepOf(r.error) else StepCount;
    forall k | 0 <= k < bound ensures StepHolds(k, refs, rows, s, ignoreId) {
      assert k == 0 || k == 1 || k == 2 || k == 3 || k == 4 || k == 5 || k == 6 || k == 7 || k == 8;
    }
  }

  /** The checks that concern the session alone, not the tables. */
  predicate WellFormed(s: Session) {
    && s.status in Statuses && s.mode in Modes
    && IsGrid(s.startTime) && IsGrid(s.endTime) && TimeLt(s.startTime, s.endTime)
    && EnforceConditionals(s.status, s.registeredSubjectId, s.cancelReason) == Pass
  }

  lemma PassedIsWellFormed(refs: Reference, rows: seq<SessionRow>, s: Session, ignoreId: Option<int>)
    requires ValidateSession(refs, rows, s, ignoreId) == Pass
    ensures WellFormed(s)
    ensures !CheckOverlap(rows, s.counselorId, s.date, s.startTime, s.endTime, ignoreId)
  {
    ValidatePipeline(refs, rows, s, ignoreId);
    assert StepHolds(0, refs, rows, s, ignoreId) && StepHolds(1, refs, rows, s, ignoreId);
    assert StepHolds(2, refs, rows, s, ignoreId) && StepHolds(3, refs, rows, s, ignoreId);
    assert StepHolds(5, refs, rows, s, ignoreId) && StepHolds(7, refs, rows, s, ignoreId);
  }

  // ------------------------------------------------------------------ merge

  /** The body of `PUT /api/sessions/{id}`: every field optional. */
  datatype SessionUpdate = SessionUpdate(
    date: Option<CivilDate>, startTime: Option<Time>, endTime: Option<Time>, counselorId: Option<int>,
    branch: Option<string>, team: Option<string>,
    requestedSubjectId: Option<int>, registeredSubjectId: Option<int>,
    mode: Option<string>, status: Option<string>, cancelReason: Option<string>, comment: Option<string>)

  const NoChanges: SessionUpdate := SessionUpdate(None, None, None, None, None, None, None, None, None, None, None, None)

  /** `payload.x or s.x` for a date or a time, which Python always treats as true. */
  function OrKeep<T>(v: Option<T>, current: T): T {
    if v.Some? then v.value else current
  }

  /** `payload.x or s.x` for a string: `None` and "" keep the stored value. */
  function StrOrKeep(v: Option<string>, current: string): string {
    if TruthyStr(v) then v.value else current
  }

  /** `payload.x or s.x` for an integer: `None` and 0 keep the stored value. */
  function IntOrKeep(v: Option<int>, current: int): int {
    if TruthyInt(v) then v.value else current
  }

  /** `payload.x if payload.x is not None else s.x`. */
  function Override<T>(v: Option<T>, current: Option<T>): Option<T> {
    if v.Some? then v else current
  }

  /** The `new` dictionary of update_session (app/routers/sessions.py:155-168). */
  function Merge(s: Session, u: SessionUpdate): Session {
    Session(
      OrKeep(u.date, s.date), OrKeep(u.startTime, s.startTime), OrKeep(u.endTime, s.endTime),
      IntOrKeep(u.counselorId, s.counselorId), StrOrKeep(u.branch, s.branch), StrOrKeep(u.team, s.team),
      Override(u.requestedSubjectId, s.requestedSubjectId), Override(u.registeredSubjectId, s.registeredSubjectId),
      StrOrKeep(u.mode, s.mode), StrOrKeep(u.status, s.status),
      Override(u.cancelReason, s.cancelReason), Override(u.comment, s.comment))
  }

  /** An update with nothing in it leaves the session as it was. */
  lemma MergeNoChanges(s: Session)
    ensures Merge(s, NoChanges) == s
  {
  }

  /** Applying the same update twice is applying it once. */
  lemma MergeIdempotent(s: Session, u: SessionUpdate)
    ensures Merge(Merge(s, u), u) == Merge(s, u)
  {
  }

  /** The update that sends every field of p. */
  function FullUpdate(p: Session): SessionUpdate {
    SessionUpdate(Some(p.date), Some(p.startTime), Some(p.endTime), Some(p.counselorId), Some(p.branch), Some(p.team),
                  p.requestedSubjectId, p.registeredSubjectId, Some(p.mode), Some(p.status), p.cancelReason, p.comment)
  }

  /**
   * Sending every field replaces the session, except that falsy values
   * (counselor 0, an empty code) and nulls keep what was stored.
   */
  lemma MergeFullUpdate(s: Session, p: Session)
    ensures var m := Merge(s, FullUpdate(p));
      && m.date == p.date && m.startTime == p.startTime && m.endTime == p.endTime
      && m.counselorId == (if p.counselorId != 0 then p.counselorId else s.counselorId)
      && m.branch == (if p.branch != "" then p.branch else s.branch)
      && m.team == (if p.team != "" then p.team else s.team)
      && m.mode == (if p.mode != "" then p.mode else s.mode)
      && m.status == (if p.status != "" then p.status else s.status)
      && m.requestedSubjectId == (if p.requestedSubjectId.Some? then p.requestedSubjectId else s.requestedSubjectId)
      && m.registeredSubjectId == (if p.registeredSubjectId.Some? then p.registeredSubjectId else s.registeredSubjectId)
      && m.cancelReason == (if p.cancelReason.Some? then p.cancelReason else s.cancelReason)
      && m.comment == (if p.comment.Some? then p.comment else s.comment)
    ensures p.counselorId != 0 && p.branch != "" && p.team != "" && p.mode != "" && p.status != ""
      && p.requestedSubjectId.Some? && p.registeredSubjectId.Some? && p.cancelReason.Some? && p.comment.Some?
      ==> Merge(s, FullUpdate(p)) == p
  {
  }

  /** No update empties a required field or nulls a nullable one. */
  lemma MergeCannotClear(s: Session, u: SessionUpdate)
    ensures var m := Merge(s, u);
      && (s.branch != "" ==> m.branch != "") && (s.team != "" ==> m.team != "")
      && (s.counselorId != 0 ==> m.counselorId != 0)
      && (s.requestedSubjectId.Some? ==> m.requestedSubjectId.Some?)
      && (s.registeredSubjectId.Some? ==> m.registeredSubjectId.Some?)
      && (s.cancelReason.Some? ==> m.cancelReason.Some?)
      && (s.comment.Some? ==> m.comment.Some?)
  {
  }

  // ------------------------------------------------------------------ store

  predicate UniqueIds(rows: seq<SessionRow>) {
    forall i, j :: 0 <= i < j < |rows| ==> rows[i].id != rows[j].id
  }

  /** Two rows clash when they are the same counselor's sessions on one day and their times overlap. */
  predicate Clash(a: SessionRow, b: SessionRow) {
    a.session.counselorId == b.session.counselorId && a.session.date == b.session.date
    && Overlaps(a.session.startTime, a.session.endTime, b.session.startTime, b.session.endTime)
  }

  predicate NoClashes(rows: seq<SessionRow>) {
    forall i, j :: 0 <= i < |rows| && 0 <= j < |rows| && i != j ==> !Clash(rows[i], rows[j])
  }

  /** The store invariant established by the endpoints. */
  predicate StoreInvariant(rows: seq<SessionRow>, nextId: int) {
    && (forall i :: 0 <= i < |rows| ==> 1 <= rows[i].id < nextId && WellFormed(rows[i].session))
    && UniqueIds(rows) && NoClashes(rows)
  }

  /** The rows with the session of the given id replaced. */
  function Replace(rows: seq<SessionRow>, id: int, s: Session): (r: seq<SessionRow>)
    ensures |r| == |rows|
    ensures forall k :: 0 <= k < |rows| ==> r[k] == if rows[k].id == id then SessionRow(id, s) else rows[k]
  {
    seq(|rows|, k requires 0 <= k < |rows| => if rows[k].id == id then SessionRow(id, s) else rows[k])
  }

  /** The rows without the one of the given id. */
  function Without(rows: seq<SessionRow>, id: int): (r: seq<SessionRow>)
    ensures forall x :: x in r <==> x in rows && x.id != id
    ensures |r| <= |rows|
  {
    if rows == [] then []
    else if rows[0].id == id then Without(rows[1..], id)
    else [rows[0]] + Without(rows[1..], id)
  }

  /** The index of the row with the id, if any. */
  predicate IndexOf(rows: seq<SessionRow>, id: int, i: int) {
    0 <= i < |rows| && rows[i].id == id
  }

  lemma CheckedCreateKeepsInvariant(rows: seq<SessionRow>, nextId: int, s: Session)
    requires StoreInvariant(rows, nextId) && nextId >= 1 && WellFormed(s)
    requires !CheckOverlap(rows, s.counselorId, s.date, s.startTime, s.endTime, None)
    ensures StoreInvariant(rows + [SessionRow(nextId, s)], nextId + 1)
  {
    var r := rows + [SessionRow(nextId, s)];
    var n := |rows|;
    forall i, j | 0 <= i < |r| && 0 <= j < |r| && i != j ensures !Clash(r[i], r[j]) {
      if i == n {
        assert !Conflicts(rows[j], s.counselorId, s.date, s.startTime, s.endTime, None);
      } else if j == n {
        assert !Conflicts(rows[i], s.counselorId, s.date, s.startTime, s.endTime, None);
      } else {
        assert !Clash(rows[i], rows[j]);
      }
    }
  }

  lemma CheckedUpdateKeepsInvariant(rows: seq<SessionRow>, nextId: int, i: int, s: Session)
    requires StoreInvariant(rows, nextId) && 0 <= i < |rows| && WellFormed(s)
    requires !CheckOverlap(rows, s.counselorId, s.date, s.startTime, s.endTime, Some(rows[i].id))
    ensures StoreInvariant(rows[i := SessionRow(rows[i].id, s)], nextId)
    ensures rows[i := SessionRow(rows[i].id, s)] == Replace(rows, rows[i].id, s)
  {
    var id := rows[i].id;
    var r := rows[i := SessionRow(id, s)];
    forall a, b | 0 <= a < |r| && 0 <= b < |r| && a != b ensures !Clash(r[a], r[b]) {
      if a == i {
        assert !Conflicts(rows[b], s.counselorId, s.date, s.startTime, s.endTime, Some(id));
      } else if b == i {
        assert !Conflicts(rows[a], s.counselorId, s.date, s.startTime, s.endTime, Some(id));
      } else {
        assert !Clash(rows[a], rows[b]);
      }
    }
    assert forall k :: 0 <= k < |rows| && k != i ==> rows[k].id != id;
  }

  lemma RemoveKeepsInvariant(rows: seq<SessionRow>, nextId: int, i: int)
    requires StoreInvariant(rows, nextId) && 0 <= i < |rows|
    ensures StoreInvariant(rows[..i] + rows[i + 1..], nextId)
  {
    RemoveKeepsNoClashes(rows, i);
    RemoveKeepsUniqueIds(rows, i);
    var r := rows[..i] + rows[i + 1..];
    assert forall a :: 0 <= a < |r| ==> r[a] == rows[if a < i then a else a + 1];
  }

  lemma RemoveKeepsNoClashes(rows: seq<SessionRow>, i: int)
    requires NoClashes(rows) && 0 <= i < |rows|
    ensures NoClashes(rows[..i] + rows[i + 1..])
  {
    var r := rows[..i] + rows[i + 1..];
    forall a, b | 0 <= a < |r| && 0 <= b < |r| && a != b ensures !Clash(r[a], r[b]) {
      var a', b' := if a < i then a else a + 1, if b < i then b else b + 1;
      assert r[a] == rows[a'] && r[b] == rows[b'];
    }
  }

  lemma RemoveKeepsUniqueIds(rows: seq<SessionRow>, i: int)
    requires UniqueIds(rows) && 0 <= i < |rows|
    ensures UniqueIds(rows[..i] + rows[i + 1..])
  {
    var r := rows[..i] + rows[i + 1..];
    forall a, b | 0 <= a < b < |r| ensures r[a].id != r[b].id {
      var a', b' := if a < i then a else a + 1, if b < i then b else b + 1;
      assert r[a] == rows[a'] && r[b] == rows[b'];
    }
  }

  /** Re-saving a stored session with unchanged times never clashes with itself or any other row. */
  lemma ResaveHasNoOverlap(rows: seq<SessionRow>, nextId: int, i: int)
    requires StoreInvariant(rows, nextId) && 0 <= i < |rows|
    ensures var s := rows[i].session;
      !CheckOverlap(rows, s.counselorId, s.date, s.startTime, s.endTime, Some(rows[i].id))
  {
    var s := rows[i].session;
    forall j | 0 <= j < |rows| ensures !Conflicts(rows[j], s.counselorId, s.date, s.startTime, s.endTime, Some(rows[i].id)) {
      if j != i {
        assert !Clash(rows[i], rows[j]);
      }
    }
  }

  /** The session table, with the id the next insert will use. */
  class SessionStore {
    var rows: seq<SessionRow>
    var nextId: int

    ghost predicate Valid()
      reads this
    {
      nextId >= 1 && StoreInvariant(rows, nextId)
    }

    constructor ()
      ensures Valid() && rows == []
    {
      rows := [];
      nextId := 1;
    }

    /** The position of the row with the id, or |rows| when there is none. */
    method Find(id: int) returns (i: int)
      ensures 0 <= i <= |rows|
      ensures i < |rows| ==> rows[i].id == id
      ensures i == |rows| <==> forall k :: 0 <= k < |rows| ==> rows[k].id != id
    {
      i := 0;
      while i < |rows| && rows[i].id != id
        invariant 0 <= i <= |rows|
        invariant forall k :: 0 <= k < i ==> rows[k].id != id
      {
        i := i + 1;
      }
    }

    /**
     * `create_session` (app/routers/sessions.py:101-146): on success the new
     * row holds exactly the payload under a fresh id; on refusal nothing changes.
     */
    method Create(refs: Reference, p: Session) returns (r: Result<int, Error>)
      requires Valid()
      modifies this
      ensures Valid()
      ensures match ValidateSession(refs, old(rows), p, None)
        case Fail(e) => r == Err(e) && rows == old(rows) && nextId == old(nextId)
        case Pass =>
          && r == Ok(old(nextId)) && rows == old(rows) + [SessionRow(old(nextId), p)]
          && nextId == old(nextId) + 1
          && forall k :: 0 <= k < |old(rows)| ==> old(rows)[k].id != r.value
    {
      var v := ValidateSession(refs, rows, p, None);
      if v.Fail? {
        return Err(v.error);
      }
      PassedIsWellFormed(refs, rows, p, None);
      CheckedCreateKeepsInvariant(rows, nextId, p);
      rows := rows + [SessionRow(nextId, p)];
      r := Ok(nextId);
      nextId := nextId + 1;
    }

    /**
     * `update_session` (app/routers/sessions.py:148-212): a missing id is a
     * 404; otherwise the merged session is validated, ignoring the session
     * itself in the overlap check, and on success replaces the stored one.
     */
    method Update(refs: Reference, id: int, u: SessionUpdate) returns (r: Outcome<Error>)
      requires Valid()
      modifies this
      ensures Valid() && nextId == old(nextId)
      ensures (forall k :: 0 <= k < |old(rows)| ==> old(rows)[k].id != id) ==>
        r == Fail(SessionNotFound) && rows == old(rows)
      ensures forall k :: IndexOf(old(rows), id, k) ==>
        var merged := Merge(old(rows)[k].session, u);
        && r == ValidateSession(refs, old(rows), merged, Some(id))
        && rows == (if r == Pass then Replace(old(rows), id, merged) else old(rows))
    {
      var i := Find(id);
      if i == |rows| {
        return Fail(SessionNotFound);
      }
      var merged := Merge(rows[i].session, u);
      r := ValidateSession(refs, rows, merged, Some(id));
      if r.Fail? {
        return;
      }
      PassedIsWellFormed(refs, rows, merged, Some(id));
      CheckedUpdateKeepsInvariant(rows, nextId, i, merged);
      var s := rows[i].session;
      s := s.(date := merged.date);
      s := s.(startTime := merged.startTime);
      s := s.(endTime := merged.endTime);
      s := s.(counselorId := merged.counselorId);
      s := s.(branch := merged.branch);
      s := s.(team := merged.team);
      s := s.(requestedSubjectId := merged.requestedSubjectId);
      s := s.(registeredSubjectId := merged.registeredSubjectId);
      s := s.(mode := merged.mode);
      s := s.(status := merged.status);
      s := s.(cancelReason := merged.cancelReason);
      s := s.(comment := merged.comment);
      rows := rows[i := SessionRow(id, s)];
    }

    /** `delete_session` (app/routers/sessions.py:214-220): removes exactly that row, or is a 404. */
    method Delete(id: int) returns (r: Outcome<Error>)
      requires Valid()
      modifies this
      ensures Valid() && nextId == old(nextId)
      ensures (forall k :: 0 <= k < |old(rows)| ==> old(rows)[k].id != id) ==>
        r == Fail(SessionNotFound) && rows == old(rows)
      ensures (exists k :: IndexOf(old(rows), id, k)) ==>
        r == Pass && rows == Without(old(rows), id) && |rows| == |old(rows)| - 1
    {
      var i := Find(id);
      if i == |rows| {
        return Fail(SessionNotFound);
      }
      RemoveKeepsInvariant(rows, nextId, i);
      RemoveAt(rows, i);
      rows := rows[..i] + rows[i + 1..];
      r := Pass;
    }
  }

  /** With unique ids, removing the row at i is removing its id. */
  lemma {:induction false} RemoveAt(rows: seq<SessionRow>, i: int)
    requires UniqueIds(rows) && 0 <= i < |rows|
    ensures rows[..i] + rows[i + 1..] == Without(rows, rows[i].id)
  {
    if i == 0 {
      UnmatchedKept(rows[1..], rows[0].id);
      assert rows[..0] + rows[1..] == rows[1..];
    } else {
      assert rows[1..][i - 1] == rows[i];
      RemoveAt(rows[1..], i - 1);
      assert rows[..i] + rows[i + 1..] == [rows[0]] + (rows[1..][..i - 1] + rows[1..][i..]);
    }
  }

  lemma {:induction false} UnmatchedKept(rows: seq<SessionRow>, id: int)
    requires forall k :: 0 <= k < |rows| ==> rows[k].id != id
    ensures Without(rows, id) == rows
  {
    if rows != [] {
      UnmatchedKept(rows[1..], id);
      assert rows == [rows[0]] + rows[1..];
    }
  }
}
