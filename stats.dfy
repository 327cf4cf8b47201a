/**
 * The dashboard aggregation (app/routers/stats.py `overview`): counts of
 * counseling and registered sessions per branch and per subject, the DB
 * counts that serve as denominators, the rates, and the summary cards.
 * Rates are exact ratios; a rate whose denominator is not positive is None.
 */
module Stats {
  import opened Wrappers
  import opened Order
  import opened Calendar
  import opened Models
  import opened DailyDb
  import opened Meta

  /** `COUNSELING_STATUSES`: a session that took place. */
  predicate IsCounseling(status: string) {
    status == "DONE" || status == "REGISTERED" || status == "NOT_REGISTERED"
  }

  /** A smaller day number is an earlier or equal date. */
  lemma DateLeOfDayNumber(a: CivilDate, b: CivilDate)
    requires ValidDate(a) && ValidDate(b) && DayNumber(a) <= DayNumber(b)
    ensures DateLe(a, b)
  {
    if b.year < a.year || (b.year == a.year && b.month < a.month) {
      DayNumberMonthOrder(b, a);
    }
  }

  /**
   * `_range` (app/routers/stats.py:13-17), repeated in the mismatch page
   * (app/routers/views.py:52-54): when either bound is missing, the thirty
   * days up to today; otherwise the bounds as given.
   */
  function DefaultRange(from: Option<CivilDate>, to: Option<CivilDate>, today: CivilDate): (r: (CivilDate, CivilDate))
    requires ValidDate(today)
    ensures from.Some? && to.Some? ==> r == (from.value, to.value)
    ensures from.None? || to.None? ==>
      && r.1 == today && ValidDate(r.0)
      && DayNumber(r.1) - DayNumber(r.0) == 30 && DateLe(r.0, r.1)
  {
    if from.None? || to.None? then
      var f := AddDays(today, -30);
      DateLeOfDayNumber(f, today);
      (f, today)
    else (from.value, to.value)
  }

  /** The resolved query: range and the optional branch and team filters. */
  datatype StatsQuery = StatsQuery(from: CivilDate, to: CivilDate, branch: Option<string>, team: Option<string>)

  /** The filters every session count applies: the range, and branch and team when given. */
  predicate InScope(q: StatsQuery, s: Session) {
    && DateInRange(s.date, q.from, q.to)
    && (!TruthyStr(q.branch) || s.branch == q.branch.value)
    && (!TruthyStr(q.team) || s.team == q.team.value)
  }

  /** The two tallies: sessions that took place, and sessions that ended in a registration. */
  datatype Tally = Counseled | Registered

  predicate Tallied(t: Tally, status: string) {
    if t == Counseled then IsCounseling(status) else status == "REGISTERED"
  }

  /** The codes of the active rows, in table order. */
  function ActiveCodes(rows: seq<CodeRow>): (r: seq<string>)
    ensures forall c :: c in r <==> ActiveCode(rows, c)
  {
    if rows == [] then []
    else
      var rest := ActiveCodes(rows[1..]);
      assert forall c :: ActiveCode(rows, c) <==> (rows[0].code == c && rows[0].active) || ActiveCode(rows[1..], c) by {
        forall c ensures ActiveCode(rows, c) <==> (rows[0].code == c && rows[0].active) || ActiveCode(rows[1..], c) {
          if ActiveCode(rows, c) {
            var i :| 0 <= i < |rows| && rows[i].code == c && rows[i].active;
            if i > 0 {
              assert rows[1..][i - 1] == rows[i];
            }
          }
          if ActiveCode(rows[1..], c) {
            var i :| 0 <= i < |rows[1..]| && rows[1..][i].code == c && rows[1..][i].active;
            assert rows[i + 1] == rows[1..][i];
          }
        }
      }
      if rows[0].active then [rows[0].code] + rest else rest
  }

  /**
   * The branches reported (app/routers/stats.py:39-42): the active codes, or
   * with a branch filter just that branch when it is active, and none otherwise.
   */
  function BranchCodes(branches: seq<CodeRow>, branch: Option<string>): (r: seq<string>)
    ensures forall c :: c in r <==> ActiveCode(branches, c) && (!TruthyStr(branch) || c == branch.value)
    ensures TruthyStr(branch) ==> |r| <= 1
  {
    var codes := ActiveCodes(branches);
    if TruthyStr(branch) then (if branch.value in codes then [branch.value] else [])
    else codes
  }

  /** Sessions of the branch counted by `counseling_q` or `registered_q`. */
  function BranchIn(q: StatsQuery, t: Tally, code: string): SessionRow -> bool {
    (r: SessionRow) => InScope(q, r.session) && Tallied(t, r.session.status) && r.session.branch == code
  }

  function DbCount(r: DailyRow): int {
    r.dbCount
  }

  /** Rows of the team table summed for `team_db_sum`. */
  function TeamDbIn(q: StatsQuery): DailyRow -> bool {
    (r: DailyRow) => DateInRange(r.date, q.from, q.to) && q.team == Some(r.code)
  }

  /** `team_db_sum` (app/routers/stats.py:67-72): present exactly when a team is given. */
  function TeamDbSum(teamRows: seq<DailyRow>, q: StatsQuery): (r: Option<int>)
    ensures r.Some? <==> TruthyStr(q.team)
    ensures r.Some? ==> r.value == Sum(Filter(teamRows, TeamDbIn(q)), DbCount)
  {
    if TruthyStr(q.team) then Some(Sum(Filter(teamRows, TeamDbIn(q)), DbCount)) else None
  }

  /** Rows of the branch table grouped under `code` in `branch_db_map`. */
  function BranchDbIn(q: StatsQuery, code: string): DailyRow -> bool {
    (r: DailyRow) => DateInRange(r.date, q.from, q.to) && (!TruthyStr(q.branch) || r.code == q.branch.value) && r.code == code
  }

  /** `branch_db_map.get(code, 0)` (app/routers/stats.py:74-80, 91). */
  function BranchDb(branchRows: seq<DailyRow>, q: StatsQuery, code: string): int {
    Sum(Filter(branchRows, BranchDbIn(q, code)), DbCount)
  }

  /** `n / d if d > 0 else None`, as an exact ratio. */
  function Rate(n: int, d: int): (r: Option<real>)
    ensures r.None? <==> d <= 0
    ensures r.Some? ==> r.value * (d as real) == n as real
  {
    if d > 0 then Some(n as real / d as real) else None
  }

  lemma RateAtMostOne(n: int, d: int)
    requires 0 <= n <= d
    ensures Rate(n, d).Some? ==> 0.0 <= Rate(n, d).value <= 1.0
  {
    if d > 0 {
      var x := Rate(n, d).value;
      assert x * (d as real) == n as real;
    }
  }

  /** One entry of `branch_stats`. */
  datatype BranchStat = BranchStat(
    branch: string, branchLabel: string, counseling: int, registered: int,
    totalDb: int, registrationRate: Option<real>, counselingRate: Option<real>)

  /** The label of the first active branch row with the code, or the code. */
  function ActiveLabel(branches: seq<CodeRow>, code: string): (l: string)
    ensures (forall x :: x in branches && x.active ==> x.code != code) ==> l == code
    ensures (exists x :: x in branches && x.active && x.code == code) ==>
      exists x :: x in branches && x.active && x.code == code && l == x.labelKo
  {
    match FindCode(Filter(branches, (b: CodeRow) => b.active), code)
    case Some(b) => b.labelKo
    case None => code
  }

  /** The tables `overview` reads. */
  datatype Tables = Tables(
    sessions: seq<SessionRow>, branchDb: seq<DailyRow>, teamDb: seq<DailyRow>,
    branches: seq<CodeRow>, subjects: seq<Subject>)

  /** `total_db` (app/routers/stats.py:88-91). */
  function TotalDb(t: Tables, q: StatsQuery, code: string): int {
    var teamSum := TeamDbSum(t.teamDb, q);
    if TruthyStr(q.team) && teamSum.Some? && teamSum.value > 0 then teamSum.value
    else BranchDb(t.branchDb, q, code)
  }

  /** The entry the loop of app/routers/stats.py:84-104 appends for `code`. */
  function BranchRow(t: Tables, q: StatsQuery, code: string): BranchStat {
    var counseling := Count(t.sessions, BranchIn(q, Counseled, code));
    var registered := Count(t.sessions, BranchIn(q, Registered, code));
    var totalDb := TotalDb(t, q, code);
    BranchStat(code, ActiveLabel(t.branches, code), counseling, registered, totalDb,
      Rate(registered, counseling), Rate(counseling, totalDb))
  }

  /**
   * REGISTERED is a counseling status, so a branch never has more
   * registrations than counseling sessions and its registration rate is at
   * most 1.
   */
  lemma BranchRegisteredAtMostCounseling(t: Tables, q: StatsQuery, code: string)
    ensures BranchRow(t, q, code).registered <= BranchRow(t, q, code).counseling
    ensures BranchRow(t, q, code).registrationRate.Some? ==>
      0.0 <= BranchRow(t, q, code).registrationRate.value <= 1.0
  {
    CountMonotone(t.sessions, BranchIn(q, Registered, code), BranchIn(q, Counseled, code));
    var row := BranchRow(t, q, code);
    RateAtMostOne(row.registered, row.counseling);
  }

  /**
   * With a team filter and a positive team DB sum every branch gets that sum
   * as its DB count; otherwise each branch gets its own DB sum.
   */
  lemma TotalDbRule(t: Tables, q: StatsQuery, a: string, b: string)
    ensures TruthyStr(q.team) && TeamDbSum(t.teamDb, q).value > 0 ==>
      BranchRow(t, q, a).totalDb == BranchRow(t, q, b).totalDb == TeamDbSum(t.teamDb, q).value
    ensures !(TruthyStr(q.team) && TeamDbSum(t.teamDb, q).value > 0) ==>
      BranchRow(t, q, a).totalDb == BranchDb(t.branchDb, q, a)
  {
  }

  /** `branch_stats`: the loop of app/routers/stats.py:83-104. */
  method BranchStats(t: Tables, q: StatsQuery, codes: seq<string>) returns (stats: seq<BranchStat>)
    ensures |stats| == |codes|
    ensures forall i :: 0 <= i < |codes| ==> stats[i] == BranchRow(t, q, codes[i])
  {
    var teamSum := TeamDbSum(t.teamDb, q);
    stats := [];
    for i := 0 to |codes|
      invariant |stats| == i
      invariant forall k :: 0 <= k < i ==> stats[k] == BranchRow(t, q, codes[k])
    {
      var code := codes[i];
      var counseling := Count(t.sessions, BranchIn(q, Counseled, code));
      var registered := Count(t.sessions, BranchIn(q, Registered, code));
      var totalDb;
      if TruthyStr(q.team) && teamSum.Some? && teamSum.value > 0 {
        totalDb := teamSum.value;
      } else {
        totalDb := BranchDb(t.branchDb, q, code);
      }
      var regRate := if counseling > 0 then Some(registered as real / counseling as real) else None;
      var counselingRate := if totalDb > 0 then Some(counseling as real / totalDb as real) else None;
      var branchLabel := ActiveLabel(t.branches, code);
      stats := stats + [BranchStat(code, branchLabel, counseling, registered, totalDb, regRate, counselingRate)];
    }
  }

  /** The subjects the two subject tables report (app/routers/stats.py:107-113). */
  function SubjectListed(q: StatsQuery): Subject -> bool {
    (s: Subject) => s.active && (!TruthyStr(q.branch) || s.branch == q.branch.value)
  }

  function ListedSubjects(subjects: seq<Subject>, q: StatsQuery): (r: seq<Subject>)
    ensures forall s :: s in r <==> s in subjects && s.active && (!TruthyStr(q.branch) || s.branch == q.branch.value)
  {
    Filter(subjects, SubjectListed(q))
  }

  /** Sessions counted for a subject by its requested subject id. */
  function RequestedIn(q: StatsQuery, t: Tally, sid: int): SessionRow -> bool {
    (r: SessionRow) => InScope(q, r.session) && Tallied(t, r.session.status) && r.session.requestedSubjectId == Some(sid)
  }

  /** Registered sessions counted for a subject by its registered subject id. */
  function RegisteredAs(q: StatsQuery, sid: int): SessionRow -> bool {
    (r: SessionRow) => InScope(q, r.session) && r.session.status == "REGISTERED" && r.session.registeredSubjectId == Some(sid)
  }

  /** One entry of `subject_stats_request`. */
  datatype SubjectRequestStat = SubjectRequestStat(
    subjectId: int, subjectName: string, branch: string,
    counseling: int, registered: int, registrationRate: Option<real>)

  /** One entry of `subject_stats_registered`. */
  datatype SubjectRegisteredStat = SubjectRegisteredStat(
    subjectId: int, subjectName: string, branch: string,
    counselingByRequest: int, registeredByRegistered: int, rateRegisteredBasis: Option<real>)

  function RequestRow(t: Tables, q: StatsQuery, s: Subject): SubjectRequestStat {
    var c := Count(t.sessions, RequestedIn(q, Counseled, s.id));
    var r := Count(t.sessions, RequestedIn(q, Registered, s.id));
    SubjectRequestStat(s.id, s.name, s.branch, c, r, Rate(r, c))
  }

  function RegisteredRow(t: Tables, q: StatsQuery, s: Subject): SubjectRegisteredStat {
    var c := Count(t.sessions, RequestedIn(q, Counseled, s.id));
    var r := Count(t.sessions, RegisteredAs(q, s.id));
    SubjectRegisteredStat(s.id, s.name, s.branch, c, r, Rate(r, c))
  }

  /** On the request basis a subject's registration rate is at most 1. */
  lemma RequestRateAtMostOne(t: Tables, q: StatsQuery, s: Subject)
    ensures RequestRow(t, q, s).registered <= RequestRow(t, q, s).counseling
    ensures RequestRow(t, q, s).registrationRate.Some? ==> RequestRow(t, q, s).registrationRate.value <= 1.0
  {
    CountMonotone(t.sessions, RequestedIn(q, Registered, s.id), RequestedIn(q, Counseled, s.id));
    var row := RequestRow(t, q, s);
    RateAtMostOne(row.registered, row.counseling);
  }

  /** The registered-basis table divides by the request-basis counseling count. */
  lemma RegisteredBasisDenominator(t: Tables, q: StatsQuery, s: Subject)
    ensures RegisteredRow(t, q, s).counselingByRequest == RequestRow(t, q, s).counseling
    ensures RegisteredRow(t, q, s).rateRegisteredBasis == Rate(RegisteredRow(t, q, s).registeredByRegistered, RequestRow(t, q, s).counseling)
  {
  }

  /**
   * Three sessions on one day: one requested subject 1 and took place, two
   * requested subject 2 and were registered for subject 1.
   */
  function SwitchedSubjects(): Tables {
    var day := CivilDate(2025, 3, 3);
    var done := Session(day, Time(9, 0, 0, 0), Time(10, 0, 0, 0), 1, "KH", "JONGNO",
      Some(1), None, "OFFLINE", "DONE", None, None);
    var moved := Session(day, Time(10, 0, 0, 0), Time(11, 0, 0, 0), 1, "KH", "JONGNO",
      Some(2), Some(1), "OFFLINE", "REGISTERED", None, None);
    var later := moved.(startTime := Time(11, 0, 0, 0), endTime := Time(12, 0, 0, 0));
    Tables([SessionRow(1, done), SessionRow(2, moved), SessionRow(3, later)], [], [], [], [])
  }

  /** The registered-basis rate is not bounded by 1: here it is 2 for subject 1. */
  lemma RegisteredBasisCanExceedOne()
    ensures var q := StatsQuery(CivilDate(2025, 3, 3), CivilDate(2025, 3, 3), None, None);
      RegisteredRow(SwitchedSubjects(), q, Subject(1, "Math", "KH", true)).rateRegisteredBasis == Some(2.0)
  {
    var t := SwitchedSubjects();
    var q := StatsQuery(CivilDate(2025, 3, 3), CivilDate(2025, 3, 3), None, None);
    var rows := t.sessions;
    assert InScope(q, rows[0].session) && InScope(q, rows[1].session) && InScope(q, rows[2].session);
    var req := RequestedIn(q, Counseled, 1);
    var reg := RegisteredAs(q, 1);
    assert req(rows[0]) && !req(rows[1]) && !req(rows[2]);
    assert !reg(rows[0]) && reg(rows[1]) && reg(rows[2]);
    CountOfThree(rows, req);
    CountOfThree(rows, reg);
    var row := RegisteredRow(t, q, Subject(1, "Math", "KH", true));
    assert row.counselingByRequest == 1 && row.registeredByRegistered == 2;
    assert Rate(2, 1) == Some(2.0);
    assert row.rateRegisteredBasis == Some(2.0);
  }

  lemma CountOfThree<T>(s: seq<T>, p: T -> bool)
    requires |s| == 3
    ensures Count(s, p) == (if p(s[0]) then 1 else 0) + (if p(s[1]) then 1 else 0) + (if p(s[2]) then 1 else 0)
  {
    var t := s[1..];
    assert t[0] == s[1] && t[1..] == [s[2]];
    assert [s[2]][1..] == [];
    assert Count([s[2]], p) == (if p(s[2]) then 1 else 0);
    assert Count(t, p) == (if p(s[1]) then 1 else 0) + Count([s[2]], p);
  }

  /** `subject_stats_request`: the loop of app/routers/stats.py:139-151. */
  method SubjectRequestStats(t: Tables, q: StatsQuery, subjects: seq<Subject>) returns (stats: seq<SubjectRequestStat>)
    ensures |stats| == |subjects|
    ensures forall i :: 0 <= i < |subjects| ==> stats[i] == RequestRow(t, q, subjects[i])
  {
    stats := [];
    for i := 0 to |subjects|
      invariant |stats| == i
      invariant forall k :: 0 <= k < i ==> stats[k] == RequestRow(t, q, subjects[k])
    {
      var s := subjects[i];
      var c := Count(t.sessions, RequestedIn(q, Counseled, s.id));
      var r := Count(t.sessions, RequestedIn(q, Registered, s.id));
      var rate := if c > 0 then Some(r as real / c as real) else None;
      stats := stats + [SubjectRequestStat(s.id, s.name, s.branch, c, r, rate)];
    }
  }

  /** `subject_stats_registered`: the loop of app/routers/stats.py:166-180. */
  method SubjectRegisteredStats(t: Tables, q: StatsQuery, subjects: seq<Subject>) returns (stats: seq<SubjectRegisteredStat>)
    ensures |stats| == |subjects|
    ensures forall i :: 0 <= i < |subjects| ==> stats[i] == RegisteredRow(t, q, subjects[i])
  {
    stats := [];
    for i := 0 to |subjects|
      invariant |stats| == i
      invariant forall k :: 0 <= k < i ==> stats[k] == RegisteredRow(t, q, subjects[k])
    {
      var s := subjects[i];
      var c := Count(t.sessions, RequestedIn(q, Counseled, s.id));
      var r := Count(t.sessions, RegisteredAs(q, s.id));
      var rate := if c > 0 then Some(r as real / c as real) else None;
      stats := stats + [SubjectRegisteredStat(s.id, s.name, s.branch, c, r, rate)];
    }
  }

  /** The four rates of the `cards` object. */
  datatype Cards = Cards(
    branchRegistrationRate: Option<real>, branchCounselingRate: Option<real>,
    subjectRegistrationRateRequestBasis: Option<real>, subjectRegistrationRateRegisteredBasis: Option<real>)

  function StatCounseling(x: BranchStat): int { x.counseling }
  function StatRegistered(x: BranchStat): int { x.registered }
  function StatTotalDb(x: BranchStat): int { x.totalDb }
  function ReqCounseling(x: SubjectRequestStat): int { x.counseling }
  function ReqRegistered(x: SubjectRequestStat): int { x.registered }
  function RegCounseling(x: SubjectRegisteredStat): int { x.counselingByRequest }
  function RegRegistered(x: SubjectRegisteredStat): int { x.registeredByRegistered }

  /**
   * The card DB denominator (app/routers/stats.py:186-189): the team sum
   * whenever a team is given, even when it is 0, otherwise the sum of the
   * branch rows' DB counts.
   */
  function CardDb(stats: seq<BranchStat>, teamSum: Option<int>, q: StatsQuery): int {
    if TruthyStr(q.team) && teamSum.Some? then teamSum.value else Sum(stats, StatTotalDb)
  }

  /** `cards` (app/routers/stats.py:182-201). */
  function CardsOf(stats: seq<BranchStat>, req: seq<SubjectRequestStat>, reg: seq<SubjectRegisteredStat>,
                   teamSum: Option<int>, q: StatsQuery): Cards {
    Cards(
      Rate(Sum(stats, StatRegistered), Sum(stats, StatCounseling)),
      Rate(Sum(stats, StatCounseling), CardDb(stats, teamSum, q)),
      Rate(Sum(req, ReqRegistered), Sum(req, ReqCounseling)),
      Rate(Sum(reg, RegRegistered), Sum(reg, RegCounseling)))
  }

  /** When every row has no more registrations than sessions, so do the card totals. */
  lemma CardRatesAtMostOne(stats: seq<BranchStat>, req: seq<SubjectRequestStat>, reg: seq<SubjectRegisteredStat>,
                           teamSum: Option<int>, q: StatsQuery)
    requires forall x :: x in stats ==> 0 <= x.registered <= x.counseling
    requires forall x :: x in req ==> 0 <= x.registered <= x.counseling
    ensures CardsOf(stats, req, reg, teamSum, q).branchRegistrationRate.Some? ==>
      0.0 <= CardsOf(stats, req, reg, teamSum, q).branchRegistrationRate.value <= 1.0
    ensures CardsOf(stats, req, reg, teamSum, q).subjectRegistrationRateRequestBasis.Some? ==>
      0.0 <= CardsOf(stats, req, reg, teamSum, q).subjectRegistrationRateRequestBasis.value <= 1.0
  {
    SumMonotone(stats, StatRegistered, StatCounseling);
    SumNonNegative(stats, StatRegistered);
    RateAtMostOne(Sum(stats, StatRegistered), Sum(stats, StatCounseling));
    SumMonotone(req, ReqRegistered, ReqCounseling);
    SumNonNegative(req, ReqRegistered);
    RateAtMostOne(Sum(req, ReqRegistered), Sum(req, ReqCounseling));
  }

  lemma {:induction false} SumNonNegative<T>(s: seq<T>, f: T -> int)
    requires forall x :: x in s ==> 0 <= f(x)
    ensures 0 <= Sum(s, f)
  {
    if s != [] {
      SumNonNegative(s[1..], f);
    }
  }

  /**
   * With a team whose DB sum is 0 the card counseling rate is None, while
   * each branch row falls back to its own branch DB sum.
   */
  lemma ZeroTeamSumDiverges(t: Tables, q: StatsQuery, stats: seq<BranchStat>, req: seq<SubjectRequestStat>,
                            reg: seq<SubjectRegisteredStat>, code: string)
    requires TruthyStr(q.team) && TeamDbSum(t.teamDb, q) == Some(0)
    ensures CardsOf(stats, req, reg, TeamDbSum(t.teamDb, q), q).branchCounselingRate.None?
    ensures BranchRow(t, q, code).totalDb == BranchDb(t.branchDb, q, code)
  {
  }

  /** The sum over codes of a per-branch count. */
  function CodeCounts(sessions: seq<SessionRow>, q: StatsQuery, tl: Tally, codes: seq<string>): int {
    if codes == [] then 0 else Count(sessions, BranchIn(q, tl, codes[0])) + CodeCounts(sessions, q, tl, codes[1..])
  }

  /** Sessions of the tally whose branch is among the codes. */
  function AnyBranchIn(q: StatsQuery, tl: Tally, codes: seq<string>): SessionRow -> bool {
    (r: SessionRow) => InScope(q, r.session) && Tallied(tl, r.session.status) && r.session.branch in codes
  }

  /** Over distinct codes, the per-branch counts add up to one count over all of them. */
  lemma {:induction false} CodeCountsAddUp(sessions: seq<SessionRow>, q: StatsQuery, tl: Tally, codes: seq<string>)
    requires Distinct(codes)
    ensures CodeCounts(sessions, q, tl, codes) == Count(sessions, AnyBranchIn(q, tl, codes))
  {
    if codes == [] {
      CountNone(sessions, AnyBranchIn(q, tl, codes));
    } else {
      CodeCountsAddUp(sessions, q, tl, codes[1..]);
      assert codes[0] !in codes[1..];
      forall x: SessionRow
        ensures AnyBranchIn(q, tl, codes)(x) == (BranchIn(q, tl, codes[0])(x) || AnyBranchIn(q, tl, codes[1..])(x))
      {
        assert x.session.branch in codes <==> x.session.branch == codes[0] || x.session.branch in codes[1..] by {
          assert codes == [codes[0]] + codes[1..];
        }
      }
      CountSplit(sessions, BranchIn(q, tl, codes[0]), AnyBranchIn(q, tl, codes[1..]), AnyBranchIn(q, tl, codes));
    }
  }

  lemma {:induction false} CountNone<T>(s: seq<T>, p: T -> bool)
    requires forall x :: !p(x)
    ensures Count(s, p) == 0
  {
    if s != [] {
      CountNone(s[1..], p);
    }
  }

  /** The card totals are the sums of the rows' counts over the listed codes. */
  lemma {:induction false} StatSums(t: Tables, q: StatsQuery, codes: seq<string>, stats: seq<BranchStat>)
    requires |stats| == |codes| && forall i :: 0 <= i < |codes| ==> stats[i] == BranchRow(t, q, codes[i])
    ensures Sum(stats, StatCounseling) == CodeCounts(t.sessions, q, Counseled, codes)
    ensures Sum(stats, StatRegistered) == CodeCounts(t.sessions, q, Registered, codes)
  {
    if codes != [] {
      StatSums(t, q, codes[1..], stats[1..]);
    }
  }

  /** What `overview` returns (the range is left as dates). */
  datatype Overview = Overview(
    range: (CivilDate, CivilDate), branchStats: seq<BranchStat>,
    subjectStatsRequest: seq<SubjectRequestStat>, subjectStatsRegistered: seq<SubjectRegisteredStat>,
    cards: Cards)

  /**
   * `overview` (app/routers/stats.py:19-214). When the branch table keeps
   * its codes unique, the card counts are the number of counseling and
   * registered sessions in scope whose branch is reported; both card
   * registration rates are at most 1.
   */
  method ComputeOverview(t: Tables, from: Option<CivilDate>, to: Option<CivilDate>,
                         branch: Option<string>, team: Option<string>, today: CivilDate) returns (o: Overview)
    requires ValidDate(today)
    ensures o.range == DefaultRange(from, to, today)
    ensures var q := StatsQuery(o.range.0, o.range.1, branch, team);
      var codes := BranchCodes(t.branches, branch);
      var subjects := ListedSubjects(t.subjects, q);
      && |o.branchStats| == |codes|
      && (forall i :: 0 <= i < |codes| ==> o.branchStats[i] == BranchRow(t, q, codes[i]))
      && |o.subjectStatsRequest| == |subjects| == |o.subjectStatsRegistered|
      && (forall i :: 0 <= i < |subjects| ==>
            o.subjectStatsRequest[i] == RequestRow(t, q, subjects[i])
            && o.subjectStatsRegistered[i] == RegisteredRow(t, q, subjects[i]))
      && o.cards == CardsOf(o.branchStats, o.subjectStatsRequest, o.subjectStatsRegistered, TeamDbSum(t.teamDb, q), q)
      && (UniqueCodes(t.branches) ==>
            && Sum(o.branchStats, StatCounseling) == Count(t.sessions, AnyBranchIn(q, Counseled, codes))
            && Sum(o.branchStats, StatRegistered) == Count(t.sessions, AnyBranchIn(q, Registered, codes)))
    ensures o.cards.branchRegistrationRate.Some? ==> 0.0 <= o.cards.branchRegistrationRate.value <= 1.0
    ensures o.cards.subjectRegistrationRateRequestBasis.Some? ==> 0.0 <= o.cards.subjectRegistrationRateRequestBasis.value <= 1.0
  {
    var range := DefaultRange(from, to, today);
    var q := StatsQuery(range.0, range.1, branch, team);
    var codes := BranchCodes(t.branches, branch);
    var stats := BranchStats(t, q, codes);
    var subjects := ListedSubjects(t.subjects, q);
    var req := SubjectRequestStats(t, q, subjects);
    var reg := SubjectRegisteredStats(t, q, subjects);
    var cards := CardsOf(stats, req, reg, TeamDbSum(t.teamDb, q), q);
    StatSums(t, q, codes, stats);
    if UniqueCodes(t.branches) {
      BranchCodesDistinct(t.branches, branch);
      CodeCountsAddUp(t.sessions, q, Counseled, codes);
      CodeCountsAddUp(t.sessions, q, Registered, codes);
    }
    forall x | x in stats ensures 0 <= x.registered <= x.counseling {
      var i :| 0 <= i < |stats| && stats[i] == x;
      BranchRegisteredAtMostCounseling(t, q, codes[i]);
    }
    forall x | x in req ensures 0 <= x.registered <= x.counseling {
      var i :| 0 <= i < |req| && req[i] == x;
      RequestRateAtMostOne(t, q, subjects[i]);
    }
    CardRatesAtMostOne(stats, req, reg, TeamDbSum(t.teamDb, q), q);
    o := Overview(range, stats, req, reg, cards);
  }

  /** With unique codes in the table, the reported codes are distinct. */
  lemma BranchCodesDistinct(branches: seq<CodeRow>, branch: Option<string>)
    requires UniqueCodes(branches)
    ensures Distinct(BranchCodes(branches, branch))
  {
    if !TruthyStr(branch) {
      ActiveCodesDistinct(branches);
    }
  }

  lemma {:induction false} ActiveCodesDistinct(rows: seq<CodeRow>)
    requires UniqueCodes(rows)
    ensures Distinct(ActiveCodes(rows))
  {
    if rows != [] {
      ActiveCodesDistinct(rows[1..]);
      var rest := ActiveCodes(rows[1..]);
      if rows[0].active {
        assert rows[0].code !in rest;
        var codes := [rows[0].code] + rest;
        forall i, j | 0 <= i < j < |codes| ensures codes[i] != codes[j] {
          if i == 0 {
            assert codes[j] == rest[j - 1];
            assert codes[j] in rest;
          } else {
            assert codes[i] == rest[i - 1] && codes[j] == rest[j - 1];
          }
        }
      }
    }
  }
}
