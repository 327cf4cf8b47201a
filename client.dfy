/**
 * The page script's request-building and caching logic
 * (app/static/script.js): the per-branch subject cache, the session form and
 * the requests it sends, the batch status change, and the admin page's
 * filtered and ordered daily-DB lists. The requests are values; sending them
 * is not modelled.
 */
module Client {
  import opened Wrappers
  import opened Text
  import opened Order
  import opened Calendar
  import Models

  /** One entry of `/api/subjects?branch=...`. */
  datatype SubjectItem = SubjectItem(id: int, name: string, branch: string)

  type SubjectCache = map<string, seq<SubjectItem>>

  /**
   * `ensureSubjects(branch)` (app/static/script.js:28-34) on a cache and the
   * response the fetch would give (`None` when it fails and `.catch` yields
   * []): the returned list, the new cache, and whether a fetch was made.
   */
  function EnsureSubjectsSpec(cache: SubjectCache, branch: string, response: Option<seq<SubjectItem>>)
    : (r: (seq<SubjectItem>, SubjectCache, bool))
    ensures branch == "" ==> r == ([], cache, false)
    ensures branch != "" ==> branch in r.1 && r.1[branch] == r.0
    ensures r.2 <==> branch != "" && branch !in cache
    ensures r.2 ==> r.0 == response.GetOr([])
    ensures !r.2 ==> r.1 == cache
    ensures forall b :: b in cache ==> b in r.1 && r.1[b] == cache[b]
  {
    if branch == "" then ([], cache, false)
    else if branch in cache then (cache[branch], cache, false)
    else
      var list := response.GetOr([]);
      (list, cache[branch := list], true)
  }

  /** The memo: a second call for the same branch fetches nothing and returns the first call's list. */
  lemma EnsureSubjectsMemoised(cache: SubjectCache, branch: string, r1: Option<seq<SubjectItem>>, r2: Option<seq<SubjectItem>>)
    requires branch != ""
    ensures var (l1, c1, _) := EnsureSubjectsSpec(cache, branch, r1);
      var (l2, c2, fetched) := EnsureSubjectsSpec(c1, branch, r2);
      l2 == l1 && c2 == c1 && !fetched
  {
  }

  /** The client's shared metadata; only the subject cache changes after loading. */
  class MetaCache {
    var subjectsByBranch: SubjectCache

    constructor ()
      ensures subjectsByBranch == map[]
    {
      subjectsByBranch := map[];
    }

    /** `ensureSubjects`, with the fetch's outcome supplied as `response`. */
    method EnsureSubjects(branch: string, response: Option<seq<SubjectItem>>) returns (list: seq<SubjectItem>, fetched: bool)
      modifies this
      ensures (list, subjectsByBranch, fetched) == EnsureSubjectsSpec(old(subjectsByBranch), branch, response)
    {
      if branch == "" {
        return [], false;
      }
      if branch in subjectsByBranch {
        return subjectsByBranch[branch], false;
      }
      list := response.GetOr([]);
      subjectsByBranch := subjectsByBranch[branch := list];
      fetched := true;
    }
  }

  /** The values of the session form's inputs; an input's value is always a string. */
  datatype Form = Form(
    id: string, date: string, start: string, end: string, counselor: string,
    branch: string, team: string, mode: string, status: string, comment: string,
    requested: string, registered: string, cancel: string)

  /** The JSON body of a session save (app/static/script.js:209-222); `None` is JSON null. */
  datatype Payload = Payload(
    date: Option<string>, startTime: Option<string>, endTime: Option<string>,
    counselorId: Option<int>, branch: string, team: string,
    requestedSubjectId: Option<int>, registeredSubjectId: Option<int>,
    mode: string, status: string, cancelReason: Option<string>, comment: Option<string>)

  /** `v || null`. */
  function OrNull(v: string): (r: Option<string>)
    ensures r.None? <==> v == ""
    ensures r.Some? ==> r.value == v
  {
    if v == "" then None else Some(v)
  }

  /** `v ? +v : null`; a string that is not a number gives NaN, which JSON writes as null. */
  function NumberOrNull(v: string): Option<int> {
    if v == "" then None else JsNumber(v)
  }

  /** `v || fallback`. */
  function OrDefault(v: string, fallback: string): (r: string)
    ensures r == (if v == "" then fallback else v)
  {
    if v == "" then fallback else v
  }

  function PayloadOf(f: Form): Payload {
    Payload(OrNull(f.date), OrNull(f.start), OrNull(f.end), NumberOrNull(f.counselor),
            f.branch, f.team, NumberOrNull(f.requested), NumberOrNull(f.registered),
            OrDefault(f.mode, "OFFLINE"), OrDefault(f.status, "PENDING"), OrNull(f.cancel), OrNull(f.comment))
  }

  datatype Request = Request(verb: string, url: string, body: Option<Payload>)

  /** `onSaveSession` (app/static/script.js:207-225): the request the save button sends. */
  function SaveRequest(f: Form): (r: Request)
    ensures r.verb == "PUT" <==> f.id != ""
    ensures r.verb == "POST" <==> f.id == ""
    ensures f.id != "" ==> r.url == "/api/sessions/" + f.id
    ensures f.id == "" ==> r.url == "/api/sessions"
    ensures r.body == Some(PayloadOf(f))
  {
    if f.id != "" then Request("PUT", "/api/sessions/" + f.id, Some(PayloadOf(f)))
    else Request("POST", "/api/sessions", Some(PayloadOf(f)))
  }

  /** `onDeleteSession` (app/static/script.js:245-251): no request without an id or a confirmation. */
  function DeleteRequest(f: Form, confirmed: bool): (r: Option<Request>)
    ensures r.Some? <==> f.id != "" && confirmed
    ensures r.Some? ==> r.value == Request("DELETE", "/api/sessions/" + f.id, None)
  {
    if f.id == "" || !confirmed then None else Some(Request("DELETE", "/api/sessions/" + f.id, None))
  }

  /** A session as `/api/sessions` returns it. */
  datatype Listed = Listed(
    id: int, date: string, startTime: string, endTime: string, counselorId: int,
    branch: string, team: string, requestedSubjectId: Option<int>, registeredSubjectId: Option<int>,
    mode: string, status: string, cancelReason: Option<string>, comment: Option<string>)

  /** `String(v || "")` for an optional number. */
  function NumberText(n: Option<int>): string {
    match n
    case Some(v) => if v == 0 then "" else IntToString(v)
    case None => ""
  }

  /** `v || ""` for an optional string. */
  function TextOf(s: Option<string>): string {
    s.GetOr("")
  }

  /**
   * The option values of the form's selects besides the empty "선택" entry:
   * every counselor id (app/static/script.js:138), the active branch and team
   * codes (app/static/script.js:150, 154) and the ids of the branch's
   * subjects (app/static/script.js:115).
   */
  datatype FormOptions = FormOptions(counselors: seq<string>, branches: seq<string>, teams: seq<string>, subjects: seq<string>)

  /** `String(id)` for each id, in order. */
  function IdTexts(ids: seq<int>): (r: seq<string>)
    ensures |r| == |ids|
    ensures forall i :: 0 <= i < |ids| ==> r[i] == IntToString(ids[i])
  {
    if ids == [] then [] else [IntToString(ids[0])] + IdTexts(ids[1..])
  }

  function SubjectIds(list: seq<SubjectItem>): (r: seq<int>)
    ensures |r| == |list|
    ensures forall i :: 0 <= i < |list| ==> r[i] == list[i].id
  {
    if list == [] then [] else [list[0].id] + SubjectIds(list[1..])
  }

  /** The codes of the active rows, in table order. */
  function ActiveCodeTexts(rows: seq<Models.CodeRow>): (r: seq<string>)
    ensures forall c :: c in r <==> Models.ActiveCode(rows, c)
  {
    if rows == [] then []
    else
      var rest := ActiveCodeTexts(rows[1..]);
      assert forall c :: Models.ActiveCode(rows, c) <==>
        (rows[0].code == c && rows[0].active) || Models.ActiveCode(rows[1..], c) by {
        forall c ensures Models.ActiveCode(rows, c) ==> (rows[0].code == c && rows[0].active) || Models.ActiveCode(rows[1..], c) {
          if Models.ActiveCode(rows, c) {
            var i :| 0 <= i < |rows| && rows[i].code == c && rows[i].active;
            if i > 0 {
              assert rows[1..][i - 1] == rows[i];
            }
          }
        }
        forall c | Models.ActiveCode(rows[1..], c) ensures Models.ActiveCode(rows, c) {
          var i :| 0 <= i < |rows[1..]| && rows[1..][i].code == c && rows[1..][i].active;
          assert rows[i + 1] == rows[1..][i];
        }
      }
      (if rows[0].active then [rows[0].code] else []) + rest
  }

  /**
   * The options the script offers: the counselors of the page's metadata,
   * the branch and team tables, and the list `ensureSubjects(ev.branch)`
   * resolves to.
   */
  function OptionsOf(counselorIds: seq<int>, branches: seq<Models.CodeRow>, teams: seq<Models.CodeRow>,
                     subjects: seq<SubjectItem>): FormOptions {
    FormOptions(IdTexts(counselorIds), ActiveCodeTexts(branches), ActiveCodeTexts(teams), IdTexts(SubjectIds(subjects)))
  }

  /** Setting a `<select>` to a value: one it has no option for leaves it reading "". */
  function Choose(options: seq<string>, v: string): string {
    if v in options then v else ""
  }

  /**
   * The form `openSessionModal(ev, "edit")` fills in (app/static/script.js:182-202),
   * the selects reading back only values they offer.
   */
  function FormFor(ev: Listed, opts: FormOptions): Form {
    Form(NumberText(Some(ev.id)), ev.date, Take(OrDefault(ev.startTime, "09:00"), 5), Take(OrDefault(ev.endTime, "10:00"), 5),
         Choose(opts.counselors, NumberText(Some(ev.counselorId))), Choose(opts.branches, ev.branch),
         Choose(opts.teams, ev.team), OrDefault(ev.mode, "OFFLINE"),
         OrDefault(ev.status, "PENDING"), TextOf(ev.comment),
         Choose(opts.subjects, NumberText(ev.requestedSubjectId)),
         Choose(opts.subjects, NumberText(ev.registeredSubjectId)), TextOf(ev.cancelReason))
  }

  /** A stored session as the server hands it out: positive ids, non-empty required fields. */
  predicate WellFormed(ev: Listed) {
    && ev.id > 0 && ev.counselorId > 0 && ev.date != "" && ev.startTime != "" && ev.endTime != ""
    && ev.mode != "" && ev.status != ""
    && (ev.requestedSubjectId.Some? ==> ev.requestedSubjectId.value > 0)
    && (ev.registeredSubjectId.Some? ==> ev.registeredSubjectId.value > 0)
    && (ev.cancelReason.Some? ==> ev.cancelReason.value != "")
    && (ev.comment.Some? ==> ev.comment.value != "")
  }

  lemma NumberTextRoundTrip(n: Option<int>)
    requires n.Some? ==> n.value > 0
    ensures NumberOrNull(NumberText(n)) == n
  {
    if n.Some? {
      DigitsValueOfNat(n.value);
    }
  }

  /** Reading back a nullable text written into an input gives the text; a written non-empty value reads back as itself. */
  lemma OrNullTextRoundTrip(v: string, o: Option<string>)
    ensures TextOf(OrNull(v)) == v
    ensures (o.Some? ==> o.value != "") ==> OrNull(TextOf(o)) == o
  {
  }

  /** The save never sends an empty mode or status: an empty select falls back to OFFLINE and PENDING. */
  lemma PayloadDefaults(f: Form)
    ensures PayloadOf(f).mode != "" && PayloadOf(f).status != ""
    ensures f.mode != "" ==> PayloadOf(f).mode == f.mode
    ensures f.status != "" ==> PayloadOf(f).status == f.status
    ensures f.mode == "" ==> PayloadOf(f).mode == "OFFLINE"
    ensures f.status == "" ==> PayloadOf(f).status == "PENDING"
  {
  }

  /**
   * Opening a stored session and saving it untouched sends a PUT to that
   * session with its own values, the times cut to "HH:MM"; a counselor,
   * branch, team or subject its select does not offer is sent as "" or null.
   */
  lemma EditResave(ev: Listed, opts: FormOptions)
    requires WellFormed(ev)
    ensures SaveRequest(FormFor(ev, opts)) == Request("PUT", "/api/sessions/" + IntToString(ev.id), Some(Payload(
      Some(ev.date), Some(Take(ev.startTime, 5)), Some(Take(ev.endTime, 5)),
      if IntToString(ev.counselorId) in opts.counselors then Some(ev.counselorId) else None,
      if ev.branch in opts.branches then ev.branch else "",
      if ev.team in opts.teams then ev.team else "",
      if NumberText(ev.requestedSubjectId) in opts.subjects then ev.requestedSubjectId else None,
      if NumberText(ev.registeredSubjectId) in opts.subjects then ev.registeredSubjectId else None,
      ev.mode, ev.status, ev.cancelReason, ev.comment)))
  {
    var f := FormFor(ev, opts);
    assert f.id == IntToString(ev.id) && f.id != "";
    NumberTextRoundTrip(Some(ev.counselorId));
    NumberTextRoundTrip(ev.requestedSubjectId);
    NumberTextRoundTrip(ev.registeredSubjectId);
    assert OrNull(f.cancel) == ev.cancelReason && OrNull(f.comment) == ev.comment;
    assert OrNull(f.start) == Some(Take(ev.startTime, 5)) && OrNull(f.end) == Some(Take(ev.endTime, 5));
  }

  /** A subject id is offered exactly when the loaded list holds a subject with it. */
  lemma SubjectOffered(list: seq<SubjectItem>, n: Option<int>)
    requires n.Some? ==> n.value > 0
    ensures n.Some? ==> (NumberText(n) in IdTexts(SubjectIds(list)) <==> exists s :: s in list && s.id == n.value)
  {
    if n.Some? {
      var t := IdTexts(SubjectIds(list));
      if NumberText(n) in t {
        var i :| 0 <= i < |t| && t[i] == NumberText(n);
        IntToStringInjective(list[i].id, n.value);
        assert list[i] in list;
      }
      if exists s :: s in list && s.id == n.value {
        var s :| s in list && s.id == n.value;
        var i :| 0 <= i < |list| && list[i] == s;
        assert t[i] == NumberText(n);
      }
    }
  }

  /**
   * When the stored counselor is listed, its branch and team are active and
   * its subjects are in the branch's loaded list, re-saving sends back
   * exactly the stored values.
   */
  lemma EditResaveRoundTrip(ev: Listed, counselorIds: seq<int>, branches: seq<Models.CodeRow>,
                            teams: seq<Models.CodeRow>, subjects: seq<SubjectItem>)
    requires WellFormed(ev)
    requires ev.counselorId in counselorIds
    requires Models.ActiveCode(branches, ev.branch) && Models.ActiveCode(teams, ev.team)
    requires ev.requestedSubjectId.Some? ==> exists s :: s in subjects && s.id == ev.requestedSubjectId.value
    requires ev.registeredSubjectId.Some? ==> exists s :: s in subjects && s.id == ev.registeredSubjectId.value
    ensures SaveRequest(FormFor(ev, OptionsOf(counselorIds, branches, teams, subjects))) ==
      Request("PUT", "/api/sessions/" + IntToString(ev.id), Some(Payload(
        Some(ev.date), Some(Take(ev.startTime, 5)), Some(Take(ev.endTime, 5)), Some(ev.counselorId),
        ev.branch, ev.team, ev.requestedSubjectId, ev.registeredSubjectId,
        ev.mode, ev.status, ev.cancelReason, ev.comment)))
  {
    var opts := OptionsOf(counselorIds, branches, teams, subjects);
    var i :| 0 <= i < |counselorIds| && counselorIds[i] == ev.counselorId;
    assert opts.counselors[i] == IntToString(ev.counselorId);
    SubjectOffered(subjects, ev.requestedSubjectId);
    SubjectOffered(subjects, ev.registeredSubjectId);
    EditResave(ev, opts);
  }

  /**
   * Re-saving a session whose branch or team has since been deactivated
   * sends an empty code, and one whose subject is missing from the branch's
   * list sends null for it.
   */
  lemma EditResaveClearsUnoffered(ev: Listed, counselorIds: seq<int>, branches: seq<Models.CodeRow>,
                                  teams: seq<Models.CodeRow>, subjects: seq<SubjectItem>)
    requires WellFormed(ev)
    ensures var body := SaveRequest(FormFor(ev, OptionsOf(counselorIds, branches, teams, subjects))).body.value;
      && (!Models.ActiveCode(branches, ev.branch) ==> body.branch == "")
      && (!Models.ActiveCode(teams, ev.team) ==> body.team == "")
      && (ev.requestedSubjectId.Some? && (forall s :: s in subjects ==> s.id != ev.requestedSubjectId.value) ==>
            body.requestedSubjectId.None?)
      && (ev.registeredSubjectId.Some? && (forall s :: s in subjects ==> s.id != ev.registeredSubjectId.value) ==>
            body.registeredSubjectId.None?)
  {
    var opts := OptionsOf(counselorIds, branches, teams, subjects);
    SubjectOffered(subjects, ev.requestedSubjectId);
    SubjectOffered(subjects, ev.registeredSubjectId);
    EditResave(ev, opts);
  }

  /** The body of the batch status change (app/static/script.js:540-546). */
  datatype BatchPayload = BatchPayload(
    ids: seq<int>, status: Option<string>, registeredSubjectId: Option<int>,
    cancelReason: Option<string>, comment: Option<string>)

  /** `onBatchApply` (app/static/script.js:537-546): nothing is sent when no row is checked. */
  function BatchRequest(checkedIds: seq<int>, status: string, registered: string, cancel: string, comment: string)
    : (r: Option<BatchPayload>)
    ensures r.None? <==> |checkedIds| == 0
    ensures r.Some? ==>
      (&& r.value.ids == checkedIds
       && r.value.status == OrNull(status) && r.value.registeredSubjectId == NumberOrNull(registered)
       && r.value.cancelReason == OrNull(cancel) && r.value.comment == OrNull(comment))
  {
    if |checkedIds| == 0 then None
    else Some(BatchPayload(checkedIds, OrNull(status), NumberOrNull(registered), OrNull(cancel), OrNull(comment)))
  }

  /** One row of `/api/daily-db` or `/api/daily-db-team`; code is the branch or the team. */
  datatype DailyItem = DailyItem(id: int, date: string, code: string, dbCount: int)

  /**
   * The admin list's comparator (app/static/script.js:686 and 696): newer
   * dates first, then codes in order.
   */
  predicate DailyItemLe(a: DailyItem, b: DailyItem) {
    if a.date == b.date then StrLe(a.code, b.code) else StrLe(b.date, a.date)
  }

  lemma DailyItemLeIsPreorder()
    ensures TotalPreorder(DailyItemLe)
  {
    forall a: DailyItem, b: DailyItem ensures DailyItemLe(a, b) || DailyItemLe(b, a) {
      StrLeTotal(a.code, b.code);
      StrLeTotal(a.date, b.date);
    }
    forall a: DailyItem, b: DailyItem, c: DailyItem | DailyItemLe(a, b) && DailyItemLe(b, c)
      ensures DailyItemLe(a, c)
    {
      if a.date == b.date && b.date == c.date {
        StrLeTransitive(a.code, b.code, c.code);
      } else if a.date != b.date && b.date != c.date {
        if a.date == c.date {
          StrLeAntisymmetric(a.date, b.date);
        } else {
          StrLeTransitive(c.date, b.date, a.date);
        }
      }
    }
  }

  /** The day of a "YYYY-MM-DD" string, or `None` for an Invalid Date. */
  function DayOf(s: string): Option<int> {
    match FromDateInput(s)
    case None => None
    case Some(t) => Some(DayNumber(t.date))
  }

  /** `d >= fromV && d <= toV`: comparisons with an Invalid Date are false. */
  predicate InDateRange(d: string, from: string, to: string) {
    DayOf(d).Some? && DayOf(from).Some? && DayOf(to).Some?
    && DayOf(from).value <= DayOf(d).value <= DayOf(to).value
  }

  predicate ShowDaily(r: DailyItem, from: string, to: string, code: string) {
    InDateRange(r.date, from, to) && (code == "" || r.code == code)
  }

  /** The admin page's list filter (app/static/script.js:682-686 and 692-696): a dated range and an optional code. */
  function DailyFilter(all: seq<DailyItem>, from: string, to: string, code: string): (r: seq<DailyItem>)
    ensures forall x :: x in r <==> x in all && ShowDaily(x, from, to, code)
  {
    if all == [] then []
    else if ShowDaily(all[0], from, to, code) then [all[0]] + DailyFilter(all[1..], from, to, code)
    else DailyFilter(all[1..], from, to, code)
  }

  /** The rows the admin page lists: exactly the matching rows, newest first, then by code. */
  function DailyList(all: seq<DailyItem>, from: string, to: string, code: string): (r: seq<DailyItem>)
    ensures forall x :: x in r <==> x in all && ShowDaily(x, from, to, code)
    ensures SortedBy(r, DailyItemLe)
    ensures multiset(r) == multiset(DailyFilter(all, from, to, code))
  {
    DailyItemLeIsPreorder();
    var rows := Sort(DailyFilter(all, from, to, code), DailyItemLe);
    assert forall x :: x in rows <==> x in DailyFilter(all, from, to, code) by {
      forall x ensures x in rows <==> x in DailyFilter(all, from, to, code) {
        SameElements(rows, DailyFilter(all, from, to, code), x);
      }
    }
    rows
  }

  /** An empty date input lists nothing: "" is an Invalid Date. */
  lemma EmptyRangeListsNothing(all: seq<DailyItem>, to: string, code: string)
    ensures DailyList(all, "", to, code) == []
  {
    assert Split("", '-') == [""];
    assert DayOf("") == None;
    NothingShown(all, "", to, code);
    assert |multiset(DailyList(all, "", to, code))| == 0;
  }

  lemma {:induction false} NothingShown(all: seq<DailyItem>, from: string, to: string, code: string)
    requires forall x :: x in all ==> !ShowDaily(x, from, to, code)
    ensures DailyFilter(all, from, to, code) == []
  {
    if all != [] {
      NothingShown(all[1..], from, to, code);
    }
  }
}
