/**
 * The daily DB-count tables (app/routers/daily_db.py keyed by date and
 * branch, app/routers/daily_db_team.py keyed by date and team). Both tables
 * have the same shape and the same two endpoints, so one class models
 * either; `code` holds the branch or the team.
 */
module DailyDb {
  import opened Order
  import opened Calendar
  import opened Models

  /** A stored row: primary key, day, branch or team code, and the count. */
  datatype DailyRow = DailyRow(id: int, date: CivilDate, code: string, dbCount: int)

  /** The body of the POST endpoint. */
  datatype DailyPayload = DailyPayload(date: CivilDate, code: string, dbCount: int)

  predicate KeyIs(r: DailyRow, date: CivilDate, code: string) {
    r.date == date && r.code == code
  }

  /** No two rows share a (date, code) key: what the upsert is there to keep. */
  predicate UniqueKeys(rows: seq<DailyRow>) {
    forall i, j :: 0 <= i < j < |rows| ==> !KeyIs(rows[i], rows[j].date, rows[j].code)
  }

  predicate HasRowFor(rows: seq<DailyRow>, date: CivilDate, code: string) {
    exists k :: 0 <= k < |rows| && KeyIs(rows[k], date, code)
  }

  /** `.filter(date == …, code == …).first()`: the first row with the key, or |rows|. */
  function KeyIndex(rows: seq<DailyRow>, date: CivilDate, code: string): (i: nat)
    ensures i <= |rows|
    ensures i < |rows| ==> KeyIs(rows[i], date, code)
    ensures forall k :: 0 <= k < i ==> !KeyIs(rows[k], date, code)
  {
    if rows == [] then 0
    else if KeyIs(rows[0], date, code) then 0
    else 1 + KeyIndex(rows[1..], date, code)
  }

  /** The table after the upsert, a new row taking the id newId. */
  function Upserted(rows: seq<DailyRow>, p: DailyPayload, newId: int): seq<DailyRow> {
    var i := KeyIndex(rows, p.date, p.code);
    if i < |rows| then rows[i := rows[i].(dbCount := p.dbCount)]
    else rows + [DailyRow(newId, p.date, p.code, p.dbCount)]
  }

  /**
   * On a table with unique keys, the upsert changes the count of the one row
   * with the payload's key, or appends a row when the key is new; every other
   * row stays where it was, unchanged.
   */
  lemma UpsertedRows(rows: seq<DailyRow>, p: DailyPayload, newId: int)
    requires UniqueKeys(rows)
    ensures var r := Upserted(rows, p, newId);
      && |r| == |rows| + (if HasRowFor(rows, p.date, p.code) then 0 else 1)
      && (forall k :: 0 <= k < |rows| ==>
            r[k] == (if KeyIs(rows[k], p.date, p.code) then rows[k].(dbCount := p.dbCount) else rows[k]))
      && (!HasRowFor(rows, p.date, p.code) ==> r[|rows|] == DailyRow(newId, p.date, p.code, p.dbCount))
  {
    var i := KeyIndex(rows, p.date, p.code);
    if i == |rows| {
      assert !HasRowFor(rows, p.date, p.code);
    } else {
      assert HasRowFor(rows, p.date, p.code);
      forall k | 0 <= k < |rows| && k != i
        ensures !KeyIs(rows[k], p.date, p.code)
      {
        if k > i {
          assert !KeyIs(rows[i], rows[k].date, rows[k].code);
        }
      }
    }
  }

  /**
   * After the upsert exactly one row carries the payload's key, with the
   * payload's count, and the keys are still unique.
   */
  lemma UpsertedExactlyOne(rows: seq<DailyRow>, p: DailyPayload, newId: int)
    requires UniqueKeys(rows)
    ensures var r := Upserted(rows, p, newId);
      && UniqueKeys(r)
      && exists i :: 0 <= i < |r| && KeyIs(r[i], p.date, p.code) && r[i].dbCount == p.dbCount
           && forall j :: 0 <= j < |r| && KeyIs(r[j], p.date, p.code) ==> j == i
  {
    var r := Upserted(rows, p, newId);
    UpsertedRows(rows, p, newId);
    var i := KeyIndex(rows, p.date, p.code);
    forall a, b | 0 <= a < b < |r|
      ensures !KeyIs(r[a], r[b].date, r[b].code)
    {
      if b == |rows| {
        assert !HasRowFor(rows, p.date, p.code);
        assert !KeyIs(rows[a], p.date, p.code);
      } else {
        assert !KeyIs(rows[a], rows[b].date, rows[b].code);
      }
    }
    assert KeyIs(r[i], p.date, p.code) && r[i].dbCount == p.dbCount;
  }

  /** Upserting the same payload twice is upserting it once. */
  lemma UpsertIdempotent(rows: seq<DailyRow>, p: DailyPayload, id1: int, id2: int)
    ensures Upserted(Upserted(rows, p, id1), p, id2) == Upserted(rows, p, id1)
  {
    var r := Upserted(rows, p, id1);
    var i := KeyIndex(rows, p.date, p.code);
    var j := KeyIndex(r, p.date, p.code);
    assert KeyIs(r[i], p.date, p.code);
    assert j == i;
    assert r[i].dbCount == p.dbCount;
    assert r[i := r[i].(dbCount := p.dbCount)] == r;
  }

  /** Ids are distinct and below the next one handed out; keys are unique. */
  ghost predicate TableInvariant(rows: seq<DailyRow>, nextId: int) {
    && UniqueKeys(rows)
    && (forall k :: 0 <= k < |rows| ==> rows[k].id < nextId)
    && (forall a, b :: 0 <= a < b < |rows| ==> rows[a].id != rows[b].id)
  }

  lemma UpsertKeepsInvariant(rows: seq<DailyRow>, nextId: int, p: DailyPayload)
    requires TableInvariant(rows, nextId)
    ensures TableInvariant(Upserted(rows, p, nextId), nextId + (if HasRowFor(rows, p.date, p.code) then 0 else 1))
  {
    UpsertedExactlyOne(rows, p, nextId);
    UpsertedRows(rows, p, nextId);
  }

  /** Date descending, then code ascending. */
  predicate DailyLe(a: DailyRow, b: DailyRow) {
    if a.date == b.date then StrLe(a.code, b.code) else DateLe(b.date, a.date)
  }

  lemma DailyLeIsPreorder()
    ensures TotalPreorder(DailyLe)
  {
    forall a: DailyRow, b: DailyRow, c: DailyRow
      ensures DailyLe(a, b) || DailyLe(b, a)
      ensures DailyLe(a, b) && DailyLe(b, c) ==> DailyLe(a, c)
    {
      DateLeIsOrder(a.date, b.date, c.date);
      DateLeIsOrder(c.date, b.date, a.date);
      DateLeIsOrder(a.date, c.date, b.date);
      StrLeTotal(a.code, b.code);
      if DailyLe(a, b) && DailyLe(b, c) && a.date == b.date && b.date == c.date {
        StrLeTransitive(a.code, b.code, c.code);
      }
    }
  }

  /**
   * `list_daily_db` / `list_daily_db_team`: every row, newest day first and
   * by code within a day.
   */
  function ListDaily(rows: seq<DailyRow>): (r: seq<DailyRow>)
    ensures multiset(r) == multiset(rows)
    ensures forall i, j :: 0 <= i < j < |r| ==>
      DateLe(r[j].date, r[i].date) && (r[i].date == r[j].date ==> StrLe(r[i].code, r[j].code))
  {
    DailyLeIsPreorder();
    var s := Sort(rows, DailyLe);
    forall i, j | 0 <= i < j < |s|
      ensures DateLe(s[j].date, s[i].date)
    {
      assert DailyLe(s[i], s[j]);
    }
    s
  }

  /** One of the two daily count tables held in memory. */
  class DailyCountTable {
    var rows: seq<DailyRow>
    var nextId: int

    ghost predicate Valid()
      reads this
    {
      TableInvariant(rows, nextId)
    }

    constructor ()
      ensures Valid() && rows == []
    {
      rows := [];
      nextId := 1;
    }

    /**
     * `upsert_daily_db` (app/routers/daily_db.py:17-27) and
     * `upsert_daily_db_team` (app/routers/daily_db_team.py:17-26): look up
     * the row by key, then overwrite its count in place or add a row.
     */
    method Upsert(p: DailyPayload)
      requires Valid()
      modifies this
      ensures Valid()
      ensures rows == Upserted(old(rows), p, old(nextId))
      ensures nextId == old(nextId) + (if HasRowFor(old(rows), p.date, p.code) then 0 else 1)
    {
      UpsertKeepsInvariant(rows, nextId, p);
      UpsertedRows(rows, p, nextId);
      var i := 0;
      while i < |rows| && !(rows[i].date == p.date && rows[i].code == p.code)
        invariant 0 <= i <= |rows|
        invariant forall k :: 0 <= k < i ==> !KeyIs(rows[k], p.date, p.code)
      {
        i := i + 1;
      }
      assert i == KeyIndex(rows, p.date, p.code);
      if i < |rows| {
        rows := rows[i := rows[i].(dbCount := p.dbCount)];
      } else {
        rows := rows + [DailyRow(nextId, p.date, p.code, p.dbCount)];
        nextId := nextId + 1;
      }
    }
  }
}
