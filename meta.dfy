/**
 * The branch and team code tables (app/routers/meta.py). The branch and the
 * team endpoints are the same three operations on two tables of the same
 * shape, so one class models either table.
 */
module Meta {
  import opened Wrappers
  import opened Order
  import opened Models

  /** The body of the upsert endpoints; `active` defaults to true in the source. */
  datatype MetaUpsert = MetaUpsert(code: string, labelKo: string, active: bool)

  /** The 404 raised by a toggle of an unknown code. */
  datatype MetaError = CodeNotFound

  /** The code is the key of the table. */
  predicate UniqueCodes(rows: seq<CodeRow>) {
    forall i, j :: 0 <= i < j < |rows| ==> rows[i].code != rows[j].code
  }

  predicate HasCode(rows: seq<CodeRow>, code: string) {
    exists k :: 0 <= k < |rows| && rows[k].code == code
  }

  /** `.filter(code == …).first()`: the first row with the code, or |rows|. */
  function CodeIndex(rows: seq<CodeRow>, code: string): (i: nat)
    ensures i <= |rows|
    ensures i < |rows| ==> rows[i].code == code
    ensures forall k :: 0 <= k < i ==> rows[k].code != code
  {
    if rows == [] then 0
    else if rows[0].code == code then 0
    else 1 + CodeIndex(rows[1..], code)
  }

  /** The table after `upsert_branch` / `upsert_team`. */
  function UpsertedCodes(rows: seq<CodeRow>, p: MetaUpsert): seq<CodeRow> {
    var i := CodeIndex(rows, p.code);
    if i < |rows| then rows[i := rows[i].(labelKo := p.labelKo, active := p.active)]
    else rows + [CodeRow(p.code, p.labelKo, p.active)]
  }

  /**
   * On a table with unique codes the upsert rewrites the one row with the
   * code, or appends a row when the code is new; every other row stays where
   * it was, unchanged.
   */
  lemma UpsertedCodeRows(rows: seq<CodeRow>, p: MetaUpsert)
    requires UniqueCodes(rows)
    ensures var r := UpsertedCodes(rows, p);
      && |r| == |rows| + (if HasCode(rows, p.code) then 0 else 1)
      && (forall k :: 0 <= k < |rows| ==>
            r[k] == (if rows[k].code == p.code then CodeRow(p.code, p.labelKo, p.active) else rows[k]))
      && (!HasCode(rows, p.code) ==> r[|rows|] == CodeRow(p.code, p.labelKo, p.active))
  {
    var i := CodeIndex(rows, p.code);
    if i == |rows| {
      assert !HasCode(rows, p.code);
    } else {
      assert HasCode(rows, p.code);
      forall k | 0 <= k < |rows| && k != i
        ensures rows[k].code != p.code
      {
        if k > i {
          assert rows[i].code != rows[k].code;
        }
      }
    }
  }

  /** After the upsert exactly one row has the code, and it holds the payload. */
  lemma UpsertedOneCode(rows: seq<CodeRow>, p: MetaUpsert)
    requires UniqueCodes(rows)
    ensures var r := UpsertedCodes(rows, p);
      && UniqueCodes(r)
      && exists i :: 0 <= i < |r| && r[i] == CodeRow(p.code, p.labelKo, p.active)
           && forall j :: 0 <= j < |r| && r[j].code == p.code ==> j == i
  {
    var r := UpsertedCodes(rows, p);
    UpsertedCodeRows(rows, p);
    var i := CodeIndex(rows, p.code);
    forall a, b | 0 <= a < b < |r|
      ensures r[a].code != r[b].code
    {
      if b == |rows| {
        assert !HasCode(rows, p.code);
        assert rows[a].code != p.code;
      } else {
        assert rows[a].code != rows[b].code;
      }
    }
    assert r[i] == CodeRow(p.code, p.labelKo, p.active);
  }

  /** Repeating an upsert changes nothing further. */
  lemma UpsertCodeIdempotent(rows: seq<CodeRow>, p: MetaUpsert)
    ensures UpsertedCodes(UpsertedCodes(rows, p), p) == UpsertedCodes(rows, p)
  {
    var r := UpsertedCodes(rows, p);
    var i := CodeIndex(rows, p.code);
    var j := CodeIndex(r, p.code);
    assert r[i].code == p.code;
    assert j == i;
    assert r[i := r[i].(labelKo := p.labelKo, active := p.active)] == r;
  }

  /** `toggle_branch` / `toggle_team`: flip `active` of the row, or 404. */
  function Toggled(rows: seq<CodeRow>, code: string): Result<seq<CodeRow>, MetaError> {
    var i := CodeIndex(rows, code);
    if i == |rows| then Err(CodeNotFound)
    else Ok(rows[i := rows[i].(active := !rows[i].active)])
  }

  /**
   * An unknown code is a 404; otherwise only the row with the code changes,
   * and only in `active`.
   */
  lemma ToggledRows(rows: seq<CodeRow>, code: string)
    requires UniqueCodes(rows)
    ensures Toggled(rows, code).Err? <==> !HasCode(rows, code)
    ensures Toggled(rows, code).Ok? ==>
      var r := Toggled(rows, code).value;
      && |r| == |rows| && UniqueCodes(r)
      && forall k :: 0 <= k < |rows| ==>
           r[k] == (if rows[k].code == code then rows[k].(active := !rows[k].active) else rows[k])
  {
    var i := CodeIndex(rows, code);
    if i < |rows| {
      assert HasCode(rows, code);
      forall k | 0 <= k < |rows| && k != i
        ensures rows[k].code != code
      {
        if k > i {
          assert rows[i].code != rows[k].code;
        }
      }
    }
  }

  /** Toggling twice restores the table. */
  lemma ToggleTwice(rows: seq<CodeRow>, code: string)
    requires Toggled(rows, code).Ok?
    ensures Toggled(Toggled(rows, code).value, code) == Ok(rows)
  {
    var r := Toggled(rows, code).value;
    var i := CodeIndex(rows, code);
    var j := CodeIndex(r, code);
    assert r[i].code == code;
    assert j == i;
    assert r[i := r[i].(active := !r[i].active)] == rows;
  }

  /** Order by code. */
  predicate CodeLe(a: CodeRow, b: CodeRow) {
    StrLe(a.code, b.code)
  }

  lemma CodeLeIsPreorder()
    ensures TotalPreorder(CodeLe)
  {
    forall a: CodeRow, b: CodeRow, c: CodeRow
      ensures CodeLe(a, b) || CodeLe(b, a)
      ensures CodeLe(a, b) && CodeLe(b, c) ==> CodeLe(a, c)
    {
      StrLeTotal(a.code, b.code);
      if CodeLe(a, b) && CodeLe(b, c) {
        StrLeTransitive(a.code, b.code, c.code);
      }
    }
  }

  /** The `active` query parameter: None selects every row. */
  function ActiveIs(active: Option<bool>): CodeRow -> bool {
    (x: CodeRow) => active.None? || x.active == active.value
  }

  /**
   * `list_branches` / `list_teams` (app/routers/meta.py:16-22, 44-50):
   * the rows whose `active` equals the parameter when one is given, ordered
   * by code.
   */
  function ListCodes(rows: seq<CodeRow>, active: Option<bool>): (r: seq<CodeRow>)
    ensures forall x :: x in r <==> x in rows && (active.None? || x.active == active.value)
    ensures SortedBy(r, CodeLe)
    ensures multiset(r) == multiset(Filter(rows, ActiveIs(active)))
  {
    CodeLeIsPreorder();
    var picked := Filter(rows, ActiveIs(active));
    var sorted := Sort(picked, CodeLe);
    forall x ensures x in sorted <==> x in picked {
      SameElements(sorted, picked, x);
    }
    sorted
  }

  /** The branch table or the team table held in memory. */
  class MetaTable {
    var rows: seq<CodeRow>

    ghost predicate Valid()
      reads this
    {
      UniqueCodes(rows)
    }

    constructor ()
      ensures Valid() && rows == []
    {
      rows := [];
    }

    /** The position of the row with the code, or |rows|. */
    method Find(code: string) returns (i: int)
      ensures i == CodeIndex(rows, code)
    {
      i := 0;
      while i < |rows| && rows[i].code != code
        invariant 0 <= i <= |rows|
        invariant forall k :: 0 <= k < i ==> rows[k].code != code
      {
        i := i + 1;
      }
    }

    /**
     * `upsert_branch` / `upsert_team` (app/routers/meta.py:24-33, 52-61):
     * overwrite label and flag of the row in place, or add a row.
     */
    method Upsert(p: MetaUpsert)
      requires Valid()
      modifies this
      ensures Valid()
      ensures rows == UpsertedCodes(old(rows), p)
    {
      UpsertedOneCode(rows, p);
      var i := Find(p.code);
      if i < |rows| {
        var row := rows[i];
        row := row.(labelKo := p.labelKo);
        row := row.(active := p.active);
        rows := rows[i := row];
      } else {
        rows := rows + [CodeRow(p.code, p.labelKo, p.active)];
      }
    }

    /**
     * `toggle_branch` / `toggle_team` (app/routers/meta.py:35-41, 63-69):
     * the code and its new flag, or a 404 that changes nothing.
     */
    method Toggle(code: string) returns (r: Result<(string, bool), MetaError>)
      requires Valid()
      modifies this
      ensures Valid()
      ensures match Toggled(old(rows), code)
        case Err(e) => r == Err(e) && rows == old(rows)
        case Ok(t) =>
          && rows == t
          && r == Ok((code, rows[CodeIndex(old(rows), code)].active))
          && rows[CodeIndex(old(rows), code)].active == !old(rows)[CodeIndex(old(rows), code)].active
    {
      ToggledRows(rows, code);
      var i := Find(code);
      if i == |rows| {
        return Err(CodeNotFound);
      }
      rows := rows[i := rows[i].(active := !rows[i].active)];
      r := Ok((rows[i].code, rows[i].active));
    }
  }
}
