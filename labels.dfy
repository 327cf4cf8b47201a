/**
 * Display labels (app/services/labels.py): branch and team codes shown by
 * their Korean label, session modes by their short form.
 */
module Labels {
  import opened Wrappers
  import opened Models
  import opened Meta

  /**
   * `branch_label` over the branch table and `team_label` over the team
   * table: "" for an empty code, the label of the first row with the code,
   * or the code itself when no row has it.
   */
  function CodeLabel(rows: seq<CodeRow>, code: string): (r: string)
    ensures code == "" ==> r == ""
    ensures code != "" && !HasCode(rows, code) ==> r == code
    ensures code != "" && HasCode(rows, code) ==>
      exists k :: 0 <= k < |rows| && rows[k].code == code && r == rows[k].labelKo
  {
    if code == "" then ""
    else
      match FindCode(rows, code)
      case Some(row) => row.labelKo
      case None => code
  }

  /** With unique codes, a stored non-empty code is shown by its own label. */
  lemma LabelOfStoredCode(rows: seq<CodeRow>, i: int)
    requires UniqueCodes(rows) && 0 <= i < |rows| && rows[i].code != ""
    ensures CodeLabel(rows, rows[i].code) == rows[i].labelKo
  {
    assert HasCode(rows, rows[i].code);
  }

  /** `mode_label`: "비" for REMOTE, "오프" for OFFLINE, otherwise `code or ""`. */
  function ModeLabel(code: Option<string>): (r: string)
    ensures code == Some("REMOTE") ==> r == "비"
    ensures code == Some("OFFLINE") ==> r == "오프"
    ensures !TruthyStr(code) ==> r == ""
    ensures TruthyStr(code) && code.value != "REMOTE" && code.value != "OFFLINE" ==> r == code.value
  {
    match code
    case Some("REMOTE") => "비"
    case Some("OFFLINE") => "오프"
    case Some(c) => c
    case None => ""
  }

  /** The two modes get distinct labels, and only an absent mode shows as "". */
  lemma ModeLabelsDistinct(code: Option<string>)
    ensures ModeLabel(Some(Modes[0])) != ModeLabel(Some(Modes[1]))
    ensures ModeLabel(code) == "" <==> !TruthyStr(code)
  {
  }
}
