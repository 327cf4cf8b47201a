/** The subject list endpoint (app/routers/subjects.py). */
module Subjects {
  import opened Wrappers
  import opened Order
  import opened Models

  /** What the endpoint returns for each subject. */
  datatype SubjectView = SubjectView(id: int, name: string, branch: string)

  function View(s: Subject): SubjectView {
    SubjectView(s.id, s.name, s.branch)
  }

  /** Active, and of the branch when a non-empty branch is given. */
  function Listed(branch: Option<string>): Subject -> bool {
    (s: Subject) => s.active && (!TruthyStr(branch) || s.branch == branch.value)
  }

  predicate NameLe(a: Subject, b: Subject) {
    StrLe(a.name, b.name)
  }

  lemma NameLeIsPreorder()
    ensures TotalPreorder(NameLe)
  {
    forall a: Subject, b: Subject, c: Subject
      ensures NameLe(a, b) || NameLe(b, a)
      ensures NameLe(a, b) && NameLe(b, c) ==> NameLe(a, c)
    {
      StrLeTotal(a.name, b.name);
      if NameLe(a, b) && NameLe(b, c) {
        StrLeTransitive(a.name, b.name, c.name);
      }
    }
  }

  /** The view is that of a subject the filter keeps. */
  ghost predicate FromListed(subjects: seq<Subject>, branch: Option<string>, v: SubjectView) {
    exists s :: s in subjects && s.active && (!TruthyStr(branch) || s.branch == branch.value) && v == View(s)
  }

  /** The endpoint's projection of each subject. */
  function Views(s: seq<Subject>): (r: seq<SubjectView>)
    ensures |r| == |s|
    ensures forall i :: 0 <= i < |s| ==> r[i] == View(s[i])
  {
    if s == [] then [] else [View(s[0])] + Views(s[1..])
  }

  /**
   * `list_subjects` (app/routers/subjects.py:9-13): the active subjects,
   * restricted to the branch when one is given, ordered by name and cut
   * down to id, name and branch.
   */
  function ListSubjects(subjects: seq<Subject>, branch: Option<string>): (r: seq<SubjectView>)
    ensures |r| == |Filter(subjects, Listed(branch))|
    ensures forall i :: 0 <= i < |r| ==>
      FromListed(subjects, branch, r[i])
    ensures forall s :: s in subjects && s.active && (!TruthyStr(branch) || s.branch == branch.value) ==> View(s) in r
    ensures forall i, j :: 0 <= i < j < |r| ==> StrLe(r[i].name, r[j].name)
  {
    NameLeIsPreorder();
    var picked := Filter(subjects, Listed(branch));
    var sorted := Sort(picked, NameLe);
    ListedOnly(subjects, branch, picked, sorted);
    ListedAll(subjects, branch, picked, sorted);
    Views(sorted)
  }

  lemma ListedOnly(subjects: seq<Subject>, branch: Option<string>, picked: seq<Subject>, sorted: seq<Subject>)
    requires picked == Filter(subjects, Listed(branch)) && multiset(sorted) == multiset(picked)
    ensures forall i :: 0 <= i < |sorted| ==>
      FromListed(subjects, branch, Views(sorted)[i])
  {
    forall i | 0 <= i < |sorted|
      ensures FromListed(subjects, branch, Views(sorted)[i])
    {
      var x := sorted[i];
      SameElements(sorted, picked, x);
      assert x in picked && Listed(branch)(x);
      assert Views(sorted)[i] == View(x);
    }
  }

  lemma ListedAll(subjects: seq<Subject>, branch: Option<string>, picked: seq<Subject>, sorted: seq<Subject>)
    requires picked == Filter(subjects, Listed(branch)) && multiset(sorted) == multiset(picked)
    ensures forall s :: s in subjects && s.active && (!TruthyStr(branch) || s.branch == branch.value) ==> View(s) in Views(sorted)
  {
    forall s | s in subjects && s.active && (!TruthyStr(branch) || s.branch == branch.value)
      ensures View(s) in Views(sorted)
    {
      assert Listed(branch)(s);
      SameElements(sorted, picked, s);
      var k :| 0 <= k < |sorted| && sorted[k] == s;
      assert Views(sorted)[k] == View(s);
    }
  }

  /** Without a branch filter every active subject is listed once. */
  lemma ListAllActive(subjects: seq<Subject>)
    ensures |ListSubjects(subjects, None)| == Count(subjects, (s: Subject) => s.active)
  {
    FilterCount(subjects, Listed(None), (s: Subject) => s.active);
  }

  lemma {:induction false} FilterCount<T(!new)>(s: seq<T>, p: T -> bool, q: T -> bool)
    requires forall x :: p(x) == q(x)
    ensures |Filter(s, p)| == Count(s, q)
  {
    if s != [] {
      FilterCount(s[1..], p, q);
    }
  }
}
