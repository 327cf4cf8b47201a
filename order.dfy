/**
 * Orderings and the sequence operations that the queries and views are made
 * of: lexicographic string order, a stable sort by a total preorder,
 * filtering and counting.
 */
module Order {

  /**
   * Lexicographic order on strings by character code. It stands for SQL
   * `ORDER BY` on text columns and for JavaScript's `localeCompare`, which
   * agree with it on the digits, letters and punctuation the program sorts.
   */
  predicate StrLe(a: string, b: string) {
    if a == [] then true
    else if b == [] then false
    else if a[0] != b[0] then a[0] < b[0]
    else StrLe(a[1..], b[1..])
  }

  lemma {:induction false} StrLeTotal(a: string, b: string)
    ensures StrLe(a, b) || StrLe(b, a)
  {
    if a != [] && b != [] && a[0] == b[0] {
      StrLeTotal(a[1..], b[1..]);
    }
  }

  lemma {:induction false} StrLeTransitive(a: string, b: string, c: string)
    requires StrLe(a, b) && StrLe(b, c)
    ensures StrLe(a, c)
  {
    if a != [] && b != [] && c != [] && a[0] == b[0] && b[0] == c[0] {
      StrLeTransitive(a[1..], b[1..], c[1..]);
    }
  }

  lemma {:induction false} StrLeAntisymmetric(a: string, b: string)
    requires StrLe(a, b) && StrLe(b, a)
    ensures a == b
  {
    if a != [] && b != [] {
      StrLeAntisymmetric(a[1..], b[1..]);
      assert a == [a[0]] + a[1..] && b == [b[0]] + b[1..];
    }
  }

  /** Every pair is comparable and the relation is transitive. */
  ghost predicate TotalPreorder<T(!new)>(le: (T, T) -> bool) {
    && (forall a, b :: le(a, b) || le(b, a))
    && (forall a, b, c :: le(a, b) && le(b, c) ==> le(a, c))
  }

  predicate SortedBy<T>(s: seq<T>, le: (T, T) -> bool) {
    forall i, j :: 0 <= i < j < |s| ==> le(s[i], s[j])
  }

  /** Inserts x after every leading element that is le-below or le-equal to it. */
  function Insert<T>(x: T, s: seq<T>, le: (T, T) -> bool): (r: seq<T>)
    ensures multiset(r) == multiset(s) + multiset{x}
    ensures |r| == |s| + 1
  {
    if s == [] then [x]
    else if le(s[0], x) then
      assert s == [s[0]] + s[1..];
      [s[0]] + Insert(x, s[1..], le)
    else [x] + s
  }

  lemma {:induction false} InsertSorted<T(!new)>(x: T, s: seq<T>, le: (T, T) -> bool)
    requires TotalPreorder(le) && SortedBy(s, le)
    ensures SortedBy(Insert(x, s, le), le)
  {
    if s == [] {
    } else if le(s[0], x) {
      var t := Insert(x, s[1..], le);
      InsertSorted(x, s[1..], le);
      InsertedAbove(x, s, le);
      ConsSorted(s[0], t, le);
    } else {
      assert le(x, s[0]);
      forall k | 0 <= k < |s| ensures le(x, s[k]) {
        if k > 0 {
          assert le(s[0], s[k]);
        }
      }
      ConsSorted(x, s, le);
    }
  }

  /** When s[0] is le-below x, it is le-below every element of Insert(x, s[1..]). */
  lemma InsertedAbove<T(!new)>(x: T, s: seq<T>, le: (T, T) -> bool)
    requires SortedBy(s, le) && s != [] && le(s[0], x)
    ensures forall k :: 0 <= k < |Insert(x, s[1..], le)| ==> le(s[0], Insert(x, s[1..], le)[k])
  {
    var t := Insert(x, s[1..], le);
    forall k | 0 <= k < |t| ensures le(s[0], t[k]) {
      assert t[k] in multiset(t);
      if t[k] != x {
        assert t[k] in multiset(s[1..]);
        var j :| 0 <= j < |s[1..]| && s[1..][j] == t[k];
        assert s[j + 1] == t[k];
      }
    }
  }

  /** A sorted sequence stays sorted with a new head that is le-below all of it. */
  lemma ConsSorted<T>(a: T, t: seq<T>, le: (T, T) -> bool)
    requires SortedBy(t, le) && forall k :: 0 <= k < |t| ==> le(a, t[k])
    ensures SortedBy([a] + t, le)
  {
    var r := [a] + t;
    forall i, j | 0 <= i < j < |r| ensures le(r[i], r[j]) {
      if i == 0 {
        assert r[j] == t[j - 1];
      } else {
        assert r[i] == t[i - 1] && r[j] == t[j - 1];
      }
    }
  }

  /**
   * Insertion sort by a total preorder. Elements the order ties stay in
   * their input order, as in JavaScript's stable `Array.prototype.sort`.
   */
  function Sort<T(!new)>(s: seq<T>, le: (T, T) -> bool): (r: seq<T>)
    requires TotalPreorder(le)
    ensures SortedBy(r, le)
    ensures multiset(r) == multiset(s)
    ensures |r| == |s|
  {
    if s == [] then []
    else
      assert s == s[..|s| - 1] + [s[|s| - 1]];
      var t := Sort(s[..|s| - 1], le);
      InsertSorted(s[|s| - 1], t, le);
      Insert(s[|s| - 1], t, le)
  }

  /** Two sequences with equal multisets have the same elements. */
  lemma SameElements<T>(a: seq<T>, b: seq<T>, x: T)
    requires multiset(a) == multiset(b)
    ensures x in a <==> x in b
  {
    assert x in a <==> x in multiset(a);
    assert x in b <==> x in multiset(b);
  }

  /** No element occurs twice. */
  predicate Distinct<T(==)>(s: seq<T>) {
    forall i, j :: 0 <= i < j < |s| ==> s[i] != s[j]
  }

  /** The elements of s that satisfy p, in their order. */
  function Filter<T(!new)>(s: seq<T>, p: T -> bool): (r: seq<T>)
    ensures forall x :: x in r <==> x in s && p(x)
    ensures |r| <= |s|
  {
    if s == [] then []
    else if p(s[0]) then [s[0]] + Filter(s[1..], p)
    else Filter(s[1..], p)
  }

  /** Filtering a sequence extended at the back. */
  lemma {:induction false} FilterAppend<T(!new)>(s: seq<T>, x: T, p: T -> bool)
    ensures Filter(s + [x], p) == Filter(s, p) + (if p(x) then [x] else [])
  {
    if s == [] {
      assert [] + [x] == [x];
    } else {
      assert (s + [x])[1..] == s[1..] + [x];
      FilterAppend(s[1..], x, p);
    }
  }

  /** The number of elements of s that satisfy p. */
  function Count<T>(s: seq<T>, p: T -> bool): (n: nat)
    ensures n <= |s|
  {
    if s == [] then 0 else (if p(s[0]) then 1 else 0) + Count(s[1..], p)
  }

  /** A weaker condition is met at least as often. */
  lemma {:induction false} CountMonotone<T(!new)>(s: seq<T>, p: T -> bool, q: T -> bool)
    requires forall x :: p(x) ==> q(x)
    ensures Count(s, p) <= Count(s, q)
  {
    if s != [] {
      CountMonotone(s[1..], p, q);
    }
  }

  /** Counting under two exclusive conditions counts under their disjunction. */
  lemma {:induction false} CountSplit<T(!new)>(s: seq<T>, a: T -> bool, b: T -> bool, c: T -> bool)
    requires forall x :: c(x) == (a(x) || b(x))
    requires forall x :: !(a(x) && b(x))
    ensures Count(s, a) + Count(s, b) == Count(s, c)
  {
    if s != [] {
      CountSplit(s[1..], a, b, c);
    }
  }

  /** Conditions that agree everywhere count alike. */
  lemma {:induction false} CountSame<T(!new)>(s: seq<T>, a: T -> bool, b: T -> bool)
    requires forall x :: a(x) == b(x)
    ensures Count(s, a) == Count(s, b)
  {
    if s != [] {
      CountSame(s[1..], a, b);
    }
  }

  /** Sum of an integer measure over a sequence. */
  function Sum<T>(s: seq<T>, f: T -> int): int {
    if s == [] then 0 else f(s[0]) + Sum(s[1..], f)
  }

  lemma {:induction false} SumAppend<T>(s: seq<T>, x: T, f: T -> int)
    ensures Sum(s + [x], f) == Sum(s, f) + f(x)
  {
    if s == [] {
      assert [] + [x] == [x];
    } else {
      assert (s + [x])[1..] == s[1..] + [x];
      SumAppend(s[1..], x, f);
    }
  }

  lemma {:induction false} SumMonotone<T>(s: seq<T>, f: T -> int, g: T -> int)
    requires forall x :: x in s ==> f(x) <= g(x)
    ensures Sum(s, f) <= Sum(s, g)
  {
    if s != [] {
      SumMonotone(s[1..], f, g);
    }
  }
}
