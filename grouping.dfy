/**
 * The insertion-ordered JavaScript `Map` from a key to the list of items
 * pushed under it, as the week, day and month views build it
 * (app/static/script.js:442-446, 601-605, 830-834). The map is a sequence of
 * (key, group) entries in the order the keys were first seen.
 */
module Grouping {
  import opened Order

  type Groups<K, T> = seq<(K, seq<T>)>

  function Keys<K(==), T>(g: Groups<K, T>): (ks: seq<K>)
    ensures |ks| == |g| && forall i :: 0 <= i < |g| ==> ks[i] == g[i].0
  {
    if g == [] then [] else [g[0].0] + Keys(g[1..])
  }

  predicate DistinctKeys<K(==), T>(g: Groups<K, T>) {
    forall i, j :: 0 <= i < j < |g| ==> g[i].0 != g[j].0
  }

  /** `map.get(k) || []`. */
  function Lookup<K(==), T>(g: Groups<K, T>, k: K): seq<T> {
    if g == [] then [] else if g[0].0 == k then g[0].1 else Lookup(g[1..], k)
  }

  /** `if (!m.has(k)) m.set(k, []); m.get(k).push(x)`. */
  function Push<K(==), T>(g: Groups<K, T>, k: K, x: T): Groups<K, T> {
    if g == [] then [(k, [x])]
    else if g[0].0 == k then [(k, g[0].1 + [x])] + g[1..]
    else [g[0]] + Push(g[1..], k, x)
  }

  /** Whether an item's key is k. */
  function HasKey<K(==), T>(key: T -> K, k: K): T -> bool {
    x => key(x) == k
  }

  /** The map after pushing every item, in order, under its key. */
  function GroupsOf<K(==), T>(items: seq<T>, key: T -> K): Groups<K, T> {
    if items == [] then []
    else
      var n := |items| - 1;
      Push(GroupsOf(items[..n], key), key(items[n]), items[n])
  }

  /** The grouping loop: find the key's entry, then extend it or add a new one. */
  method GroupBy<K(==), T>(items: seq<T>, key: T -> K) returns (groups: Groups<K, T>)
    ensures groups == GroupsOf(items, key)
  {
    groups := [];
    var i := 0;
    while i < |items|
      invariant 0 <= i <= |items|
      invariant groups == GroupsOf(items[..i], key)
    {
      var x := items[i];
      var k := key(x);
      var j := 0;
      while j < |groups| && groups[j].0 != k
        invariant 0 <= j <= |groups|
        invariant forall l :: 0 <= l < j ==> groups[l].0 != k
      {
        j := j + 1;
      }
      PushFound(groups, k, x, j);
      if j < |groups| {
        groups := groups[j := (k, groups[j].1 + [x])];
      } else {
        groups := groups + [(k, [x])];
      }
      assert items[..i + 1][..i] == items[..i];
      i := i + 1;
    }
    assert items[..i] == items;
  }

  /** Push extends the first entry with the key, or appends a new entry when there is none. */
  lemma {:induction false} PushFound<K, T>(g: Groups<K, T>, k: K, x: T, j: nat)
    requires j <= |g| && (forall l :: 0 <= l < j ==> g[l].0 != k) && (j < |g| ==> g[j].0 == k)
    ensures j < |g| ==> Push(g, k, x) == g[j := (k, g[j].1 + [x])]
    ensures j == |g| ==> Push(g, k, x) == g + [(k, [x])]
    decreases j
  {
    if g != [] && g[0].0 != k {
      PushFound(g[1..], k, x, j - 1);
      if j < |g| {
        assert [g[0]] + g[1..][j - 1 := (k, g[j].1 + [x])] == g[j := (k, g[j].1 + [x])];
      } else {
        assert [g[0]] + (g[1..] + [(k, [x])]) == g + [(k, [x])];
      }
    }
  }

  lemma {:induction false} LookupPush<K, T>(g: Groups<K, T>, k: K, x: T, k': K)
    ensures Lookup(Push(g, k, x), k') == if k' == k then Lookup(g, k) + [x] else Lookup(g, k')
  {
    if g != [] && g[0].0 != k {
      LookupPush(g[1..], k, x, k');
    }
  }

  lemma {:induction false} KeysPush<K, T>(g: Groups<K, T>, k: K, x: T)
    ensures Keys(Push(g, k, x)) == if k in Keys(g) then Keys(g) else Keys(g) + [k]
  {
    if g != [] && g[0].0 != k {
      KeysPush(g[1..], k, x);
      assert Keys(g) == [g[0].0] + Keys(g[1..]);
    } else if g != [] {
      assert Keys(Push(g, k, x)) == [k] + Keys(g[1..]);
    }
  }

  /** The group under k holds exactly the items whose key is k, in their input order. */
  lemma {:induction false} LookupGroupsOf<K, T(!new)>(items: seq<T>, key: T -> K, k: K)
    ensures Lookup(GroupsOf(items, key), k) == Filter(items, HasKey(key, k))
  {
    if items != [] {
      var n := |items| - 1;
      LookupGroupsOf(items[..n], key, k);
      LookupPush(GroupsOf(items[..n], key), key(items[n]), items[n], k);
      FilterAppend(items[..n], items[n], HasKey(key, k));
      assert items[..n] + [items[n]] == items;
    }
  }

  /** The keys are distinct and are exactly the keys of the items. */
  lemma KeysOfGroupsOf<K, T>(items: seq<T>, key: T -> K)
    ensures DistinctKeys(GroupsOf(items, key))
    ensures forall k :: k in Keys(GroupsOf(items, key)) ==> exists x :: x in items && key(x) == k
    ensures forall x :: x in items ==> key(x) in Keys(GroupsOf(items, key))
  {
    GroupKeysDistinct(items, key);
    GroupKeysSound(items, key);
    GroupKeysComplete(items, key);
  }

  lemma {:induction false} GroupKeysDistinct<K, T>(items: seq<T>, key: T -> K)
    ensures DistinctKeys(GroupsOf(items, key))
  {
    if items != [] {
      var n := |items| - 1;
      var g := GroupsOf(items[..n], key);
      GroupKeysDistinct(items[..n], key);
      KeysPush(g, key(items[n]), items[n]);
      var p := Push(g, key(items[n]), items[n]);
      forall a, b | 0 <= a < b < |p| ensures p[a].0 != p[b].0 {
        assert Keys(p)[a] == p[a].0 && Keys(p)[b] == p[b].0;
        if b < |g| {
          assert Keys(g)[a] == g[a].0 && Keys(g)[b] == g[b].0;
        } else {
          assert Keys(g)[a] in Keys(g);
        }
      }
    }
  }

  lemma {:induction false} GroupKeysSound<K, T>(items: seq<T>, key: T -> K)
    ensures forall k :: k in Keys(GroupsOf(items, key)) ==> exists x :: x in items && key(x) == k
  {
    if items != [] {
      var n := |items| - 1;
      var g := GroupsOf(items[..n], key);
      GroupKeysSound(items[..n], key);
      KeysPush(g, key(items[n]), items[n]);
      forall k | k in Keys(GroupsOf(items, key)) ensures exists x :: x in items && key(x) == k {
        if k != key(items[n]) {
          var x :| x in items[..n] && key(x) == k;
          assert x in items;
        } else {
          assert items[n] in items;
        }
      }
    }
  }

  lemma GroupKeysComplete<K, T>(items: seq<T>, key: T -> K)
    ensures forall x :: x in items ==> key(x) in Keys(GroupsOf(items, key))
  {
    forall x | x in items ensures key(x) in Keys(GroupsOf(items, key)) {
      var i :| 0 <= i < |items| && items[i] == x;
      GroupKeyOf(items, key, i);
    }
  }

  lemma {:induction false} GroupKeyOf<K, T>(items: seq<T>, key: T -> K, i: int)
    requires 0 <= i < |items|
    ensures key(items[i]) in Keys(GroupsOf(items, key))
  {
    var n := |items| - 1;
    if i < n {
      GroupKeyOf(items[..n], key, i);
      assert items[..n][i] == items[i];
    }
    PushKeepsKey(GroupsOf(items[..n], key), key(items[n]), items[n], key(items[i]));
  }

  /** Pushing keeps every key and adds the pushed one. */
  lemma {:induction false} PushKeepsKey<K, T>(g: Groups<K, T>, k: K, x: T, y: K)
    requires y == k || y in Keys(g)
    ensures y in Keys(Push(g, k, x))
  {
    if g == [] {
      assert Keys(Push(g, k, x)) == [k];
    } else {
      assert Keys(g) == [g[0].0] + Keys(g[1..]);
      if g[0].0 == k {
        assert Keys(Push(g, k, x)) == [k] + Keys(g[1..]);
      } else {
        assert Keys(Push(g, k, x)) == [g[0].0] + Keys(Push(g[1..], k, x));
        if y != g[0].0 {
          PushKeepsKey(g[1..], k, x, y);
        }
      }
    }
  }

  /** With distinct keys, every entry is what looking up its key returns. */
  lemma {:induction false} EntryIsLookup<K, T>(g: Groups<K, T>, i: nat)
    requires DistinctKeys(g) && i < |g|
    ensures g[i].1 == Lookup(g, g[i].0)
  {
    if i > 0 {
      EntryIsLookup(g[1..], i - 1);
    }
  }

  /**
   * Every item lies in exactly one group, the one under its key: each entry
   * holds the items with that entry's key, in input order, and is non-empty.
   */
  lemma EachItemInOneGroup<K, T(!new)>(items: seq<T>, key: T -> K)
    ensures var g := GroupsOf(items, key);
      && DistinctKeys(g)
      && (forall i :: 0 <= i < |g| ==> g[i].1 == Filter(items, HasKey(key, g[i].0)) && g[i].1 != [])
      && (forall x :: x in items ==> exists i :: 0 <= i < |g| && g[i].0 == key(x))
  {
    var g := GroupsOf(items, key);
    KeysOfGroupsOf(items, key);
    forall i | 0 <= i < |g|
      ensures g[i].1 == Filter(items, HasKey(key, g[i].0)) && g[i].1 != []
    {
      EntryIsLookup(g, i);
      LookupGroupsOf(items, key, g[i].0);
      assert Keys(g)[i] == g[i].0;
      assert g[i].0 in Keys(g);
      var x :| x in items && key(x) == g[i].0;
      assert x in g[i].1;
    }
    forall x | x in items ensures exists i :: 0 <= i < |g| && g[i].0 == key(x) {
      var ks := Keys(g);
      assert exists y :: y in items && key(y) == key(x);
      assert key(x) in ks;
      var i :| 0 <= i < |ks| && ks[i] == key(x);
      assert g[i].0 == key(x);
    }
  }
}
