/** Grouping a listing by a key, as `Pair` and `Check` do with a map of slices. */
module Grouping {
  function Group<K(==), V>(items: seq<(K, V)>): map<K, seq<V>> {
    if items == [] then map[]
    else
      var before, last := Group(items[..|items| - 1]), items[|items| - 1];
      before[last.0 := (if last.0 in before then before[last.0] else []) + [last.1]]
  }

  /** The values listed under one key, in order. */
  function Select<K(==), V>(items: seq<(K, V)>, k: K): seq<V> {
    if items == [] then []
    else
      var before, last := Select(items[..|items| - 1], k), items[|items| - 1];
      if last.0 == k then before + [last.1] else before
  }

  lemma {:induction false} GroupSelects<K, V>(items: seq<(K, V)>, k: K)
    ensures k in Group(items) <==> Select(items, k) != []
    ensures k in Group(items) ==> Group(items)[k] == Select(items, k)
  {
    if items != [] { GroupSelects(items[..|items| - 1], k); }
  }

  lemma {:induction false} SelectMembers<K, V>(items: seq<(K, V)>, k: K, v: V)
    ensures v in Select(items, k) <==> (k, v) in items
  {
    if items != [] {
      assert items == items[..|items| - 1] + [items[|items| - 1]];
      SelectMembers(items[..|items| - 1], k, v);
    }
  }

  ghost predicate NoDuplicates<T>(s: seq<T>) {
    forall i, j | 0 <= i < j < |s| :: s[i] != s[j]
  }

  lemma {:induction false} SelectNoDuplicates<K, V>(items: seq<(K, V)>, k: K)
    requires NoDuplicates(items)
    ensures NoDuplicates(Select(items, k))
  {
    if items != [] {
      var init, last := items[..|items| - 1], items[|items| - 1];
      SelectNoDuplicates(init, k);
      SelectMembers(init, k, last.1);
      assert forall i | 0 <= i < |init| :: items[i] != last;
      if last.0 == k {
        assert last == (k, last.1) && last !in init;
      }
    }
  }

  lemma GroupSnoc<K, V>(items: seq<(K, V)>, k: K, v: V)
    ensures Group(items + [(k, v)])
            == Group(items)[k := (if k in Group(items) then Group(items)[k] else []) + [v]]
  {
    assert (items + [(k, v)])[..|items|] == items;
  }
}
