/**
 * The `defaultdict(list)` that collects the links: an insertion-ordered
 * dictionary from group key to a list of entries, kept as a sequence of
 * `(key, entries)` pairs.
 */
module Grouping {

  type Groups<K, E> = seq<(K, seq<E>)>

  /** The keys of a sequence of pairs, in order: the keys of a dictionary in iteration order, or of a run of items. */
  function Keys<K, V>(pairs: seq<(K, V)>): (ks: seq<K>)
    ensures |ks| == |pairs| && forall i :: 0 <= i < |pairs| ==> ks[i] == pairs[i].0
  {
    seq(|pairs|, i requires 0 <= i < |pairs| => pairs[i].0)
  }

  /** The dictionary invariant: no key occurs twice. */
  predicate UniqueKeys<K(==), E>(g: Groups<K, E>)
  {
    forall i, j :: 0 <= i < j < |g| ==> g[i].0 != g[j].0
  }

  /** `d[k]` of a `defaultdict(list)` read without inserting: the list under `k`, or `[]`. */
  function EntriesOf<K(==), E>(g: Groups<K, E>, k: K): seq<E>
  {
    if g == [] then [] else if g[0].0 == k then g[0].1 else EntriesOf(g[1..], k)
  }

  /** All entries, group after group, each group's list in order. */
  function Flatten<K, E>(g: Groups<K, E>): seq<E>
  {
    if g == [] then [] else g[0].1 + Flatten(g[1..])
  }

  /** Adding a group at the end adds its list at the end of the entries. */
  lemma {:induction false} FlattenSnoc<K, E>(g: Groups<K, E>, x: (K, seq<E>))
    ensures Flatten(g + [x]) == Flatten(g) + x.1
  {
    if g != [] {
      assert (g + [x])[1..] == g[1..] + [x];
      FlattenSnoc(g[1..], x);
    }
  }

  /** Python's `any(d.values())`: some list is non-empty. */
  predicate AnyEntries<K, E>(g: Groups<K, E>)
  {
    exists i :: 0 <= i < |g| && g[i].1 != []
  }

  /**
   * `d[k].append(e)`: the list under `k` gains `e` at its end, or, when `k`
   * is new, the pair `(k, [e])` is added after every existing group; no other
   * group changes and the keys stay unique.
   */
  function Append<K(==), E>(g: Groups<K, E>, k: K, e: E): (r: Groups<K, E>)
    requires UniqueKeys(g)
    ensures UniqueKeys(r)
    ensures k in Keys(g) ==> |r| == |g|
    ensures k !in Keys(g) ==> |r| == |g| + 1 && r[|g|] == (k, [e])
    ensures forall i :: 0 <= i < |g| ==>
              r[i].0 == g[i].0 && r[i].1 == if g[i].0 == k then g[i].1 + [e] else g[i].1
  {
    if g == [] then [(k, [e])]
    else if g[0].0 == k then [(k, g[0].1 + [e])] + g[1..]
    else [g[0]] + Append(g[1..], k, e)
  }

  /** Appends every `(key, entry)` item in turn, starting from an empty dictionary. */
  function GroupAll<K(==), E>(items: seq<(K, E)>): (g: Groups<K, E>)
    ensures UniqueKeys(g)
  {
    if items == [] then []
    else
      var last := items[|items| - 1];
      Append(GroupAll(items[..|items| - 1]), last.0, last.1)
  }

  /** The entries of the items whose key is `k`, in item order. */
  function Filter<K(==), E>(items: seq<(K, E)>, k: K): seq<E>
  {
    if items == [] then []
    else
      var last := items[|items| - 1];
      Filter(items[..|items| - 1], k) + if last.0 == k then [last.1] else []
  }

  /** The position of the first occurrence of `x` in `s`. */
  function FirstIndexOf<T(==)>(s: seq<T>, x: T): (r: nat)
    requires x in s
    ensures r < |s| && s[r] == x && x !in s[..r]
  {
    if s[0] == x then 0 else 1 + FirstIndexOf(s[1..], x)
  }

  lemma {:induction false} EntriesOfAt<K, E>(g: Groups<K, E>, i: nat)
    requires UniqueKeys(g) && i < |g|
    ensures EntriesOf(g, g[i].0) == g[i].1
  {
    if i > 0 {
      EntriesOfAt(g[1..], i - 1);
    }
  }

  lemma {:induction false} EntriesOfAbsent<K, E>(g: Groups<K, E>, k: K)
    requires k !in Keys(g)
    ensures EntriesOf(g, k) == []
  {
    if g != [] {
      assert Keys(g)[0] == g[0].0;
      assert Keys(g[1..]) == Keys(g)[1..];
      EntriesOfAbsent(g[1..], k);
    }
  }

  /** After `d[k].append(e)`, reading `k'` sees `e` appended exactly when `k' == k`. */
  lemma EntriesOfAppend<K, E>(g: Groups<K, E>, k: K, e: E, k': K)
    requires UniqueKeys(g)
    ensures EntriesOf(Append(g, k, e), k') == EntriesOf(g, k') + if k' == k then [e] else []
  {
    var r := Append(g, k, e);
    if k' in Keys(g) {
      var i :| 0 <= i < |g| && Keys(g)[i] == k';
      EntriesOfAt(g, i);
      EntriesOfAt(r, i);
    } else if k' == k {
      EntriesOfAbsent(g, k');
      EntriesOfAt(r, |g|);
    } else {
      EntriesOfAbsent(g, k');
      KeysOfAppend(g, k, e, k');
      EntriesOfAbsent(r, k');
    }
  }

  /** Appending under a new key adds the group `(k, [e])` after all others and changes nothing else. */
  lemma AppendNewKey<K, E>(g: Groups<K, E>, k: K, e: E)
    requires UniqueKeys(g) && k !in Keys(g)
    ensures Append(g, k, e) == g + [(k, [e])]
  {
    var r := Append(g, k, e);
    forall i | 0 <= i < |g|
      ensures r[i] == g[i]
    {
      assert Keys(g)[i] == g[i].0;
    }
  }

  /** `d[k].append(e)` adds `k` to the keys and no other key. */
  lemma KeysOfAppend<K, E>(g: Groups<K, E>, k: K, e: E, x: K)
    requires UniqueKeys(g)
    ensures x in Keys(Append(g, k, e)) <==> x in Keys(g) || x == k
  {
    var r := Append(g, k, e);
    if x in Keys(r) {
      var i :| 0 <= i < |r| && Keys(r)[i] == x;
      if i < |g| {
        assert Keys(g)[i] == x;
      }
    }
    if x in Keys(g) {
      var i :| 0 <= i < |g| && Keys(g)[i] == x;
      assert Keys(r)[i] == x;
    } else if x == k {
      assert Keys(r)[|g|] == x;
    }
  }

  /** Grouping loses no item and orders each group's list by item order. */
  lemma {:induction false} GroupAllEntries<K, E>(items: seq<(K, E)>, k: K)
    ensures EntriesOf(GroupAll(items), k) == Filter(items, k)
  {
    if items != [] {
      var last := items[|items| - 1];
      GroupAllEntries(items[..|items| - 1], k);
      EntriesOfAppend(GroupAll(items[..|items| - 1]), last.0, last.1, k);
    }
  }

  lemma {:induction false} FlattenAppendLength<K, E>(g: Groups<K, E>, k: K, e: E)
    requires UniqueKeys(g)
    ensures |Flatten(Append(g, k, e))| == |Flatten(g)| + 1
  {
    if g != [] && g[0].0 != k {
      FlattenAppendLength(g[1..], k, e);
      assert Append(g, k, e)[1..] == Append(g[1..], k, e);
    }
  }

  /** Every item becomes exactly one entry of the dictionary. */
  lemma {:induction false} GroupAllTotal<K, E>(items: seq<(K, E)>)
    ensures |Flatten(GroupAll(items))| == |items|
  {
    if items != [] {
      var last := items[|items| - 1];
      GroupAllTotal(items[..|items| - 1]);
      FlattenAppendLength(GroupAll(items[..|items| - 1]), last.0, last.1);
    }
  }

  lemma GroupAllSnoc<K, E>(items: seq<(K, E)>)
    requires items != []
    ensures GroupAll(items) == Append(GroupAll(items[..|items| - 1]), items[|items| - 1].0, items[|items| - 1].1)
  {
  }

  lemma KeysLast<K, E>(items: seq<(K, E)>)
    requires items != []
    ensures Keys(items) == Keys(items[..|items| - 1]) + [items[|items| - 1].0]
  {
  }

  lemma KeysSnoc<K, E>(items: seq<(K, E)>, x: K)
    requires items != []
    ensures x in Keys(items) <==> x in Keys(items[..|items| - 1]) || x == items[|items| - 1].0
  {
    KeysLast(items);
  }

  /** `d[k].append(e)` never leaves an empty list behind. */
  lemma AppendListsNonEmpty<K, E>(g: Groups<K, E>, k: K, e: E)
    requires UniqueKeys(g) && forall i :: 0 <= i < |g| ==> g[i].1 != []
    ensures forall i :: 0 <= i < |Append(g, k, e)| ==> Append(g, k, e)[i].1 != []
  {
  }

  /** No list of the dictionary is empty: a group exists only once an entry was added to it. */
  lemma {:induction false} GroupAllListsNonEmpty<K, E>(items: seq<(K, E)>)
    ensures forall i :: 0 <= i < |GroupAll(items)| ==> GroupAll(items)[i].1 != []
  {
    if items != [] {
      var init, last := items[..|items| - 1], items[|items| - 1];
      GroupAllListsNonEmpty(init);
      GroupAllSnoc(items);
      AppendListsNonEmpty(GroupAll(init), last.0, last.1);
    }
  }

  /** The dictionary has entries exactly when some item was added. */
  lemma GroupAllAnyEntries<K, E>(items: seq<(K, E)>)
    ensures AnyEntries(GroupAll(items)) <==> items != []
  {
    if items != [] {
      GroupAllListsNonEmpty(items);
      GroupAllSnoc(items);
      var g := GroupAll(items);
      assert |g| > 0;
      assert g[0].1 != [];
    }
  }

  lemma {:induction false} FirstIndexOfPrefix<T>(s: seq<T>, t: seq<T>, x: T)
    requires x in s
    ensures FirstIndexOf(s + t, x) == FirstIndexOf(s, x)
  {
    if s[0] != x {
      assert (s + t)[1..] == s[1..] + t;
      FirstIndexOfPrefix(s[1..], t, x);
    }
  }

  lemma {:induction false} FirstIndexOfNew<T>(s: seq<T>, x: T)
    requires x !in s
    ensures FirstIndexOf(s + [x], x) == |s|
  {
    if s != [] {
      assert (s + [x])[1..] == s[1..] + [x];
      FirstIndexOfNew(s[1..], x);
    }
  }

  /** The dictionary's keys are exactly the item keys. */
  lemma {:induction false} GroupAllKeySet<K, E>(items: seq<(K, E)>, k: K)
    ensures k in Keys(GroupAll(items)) <==> k in Keys(items)
  {
    if items != [] {
      var init, last := items[..|items| - 1], items[|items| - 1];
      GroupAllKeySet(init, k);
      GroupAllSnoc(items);
      KeysOfAppend(GroupAll(init), last.0, last.1, k);
      KeysSnoc(items, k);
    }
  }

  /** `d[k].append(e)` leaves the key order alone for a known key and adds a new key last. */
  lemma KeysAfterAppend<K, E>(g: Groups<K, E>, k: K, e: E)
    requires UniqueKeys(g)
    ensures Keys(Append(g, k, e)) == if k in Keys(g) then Keys(g) else Keys(g) + [k]
  {
    var r := Append(g, k, e);
    if k in Keys(g) {
      assert |Keys(r)| == |Keys(g)|;
      forall i | 0 <= i < |g|
        ensures Keys(r)[i] == Keys(g)[i]
      {
      }
    } else {
      AppendNewKey(g, k, e);
      assert Keys(r) == Keys(g) + [k];
    }
  }

  /**
   * Every one of `keys` occurs in `ks`, and `keys` lists them in the order
   * in which they first occur in `ks`.
   */
  ghost predicate FirstOrdered<K>(keys: seq<K>, ks: seq<K>)
  {
    (forall i :: 0 <= i < |keys| ==> keys[i] in ks) &&
    forall i, j :: 0 <= i < j < |keys| ==> FirstIndexOf(ks, keys[i]) < FirstIndexOf(ks, keys[j])
  }

  /** Keys already ordered by first occurrence stay so when one more occurrence is added at the end. */
  lemma FirstOrderedKeep<K>(keys: seq<K>, ks: seq<K>, k: K)
    requires FirstOrdered(keys, ks)
    ensures FirstOrdered(keys, ks + [k])
  {
    forall i | 0 <= i < |keys|
      ensures keys[i] in ks + [k] && FirstIndexOf(ks + [k], keys[i]) == FirstIndexOf(ks, keys[i])
    {
      FirstIndexOfPrefix(ks, [k], keys[i]);
    }
  }

  /** A key occurring for the first time comes after all the others. */
  lemma FirstOrderedNew<K>(keys: seq<K>, ks: seq<K>, k: K)
    requires FirstOrdered(keys, ks) && k !in ks
    ensures FirstOrdered(keys + [k], ks + [k])
  {
    FirstOrderedKeep(keys, ks, k);
    FirstIndexOfNew(ks, k);
    var keys', ks' := keys + [k], ks + [k];
    forall i | 0 <= i < |keys'|
      ensures keys'[i] in ks'
    {
      if i < |keys| {
        assert keys'[i] == keys[i];
      }
    }
    forall i, j | 0 <= i < j < |keys'|
      ensures FirstIndexOf(ks', keys'[i]) < FirstIndexOf(ks', keys'[j])
    {
      assert keys'[i] == keys[i];
      if j < |keys| {
        assert keys'[j] == keys[j];
      } else {
        assert FirstIndexOf(ks, keys[i]) < |ks|;
      }
    }
  }

  /** The dictionary lists its keys in the order in which they first occur among the items. */
  lemma {:induction false} GroupAllOrdered<K, E>(items: seq<(K, E)>)
    ensures FirstOrdered(Keys(GroupAll(items)), Keys(items))
  {
    if items != [] {
      var init, last := items[..|items| - 1], items[|items| - 1];
      var g0, ks0 := GroupAll(init), Keys(init);
      GroupAllOrdered(init);
      GroupAllSnoc(items);
      KeysAfterAppend(g0, last.0, last.1);
      KeysLast(items);
      if last.0 in Keys(g0) {
        FirstOrderedKeep(Keys(g0), ks0, last.0);
      } else {
        GroupAllKeySet(init, last.0);
        FirstOrderedNew(Keys(g0), ks0, last.0);
      }
    }
  }

  /**
   * Of any two groups, the earlier one's key first appears among the items
   * before the later one's.
   */
  lemma GroupAllKeyOrder<K, E>(items: seq<(K, E)>, i: nat, j: nat)
    requires i < j < |GroupAll(items)|
    ensures GroupAll(items)[i].0 in Keys(items) && GroupAll(items)[j].0 in Keys(items)
    ensures FirstIndexOf(Keys(items), GroupAll(items)[i].0)
            < FirstIndexOf(Keys(items), GroupAll(items)[j].0)
  {
    GroupAllOrdered(items);
    var g := GroupAll(items);
    assert Keys(g)[i] == g[i].0 && Keys(g)[j] == g[j].0;
  }
}
