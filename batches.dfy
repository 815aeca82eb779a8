/** What the batch loops of scripts/generate-summaries.ts and
    scripts/generate-titles.ts have in common: the slices
    `projects.slice(i, i + batchSize)` for `i = 0, batchSize, ...`, and a
    record keyed by one field of each project, where a later project with
    the same key overwrites an earlier one. */
module Batching {

  import opened Lists

  /** The batches cover `items` in order, one after another, each holding
      between one and `size` items. */
  predicate Tiles<T(==,!new)>(batches: seq<seq<T>>, items: seq<T>, size: nat) {
    && Flatten(batches) == items
    && forall b :: b in batches ==> 0 < |b| <= size
  }

  /** `items.slice(i, i + size)`. */
  function Slice<T>(items: seq<T>, i: nat, size: nat): (r: seq<T>)
    requires i <= |items|
    ensures |r| == if i + size <= |items| then size else |items| - i
    ensures r == items[i..i + |r|]
  {
    if i + size <= |items| then items[i..i + size] else items[i..]
  }

  /** One more batch keeps the tiling. */
  lemma TilesSnoc<T(!new)>(batches: seq<seq<T>>, items: seq<T>, i: nat, size: nat)
    requires i < |items| && size > 0
    requires Tiles(batches, items[..i], size)
    ensures var b := Slice(items, i, size);
      Tiles(batches + [b], items[..i + |b|], size)
  {
    var b := Slice(items, i, size);
    FlattenSnoc(batches, b);
    assert items[..i] + b == items[..i + |b|];
  }

  lemma FlattenSnoc<T(!new)>(ss: seq<seq<T>>, s: seq<T>)
    ensures Flatten(ss + [s]) == Flatten(ss) + s
  {
    assert (ss + [s])[..|ss|] == ss;
  }

  /** Writing `record[key(x)] = value(x)` for every `x` of `items` in
      order. */
  function LastWins<T(!new), V>(items: seq<T>, key: T -> string, value: T -> V): map<string, V> {
    if items == [] then map[]
    else LastWins(items[..|items| - 1], key, value)[key(items[|items| - 1]) := value(items[|items| - 1])]
  }

  /** The record has one entry per distinct key, and each key holds the
      value of the last item with that key. */
  lemma {:induction false} LastWinsLookup<T(!new), V>(items: seq<T>, key: T -> string, value: T -> V)
    ensures LastWins(items, key, value).Keys == set x | x in items :: key(x)
    ensures forall j :: 0 <= j < |items| && (forall k :: j < k < |items| ==> key(items[k]) != key(items[j])) ==>
      LastWins(items, key, value)[key(items[j])] == value(items[j])
  {
    if items != [] {
      var init := items[..|items| - 1];
      LastWinsLookup(init, key, value);
      assert items == init + [items[|items| - 1]];
      forall j | 0 <= j < |items| - 1 && (forall k :: j < k < |items| ==> key(items[k]) != key(items[j]))
        ensures LastWins(items, key, value)[key(items[j])] == value(items[j])
      {
        assert init[j] == items[j];
        assert forall k :: j < k < |init| ==> init[k] == items[k];
      }
    }
  }

  /** Adding one item is one more write. */
  lemma LastWinsSnoc<T(!new), V>(items: seq<T>, x: T, key: T -> string, value: T -> V)
    ensures LastWins(items + [x], key, value) == LastWins(items, key, value)[key(x) := value(x)]
  {
    assert (items + [x])[..|items|] == items;
  }

  /** The record after `record[k] = v` for every pair `(k, v)` in order. */
  function Writes<V>(record: map<string, V>, pairs: seq<(string, V)>): map<string, V>
    decreases |pairs|
  {
    if pairs == [] then record
    else
      var last := pairs[|pairs| - 1];
      Writes(record, pairs[..|pairs| - 1])[last.0 := last.1]
  }

  /** Each item's key and value, in order. */
  function Pairs<T, V>(items: seq<T>, key: T -> string, value: T -> V): (r: seq<(string, V)>)
    ensures |r| == |items|
    ensures forall k :: 0 <= k < |items| ==> r[k] == (key(items[k]), value(items[k]))
  {
    seq(|items|, k requires 0 <= k < |items| => (key(items[k]), value(items[k])))
  }

  /** Writing the pairs of a batch continues the record of the items before
      it. */
  lemma {:induction false} WritesPairs<T(!new), V>(before: seq<T>, batch: seq<T>, key: T -> string, value: T -> V)
    ensures Writes(LastWins(before, key, value), Pairs(batch, key, value)) == LastWins(before + batch, key, value)
    decreases |batch|
  {
    if batch == [] {
      assert before + batch == before;
    } else {
      var init := batch[..|batch| - 1];
      var x := batch[|batch| - 1];
      WritesPairs(before, init, key, value);
      assert Pairs(batch, key, value)[..|batch| - 1] == Pairs(init, key, value);
      assert before + batch == (before + init) + [x];
      LastWinsSnoc(before + init, x, key, value);
    }
  }

  /** The record has at most one entry per item. */
  lemma {:induction false} LastWinsSize<T(!new), V>(items: seq<T>, key: T -> string, value: T -> V)
    ensures |LastWins(items, key, value).Keys| <= |items|
  {
    if items != [] {
      var init := items[..|items| - 1];
      LastWinsSize(init, key, value);
      assert LastWins(items, key, value).Keys == LastWins(init, key, value).Keys + {key(items[|items| - 1])};
    }
  }
}
