/** `reorder` and `removeFromLists`: two helpers that rearrange Python lists
    in place. */
module ListHelpers {
  import Py

  // ---------------------------------------------------------------------
  // reorder
  // ---------------------------------------------------------------------

  /** Every entry of `order` is an index Python accepts on a list of length `n`. */
  predicate IndicesOk(order: seq<int>, n: nat)
  {
    forall i :: 0 <= i < |order| ==> Py.IndexOk(order[i], n)
  }

  /** The list whose `i`-th entry is `s[order[i]]`. */
  function Reordered<T>(s: seq<T>, order: seq<int>): (r: seq<T>)
    requires IndicesOk(order, |s|)
  {
    seq(|order|, i requires 0 <= i < |order| => s[Py.Position(order[i], |s|)])
  }

  /** `reorder(a, order)`: when `order` is as long as `a` and all its
      indices are in range, afterwards `a[i]` is the old `a[order[i]]`;
      otherwise `a` is left as it was. */
  method Reorder<T>(a: array<T>, order: seq<int>)
    modifies a
    ensures |order| == a.Length && IndicesOk(order, a.Length) ==> a[..] == Reordered(old(a[..]), order)
    ensures !(|order| == a.Length && IndicesOk(order, a.Length)) ==> a[..] == old(a[..])
  {
    var l := |order|;
    if a.Length != l {
      return;
    }
    var newList: seq<T> := [];
    for i := 0 to l
      invariant |newList| == i
      invariant IndicesOk(order[..i], l)
      invariant forall j :: 0 <= j < i ==> newList[j] == a[Py.Position(order[j], l)]
    {
      if !Py.IndexOk(order[i], l) {
        return;
      }
      newList := newList + [a[Py.Position(order[i], l)]];
    }
    assert order[..l] == order;
    ghost var was := a[..];
    assert newList == Reordered(was, order);
    for i := 0 to l
      invariant forall j :: 0 <= j < i ==> a[j] == newList[j]
      invariant forall j :: i <= j < l ==> a[j] == was[j]
    {
      a[i] := newList[i];
    }
  }

  /** Reordering by `q` and then by `p` restores the list when `p` undoes `q`. */
  lemma ReorderedInverse<T>(s: seq<T>, q: seq<int>, p: seq<int>)
    requires |q| == |s| && |p| == |s|
    requires IndicesOk(q, |s|) && IndicesOk(p, |s|)
    requires forall i :: 0 <= i < |s| ==> Py.Position(q[Py.Position(p[i], |s|)], |s|) == i
    ensures Reordered(Reordered(s, q), p) == s
  {
    var r := Reordered(s, q);
    forall i | 0 <= i < |s|
      ensures Reordered(r, p)[i] == s[i]
    {
      var j := Py.Position(p[i], |s|);
      assert r[j] == s[Py.Position(q[j], |s|)];
    }
  }

  // ---------------------------------------------------------------------
  // removeFromLists
  // ---------------------------------------------------------------------

  /** A Python list, shared by reference and changed in place. */
  class PyList<T(==)> {
    var items: seq<T>

    constructor (items: seq<T>)
      ensures this.items == items
    {
      this.items := items;
    }

    /** `l.pop(index)`. */
    method Pop(index: nat) returns (x: T)
      requires index < |items|
      modifies this
      ensures x == old(items)[index]
      ensures items == old(items)[..index] + old(items)[index + 1..]
    {
      x := items[index];
      items := items[..index] + items[index + 1..];
    }

    /** `l.remove(x)`: drops the first occurrence of `x`. */
    method Remove(x: T)
      requires x in items
      modifies this
      ensures var i := Py.Index(old(items), x).value;
        items == old(items)[..i] + old(items)[i + 1..]
    {
      var i := Py.Index(items, x).value;
      items := items[..i] + items[i + 1..];
    }
  }

  /** The entries of `s` at the positions where the parallel list `key`
      does not hold `item`, in their original order. */
  function Filter<T(==)>(s: seq<T>, key: seq<T>, item: T): seq<T>
    requires |s| == |key|
  {
    if s == [] then []
    else
      var kept := if key[|key| - 1] == item then [] else [s[|s| - 1]];
      Filter(s[..|s| - 1], key[..|key| - 1], item) + kept
  }

  /** The positions that survive: those where `key` does not hold `item`,
      in increasing order. */
  function Survivors<T(==)>(key: seq<T>, item: T): (r: seq<nat>)
    ensures forall i :: 0 <= i < |r| ==> r[i] < |key|
  {
    if key == [] then []
    else Survivors(key[..|key| - 1], item) + (if key[|key| - 1] == item then [] else [|key| - 1])
  }

  /** The surviving positions are increasing and are exactly the positions
      where `key` does not hold `item`. */
  lemma {:induction false} SurvivorsExact<T>(key: seq<T>, item: T)
    ensures var r := Survivors(key, item);
      && (forall i, j :: 0 <= i < j < |r| ==> r[i] < r[j])
      && (forall j :: j in r <==> 0 <= j < |key| && key[j] != item)
  {
    if key != [] {
      var init := key[..|key| - 1];
      SurvivorsExact(init, item);
      var r := Survivors(key, item);
      forall j
        ensures j in r <==> 0 <= j < |key| && key[j] != item
      {
        if 0 <= j < |init| {
          assert init[j] == key[j];
        }
      }
    }
  }

  /** Each filtered list keeps exactly the entries at the surviving
      positions, so all filtered lists have the same length. */
  lemma {:induction false} FilterPicksSurvivors<T>(s: seq<T>, key: seq<T>, item: T)
    requires |s| == |key|
    ensures var r := Survivors(key, item);
      && |Filter(s, key, item)| == |r|
      && forall i :: 0 <= i < |r| ==> Filter(s, key, item)[i] == s[r[i]]
  {
    if s != [] {
      FilterPicksSurvivors(s[..|s| - 1], key[..|key| - 1], item);
    }
  }

  /** After filtering by `key` itself, `item` no longer occurs. */
  lemma {:induction false} FilterRemovesItem<T>(key: seq<T>, item: T)
    ensures item !in Filter(key, key, item)
  {
    if key != [] {
      FilterRemovesItem(key[..|key| - 1], item);
    }
  }

  /** Filtering by a key without `item` keeps everything. */
  lemma {:induction false} FilterKeepsAll<T>(s: seq<T>, key: seq<T>, item: T)
    requires |s| == |key| && item !in key
    ensures Filter(s, key, item) == s
  {
    if s != [] {
      FilterKeepsAll(s[..|s| - 1], key[..|key| - 1], item);
    }
  }

  /** Filtering a concatenation filters the two parts separately. */
  lemma {:induction false} FilterSplit<T>(s: seq<T>, key: seq<T>, item: T, p: nat)
    requires |s| == |key| && p <= |s|
    ensures Filter(s, key, item) == Filter(s[..p], key[..p], item) + Filter(s[p..], key[p..], item)
    decreases |s|
  {
    if |s| > p {
      var n := |s| - 1;
      FilterSplit(s[..n], key[..n], item, p);
      assert s[..n][..p] == s[..p] && key[..n][..p] == key[..p];
      assert s[p..][..n - p] == s[..n][p..] && key[p..][..n - p] == key[..n][p..];
    } else {
      assert s[..p] == s && key[..p] == key;
      assert s[p..] == [] && key[p..] == [];
    }
  }

  /** The parallel lists all have the length of the first one. */
  predicate SameLengths<T>(lists: seq<PyList<T>>)
    reads set l | l in lists
  {
    |lists| > 0 && forall k :: 0 <= k < |lists| ==> |lists[k].items| == |lists[0].items|
  }

  /** The current contents of the lists. */
  ghost function Snapshot<T>(lists: seq<PyList<T>>): (r: seq<seq<T>>)
    reads set l | l in lists
    ensures |r| == |lists| && forall k :: 0 <= k < |lists| ==> r[k] == lists[k].items
  {
    seq(|lists|, k requires 0 <= k < |lists| reads lists => lists[k].items)
  }

  /** A list after the first `p` positions of the key list have been dealt
      with: its filtered prefix followed by its untouched rest. */
  ghost function Stage<T>(s: seq<T>, key: seq<T>, item: T, p: nat): seq<T>
    requires |s| == |key| && p <= |s|
  {
    Filter(s[..p], key[..p], item) + s[p..]
  }

  /** Every list of `before` at stage `p`. */
  ghost function Stages<T>(before: seq<seq<T>>, key: seq<T>, item: T, p: nat): (r: seq<seq<T>>)
    requires p <= |key| && forall k :: 0 <= k < |before| ==> |before[k]| == |key|
    ensures |r| == |before| && forall k :: 0 <= k < |before| ==> r[k] == Stage(before[k], key, item, p)
  {
    seq(|before|, k requires 0 <= k < |before| => Stage(before[k], key, item, p))
  }

  /** Every list of `c` without its entry at `index`. */
  ghost function PopAt<T>(c: seq<seq<T>>, index: nat): (r: seq<seq<T>>)
    requires forall k :: 0 <= k < |c| ==> index < |c[k]|
    ensures |r| == |c| && forall k :: 0 <= k < |c| ==> r[k] == c[k][..index] + c[k][index + 1..]
  {
    seq(|c|, k requires 0 <= k < |c| => c[k][..index] + c[k][index + 1..])
  }

  /** `removeFromLists(item, lists)`: when `lists` is non-empty and all its
      lists have the same length, removes every position where the first
      list holds `item`, from every list; otherwise changes nothing. */
  method RemoveFromLists<T(==)>(item: T, lists: seq<PyList<T>>)
    requires forall i, j :: 0 <= i < j < |lists| ==> lists[i] != lists[j]
    modifies set l | l in lists
    ensures !old(SameLengths(lists)) ==> forall k :: 0 <= k < |lists| ==> lists[k].items == old(lists[k].items)
    ensures old(SameLengths(lists)) ==>
      forall k :: 0 <= k < |lists| ==>
        lists[k].items == Filter(old(lists[k].items), old(lists[0].items), item)
  {
    if |lists| == 0 {
      return;
    }
    var listLen := |lists[0].items|;
    for j := 1 to |lists|
      invariant forall k :: 0 <= k < j ==> |lists[k].items| == listLen
    {
      if |lists[j].items| != listLen {
        return;
      }
    }
    if |lists| == 1 {
      RemoveAll(item, lists[0]);
    } else {
      RemoveParallel(item, lists);
    }
  }

  /** The branch for a single list: `while l.count(item) > 0: l.remove(item)`. */
  method RemoveAll<T(==)>(item: T, l: PyList<T>)
    modifies l
    ensures l.items == Filter(old(l.items), old(l.items), item)
  {
    ghost var key := l.items;
    ghost var p: nat := 0;
    assert l.items == Stage(key, key, item, 0);
    while item in l.items
      invariant p <= |key|
      invariant l.items == Stage(key, key, item, p)
      decreases |l.items|
    {
      ghost var i := Py.Index(l.items, item).value;
      p := RemoveStep(key, item, p, i);
      l.Remove(item);
    }
    FinalStage(key, key, item, p);
  }

  /** The branch for several lists: find the first `item` in the first
      list, pop that index from it and from every other list, and repeat
      while the first list still holds `item`. */
  method RemoveParallel<T(==)>(item: T, lists: seq<PyList<T>>)
    requires SameLengths(lists)
    requires forall i, j :: 0 <= i < j < |lists| ==> lists[i] != lists[j]
    modifies set l | l in lists
    ensures forall k :: 0 <= k < |lists| ==>
      lists[k].items == Filter(old(lists[k].items), old(lists[0].items), item)
  {
    ghost var before := Snapshot(lists);
    ghost var key := before[0];
    ghost var p: nat := 0;
    StagesAtStart(before, item);
    while item in lists[0].items
      invariant p <= |key|
      invariant Snapshot(lists) == Stages(before, key, item, p)
      decreases |lists[0].items|
    {
      ghost var cur := Stages(before, key, item, p);
      assert lists[0].items == cur[0];
      var index := Py.Index(lists[0].items, item).value;
      p := ParallelStep(before, item, p, index);
      PopEach(lists, index);
      assert Snapshot(lists) == PopAt(cur, index);
    }
    StagesAtEnd(before, item, p);
  }

  /** Before the first pass every list is at stage 0, which is the list itself. */
  lemma StagesAtStart<T>(before: seq<seq<T>>, item: T)
    requires |before| > 0 && forall k :: 0 <= k < |before| ==> |before[k]| == |before[0]|
    ensures Stages(before, before[0], item, 0) == before
  {
    forall k | 0 <= k < |before|
      ensures Stage(before[k], before[0], item, 0) == before[k]
    {
      assert before[k][0..] == before[k];
    }
  }

  /** Once the first list no longer holds `item`, every list at stage `p` is
      its full filter. */
  lemma StagesAtEnd<T>(before: seq<seq<T>>, item: T, p: nat)
    requires |before| > 0 && p <= |before[0]|
    requires forall k :: 0 <= k < |before| ==> |before[k]| == |before[0]|
    requires item !in Stages(before, before[0], item, p)[0]
    ensures var r := Stages(before, before[0], item, p);
      forall k :: 0 <= k < |before| ==> r[k] == Filter(before[k], before[0], item)
  {
    forall k | 0 <= k < |before|
      ensures Stage(before[k], before[0], item, p) == Filter(before[k], before[0], item)
    {
      FinalStage(before[k], before[0], item, p);
    }
  }

  /** `lists[0].pop(index)`, then `for l in lists[1:]: l.pop(index)`: the
      same pops in the same order as one loop over all the lists. */
  method PopEach<T>(lists: seq<PyList<T>>, index: nat)
    requires |lists| > 0
    requires forall i, j :: 0 <= i < j < |lists| ==> lists[i] != lists[j]
    requires forall k :: 0 <= k < |lists| ==> index < |lists[k].items|
    modifies set l | l in lists
    ensures Snapshot(lists) == PopAt(old(Snapshot(lists)), index)
  {
    ghost var was := Snapshot(lists);
    for j := 0 to |lists|
      invariant forall k :: 0 <= k < j ==> lists[k].items == was[k][..index] + was[k][index + 1..]
      invariant forall k :: j <= k < |lists| ==> lists[k].items == was[k]
    {
      var _ := lists[j].Pop(index);
    }
    assert Snapshot(lists) == PopAt(was, index);
  }

  /** One pass of the single-list loop: removing the first `item` from the
      current list advances the stage from `p` to `next`. */
  lemma RemoveStep<T>(key: seq<T>, item: T, p: nat, i: nat) returns (next: nat)
    requires p <= |key| && Py.FirstAt(Stage(key, key, item, p), item, i)
    ensures p < next <= |key|
    ensures var cur := Stage(key, key, item, p);
      cur[..i] + cur[i + 1..] == Stage(key, key, item, next)
  {
    var q := NextItem(key, item, p);
    Py.FirstAtUnique(Stage(key, key, item, p), item, i, |Filter(key[..p], key[..p], item)| + q);
    PopOne(key, key, item, p, q);
    next := p + q + 1;
  }

  /** One pass of the several-lists loop: popping, from every list at stage
      `p`, the index of the first `item` in the first list advances them all
      to `next`. */
  lemma ParallelStep<T>(before: seq<seq<T>>, item: T, p: nat, index: nat) returns (next: nat)
    requires |before| > 0 && p <= |before[0]|
    requires forall k :: 0 <= k < |before| ==> |before[k]| == |before[0]|
    requires Py.FirstAt(Stage(before[0], before[0], item, p), item, index)
    ensures p < next <= |before[0]|
    ensures var cur := Stages(before, before[0], item, p);
      && (forall k :: 0 <= k < |cur| ==> index < |cur[k]|)
      && PopAt(cur, index) == Stages(before, before[0], item, next)
  {
    var key := before[0];
    var q := NextItem(key, item, p);
    Py.FirstAtUnique(Stage(key, key, item, p), item, index, |Filter(key[..p], key[..p], item)| + q);
    next := p + q + 1;
    var cur := Stages(before, key, item, p);
    var after := Stages(before, key, item, next);
    forall k | 0 <= k < |before|
      ensures index < |cur[k]|
      ensures cur[k][..index] + cur[k][index + 1..] == after[k]
    {
      assert cur[k] == Stage(before[k], key, item, p);
      assert after[k] == Stage(before[k], key, item, next);
      PopOne(before[k], key, item, p, q);
    }
  }

  /** Where the loop finds the next `item`: `q` positions past `p` in the
      key list, which is position `|filtered prefix| + q` of the current
      first list. */
  lemma NextItem<T>(key: seq<T>, item: T, p: nat) returns (q: nat)
    requires p <= |key| && item in Stage(key, key, item, p)
    ensures p + q < |key| && key[p + q] == item && item !in key[p..p + q]
    ensures Py.FirstAt(Stage(key, key, item, p), item, |Filter(key[..p], key[..p], item)| + q)
  {
    var f0 := Filter(key[..p], key[..p], item);
    var rest := key[p..];
    assert Stage(key, key, item, p) == f0 + rest;
    FilterRemovesItem(key[..p], item);
    q := Py.Index(rest, item).value;
    assert key[p + q] == rest[q];
    assert rest[..q] == key[p..p + q];
    assert (f0 + rest)[..|f0| + q] == f0 + rest[..q];
  }

  /** Filtering up to and including the next `item` of the key list adds
      the `q` entries before it to the filtered prefix. */
  lemma FilterThroughItem<T>(s: seq<T>, key: seq<T>, item: T, p: nat, q: nat)
    requires |s| == |key| && p + q < |key|
    requires key[p + q] == item && item !in key[p..p + q]
    ensures Filter(s[..p + q + 1], key[..p + q + 1], item) == Filter(s[..p], key[..p], item) + s[p..p + q]
  {
    var r := p + q + 1;
    FilterSplit(s[..r], key[..r], item, p);
    assert s[..r][..p] == s[..p] && key[..r][..p] == key[..p];
    var mid := s[p..r];
    var midKey := key[p..r];
    assert s[..r][p..] == mid && key[..r][p..] == midKey;
    assert midKey[..q] == key[p..p + q];
    FilterKeepsAll(mid[..q], midKey[..q], item);
    assert mid[..|mid| - 1] == mid[..q] && midKey[..|midKey| - 1] == midKey[..q];
    assert Filter(mid, midKey, item) == s[p..p + q];
  }

  /** Popping position `|filtered prefix| + q` from one list, where `q` is
      the distance from `p` to the next `item` in the key list. */
  lemma PopOne<T>(s: seq<T>, key: seq<T>, item: T, p: nat, q: nat)
    requires |s| == |key| && p + q < |key|
    requires key[p + q] == item && item !in key[p..p + q]
    ensures var index := |Filter(key[..p], key[..p], item)| + q;
      var cur := Stage(s, key, item, p);
      && index < |cur|
      && cur[..index] + cur[index + 1..] == Stage(s, key, item, p + q + 1)
  {
    var r := p + q + 1;
    var fk := Filter(s[..p], key[..p], item);
    FilterPicksSurvivors(s[..p], key[..p], item);
    FilterPicksSurvivors(key[..p], key[..p], item);
    FilterThroughItem(s, key, item, p, q);
    var cur := fk + s[p..];
    assert cur[..|fk| + q] == fk + s[p..p + q];
    assert cur[|fk| + q + 1..] == s[r..];
  }

  /** Once the first list no longer holds `item`, every list is its full
      filter. */
  lemma FinalStage<T>(s: seq<T>, key: seq<T>, item: T, p: nat)
    requires |s| == |key| && p <= |key|
    requires item !in Stage(key, key, item, p)
    ensures Stage(s, key, item, p) == Filter(s, key, item)
  {
    var rest := key[p..];
    var f0 := Filter(key[..p], key[..p], item);
    assert item !in rest by {
      assert Stage(key, key, item, p)[|f0|..] == rest;
    }
    FilterSplit(s, key, item, p);
    FilterKeepsAll(s[p..], rest, item);
  }
}
