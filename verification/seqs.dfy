/** Order-preserving sequence operations that the steps build on: filtering
    (list comprehensions), grouping in first-appearance order (the
    `dict.setdefault`/`d.get(k, 0) + 1` idiom over an insertion-ordered dict)
    and Python's stable `sorted(..., key=count, reverse=True)`. */
module Seqs {

  // ---------------------------------------------------------------------------
  // Filtering
  // ---------------------------------------------------------------------------

  /** `[x for x in xs if p(x)]`. Defined by peeling the last element, which is
      how a loop that appends builds it. */
  function Filter<T>(xs: seq<T>, p: T -> bool): (r: seq<T>)
    ensures |r| <= |xs|
    ensures forall i :: 0 <= i < |r| ==> p(r[i])
  {
    if |xs| == 0 then []
    else Filter(xs[..|xs| - 1], p) + (if p(xs[|xs| - 1]) then [xs[|xs| - 1]] else [])
  }

  lemma {:induction false} FilterAppend<T>(a: seq<T>, b: seq<T>, p: T -> bool)
    ensures Filter(a + b, p) == Filter(a, p) + Filter(b, p)
    decreases |b|
  {
    if |b| == 0 {
      assert a + b == a;
    } else {
      var b' := b[..|b| - 1];
      assert (a + b)[..|a + b| - 1] == a + b';
      FilterAppend(a, b', p);
    }
  }

  /** An element survives the filter exactly when it was there and passes. */
  lemma {:induction false} FilterMembers<T>(xs: seq<T>, p: T -> bool, x: T)
    ensures x in Filter(xs, p) <==> x in xs && p(x)
  {
    if |xs| > 0 {
      var init := xs[..|xs| - 1];
      FilterMembers(init, p, x);
      assert xs == init + [xs[|xs| - 1]];
    }
  }

  /** Filtering depends only on what the predicate says. */
  lemma {:induction false} FilterSame<T>(xs: seq<T>, p: T -> bool, q: T -> bool)
    requires forall x :: p(x) == q(x)
    ensures Filter(xs, p) == Filter(xs, q)
  {
    if |xs| > 0 {
      FilterSame(xs[..|xs| - 1], p, q);
    }
  }

  /** Nothing passes: the filter is empty. */
  lemma {:induction false} FilterNone<T>(xs: seq<T>, p: T -> bool)
    requires forall i :: 0 <= i < |xs| ==> !p(xs[i])
    ensures Filter(xs, p) == []
  {
    if |xs| > 0 {
      FilterNone(xs[..|xs| - 1], p);
    }
  }

  /** Everything passes: the filter is the identity. */
  lemma {:induction false} FilterAll<T>(xs: seq<T>, p: T -> bool)
    requires forall i :: 0 <= i < |xs| ==> p(xs[i])
    ensures Filter(xs, p) == xs
  {
    if |xs| > 0 {
      FilterAll(xs[..|xs| - 1], p);
      assert xs == xs[..|xs| - 1] + [xs[|xs| - 1]];
    }
  }

  /** Filtering by a predicate and by its negation splits the sequence: the
      two sizes add up to the whole. */
  lemma {:induction false} FilterComplement<T>(xs: seq<T>, p: T -> bool, q: T -> bool)
    requires forall x :: q(x) == !p(x)
    ensures |Filter(xs, p)| + |Filter(xs, q)| == |xs|
  {
    if |xs| > 0 {
      FilterComplement(xs[..|xs| - 1], p, q);
    }
  }

  /** `a` can be obtained from `b` by deleting elements (order kept). */
  predicate IsSubsequence<T(==)>(a: seq<T>, b: seq<T>)
    decreases |b|
  {
    a == [] ||
    (b != [] &&
     (IsSubsequence(a, b[..|b| - 1]) ||
      (a[|a| - 1] == b[|b| - 1] && IsSubsequence(a[..|a| - 1], b[..|b| - 1]))))
  }

  /** A filter keeps its survivors in their original order. */
  lemma {:induction false} FilterIsSubsequence<T>(xs: seq<T>, p: T -> bool)
    ensures IsSubsequence(Filter(xs, p), xs)
  {
    if |xs| > 0 {
      var init := xs[..|xs| - 1];
      FilterIsSubsequence(init, p);
      if p(xs[|xs| - 1]) {
        var f := Filter(xs, p);
        assert f == Filter(init, p) + [xs[|xs| - 1]];
        assert f[..|f| - 1] == Filter(init, p);
        assert f[|f| - 1] == xs[|xs| - 1];
      } else {
        assert Filter(xs, p) == Filter(init, p);
      }
    }
  }

  /** Python's slice `xs[:n]` for `n >= 0`. */
  function TakeFirst<T>(xs: seq<T>, n: nat): (r: seq<T>)
    ensures |r| == if |xs| <= n then |xs| else n
    ensures r <= xs
  {
    if |xs| <= n then xs else xs[..n]
  }

  // ---------------------------------------------------------------------------
  // Blocks laid end to end
  // ---------------------------------------------------------------------------

  /** The blocks concatenated in order. */
  function Concat<T>(bs: seq<seq<T>>): seq<T> {
    if |bs| == 0 then [] else bs[0] + Concat(bs[1..])
  }

  /** Where block k begins in `Concat(bs)`: after the blocks before it. */
  function BlockStart<T>(bs: seq<seq<T>>, k: nat): nat
    requires k <= |bs|
  {
    if k == 0 then 0 else |bs[0]| + BlockStart(bs[1..], k - 1)
  }

  /** Block k sits in the concatenation at its start: every element of the
      block is found there, and the element just before it is the last one
      of block k - 1. */
  lemma {:induction false} BlockAt<T>(bs: seq<seq<T>>, k: nat, j: nat)
    requires k < |bs| && j < |bs[k]|
    ensures BlockStart(bs, k) + j < |Concat(bs)| && Concat(bs)[BlockStart(bs, k) + j] == bs[k][j]
    ensures k > 0 && |bs[k - 1]| > 0 ==>
              0 < BlockStart(bs, k) && Concat(bs)[BlockStart(bs, k) - 1] == bs[k - 1][|bs[k - 1]| - 1]
  {
    var rest := Concat(bs[1..]);
    assert Concat(bs) == bs[0] + rest;
    if k > 0 {
      BlockAt(bs[1..], k - 1, j);
      assert bs[1..][k - 1] == bs[k];
      var o := BlockStart(bs[1..], k - 1);
      assert Concat(bs)[|bs[0]| + o + j] == rest[o + j];
      if k > 1 && |bs[k - 1]| > 0 {
        BlockAt(bs[1..], k - 2, |bs[k - 1]| - 1);
        BlockEnd(bs[1..], k - 2);
        assert Concat(bs)[|bs[0]| + o - 1] == rest[o - 1];
      }
    }
  }

  /** Block k's first element sits at its start in the concatenation, and
      block k - 1's last element right before it. */
  lemma BlockBoundary<T>(bs: seq<seq<T>>, k: nat, first: T, last: T)
    requires k < |bs| && |bs[k]| > 0 && bs[k][0] == first
    requires k > 0 ==> |bs[k - 1]| > 0 && bs[k - 1][|bs[k - 1]| - 1] == last
    ensures BlockStart(bs, k) < |Concat(bs)| && Concat(bs)[BlockStart(bs, k)] == first
    ensures k > 0 ==> 0 < BlockStart(bs, k) && Concat(bs)[BlockStart(bs, k) - 1] == last
  {
    BlockAt(bs, k, 0);
  }

  /** Block k ends within the concatenation, even when it is empty. */
  lemma {:induction false} BlockFits<T>(bs: seq<seq<T>>, k: nat)
    requires k < |bs|
    ensures BlockStart(bs, k) + |bs[k]| <= |Concat(bs)|
  {
    if k > 0 {
      BlockFits(bs[1..], k - 1);
      assert bs[1..][k - 1] == bs[k];
    }
  }

  /** A block made of a head and a tail: the head sits at the block's
      start and the tail right after it. */
  lemma HeadedBlock<T>(bs: seq<seq<T>>, k: nat, head: seq<T>, tail: seq<T>)
    requires k < |bs| && bs[k] == head + tail
    ensures BlockStart(bs, k) + |head| + |tail| <= |Concat(bs)|
    ensures forall i :: 0 <= i < |head| ==> Concat(bs)[BlockStart(bs, k) + i] == head[i]
    ensures forall j :: 0 <= j < |tail| ==> Concat(bs)[BlockStart(bs, k) + |head| + j] == tail[j]
  {
    BlockFits(bs, k);
    forall i | 0 <= i < |head| ensures Concat(bs)[BlockStart(bs, k) + i] == head[i] {
      BlockAt(bs, k, i);
    }
    forall j | 0 <= j < |tail| ensures Concat(bs)[BlockStart(bs, k) + |head| + j] == tail[j] {
      BlockAt(bs, k, |head| + j);
    }
  }

  /** Block k + 1 begins right after block k ends. */
  lemma BlockEnd<T>(bs: seq<seq<T>>, k: nat)
    requires k + 1 < |bs|
    ensures BlockStart(bs, k + 1) == BlockStart(bs, k) + |bs[k]|
  {
    if k > 0 {
      BlockEnd(bs[1..], k - 1);
    }
  }

  // ---------------------------------------------------------------------------
  // Grouping in first-appearance order
  // ---------------------------------------------------------------------------

  function Map<T, U>(xs: seq<T>, f: T -> U): (r: seq<U>)
    ensures |r| == |xs|
    ensures forall i :: 0 <= i < |xs| ==> r[i] == f(xs[i])
  {
    seq(|xs|, i requires 0 <= i < |xs| => f(xs[i]))
  }

  predicate Distinct<K(==)>(ks: seq<K>) {
    forall i, j :: 0 <= i < j < |ks| ==> ks[i] != ks[j]
  }

  /** Position of the first occurrence of `k`. */
  function FirstIndex<K(==)>(ks: seq<K>, k: K): (i: nat)
    requires k in ks
    ensures i < |ks| && ks[i] == k && k !in ks[..i]
  {
    if ks[0] == k then 0
    else
      assert ks == [ks[0]] + ks[1..];
      var j := FirstIndex(ks[1..], k);
      assert ks[..j + 1] == [ks[0]] + ks[1..][..j];
      1 + j
  }

  /** The distinct keys of `ks` in order of first appearance (the key order
      of a Python dict filled from `ks`). */
  function Dedup<K(==)>(ks: seq<K>): (r: seq<K>)
    ensures Distinct(r)
    ensures forall i :: 0 <= i < |r| ==> r[i] in ks
    ensures forall i :: 0 <= i < |ks| ==> ks[i] in r
    ensures |r| <= |ks|
  {
    if |ks| == 0 then []
    else
      var init := ks[..|ks| - 1];
      var d := Dedup(init);
      assert forall i :: 0 <= i < |init| ==> ks[i] == init[i];
      if ks[|ks| - 1] in d then d else d + [ks[|ks| - 1]]
  }

  /** Dedup lists keys by their first occurrence: an earlier key in the
      result first occurs earlier in the input. */
  lemma {:induction false} DedupFirstAppearance<K>(ks: seq<K>, i: nat, j: nat)
    requires i < j < |Dedup(ks)|
    ensures FirstIndex(ks, Dedup(ks)[i]) < FirstIndex(ks, Dedup(ks)[j])
  {
    var init := ks[..|ks| - 1];
    var d := Dedup(init);
    var last := ks[|ks| - 1];
    assert ks == init + [last];
    var a, b := Dedup(ks)[i], Dedup(ks)[j];
    assert a in init by { if last !in d { assert i < |d|; } }
    FirstIndexPrefix(init, last, a);
    if j < |d| {
      DedupFirstAppearance(init, i, j);
      FirstIndexPrefix(init, last, b);
    } else {
      assert b == last && last !in init;
      assert FirstIndex(ks, b) == |init| by {
        assert ks[..|init|] == init;
      }
    }
  }

  lemma FirstIndexPrefix<K>(init: seq<K>, last: K, k: K)
    requires k in init
    ensures FirstIndex(init + [last], k) == FirstIndex(init, k)
  {
    var ks := init + [last];
    var i := FirstIndex(init, k);
    assert ks[..i] == init[..i];
    assert ks[i] == k;
  }

  /** The predicate "has key k" used to select one group. */
  function HasKey<T, K(==)>(key: T -> K, k: K): T -> bool {
    x => key(x) == k
  }

  /** The distinct keys of `xs` under `key`, in first-appearance order. */
  function KeysInOrder<T, K(==)>(xs: seq<T>, key: T -> K): seq<K> {
    Dedup(Map(xs, key))
  }

  /** Groups `xs` by `key`: one group per distinct key, groups in order of
      the key's first appearance, each group holding every element with that
      key in input order. This is the reference definition; GroupInOrder
      computes it with the dict-building loop of `WriteMarkdownStep`. */
  function GroupBy<T, K(==)>(xs: seq<T>, key: T -> K): (r: seq<seq<T>>)
    ensures |r| == |KeysInOrder(xs, key)|
    ensures forall g :: 0 <= g < |r| ==> r[g] == Filter(xs, HasKey(key, KeysInOrder(xs, key)[g]))
    ensures forall g :: 0 <= g < |r| ==> |r[g]| > 0
  {
    var ks := KeysInOrder(xs, key);
    var ms := Map(xs, key);
    forall g | 0 <= g < |ks| ensures |Filter(xs, HasKey(key, ks[g]))| > 0 {
      assert ks[g] in ms;
      var i :| 0 <= i < |xs| && ms[i] == ks[g];
      FilterMembers(xs, HasKey(key, ks[g]), xs[i]);
    }
    seq(|ks|, g requires 0 <= g < |ks| => Filter(xs, HasKey(key, ks[g])))
  }

  /** Every group is non-empty and its first element carries its key. */
  lemma GroupsNonEmpty<T, K>(xs: seq<T>, key: T -> K, g: nat)
    requires g < |GroupBy(xs, key)|
    ensures |GroupBy(xs, key)[g]| > 0
    ensures key(GroupBy(xs, key)[g][0]) == KeysInOrder(xs, key)[g]
  {
    var k := KeysInOrder(xs, key)[g];
    var ms := Map(xs, key);
    assert k in ms;
    var i :| 0 <= i < |xs| && ms[i] == k;
    FilterMembers(xs, HasKey(key, k), xs[i]);
  }

  function IndexIn<K(==)>(ks: seq<K>, k: K): (r: nat)
    ensures r <= |ks|
    ensures r < |ks| ==> ks[r] == k
    ensures r == |ks| <==> k !in ks
  {
    if k in ks then FirstIndex(ks, k) else |ks|
  }

  /** One more element adds its key at the end of the key order, unless the
      key was already there. */
  lemma {:induction false} KeysSnoc<T, K>(xs: seq<T>, x: T, key: T -> K)
    ensures var ks := KeysInOrder(xs, key);
            KeysInOrder(xs + [x], key) == if key(x) in ks then ks else ks + [key(x)]
  {
    var ms := Map(xs + [x], key);
    assert ms[..|ms| - 1] == Map(xs, key);
  }

  /** One more element extends exactly the selection of its own key. */
  lemma {:induction false} FilterKeySnoc<T, K>(xs: seq<T>, x: T, key: T -> K, k: K)
    ensures Filter(xs + [x], HasKey(key, k)) ==
            Filter(xs, HasKey(key, k)) + (if key(x) == k then [x] else [])
  {
    assert (xs + [x])[..|xs|] == xs;
  }

  /** A key that is already present: the element joins that key's group. */
  lemma {:induction false} GroupBySnocOld<T, K>(xs: seq<T>, x: T, key: T -> K, j: nat)
    requires j < |KeysInOrder(xs, key)| && KeysInOrder(xs, key)[j] == key(x)
    ensures GroupBy(xs + [x], key) == GroupBy(xs, key)[j := GroupBy(xs, key)[j] + [x]]
  {
    var ks := KeysInOrder(xs, key);
    KeysSnoc(xs, x, key);
    assert KeysInOrder(xs + [x], key) == ks;
    var G, G' := GroupBy(xs, key), GroupBy(xs + [x], key);
    var H := G[j := G[j] + [x]];
    assert |G'| == |H|;
    forall g | 0 <= g < |ks|
      ensures G'[g] == H[g]
    {
      FilterKeySnoc(xs, x, key, ks[g]);
      assert (ks[g] == key(x)) == (g == j);
    }
  }

  /** An element whose key nothing before it has is alone in its group. */
  lemma NewKeyAlone<T, K>(xs: seq<T>, x: T, key: T -> K)
    requires key(x) !in KeysInOrder(xs, key)
    ensures Filter(xs + [x], HasKey(key, key(x))) == [x]
  {
    var k := key(x);
    assert forall i :: 0 <= i < |xs| ==> Map(xs, key)[i] in KeysInOrder(xs, key);
    FilterNone(xs, HasKey(key, k));
    FilterKeySnoc(xs, x, key, k);
  }

  /** With a new key, each earlier group stays as it was. */
  lemma EarlierGroupKept<T, K>(xs: seq<T>, x: T, key: T -> K, g: nat)
    requires key(x) !in KeysInOrder(xs, key)
    requires g < |KeysInOrder(xs, key)|
    ensures g < |GroupBy(xs + [x], key)| && GroupBy(xs + [x], key)[g] == GroupBy(xs, key)[g]
  {
    var ks := KeysInOrder(xs, key);
    KeysSnoc(xs, x, key);
    assert KeysInOrder(xs + [x], key)[g] == ks[g];
    FilterKeySnoc(xs, x, key, ks[g]);
  }

  /** With a new key, the last group is the element alone. */
  lemma LastGroupAlone<T, K>(xs: seq<T>, x: T, key: T -> K)
    requires key(x) !in KeysInOrder(xs, key)
    ensures var n := |KeysInOrder(xs, key)|;
            |GroupBy(xs + [x], key)| == n + 1 && GroupBy(xs + [x], key)[n] == [x]
  {
    KeysSnoc(xs, x, key);
    NewKeyAlone(xs, x, key);
  }

  /** A new key: the element opens a one-element group at the end. */
  lemma {:induction false} GroupBySnocNew<T, K>(xs: seq<T>, x: T, key: T -> K)
    requires key(x) !in KeysInOrder(xs, key)
    ensures GroupBy(xs + [x], key) == GroupBy(xs, key) + [[x]]
  {
    var G, G' := GroupBy(xs, key), GroupBy(xs + [x], key);
    LastGroupAlone(xs, x, key);
    forall g | 0 <= g < |G|
      ensures G'[g] == G[g]
    {
      EarlierGroupKept(xs, x, key, g);
    }
    assert G' == G + [[x]];
  }

  function SumSizes<T>(gs: seq<seq<T>>): nat {
    if |gs| == 0 then 0 else SumSizes(gs[..|gs| - 1]) + |gs[|gs| - 1]|
  }

  lemma {:induction false} SumSizesSnoc<T>(gs: seq<seq<T>>, g: seq<T>)
    ensures SumSizes(gs + [g]) == SumSizes(gs) + |g|
  {
    assert (gs + [g])[..|gs|] == gs;
  }

  lemma {:induction false} SumSizesUpdate<T>(gs: seq<seq<T>>, j: nat, x: T)
    requires j < |gs|
    ensures SumSizes(gs[j := gs[j] + [x]]) == SumSizes(gs) + 1
  {
    var gs' := gs[j := gs[j] + [x]];
    if j < |gs| - 1 {
      assert gs'[..|gs'| - 1] == gs[..|gs| - 1][j := gs[j] + [x]];
      SumSizesUpdate(gs[..|gs| - 1], j, x);
    } else {
      assert gs'[..|gs'| - 1] == gs[..|gs| - 1];
    }
  }

  /** Grouping loses and duplicates nothing: the group sizes add up to the
      number of elements. */
  lemma {:induction false} GroupSizesSum<T, K>(xs: seq<T>, key: T -> K)
    ensures SumSizes(GroupBy(xs, key)) == |xs|
  {
    if |xs| > 0 {
      var init := xs[..|xs| - 1];
      var x := xs[|xs| - 1];
      assert xs == init + [x];
      GroupSizesSum(init, key);
      var ks := KeysInOrder(init, key);
      var j := IndexIn(ks, key(x));
      if j < |ks| {
        GroupBySnocOld(init, x, key, j);
        SumSizesUpdate(GroupBy(init, key), j, x);
      } else {
        GroupBySnocNew(init, x, key);
        SumSizesSnoc(GroupBy(init, key), [x]);
      }
    }
  }

  /** One step of the grouping loop: the key is looked up among the keys
      so far; a known key's group grows by the element, an unknown key opens
      a new group at the end. */
  lemma GroupStep<T, K>(xs: seq<T>, x: T, key: T -> K)
    ensures var ks := KeysInOrder(xs, key);
            var j := IndexIn(ks, key(x));
            var G := GroupBy(xs, key);
            KeysInOrder(xs + [x], key) == (if j < |ks| then ks else ks + [key(x)]) &&
            GroupBy(xs + [x], key) == (if j < |ks| then G[j := G[j] + [x]] else G + [[x]])
  {
    var ks := KeysInOrder(xs, key);
    var j := IndexIn(ks, key(x));
    KeysSnoc(xs, x, key);
    if j < |ks| {
      GroupBySnocOld(xs, x, key, j);
    } else {
      GroupBySnocNew(xs, x, key);
    }
  }

  /** GroupStep at position i of `xs`. */
  lemma GroupLoopStep<T, K>(xs: seq<T>, key: T -> K, i: nat)
    requires i < |xs|
    ensures var ks := KeysInOrder(xs[..i], key);
            var j := IndexIn(ks, key(xs[i]));
            var G := GroupBy(xs[..i], key);
            KeysInOrder(xs[..i + 1], key) == (if j < |ks| then ks else ks + [key(xs[i])]) &&
            GroupBy(xs[..i + 1], key) == (if j < |ks| then G[j := G[j] + [xs[i]]] else G + [[xs[i]]])
  {
    assert xs[..i + 1] == xs[..i] + [xs[i]];
    GroupStep(xs[..i], xs[i], key);
  }

  /** The grouping loop of `WriteMarkdownStep`: walk the elements once, look the key up
      among the keys seen so far, and either append to that key's group or
      open a new group. It computes GroupBy. */
  method GroupInOrder<T, K(==)>(xs: seq<T>, key: T -> K) returns (keys: seq<K>, groups: seq<seq<T>>)
    ensures keys == KeysInOrder(xs, key)
    ensures groups == GroupBy(xs, key)
  {
    keys, groups := [], [];
    for i := 0 to |xs|
      invariant keys == KeysInOrder(xs[..i], key)
      invariant groups == GroupBy(xs[..i], key)
    {
      var x := xs[i];
      var k := key(x);
      var j := IndexIn(keys, k);
      GroupLoopStep(xs, key, i);
      if j < |keys| {
        groups := groups[j := groups[j] + [x]];
      } else {
        keys := keys + [k];
        groups := groups + [[x]];
      }
    }
    assert xs[..|xs|] == xs;
  }

  /** Every member of a group is an element. */
  lemma GroupMemberIn<T, K>(xs: seq<T>, key: T -> K, g: nat, j: nat)
    requires g < |GroupBy(xs, key)| && j < |GroupBy(xs, key)[g]|
    ensures GroupBy(xs, key)[g][j] in xs
  {
    var gs := GroupBy(xs, key);
    FilterMembers(xs, HasKey(key, KeysInOrder(xs, key)[g]), gs[g][j]);
  }

  /** Every element is a member of some group. */
  lemma InSomeGroup<T, K>(xs: seq<T>, key: T -> K, i: nat)
    requires i < |xs|
    ensures exists g, j :: 0 <= g < |GroupBy(xs, key)| && 0 <= j < |GroupBy(xs, key)[g]| &&
              GroupBy(xs, key)[g][j] == xs[i]
  {
    var gs := GroupBy(xs, key);
    var keys := KeysInOrder(xs, key);
    var k := key(xs[i]);
    assert Map(xs, key)[i] == k;
    var g :| 0 <= g < |keys| && keys[g] == k;
    FilterMembers(xs, HasKey(key, k), xs[i]);
    var j :| 0 <= j < |gs[g]| && gs[g][j] == xs[i];
  }

  /** A property holds of every member of every group exactly when it holds
      of every element. */
  lemma GroupsCover<T, K>(xs: seq<T>, key: T -> K, p: T -> bool)
    ensures var gs := GroupBy(xs, key);
            (forall g, j :: 0 <= g < |gs| && 0 <= j < |gs[g]| ==> p(gs[g][j])) <==>
            (forall i :: 0 <= i < |xs| ==> p(xs[i]))
  {
    var gs := GroupBy(xs, key);
    if forall i :: 0 <= i < |xs| ==> p(xs[i]) {
      forall g, j | 0 <= g < |gs| && 0 <= j < |gs[g]| ensures p(gs[g][j]) {
        GroupMemberIn(xs, key, g, j);
      }
    }
    if forall g, j :: 0 <= g < |gs| && 0 <= j < |gs[g]| ==> p(gs[g][j]) {
      forall i | 0 <= i < |xs| ensures p(xs[i]) {
        InSomeGroup(xs, key, i);
      }
    }
  }

  /** `(first element, size)` for each group: the items of a Python counting
      dict filled by `d[k] = d.get(k, 0) + 1`, in insertion order. */
  function Tally<T, K(==)>(xs: seq<T>, key: T -> K): (r: seq<(T, nat)>)
    ensures |r| == |GroupBy(xs, key)|
    ensures forall g :: 0 <= g < |r| ==>
      r[g].1 == |GroupBy(xs, key)[g]| > 0 && key(r[g].0) == KeysInOrder(xs, key)[g]
  {
    var gs := GroupBy(xs, key);
    forall g | 0 <= g < |gs| ensures |gs[g]| > 0 && key(gs[g][0]) == KeysInOrder(xs, key)[g] {
      GroupsNonEmpty(xs, key, g);
    }
    seq(|gs|, g requires 0 <= g < |gs| => (gs[g][0], |gs[g]|))
  }

  function SumCounts<T>(ps: seq<(T, nat)>): nat {
    if |ps| == 0 then 0 else SumCounts(ps[..|ps| - 1]) + ps[|ps| - 1].1
  }

  lemma {:induction false} SumCountsOfTally<T>(gs: seq<seq<T>>, ps: seq<(T, nat)>)
    requires |gs| == |ps|
    requires forall g :: 0 <= g < |ps| ==> ps[g].1 == |gs[g]|
    ensures SumCounts(ps) == SumSizes(gs)
  {
    if |ps| > 0 {
      SumCountsOfTally(gs[..|gs| - 1], ps[..|ps| - 1]);
    }
  }

  /** The counts of a tally add up to the number of elements. */
  lemma TallySum<T, K>(xs: seq<T>, key: T -> K)
    ensures SumCounts(Tally(xs, key)) == |xs|
  {
    GroupSizesSum(xs, key);
    SumCountsOfTally(GroupBy(xs, key), Tally(xs, key));
  }

  /** The count stored for key `k` in a tally (Python's `d.get(k, 0)`). */
  function CountOf<T, K(==)>(ps: seq<(T, nat)>, key: T -> K, k: K): nat {
    if |ps| == 0 then 0
    else if key(ps[0].0) == k then ps[0].1
    else CountOf(ps[1..], key, k)
  }

  lemma {:induction false} CountOfAt<T, K>(ps: seq<(T, nat)>, key: T -> K, k: K, g: nat)
    requires g < |ps| && key(ps[g].0) == k
    requires forall i :: 0 <= i < g ==> key(ps[i].0) != k
    ensures CountOf(ps, key, k) == ps[g].1
  {
    if g > 0 {
      assert key(ps[0].0) != k;
      CountOfAt(ps[1..], key, k, g - 1);
    }
  }

  lemma {:induction false} CountOfAbsent<T, K>(ps: seq<(T, nat)>, key: T -> K, k: K)
    requires forall i :: 0 <= i < |ps| ==> key(ps[i].0) != k
    ensures CountOf(ps, key, k) == 0
  {
    if |ps| > 0 {
      assert key(ps[0].0) != k;
      CountOfAbsent(ps[1..], key, k);
    }
  }

  /** Looking a key up in the tally gives the number of elements with that
      key, and 0 for a key no element has. */
  lemma TallyCountOf<T, K>(xs: seq<T>, key: T -> K, k: K)
    ensures CountOf(Tally(xs, key), key, k) == |Filter(xs, HasKey(key, k))|
  {
    var t := Tally(xs, key);
    var ks := KeysInOrder(xs, key);
    var ms := Map(xs, key);
    if k in ks {
      var g := FirstIndex(ks, k);
      forall i | 0 <= i < g ensures key(t[i].0) != k {
        assert ks[i] in ks[..g];
      }
      CountOfAt(t, key, k, g);
    } else {
      forall i | 0 <= i < |t| ensures key(t[i].0) != k {
        assert key(t[i].0) == ks[i];
      }
      CountOfAbsent(t, key, k);
      forall i | 0 <= i < |xs| ensures !HasKey(key, k)(xs[i]) {
        assert ms[i] in ks;
      }
      FilterNone(xs, HasKey(key, k));
    }
  }

  /** A key has an entry in the tally exactly when some element has it. */
  lemma TallyHasKey<T, K>(xs: seq<T>, key: T -> K, k: K)
    ensures (exists g :: 0 <= g < |Tally(xs, key)| && key(Tally(xs, key)[g].0) == k) <==>
            (exists i :: 0 <= i < |xs| && key(xs[i]) == k)
  {
    var t := Tally(xs, key);
    var ks := KeysInOrder(xs, key);
    var ms := Map(xs, key);
    if exists i :: 0 <= i < |xs| && key(xs[i]) == k {
      var i :| 0 <= i < |xs| && key(xs[i]) == k;
      assert ms[i] in ks;
      var g :| 0 <= g < |ks| && ks[g] == k;
      assert key(t[g].0) == k;
    }
    if exists g :: 0 <= g < |t| && key(t[g].0) == k {
      var g :| 0 <= g < |t| && key(t[g].0) == k;
      assert ks[g] in ms;
    }
  }

  // ---------------------------------------------------------------------------
  // Stable sort by count, largest first
  // ---------------------------------------------------------------------------

  predicate NonIncreasing<T>(ps: seq<(T, nat)>) {
    forall i, j :: 0 <= i < j < |ps| ==> ps[i].1 >= ps[j].1
  }

  /** Putting an element no smaller than the head in front keeps the order. */
  lemma ConsNonIncreasing<T>(h: (T, nat), rest: seq<(T, nat)>)
    requires NonIncreasing(rest)
    requires |rest| > 0 ==> h.1 >= rest[0].1
    ensures NonIncreasing([h] + rest)
  {
    var r := [h] + rest;
    forall i, j | 0 <= i < j < |r| ensures r[i].1 >= r[j].1 {
      if i > 0 {
        assert r[i] == rest[i - 1] && r[j] == rest[j - 1];
      } else {
        assert r[j] == rest[j - 1];
      }
    }
  }

  /** Inserts `x` before the first element whose count does not exceed its
      own, so that `x` stays ahead of later elements with an equal count. */
  function InsertDesc<T>(x: (T, nat), t: seq<(T, nat)>): (r: seq<(T, nat)>)
    requires NonIncreasing(t)
    ensures NonIncreasing(r)
    ensures |r| == |t| + 1
    ensures multiset(r) == multiset(t) + multiset{x}
    ensures r[0] == x || (|t| > 0 && r[0] == t[0])
  {
    if |t| == 0 || t[0].1 <= x.1 then [x] + t
    else
      var rest := InsertDesc(x, t[1..]);
      assert t == [t[0]] + t[1..];
      assert t[0].1 >= rest[0].1;
      ConsNonIncreasing(t[0], rest);
      assert multiset([t[0]] + rest) == multiset{t[0]} + multiset(rest);
      [t[0]] + rest
  }

  /** Python's `sorted(ps, key=lambda kv: kv[1], reverse=True)`: a stable
      sort by count, largest first. */
  function SortByCountDesc<T>(ps: seq<(T, nat)>): (r: seq<(T, nat)>)
    ensures NonIncreasing(r)
    ensures |r| == |ps|
    ensures multiset(r) == multiset(ps)
  {
    if |ps| == 0 then []
    else
      assert ps == [ps[0]] + ps[1..];
      InsertDesc(ps[0], SortByCountDesc(ps[1..]))
  }

  function MaxCount<T>(ps: seq<(T, nat)>): (m: nat)
    requires |ps| > 0
    ensures forall i :: 0 <= i < |ps| ==> ps[i].1 <= m
    ensures exists i :: 0 <= i < |ps| && ps[i].1 == m
  {
    if |ps| == 1 then ps[0].1
    else
      var m := MaxCount(ps[1..]);
      assert forall i :: 1 <= i < |ps| ==> ps[i] == ps[1..][i - 1];
      if ps[0].1 >= m then ps[0].1 else m
  }

  /** Index of the first element with the largest count. */
  function FirstMax<T>(ps: seq<(T, nat)>): (r: nat)
    requires |ps| > 0
    ensures r < |ps| && ps[r].1 == MaxCount(ps)
    ensures forall i :: 0 <= i < r ==> ps[i].1 < MaxCount(ps)
  {
    if |ps| == 1 || ps[0].1 >= MaxCount(ps[1..]) then 0
    else
      var j := FirstMax(ps[1..]);
      assert forall i :: 1 <= i < |ps| ==> ps[i] == ps[1..][i - 1];
      1 + j
  }

  /** Stability at the top: the head of the sorted sequence is the first
      element with the largest count. */
  lemma {:induction false} SortHeadIsFirstMax<T>(ps: seq<(T, nat)>)
    requires |ps| > 0
    ensures SortByCountDesc(ps)[0] == ps[FirstMax(ps)]
  {
    if |ps| > 1 {
      var rest := ps[1..];
      var s := SortByCountDesc(rest);
      SortHeadIsFirstMax(rest);
      assert s[0].1 == MaxCount(rest);
      assert rest[FirstMax(rest)] == ps[1 + FirstMax(rest)];
    }
  }

  /** The first n of a stable sort by count: as many as there are (at most
      n), counts never increasing, each one of the input, and, when any, the
      first is the first element with the largest count. */
  lemma TopOfSorted<T>(ps: seq<(T, nat)>, n: nat)
    ensures |TakeFirst(SortByCountDesc(ps), n)| == (if |ps| <= n then |ps| else n)
    ensures NonIncreasing(TakeFirst(SortByCountDesc(ps), n))
    ensures var top := TakeFirst(SortByCountDesc(ps), n);
            forall i :: 0 <= i < |top| ==> top[i] in ps
    ensures |ps| > 0 && n > 0 ==> TakeFirst(SortByCountDesc(ps), n)[0] == ps[FirstMax(ps)]
  {
    var sorted := SortByCountDesc(ps);
    var top := TakeFirst(sorted, n);
    forall i, j | 0 <= i < j < |top| ensures top[i].1 >= top[j].1 {
      assert top[i] == sorted[i] && top[j] == sorted[j];
    }
    forall i | 0 <= i < |top| ensures top[i] in ps {
      assert top[i] == sorted[i];
      assert top[i] in multiset(sorted);
    }
    if |ps| > 0 && n > 0 {
      SortHeadIsFirstMax(ps);
    }
  }

  /** An element left out of the first n of a stable sort by count has no
      larger count than the last one kept. */
  lemma LeftOutOfTop<T>(ps: seq<(T, nat)>, n: nat, p: (T, nat))
    requires n > 0 && p in ps && p !in TakeFirst(SortByCountDesc(ps), n)
    ensures var top := TakeFirst(SortByCountDesc(ps), n);
            |top| > 0 && p.1 <= top[|top| - 1].1
  {
    var sorted := SortByCountDesc(ps);
    var top := TakeFirst(sorted, n);
    assert p in multiset(sorted);
    var j :| 0 <= j < |sorted| && sorted[j] == p;
    assert top == sorted[..|top|];
    assert |top| <= j;
    assert sorted[|top| - 1] == top[|top| - 1];
  }
}
