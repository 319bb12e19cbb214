/**
  `write_csv`: the shuffled index array is cut into validation, train and
  test slices with Python's slice rules, and each slice selects rows.
*/
module Split {
  import opened Wrappers
  import opened Preprocess

  /** `np.arange(n)`. */
  function Range(n: nat): (r: seq<nat>)
    ensures |r| == n && forall i :: 0 <= i < n ==> r[i] == i
  {
    seq(n, i requires 0 <= i < n => i)
  }

  /** `idx` holds each of `0 .. n-1` exactly once: what `np.random.shuffle` leaves in it. */
  predicate IsPermutation(idx: seq<nat>, n: nat) {
    multiset(idx) == multiset(Range(n))
  }

  lemma {:induction false} RangeMultiplicity(n: nat, x: nat)
    ensures multiset(Range(n))[x] == if x < n then 1 else 0
  {
    if n > 0 {
      assert Range(n) == Range(n - 1) + [n - 1];
      RangeMultiplicity(n - 1, x);
    }
  }

  lemma PermutationBounds(idx: seq<nat>, n: nat)
    requires IsPermutation(idx, n)
    ensures |idx| == n
    ensures forall i :: 0 <= i < |idx| ==> idx[i] < n
  {
    assert |multiset(idx)| == |multiset(Range(n))|;
    forall i | 0 <= i < |idx| ensures idx[i] < n {
      assert idx[i] in multiset(idx);
      RangeMultiplicity(n, idx[i]);
    }
  }

  /** `int(n * VAL_RATIO)` with the ratio 0.2 read as 2/10. */
  function ValSize(n: nat): (v: nat)
    ensures 10 * v <= 2 * n < 10 * v + 10
  {
    n * 2 / 10
  }

  /** `int(n * TEST_RATIO)` with the ratio 0.3 read as 3/10; it leaves room for the validation slice. */
  function TestSize(n: nat): (t: nat)
    ensures ValSize(n) + t <= n
    ensures t == 0 <==> n < 4
  {
    n * 3 / 10
  }

  /** Where Python puts a slice bound: negative bounds count from the end, then clamp. */
  function SliceBound(i: int, n: nat): (b: nat)
    ensures b <= n
  {
    if i < 0 then (if i + n < 0 then 0 else i + n)
    else if i > n then n
    else i
  }

  /** `s[start:stop]` with Python's rules. */
  function PySlice<T>(s: seq<T>, start: int, stop: int): seq<T> {
    var a, b := SliceBound(start, |s|), SliceBound(stop, |s|);
    if a <= b then s[a..b] else []
  }

  /** The three partitions, validation first. */
  datatype Partition<T> = Partition(val: seq<T>, train: seq<T>, test: seq<T>)

  /**
    The index slices of `write_csv`. With a test set: `idx[:val_size]` and
    `idx[val_size:]`. Without: `idx[:val_size]`, `idx[val_size:-test_size]`
    and `idx[-test_size:]`; when `test_size` is 0, `-0` is `0`, so train is
    empty and test is the whole array.
  */
  function SplitIndices(idx: seq<nat>, hasTestSet: bool): (p: Partition<nat>)
    ensures |p.val| == ValSize(|idx|)
    ensures hasTestSet ==> p.val + p.train == idx && p.test == []
    ensures !hasTestSet ==> p.val + p.train + p.test == idx
    ensures !hasTestSet && TestSize(|idx|) > 0 ==>
              |p.test| == TestSize(|idx|) && |p.train| == |idx| - ValSize(|idx|) - TestSize(|idx|)
    ensures !hasTestSet && TestSize(|idx|) == 0 ==> p.val == [] && p.train == [] && p.test == idx
  {
    var n := |idx|;
    var valSize := ValSize(n);
    var val := PySlice(idx, 0, valSize);
    if hasTestSet then
      assert idx == idx[..valSize] + idx[valSize..];
      Partition(val, PySlice(idx, valSize, n), [])
    else
      var testSize := TestSize(n);
      assert idx == idx[..valSize] + idx[valSize..n - testSize] + idx[n - testSize..];
      Partition(val, PySlice(idx, valSize, -(testSize as int)), PySlice(idx, -(testSize as int), n))
  }

  /** Two parts of a permutation share no index. */
  lemma DisjointParts(a: seq<nat>, b: seq<nat>, n: nat)
    requires IsPermutation(a + b, n)
    ensures forall x :: x in a ==> x !in b
  {
    forall x | x in a ensures x !in b {
      assert multiset(a + b) == multiset(a) + multiset(b);
      RangeMultiplicity(n, x);
    }
  }

  /** Three consecutive parts of a permutation are pairwise disjoint and hold every index. */
  lemma PartsCover(a: seq<nat>, b: seq<nat>, c: seq<nat>, n: nat)
    requires IsPermutation(a + b + c, n)
    ensures forall x :: x in a ==> x !in b && x !in c
    ensures forall x :: x in b ==> x !in c
    ensures forall x: nat :: x < n <==> x in a || x in b || x in c
    ensures |a| + |b| + |c| == n
  {
    var all := a + b + c;
    assert all == a + (b + c);
    DisjointParts(a, b + c, n);
    DisjointParts(a + b, c, n);
    PermutationBounds(all, n);
    forall x: nat | x < n ensures x in a || x in b || x in c {
      RangeMultiplicity(n, x);
      assert x in multiset(all);
    }
    forall x: nat | x in a || x in b || x in c ensures x < n {
      assert x in all;
    }
  }

  /**
    For a permutation of `0 .. n-1` the slices are pairwise disjoint and
    together hold every index; with a test set, validation and train do.
  */
  lemma SplitIsDisjointCover(idx: seq<nat>, n: nat, hasTestSet: bool)
    requires IsPermutation(idx, n)
    ensures var p := SplitIndices(idx, hasTestSet);
      && (forall x :: x in p.val ==> x !in p.train && x !in p.test)
      && (forall x :: x in p.train ==> x !in p.test)
      && (forall x: nat :: x < n <==> x in p.val || x in p.train || x in p.test)
      && |p.val| + |p.train| + |p.test| == n
  {
    var p := SplitIndices(idx, hasTestSet);
    assert p.val + p.train + p.test == idx;
    PartsCover(p.val, p.train, p.test, n);
  }

  /** `df.iloc[ix]`: the rows at the given positions, in that order. */
  function Select<T>(df: seq<T>, ix: seq<nat>): seq<T>
    requires forall i :: 0 <= i < |ix| ==> ix[i] < |df|
  {
    seq(|ix|, i requires 0 <= i < |ix| => df[ix[i]])
  }

  lemma SelectAppend<T>(df: seq<T>, a: seq<nat>, b: seq<nat>)
    requires forall i :: 0 <= i < |a| ==> a[i] < |df|
    requires forall i :: 0 <= i < |b| ==> b[i] < |df|
    ensures Select(df, a + b) == Select(df, a) + Select(df, b)
  {
  }

  /** Taking out the element at `j`. */
  lemma RemoveAt<T>(b: seq<T>, j: nat)
    requires j < |b|
    ensures multiset(b) == multiset(b[..j] + b[j + 1..]) + multiset{b[j]}
  {
    assert b == b[..j] + [b[j]] + b[j + 1..];
  }

  /** Taking the same element out of two equal multisets leaves equal multisets. */
  lemma RemoveMatching(a: seq<nat>, b: seq<nat>, j: nat)
    requires a != [] && j < |b| && b[j] == a[0]
    requires multiset(a) == multiset(b)
    ensures multiset(a[1..]) == multiset(b[..j] + b[j + 1..])
  {
    RemoveAt(a, 0);
    RemoveAt(b, j);
    assert a[..0] + a[1..] == a[1..];
    assert multiset(a[1..]) == multiset(a) - multiset{a[0]};
    assert multiset(b[..j] + b[j + 1..]) == multiset(b) - multiset{a[0]};
  }

  lemma SelectRemoveAt<T>(df: seq<T>, b: seq<nat>, j: nat)
    requires j < |b|
    requires forall i :: 0 <= i < |b| ==> b[i] < |df|
    ensures multiset(Select(df, b)) == multiset(Select(df, b[..j] + b[j + 1..])) + multiset{df[b[j]]}
  {
    var s := Select(df, b);
    assert Select(df, b[..j] + b[j + 1..]) == s[..j] + s[j + 1..];
    RemoveAt(s, j);
  }

  lemma SameMultisetBounds(a: seq<nat>, b: seq<nat>, n: nat)
    requires forall i :: 0 <= i < |a| ==> a[i] < n
    requires multiset(a) == multiset(b)
    ensures forall i :: 0 <= i < |b| ==> b[i] < n
  {
    forall i | 0 <= i < |b| ensures b[i] < n {
      assert b[i] in multiset(a);
    }
  }

  /** Selecting by two orderings of the same positions gives the same rows. */
  lemma {:induction false} SelectSameMultiset<T>(df: seq<T>, a: seq<nat>, b: seq<nat>)
    requires forall i :: 0 <= i < |a| ==> a[i] < |df|
    requires multiset(a) == multiset(b)
    ensures forall i :: 0 <= i < |b| ==> b[i] < |df|
    ensures multiset(Select(df, a)) == multiset(Select(df, b))
    decreases |a|
  {
    SameMultisetBounds(a, b, |df|);
    if a == [] {
      assert |b| == |multiset(b)| == 0;
    } else {
      var x := a[0];
      assert x in multiset(b);
      var j :| 0 <= j < |b| && b[j] == x;
      var tail, rest := a[1..], b[..j] + b[j + 1..];
      assert a[..0] + a[1..] == tail;
      assert forall i :: 0 <= i < |tail| ==> tail[i] == a[i + 1];
      RemoveMatching(a, b, j);
      SelectSameMultiset(df, tail, rest);
      SelectRemoveAt(df, a, 0);
      SelectRemoveAt(df, b, j);
    }
  }

  /** Selecting by a permutation reorders the rows and loses none. */
  lemma SelectPermutation<T>(df: seq<T>, idx: seq<nat>)
    requires IsPermutation(idx, |df|)
    ensures forall i :: 0 <= i < |idx| ==> idx[i] < |df|
    ensures multiset(Select(df, idx)) == multiset(df)
  {
    PermutationBounds(idx, |df|);
    var all := Range(|df|);
    SelectSameMultiset(df, all, idx);
    assert Select(df, all) == df;
  }

  /** Rows selected by consecutive slices of a permutation are the table, reordered. */
  lemma SelectSlices<T>(df: seq<T>, a: seq<nat>, b: seq<nat>, c: seq<nat>)
    requires IsPermutation(a + b + c, |df|)
    ensures forall i :: 0 <= i < |a| ==> a[i] < |df|
    ensures forall i :: 0 <= i < |b| ==> b[i] < |df|
    ensures forall i :: 0 <= i < |c| ==> c[i] < |df|
    ensures multiset(Select(df, a) + Select(df, b) + Select(df, c)) == multiset(df)
  {
    var all := a + b + c;
    PermutationBounds(all, |df|);
    assert forall i :: 0 <= i < |a| ==> a[i] == all[i];
    assert forall i :: 0 <= i < |b| ==> b[i] == all[|a| + i];
    assert forall i :: 0 <= i < |c| ==> c[i] == all[|a| + |b| + i];
    SelectPermutation(df, all);
    SelectAppend(df, a, b);
    SelectAppend(df, a + b, c);
  }

  /**
    `write_csv` without the file output: the partitions it writes. `idx` is
    the index array after `np.random.shuffle`.
  */
  method WriteCsv(df: seq<Record>, testDf: Option<seq<Record>>, idx: array<nat>) returns (p: Partition<Record>)
    requires IsPermutation(idx[..], |df|)
    ensures idx.Length == |df| && forall i :: 0 <= i < idx.Length ==> idx[i] < |df|
    ensures |p.val| == ValSize(|df|)
    ensures p.val == Select(df, idx[..ValSize(|df|)])
    ensures testDf.None? ==> multiset(p.val + p.train + p.test) == multiset(df)
    ensures testDf.None? && TestSize(|df|) > 0 ==>
              && p.train == Select(df, idx[ValSize(|df|)..|df| - TestSize(|df|)])
              && p.test == Select(df, idx[|df| - TestSize(|df|)..])
    ensures testDf.None? && TestSize(|df|) == 0 ==>
              p.val == [] && p.train == [] && p.test == Select(df, idx[..])
    ensures testDf.Some? ==> p.train == Select(df, idx[ValSize(|df|)..])
    ensures testDf.Some? ==> multiset(p.val + p.train) == multiset(df) && p.test == testDf.value
  {
    var order := idx[..];
    PermutationBounds(order, |df|);
    var slices := SplitIndices(order, testDf.Some?);
    SelectSlices(df, slices.val, slices.train, slices.test);
    assert order[..ValSize(|df|)] == slices.val;
    var val := Select(df, slices.val);
    var train := Select(df, slices.train);
    if testDf == None {
      if TestSize(|df|) > 0 {
        assert order[ValSize(|df|)..|df| - TestSize(|df|)] == slices.train;
        assert order[|df| - TestSize(|df|)..] == slices.test;
      }
      p := Partition(val, train, Select(df, slices.test));
    } else {
      assert order[ValSize(|df|)..] == slices.train;
      assert Select(df, slices.test) == [];
      assert val + train + [] == val + train;
      p := Partition(val, train, testDf.value);
    }
  }
}
