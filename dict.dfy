/**
  Python dictionaries as the flattener uses them: insertion-ordered maps
  from strings to strings, kept as association lists. Attribute maps of
  parsed XML elements and the emitted rows both have this shape.
*/
module Dict {
  import opened Wrappers

  type Row = seq<(string, string)>

  /** The keys in insertion order. */
  function Keys(r: Row): seq<string> {
    seq(|r|, i requires 0 <= i < |r| => r[i].0)
  }

  predicate HasKey(r: Row, k: string) {
    k in Keys(r)
  }

  predicate Distinct(ks: seq<string>) {
    forall i, j :: 0 <= i < j < |ks| ==> ks[i] != ks[j]
  }

  /** `r.get(k)`: the value stored under the first occurrence of `k`. */
  function Get(r: Row, k: string): (v: Option<string>)
    ensures v.Some? <==> HasKey(r, k)
  {
    if r == [] then None
    else if r[0].0 == k then
      assert Keys(r)[0] == k;
      Some(r[0].1)
    else
      assert Keys(r) == [r[0].0] + Keys(r[1..]);
      Get(r[1..], k)
  }

  /** The value stored under the last occurrence of `k`: what a dict literal keeps. */
  function LastValue(r: Row, k: string): (v: Option<string>)
    ensures v.Some? <==> HasKey(r, k)
  {
    if r == [] then None
    else if r[|r| - 1].0 == k then
      assert Keys(r)[|r| - 1] == k;
      Some(r[|r| - 1].1)
    else
      assert Keys(r) == Keys(r[..|r| - 1]) + [r[|r| - 1].0];
      LastValue(r[..|r| - 1], k)
  }

  /** `r[k] = v`. */
  function Put(r: Row, k: string, v: string): Row {
    if r == [] then [(k, v)]
    else if r[0].0 == k then [(k, v)] + r[1..]
    else [r[0]] + Put(r[1..], k, v)
  }

  /** After `r[k] = v` an existing key keeps its position and a new key goes last. */
  lemma {:induction false} PutKeys(r: Row, k: string, v: string)
    ensures Keys(Put(r, k, v)) == if HasKey(r, k) then Keys(r) else Keys(r) + [k]
  {
    if r != [] {
      assert Keys(r) == [r[0].0] + Keys(r[1..]);
      if r[0].0 != k {
        PutKeys(r[1..], k, v);
        assert Keys([r[0]] + Put(r[1..], k, v)) == [r[0].0] + Keys(Put(r[1..], k, v));
      }
    }
  }

  /** After `r[k] = v` the key `k` maps to `v` and every other key to what it did before. */
  lemma {:induction false} PutLookup(r: Row, k: string, v: string)
    ensures Get(Put(r, k, v), k) == Some(v)
    ensures forall k' :: k' != k ==> Get(Put(r, k, v), k') == Get(r, k')
  {
    if r != [] && r[0].0 != k {
      PutLookup(r[1..], k, v);
      assert Put(r, k, v)[1..] == Put(r[1..], k, v);
    }
  }

  /**
    `{**base, **overlay}`: every key of `overlay`, in order, written over
    `base`.
  */
  function Merge(base: Row, overlay: Row): Row {
    if overlay == [] then base
    else Put(Merge(base, overlay[..|overlay| - 1]), overlay[|overlay| - 1].0, overlay[|overlay| - 1].1)
  }

  /**
    A merged map answers from `overlay` where it has the key, the later
    write winning, and from `base` elsewhere.
  */
  lemma {:induction false} MergeLookup(base: Row, overlay: Row)
    ensures forall k :: Get(Merge(base, overlay), k) == if HasKey(overlay, k) then LastValue(overlay, k) else Get(base, k)
  {
    if overlay != [] {
      var last := overlay[|overlay| - 1];
      var init := overlay[..|overlay| - 1];
      assert Keys(overlay) == Keys(init) + [last.0];
      MergeLookup(base, init);
      PutLookup(Merge(base, init), last.0, last.1);
    }
  }

  /** The keys of a merged map start with those of `base`, in their order. */
  lemma {:induction false} MergeKeepsOrder(base: Row, overlay: Row)
    ensures |Keys(base)| <= |Keys(Merge(base, overlay))|
    ensures Keys(Merge(base, overlay))[..|Keys(base)|] == Keys(base)
  {
    if overlay != [] {
      var m := Merge(base, overlay[..|overlay| - 1]);
      MergeKeepsOrder(base, overlay[..|overlay| - 1]);
      PutKeys(m, overlay[|overlay| - 1].0, overlay[|overlay| - 1].1);
      assert Keys(Merge(base, overlay))[..|Keys(m)|] == Keys(m);
      assert Keys(Merge(base, overlay))[..|Keys(base)|] == Keys(m)[..|Keys(base)|];
    }
  }

  /** A merged map has exactly the keys of both maps. */
  lemma {:induction false} MergeHasKey(base: Row, overlay: Row, k: string)
    ensures HasKey(Merge(base, overlay), k) <==> HasKey(base, k) || HasKey(overlay, k)
  {
    if overlay != [] {
      var init := overlay[..|overlay| - 1];
      assert Keys(overlay) == Keys(init) + [overlay[|overlay| - 1].0];
      MergeHasKey(base, init, k);
      PutKeys(Merge(base, init), overlay[|overlay| - 1].0, overlay[|overlay| - 1].1);
    }
  }

  /** Writing a key never repeats one. */
  lemma PutDistinct(r: Row, k: string, v: string)
    requires Distinct(Keys(r))
    ensures Distinct(Keys(Put(r, k, v)))
  {
    PutKeys(r, k, v);
  }

  /** Merging into a map without repeated keys repeats none. */
  lemma {:induction false} MergeDistinct(base: Row, overlay: Row)
    requires Distinct(Keys(base))
    ensures Distinct(Keys(Merge(base, overlay)))
  {
    if overlay != [] {
      var init := overlay[..|overlay| - 1];
      MergeDistinct(base, init);
      PutDistinct(Merge(base, init), overlay[|overlay| - 1].0, overlay[|overlay| - 1].1);
    }
  }

  /** In a map whose keys are distinct the first and the last occurrence agree. */
  lemma {:induction false} DistinctLastIsFirst(r: Row, k: string)
    requires Distinct(Keys(r))
    ensures LastValue(r, k) == Get(r, k)
  {
    if r != [] {
      var init := r[..|r| - 1];
      var last := r[|r| - 1];
      assert Keys(init) == Keys(r)[..|r| - 1];
      assert Keys(r)[|r| - 1] == last.0;
      assert forall i :: 0 <= i < |init| ==> Keys(init)[i] != last.0;
      DistinctLastIsFirst(init, k);
      GetAppend(init, last, k);
      assert init + [last] == r;
    }
  }

  lemma {:induction false} GetAppend(r: Row, e: (string, string), k: string)
    ensures Get(r + [e], k) == if HasKey(r, k) then Get(r, k) else if e.0 == k then Some(e.1) else None
  {
    if r != [] {
      assert (r + [e])[1..] == r[1..] + [e];
      assert Keys(r) == [r[0].0] + Keys(r[1..]);
      GetAppend(r[1..], e, k);
    }
  }
}
