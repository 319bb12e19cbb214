/**
  The row-level steps of the tabular normaliser: `preprocess_data` applied to
  every row, and the `isin(KEEPLABELS)` label filter.
*/
module Preprocess {
  import opened TextNormalise

  /**
    One row of the delimited input: the text column, the aspect column
    (`term` or `category`, whichever the run is configured for), the
    polarity column, and the values of all other columns.
  */
  datatype Record = Record(text: string, aspect: string, polarity: string, others: seq<string>)

  /** The labels kept by default. */
  const KeepLabels: seq<string> := ["1", "-1", "0", "conflict"]

  /** `preprocess_data`: both text columns rewritten, everything else untouched. */
  function PreprocessData(df: seq<Record>): (r: seq<Record>)
    ensures |r| == |df|
    ensures forall i :: 0 <= i < |r| ==> NormalForm(r[i].text) && NormalForm(r[i].aspect)
    ensures forall i :: 0 <= i < |r| ==> r[i].text == NormaliseText(df[i].text) && r[i].aspect == NormaliseAspect(df[i].aspect)
    ensures forall i :: 0 <= i < |r| ==> r[i].polarity == df[i].polarity && r[i].others == df[i].others
  {
    seq(|df|, i requires 0 <= i < |df| =>
      df[i].(text := NormaliseText(df[i].text), aspect := NormaliseAspect(df[i].aspect)))
  }

  /** Preprocessing already preprocessed rows changes nothing. */
  lemma PreprocessIdempotent(df: seq<Record>)
    ensures PreprocessData(PreprocessData(df)) == PreprocessData(df)
  {
    var once := PreprocessData(df);
    forall i | 0 <= i < |df| ensures PreprocessData(once)[i] == once[i] {
      NormaliseTextIdempotent(df[i].text);
      NormaliseAspectIdempotent(df[i].aspect);
    }
  }

  /** `df[df[polarity].isin(keep)]`: the rows whose label is listed, in order. */
  function FilterLabels(df: seq<Record>, keep: seq<string>): (r: seq<Record>)
    ensures forall i :: 0 <= i < |r| ==> r[i].polarity in keep
    ensures forall x :: multiset(r)[x] == if x.polarity in keep then multiset(df)[x] else 0
  {
    if df == [] then []
    else
      assert df == [df[0]] + df[1..];
      (if df[0].polarity in keep then [df[0]] else []) + FilterLabels(df[1..], keep)
  }

  /** The filter distributes over concatenation, so it keeps the rows' order. */
  lemma {:induction false} FilterLabelsAppend(a: seq<Record>, b: seq<Record>, keep: seq<string>)
    ensures FilterLabels(a + b, keep) == FilterLabels(a, keep) + FilterLabels(b, keep)
  {
    if a == [] {
      assert a + b == b;
    } else {
      assert (a + b)[1..] == a[1..] + b;
      FilterLabelsAppend(a[1..], b, keep);
    }
  }

  /** Rows that all carry a listed label pass the filter unchanged. */
  lemma {:induction false} FilterKeepsListed(df: seq<Record>, keep: seq<string>)
    requires forall i :: 0 <= i < |df| ==> df[i].polarity in keep
    ensures FilterLabels(df, keep) == df
  {
    if df != [] {
      FilterKeepsListed(df[1..], keep);
      assert df == [df[0]] + df[1..];
    }
  }

  /** Filtering twice with the same labels is filtering once. */
  lemma FilterLabelsIdempotent(df: seq<Record>, keep: seq<string>)
    ensures FilterLabels(FilterLabels(df, keep), keep) == FilterLabels(df, keep)
  {
    FilterKeepsListed(FilterLabels(df, keep), keep);
  }
}
