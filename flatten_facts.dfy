/**
  What the flattener's scan does to the ordinal `i`, to the two row lists
  and to the polarity labels, stated over the whole document.
*/
module FlattenFacts {
  import opened Wrappers
  import opened Dict
  import opened XmlTree
  import opened Flatten
  import Preprocess

  /** The elements the scan visits: the subtree of every sentence, in order. */
  function Stream(sentences: seq<Element>): seq<Element> {
    if sentences == [] then []
    else Stream(sentences[..|sentences| - 1]) + Iter(sentences[|sentences| - 1])
  }

  /** The number of `term` items of the last aspect-term block among `es`, if any. */
  function LastTermBlock(es: seq<Element>): Option<nat> {
    if es == [] then None
    else if es[|es| - 1].tag == "aspectTerms" then Some(|WithAttr(Iter(es[|es| - 1]), "term")|)
    else LastTermBlock(es[..|es| - 1])
  }

  /** The number of `term` items over all aspect-term blocks among `es`. */
  function TermCount(es: seq<Element>): nat {
    if es == [] then 0
    else
      var e := es[|es| - 1];
      TermCount(es[..|es| - 1]) + if e.tag == "aspectTerms" then |WithAttr(Iter(e), "term")| else 0
  }

  /** The number of `category` items over all aspect-category blocks among `es`. */
  function CategoryCount(es: seq<Element>): nat {
    if es == [] then 0
    else
      var e := es[|es| - 1];
      CategoryCount(es[..|es| - 1]) + if e.tag == "aspectCategories" then |WithAttr(Iter(e), "category")| else 0
  }

  /** Some category block with items comes before every aspect-term block. */
  predicate CategoryBeforeTerms(es: seq<Element>) {
    exists p :: 0 <= p < |es| && CategoryAt(es, p)
  }

  /** The element at `p` is a category block with items and no term block precedes it. */
  predicate CategoryAt(es: seq<Element>, p: nat)
    requires p < |es|
  {
    IsCategoryBlock(es[p]) && LastTermBlock(es[..p]).None?
  }

  predicate AllIdentified(sentences: seq<Element>) {
    forall n :: 0 <= n < |sentences| ==> HasKey(sentences[n].attrib, "id")
  }

  predicate IsPrefix(a: seq<Row>, b: seq<Row>) {
    |a| <= |b| && b[..|a|] == a
  }

  lemma PrefixTransitive(a: seq<Row>, b: seq<Row>, c: seq<Row>)
    requires IsPrefix(a, b) && IsPrefix(b, c)
    ensures IsPrefix(a, c)
  {
    assert c[..|a|] == c[..|b|][..|a|];
  }

  lemma {:induction false} LastTermBlockAppend(a: seq<Element>, b: seq<Element>)
    ensures LastTermBlock(a + b) == if LastTermBlock(b).Some? then LastTermBlock(b) else LastTermBlock(a)
  {
    if b == [] {
      assert a + b == a;
    } else {
      assert (a + b)[..|a + b| - 1] == a + b[..|b| - 1];
      LastTermBlockAppend(a, b[..|b| - 1]);
    }
  }

  lemma {:induction false} CountsAppend(a: seq<Element>, b: seq<Element>)
    ensures TermCount(a + b) == TermCount(a) + TermCount(b)
    ensures CategoryCount(a + b) == CategoryCount(a) + CategoryCount(b)
  {
    if b == [] {
      assert a + b == a;
    } else {
      assert (a + b)[..|a + b| - 1] == a + b[..|b| - 1];
      CountsAppend(a, b[..|b| - 1]);
    }
  }

  /**
    Scanning one sentence leaves the ordinal of its last aspect-term block
    (or the one it started with), and only appends rows: one per `term`
    item and one per `category` item.
  */
  lemma {:induction false} ScanSentenceEffect(st: Scan, sid: string, es: seq<Element>)
    requires ScanSentence(st, sid, es).Ok?
    ensures var r := ScanSentence(st, sid, es).value;
      && r.ordinal == (if LastTermBlock(es).Some? then LastTermBlock(es) else st.ordinal)
      && |r.terms| == |st.terms| + TermCount(es) && IsPrefix(st.terms, r.terms)
      && |r.categories| == |st.categories| + CategoryCount(es) && IsPrefix(st.categories, r.categories)
  {
    if es != [] {
      var init := es[..|es| - 1];
      ScanSentenceEffect(st, sid, init);
      var mid := ScanSentence(st, sid, init).value;
      var r := ScanSentence(st, sid, es).value;
      assert r.terms[..|mid.terms|] == mid.terms;
      assert r.categories[..|mid.categories|] == mid.categories;
      PrefixTransitive(st.terms, mid.terms, r.terms);
      PrefixTransitive(st.categories, mid.categories, r.categories);
    }
  }

  /**
    After the whole run the ordinal `i` is the item count of the last
    aspect-term block in the document, whichever sentence it belongs to,
    and there is one term row per `term` item and one category row per
    `category` item.
  */
  lemma {:induction false} ScanSentencesEffect(sentences: seq<Element>)
    requires ScanSentences(sentences).Ok?
    ensures var r := ScanSentences(sentences).value;
      && r.ordinal == LastTermBlock(Stream(sentences))
      && |r.terms| == TermCount(Stream(sentences))
      && |r.categories| == CategoryCount(Stream(sentences))
  {
    if sentences != [] {
      var init := sentences[..|sentences| - 1];
      var last := sentences[|sentences| - 1];
      ScanSentencesEffect(init);
      var sid := Get(last.attrib, "id").value;
      ScanSentenceEffect(ScanSentences(init).value, sid, Iter(last));
      LastTermBlockAppend(Stream(init), Iter(last));
      CountsAppend(Stream(init), Iter(last));
    }
  }

  /** Rows are only ever appended: the rows of a prefix of the sentences stay as they were. */
  lemma {:induction false} ScanSentencesAppendOnly(sentences: seq<Element>, m: nat)
    requires m <= |sentences| && ScanSentences(sentences).Ok?
    ensures ScanSentences(sentences[..m]).Ok?
    ensures IsPrefix(ScanSentences(sentences[..m]).value.terms, ScanSentences(sentences).value.terms)
    ensures IsPrefix(ScanSentences(sentences[..m]).value.categories, ScanSentences(sentences).value.categories)
    decreases |sentences| - m
  {
    assert sentences[..|sentences|] == sentences;
    if m < |sentences| {
      var init := sentences[..|sentences| - 1];
      var last := sentences[|sentences| - 1];
      var sid := Get(last.attrib, "id").value;
      var mid := ScanSentences(init).value;
      ScanSentenceEffect(mid, sid, Iter(last));
      var r := ScanSentences(sentences).value;
      assert init[..m] == sentences[..m];
      ScanSentencesAppendOnly(init, m);
      var pre := ScanSentences(sentences[..m]).value;
      PrefixTransitive(pre.terms, mid.terms, r.terms);
      PrefixTransitive(pre.categories, mid.categories, r.categories);
    }
  }

  lemma CategoryAtAppend(a: seq<Element>, b: seq<Element>, p: nat)
    requires p < |a| + |b|
    ensures p < |a| ==> (CategoryAt(a + b, p) <==> CategoryAt(a, p))
    ensures p >= |a| ==> (CategoryAt(a + b, p) <==> LastTermBlock(a).None? && CategoryAt(b, p - |a|))
  {
    if p < |a| {
      assert (a + b)[..p] == a[..p];
    } else {
      assert (a + b)[..p] == a + b[..p - |a|];
      LastTermBlockAppend(a, b[..p - |a|]);
    }
  }

  /** A category block with items precedes every term block in `a + b` exactly when it does in `a`, or `a` has no term block and it does in `b`. */
  lemma CategoryBeforeTermsAppend(a: seq<Element>, b: seq<Element>)
    ensures CategoryBeforeTerms(a + b) <==> CategoryBeforeTerms(a) || (LastTermBlock(a).None? && CategoryBeforeTerms(b))
  {
    if CategoryBeforeTerms(a + b) {
      var p :| 0 <= p < |a + b| && CategoryAt(a + b, p);
      CategoryAtAppend(a, b, p);
      if p >= |a| {
        assert CategoryAt(b, p - |a|);
      }
    }
    if CategoryBeforeTerms(a) {
      var p :| 0 <= p < |a| && CategoryAt(a, p);
      CategoryAtAppend(a, b, p);
    } else if LastTermBlock(a).None? && CategoryBeforeTerms(b) {
      var q :| 0 <= q < |b| && CategoryAt(b, q);
      CategoryAtAppend(a, b, |a| + q);
    }
  }

  lemma CategoryBeforeTermsSingle(e: Element)
    ensures CategoryBeforeTerms([e]) <==> IsCategoryBlock(e)
  {
    assert [e][..0] == [];
    assert CategoryAt([e], 0) <==> IsCategoryBlock(e);
  }

  /**
    Scanning a sentence fails exactly when the ordinal is still unbound and
    a category block with items comes before the sentence's first term block.
  */
  lemma {:induction false} ScanSentenceUnbound(st: Scan, sid: string, es: seq<Element>)
    ensures ScanSentence(st, sid, es).Err? <==> st.ordinal.None? && CategoryBeforeTerms(es)
    ensures ScanSentence(st, sid, es).Err? ==> ScanSentence(st, sid, es).error == UnboundOrdinal
  {
    if es != [] {
      var init := es[..|es| - 1];
      var e := es[|es| - 1];
      assert init + [e] == es;
      ScanSentenceUnbound(st, sid, init);
      CategoryBeforeTermsAppend(init, [e]);
      CategoryBeforeTermsSingle(e);
      if ScanSentence(st, sid, init).Ok? {
        ScanSentenceEffect(st, sid, init);
      }
    }
  }

  /**
    When every sentence has an id, the loop over the sentences fails exactly
    when, in document order, a category block with items comes before any
    aspect-term block, and then with the unbound-ordinal error. (Writing the
    tables afterwards can still fail; see `RemapColumnLookup`.)
  */
  lemma {:induction false} ScanSentencesUnbound(sentences: seq<Element>)
    requires AllIdentified(sentences)
    ensures ScanSentences(sentences).Err? <==> CategoryBeforeTerms(Stream(sentences))
    ensures ScanSentences(sentences).Err? ==> ScanSentences(sentences).error == UnboundOrdinal
  {
    if sentences != [] {
      var init := sentences[..|sentences| - 1];
      var last := sentences[|sentences| - 1];
      assert AllIdentified(init) by {
        forall n | 0 <= n < |init| ensures HasKey(init[n].attrib, "id") {
          assert init[n] == sentences[n];
        }
      }
      ScanSentencesUnbound(init);
      CategoryBeforeTermsAppend(Stream(init), Iter(last));
      var sid := Get(last.attrib, "id").value;
      if ScanSentences(init).Ok? {
        ScanSentencesEffect(init);
        ScanSentenceUnbound(ScanSentences(init).value, sid, Iter(last));
      }
    }
  }

  /** A sentence without an id stops the conversion unless an earlier sentence already did. */
  lemma MissingIdFails(sentences: seq<Element>, n: nat)
    requires n < |sentences| && !HasKey(sentences[n].attrib, "id")
    ensures ScanSentences(sentences).Err?
  {
    assert sentences[..n + 1][..n] == sentences[..n];
    assert sentences[..n + 1][n] == sentences[n];
    ScanSentencesErrPersists(sentences, n + 1);
  }

  /** The text of the last `text` element among `visited`, if any. */
  function LastText(visited: seq<Element>): Option<string> {
    if visited == [] then None
    else if visited[|visited| - 1].tag == "text" then Some(visited[|visited| - 1].text)
    else LastText(visited[..|visited| - 1])
  }

  /** The sentence dict holds its id under `sid` and the latest text under `text`. */
  lemma {:induction false} SentenceFieldsLookup(sid: string, visited: seq<Element>)
    ensures Get(SentenceFields(sid, visited), "sid") == Some(sid)
    ensures Get(SentenceFields(sid, visited), "text") == LastText(visited)
  {
    if visited != [] {
      var init := visited[..|visited| - 1];
      var e := visited[|visited| - 1];
      SentenceFieldsLookup(sid, init);
      if e.tag == "text" {
        PutLookup(SentenceFields(sid, init), "text", e.text);
      }
    }
  }

  /** The sentence dict has the column `sid`, then `text` once a text element was seen, and no other. */
  lemma {:induction false} SentenceFieldsKeys(sid: string, visited: seq<Element>)
    ensures Keys(SentenceFields(sid, visited)) == if LastText(visited).Some? then ["sid", "text"] else ["sid"]
  {
    if visited != [] {
      var init := visited[..|visited| - 1];
      var e := visited[|visited| - 1];
      SentenceFieldsKeys(sid, init);
      if e.tag == "text" {
        PutKeys(SentenceFields(sid, init), "text", e.text);
      }
    }
  }

  /**
    A row answers with the annotation's own attribute where it has one,
    then with the synthesised `aid`, then with the sentence's fields.
  */
  lemma BuildRowLookup(s: Row, aid: string, attrib: Row, key: string)
    ensures Get(BuildRow(s, aid, attrib), key)
            == if HasKey(attrib, key) then LastValue(attrib, key)
               else if key == "aid" then Some(aid)
               else Get(s, key)
  {
    PutLookup(s, "aid", aid);
    MergeLookup(Put(s, "aid", aid), attrib);
  }

  /** A row's columns start with the sentence's, in order, and repeat none. */
  lemma BuildRowKeys(s: Row, aid: string, attrib: Row)
    requires Distinct(Keys(s))
    ensures |Keys(s)| <= |Keys(BuildRow(s, aid, attrib))|
    ensures Keys(BuildRow(s, aid, attrib))[..|Keys(s)|] == Keys(s)
    ensures Distinct(Keys(BuildRow(s, aid, attrib)))
  {
    var m := Put(s, "aid", aid);
    PutKeys(s, "aid", aid);
    PutDistinct(s, "aid", aid);
    MergeKeepsOrder(m, attrib);
    MergeDistinct(m, attrib);
    assert Keys(BuildRow(s, aid, attrib))[..|Keys(s)|] == Keys(BuildRow(s, aid, attrib))[..|Keys(m)|][..|Keys(s)|];
  }

  /**
    One aspect-term block yields one row per item carrying a `term`, in
    order; the k-th gets the id `sid-(k+1)` unless the item sets its own `aid`.
  */
  lemma TermBlockNumbering(s: Row, sid: string, items: seq<Element>, k: nat)
    requires k < |WithAttr(items, "term")|
    ensures |TermBlockRows(s, sid, items)| == |WithAttr(items, "term")|
    ensures var t := WithAttr(items, "term")[k];
      && Get(TermBlockRows(s, sid, items)[k], "term") == LastValue(t.attrib, "term")
      && Get(TermBlockRows(s, sid, items)[k], "aid")
         == if HasKey(t.attrib, "aid") then LastValue(t.attrib, "aid") else Some(AnnotationId(sid, k + 1))
  {
    var t := WithAttr(items, "term")[k];
    var aid := AnnotationId(sid, k + 1);
    TermRowsAt(s, sid, WithAttr(items, "term"), k);
    BuildRowLookup(s, aid, t.attrib, "term");
    BuildRowLookup(s, aid, t.attrib, "aid");
  }

  /** One aspect-category block yields one row per item carrying a `category`, all with the same id. */
  lemma CategoryBlockSharedId(s: Row, aid: string, items: seq<Element>, k: nat)
    requires k < |WithAttr(items, "category")|
    ensures |CategoryBlockRows(s, aid, items)| == |WithAttr(items, "category")|
    ensures var c := WithAttr(items, "category")[k];
      && Get(CategoryBlockRows(s, aid, items)[k], "category") == LastValue(c.attrib, "category")
      && Get(CategoryBlockRows(s, aid, items)[k], "aid")
         == if HasKey(c.attrib, "aid") then LastValue(c.attrib, "aid") else Some(aid)
  {
    var c := WithAttr(items, "category")[k];
    CategoryRowsAt(s, aid, WithAttr(items, "category"), k);
    BuildRowLookup(s, aid, c.attrib, "category");
    BuildRowLookup(s, aid, c.attrib, "aid");
  }

  /** The polarity replacement is idempotent. */
  lemma PolarityCodeIdempotent(p: string)
    ensures PolarityCode(PolarityCode(p)) == PolarityCode(p)
  {
  }

  lemma {:induction false} RemapRowIdempotent(row: Row)
    ensures RemapRow(RemapRow(row)) == RemapRow(row)
  {
    if row != [] {
      RemapRowIdempotent(row[1..]);
      PolarityCodeIdempotent(row[0].1);
    }
  }

  /** Rewriting the labels of a rewritten table changes nothing. */
  lemma RemapColumnIdempotent(rows: seq<Row>)
    requires RemapColumn(rows).Ok?
    ensures RemapColumn(RemapColumn(rows).value) == RemapColumn(rows)
  {
    var t := RemapColumn(rows).value;
    var i :| 0 <= i < |rows| && HasKey(rows[i], "polarity");
    RemapRowLookup(rows[i]);
    assert HasKey(t[i], "polarity");
    forall n | 0 <= n < |t| ensures RemapRow(t[n]) == t[n] {
      RemapRowIdempotent(rows[n]);
    }
    assert seq(|t|, n requires 0 <= n < |t| => RemapRow(t[n])) == t;
  }

  /**
    The table step fails exactly when no row has a `polarity`; otherwise
    every row keeps its columns and values except the coded polarity.
  */
  lemma RemapColumnLookup(rows: seq<Row>)
    ensures RemapColumn(rows).Err? <==> forall i :: 0 <= i < |rows| ==> !HasKey(rows[i], "polarity")
    ensures RemapColumn(rows).Ok? ==>
              && |RemapColumn(rows).value| == |rows|
              && forall i, k :: 0 <= i < |rows| ==>
                   Get(RemapColumn(rows).value[i], k)
                   == if k != "polarity" then Get(rows[i], k)
                      else match Get(rows[i], k)
                           case None => None
                           case Some(p) => Some(PolarityCode(p))
  {
    forall i | 0 <= i < |rows| {
      RemapRowLookup(rows[i]);
    }
  }

  /**
    After the replacement, the labels the tabular stage keeps are exactly
    those of annotations labelled negative, positive, neutral or conflict,
    or already carrying a code.
  */
  lemma CodedLabelsKept(p: string)
    ensures PolarityCode(p) in Preprocess.KeepLabels
            <==> p in ["negative", "positive", "neutral", "conflict", "-1", "1", "0"]
  {
  }
}
