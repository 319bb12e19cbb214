/**
  The SemEval-2014 XML flattener: every `sentence` element of the document
  becomes one row per aspect-term annotation and one row per
  aspect-category annotation, each row the sentence's fields merged with
  an annotation id and the annotation's own attributes; afterwards the
  polarity labels of both tables are rewritten to numeric codes.
*/
module Flatten {
  import opened Wrappers
  import opened Dict
  import opened XmlTree

  /** The exceptions the conversion can raise. */
  datatype ConvertError =
    | MissingSentenceId   // a `sentence` element without an `id` attribute (KeyError)
    | UnboundOrdinal      // a category annotation before any aspect-term block (UnboundLocalError)
    | NoPolarityColumn    // a table none of whose rows has a `polarity` (AttributeError)

  function DigitChar(d: nat): char
    requires d < 10
  {
    "0123456789"[d]
  }

  /** `str(n)` for a natural number. */
  function NatToString(n: nat): string {
    if n < 10 then [DigitChar(n)] else NatToString(n / 10) + [DigitChar(n % 10)]
  }

  /** The value of a string of decimal digits, read as `int(s)` does. */
  function DigitsValue(s: string): int {
    if s == [] then 0 else DigitsValue(s[..|s| - 1]) * 10 + (s[|s| - 1] as int - '0' as int)
  }

  /** `int(str(n)) == n`. */
  lemma {:induction false} NatToStringRoundTrip(n: nat)
    ensures DigitsValue(NatToString(n)) == n
  {
    if n < 10 {
      assert [DigitChar(n)][..0] == [];
    } else {
      var init := NatToString(n / 10);
      NatToStringRoundTrip(n / 10);
      assert (init + [DigitChar(n % 10)])[..|init|] == init;
    }
  }

  /** Different ordinals of one sentence give different annotation ids. */
  lemma AnnotationIdInjective(sid: string, i: nat, j: nat)
    requires AnnotationId(sid, i) == AnnotationId(sid, j)
    ensures i == j
  {
    var prefix := sid + "-";
    assert NatToString(i) == AnnotationId(sid, i)[|prefix|..];
    assert NatToString(j) == AnnotationId(sid, j)[|prefix|..];
    NatToStringRoundTrip(i);
    NatToStringRoundTrip(j);
  }

  /** The annotation id `sid + '-' + str(i)`. */
  function AnnotationId(sid: string, i: nat): string {
    sid + "-" + NatToString(i)
  }

  /**
    `{**s, **{'aid': aid}, **attrib}`: merging the one-entry dict is
    writing `aid` into a copy of `s`.
  */
  function BuildRow(s: Row, aid: string, attrib: Row): Row {
    Merge(Put(s, "aid", aid), attrib)
  }

  /** The sentence dict after the elements `visited` of the sentence's subtree. */
  function SentenceFields(sid: string, visited: seq<Element>): Row {
    if visited == [] then [("sid", sid)]
    else
      var s := SentenceFields(sid, visited[..|visited| - 1]);
      var e := visited[|visited| - 1];
      if e.tag == "text" then Put(s, "text", e.text) else s
  }

  /** One row per element of `terms`, the k-th numbered `sid-(k+1)`. */
  function TermRows(s: Row, sid: string, terms: seq<Element>): (rows: seq<Row>)
    ensures |rows| == |terms|
  {
    if terms == [] then []
    else TermRows(s, sid, terms[..|terms| - 1]) + [BuildRow(s, AnnotationId(sid, |terms|), terms[|terms| - 1].attrib)]
  }

  /** The rows of one aspect-term block: the items carrying a `term`, numbered from 1. */
  function TermBlockRows(s: Row, sid: string, items: seq<Element>): seq<Row> {
    TermRows(s, sid, WithAttr(items, "term"))
  }

  /** One row per element of `categories`, all with the annotation id `aid`. */
  function CategoryRows(s: Row, aid: string, categories: seq<Element>): (rows: seq<Row>)
    ensures |rows| == |categories|
  {
    if categories == [] then []
    else CategoryRows(s, aid, categories[..|categories| - 1]) + [BuildRow(s, aid, categories[|categories| - 1].attrib)]
  }

  /** The rows of one aspect-category block: the items carrying a `category`. */
  function CategoryBlockRows(s: Row, aid: string, items: seq<Element>): seq<Row> {
    CategoryRows(s, aid, WithAttr(items, "category"))
  }

  /**
    The state carried through the document: the term ordinal `i`
    (unbound until the first aspect-term block) and the two row lists.
  */
  datatype Scan = Scan(ordinal: Option<nat>, terms: seq<Row>, categories: seq<Row>)

  const Start := Scan(None, [], [])

  predicate IsCategoryBlock(e: Element) {
    e.tag == "aspectCategories" && WithAttr(Iter(e), "category") != []
  }

  /** One step of the loop over a sentence's subtree, with `s` the sentence dict so far. */
  function VisitElement(st: Scan, sid: string, s: Row, e: Element): Result<Scan, ConvertError> {
    if e.tag == "text" then Ok(st)
    else if e.tag == "aspectTerms" then
      var items := Iter(e);
      Ok(Scan(Some(|WithAttr(items, "term")|), st.terms + TermBlockRows(s, sid, items), st.categories))
    else if e.tag == "aspectCategories" then
      var items := Iter(e);
      if WithAttr(items, "category") == [] then Ok(st)
      else if st.ordinal.None? then Err(UnboundOrdinal)
      else Ok(st.(categories := st.categories + CategoryBlockRows(s, AnnotationId(sid, st.ordinal.value), items)))
    else Ok(st)
  }

  /** The loop over the elements `es` of the sentence with id `sid`, starting from `st`. */
  function ScanSentence(st: Scan, sid: string, es: seq<Element>): Result<Scan, ConvertError> {
    if es == [] then Ok(st)
    else
      var init := es[..|es| - 1];
      match ScanSentence(st, sid, init)
      case Err(err) => Err(err)
      case Ok(st') => VisitElement(st', sid, SentenceFields(sid, init), es[|es| - 1])
  }

  /** The loop over the sentences. */
  function ScanSentences(sentences: seq<Element>): Result<Scan, ConvertError> {
    if sentences == [] then Ok(Start)
    else
      var init := sentences[..|sentences| - 1];
      var last := sentences[|sentences| - 1];
      match ScanSentences(init)
      case Err(err) => Err(err)
      case Ok(st) =>
        match Get(last.attrib, "id")
        case None => Err(MissingSentenceId)
        case Some(sid) => ScanSentence(st, sid, Iter(last))
  }

  function Sentences(root: Element): seq<Element> {
    IterTag(root, "sentence")
  }

  /** The two row lists built from the document rooted at `root`. */
  function ScanDocument(root: Element): Result<Scan, ConvertError> {
    ScanSentences(Sentences(root))
  }

  /** The polarity replacement: the three SemEval labels become numeric codes, anything else stays. */
  function PolarityCode(p: string): string {
    if p == "negative" then "-1"
    else if p == "positive" then "1"
    else if p == "neutral" then "0"
    else p
  }

  /** A row with its `polarity` value replaced. */
  function RemapRow(row: Row): Row {
    if row == [] then []
    else [if row[0].0 == "polarity" then (row[0].0, PolarityCode(row[0].1)) else row[0]] + RemapRow(row[1..])
  }

  /** Rewriting the polarity keeps every column, every other value, and codes the polarity. */
  lemma {:induction false} RemapRowLookup(row: Row)
    ensures Keys(RemapRow(row)) == Keys(row)
    ensures forall k :: k != "polarity" ==> Get(RemapRow(row), k) == Get(row, k)
    ensures Get(RemapRow(row), "polarity") == match Get(row, "polarity")
                                              case None => None
                                              case Some(p) => Some(PolarityCode(p))
  {
    if row != [] {
      RemapRowLookup(row[1..]);
      assert Keys(row) == [row[0].0] + Keys(row[1..]);
      assert Keys(RemapRow(row)) == [row[0].0] + Keys(RemapRow(row[1..]));
    }
  }

  predicate HasPolarityColumn(rows: seq<Row>) {
    exists i :: 0 <= i < |rows| && HasKey(rows[i], "polarity")
  }

  /** The table after `df.polarity.replace(...)`: fails when there is no polarity column. */
  function RemapColumn(rows: seq<Row>): Result<seq<Row>, ConvertError> {
    if !HasPolarityColumn(rows) then Err(NoPolarityColumn)
    else Ok(seq(|rows|, i requires 0 <= i < |rows| => RemapRow(rows[i])))
  }

  /** The whole conversion: the term table is written before the category table. */
  function Converted(root: Element): Result<(seq<Row>, seq<Row>), ConvertError> {
    match ScanDocument(root)
    case Err(err) => Err(err)
    case Ok(st) =>
      match RemapColumn(st.terms)
      case Err(err) => Err(err)
      case Ok(terms) =>
        match RemapColumn(st.categories)
        case Err(err) => Err(err)
        case Ok(categories) => Ok((terms, categories))
  }

  /** The in-place polarity replacement on the table's rows. */
  method RemapPolarities(table: array<Row>)
    modifies table
    ensures forall i :: 0 <= i < table.Length ==> table[i] == RemapRow(old(table[i]))
  {
    var n := 0;
    while n < table.Length
      invariant 0 <= n <= table.Length
      invariant forall i :: 0 <= i < n ==> table[i] == RemapRow(old(table[i]))
      invariant forall i :: n <= i < table.Length ==> table[i] == old(table[i])
    {
      table[n] := RemapRow(table[n]);
      n := n + 1;
    }
  }

  /** Builds the table from the rows and replaces its polarity labels. */
  method WriteOut(rows: seq<Row>) returns (res: Result<seq<Row>, ConvertError>)
    ensures res == RemapColumn(rows)
  {
    if !HasPolarityColumn(rows) {
      return Err(NoPolarityColumn);
    }
    var table := new Row[|rows|](i requires 0 <= i < |rows| => rows[i]);
    RemapPolarities(table);
    assert table[..] == seq(|rows|, i requires 0 <= i < |rows| => RemapRow(rows[i]));
    res := Ok(table[..]);
  }

  /** The loop over an aspect-term block: numbers the items that carry a `term`. */
  method VisitTerms(s: Row, sid: string, items: seq<Element>, terms: seq<Row>)
    returns (ordinal: nat, terms': seq<Row>)
    ensures ordinal == |WithAttr(items, "term")|
    ensures terms' == terms + TermBlockRows(s, sid, items)
  {
    ordinal := 0;
    terms' := terms;
    ghost var numbered: seq<Element> := [];
    var j := 0;
    while j < |items|
      invariant 0 <= j <= |items|
      invariant numbered == WithAttr(items[..j], "term")
      invariant ordinal == |numbered|
      invariant terms' == terms + TermRows(s, sid, numbered)
    {
      WithAttrSnoc(items, j, "term");
      if HasKey(items[j].attrib, "term") {
        ordinal := ordinal + 1;
        var row := BuildRow(s, AnnotationId(sid, ordinal), items[j].attrib);
        TermRowsSnoc(s, sid, numbered, items[j], ordinal);
        AppendAssoc(terms, TermRows(s, sid, numbered), [row]);
        numbered := numbered + [items[j]];
        terms' := terms' + [row];
      }
      j := j + 1;
    }
    assert items[..j] == items;
  }

  /**
    The loop over an aspect-category block: every item carrying a
    `category` gets the id of the current term ordinal, which must be bound.
  */
  method VisitCategories(s: Row, sid: string, ordinal: Option<nat>, items: seq<Element>, categories: seq<Row>)
    returns (res: Result<seq<Row>, ConvertError>)
    ensures WithAttr(items, "category") == [] ==> res == Ok(categories)
    ensures WithAttr(items, "category") != [] && ordinal.None? ==> res == Err(UnboundOrdinal)
    ensures ordinal.Some? ==>
              res == Ok(categories + CategoryBlockRows(s, AnnotationId(sid, ordinal.value), items))
  {
    ghost var aid := if ordinal.Some? then AnnotationId(sid, ordinal.value) else "";
    ghost var labelled: seq<Element> := [];
    var rows := categories;
    var j := 0;
    while j < |items|
      invariant 0 <= j <= |items|
      invariant labelled == WithAttr(items[..j], "category")
      invariant ordinal.None? ==> labelled == []
      invariant rows == categories + CategoryRows(s, aid, labelled)
    {
      WithAttrSnoc(items, j, "category");
      if HasKey(items[j].attrib, "category") {
        if ordinal.None? {
          WithAttrGrows(items, j + 1, "category");
          return Err(UnboundOrdinal);
        }
        var row := BuildRow(s, AnnotationId(sid, ordinal.value), items[j].attrib);
        CategoryRowsSnoc(s, aid, labelled, items[j]);
        AppendAssoc(categories, CategoryRows(s, aid, labelled), [row]);
        labelled := labelled + [items[j]];
        rows := rows + [row];
      }
      j := j + 1;
    }
    assert items[..j] == items;
    res := Ok(rows);
  }

  /** The loop over the subtree of the sentence with id `sid`. */
  method VisitSentence(st: Scan, sid: string, elems: seq<Element>) returns (res: Result<Scan, ConvertError>)
    ensures res == ScanSentence(st, sid, elems)
  {
    var s: Row := [("sid", sid)];
    var ordinal := st.ordinal;
    var terms := st.terms;
    var categories := st.categories;
    var k := 0;
    while k < |elems|
      invariant 0 <= k <= |elems|
      invariant s == SentenceFields(sid, elems[..k])
      invariant ScanSentence(st, sid, elems[..k]) == Ok(Scan(ordinal, terms, categories))
    {
      var elem := elems[k];
      assert elems[..k + 1][..k] == elems[..k];
      if elem.tag == "text" {
        s := Put(s, "text", elem.text);
      } else if elem.tag == "aspectTerms" {
        var count;
        count, terms := VisitTerms(s, sid, Iter(elem), terms);
        ordinal := Some(count);
      } else if elem.tag == "aspectCategories" {
        var visited := VisitCategories(s, sid, ordinal, Iter(elem), categories);
        if visited.Err? {
          ScanSentenceErrPersists(st, sid, elems, k + 1);
          return Err(visited.error);
        }
        categories := visited.value;
      }
      k := k + 1;
    }
    assert elems[..k] == elems;
    res := Ok(Scan(ordinal, terms, categories));
  }

  /** The loop over the document's sentences, collecting the term and the category rows. */
  method ReadSentences(root: Element) returns (res: Result<Scan, ConvertError>)
    ensures res == ScanDocument(root)
  {
    var st := Start;
    var sentences := Sentences(root);
    var n := 0;
    while n < |sentences|
      invariant 0 <= n <= |sentences|
      invariant ScanSentences(sentences[..n]) == Ok(st)
    {
      var sentence := sentences[n];
      assert sentences[..n + 1][..n] == sentences[..n];
      var id := Get(sentence.attrib, "id");
      if id.None? {
        ScanSentencesErrPersists(sentences, n + 1);
        return Err(MissingSentenceId);
      }
      var visited := VisitSentence(st, id.value, Iter(sentence));
      if visited.Err? {
        ScanSentencesErrPersists(sentences, n + 1);
        return Err(visited.error);
      }
      st := visited.value;
      n := n + 1;
    }
    assert sentences[..n] == sentences;
    res := Ok(st);
  }

  /** Reads the sentences of the document, then writes the term table and the category table. */
  method Convert(root: Element) returns (res: Result<(seq<Row>, seq<Row>), ConvertError>)
    ensures res == Converted(root)
  {
    var read := ReadSentences(root);
    if read.Err? {
      return Err(read.error);
    }
    var termTable := WriteOut(read.value.terms);
    if termTable.Err? {
      return Err(termTable.error);
    }
    var categoryTable := WriteOut(read.value.categories);
    if categoryTable.Err? {
      return Err(categoryTable.error);
    }
    res := Ok((termTable.value, categoryTable.value));
  }

  lemma {:induction false} WithAttrGrows(items: seq<Element>, j: nat, key: string)
    requires j <= |items| && WithAttr(items[..j], key) != []
    ensures WithAttr(items, key) != []
  {
    var x := WithAttr(items[..j], key)[0];
    WithAttrMembers(items[..j], key);
    WithAttrMembers(items, key);
    assert x in items[..j];
    assert x in items;
  }

  lemma WithAttrSnoc(items: seq<Element>, j: nat, key: string)
    requires j < |items|
    ensures WithAttr(items[..j + 1], key)
            == WithAttr(items[..j], key) + if HasKey(items[j].attrib, key) then [items[j]] else []
  {
    assert items[..j + 1][..j] == items[..j];
  }

  lemma AppendAssoc(a: seq<Row>, b: seq<Row>, c: seq<Row>)
    ensures a + (b + c) == (a + b) + c
  {
  }

  /** The k-th term row is numbered `k + 1`. */
  lemma {:induction false} TermRowsAt(s: Row, sid: string, terms: seq<Element>, k: nat)
    requires k < |terms|
    ensures TermRows(s, sid, terms)[k] == BuildRow(s, AnnotationId(sid, k + 1), terms[k].attrib)
  {
    if k < |terms| - 1 {
      TermRowsAt(s, sid, terms[..|terms| - 1], k);
    }
  }

  /** Every category row of a block carries the block's id. */
  lemma {:induction false} CategoryRowsAt(s: Row, aid: string, categories: seq<Element>, k: nat)
    requires k < |categories|
    ensures CategoryRows(s, aid, categories)[k] == BuildRow(s, aid, categories[k].attrib)
  {
    if k < |categories| - 1 {
      CategoryRowsAt(s, aid, categories[..|categories| - 1], k);
    }
  }

  lemma TermRowsSnoc(s: Row, sid: string, terms: seq<Element>, t: Element, i: nat)
    requires i == |terms| + 1
    ensures TermRows(s, sid, terms + [t]) == TermRows(s, sid, terms) + [BuildRow(s, AnnotationId(sid, i), t.attrib)]
  {
    assert (terms + [t])[..|terms|] == terms;
  }

  lemma CategoryRowsSnoc(s: Row, aid: string, categories: seq<Element>, c: Element)
    ensures CategoryRows(s, aid, categories + [c]) == CategoryRows(s, aid, categories) + [BuildRow(s, aid, c.attrib)]
  {
    assert (categories + [c])[..|categories|] == categories;
  }

  lemma {:induction false} ScanSentenceErrPersists(st: Scan, sid: string, es: seq<Element>, m: nat)
    requires m <= |es| && ScanSentence(st, sid, es[..m]).Err?
    ensures ScanSentence(st, sid, es) == ScanSentence(st, sid, es[..m])
    decreases |es| - m
  {
    assert es[..|es|] == es;
    if m < |es| {
      var init := es[..|es| - 1];
      assert init[..m] == es[..m];
      ScanSentenceErrPersists(st, sid, init, m);
    }
  }

  lemma {:induction false} ScanSentencesErrPersists(sentences: seq<Element>, m: nat)
    requires m <= |sentences| && ScanSentences(sentences[..m]).Err?
    ensures ScanSentences(sentences) == ScanSentences(sentences[..m])
    decreases |sentences| - m
  {
    assert sentences[..|sentences|] == sentences;
    if m < |sentences| {
      var init := sentences[..|sentences| - 1];
      assert init[..m] == sentences[..m];
      ScanSentencesErrPersists(init, m);
    }
  }
}
