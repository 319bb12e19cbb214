/**
  A worked example: a sentence with id `1`, text `Good food` and an
  aspect-term block holding one annotation with `term="food"` and one
  without a `term`.
*/
module FlattenExample {
  import opened Wrappers
  import opened Dict
  import opened XmlTree
  import opened Flatten

  const Food := Element("aspectTerm", [("term", "food"), ("polarity", "positive")], "", [])
  const Bare := Element("aspectTerm", [("polarity", "negative")], "", [])
  const Terms := Element("aspectTerms", [], "", [Food, Bare])
  const Text := Element("text", [], "Good food", [])
  const Sentence := Element("sentence", [("id", "1")], "", [Text, Terms])
  const Document := Element("sentences", [], "", [Sentence])

  const Fields: Row := [("sid", "1"), ("text", "Good food")]
  const FoodRow: Row := [("sid", "1"), ("text", "Good food"), ("aid", "1-1"), ("term", "food"), ("polarity", "positive")]

  lemma IterLeaf(e: Element)
    requires e.children == []
    ensures Iter(e) == [e]
  {
    assert seq(|e.children|, i requires 0 <= i < |e.children| => Iter(e.children[i])) == [];
  }

  lemma ConcatAllSingle(a: seq<Element>)
    ensures ConcatAll([a]) == a
  {
    assert [a][1..] == [];
    assert ConcatAll([a]) == a + ConcatAll([]);
  }

  lemma ConcatAllPair(a: seq<Element>, b: seq<Element>)
    ensures ConcatAll([a, b]) == a + b
  {
    assert [a, b][1..] == [b];
    ConcatAllSingle(b);
    assert ConcatAll([a, b]) == a + ConcatAll([b]);
  }

  lemma IterTerms()
    ensures Iter(Terms) == [Terms, Food, Bare]
  {
    IterLeaf(Food);
    IterLeaf(Bare);
    var subtrees := seq(|Terms.children|, i requires 0 <= i < |Terms.children| => Iter(Terms.children[i]));
    assert subtrees == [[Food], [Bare]];
    ConcatAllPair([Food], [Bare]);
  }

  lemma IterSentence()
    ensures Iter(Sentence) == [Sentence, Text, Terms, Food, Bare]
  {
    IterLeaf(Text);
    IterTerms();
    var subtrees := seq(|Sentence.children|, i requires 0 <= i < |Sentence.children| => Iter(Sentence.children[i]));
    assert subtrees == [[Text], [Terms, Food, Bare]];
    ConcatAllPair([Text], [Terms, Food, Bare]);
  }

  lemma TaggedSnoc(es: seq<Element>, e: Element, tag: string)
    ensures Tagged(es + [e], tag) == Tagged(es, tag) + if e.tag == tag then [e] else []
  {
    assert (es + [e])[..|es|] == es;
  }

  lemma DocumentSentences()
    ensures Sentences(Document) == [Sentence]
  {
    IterSentence();
    var subtrees := seq(|Document.children|, i requires 0 <= i < |Document.children| => Iter(Document.children[i]));
    assert subtrees == [[Sentence, Text, Terms, Food, Bare]];
    ConcatAllSingle([Sentence, Text, Terms, Food, Bare]);
    assert Iter(Document) == [Document, Sentence, Text, Terms, Food] + [Bare];
    TaggedSnoc([], Document, "sentence");
    assert [] + [Document] == [Document];
    TaggedSnoc([Document], Sentence, "sentence");
    assert [Document] + [Sentence] == [Document, Sentence];
    TaggedSnoc([Document, Sentence], Text, "sentence");
    assert [Document, Sentence] + [Text] == [Document, Sentence, Text];
    TaggedSnoc([Document, Sentence, Text], Terms, "sentence");
    assert [Document, Sentence, Text] + [Terms] == [Document, Sentence, Text, Terms];
    TaggedSnoc([Document, Sentence, Text, Terms], Food, "sentence");
    assert [Document, Sentence, Text, Terms] + [Food] == [Document, Sentence, Text, Terms, Food];
    TaggedSnoc([Document, Sentence, Text, Terms, Food], Bare, "sentence");
  }

  lemma WithAttrSnocLiteral(es: seq<Element>, e: Element, key: string)
    ensures WithAttr(es + [e], key) == WithAttr(es, key) + if HasKey(e.attrib, key) then [e] else []
  {
    assert (es + [e])[..|es|] == es;
  }

  lemma TermItems()
    ensures WithAttr(Iter(Terms), "term") == [Food]
  {
    IterTerms();
    assert Keys(Terms.attrib) == [];
    assert Keys(Food.attrib) == ["term", "polarity"];
    assert Keys(Bare.attrib) == ["polarity"];
    assert !HasKey(Terms.attrib, "term");
    assert HasKey(Food.attrib, "term");
    assert !HasKey(Bare.attrib, "term");
    WithAttrSnocLiteral([], Terms, "term");
    assert [] + [Terms] == [Terms];
    assert WithAttr([Terms], "term") == [];
    WithAttrSnocLiteral([Terms], Food, "term");
    assert [Terms] + [Food] == [Terms, Food];
    assert WithAttr([Terms, Food], "term") == [Food];
    WithAttrSnocLiteral([Terms, Food], Bare, "term");
    assert [Terms, Food] + [Bare] == [Terms, Food, Bare];
  }

  lemma {:induction false} PutNew(r: Row, k: string, v: string)
    requires !HasKey(r, k)
    ensures Put(r, k, v) == r + [(k, v)]
  {
    if r != [] {
      assert Keys(r) == [r[0].0] + Keys(r[1..]);
      PutNew(r[1..], k, v);
      assert [r[0]] + (r[1..] + [(k, v)]) == r + [(k, v)];
    }
  }

  lemma MergePair(base: Row, a: (string, string), b: (string, string))
    ensures Merge(base, [a]) == Put(base, a.0, a.1)
    ensures Merge(base, [a, b]) == Put(Put(base, a.0, a.1), b.0, b.1)
  {
    assert [a][..0] == [];
    assert [a, b][..1] == [a];
  }

  lemma FoodRowBuilt()
    ensures BuildRow(Fields, "1-1", Food.attrib) == FoodRow
  {
    var withAid := Fields + [("aid", "1-1")];
    var withTerm := withAid + [("term", "food")];
    assert Keys(Fields) == ["sid", "text"];
    assert Keys(withAid) == ["sid", "text", "aid"];
    assert Keys(withTerm) == ["sid", "text", "aid", "term"];
    PutNew(Fields, "aid", "1-1");
    MergePair(withAid, ("term", "food"), ("polarity", "positive"));
    PutNew(withAid, "term", "food");
    PutNew(withTerm, "polarity", "positive");
  }

  lemma ExampleTermBlock()
    ensures TermBlockRows(Fields, "1", Iter(Terms)) == [FoodRow]
  {
    TermItems();
    assert AnnotationId("1", 1) == "1-1";
    FoodRowBuilt();
  }

  /** The aspect-term block sets the ordinal to 1 and emits the one row. */
  lemma ExampleTermVisit()
    ensures VisitElement(Start, "1", Fields, Terms) == Ok(Scan(Some(1), [FoodRow], []))
  {
    TermItems();
    ExampleTermBlock();
    assert [] + [FoodRow] == [FoodRow];
  }

  lemma ScanSnoc(st: Scan, sid: string, es: seq<Element>, e: Element)
    requires ScanSentence(st, sid, es).Ok?
    ensures ScanSentence(st, sid, es + [e]) == VisitElement(ScanSentence(st, sid, es).value, sid, SentenceFields(sid, es), e)
    ensures SentenceFields(sid, es + [e]) == if e.tag == "text" then Put(SentenceFields(sid, es), "text", e.text) else SentenceFields(sid, es)
  {
    assert (es + [e])[..|es|] == es;
  }

  /** Up to the text element nothing is emitted and the sentence dict gets its two fields. */
  lemma ExampleHead()
    ensures ScanSentence(Start, "1", [Sentence, Text]) == Ok(Start)
    ensures SentenceFields("1", [Sentence, Text]) == Fields
  {
    ScanSnoc(Start, "1", [], Sentence);
    assert [] + [Sentence] == [Sentence];
    ScanSnoc(Start, "1", [Sentence], Text);
    assert [Sentence] + [Text] == [Sentence, Text];
    assert Keys([("sid", "1")]) == ["sid"];
    PutNew([("sid", "1")], "text", "Good food");
  }

  /** The scan of the sentence's subtree yields exactly one term row, with id `1-1`, and no category row. */
  lemma ExampleSentenceScan()
    ensures ScanSentence(Start, "1", Iter(Sentence)) == Ok(Scan(Some(1), [FoodRow], []))
  {
    IterSentence();
    ExampleHead();
    ExampleTermVisit();
    var after := Scan(Some(1), [FoodRow], []);
    ScanSnoc(Start, "1", [Sentence, Text], Terms);
    assert [Sentence, Text] + [Terms] == [Sentence, Text, Terms];
    assert ScanSentence(Start, "1", [Sentence, Text, Terms]) == Ok(after);
    ScanSnoc(Start, "1", [Sentence, Text, Terms], Food);
    assert [Sentence, Text, Terms] + [Food] == [Sentence, Text, Terms, Food];
    ScanSnoc(Start, "1", [Sentence, Text, Terms, Food], Bare);
    assert [Sentence, Text, Terms, Food] + [Bare] == [Sentence, Text, Terms, Food, Bare];
  }

  /** The document yields exactly one term row, with id `1-1`, and no category row. */
  lemma ExampleScan()
    ensures ScanDocument(Document) == Ok(Scan(Some(1), [FoodRow], []))
  {
    DocumentSentences();
    ExampleSentenceScan();
    assert [Sentence][..0] == [];
    assert ScanSentences([]) == Ok(Start);
    assert Get(Sentence.attrib, "id") == Some("1");
    assert ScanSentences([Sentence]) == ScanSentence(Start, "1", Iter(Sentence));
  }

  const CodedRow: Row := [("sid", "1"), ("text", "Good food"), ("aid", "1-1"), ("term", "food"), ("polarity", "1")]

  lemma {:induction false} RemapRowUntouched(r: Row)
    requires !HasKey(r, "polarity")
    ensures RemapRow(r) == r
  {
    if r != [] {
      assert Keys(r) == [r[0].0] + Keys(r[1..]);
      RemapRowUntouched(r[1..]);
    }
  }

  lemma {:induction false} RemapRowAppend(r: Row, e: (string, string))
    ensures RemapRow(r + [e]) == RemapRow(r) + RemapRow([e])
  {
    if r != [] {
      assert (r + [e])[1..] == r[1..] + [e];
      RemapRowAppend(r[1..], e);
    }
  }

  lemma ExampleRemapRow()
    ensures RemapRow(FoodRow) == CodedRow
  {
    var head := [("sid", "1"), ("text", "Good food"), ("aid", "1-1"), ("term", "food")];
    assert FoodRow == head + [("polarity", "positive")];
    assert Keys(head) == ["sid", "text", "aid", "term"];
    RemapRowUntouched(head);
    RemapRowAppend(head, ("polarity", "positive"));
    assert RemapRow([("polarity", "positive")]) == [("polarity", "1")] by {
      assert [("polarity", "positive")][1..] == [];
    }
  }

  /** The term table carries the polarity code `1` in place of `positive`. */
  lemma ExampleTermTable()
    ensures RemapColumn([FoodRow]) == Ok([CodedRow])
  {
    assert Keys(FoodRow)[4] == "polarity";
    assert [FoodRow][0] == FoodRow;
    assert HasKey([FoodRow][0], "polarity");
    ExampleRemapRow();
    assert seq(1, i requires 0 <= i < 1 => RemapRow([FoodRow][i])) == [CodedRow];
  }

  /** The category table is empty, has no polarity column, and so the conversion as a whole fails. */
  lemma ExampleConverted()
    ensures Converted(Document) == Err(NoPolarityColumn)
  {
    ExampleScan();
    ExampleTermTable();
    assert !HasPolarityColumn([]);
  }
}
