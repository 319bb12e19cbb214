# absa_pytorch preprocessing, modelled in Dafny

The repository prepares the SemEval-2014 aspect-based sentiment data for training. This project models its two preprocessing scripts.

- **The XML flattener** (`convert_xml_to_csv.py`). It walks the `sentence` elements of a parsed SemEval document. It emits one row per aspect-term annotation and one row per aspect-category annotation. Each row is the sentence's fields (`sid`, `text`) merged with a synthesised annotation id `aid` and the annotation's own attributes. The last write wins.
  - Term rows are numbered `sid-1`, `sid-2`, … within each `aspectTerms` block.
  - Category rows reuse the counter `i` left by the most recently executed term block. That block may belong to an earlier sentence.
  - If a category item is met before any term block has run, `i` is unbound and the loop over the sentences fails.
  - `writeOut` then rewrites the polarity labels `negative`/`positive`/`neutral` to `-1`/`1`/`0`.
- **The tabular normaliser** (`convert_csv_to_torch.py`).
  - It normalises the text column: `[comma]` becomes `,`, then lower-case, NLTK's WordPunct tokenisation (`\w+|[^\w\s]+`), only the alphanumeric tokens kept, joined by single spaces.
  - The aspect column gets the same treatment without the `[comma]` substitution.
  - It keeps the rows whose polarity is in `KEEPLABELS`.
  - It cuts a shuffled index permutation into validation, train and test slices with Python's slice rules.

Modules:

- `Wrappers`: Option and Result.
- `TextNormalise`: the tokenizer and the two column normalisers.
- `Preprocess`: per-row preprocessing and the label filter.
- `Split`: the slicing in `write_csv`, as a method over the shuffled index array.
- `Dict`: a Python dict as an association list that keeps insertion order.
- `XmlTree`: the parsed element tree and `iter()`.
- `Flatten`: `convert` and `writeOut` as methods, proved equal to specification functions.
- `FlattenFacts`: what the scan does to the counter, the rows and the labels across a whole document.
- `FlattenExample`: a worked one-sentence document.

The ordinal `i` is reset at each `aspectTerms` block, not at each sentence, and carries over from one sentence to the next.

## Model

| member | source | states |
|---|---|---|
| TextNormalise.Tokenize | src/preprocessing/convert_csv_to_torch.py:37-38 | the reference definition of WordPunctTokenizer: longest runs of word characters or of punctuation, whitespace skipped; TokenizeCoversInput, TokenCharsFromInput, TokenizeCons and TokenizeJoin are proved about it |
| TextNormalise.TokenizeCons | src/preprocessing/convert_csv_to_torch.py:37-38 | the longest-match half of the tokenizer: a token followed by nothing or by a character of another class is matched whole, and tokenising goes on after it |
| TextNormalise.TokenizeCoversInput | src/preprocessing/convert_csv_to_torch.py:37-38 | every WordPunct token is a non-empty run of one character class (word or punctuation), and the tokens concatenated give the input with its whitespace removed |
| TextNormalise.TokenCharsFromInput | src/preprocessing/convert_csv_to_torch.py:37-38 | every character of every token occurs in the input |
| TextNormalise.KeepAlnum | src/preprocessing/convert_csv_to_torch.py:39 | the reference definition of the comprehension `[word for word in tokens if word.isalnum()]`; KeepAlnumMembers and KeepAlnumAppend are proved about it |
| TextNormalise.KeepAlnumMembers | src/preprocessing/convert_csv_to_torch.py:39 | the kept tokens are exactly the tokens that are non-empty and entirely alphanumeric, and there are no more of them than tokens |
| TextNormalise.KeepAlnumAppend | src/preprocessing/convert_csv_to_torch.py:39 | the filter distributes over concatenation, so the kept words stay in their order and keep their repetitions |
| TextNormalise.CustomTokenize | src/preprocessing/convert_csv_to_torch.py:36-40 | every returned word is alphanumeric, and a word is returned iff it is a WordPunct token of the text and alphanumeric |
| TextNormalise.SnakeCaseToken | src/preprocessing/convert_csv_to_torch.py:39 | a `\w` run containing `_` is one token but is not alphanumeric |
| TextNormalise.SnakeCaseTokenized | src/preprocessing/convert_csv_to_torch.py:37-38 | `snake_case` is tokenised as a single token |
| TextNormalise.UnderscoreRunDropped | src/preprocessing/convert_csv_to_torch.py:36-40 | `snake_case` yields no word at all: its single token is dropped entirely |
| TextNormalise.KeepAllAlnum | src/preprocessing/convert_csv_to_torch.py:39 | a list of alphanumeric words passes the filter unchanged |
| TextNormalise.ReplaceComma | src/preprocessing/convert_csv_to_torch.py:43 | the reference definition of `replace('[comma]', ',')`, scanning left to right without overlaps; ReplaceCommaUnchanged, ReplaceCommaSplit and ReplaceCommaRemovesAll are proved about it |
| TextNormalise.ReplaceCommaUnchanged | src/preprocessing/convert_csv_to_torch.py:43 | a string without the placeholder is left unchanged |
| TextNormalise.ReplaceCommaSplit | src/preprocessing/convert_csv_to_torch.py:43 | each `[comma]` becomes exactly one `,` whatever surrounds it: replacing in `a + [comma] + b` gives the replacement of `a`, a comma, and the replacement of `b` |
| TextNormalise.ReplaceCommaRemovesAll | src/preprocessing/convert_csv_to_torch.py:43 | after the replacement no `[comma]` occurs anywhere, including occurrences created by the substitution |
| TextNormalise.Lower | src/preprocessing/convert_csv_to_torch.py:43 | same length; each capital A-Z becomes the lower-case letter 32 code points above it; every other character is unchanged; no capital remains |
| TextNormalise.LowerWords | src/preprocessing/convert_csv_to_torch.py:43-44 | tokenising a lower-case string yields only lower-case alphanumeric words |
| TextNormalise.JoinNormalForm | src/preprocessing/convert_csv_to_torch.py:45 | joining lower-case words gives lower-case alphanumerics separated by single spaces, with no leading or trailing space |
| TextNormalise.Join | src/preprocessing/convert_csv_to_torch.py:45 | the reference definition of `" ".join(words)`; JoinNormalForm and TokenizeJoin are proved about it |
| TextNormalise.NormaliseText | src/preprocessing/convert_csv_to_torch.py:43-45 | the normalised text has no upper-case letter, no punctuation and single spaces between words |
| TextNormalise.NormaliseAspect | src/preprocessing/convert_csv_to_torch.py:46-48 | the normalised aspect is in the same normal form |
| TextNormalise.TokenizeJoin | src/preprocessing/convert_csv_to_torch.py:44-45 | tokenising a space-joined list of word tokens gives the list back (tokenise after join is the identity) |
| TextNormalise.NormalFormUntouched | src/preprocessing/convert_csv_to_torch.py:43 | a value in normal form is unchanged by the placeholder replacement and by lower-casing |
| TextNormalise.JoinIsFixpoint | src/preprocessing/convert_csv_to_torch.py:43-48 | both normalisers leave a space-joined list of lower-case words unchanged |
| TextNormalise.NormaliseTextIdempotent | src/preprocessing/convert_csv_to_torch.py:43-45 | normalising the text twice gives the same result as once |
| TextNormalise.NormaliseAspectIdempotent | src/preprocessing/convert_csv_to_torch.py:46-48 | normalising the aspect twice gives the same result as once |
| TextNormalise.PlaceholderSplit | src/preprocessing/convert_csv_to_torch.py:36-38 | `[comma]` tokenises to `[`, `comma`, `]` |
| TextNormalise.PlaceholderTokens | src/preprocessing/convert_csv_to_torch.py:36-40 | of the tokens of `[comma]` only `comma` is kept |
| TextNormalise.PlaceholderDroppedFromText | src/preprocessing/convert_csv_to_torch.py:43-45 | in the text column `[comma]` vanishes: it becomes `,`, which is dropped |
| TextNormalise.PlaceholderKeptInAspect | src/preprocessing/convert_csv_to_torch.py:46-48 | in the aspect column `[comma]` survives as the word `comma` |
| TextNormalise.PlaceholderSeparatesWords | src/preprocessing/convert_csv_to_torch.py:43-45 | in the text column a `[comma]` between two lower-case words becomes a single space between them |
| TextNormalise.FoodServiceSplit | src/preprocessing/convert_csv_to_torch.py:43-45 | `food[comma]service` normalises to `food service` |
| TextNormalise.TokenizeSentence | src/preprocessing/convert_csv_to_torch.py:37-38 | words separated by spaces, a comma and a trailing punctuation run tokenize as each word, the comma and the run, in order |
| TextNormalise.KeepSentenceWords | src/preprocessing/convert_csv_to_torch.py:39 | of those tokens the filter keeps the four words, in order, and drops the comma and the punctuation run |
| TextNormalise.JoinFour | src/preprocessing/convert_csv_to_torch.py:45 | `" ".join` of four words puts exactly one space between neighbours |
| TextNormalise.SentenceLowered | src/preprocessing/convert_csv_to_torch.py:43 | in a sentence with a capitalised first word and a `[comma]`, the substitution yields a `,` and lower-casing changes only the capital |
| TextNormalise.SentenceNormalised | src/preprocessing/convert_csv_to_torch.py:43-45 | such a sentence normalises to its four words in lower case joined by single spaces: the capital is lowered, and the placeholder and the trailing punctuation vanish |
| TextNormalise.GreatFoodAwfulService | src/preprocessing/convert_csv_to_torch.py:43-45 | `Great food[comma] awful service!!` normalises to `great food awful service` |
| Preprocess.PreprocessData | src/preprocessing/convert_csv_to_torch.py:42-49 | the same number of rows; each new text is NormaliseText of the old text and each new aspect is NormaliseAspect of the old aspect, so both are in normal form; polarity and all other columns are unchanged |
| Preprocess.PreprocessIdempotent | src/preprocessing/convert_csv_to_torch.py:42-49 | preprocessing preprocessed rows changes nothing |
| Preprocess.FilterLabels | src/preprocessing/convert_csv_to_torch.py:76 | every kept row has a listed label; each row with a listed label is kept as often as it occurs, and every other row is removed |
| Preprocess.FilterLabelsAppend | src/preprocessing/convert_csv_to_torch.py:76 | the filter distributes over concatenation, so the original order is kept |
| Preprocess.FilterKeepsListed | src/preprocessing/convert_csv_to_torch.py:86 | rows that all carry listed labels pass unchanged |
| Preprocess.FilterLabelsIdempotent | src/preprocessing/convert_csv_to_torch.py:76 | filtering twice is filtering once |
| Split.RangeMultiplicity | src/preprocessing/convert_csv_to_torch.py:53 | each index below n occurs once in the range and no other value occurs |
| Split.PermutationBounds | src/preprocessing/convert_csv_to_torch.py:53-55 | a shuffled permutation of `0..n-1` has length n and only indices below n |
| Split.ValSize | src/preprocessing/convert_csv_to_torch.py:57 | `int(len(idx) * VAL_RATIO)` with the ratio 0.2: the validation size is the largest whole number not above a fifth of n |
| Split.TestSize | src/preprocessing/convert_csv_to_torch.py:61 | validation size plus test size never exceeds n; the test size is 0 exactly when n < 4 |
| Split.SliceBound | src/preprocessing/convert_csv_to_torch.py:62-63 | a Python slice bound, negative or not, lands inside the sequence |
| Split.PySlice | src/preprocessing/convert_csv_to_torch.py:58-66 | the reference definition of Python's `s[start:stop]` with negative and out-of-range bounds; SplitIndices is proved about it |
| Split.SplitIndices | src/preprocessing/convert_csv_to_torch.py:57-66 | validation is the first `val_size` indices. With a test set, validation and train concatenate to the permutation. Without one, the three concatenate to it and the test part has `test_size` indices, or, when `test_size` is 0, train is empty and test is the whole permutation |
| Split.DisjointParts | src/preprocessing/convert_csv_to_torch.py:57-66 | two consecutive parts of a permutation share no index |
| Split.PartsCover | src/preprocessing/convert_csv_to_torch.py:57-63 | three consecutive parts of a permutation are pairwise disjoint and together hold every index below n exactly once |
| Split.SplitIsDisjointCover | src/preprocessing/convert_csv_to_torch.py:57-66 | in both branches the slices are pairwise disjoint and together cover every row index |
| Split.SelectPermutation | src/preprocessing/convert_csv_to_torch.py:58-63 | selecting rows by a permutation gives the same multiset of rows |
| Split.SelectSlices | src/preprocessing/convert_csv_to_torch.py:58-63 | the rows of the three slices together are exactly the data set's rows |
| Split.SelectSameMultiset | src/preprocessing/convert_csv_to_torch.py:58 | index lists with the same multiset select the same multiset of rows |
| Split.Select | src/preprocessing/convert_csv_to_torch.py:58-63 | the reference definition of `df.iloc[ix]`: the rows at the given positions, in that order; SelectAppend, SelectPermutation and SelectSlices are proved about it |
| Split.WriteCsv | src/preprocessing/convert_csv_to_torch.py:51-67 | validation holds the first `val_size` shuffled rows. Without a test set and with `test_size > 0`, train holds the shuffled rows from `val_size` to `N - test_size` and test holds the last `test_size`; when `test_size` is 0, train is empty and test holds all rows; the three parts are a permutation of the data. With a test set, train holds the shuffled rows from `val_size` on, validation and train are a permutation of the data, and the test part is the given test set, unshuffled |
| Dict.Get | src/preprocessing/convert_xml_to_csv.py:39 | a lookup succeeds iff the key is present |
| Dict.LastValue | src/preprocessing/convert_xml_to_csv.py:54 | the value of the last binding of a key exists iff the key is present |
| Dict.Put | src/preprocessing/convert_xml_to_csv.py:52 | the reference definition of `d[k] = v`: replace in place, or append a new key; PutKeys, PutLookup and PutDistinct are proved about it |
| Dict.PutKeys | src/preprocessing/convert_xml_to_csv.py:52 | assigning keeps the key order and appends a new key at the end |
| Dict.PutLookup | src/preprocessing/convert_xml_to_csv.py:42 | after `d[k] = v`, `d[k]` is `v` and every other key is unchanged |
| Dict.PutDistinct | src/preprocessing/convert_xml_to_csv.py:52 | assigning never repeats a key |
| Dict.Merge | src/preprocessing/convert_xml_to_csv.py:54 | the reference definition of `{**a, **b}`: each binding of b written into a in order; MergeLookup, MergeKeepsOrder, MergeHasKey and MergeDistinct are proved about it |
| Dict.MergeLookup | src/preprocessing/convert_xml_to_csv.py:54 | in `{**a, **b}` a key takes b's last value if b has it, otherwise a's value |
| Dict.MergeKeepsOrder | src/preprocessing/convert_xml_to_csv.py:54 | the merged dict's keys start with a's keys in a's order |
| Dict.MergeHasKey | src/preprocessing/convert_xml_to_csv.py:54 | the merged dict has a key iff a or b has it |
| Dict.MergeDistinct | src/preprocessing/convert_xml_to_csv.py:54 | merging into a dict with distinct keys keeps the keys distinct |
| Dict.DistinctLastIsFirst | src/preprocessing/convert_xml_to_csv.py:54 | with distinct keys, the first and the last binding of a key agree |
| Dict.GetAppend | src/preprocessing/convert_xml_to_csv.py:54 | looking up in a row extended by one binding finds the old value first, then the new binding |
| XmlTree.Tagged | src/preprocessing/convert_xml_to_csv.py:36 | the reference definition of the tag filter of `iter(tag=...)`, keeping document order; TaggedMembers is proved about it |
| XmlTree.IterTag | src/preprocessing/convert_xml_to_csv.py:36 | the reference definition of `tree.iter(tag='sentence')`: the pre-order walk `Iter` filtered by `Tagged` |
| XmlTree.WithAttr | src/preprocessing/convert_xml_to_csv.py:46-49 | the reference definition of the skips `if 'term' not in attr: continue` (lines 47-49) and `if 'category' not in attr: continue` (lines 58-60), keeping order; WithAttrMembers is proved about it |
| XmlTree.Iter | src/preprocessing/convert_xml_to_csv.py:40 | `iter()` yields the element itself first |
| XmlTree.TaggedMembers | src/preprocessing/convert_xml_to_csv.py:36 | `iter(tag=...)` yields exactly the visited elements with that tag |
| XmlTree.WithAttrMembers | src/preprocessing/convert_xml_to_csv.py:46-49 | the items kept are exactly the visited elements carrying the attribute |
| Flatten.NatToString | src/preprocessing/convert_xml_to_csv.py:52 | the reference definition of `str(i)` for a natural number, most significant digit first; NatToStringRoundTrip is proved about it |
| Flatten.AnnotationId | src/preprocessing/convert_xml_to_csv.py:52 | the reference definition of `s['sid'] + '-' + str(i)`, used for term rows (line 52) and category rows (line 63); AnnotationIdInjective is proved about it |
| Flatten.NatToStringRoundTrip | src/preprocessing/convert_xml_to_csv.py:52 | `str(i)` reads back as i |
| Flatten.AnnotationIdInjective | src/preprocessing/convert_xml_to_csv.py:52 | within one sentence, different ordinals give different aids |
| Flatten.BuildRow | src/preprocessing/convert_xml_to_csv.py:51-54 | the reference definition of `{**s, **s2, **at.attrib}` with `s2 = {aid}`; BuildRowLookup and BuildRowKeys are proved about it |
| Flatten.TermRows | src/preprocessing/convert_xml_to_csv.py:50-54 | one row per term item |
| Flatten.TermRowsAt | src/preprocessing/convert_xml_to_csv.py:50-54 | the k-th term row is the sentence fields merged with aid `sid-(k+1)` and the item's attributes |
| Flatten.TermRowsSnoc | src/preprocessing/convert_xml_to_csv.py:50-54 | one more term item appends one row numbered with the new count |
| Flatten.CategoryRows | src/preprocessing/convert_xml_to_csv.py:57-64 | one row per category item |
| Flatten.CategoryRowsAt | src/preprocessing/convert_xml_to_csv.py:62-64 | the k-th category row is the sentence fields merged with the shared aid and the item's attributes |
| Flatten.CategoryRowsSnoc | src/preprocessing/convert_xml_to_csv.py:57-64 | one more category item appends one row with the same aid |
| Flatten.PolarityCode | src/preprocessing/convert_xml_to_csv.py:27 | the reference definition of the label replacement: negative, positive and neutral become -1, 1 and 0, anything else stays; PolarityCodeIdempotent and CodedLabelsKept are proved about it |
| Flatten.RemapRow | src/preprocessing/convert_xml_to_csv.py:27 | the reference definition of the replacement on one row; RemapRowLookup and RemapRowIdempotent are proved about it |
| Flatten.RemapRowLookup | src/preprocessing/convert_xml_to_csv.py:27 | the replacement keeps every column and every other value, and codes the polarity |
| Flatten.RemapColumn | src/preprocessing/convert_xml_to_csv.py:26-27 | the reference definition of building the table and replacing its polarity column, failing when no row has one; WriteOut is proved equal to it, and RemapColumnLookup and RemapColumnIdempotent are proved about it |
| Flatten.RemapPolarities | src/preprocessing/convert_xml_to_csv.py:27 | the table is rewritten in place, each row replaced by its remapped version |
| Flatten.WriteOut | src/preprocessing/convert_xml_to_csv.py:26-27 | fails with the missing-column error when no row has a polarity, otherwise yields the remapped table |
| Flatten.VisitTerms | src/preprocessing/convert_xml_to_csv.py:45-54 | the counter ends at the number of term items, and the term list grows by exactly this block's rows |
| Flatten.VisitCategories | src/preprocessing/convert_xml_to_csv.py:55-64 | with no category items nothing changes. With items but an unbound counter it fails with UnboundOrdinal. Otherwise the category list grows by the block's rows, all with aid `sid-i` |
| Flatten.SentenceFields | src/preprocessing/convert_xml_to_csv.py:38-42 | the reference definition of the dict `s`: `sid` first, then `text` written by each `text` element visited; SentenceFieldsLookup and SentenceFieldsKeys are proved about it |
| Flatten.VisitElement | src/preprocessing/convert_xml_to_csv.py:41-64 | the reference definition of one pass of the `if/elif` body: a `text` element leaves the rows alone; an `aspectTerms` block resets `i` to its count of `term` items and appends their rows numbered from 1; an `aspectCategories` block with a `category` item fails with UnboundOrdinal while `i` is unbound and otherwise appends its rows with aid `sid-i`; any other element changes nothing |
| Flatten.ScanSentence | src/preprocessing/convert_xml_to_csv.py:40-64 | the reference definition of `for elem in sentence.iter()`, stopping at the first failure; VisitSentence is proved equal to it, and ScanSentenceEffect, ScanSentenceUnbound and ScanSentenceErrPersists are proved about it |
| Flatten.VisitSentence | src/preprocessing/convert_xml_to_csv.py:38-64 | the loop over one sentence's elements computes the scan step of that sentence |
| Flatten.ScanSentences | src/preprocessing/convert_xml_to_csv.py:36-64 | the reference definition of the loop over the sentences, with the KeyError and UnboundLocalError exits; ScanSentencesEffect, ScanSentencesUnbound and ScanSentencesAppendOnly are proved about it |
| Flatten.ScanDocument | src/preprocessing/convert_xml_to_csv.py:34-64 | the reference definition of the scan over `tree.iter(tag='sentence')`; ReadSentences is proved equal to it |
| Flatten.ReadSentences | src/preprocessing/convert_xml_to_csv.py:36-64 | the loop over all sentences computes the document scan |
| Flatten.Converted | src/preprocessing/convert_xml_to_csv.py:30-68 | the reference definition of the whole conversion: the scan, then the term table, then the category table; Convert is proved equal to it |
| Flatten.Convert | src/preprocessing/convert_xml_to_csv.py:30-68 | `convert` yields the scan's two tables with polarities remapped, or the first exception it would raise |
| Flatten.WithAttrGrows | src/preprocessing/convert_xml_to_csv.py:57-60 | once a category item has been seen in a prefix of a block, the block has one |
| Flatten.ScanSentenceErrPersists | src/preprocessing/convert_xml_to_csv.py:40-64 | an exception inside a sentence ends the run: later elements do not change the result |
| Flatten.ScanSentencesErrPersists | src/preprocessing/convert_xml_to_csv.py:36-64 | an exception in one sentence ends the run: later sentences do not change the result |
| FlattenFacts.LastTermBlockAppend | src/preprocessing/convert_xml_to_csv.py:45-50 | the last term block of a concatenation is the second part's, if it has one |
| FlattenFacts.CountsAppend | src/preprocessing/convert_xml_to_csv.py:46-60 | term and category item counts add over concatenation |
| FlattenFacts.ScanSentenceEffect | src/preprocessing/convert_xml_to_csv.py:40-64 | after a sentence, the counter is that of the sentence's last term block if it has one and is unchanged otherwise; the lists grow by one row per item and only by appending |
| FlattenFacts.ScanSentencesEffect | src/preprocessing/convert_xml_to_csv.py:36-64 | after the run the counter is the item count of the document's last term block, and there is one row per term item and one per category item |
| FlattenFacts.ScanSentencesAppendOnly | src/preprocessing/convert_xml_to_csv.py:36-64 | rows emitted for earlier sentences are never changed by later ones |
| FlattenFacts.CategoryAtAppend | src/preprocessing/convert_xml_to_csv.py:45-63 | a category block is met with `i` unbound in a concatenation iff it is in the first part, or in the second part with no term block in the first |
| FlattenFacts.CategoryBeforeTermsAppend | src/preprocessing/convert_xml_to_csv.py:45-63 | a concatenation has a category item before any term block iff the first part has one, or the first part has no term block and the second part has one |
| FlattenFacts.CategoryBeforeTermsSingle | src/preprocessing/convert_xml_to_csv.py:55-63 | a single element triggers the unbound counter iff it is a category block with a category item |
| FlattenFacts.ScanSentenceUnbound | src/preprocessing/convert_xml_to_csv.py:45-63 | a sentence fails iff the counter is unbound on entry and a category item comes before its first term block; the failure is UnboundOrdinal |
| FlattenFacts.ScanSentencesUnbound | src/preprocessing/convert_xml_to_csv.py:36-64 | when every sentence has an id, the loop over the sentences fails iff a category item comes before the first term block of the whole document; the failure is UnboundOrdinal. Writing the tables afterwards can still fail, as RemapColumnLookup states |
| FlattenFacts.MissingIdFails | src/preprocessing/convert_xml_to_csv.py:39 | a sentence without an `id` makes the conversion fail |
| FlattenFacts.SentenceFieldsLookup | src/preprocessing/convert_xml_to_csv.py:39-42 | the sentence fields hold its id and the text of the last `text` element visited so far |
| FlattenFacts.SentenceFieldsKeys | src/preprocessing/convert_xml_to_csv.py:38-42 | the sentence fields are `sid`, then `text` once a text element has been seen |
| FlattenFacts.BuildRowLookup | src/preprocessing/convert_xml_to_csv.py:51-64 | a row's value for a key is the annotation's, else the synthesised aid, else the sentence's |
| FlattenFacts.BuildRowKeys | src/preprocessing/convert_xml_to_csv.py:54-64 | a row's columns start with the sentence's, in order, and never repeat |
| FlattenFacts.TermBlockNumbering | src/preprocessing/convert_xml_to_csv.py:45-54 | a term block yields one row per term item; the k-th carries the item's term and aid `sid-(k+1)` unless the item sets its own aid |
| FlattenFacts.CategoryBlockSharedId | src/preprocessing/convert_xml_to_csv.py:57-64 | a category block yields one row per category item, each with its category and the same aid |
| FlattenFacts.PolarityCodeIdempotent | src/preprocessing/convert_xml_to_csv.py:27 | coding a coded label changes nothing |
| FlattenFacts.RemapRowIdempotent | src/preprocessing/convert_xml_to_csv.py:27 | remapping a remapped row changes nothing |
| FlattenFacts.RemapColumnIdempotent | src/preprocessing/convert_xml_to_csv.py:26-27 | remapping a remapped table changes nothing |
| FlattenFacts.RemapColumnLookup | src/preprocessing/convert_xml_to_csv.py:26-27 | the remap fails iff no row has a polarity. Otherwise it keeps the row count, every other value, and codes each polarity |
| FlattenFacts.CodedLabelsKept | src/preprocessing/convert_xml_to_csv.py:27 | a coded label is in the normaliser's default `KEEPLABELS` iff the original label is negative, positive, neutral, conflict or already a code |
| FlattenExample.FoodRowBuilt | src/preprocessing/convert_xml_to_csv.py:51-54 | the example's term row is `sid`, `text`, `aid = 1-1`, `term`, `polarity`, in that order |
| FlattenExample.ExampleTermBlock | src/preprocessing/convert_xml_to_csv.py:43-54 | a block with one `term` item and one attribute-less item yields exactly one row |
| FlattenExample.ExampleSentenceScan | src/preprocessing/convert_xml_to_csv.py:36-64 | the example sentence leaves the counter at 1 and one term row |
| FlattenExample.ExampleScan | src/preprocessing/convert_xml_to_csv.py:36-64 | the example document yields that one term row and no category rows |
| FlattenExample.ExampleTermTable | src/preprocessing/convert_xml_to_csv.py:26-27 | the example's term table has its polarity `positive` coded as `1` |
| FlattenExample.ExampleConverted | src/preprocessing/convert_xml_to_csv.py:67-68 | a document with no category annotation fails when its empty category table is written |

## Left out

- File I/O: `pd.read_csv`, `to_csv`, the hard-coded paths and the module-level driver code (`convert_csv_to_torch.py:71-89`, `convert_xml_to_csv.py:28,71-73`). The model produces the tables that would be written.
- CSV serialisation: quoting, and the column order pandas derives from the rows.
- The debug-print loop in `writeOut` (`convert_xml_to_csv.py:19-24`). It has no effect on the result.
- numpy's RNG (`np.random.seed`, `shuffle`). The shuffled index array is an input, required to be a permutation of `0..N-1`.
- Split.ValSize, Split.TestSize: the float products `int(N * 0.2)` and `int(N * 0.3)` are modelled as the integer divisions `N*2/10` and `N*3/10`. IEEE rounding of the products is not modelled.
- pandas dtype inference and `astype({polarity: 'object'})` (`convert_csv_to_torch.py:83`). Polarities are strings throughout, so a column that pandas parses as integers, and whose `isin` check would then miss, is not modelled.
- Empty cells read back from CSV. `pd.read_csv` reads an empty `text` or aspect cell as NaN, and `x.replace` or `x.lower()` on a NaN raises AttributeError in `preprocess_data` (`convert_csv_to_torch.py:43,46`). The flattener writes such a cell for a `text` element without text, which the model reads as `""`. `Record` fields are always strings, so the model never takes this failing path.
- A table built from rows whose columns differ: pandas fills missing cells with NaN. Rows are kept as separate dicts, so a row without a `polarity` stays without one instead of getting NaN.
- Unicode: `lower()`, `isalnum()` and the tokenizer's `\w`/`\s` classes are modelled over ASCII. Any other character is treated as punctuation.
- NLTK's `WordPunctTokenizer` is modelled from its regular expression `\w+|[^\w\s]+`, not from the library code.
- ElementTree parsing. The parsed tree is given as an `Element` value (tag, attributes, text, children). A missing element text (`None`) is modelled as the empty string.
- Flatten.RemapColumn assumes that `df.polarity.replace(..., inplace=True)` (`convert_xml_to_csv.py:27`) changes the frame itself, as in pandas before copy-on-write. Under copy-on-write (the default from pandas 3.0) this chained in-place call changes a temporary copy, and the labels are written unmapped.
- The unused counters `sentnum` and `index` (`convert_xml_to_csv.py:35-37`).
- The in-place column assignments of `preprocess_data` are modelled as a function from rows to rows. Nothing else refers to the old frame, so no aliasing is lost.
- A document with no category annotation makes `writeOut` of the empty category list raise an AttributeError on `df.polarity`, after the term table has been written. The model returns that error (`NoPolarityColumn`) and does not model the term file already written.
