/**
  Normalisation of the text and aspect columns before training:
  `custom_tokenize` (NLTK's WordPunctTokenizer, pattern `\w+|[^\w\s]+`,
  followed by an `isalnum` filter) and the column lambdas of
  `preprocess_data`.

  Characters are classified over ASCII: `\w` is a letter, a digit or `_`;
  `\s` is one of the characters Python counts as whitespace below 128;
  every other character (all non-ASCII ones included) is punctuation.
*/
module TextNormalise {

  // ---------------------------------------------------------------------
  // Character classes
  // ---------------------------------------------------------------------

  predicate IsUpper(c: char) { 'A' <= c <= 'Z' }
  predicate IsLower(c: char) { 'a' <= c <= 'z' }
  predicate IsDigit(c: char) { '0' <= c <= '9' }

  /** `str.isalnum` on one ASCII character. */
  predicate IsAlnum(c: char) { IsUpper(c) || IsLower(c) || IsDigit(c) }

  /** The characters the normalised output is made of, besides the separator. */
  predicate IsLowerAlnum(c: char) { IsLower(c) || IsDigit(c) }

  /** `\s`: space, tab, newline, vertical tab, form feed, carriage return, and 0x1C-0x1F. */
  predicate IsSpace(c: char) {
    var k := c as int;
    k == 32 || 9 <= k <= 13 || 28 <= k <= 31
  }

  /** The regex classes: `\w`, `\s` and everything else. */
  datatype CharClass = Word | Space | Punct

  function ClassOf(c: char): CharClass {
    if IsAlnum(c) || c == '_' then Word
    else if IsSpace(c) then Space
    else Punct
  }

  // ---------------------------------------------------------------------
  // Tokenizer
  // ---------------------------------------------------------------------

  /** Length of the longest prefix of `s` whose characters all belong to class `k`. */
  function RunLength(s: string, k: CharClass): (n: nat)
    ensures n <= |s|
    ensures forall i :: 0 <= i < n ==> ClassOf(s[i]) == k
    ensures n < |s| ==> ClassOf(s[n]) != k
  {
    if s == [] || ClassOf(s[0]) != k then 0 else 1 + RunLength(s[1..], k)
  }

  /**
    A regex match: non-empty, not whitespace, one class throughout.
    Four kinds of string are told apart in this module, each narrower than the last:
    `IsToken` (a run of word or of punctuation characters), `IsWordToken` (a run of
    `\w`, underscore included), `IsAlnumWord` (what `isalnum()` accepts: letters and
    digits only) and `IsLowerWord` (letters in lower case and digits only).
  */
  predicate IsToken(t: string) {
    && |t| > 0
    && ClassOf(t[0]) != Space
    && forall i :: 0 <= i < |t| ==> ClassOf(t[i]) == ClassOf(t[0])
  }

  /** The input with every whitespace character removed. */
  function RemoveSpaces(s: string): string {
    if s == [] then []
    else (if ClassOf(s[0]) == Space then [] else [s[0]]) + RemoveSpaces(s[1..])
  }

  function Concat(ts: seq<string>): string {
    if ts == [] then [] else ts[0] + Concat(ts[1..])
  }

  lemma {:induction false} RemoveSpacesAppend(a: string, b: string)
    ensures RemoveSpaces(a + b) == RemoveSpaces(a) + RemoveSpaces(b)
  {
    if a == [] {
      assert a + b == b;
    } else {
      assert (a + b)[1..] == a[1..] + b;
      RemoveSpacesAppend(a[1..], b);
    }
  }

  lemma {:induction false} RemoveSpacesOfToken(t: string)
    requires forall i :: 0 <= i < |t| ==> ClassOf(t[i]) != Space
    ensures RemoveSpaces(t) == t
  {
    if t != [] {
      RemoveSpacesOfToken(t[1..]);
    }
  }

  /**
    `WordPunctTokenizer().tokenize`: the leftmost-longest matches of
    `\w+|[^\w\s]+`, i.e. the maximal runs of word characters and of
    punctuation characters, whitespace skipped.
  */
  function Tokenize(s: string): seq<string>
    decreases |s|
  {
    if s == [] then []
    else if ClassOf(s[0]) == Space then Tokenize(s[1..])
    else
      var n := RunLength(s, ClassOf(s[0]));
      [s[..n]] + Tokenize(s[n..])
  }

  /**
    Every token is a non-empty run of one class, and the tokens put back
    together are the input without its whitespace: nothing but whitespace
    is lost, nothing is reordered.
  */
  lemma {:induction false} TokenizeCoversInput(s: string)
    ensures forall i :: 0 <= i < |Tokenize(s)| ==> IsToken(Tokenize(s)[i])
    ensures Concat(Tokenize(s)) == RemoveSpaces(s)
    decreases |s|
  {
    if s == [] {
    } else if ClassOf(s[0]) == Space {
      TokenizeCoversInput(s[1..]);
    } else {
      var n := RunLength(s, ClassOf(s[0]));
      TokenizeCoversInput(s[n..]);
      assert s == s[..n] + s[n..];
      RemoveSpacesAppend(s[..n], s[n..]);
      RemoveSpacesOfToken(s[..n]);
      var ts := Tokenize(s);
      assert ts == [s[..n]] + Tokenize(s[n..]);
      assert ts[1..] == Tokenize(s[n..]);
    }
  }

  /** Every character of every token comes from the input. */
  lemma {:induction false} TokenCharsFromInput(s: string)
    ensures forall t, c :: t in Tokenize(s) && c in t ==> c in s
    decreases |s|
  {
    if s == [] {
    } else if ClassOf(s[0]) == Space {
      TokenCharsFromInput(s[1..]);
    } else {
      var n := RunLength(s, ClassOf(s[0]));
      TokenCharsFromInput(s[n..]);
      assert Tokenize(s) == [s[..n]] + Tokenize(s[n..]);
      forall t, c | t in Tokenize(s) && c in t ensures c in s {
        if t == s[..n] {
          var j :| 0 <= j < n && s[j] == c;
        } else {
          assert t in Tokenize(s[n..]);
          var j :| 0 <= j < |s| - n && s[n..][j] == c;
          assert s[n + j] == c;
        }
      }
    }
  }

  /** A token that survives the `isalnum` filter. */
  predicate IsAlnumWord(t: string) {
    |t| > 0 && forall i :: 0 <= i < |t| ==> IsAlnum(t[i])
  }

  /** `[word for word in tokens if word.isalnum()]`. */
  function KeepAlnum(tokens: seq<string>): seq<string> {
    if tokens == [] then []
    else (if IsAlnumWord(tokens[0]) then [tokens[0]] else []) + KeepAlnum(tokens[1..])
  }

  /** The filter keeps exactly the alphanumeric tokens. */
  lemma {:induction false} KeepAlnumMembers(tokens: seq<string>)
    ensures |KeepAlnum(tokens)| <= |tokens|
    ensures forall t :: t in KeepAlnum(tokens) <==> t in tokens && IsAlnumWord(t)
  {
    if tokens != [] {
      KeepAlnumMembers(tokens[1..]);
      assert tokens == [tokens[0]] + tokens[1..];
    }
  }

  /** The filter keeps the tokens' order: it distributes over concatenation. */
  lemma {:induction false} KeepAlnumAppend(a: seq<string>, b: seq<string>)
    ensures KeepAlnum(a + b) == KeepAlnum(a) + KeepAlnum(b)
  {
    if a == [] {
      assert a + b == b;
    } else {
      var t, rest := a[0], a[1..];
      assert a == [t] + rest;
      assert a + b == [t] + (rest + b);
      KeepAlnumCons(t, rest + b);
      KeepAlnumCons(t, rest);
      KeepAlnumAppend(rest, b);
      var head, x, y := if IsAlnumWord(t) then [t] else [], KeepAlnum(rest), KeepAlnum(b);
      assert head + (x + y) == (head + x) + y;
    }
  }

  /** `custom_tokenize`. */
  function CustomTokenize(text: string): (words: seq<string>)
    ensures forall i :: 0 <= i < |words| ==> IsAlnumWord(words[i])
    ensures forall t :: t in words <==> t in Tokenize(text) && IsAlnumWord(t)
  {
    KeepAlnumMembers(Tokenize(text));
    KeepAlnum(Tokenize(text))
  }

  // ---------------------------------------------------------------------
  // Joining
  // ---------------------------------------------------------------------

  /** `" ".join(words)`. */
  function Join(words: seq<string>): string {
    if words == [] then []
    else if |words| == 1 then words[0]
    else words[0] + " " + Join(words[1..])
  }

  /** No leading or trailing space and never two spaces in a row. */
  predicate WellSpaced(r: string) {
    && (|r| > 0 ==> r[0] != ' ' && r[|r| - 1] != ' ')
    && forall i :: 0 <= i < |r| - 1 && r[i] == ' ' ==> r[i + 1] != ' '
  }

  /** What a normalised column value looks like. */
  predicate NormalForm(r: string) {
    && (forall i :: 0 <= i < |r| ==> IsLowerAlnum(r[i]) || r[i] == ' ')
    && WellSpaced(r)
  }

  /** A word already in normal form: lower-case letters and digits. */
  predicate IsLowerWord(t: string) {
    |t| > 0 && forall i :: 0 <= i < |t| ==> IsLowerAlnum(t[i])
  }

  /** Joining lower-case alphanumeric words gives a value in normal form. */
  lemma {:induction false} JoinNormalForm(words: seq<string>)
    requires forall i :: 0 <= i < |words| ==> IsLowerWord(words[i])
    ensures NormalForm(Join(words))
  {
    if |words| > 1 {
      JoinNormalForm(words[1..]);
      var w, rest := words[0], Join(words[1..]);
      var r := w + " " + rest;
      assert Join(words) == r;
      assert |rest| > 0 by { assert IsLowerWord(words[1]); JoinNonEmpty(words[1..]); }
      forall i | 0 <= i < |r| ensures IsLowerAlnum(r[i]) || r[i] == ' ' {
        if i > |w| { assert r[i] == rest[i - |w| - 1]; }
      }
      forall i | 0 <= i < |r| - 1 && r[i] == ' ' ensures r[i + 1] != ' ' {
        if i > |w| { assert r[i] == rest[i - |w| - 1] && r[i + 1] == rest[i - |w|]; }
        else if i == |w| { assert r[i + 1] == rest[0]; }
      }
    }
  }

  lemma {:induction false} JoinNonEmpty(words: seq<string>)
    requires |words| > 0 && |words[0]| > 0
    ensures |Join(words)| > 0
  {
  }

  // ---------------------------------------------------------------------
  // Placeholder substitution and lower-casing
  // ---------------------------------------------------------------------

  const Placeholder: string := "[comma]"

  predicate OccursAt(s: string, i: nat) {
    i + |Placeholder| <= |s| && s[i..i + |Placeholder|] == Placeholder
  }

  /** The placeholder occurs nowhere in `s`. */
  predicate NoPlaceholder(s: string) {
    forall i :: 0 <= i < |s| ==> !OccursAt(s, i)
  }

  /** Dropping the first character keeps the placeholder absent. */
  lemma NoPlaceholderTail(s: string)
    requires |s| > 0 && NoPlaceholder(s)
    ensures NoPlaceholder(s[1..])
  {
    forall i | 0 <= i < |s| - 1 ensures !OccursAt(s[1..], i) {
      assert !OccursAt(s, i + 1);
      if i + |Placeholder| <= |s| - 1 {
        assert s[1..][i..i + |Placeholder|] == s[i + 1..i + 1 + |Placeholder|];
      }
    }
  }

  /** `s.replace('[comma]', ',')`: left to right, non-overlapping. */
  function ReplaceComma(s: string): string
    decreases |s|
  {
    if |s| >= |Placeholder| && s[..|Placeholder|] == Placeholder then
      [','] + ReplaceComma(s[|Placeholder|..])
    else if s == [] then []
    else [s[0]] + ReplaceComma(s[1..])
  }

  /** A string without the placeholder is left as it is. */
  lemma {:induction false} ReplaceCommaUnchanged(s: string)
    requires NoPlaceholder(s)
    ensures ReplaceComma(s) == s
    decreases |s|
  {
    if s != [] {
      assert !OccursAt(s, 0);
      NoPlaceholderTail(s);
      ReplaceCommaUnchanged(s[1..]);
      assert s == [s[0]] + s[1..];
    }
  }

  /**
    A prefix of `ReplaceComma(t)` without a comma was copied unchanged from
    the input, since every replacement writes a comma.
  */
  lemma {:induction false} CommaFreePrefix(t: string, w: string)
    requires ',' !in w
    requires |w| <= |ReplaceComma(t)| && ReplaceComma(t)[..|w|] == w
    ensures |w| <= |t| && t[..|w|] == w
    decreases |t|
  {
    if w != [] {
      if |t| >= |Placeholder| && t[..|Placeholder|] == Placeholder {
        CommaAtHead(t, w);
        assert false;
      } else if t == [] {
      } else {
        var rest := ReplaceComma(t[1..]);
        assert ReplaceComma(t) == [t[0]] + rest;
        assert rest[..|w| - 1] == w[1..];
        CommaFreePrefix(t[1..], w[1..]);
        assert t == [t[0]] + t[1..];
      }
    }
  }

  /** A window starting past the first character of `[c] + rest` is a window of `rest`. */
  lemma ShiftedWindow(r: string, rest: string, i: nat)
    requires |r| == |rest| + 1 && r[1..] == rest && NoPlaceholder(rest)
    requires 0 < i < |r|
    ensures !OccursAt(r, i)
  {
    assert !OccursAt(rest, i - 1);
    if i + |Placeholder| <= |r| {
      assert r[i..i + |Placeholder|] == rest[i - 1..i - 1 + |Placeholder|];
    }
  }

  /** A replacement at the head of the input writes a comma first. */
  lemma CommaAtHead(t: string, w: string)
    ensures (&& |t| >= |Placeholder| && t[..|Placeholder|] == Placeholder
             && 0 < |w| <= |ReplaceComma(t)| && ReplaceComma(t)[..|w|] == w) ==> ',' in w
  {
    if && |t| >= |Placeholder| && t[..|Placeholder|] == Placeholder
       && 0 < |w| <= |ReplaceComma(t)| && ReplaceComma(t)[..|w|] == w {
      assert w[0] == ReplaceComma(t)[0] == ',';
    }
  }

  /** After the substitution no placeholder is left, not even one formed across a replacement. */
  lemma {:induction false} ReplaceCommaRemovesAll(s: string)
    ensures NoPlaceholder(ReplaceComma(s))
    decreases |s|
  {
    var r := ReplaceComma(s);
    if |s| >= |Placeholder| && s[..|Placeholder|] == Placeholder {
      var rest := ReplaceComma(s[|Placeholder|..]);
      ReplaceCommaRemovesAll(s[|Placeholder|..]);
      assert r == [','] + rest;
      forall i | 0 <= i < |r| ensures !OccursAt(r, i) {
        if i > 0 {
          ShiftedWindow(r, rest, i);
        } else {
          assert r[0] != Placeholder[0];
        }
      }
    } else if s != [] {
      var rest := ReplaceComma(s[1..]);
      ReplaceCommaRemovesAll(s[1..]);
      assert r == [s[0]] + rest;
      forall i | 0 <= i < |r| ensures !OccursAt(r, i) {
        if i > 0 {
          ShiftedWindow(r, rest, i);
        } else if OccursAt(r, 0) {
          var w := Placeholder[1..];
          assert rest[..|w|] == r[1..|Placeholder|];
          if |s| >= |Placeholder| {
            assert s[..|Placeholder|] == [s[0]] + s[1..][..|w|];
          }
          CommaFreePrefix(s[1..], w);
          assert false;
        }
      }
    }
  }

  /** A string without `[` holds no placeholder. */
  lemma NoBracketNoPlaceholder(s: string)
    requires '[' !in s
    ensures NoPlaceholder(s)
  {
    forall i | 0 <= i < |s| ensures !OccursAt(s, i) {
      if i + |Placeholder| <= |s| {
        assert s[i..i + |Placeholder|][0] == s[i];
      }
    }
  }

  /** Where a placeholder starts, it is replaced by one comma. */
  lemma ReplaceCommaReplaces(t: string)
    requires |t| >= |Placeholder| && t[..|Placeholder|] == Placeholder
    ensures ReplaceComma(t) == [','] + ReplaceComma(t[|Placeholder|..])
  {
  }

  /** Where no placeholder starts, the first character is copied. */
  lemma ReplaceCommaCopies(t: string)
    requires t != [] && !(|t| >= |Placeholder| && t[..|Placeholder|] == Placeholder)
    ensures ReplaceComma(t) == [t[0]] + ReplaceComma(t[1..])
  {
  }

  /** A placeholder after a non-empty prefix without one cannot start in that prefix. */
  lemma PlaceholderNotStraddled(a: string, b: string)
    requires a != [] && !(|a| >= |Placeholder| && a[..|Placeholder|] == Placeholder)
    ensures var s := a + Placeholder + b; !(|s| >= |Placeholder| && s[..|Placeholder|] == Placeholder)
  {
    var s := a + Placeholder + b;
    if |a| >= |Placeholder| {
      assert s[..|Placeholder|] == a[..|Placeholder|];
    } else {
      assert s[..|Placeholder|][|a|] == '[';
      assert Placeholder[|a|] != '[';
    }
  }

  /** Cutting a three-part string inside its first part. */
  lemma SliceAppend3(x: string, y: string, z: string, k: nat)
    requires k <= |x|
    ensures (x + y + z)[..k] == x[..k] && (x + y + z)[k..] == x[k..] + y + z
  {
  }

  /** The placeholder at the very start becomes a comma. */
  lemma ReplaceCommaAtStart(b: string)
    ensures ReplaceComma(Placeholder + b) == [','] + ReplaceComma(b)
  {
    var s := Placeholder + b;
    assert s[..|Placeholder|] == Placeholder && s[|Placeholder|..] == b;
  }

  /** The inductive step of ReplaceCommaSplit when `a` starts with a placeholder. */
  lemma ReplaceCommaSplitSkip(a: string, b: string)
    requires |a| >= |Placeholder| && a[..|Placeholder|] == Placeholder
    requires ReplaceComma(a[|Placeholder|..] + Placeholder + b)
             == ReplaceComma(a[|Placeholder|..]) + [','] + ReplaceComma(b)
    ensures ReplaceComma(a + Placeholder + b) == ReplaceComma(a) + [','] + ReplaceComma(b)
  {
    var s, a' := a + Placeholder + b, a[|Placeholder|..];
    SliceAppend3(a, Placeholder, b, |Placeholder|);
    ReplaceCommaReplaces(s);
    ReplaceCommaReplaces(a);
    var ra, rb := ReplaceComma(a'), ReplaceComma(b);
    assert [','] + (ra + [','] + rb) == ([','] + ra) + [','] + rb;
  }

  /** The inductive step of ReplaceCommaSplit when `a` starts with a copied character. */
  lemma ReplaceCommaSplitCopy(a: string, b: string)
    requires a != [] && !(|a| >= |Placeholder| && a[..|Placeholder|] == Placeholder)
    requires ReplaceComma(a[1..] + Placeholder + b) == ReplaceComma(a[1..]) + [','] + ReplaceComma(b)
    ensures ReplaceComma(a + Placeholder + b) == ReplaceComma(a) + [','] + ReplaceComma(b)
  {
    var s, a' := a + Placeholder + b, a[1..];
    PlaceholderNotStraddled(a, b);
    SliceAppend3(a, Placeholder, b, 1);
    ReplaceCommaCopies(s);
    ReplaceCommaCopies(a);
    var ra, rb := ReplaceComma(a'), ReplaceComma(b);
    assert [a[0]] + (ra + [','] + rb) == ([a[0]] + ra) + [','] + rb;
  }

  /**
    Each placeholder becomes one comma, whatever surrounds it: a match never
    straddles the placeholder, because only its first character is `[`.
  */
  lemma {:induction false} ReplaceCommaSplit(a: string, b: string)
    ensures ReplaceComma(a + Placeholder + b) == ReplaceComma(a) + [','] + ReplaceComma(b)
    decreases |a|
  {
    if a == [] {
      ReplaceCommaAtStart(b);
      assert a + Placeholder + b == Placeholder + b;
    } else if |a| >= |Placeholder| && a[..|Placeholder|] == Placeholder {
      ReplaceCommaSplit(a[|Placeholder|..], b);
      ReplaceCommaSplitSkip(a, b);
    } else {
      ReplaceCommaSplit(a[1..], b);
      ReplaceCommaSplitCopy(a, b);
    }
  }

  function LowerChar(c: char): char {
    if IsUpper(c) then (c as int + 32) as char else c
  }

  /** `s.lower()` on ASCII. */
  function Lower(s: string): (r: string)
    ensures |r| == |s|
    ensures forall i :: 0 <= i < |s| ==> !IsUpper(r[i])
    ensures forall i :: 0 <= i < |s| && !IsUpper(s[i]) ==> r[i] == s[i]
    ensures forall i :: 0 <= i < |s| && IsUpper(s[i]) ==> r[i] as int == s[i] as int + 32
  {
    seq(|s|, i requires 0 <= i < |s| => LowerChar(s[i]))
  }

  // ---------------------------------------------------------------------
  // The two column normalisations
  // ---------------------------------------------------------------------

  /** Words produced from a value without upper-case letters are lower-case words. */
  lemma LowerWords(s: string)
    requires forall i :: 0 <= i < |s| ==> !IsUpper(s[i])
    ensures forall i :: 0 <= i < |CustomTokenize(s)| ==> IsLowerWord(CustomTokenize(s)[i])
  {
    var words := CustomTokenize(s);
    TokenCharsFromInput(s);
    forall i | 0 <= i < |words| ensures IsLowerWord(words[i]) {
      var w := words[i];
      assert w in Tokenize(s);
      forall j | 0 <= j < |w| ensures IsLowerAlnum(w[j]) {
        assert w[j] in w;
        assert w[j] in s;
      }
    }
  }

  /** The text column: placeholder, lower-case, tokenize, join. */
  function NormaliseText(text: string): (r: string)
    ensures NormalForm(r)
  {
    var lowered := Lower(ReplaceComma(text));
    LowerWords(lowered);
    JoinNormalForm(CustomTokenize(lowered));
    Join(CustomTokenize(lowered))
  }

  /** The aspect column: the same without the placeholder substitution. */
  function NormaliseAspect(aspect: string): (r: string)
    ensures NormalForm(r)
  {
    var lowered := Lower(aspect);
    LowerWords(lowered);
    JoinNormalForm(CustomTokenize(lowered));
    Join(CustomTokenize(lowered))
  }

  // ---------------------------------------------------------------------
  // Idempotence
  // ---------------------------------------------------------------------

  /** A token made of `\w` characters. */
  predicate IsWordToken(t: string) {
    |t| > 0 && forall i :: 0 <= i < |t| ==> ClassOf(t[i]) == Word
  }

  /** A token followed by something of another class is matched whole. */
  lemma TokenizeCons(t: string, u: string)
    requires IsToken(t)
    requires u == [] || ClassOf(u[0]) != ClassOf(t[0])
    ensures Tokenize(t + u) == [t] + Tokenize(u)
  {
    var s := t + u;
    assert s[0] == t[0];
    assert forall i :: 0 <= i < |t| ==> s[i] == t[i];
    if u != [] {
      assert s[|t|] == u[0];
    }
    assert RunLength(s, ClassOf(t[0])) == |t|;
    assert s[..|t|] == t && s[|t|..] == u;
  }

  /** Whitespace between tokens is skipped. */
  lemma TokenizeSpace(c: char, u: string)
    requires ClassOf(c) == Space
    ensures Tokenize([c] + u) == Tokenize(u)
  {
    assert ([c] + u)[1..] == u;
  }

  /** Tokenizing words joined by single spaces gives the words back. */
  lemma {:induction false} TokenizeJoin(words: seq<string>)
    requires forall i :: 0 <= i < |words| ==> IsWordToken(words[i])
    ensures Tokenize(Join(words)) == words
  {
    if words == [] {
    } else if |words| == 1 {
      TokenizeCons(words[0], []);
      assert words[0] + [] == words[0];
    } else {
      var w, rest := words[0], Join(words[1..]);
      assert Join(words) == w + (" " + rest);
      TokenizeCons(w, " " + rest);
      TokenizeSpace(' ', rest);
      TokenizeJoin(words[1..]);
      assert words == [w] + words[1..];
    }
  }

  lemma {:induction false} KeepAllAlnum(words: seq<string>)
    requires forall i :: 0 <= i < |words| ==> IsAlnumWord(words[i])
    ensures KeepAlnum(words) == words
  {
    if words != [] {
      KeepAllAlnum(words[1..]);
      assert words == [words[0]] + words[1..];
    }
  }

  /** Neither the substitution nor lower-casing changes a value in normal form. */
  lemma NormalFormUntouched(r: string)
    requires NormalForm(r)
    ensures ReplaceComma(r) == r && Lower(r) == r
  {
    forall i | 0 <= i < |r| ensures !OccursAt(r, i) {
      assert r[i] != Placeholder[0];
      if i + |Placeholder| <= |r| {
        assert r[i..i + |Placeholder|][0] == r[i];
      }
    }
    ReplaceCommaUnchanged(r);
    forall i | 0 <= i < |r| ensures Lower(r)[i] == r[i] {
      assert !IsUpper(r[i]);
    }
  }

  /** Normalising a join of lower-case words changes nothing, in either column. */
  lemma JoinIsFixpoint(words: seq<string>)
    requires forall i :: 0 <= i < |words| ==> IsLowerWord(words[i])
    ensures NormaliseText(Join(words)) == Join(words)
    ensures NormaliseAspect(Join(words)) == Join(words)
  {
    JoinNormalForm(words);
    NormalFormUntouched(Join(words));
    forall i | 0 <= i < |words| ensures IsWordToken(words[i]) && IsAlnumWord(words[i]) {
      assert IsLowerWord(words[i]);
    }
    TokenizeJoin(words);
    KeepAllAlnum(words);
  }

  /** Normalising the text column twice is the same as once. */
  lemma NormaliseTextIdempotent(text: string)
    ensures NormaliseText(NormaliseText(text)) == NormaliseText(text)
  {
    var lowered := Lower(ReplaceComma(text));
    LowerWords(lowered);
    JoinIsFixpoint(CustomTokenize(lowered));
  }

  /** Normalising the aspect column twice is the same as once. */
  lemma NormaliseAspectIdempotent(aspect: string)
    ensures NormaliseAspect(NormaliseAspect(aspect)) == NormaliseAspect(aspect)
  {
    var lowered := Lower(aspect);
    LowerWords(lowered);
    JoinIsFixpoint(CustomTokenize(lowered));
  }

  // ---------------------------------------------------------------------
  // The placeholder in the two columns
  // ---------------------------------------------------------------------

  /** Three runs of alternating classes are three tokens. */
  lemma TokenizeThree(x: string, y: string, z: string)
    requires IsToken(x) && IsToken(y) && IsToken(z)
    requires ClassOf(x[0]) != ClassOf(y[0]) && ClassOf(y[0]) != ClassOf(z[0])
    ensures Tokenize(x + y + z) == [x, y, z]
  {
    var u := y + z;
    assert x + y + z == x + u;
    TokenizeCons(z, []);
    assert z + [] == z;
    TokenizeCons(y, z);
    TokenizeCons(x, u);
  }

  /** The word inside the placeholder is one word token that the filter keeps. */
  lemma CommaWord()
    ensures IsToken("comma") && IsAlnumWord("comma")
  {
    var w := "comma";
    assert forall i :: 0 <= i < |w| ==> IsLower(w[i]);
  }

  lemma PlaceholderSplit()
    ensures Tokenize(Placeholder) == ["[", "comma", "]"]
  {
    var open, word, close := "[", "comma", "]";
    assert IsToken(open) && IsToken(close);
    CommaWord();
    assert Placeholder == open + word + close;
    TokenizeThree(open, word, close);
  }

  /** A word between two non-words is all the filter keeps. */
  lemma KeepMiddle(x: string, y: string, z: string)
    requires !IsAlnumWord(x) && IsAlnumWord(y) && !IsAlnumWord(z)
    ensures KeepAlnum([x, y, z]) == [y]
  {
    var ts := [x, y, z];
    assert ts[1..] == [y, z];
    assert [y, z][1..] == [z];
    assert [z][1..] == [];
    assert KeepAlnum([z]) == [];
    assert KeepAlnum([y, z]) == [y] + KeepAlnum([z]);
    assert KeepAlnum(ts) == [] + KeepAlnum([y, z]);
  }

  lemma PlaceholderTokens()
    ensures CustomTokenize(Placeholder) == ["comma"]
  {
    var open, word, close := "[", "comma", "]";
    PlaceholderSplit();
    assert !IsAlnumWord(open) by { assert open[0] == '['; }
    assert !IsAlnumWord(close) by { assert close[0] == ']'; }
    CommaWord();
    KeepMiddle(open, word, close);
  }

  /** In the text column the placeholder becomes a comma, which is then dropped. */
  lemma PlaceholderDroppedFromText()
    ensures NormaliseText(Placeholder) == ""
  {
    var lowered := Lower(ReplaceComma(Placeholder));
    assert ReplaceComma(Placeholder) == ",";
    assert lowered == ",";
    assert IsToken(",");
    TokenizeCons(",", []);
    assert "," + [] == ",";
    assert !IsAlnumWord(",") by { assert ","[0] == ','; }
    assert CustomTokenize(lowered) == [];
  }

  /** In the aspect column the placeholder is not substituted and leaves the word `comma`. */
  lemma PlaceholderLower()
    ensures Lower(Placeholder) == Placeholder
  {
    assert forall i :: 0 <= i < |Placeholder| ==> !IsUpper(Placeholder[i]);
  }

  lemma PlaceholderKeptInAspect()
    ensures NormaliseAspect(Placeholder) == "comma"
  {
    PlaceholderLower();
    PlaceholderTokens();
    assert ["comma"][1..] == [];
  }

  lemma SnakeCaseToken()
    ensures IsToken("snake_case") && !IsAlnumWord("snake_case")
  {
    var t := "snake_case";
    assert forall i :: 0 <= i < |t| ==> ClassOf(t[i]) == Word;
    assert t[5] == '_';
  }

  /** A `\w` run containing an underscore is one token, and it is dropped. */
  lemma SnakeCaseTokenized()
    ensures Tokenize("snake_case") == ["snake_case"]
  {
    SnakeCaseToken();
    TokenizeCons("snake_case", []);
    assert "snake_case" + [] == "snake_case";
  }

  lemma UnderscoreRunDropped()
    ensures CustomTokenize("snake_case") == []
  {
    SnakeCaseToken();
    SnakeCaseTokenized();
    assert KeepAlnum(["snake_case"]) == [] + KeepAlnum([]);
  }

  // ---------------------------------------------------------------------
  // A worked sentence
  // ---------------------------------------------------------------------

  lemma {:induction false} LowerAppend(a: string, b: string)
    ensures Lower(a + b) == Lower(a) + Lower(b)
  {
    assert forall i :: 0 <= i < |a| ==> (a + b)[i] == a[i];
    assert forall i :: |a| <= i < |a| + |b| ==> (a + b)[i] == b[i - |a|];
  }

  /** Two words around a comma tokenize as the word, the comma and the word. */
  lemma CommaBetweenTokens(x: string, y: string)
    requires IsWordToken(x) && IsWordToken(y)
    ensures Tokenize(x + [','] + y) == [x, [','], y]
  {
    assert IsToken(x) && IsToken(y) && IsToken([',']);
    TokenizeThree(x, [','], y);
  }

  /** Lower-casing leaves two lower-case words around a comma alone. */
  lemma CommaBetweenLower(x: string, y: string)
    requires IsLowerWord(x) && IsLowerWord(y)
    ensures Lower(x + [','] + y) == x + [','] + y
  {
    var r := x + [','] + y;
    forall i | 0 <= i < |r| ensures Lower(r)[i] == r[i] {
      if i < |x| {
        assert r[i] == x[i];
      } else if i > |x| {
        assert r[i] == y[i - |x| - 1];
      }
    }
  }

  /** The filter drops the comma between two words. */
  lemma CommaBetweenDropped(x: string, y: string)
    requires IsAlnumWord(x) && IsAlnumWord(y)
    ensures KeepAlnum([x, [','], y]) == [x, y]
  {
    var ts := [x, [','], y];
    assert !IsAlnumWord([',']) by { assert [','][0] == ','; }
    assert ts[1..] == [[','], y] && ts[1..][1..] == [y] && ts[1..][1..][1..] == [];
    assert KeepAlnum([y]) == [y];
    assert KeepAlnum(ts[1..]) == [y];
  }

  /** `food[comma]service` becomes `food service`: the placeholder separates two words. */
  lemma PlaceholderSeparatesWords(x: string, y: string)
    requires IsLowerWord(x) && IsLowerWord(y)
    ensures NormaliseText(x + Placeholder + y) == x + " " + y
  {
    assert '[' !in x && '[' !in y by {
      assert forall i :: 0 <= i < |x| ==> IsLowerAlnum(x[i]);
      assert forall i :: 0 <= i < |y| ==> IsLowerAlnum(y[i]);
    }
    NoBracketNoPlaceholder(x);
    NoBracketNoPlaceholder(y);
    ReplaceCommaUnchanged(x);
    ReplaceCommaUnchanged(y);
    ReplaceCommaSplit(x, y);
    CommaBetweenLower(x, y);
    assert IsWordToken(x) && IsWordToken(y) && IsAlnumWord(x) && IsAlnumWord(y);
    CommaBetweenTokens(x, y);
    CommaBetweenDropped(x, y);
    assert Join([x, y][1..]) == y;
  }

  lemma FoodServiceSplit()
    ensures NormaliseText("food" + Placeholder + "service") == "food" + " " + "service"
  {
    assert IsLowerWord("food") by { var t := "food"; assert forall i :: 0 <= i < |t| ==> IsLowerAlnum(t[i]); }
    assert IsLowerWord("service") by { var t := "service"; assert forall i :: 0 <= i < |t| ==> IsLowerAlnum(t[i]); }
    PlaceholderSeparatesWords("food", "service");
  }

  /** A value without capitals is left alone by lower-casing. */
  lemma LowerNoUpper(s: string)
    requires forall c :: c in s ==> !IsUpper(c)
    ensures Lower(s) == s
  {
    forall i | 0 <= i < |s| ensures Lower(s)[i] == s[i] {
      assert s[i] in s;
    }
  }

  /** A word, a comma, and words separated by single spaces, ending in punctuation. */
  lemma TokenizeSentence(w1: string, w2: string, w3: string, w4: string, p: string)
    requires IsWordToken(w1) && IsWordToken(w2) && IsWordToken(w3) && IsWordToken(w4)
    requires IsToken(p) && ClassOf(p[0]) == Punct
    ensures Tokenize(w1 + " " + w2 + [','] + " " + w3 + " " + w4 + p) == [w1, w2, [','], w3, w4, p]
  {
    TokenizeCons(p, []);
    assert p + [] == p;
    var s4 := " " + (w4 + p);
    SpacedWord(w4, p);
    var s2 := " " + (w3 + s4);
    SpacedWord(w3, s4);
    var s1 := [','] + s2;
    assert IsToken([',']) && s2[0] == ' ';
    TokenizeCons([','], s2);
    var sm := " " + (w2 + s1);
    SpacedWord(w2, s1);
    assert sm[0] == ' ';
    TokenizeCons(w1, sm);
    ConsSix(w1, w2, [','], w3, w4, p);
    NestRight(w1, " ", w2, [','], " ", w3, " ", w4, p);
  }

  /** A space and then a word: the space is skipped and the word is one token. */
  lemma SpacedWord(w: string, u: string)
    requires IsWordToken(w) && (u == [] || ClassOf(u[0]) != Word)
    ensures Tokenize(" " + (w + u)) == [w] + Tokenize(u)
  {
    TokenizeSpace(' ', w + u);
    TokenizeCons(w, u);
  }

  lemma ConsSix(a: string, b: string, c: string, d: string, e: string, f: string)
    ensures [a] + ([b] + ([c] + ([d] + ([e] + [f])))) == [a, b, c, d, e, f]
  {
  }

  // Regrouping concatenations, stated over plain variables so that the
  // solver does not meet them next to the tokenizer.

  lemma NestRight(a: string, b: string, c: string, d: string, e: string, f: string, g: string, h: string, i: string)
    ensures a + b + c + d + e + f + g + h + i == a + (b + (c + (d + (e + (f + (g + (h + i)))))))
  {
  }

  lemma GroupTail(a: string, b: string, c: string, d: string, e: string, f: string)
    ensures a + (b + c + d + e + f) == a + b + c + d + e + f
  {
  }

  lemma GroupAfterHead(a: string, b: string, c: string, d: string, e: string)
    ensures a + b + c + d + e == a + (b + c + d + e)
  {
  }

  /** Of those tokens the filter keeps the four words. */
  lemma KeepSentenceWords(w1: string, w2: string, w3: string, w4: string, p: string)
    requires IsAlnumWord(w1) && IsAlnumWord(w2) && IsAlnumWord(w3) && IsAlnumWord(w4)
    requires !IsAlnumWord(p)
    ensures KeepAlnum([w1, w2, [','], w3, w4, p]) == [w1, w2, w3, w4]
  {
    assert !IsAlnumWord([',']) by { assert [','][0] == ','; }
    var t5 := [p];
    KeepAlnumCons(p, []);
    var t4 := [w4] + t5;
    KeepAlnumCons(w4, t5);
    var t3 := [w3] + t4;
    KeepAlnumCons(w3, t4);
    var t2 := [[',']] + t3;
    KeepAlnumCons([','], t3);
    var t1 := [w2] + t2;
    KeepAlnumCons(w2, t2);
    KeepAlnumCons(w1, t1);
    ConsSix(w1, w2, [','], w3, w4, p);
    assert [p] + [] == [p];
  }

  /** One step of the filter. */
  lemma KeepAlnumCons(t: string, ts: seq<string>)
    ensures KeepAlnum([t] + ts) == (if IsAlnumWord(t) then [t] else []) + KeepAlnum(ts)
  {
    assert ([t] + ts)[1..] == ts;
  }

  /** The placeholder between the first two words and the rest becomes a comma. */
  lemma SentenceReplaced(x: string, y: string)
    requires '[' !in x && '[' !in y
    ensures ReplaceComma(x + Placeholder + y) == x + [','] + y
  {
    NoBracketNoPlaceholder(x);
    NoBracketNoPlaceholder(y);
    ReplaceCommaUnchanged(x);
    ReplaceCommaUnchanged(y);
    ReplaceCommaSplit(x, y);
  }

  /** Lower-casing changes only the capitalised first word. */
  lemma SentenceLowerCase(c: string, w1: string, t: string)
    requires Lower(c) == w1 && forall ch :: ch in t ==> !IsUpper(ch)
    ensures Lower(c + t) == w1 + t
  {
    LowerNoUpper(t);
    LowerAppend(c, t);
  }

  /** The placeholder becomes a comma and only the capital is lowered. */
  lemma SentenceLowered(c: string, w1: string, w2: string, w3: string, w4: string, p: string)
    requires IsWordToken(c) && Lower(c) == w1
    requires IsLowerWord(w2) && IsLowerWord(w3) && IsLowerWord(w4)
    requires IsToken(p) && ClassOf(p[0]) == Punct && '[' !in p
    ensures Lower(ReplaceComma(c + " " + w2 + Placeholder + " " + w3 + " " + w4 + p))
         == w1 + " " + w2 + [','] + " " + w3 + " " + w4 + p
  {
    var x, y := c + " " + w2, " " + w3 + " " + w4 + p;
    GroupTail(x + Placeholder, " ", w3, " ", w4, p);
    LowerWordFacts(w2);
    LowerWordFacts(w3);
    LowerWordFacts(w4);
    assert '[' !in c by {
      assert forall i :: 0 <= i < |c| ==> ClassOf(c[i]) == Word;
    }
    SentenceReplaced(x, y);
    var t := " " + w2 + [','] + y;
    GroupAfterHead(c, " ", w2, [','], y);
    assert forall ch :: ch in p ==> !IsUpper(ch) by {
      assert forall i :: 0 <= i < |p| ==> ClassOf(p[i]) == Punct;
    }
    SentenceLowerCase(c, w1, t);
    GroupAfterHead(w1, " ", w2, [','], y);
    GroupTail(w1 + " " + w2 + [','], " ", w3, " ", w4, p);
  }

  /** Tokenized, filtered and joined, the lowered sentence is its four words. */
  lemma SentenceJoined(w1: string, w2: string, w3: string, w4: string, p: string)
    requires IsLowerWord(w1) && IsLowerWord(w2) && IsLowerWord(w3) && IsLowerWord(w4)
    requires IsToken(p) && ClassOf(p[0]) == Punct
    ensures Join(CustomTokenize(w1 + " " + w2 + [','] + " " + w3 + " " + w4 + p))
         == w1 + " " + w2 + " " + w3 + " " + w4
  {
    LowerWordFacts(w1);
    LowerWordFacts(w2);
    LowerWordFacts(w3);
    LowerWordFacts(w4);
    TokenizeSentence(w1, w2, w3, w4, p);
    assert !IsAlnumWord(p) by { assert ClassOf(p[0]) == Punct; }
    KeepSentenceWords(w1, w2, w3, w4, p);
    JoinFour(w1, w2, w3, w4);
  }

  /** Four words joined by single spaces. */
  lemma JoinFour(a: string, b: string, c: string, d: string)
    ensures Join([a, b, c, d]) == a + " " + b + " " + c + " " + d
  {
    assert Join([d]) == d;
    assert Join([c, d]) == c + " " + d by { assert [c, d][1..] == [d]; }
    assert Join([b, c, d]) == b + " " + Join([c, d]) by { assert [b, c, d][1..] == [c, d]; }
    assert Join([a, b, c, d]) == a + " " + Join([b, c, d]) by { assert [a, b, c, d][1..] == [b, c, d]; }
    GroupJoined(a, b, c, d, " ");
  }

  lemma GroupJoined(a: string, b: string, c: string, d: string, sp: string)
    ensures a + sp + (b + sp + (c + sp + d)) == a + sp + b + sp + c + sp + d
  {
  }

  /**
    A capitalised word and a word, the placeholder, two more words and trailing
    punctuation: the capital is lowered, the placeholder and the punctuation go,
    and the four words are joined by single spaces.
  */
  lemma SentenceNormalised(c: string, w1: string, w2: string, w3: string, w4: string, p: string)
    requires IsWordToken(c) && Lower(c) == w1
    requires IsLowerWord(w1) && IsLowerWord(w2) && IsLowerWord(w3) && IsLowerWord(w4)
    requires IsToken(p) && ClassOf(p[0]) == Punct && '[' !in p
    ensures NormaliseText(c + " " + w2 + Placeholder + " " + w3 + " " + w4 + p)
         == w1 + " " + w2 + " " + w3 + " " + w4
  {
    SentenceLowered(c, w1, w2, w3, w4, p);
    SentenceJoined(w1, w2, w3, w4, p);
  }

  /** A lower-case word is a word token the filter keeps and has no `[` and no capital. */
  lemma LowerWordFacts(w: string)
    requires IsLowerWord(w)
    ensures IsWordToken(w) && IsAlnumWord(w)
    ensures '[' !in w && forall ch :: ch in w ==> !IsUpper(ch)
  {
    assert forall i :: 0 <= i < |w| ==> IsLowerAlnum(w[i]);
  }

  /** The sentence `Great food[comma] awful service!!` becomes `great food awful service`. */
  lemma GreatFoodAwfulService()
    ensures NormaliseText("Great" + " " + "food" + Placeholder + " " + "awful" + " " + "service" + "!!")
         == "great" + " " + "food" + " " + "awful" + " " + "service"
  {
    var c, w1, w2, w3, w4, p := "Great", "great", "food", "awful", "service", "!!";
    assert IsWordToken(c) by { assert forall i :: 0 <= i < |c| ==> IsAlnum(c[i]); }
    assert Lower(c) == w1 by {
      assert c[0] == 'G';
      assert forall i :: 1 <= i < |c| ==> !IsUpper(c[i]);
    }
    assert IsLowerWord(w1) by { assert forall i :: 0 <= i < |w1| ==> IsLower(w1[i]); }
    assert IsLowerWord(w2) by { assert forall i :: 0 <= i < |w2| ==> IsLower(w2[i]); }
    assert IsLowerWord(w3) by { assert forall i :: 0 <= i < |w3| ==> IsLower(w3[i]); }
    assert IsLowerWord(w4) by { assert forall i :: 0 <= i < |w4| ==> IsLower(w4[i]); }
    assert IsToken(p) && ClassOf(p[0]) == Punct && '[' !in p by {
      assert forall i :: 0 <= i < |p| ==> p[i] == '!';
    }
    SentenceNormalised(c, w1, w2, w3, w4, p);
  }
}
