/** The cell normalizers of the brand merge tool (tools/merge-brands.mjs): each
    turns one raw CSV cell into the value stored in a brand record. A cell the
    CSV reader did not produce is the empty string here, which every normalizer
    treats like JavaScript's `undefined`/`null`. */
module Normalizers {
  import opened Wrappers
  import opened Text
  import opened Seqs
  import opened Urls

  // ---------------------------------------------------------------------------
  // The brand schema

  const SchemaFields: seq<string> := [
    "brand", "slug", "parent_company", "ownership_transparency", "hq", "year_founded",
    "self_manufactured", "in_house_testing", "made_in_usa", "manufacturing_locations",
    "certification", "assembled_in", "ingredient_sourcing", "ingredient_philosophy",
    "proprietary_blends", "product_categories", "product_types", "top_products",
    "unique_offering", "glass_or_plastic", "woman_owned", "vegan", "allergen_free",
    "clinically_tested", "sustainability", "non_profit_partner", "recalls_notices",
    "sources", "verification_status", "last_verified", "testing_qa_notes"]

  /** A column of the brand schema. */
  predicate IsSchemaField(h: string)
  {
    h in SchemaFields
  }

  const BooleanFields: seq<string> := ["self_manufactured", "in_house_testing", "made_in_usa", "woman_owned"]

  const NumberFields: seq<string> := ["year_founded"]

  const ArrayFields: seq<string> := [
    "manufacturing_locations", "certification", "product_categories",
    "product_types", "top_products", "sources"]

  // ---------------------------------------------------------------------------
  // Punctuation

  predicate IsDash(c: char)
  {
    c == '\U{2013}' || c == '\U{2014}'
  }

  /** One character of `harmonizePunctuation`. Its two quote rules replace a
      straight quote with the same straight quote, so only the en and em dashes
      change. */
  function HarmonizeChar(c: char): char
  {
    if IsDash(c) then '-' else c
  }

  function HarmonizePunctuation(s: string): (r: string)
    ensures |r| == |s|
    ensures forall i | 0 <= i < |s| :: r[i] == HarmonizeChar(s[i])
  {
    seq(|s|, i requires 0 <= i < |s| => HarmonizeChar(s[i]))
  }

  /** After harmonizing, no en or em dash is left and every other character is
      where it was; in particular curly quotes are kept as they are. */
  lemma HarmonizeEffect(s: string)
    ensures forall i | 0 <= i < |s| :: !IsDash(HarmonizePunctuation(s)[i])
    ensures forall i | 0 <= i < |s| && !IsDash(s[i]) :: HarmonizePunctuation(s)[i] == s[i]
    ensures HarmonizePunctuation(HarmonizePunctuation(s)) == HarmonizePunctuation(s)
  {
  }

  /** A string without dashes is left as it is. */
  lemma HarmonizeNoDash(s: string)
    requires forall k | 0 <= k < |s| :: !IsDash(s[k])
    ensures HarmonizePunctuation(s) == s
  {
  }

  /** The quote rules leave typographic quotes in place. */
  lemma HarmonizeKeepsCurlyQuotes()
    ensures HarmonizePunctuation("\U{201C}Pure\U{201D} \U{2018}n\U{2019} simple") == "\U{201C}Pure\U{201D} \U{2018}n\U{2019} simple"
    ensures HarmonizePunctuation("Omega\U{2013}3") == "Omega-3"
  {
    var a := "\U{201C}Pure\U{201D} \U{2018}n\U{2019} simple";
    assert HarmonizePunctuation(a) == a;
    assert HarmonizePunctuation("Omega\U{2013}3") == "Omega-3";
  }

  /** Harmonizing touches no whitespace, so it keeps a string normalized. */
  lemma {:induction false} HarmonizeNormalized(s: string)
    requires IsNormalized(s)
    ensures IsNormalized(HarmonizePunctuation(s))
  {
    HarmonizeCollapsed(s);
  }

  lemma {:induction false} HarmonizeCollapsed(s: string)
    requires Collapsed(s)
    ensures Collapsed(HarmonizePunctuation(s))
    decreases |s|
  {
    if s != [] {
      assert HarmonizePunctuation(s)[1..] == HarmonizePunctuation(s[1..]);
      HarmonizeCollapsed(s[1..]);
    }
  }

  // ---------------------------------------------------------------------------
  // Booleans

  const TrueWords: seq<string> := ["true", "yes", "y", "1"]

  const FalseWords: seq<string> := ["false", "no", "n", "0"]

  /** The reading of an already normalized, lower-cased cell. */
  function BooleanWord(word: string): Option<bool>
  {
    if word in TrueWords then Some(true)
    else if word in FalseWords then Some(false)
    else None
  }

  /** `parseBoolean`: the case- and whitespace-insensitive spellings of true and
      false; `None` for the empty cell and for anything else. */
  function ParseBoolean(value: string): (r: Option<bool>)
    ensures r == Some(true) <==> Lower(NormalizeWhitespace(value)) in TrueWords
    ensures r == Some(false) <==> Lower(NormalizeWhitespace(value)) in FalseWords
    ensures AllSpace(value) ==> r == None
  {
    NormalizeWhitespaceShape(value);
    if value == "" then None else BooleanWord(Lower(NormalizeWhitespace(value)))
  }

  /** Letter case does not matter: a cell without whitespace reads like its
      lower-cased spelling. */
  lemma ParseBooleanIgnoresCase(w: string)
    requires forall i | 0 <= i < |w| :: !IsSpace(w[i])
    ensures ParseBoolean(w) == ParseBoolean(Lower(w))
  {
    var l := Lower(w);
    NoSpaceNormalizes(w);
    assert forall i | 0 <= i < |l| :: !IsSpace(l[i]);
    NoSpaceNormalizes(l);
    LowerIdempotent(w);
    assert Lower(NormalizeWhitespace(w)) == l;
    assert Lower(NormalizeWhitespace(l)) == l;
    if w != "" {
      assert ParseBoolean(w) == BooleanWord(l);
      assert ParseBoolean(l) == BooleanWord(l);
    }
  }

  /** Surrounding whitespace does not matter. */
  lemma ParseBooleanIgnoresPadding(p: string, w: string, q: string)
    requires AllSpace(p) && AllSpace(q)
    requires w != [] && !IsSpace(w[0]) && !IsSpace(w[|w| - 1])
    ensures ParseBoolean(p + w + q) == ParseBoolean(w)
  {
    NormalizeWhitespacePadded(p, w, q);
  }

  /** A cell without whitespace is read by its lower-cased spelling. */
  lemma BooleanOfWord(w: string, l: string)
    requires w != [] && (forall i | 0 <= i < |w| :: !IsSpace(w[i])) && Lower(w) == l
    ensures ParseBoolean(w) == BooleanWord(l)
  {
    NoSpaceNormalizes(w);
  }

  /** A word without upper-case letters is its own lower-cased spelling. */
  lemma LowerOfLowerCase(w: string)
    requires forall i | 0 <= i < |w| :: !('A' <= w[i] <= 'Z')
    ensures Lower(w) == w
  {
  }

  // the tool's own self-test booleans, one lemma per answer

  lemma CapitalizedWords(w1: string, w2: string)
    requires w1 == "Yes" && w2 == "TRUE"
    ensures Lower(w1) == "yes" && Lower(w2) == "true"
  {
  }

  lemma TrueExamples(w1: string, w2: string, w3: string)
    requires w1 == "Yes" && w2 == "TRUE" && w3 == "1"
    ensures ParseBoolean(w1) == Some(true) && ParseBoolean(w2) == Some(true) && ParseBoolean(w3) == Some(true)
  {
    CapitalizedWords(w1, w2);
    LowerOfLowerCase(w3);
    BooleanOfWord(w1, "yes");
    BooleanOfWord(w2, "true");
    BooleanOfWord(w3, w3);
  }

  lemma FalseExamples(w1: string, w2: string)
    requires w1 == "no" && w2 == "0"
    ensures ParseBoolean(w1) == Some(false) && ParseBoolean(w2) == Some(false)
  {
    LowerOfLowerCase(w1);
    LowerOfLowerCase(w2);
    BooleanOfWord(w1, w1);
    BooleanOfWord(w2, w2);
  }

  lemma MaybeIsNoWord(w: string)
    requires w == "maybe"
    ensures w != [] && (forall i | 0 <= i < |w| :: !IsSpace(w[i]) && !('A' <= w[i] <= 'Z'))
    ensures w !in TrueWords && w !in FalseWords
  {
  }

  lemma NoAnswerExamples(w1: string, w2: string)
    requires w1 == "" && w2 == "maybe"
    ensures ParseBoolean(w1) == None && ParseBoolean(w2) == None
  {
    MaybeIsNoWord(w2);
    LowerOfLowerCase(w2);
    BooleanOfWord(w2, w2);
  }

  // ---------------------------------------------------------------------------
  // Brand references

  /** `normalizeBrandRef`: the text before the first `(`, whitespace-normalized
      and lower-cased. */
  function NormalizeBrandRef(ref: string): string
  {
    if ref == "" then "" else Lower(NormalizeWhitespace(Split(ref, '(')[0]))
  }

  /** A normalized reference has no `(`, is whitespace-normalized and has no
      upper-case ASCII letter. */
  lemma NormalizeBrandRefShape(ref: string)
    ensures var r := NormalizeBrandRef(ref);
      && '(' !in r
      && IsNormalized(r)
      && forall i | 0 <= i < |r| :: !('A' <= r[i] <= 'Z')
  {
    if ref != "" {
      var cleaned := Split(ref, '(')[0];
      var n := NormalizeWhitespace(cleaned);
      NormalizeKeepsAbsent(cleaned, '(');
      NormalizeWhitespaceShape(cleaned);
      LowerNormalized(n);
      var r := Lower(n);
      assert r == NormalizeBrandRef(ref);
      assert '(' !in r by {
        forall i | 0 <= i < |r| ensures r[i] != '(' {
          assert n[i] != '(';
        }
      }
    }
  }

  /** A parenthetical suffix such as a Notion backlink does not change the reference. */
  lemma NormalizeBrandRefDropsSuffix(name: string, suffix: string)
    requires '(' !in name
    ensures NormalizeBrandRef(name + "(" + suffix) == NormalizeBrandRef(name)
  {
    SplitCons(name, '(', suffix);
    if name != "" {
      SplitNoSeparator(name, '(');
    }
  }

  /** A normalized reference normalizes to itself. */
  lemma NormalizeBrandRefIdempotent(ref: string)
    ensures NormalizeBrandRef(NormalizeBrandRef(ref)) == NormalizeBrandRef(ref)
  {
    var r := NormalizeBrandRef(ref);
    NormalizeBrandRefShape(ref);
    if r != "" {
      SplitNoSeparator(r, '(');
      NormalizeWhitespaceIdempotent(r);
      LowerIdempotent(NormalizeWhitespace(Split(ref, '(')[0]));
    }
  }

  // ---------------------------------------------------------------------------
  // Lists

  predicate IsListSeparator(c: char)
  {
    c == ',' || c == ';'
  }

  /** `.filter(Boolean)` on strings. */
  function NonEmptyItems(items: seq<string>): (r: seq<string>)
    ensures forall i | 0 <= i < |r| :: r[i] != ""
    ensures forall x :: x in r <==> x in items && x != ""
    ensures IsSubsequence(r, items)
  {
    if items == [] then []
    else
      var rest := NonEmptyItems(items[1..]);
      assert forall x :: x in items <==> x == items[0] || x in items[1..];
      if items[0] == "" then
        SubsequenceSkip(rest, items);
        rest
      else
        SubsequenceKeepHead(items, rest);
        [items[0]] + rest
  }

  /** Keeping the head of `items` in front of a subsequence of its tail. */
  lemma SubsequenceKeepHead(items: seq<string>, rest: seq<string>)
    requires items != [] && IsSubsequence(rest, items[1..])
    ensures IsSubsequence([items[0]] + rest, items)
  {
    assert ([items[0]] + rest)[1..] == rest;
  }

  /** Dropping an empty head of `items` keeps a subsequence of non-empty items. */
  lemma SubsequenceSkip(rest: seq<string>, items: seq<string>)
    requires items != [] && items[0] == "" && IsSubsequence(rest, items[1..])
    requires forall i | 0 <= i < |rest| :: rest[i] != ""
    ensures IsSubsequence(rest, items)
  {
  }

  /** Each token whitespace-normalized, as `.map(item => normalizeWhitespace(item))`. */
  function NormalizeEach(tokens: seq<string>): (r: seq<string>)
    ensures |r| == |tokens|
    ensures forall i | 0 <= i < |tokens| :: r[i] == NormalizeWhitespace(tokens[i])
  {
    seq(|tokens|, i requires 0 <= i < |tokens| => NormalizeWhitespace(tokens[i]))
  }

  /** A normalized list item: no surrounding or repeated whitespace, no separator. */
  predicate CleanToken(x: string)
  {
    IsNormalized(x) && ',' !in x && ';' !in x
  }

  /** The raw tokens of a list cell: the normalized cell split on runs of `,`/`;`. */
  function ArrayTokens(value: string): seq<string>
  {
    SplitRuns(HarmonizePunctuation(NormalizeWhitespace(value)), IsListSeparator)
  }

  /** The items of a list cell before deduplication: its tokens normalized,
      empty ones dropped. */
  function ArrayItems(value: string): (r: seq<string>)
    ensures forall x | x in r :: x != "" && CleanToken(x)
  {
    var normalized := NormalizeEach(ArrayTokens(value));
    TokensClean(ArrayTokens(value));
    NonEmptyItems(normalized)
  }

  lemma TokensClean(tokens: seq<string>)
    requires forall i, k | 0 <= i < |tokens| && 0 <= k < |tokens[i]| :: !IsListSeparator(tokens[i][k])
    ensures forall x | x in NormalizeEach(tokens) :: CleanToken(x)
  {
    forall i | 0 <= i < |tokens|
      ensures CleanToken(NormalizeWhitespace(tokens[i]))
    {
      NormalizeWhitespaceShape(tokens[i]);
      NormalizeKeepsAbsent(tokens[i], ',');
      NormalizeKeepsAbsent(tokens[i], ';');
    }
  }

  /** `parseArray`: the non-empty items of a `,`/`;` separated cell, each once,
      in the order of their first occurrence. */
  function ParseArray(value: string): (r: seq<string>)
    ensures value == "" ==> r == []
    ensures NoDuplicates(r)
    ensures forall x :: x in r <==> x in ArrayItems(value)
    ensures forall x | x in r :: x != "" && CleanToken(x)
    ensures forall i, j | 0 <= i < j < |r| :: FirstIndex(ArrayItems(value), r[i]) < FirstIndex(ArrayItems(value), r[j])
  {
    if value == "" then [] else Dedupe(ArrayItems(value))
  }

  /** An item that survives a round trip through a list cell. */
  predicate CleanItem(x: string)
  {
    && x != ""
    && IsNormalized(x)
    && (forall k | 0 <= k < |x| :: !IsListSeparator(x[k]) && !IsDash(x[k]))
  }

  /** Joining distinct clean items with commas and parsing the cell gives the
      items back. */
  lemma ParseArrayOfJoined(xs: seq<string>)
    requires NoDuplicates(xs)
    requires forall i | 0 <= i < |xs| :: CleanItem(xs[i])
    ensures ParseArray(Join(xs, ",")) == xs
  {
    var s := Join(xs, ",");
    if xs != [] {
      JoinedNormalized(xs);
      assert ParseArray(s) == Dedupe(ArrayItems(s));
      ArrayItemsOfJoined(xs);
      DedupeFromNoDuplicates(xs, {});
      assert Dedupe(xs) == xs;
    }
  }

  lemma ArrayItemsOfJoined(xs: seq<string>)
    requires xs != []
    requires forall i | 0 <= i < |xs| :: CleanItem(xs[i])
    ensures ArrayItems(Join(xs, ",")) == xs
  {
    var s := Join(xs, ",");
    assert ArrayItems(s) == NonEmptyItems(NormalizeEach(ArrayTokens(s)));
    ArrayTokensOfJoined(xs);
    NormalizeEachNormalized(xs);
    NonEmptyItemsAll(xs);
  }

  lemma NormalizeEachNormalized(xs: seq<string>)
    requires forall i | 0 <= i < |xs| :: IsNormalized(xs[i])
    ensures NormalizeEach(xs) == xs
  {
    forall i | 0 <= i < |xs| ensures NormalizeEach(xs)[i] == xs[i] {
      NormalizeWhitespaceIdempotent(xs[i]);
    }
  }

  lemma ArrayTokensOfJoined(xs: seq<string>)
    requires xs != []
    requires forall i | 0 <= i < |xs| :: CleanItem(xs[i])
    ensures ArrayTokens(Join(xs, ",")) == xs
  {
    var s := Join(xs, ",");
    JoinedNormalized(xs);
    NormalizeWhitespaceIdempotent(s);
    JoinedNoDash(xs);
    HarmonizeNoDash(s);
    JoinedSplits(xs);
  }

  lemma {:induction false} NonEmptyItemsAll(xs: seq<string>)
    requires forall i | 0 <= i < |xs| :: xs[i] != ""
    ensures NonEmptyItems(xs) == xs
  {
    if xs != [] {
      NonEmptyItemsAll(xs[1..]);
    }
  }

  // the tool's own self-test lists: the literal facts first, then the steps

  /** A list cell that is already normalized and has no dash is split as it stands. */
  lemma ArrayTokensOfNormalized(v: string)
    requires IsNormalized(v)
    requires forall k | 0 <= k < |v| :: !IsDash(v[k])
    ensures ArrayTokens(v) == SplitRuns(v, IsListSeparator)
  {
    NormalizeWhitespaceIdempotent(v);
    HarmonizeNoDash(v);
  }

  /** A word, a space and normalized text make normalized text. */
  lemma WordThenNormalized(a: string, b: string)
    requires a != [] && forall k | 0 <= k < |a| :: !IsSpace(a[k])
    requires b != [] && IsNormalized(b)
    ensures IsNormalized(a + " " + b)
  {
    NoSpaceIsNormalized(a);
    assert (" " + b)[1..] == b;
    assert Collapsed(" " + b);
    CollapsedAppend(a, " " + b);
    assert a + " " + b == a + (" " + b);
  }

  /** A word with one space on either side, or on its left only, normalizes to the word. */
  lemma PaddedWord(w: string)
    requires w != [] && IsNormalized(w)
    ensures NormalizeWhitespace(" " + w + " ") == w && NormalizeWhitespace(" " + w) == w
  {
    assert AllSpace(" ") && AllSpace("");
    NormalizeWhitespacePadded(" ", w, " ");
    NormalizeWhitespacePadded(" ", w, "");
    assert " " + w + "" == " " + w;
    NormalizeWhitespaceIdempotent(w);
  }

  predicate NoSpaceWord(w: string)
  {
    w != [] && forall k | 0 <= k < |w| :: !IsSpace(w[k])
  }

  /** Words joined by single spaces are normalized. */
  lemma SixWordsNormalized(w1: string, w2: string, w3: string, w4: string, w5: string, w6: string)
    requires NoSpaceWord(w1) && NoSpaceWord(w2) && NoSpaceWord(w3)
    requires NoSpaceWord(w4) && NoSpaceWord(w5) && NoSpaceWord(w6)
    ensures IsNormalized(w1 + " " + (w2 + " " + (w3 + " " + (w4 + " " + (w5 + " " + w6)))))
  {
    NoSpaceIsNormalized(w6);
    WordThenNormalized(w5, w6);
    WordThenNormalized(w4, w5 + " " + w6);
    WordThenNormalized(w3, w4 + " " + (w5 + " " + w6));
    WordThenNormalized(w2, w3 + " " + (w4 + " " + (w5 + " " + w6)));
    WordThenNormalized(w1, w2 + " " + (w3 + " " + (w4 + " " + (w5 + " " + w6))));
  }

  /** A list token: non-empty, with no `,` or `;` in it. */
  predicate ListToken(a: string)
  {
    a != [] && forall k | 0 <= k < |a| :: !IsListSeparator(a[k])
  }

  /** A non-empty run of `,`/`;`. */
  predicate SeparatorRun(p: string)
  {
    p != [] && forall k | 0 <= k < |p| :: IsListSeparator(p[k])
  }

  /** Four tokens joined by separator runs split back into the four tokens. */
  lemma FourTokensSplit(a1: string, p1: string, a2: string, p2: string, a3: string, p3: string, a4: string)
    requires ListToken(a1) && ListToken(a2) && ListToken(a3) && ListToken(a4)
    requires SeparatorRun(p1) && SeparatorRun(p2) && SeparatorRun(p3)
    ensures SplitRuns(a1 + p1 + (a2 + p2 + (a3 + p3 + a4)), IsListSeparator) == [a1, a2, a3, a4]
  {
    SplitRunsSingle(a4, IsListSeparator);
    SplitRunsAfterRun(a3, p3, a4, IsListSeparator);
    SplitRunsAfterRun(a2, p2, a3 + p3 + a4, IsListSeparator);
    SplitRunsAfterRun(a1, p1, a2 + p2 + (a3 + p3 + a4), IsListSeparator);
  }

  /** A normalized, dash-free cell made of four tokens parses to its
      deduplicated, normalized, non-empty tokens. */
  lemma ParseArrayOfFour(v: string, a1: string, p1: string, a2: string, p2: string, a3: string, p3: string, a4: string)
    requires v == a1 + p1 + (a2 + p2 + (a3 + p3 + a4))
    requires IsNormalized(v) && forall k | 0 <= k < |v| :: !IsDash(v[k])
    requires ListToken(a1) && ListToken(a2) && ListToken(a3) && ListToken(a4)
    requires SeparatorRun(p1) && SeparatorRun(p2) && SeparatorRun(p3)
    ensures ParseArray(v) == Dedupe(NonEmptyItems(NormalizeEach([a1, a2, a3, a4])))
  {
    ArrayTokensOfNormalized(v);
    FourTokensSplit(a1, p1, a2, p2, a3, p3, a4);
  }

  /** Normalizing four tokens one by one. */
  lemma NormalizeEachFour(t1: string, t2: string, t3: string, t4: string, w1: string, w2: string, w3: string, w4: string)
    requires NormalizeWhitespace(t1) == w1 && NormalizeWhitespace(t2) == w2
    requires NormalizeWhitespace(t3) == w3 && NormalizeWhitespace(t4) == w4
    ensures NormalizeEach([t1, t2, t3, t4]) == [w1, w2, w3, w4]
  {
  }

  /** Three distinct non-empty items and a repeat of the second keep the three. */
  lemma DedupeRepeatedSecond(w1: string, w2: string, w3: string)
    requires w1 != "" && w2 != "" && w3 != ""
    requires w1 != w2 && w1 != w3 && w2 != w3
    ensures Dedupe(NonEmptyItems([w1, w2, w3, w2])) == [w1, w2, w3]
  {
    var s := [w1, w2, w3];
    assert s[0] == w1 && s[1] == w2 && s[2] == w3;
    assert [w1, w2, w3, w2] == s + [w2];
    DedupeRepeatedLast(s, w2);
  }

  /** Items with no duplicates and no blank, followed by a repeat of one of
      them, deduplicate to themselves. */
  lemma DedupeRepeatedLast(s: seq<string>, x: string)
    requires x in s && NoDuplicates(s)
    requires forall i | 0 <= i < |s| :: s[i] != ""
    ensures Dedupe(NonEmptyItems(s + [x])) == s
  {
    NonEmptyItemsAll(s + [x]);
    DedupeFromSnoc(s, {}, x);
    DedupeFromNoDuplicates(s, {});
  }

  /** Distinct non-empty items are kept as they are. */
  lemma DedupeDistinct(items: seq<string>)
    requires NoDuplicates(items) && forall i | 0 <= i < |items| :: items[i] != ""
    ensures Dedupe(NonEmptyItems(items)) == items
  {
    NonEmptyItemsAll(items);
    DedupeFromNoDuplicates(items, {});
  }

  /** A word, a padded second word, a left-padded third and the padded second
      again give the three distinct words once each. */
  lemma RepeatedPaddedItems(w1: string, w2: string, w3: string)
    requires NoSpaceWord(w1) && w2 != [] && IsNormalized(w2) && w3 != [] && IsNormalized(w3)
    requires w1 != w2 && w1 != w3 && w2 != w3
    ensures Dedupe(NonEmptyItems(NormalizeEach([w1, " " + w2 + " ", " " + w3, " " + w2]))) == [w1, w2, w3]
  {
    NoSpaceNormalizes(w1);
    PaddedWord(w2);
    PaddedWord(w3);
    NormalizeEachFour(w1, " " + w2 + " ", " " + w3, " " + w2, w1, w2, w3, w2);
    DedupeRepeatedSecond(w1, w2, w3);
  }

  /** Four distinct words, the third padded on both sides, are kept as they are. */
  lemma DistinctPaddedItems(w1: string, w2: string, w3: string, w4: string)
    requires NoSpaceWord(w1) && NoSpaceWord(w2) && NoSpaceWord(w3) && NoSpaceWord(w4)
    requires NoDuplicates([w1, w2, w3, w4])
    ensures Dedupe(NonEmptyItems(NormalizeEach([w1, w2, " " + w3 + " ", w4]))) == [w1, w2, w3, w4]
  {
    NoSpaceNormalizes(w1);
    NoSpaceNormalizes(w2);
    NoSpaceIsNormalized(w3);
    PaddedWord(w3);
    NoSpaceNormalizes(w4);
    NormalizeEachFour(w1, w2, " " + w3 + " ", w4, w1, w2, w3, w4);
    DedupeDistinct([w1, w2, w3, w4]);
  }

  lemma OrganicWordsOf(v: string, w1: string, w2: string, w3: string, w4: string, w5: string, w6: string)
    requires v == "Organic, Vegan ; USP Verified, Vegan"
    requires w1 == "Organic," && w2 == "Vegan" && w3 == ";" && w4 == "USP" && w5 == "Verified," && w6 == "Vegan"
    ensures v == w1 + " " + (w2 + " " + (w3 + " " + (w4 + " " + (w5 + " " + w6))))
  {
  }

  lemma OrganicSpacedWords(w1: string, w2: string, w3: string, w4: string, w5: string, w6: string)
    requires w1 == "Organic," && w2 == "Vegan" && w3 == ";" && w4 == "USP" && w5 == "Verified," && w6 == "Vegan"
    ensures NoSpaceWord(w1) && NoSpaceWord(w2) && NoSpaceWord(w3)
    ensures NoSpaceWord(w4) && NoSpaceWord(w5) && NoSpaceWord(w6)
  {
  }

  lemma OrganicShape(v: string, w1: string, w2: string, w3: string, w4: string)
    requires v == "Organic, Vegan ; USP Verified, Vegan"
    requires w1 == "Organic" && w2 == "Vegan" && w3 == "USP" && w4 == "Verified"
    ensures v == w1 + "," + ((" " + w2 + " ") + ";" + ((" " + (w3 + " " + w4)) + "," + (" " + w2)))
  {
  }

  lemma OrganicNoDash(v: string)
    requires v == "Organic, Vegan ; USP Verified, Vegan"
    ensures forall k | 0 <= k < |v| :: !IsDash(v[k])
  {
  }

  lemma OrganicWords(w1: string, w2: string, w3: string, w4: string)
    requires w1 == "Organic" && w2 == "Vegan" && w3 == "USP" && w4 == "Verified"
    ensures NoSpaceWord(w1) && NoSpaceWord(w2) && NoSpaceWord(w3) && NoSpaceWord(w4)
    ensures ListToken(w1) && ListToken(w2) && ListToken(w3) && ListToken(w4)
    ensures w1 != w2 && w1 != w3 + " " + w4 && w2 != w3 + " " + w4
  {
  }

  /** A padded token of list-token words is a list token. */
  lemma PaddedListToken(w: string)
    requires ListToken(w)
    ensures ListToken(" " + w + " ") && ListToken(" " + w)
  {
  }

  lemma TwoWordsListToken(w1: string, w2: string)
    requires ListToken(w1) && ListToken(w2)
    ensures ListToken(w1 + " " + w2)
  {
  }

  /** A cell shaped like `a, b ; c d, b` parses to `a`, `b`, `c d`. */
  lemma ParseArrayRepeatedSecond(v: string, w1: string, w2: string, w3: string, w4: string)
    requires v == w1 + "," + ((" " + w2 + " ") + ";" + ((" " + (w3 + " " + w4)) + "," + (" " + w2)))
    requires IsNormalized(v) && forall k | 0 <= k < |v| :: !IsDash(v[k])
    requires NoSpaceWord(w1) && NoSpaceWord(w2) && NoSpaceWord(w3) && NoSpaceWord(w4)
    requires ListToken(w1) && ListToken(w2) && ListToken(w3) && ListToken(w4)
    requires w1 != w2 && w1 != w3 + " " + w4 && w2 != w3 + " " + w4
    ensures ParseArray(v) == [w1, w2, w3 + " " + w4]
  {
    var both := w3 + " " + w4;
    NoSpaceIsNormalized(w4);
    WordThenNormalized(w3, w4);
    TwoWordsListToken(w3, w4);
    PaddedListToken(w2);
    PaddedListToken(both);
    NoSpaceIsNormalized(w2);
    assert SeparatorRun(",") && SeparatorRun(";");
    ParseArrayOfFour(v, w1, ",", " " + w2 + " ", ";", " " + both, ",", " " + w2);
    RepeatedPaddedItems(w1, w2, both);
  }

  lemma OrganicResult(w1: string, w2: string, w3: string, w4: string)
    requires w1 == "Organic" && w2 == "Vegan" && w3 == "USP" && w4 == "Verified"
    ensures [w1, w2, w3 + " " + w4] == ["Organic", "Vegan", "USP Verified"]
  {
    var both, expected := w3 + " " + w4, "USP Verified";
    assert |both| == |expected| == 12;
    assert forall k | 0 <= k < 12 :: both[k] == expected[k];
    assert both == expected;
  }

  /** `Organic, Vegan ; USP Verified, Vegan` gives `Organic`, `Vegan`, `USP Verified`. */
  lemma OrganicExample(v: string)
    requires v == "Organic, Vegan ; USP Verified, Vegan"
    ensures ParseArray(v) == ["Organic", "Vegan", "USP Verified"]
  {
    var organic, vegan, usp, verified := "Organic", "Vegan", "USP", "Verified";
    OrganicWordsOf(v, "Organic,", "Vegan", ";", "USP", "Verified,", "Vegan");
    OrganicSpacedWords("Organic,", "Vegan", ";", "USP", "Verified,", "Vegan");
    SixWordsNormalized("Organic,", "Vegan", ";", "USP", "Verified,", "Vegan");
    OrganicShape(v, organic, vegan, usp, verified);
    OrganicNoDash(v);
    OrganicWords(organic, vegan, usp, verified);
    ParseArrayRepeatedSecond(v, organic, vegan, usp, verified);
    OrganicResult(organic, vegan, usp, verified);
  }

  /** A cell shaped like `a,,b, c ,d` with distinct words parses to `a`, `b`, `c`, `d`. */
  lemma ParseArrayPaddedThird(v: string, w1: string, w2: string, w3: string, w4: string)
    requires v == w1 + ",," + (w2 + "," + ((" " + w3 + " ") + "," + w4))
    requires IsNormalized(v) && forall k | 0 <= k < |v| :: !IsDash(v[k])
    requires NoSpaceWord(w1) && NoSpaceWord(w2) && NoSpaceWord(w3) && NoSpaceWord(w4)
    requires ListToken(w1) && ListToken(w2) && ListToken(w3) && ListToken(w4)
    requires NoDuplicates([w1, w2, w3, w4])
    ensures ParseArray(v) == [w1, w2, w3, w4]
  {
    PaddedListToken(w3);
    assert SeparatorRun(",,") && SeparatorRun(",");
    ParseArrayOfFour(v, w1, ",,", w2, ",", " " + w3 + " ", ",", w4);
    DistinctPaddedItems(w1, w2, w3, w4);
  }

  lemma ItemsWordsOf(v: string, x1: string, x2: string, x3: string)
    requires v == "Item1,,Item2, item1 ,Item3"
    requires x1 == "Item1,,Item2," && x2 == "item1" && x3 == ",Item3"
    ensures v == x1 + " " + (x2 + " " + x3)
    ensures NoSpaceWord(x1) && NoSpaceWord(x2) && NoSpaceWord(x3)
    ensures forall k | 0 <= k < |v| :: !IsDash(v[k])
  {
  }

  lemma ItemsShape(v: string, w1: string, w2: string, w3: string, w4: string)
    requires v == "Item1,,Item2, item1 ,Item3"
    requires w1 == "Item1" && w2 == "Item2" && w3 == "item1" && w4 == "Item3"
    ensures v == w1 + ",," + (w2 + "," + ((" " + w3 + " ") + "," + w4))
  {
  }

  lemma ItemsWords(w1: string, w2: string, w3: string, w4: string)
    requires w1 == "Item1" && w2 == "Item2" && w3 == "item1" && w4 == "Item3"
    ensures NoSpaceWord(w1) && NoSpaceWord(w2) && NoSpaceWord(w3) && NoSpaceWord(w4)
    ensures ListToken(w1) && ListToken(w2) && ListToken(w3) && ListToken(w4)
    ensures NoDuplicates([w1, w2, w3, w4])
  {
  }

  /** `Item1,,Item2, item1 ,Item3` gives `Item1`, `Item2`, `item1`, `Item3`:
      the doubled comma yields no item, and items differing in case are distinct. */
  lemma ItemsExample(v: string)
    requires v == "Item1,,Item2, item1 ,Item3"
    ensures ParseArray(v) == ["Item1", "Item2", "item1", "Item3"]
  {
    ItemsWordsOf(v, "Item1,,Item2,", "item1", ",Item3");
    NoSpaceIsNormalized(",Item3");
    WordThenNormalized("item1", ",Item3");
    WordThenNormalized("Item1,,Item2,", "item1" + " " + ",Item3");
    ItemsShape(v, "Item1", "Item2", "item1", "Item3");
    ItemsWords("Item1", "Item2", "item1", "Item3");
    ParseArrayPaddedThird(v, "Item1", "Item2", "item1", "Item3");
  }

  /** The comma-joined cell of clean items is normalized. */
  lemma {:induction false} JoinedNormalized(xs: seq<string>)
    requires xs != []
    requires forall i | 0 <= i < |xs| :: CleanItem(xs[i])
    ensures Join(xs, ",") != [] && IsNormalized(Join(xs, ","))
    ensures CleanItem(xs[0]) && Join(xs, ",")[0] == xs[0][0]
  {
    var x := xs[0];
    if |xs| > 1 {
      var rest := xs[1..];
      JoinedNormalized(rest);
      var j := Join(rest, ",");
      assert Join(xs, ",") == (x + [',']) + j;
      assert Collapsed([',']);
      CollapsedAppend(x, [',']);
      CollapsedAppend(x + [','], j);
    }
  }

  /** The comma-joined cell of clean items holds no dash. */
  lemma {:induction false} JoinedNoDash(xs: seq<string>)
    requires forall i | 0 <= i < |xs| :: CleanItem(xs[i])
    ensures forall k | 0 <= k < |Join(xs, ",")| :: !IsDash(Join(xs, ",")[k])
  {
    if |xs| > 1 {
      JoinedNoDash(xs[1..]);
      var x := xs[0];
      var j := Join(xs[1..], ",");
      assert Join(xs, ",") == x + [','] + j;
      forall k | 0 <= k < |x + [','] + j| ensures !IsDash((x + [','] + j)[k]) {
        if k > |x| {
          assert (x + [','] + j)[k] == j[k - |x| - 1];
        }
      }
    }
  }

  /** The comma-joined cell of clean items splits back into the items. */
  lemma {:induction false} JoinedSplits(xs: seq<string>)
    requires xs != []
    requires forall i | 0 <= i < |xs| :: CleanItem(xs[i])
    ensures SplitRuns(Join(xs, ","), IsListSeparator) == xs
  {
    var x := xs[0];
    if |xs| == 1 {
      SplitRunsSingle(x, IsListSeparator);
    } else {
      var rest := xs[1..];
      JoinedSplits(rest);
      JoinedNormalized(rest);
      var j := Join(rest, ",");
      assert Join(xs, ",") == x + [','] + j;
      SplitRunsCons(x, ',', j, IsListSeparator);
    }
  }

  // ---------------------------------------------------------------------------
  // Integers

  /** The text after an optional leading sign. */
  function Unsigned(s: string): string
  {
    if s != [] && (s[0] == '-' || s[0] == '+') then s[1..] else s
  }

  /** `parseInt(n, 10)` on a trimmed string: an optional sign and the digits
      after it, ignoring the rest; `None` where `parseInt` gives `NaN`. */
  function ReadInteger(n: string): (r: Option<int>)
    ensures r.Some? <==> LeadingDigits(Unsigned(n)) != []
  {
    var digits := LeadingDigits(Unsigned(n));
    if digits == [] then None
    else if n[0] == '-' then Some(0 - DigitsValue(digits))
    else Some(DigitsValue(digits))
  }

  /** `parseInteger`: `parseInt(normalizeWhitespace(value), 10)`. */
  function ParseInteger(value: string): (r: Option<int>)
    ensures r.Some? <==> value != "" && LeadingDigits(Unsigned(NormalizeWhitespace(value))) != []
  {
    if value == "" then None else ReadInteger(NormalizeWhitespace(value))
  }

  /** `String(k)` for an integer. */
  function IntToString(k: int): string
  {
    if k < 0 then "-" + NatToString(-k) else NatToString(k)
  }

  /** Every integer written in decimal reads back as itself. */
  lemma ParseIntegerOfIntToString(k: int)
    ensures ParseInteger(IntToString(k)) == Some(k)
  {
    var sign := if k < 0 then "-" else "";
    var m: nat := if k < 0 then -k else k;
    var s := sign + NatToString(m);
    assert IntToString(k) == s;
    assert forall i | 0 <= i < |s| :: !IsSpace(s[i]);
    NoSpaceNormalizes(s);
    assert ParseInteger(s) == ReadInteger(s);
    ReadIntegerOfNumeral(sign, m);
  }

  lemma ReadIntegerOfNumeral(sign: string, m: nat)
    requires sign == "" || sign == "-"
    ensures ReadInteger(sign + NatToString(m)) == Some(if sign == "" then m as int else 0 - m)
  {
    var d := NatToString(m);
    SignedDigits(sign, d);
    ReadIntegerOfDigits(sign, d);
    DigitsValueOfNatToString(m);
  }

  lemma SignedDigits(sign: string, d: string)
    requires sign == "" || sign == "-"
    requires d != [] && AllDigits(d)
    ensures LeadingDigits(Unsigned(sign + d)) == d
  {
    if sign == "" {
      assert sign + d == d;
    } else {
      assert (sign + d)[1..] == d;
    }
    LeadingDigitsStop(d, "");
    assert d + "" == d;
  }

  lemma ReadIntegerOfDigits(sign: string, d: string)
    requires sign == "" || sign == "-"
    requires d != [] && AllDigits(d)
    requires LeadingDigits(Unsigned(sign + d)) == d
    ensures ReadInteger(sign + d) == Some(if sign == "" then DigitsValue(d) as int else 0 - DigitsValue(d))
  {
    var n := sign + d;
    assert IsDigit(d[0]);
    assert n[0] == if sign == "" then d[0] else '-';
  }

  // ---------------------------------------------------------------------------
  // Testing notes

  /** `replace(/\r\n/g, '\n')`. */
  function ReplaceCrLf(s: string): (r: string)
    ensures |r| <= |s| && (r == [] <==> s == [])
  {
    if s == [] then []
    else if |s| >= 2 && s[0] == '\r' && s[1] == '\n' then "\n" + ReplaceCrLf(s[2..])
    else [s[0]] + ReplaceCrLf(s[1..])
  }

  /** `s[i]` is the CR of a CRLF pair. */
  predicate CrOfCrLf(s: string, i: nat)
    requires i < |s|
  {
    s[i] == '\r' && i + 1 < |s| && s[i + 1] == '\n'
  }

  /** The number of CRLF pairs that start before position `i`. */
  function CrLfBefore(s: string, i: nat): nat
    requires i <= |s|
  {
    if i == 0 then 0 else CrLfBefore(s, i - 1) + (if CrOfCrLf(s, i - 1) then 1 else 0)
  }

  lemma {:induction false} CrLfBeforeDrop(s: string, d: nat, i: nat)
    requires d <= i <= |s|
    ensures CrLfBefore(s, i) == CrLfBefore(s, d) + CrLfBefore(s[d..], i - d)
    decreases i
  {
    if i > d {
      CrLfBeforeDrop(s, d, i - 1);
      assert CrOfCrLf(s, i - 1) == CrOfCrLf(s[d..], i - 1 - d);
    }
  }

  /** Position `i` of `s` lands at position `i - CrLfBefore(s, i)` of `r`: the
      CR of a pair as the pair's LF, every other character as itself. */
  predicate MovesTo(s: string, r: string, i: nat)
    requires i < |s|
  {
    && CrLfBefore(s, i) <= i && i - CrLfBefore(s, i) < |r|
    && r[i - CrLfBefore(s, i)] == (if CrOfCrLf(s, i) then '\n' else s[i])
  }

  /** Replacing CRLF deletes the CR of every pair and keeps every other
      character in order: each character moves left by the number of pairs
      before it, so each pair's LF lands where its CR was. */
  lemma {:induction false} ReplaceCrLfPositions(s: string)
    ensures |ReplaceCrLf(s)| == |s| - CrLfBefore(s, |s|)
    ensures forall i | 0 <= i < |s| :: MovesTo(s, ReplaceCrLf(s), i)
    decreases |s|
  {
    if s == [] {
    } else if |s| >= 2 && s[0] == '\r' && s[1] == '\n' {
      var t := s[2..];
      ReplaceCrLfPositions(t);
      PairBefore(s);
      CrLfBeforeDrop(s, 2, |s|);
      forall i | 0 <= i < |s| ensures MovesTo(s, ReplaceCrLf(s), i) {
        if i >= 2 {
          MovesAfterPair(s, i);
        }
      }
    } else {
      var t := s[1..];
      ReplaceCrLfPositions(t);
      CrLfBeforeDrop(s, 1, |s|);
      forall i | 0 <= i < |s| ensures MovesTo(s, ReplaceCrLf(s), i) {
        if i >= 1 {
          MovesAfterChar(s, i);
        }
      }
    }
  }

  lemma MovesAfterPair(s: string, i: nat)
    requires |s| >= 2 && s[0] == '\r' && s[1] == '\n' && 2 <= i < |s|
    requires MovesTo(s[2..], ReplaceCrLf(s[2..]), i - 2)
    ensures MovesTo(s, ReplaceCrLf(s), i)
  {
    var t, j := s[2..], i - 2;
    PairBefore(s);
    CrLfBeforeDrop(s, 2, i);
    var k := CrLfBefore(t, j);
    assert CrLfBefore(s, i) == k + 1;
    assert ReplaceCrLf(s) == "\n" + ReplaceCrLf(t);
    assert ReplaceCrLf(s)[i - (k + 1)] == ReplaceCrLf(t)[j - k];
    assert CrOfCrLf(t, j) == CrOfCrLf(s, i) && t[j] == s[i];
  }

  lemma PairBefore(s: string)
    requires |s| >= 2 && s[0] == '\r' && s[1] == '\n'
    ensures CrLfBefore(s, 1) == 1 && CrLfBefore(s, 2) == 1
  {
    assert CrOfCrLf(s, 0) && !CrOfCrLf(s, 1);
    assert CrLfBefore(s, 1) == CrLfBefore(s, 0) + 1;
  }

  lemma CharBefore(s: string, i: nat)
    requires s != [] && !(|s| >= 2 && s[0] == '\r' && s[1] == '\n') && 1 <= i <= |s|
    ensures CrLfBefore(s, i) == CrLfBefore(s[1..], i - 1)
  {
    assert !CrOfCrLf(s, 0) && CrLfBefore(s, 1) == 0;
    CrLfBeforeDrop(s, 1, i);
  }

  lemma MovesAfterChar(s: string, i: nat)
    requires s != [] && !(|s| >= 2 && s[0] == '\r' && s[1] == '\n') && 1 <= i < |s|
    requires MovesTo(s[1..], ReplaceCrLf(s[1..]), i - 1)
    ensures MovesTo(s, ReplaceCrLf(s), i)
  {
    var t, j := s[1..], i - 1;
    CharBefore(s, i);
    var k := CrLfBefore(t, j);
    assert ReplaceCrLf(s) == [s[0]] + ReplaceCrLf(t);
    assert ReplaceCrLf(s)[i - k] == ReplaceCrLf(t)[j - k];
    assert CrOfCrLf(t, j) == CrOfCrLf(s, i) && t[j] == s[i];
  }

  /** Text without a CR passes through unchanged. */
  lemma {:induction false} ReplaceCrLfNoCr(a: string, b: string)
    requires '\r' !in a
    ensures ReplaceCrLf(a + b) == a + ReplaceCrLf(b)
    decreases |a|
  {
    if a == [] {
      assert a + b == b;
    } else {
      assert (a + b)[0] == a[0] && (a + b)[1..] == a[1..] + b;
      ReplaceCrLfNoCr(a[1..], b);
    }
  }

  /** `replace(/\r/g, '\n')`. */
  function ReplaceCr(s: string): (r: string)
    ensures |r| == |s|
    ensures forall i | 0 <= i < |s| :: r[i] == (if s[i] == '\r' then '\n' else s[i])
  {
    seq(|s|, i requires 0 <= i < |s| => if s[i] == '\r' then '\n' else s[i])
  }

  /** Text without a CR passes through unchanged. */
  lemma ReplaceCrNoCr(v: string)
    requires '\r' !in v
    ensures ReplaceCr(v) == v
  {
    forall i | 0 <= i < |v| ensures ReplaceCr(v)[i] == v[i] {
      assert v[i] in v;
    }
  }

  /** The length of the leading run of `\n`. */
  function NewlineRun(s: string): (n: nat)
    ensures n <= |s| && (n == |s| || s[n] != '\n')
    ensures forall k | 0 <= k < n :: s[k] == '\n'
  {
    if s != [] && s[0] == '\n' then 1 + NewlineRun(s[1..]) else 0
  }

  /** A run ends at the first character that is not a newline. */
  lemma {:induction false} NewlineRunStops(a: string, b: string)
    requires b != [] && b[0] != '\n'
    ensures NewlineRun(a + b) == NewlineRun(a)
    decreases |a|
  {
    if a == [] {
      assert a + b == b;
    } else {
      assert (a + b)[0] == a[0] && (a + b)[1..] == a[1..] + b;
      NewlineRunStops(a[1..], b);
    }
  }

  predicate NoTripleNewline(s: string)
  {
    |s| < 3 || (!(s[0] == '\n' && s[1] == '\n' && s[2] == '\n') && NoTripleNewline(s[1..]))
  }

  /** `n` newlines. */
  function Newlines(n: nat): string
  {
    seq(n, _ => '\n')
  }

  /** `replace(/\n{3,}/g, '\n\n')`: every maximal run of three or more newlines
      becomes exactly two; every other character is kept. */
  function CollapseNewlines(s: string): (r: string)
    ensures NoTripleNewline(r)
    ensures r == [] <==> s == []
    ensures s != [] ==> (r[0] == '\n' <==> s[0] == '\n')
    decreases |s|
  {
    if s == [] then []
    else if s[0] != '\n' then
      var rest := CollapseNewlines(s[1..]);
      assert ([s[0]] + rest)[1..] == rest;
      [s[0]] + rest
    else
      var n := NewlineRun(s);
      var run := if n >= 3 then "\n\n" else s[..n];
      var rest := CollapseNewlines(s[n..]);
      ShortRunThenText(run, rest);
      run + rest
  }

  lemma ShortRunThenText(run: string, rest: string)
    requires 1 <= |run| <= 2 && forall k | 0 <= k < |run| :: run[k] == '\n'
    requires NoTripleNewline(rest) && (rest == [] || rest[0] != '\n')
    ensures NoTripleNewline(run + rest)
  {
    assert (run + rest)[1..] == run[1..] + rest;
    if |run| == 2 {
      assert (run + rest)[2..] == rest;
    } else {
      assert run[1..] + rest == rest;
    }
  }

  /** A maximal run of `k` newlines at the front becomes `min(k, 2)` newlines,
      and the rest is collapsed on its own. */
  lemma CollapseNewlinesRunThen(k: nat, b: string)
    requires b == [] || b[0] != '\n'
    ensures CollapseNewlines(Newlines(k) + b) == Newlines(if k >= 3 then 2 else k) + CollapseNewlines(b)
  {
    var s := Newlines(k) + b;
    if k > 0 {
      if b == [] {
        assert s == Newlines(k);
      } else {
        NewlineRunStops(Newlines(k), b);
      }
      assert NewlineRun(Newlines(k)) == k;
      assert s[..k] == Newlines(k) && s[k..] == b;
      assert Newlines(2) == "\n\n";
    } else {
      assert s == b;
    }
  }

  /** Text with no newline at the front is kept as it is. */
  lemma {:induction false} CollapseNewlinesTextThen(a: string, b: string)
    requires '\n' !in a
    ensures CollapseNewlines(a + b) == a + CollapseNewlines(b)
    decreases |a|
  {
    if a == [] {
      assert a + b == b;
    } else {
      assert a[0] in a;
      assert '\n' !in a[1..];
      CollapseNewlinesTextThen(a[1..], b);
      CollapseNewlinesOfText(a[0], a[1..] + b);
      HeadThen(a, b);
      HeadThen(a, CollapseNewlines(b));
    }
  }

  lemma HeadThen(a: string, x: string)
    requires a != []
    ensures [a[0]] + (a[1..] + x) == a + x
  {
    assert a == [a[0]] + a[1..];
  }

  /** One character other than a newline at the front is kept. */
  lemma CollapseNewlinesOfText(c: char, s: string)
    requires c != '\n'
    ensures CollapseNewlines([c] + s) == [c] + CollapseNewlines(s)
  {
    assert ([c] + s)[1..] == s;
  }

  /** Every character other than a newline stays where it is between the
      collapsed text before it and the collapsed text after it: each run of
      newlines is collapsed on its own. */
  lemma {:induction false} CollapseNewlinesAtText(a: string, c: char, b: string)
    requires c != '\n'
    ensures CollapseNewlines(a + [c] + b) == CollapseNewlines(a) + [c] + CollapseNewlines(b)
    decreases |a|
  {
    if a == [] {
      assert a + [c] + b == [c] + b && ([c] + b)[1..] == b;
    } else if a[0] != '\n' {
      CollapseNewlinesAtText(a[1..], c, b);
      TextBeforeText(a, c, b);
    } else {
      CollapseNewlinesAtText(a[NewlineRun(a)..], c, b);
      RunBeforeTextThen(a, c, b);
    }
  }

  lemma RunBeforeTextThen(a: string, c: char, b: string)
    requires c != '\n' && a != [] && a[0] == '\n'
    requires var n := NewlineRun(a);
      CollapseNewlines(a[n..] + [c] + b) == CollapseNewlines(a[n..]) + [c] + CollapseNewlines(b)
    ensures CollapseNewlines(a + [c] + b) == CollapseNewlines(a) + [c] + CollapseNewlines(b)
  {
    var n := NewlineRun(a);
    var run := if n >= 3 then "\n\n" else a[..n];
    RunBeforeText(a, c, b);
    assert CollapseNewlines(a) == run + CollapseNewlines(a[n..]);
    var x, y := CollapseNewlines(a[n..]), CollapseNewlines(b);
    ConcatAround(run, x, c, y);
  }

  lemma ConcatAround(r: string, x: string, c: char, y: string)
    ensures r + (x + [c] + y) == (r + x) + [c] + y
  {
  }

  lemma TextBeforeText(a: string, c: char, b: string)
    requires c != '\n' && a != [] && a[0] != '\n'
    requires CollapseNewlines(a[1..] + [c] + b) == CollapseNewlines(a[1..]) + [c] + CollapseNewlines(b)
    ensures CollapseNewlines(a + [c] + b) == CollapseNewlines(a) + [c] + CollapseNewlines(b)
  {
    HeadAround(a, c, b);
    CollapseNewlinesOfText(a[0], a[1..] + [c] + b);
    HeadAround(a, c, []);
    CollapseNewlinesOfText(a[0], a[1..]);
    ConcatAround([a[0]], CollapseNewlines(a[1..]), c, CollapseNewlines(b));
  }

  lemma HeadAround(a: string, c: char, b: string)
    requires a != []
    ensures a + [c] + b == [a[0]] + (a[1..] + [c] + b)
    ensures a == [a[0]] + a[1..]
  {
    assert a == [a[0]] + a[1..];
  }

  lemma RunBeforeText(a: string, c: char, b: string)
    requires c != '\n' && a != [] && a[0] == '\n'
    ensures var n := NewlineRun(a);
      CollapseNewlines(a + [c] + b)
      == (if n >= 3 then "\n\n" else a[..n]) + CollapseNewlines(a[n..] + [c] + b)
  {
    var s := a + [c] + b;
    var n := NewlineRun(a);
    assert s == a + ([c] + b);
    NewlineRunStops(a, [c] + b);
    assert s[..n] == a[..n];
    assert s[n..] == a[n..] + [c] + b;
  }

  /** Collapsing keeps every character other than a newline, in order. */
  lemma {:induction false} CollapseNewlinesKeepsText(s: string)
    ensures Remove(CollapseNewlines(s), '\n') == Remove(s, '\n')
    decreases |s|
  {
    if s != [] {
      if s[0] != '\n' {
        CollapseNewlinesKeepsText(s[1..]);
        assert ([s[0]] + CollapseNewlines(s[1..]))[1..] == CollapseNewlines(s[1..]);
      } else {
        var n := NewlineRun(s);
        var run := if n >= 3 then "\n\n" else s[..n];
        var rest := CollapseNewlines(s[n..]);
        CollapseNewlinesKeepsText(s[n..]);
        RemoveLeadingNewlines(s, n);
        assert (run + rest)[|run|..] == rest;
        RemoveLeadingNewlines(run + rest, |run|);
      }
    }
  }

  lemma {:induction false} RemoveLeadingNewlines(s: string, n: nat)
    requires n <= |s| && forall k | 0 <= k < n :: s[k] == '\n'
    ensures Remove(s, '\n') == Remove(s[n..], '\n')
    decreases n
  {
    if n > 0 {
      RemoveLeadingNewlines(s[1..], n - 1);
      assert s[1..][n - 1..] == s[n..];
    }
  }

  /** Text with no three newlines in a row is left as it is. */
  lemma {:induction false} CollapseNewlinesOfNoTriple(s: string)
    requires NoTripleNewline(s)
    ensures CollapseNewlines(s) == s
    decreases |s|
  {
    if s != [] {
      if s[0] != '\n' {
        CollapseNewlinesOfNoTriple(s[1..]);
      } else {
        var n := NewlineRun(s);
        assert n <= 2;
        if n == 2 {
          assert s[2..] == s[1..][1..];
        }
        CollapseNewlinesOfNoTriple(s[n..]);
      }
    }
  }

  /** `normalizeTestingNotes`: trimmed, line endings turned into `\n`, runs of
      three or more newlines cut to two; `None` when nothing is left. */
  function NormalizeTestingNotes(value: string): (r: Option<string>)
    ensures r.None? <==> AllSpace(value)
    ensures r.Some? ==> '\r' !in r.value && NoTripleNewline(r.value)
    ensures r.Some? ==> r.value != [] && !IsSpace(r.value[0]) && !IsSpace(r.value[|r.value| - 1])
  {
    TrimShape(value);
    if value == "" then None
    else
      var l := ReplaceCr(ReplaceCrLf(Trim(value)));
      var t := CollapseNewlines(l);
      CollapseNewlinesKeepsText(l);
      if t == "" then None
      else
        NotesKeepEnds(Trim(value));
        Some(t)
  }

  /** The line-ending steps keep the first and last character of trimmed text. */
  lemma NotesKeepEnds(t: string)
    requires t != [] && !IsSpace(t[0]) && !IsSpace(t[|t| - 1])
    ensures var u := CollapseNewlines(ReplaceCr(ReplaceCrLf(t)));
      u != [] && u[0] == t[0] && u[|u| - 1] == t[|t| - 1]
  {
    var c := ReplaceCr(ReplaceCrLf(t));
    CrLfKeepsEnds(t);
    assert c[0] == t[0] && c[|c| - 1] == t[|t| - 1];
    CollapseKeepsLast(c);
  }

  lemma CollapseKeepsLast(c: string)
    requires c != [] && c[0] != '\n' && c[|c| - 1] != '\n'
    ensures var u := CollapseNewlines(c); u != [] && u[0] == c[0] && u[|u| - 1] == c[|c| - 1]
  {
    var a := c[..|c| - 1];
    assert c == a + [c[|c| - 1]] + [];
    CollapseNewlinesAtText(a, c[|c| - 1], []);
  }

  lemma CrLfKeepsEnds(t: string)
    requires t != [] && !IsSpace(t[0]) && !IsSpace(t[|t| - 1])
    ensures var l := ReplaceCrLf(t); l != [] && l[0] == t[0] && l[|l| - 1] == t[|t| - 1]
  {
    ReplaceCrLfPositions(t);
    assert MovesTo(t, ReplaceCrLf(t), 0) && MovesTo(t, ReplaceCrLf(t), |t| - 1);
    assert CrLfBefore(t, |t|) == CrLfBefore(t, |t| - 1);
  }

  /** Notes whose trimmed text is `v` are the line-ending steps applied to `v`. */
  lemma NotesOfTrimmed(value: string, v: string)
    requires Trim(value) == v && v != []
    ensures NormalizeTestingNotes(value) == Some(CollapseNewlines(ReplaceCr(ReplaceCrLf(v))))
  {
    TrimShape(value);
    assert value != [];
  }

  /** Whitespace around text with non-space ends is trimmed away. */
  lemma TrimPadded(p: string, v: string, q: string)
    requires AllSpace(p) && AllSpace(q)
    requires v != [] && !IsSpace(v[0]) && !IsSpace(v[|v| - 1])
    ensures Trim(p + v + q) == v
  {
    assert p + v + q == p + (v + q);
    TrimStartPadded(p, v + q);
    TrimEndPadded(v, q);
  }

  /** One line of text has no line ending to change. */
  lemma OneLine(v: string)
    requires '\r' !in v && '\n' !in v
    ensures CollapseNewlines(ReplaceCr(ReplaceCrLf(v))) == v
  {
    ReplaceCrLfNoCr(v, "");
    assert v + "" == v;
    ReplaceCrNoCr(v);
    CollapseNewlinesTextThen(v, "");
  }

  /** Normalized notes normalize to themselves. */
  lemma NormalizeTestingNotesIdempotent(value: string)
    requires NormalizeTestingNotes(value).Some?
    ensures NormalizeTestingNotes(NormalizeTestingNotes(value).value) == NormalizeTestingNotes(value)
  {
    var v := NormalizeTestingNotes(value).value;
    TrimPadded("", v, "");
    assert "" + v + "" == v;
    NotesOfTrimmed(v, v);
    ReplaceCrLfNoCr(v, "");
    assert v + "" == v;
    ReplaceCrNoCr(v);
    CollapseNewlinesOfNoTriple(v);
  }

  /** Lines joined by CRLF come out joined by `\n`. */
  lemma CrLfBetweenLines(l1: string, l2: string, l3: string)
    requires '\r' !in l1 + l2 + l3 && '\n' !in l1 + l2 + l3 && l2 != []
    ensures CollapseNewlines(ReplaceCr(ReplaceCrLf(l1 + ("\r\n" + (l2 + ("\r\n" + l3))))))
      == l1 + ("\n" + (l2 + ("\n" + l3)))
  {
    assert '\r' !in l1 && '\r' !in l2 && '\r' !in l3 && '\n' !in l1 && '\n' !in l2 && '\n' !in l3;
    ReplaceCrLfNoCr(l1, "\r\n" + (l2 + ("\r\n" + l3)));
    ReplaceCrLfNoCr(l2, "\r\n" + l3);
    ReplaceCrLfNoCr(l3, "");
    assert l3 + "" == l3;
    var v := l1 + ("\n" + (l2 + ("\n" + l3)));
    assert ReplaceCrLf(l1 + ("\r\n" + (l2 + ("\r\n" + l3)))) == v;
    ReplaceCrNoCr(v);
    CollapseNewlinesTextThen(l1, "\n" + (l2 + ("\n" + l3)));
    assert "\n" == Newlines(1) && l2[0] != '\n';
    CollapseNewlinesRunThen(1, l2 + ("\n" + l3));
    CollapseNewlinesTextThen(l2, "\n" + l3);
    assert l3 == [] || l3[0] in l3;
    CollapseNewlinesRunThen(1, l3);
    CollapseNewlinesTextThen(l3, "");
  }

  /** Two lines around a run of `k` newlines come out around `min(k, 2)` of them. */
  lemma RunBetweenLines(l1: string, k: nat, l2: string)
    requires '\r' !in l1 + l2 && '\n' !in l1 + l2
    ensures CollapseNewlines(ReplaceCr(ReplaceCrLf(l1 + (Newlines(k) + l2))))
      == l1 + (Newlines(if k >= 3 then 2 else k) + l2)
  {
    var v := l1 + (Newlines(k) + l2);
    assert '\r' !in l1 && '\r' !in l2 && '\n' !in l1 && '\n' !in l2 && '\r' !in Newlines(k);
    ReplaceCrLfNoCr(v, "");
    assert v + "" == v;
    ReplaceCrNoCr(v);
    CollapseNewlinesTextThen(l1, Newlines(k) + l2);
    assert l2 == [] || l2[0] in l2;
    CollapseNewlinesRunThen(k, l2);
    CollapseNewlinesTextThen(l2, "");
    assert l2 + "" == l2;
  }

  // the tool's own self-test notes: the literal facts first, then the steps

  lemma PaddedNotesParts(value: string, v: string)
    requires value == "  Notes with spaces  " && v == "Notes with spaces"
    ensures value == "  " + v + "  " && AllSpace("  ")
    ensures v != [] && !IsSpace(v[0]) && !IsSpace(v[|v| - 1])
  {
  }

  lemma PaddedNotesLine(v: string)
    requires v == "Notes with spaces"
    ensures '\r' !in v && '\n' !in v
  {
  }

  /** Surrounding spaces are trimmed: `  Notes with spaces  ` gives `Notes with spaces`. */
  lemma PaddedNotesExample(value: string)
    requires value == "  Notes with spaces  "
    ensures NormalizeTestingNotes(value) == Some("Notes with spaces")
  {
    var v := "Notes with spaces";
    PaddedNotesParts(value, v);
    PaddedNotesLine(v);
    TrimPadded("  ", v, "  ");
    NotesOfTrimmed(value, v);
    OneLine(v);
  }

  lemma CrLfNotesParts(value: string, l1: string, l2: string, l3: string)
    requires value == "Line 1\r\nLine 2\r\nLine 3"
    requires l1 == "Line 1" && l2 == "Line 2" && l3 == "Line 3"
    ensures value == l1 + ("\r\n" + (l2 + ("\r\n" + l3)))
    ensures '\r' !in l1 + l2 + l3 && '\n' !in l1 + l2 + l3 && l2 != []
    ensures !IsSpace(value[0]) && !IsSpace(value[|value| - 1])
    ensures l1 + ("\n" + (l2 + ("\n" + l3))) == "Line 1\nLine 2\nLine 3"
  {
  }

  /** CRLF line endings become `\n`. */
  lemma CrLfNotesExample(value: string)
    requires value == "Line 1\r\nLine 2\r\nLine 3"
    ensures NormalizeTestingNotes(value) == Some("Line 1\nLine 2\nLine 3")
  {
    var l1, l2, l3 := "Line 1", "Line 2", "Line 3";
    CrLfNotesParts(value, l1, l2, l3);
    TrimPadded("", value, "");
    assert "" + value + "" == value;
    NotesOfTrimmed(value, value);
    CrLfBetweenLines(l1, l2, l3);
  }

  lemma BlankLinesNotesParts(value: string, l1: string, l2: string)
    requires value == "Line 1\n\n\n\nLine 2" && l1 == "Line 1" && l2 == "Line 2"
    ensures value == l1 + (Newlines(4) + l2)
    ensures '\r' !in l1 + l2 && '\n' !in l1 + l2
    ensures !IsSpace(value[0]) && !IsSpace(value[|value| - 1])
    ensures l1 + (Newlines(2) + l2) == "Line 1\n\nLine 2"
  {
    assert Newlines(4) == "\n\n\n\n" && Newlines(2) == "\n\n";
  }

  /** Four newlines in a row become two. */
  lemma BlankLinesNotesExample(value: string)
    requires value == "Line 1\n\n\n\nLine 2"
    ensures NormalizeTestingNotes(value) == Some("Line 1\n\nLine 2")
  {
    var l1, l2 := "Line 1", "Line 2";
    BlankLinesNotesParts(value, l1, l2);
    TrimPadded("", value, "");
    assert "" + value + "" == value;
    NotesOfTrimmed(value, value);
    RunBetweenLines(l1, 4, l2);
  }

  /** An empty, missing or all-space cell gives no notes. */
  lemma BlankNotesExamples()
    ensures NormalizeTestingNotes("") == None
    ensures NormalizeTestingNotes("   ") == None
  {
    assert AllSpace("   ");
  }

  // ---------------------------------------------------------------------------
  // URLs

  /** `validateUrl`: the string parses and its scheme is `http:` or `https:`. */
  predicate ValidateUrl(url: string, parse: UrlParser)
  {
    url != "" && parse(url).Some? && parse(url).value.protocol in ["http:", "https:"]
  }

  /** Drops one trailing `/`, if there is one. */
  function StripTrailingSlash(s: string): (r: string)
    ensures EndsWith(s, "/") ==> r + "/" == s
    ensures !EndsWith(s, "/") ==> r == s
  {
    if EndsWith(s, "/") then s[..|s| - 1] else s
  }

  /** `normalizeUrl`: for a valid URL, its serialization with the host
      lower-cased and one trailing `/` removed. */
  function NormalizeUrl(url: string, parse: UrlParser): (r: Option<string>)
    ensures r.Some? <==> ValidateUrl(url, parse)
  {
    if !ValidateUrl(url, parse) then None
    else
      var u := parse(url).value;
      Some(StripTrailingSlash(Href(u.(hostname := Lower(u.hostname)))))
  }

  /** The normalized URL is the scheme, user info, lower-cased host and port,
      followed by the path, query and fragment exactly as parsed less one
      trailing `/`. */
  lemma NormalizeUrlParts(url: string, parse: UrlParser)
    requires ValidateUrl(url, parse)
    requires var u := parse(url).value; u.pathname + u.search + u.hash != ""
    ensures var u := parse(url).value;
      NormalizeUrl(url, parse) == Some(u.protocol + "//" + u.userinfo + Lower(u.hostname) + u.port
                                       + StripTrailingSlash(u.pathname + u.search + u.hash))
  {
    var u := parse(url).value;
    var head := u.protocol + "//" + u.userinfo + Lower(u.hostname) + u.port;
    var tail := u.pathname + u.search + u.hash;
    assert Href(u.(hostname := Lower(u.hostname))) == head + tail;
    if EndsWith(tail, "/") {
      assert (head + tail)[..|head + tail| - 1] == head + tail[..|tail| - 1];
    }
  }

  /** Two URLs that parse alike up to the letter case of the host normalize alike. */
  lemma NormalizeUrlHostCase(a: string, b: string, parse: UrlParser)
    requires a != "" && b != "" && parse(a).Some? && parse(b).Some?
    requires parse(b).value == parse(a).value.(hostname := parse(b).value.hostname)
    requires Lower(parse(a).value.hostname) == Lower(parse(b).value.hostname)
    ensures NormalizeUrl(a, parse) == NormalizeUrl(b, parse)
  {
  }

  /** The normalization of a URL with known parts. */
  lemma NormalizeUrlOfParts(url: string, parse: UrlParser, u: Url, host: string, serialized: string)
    requires url != "" && parse(url) == Some(u) && u.protocol in ["http:", "https:"]
    requires Lower(u.hostname) == host
    requires Href(u.(hostname := host)) == serialized
    ensures NormalizeUrl(url, parse) == Some(StripTrailingSlash(serialized))
  {
  }

  // the tool's own self-test URLs, with what the URL parser gives for each as
  // a premise

  /** The root URL: the trailing `/` of the root path is dropped. */
  lemma NormalizeUrlExampleRoot(url: string, parse: UrlParser)
    requires url == "https://Example.com/"
    requires parse(url) == Some(Url("https:", "", "example.com", "", "/", "", ""))
    ensures NormalizeUrl(url, parse) == Some("https://example.com")
  {
    var u := Url("https:", "", "example.com", "", "/", "", "");
    ExampleRootParts(u);
    NormalizeUrlOfParts(url, parse, u, "example.com", "https://example.com/");
  }

  lemma ExampleRootParts(u: Url)
    requires u == Url("https:", "", "example.com", "", "/", "", "")
    ensures Lower(u.hostname) == "example.com" && u.(hostname := "example.com") == u
    ensures Href(u) == "https://example.com/"
    ensures StripTrailingSlash("https://example.com/") == "https://example.com"
  {
    LowerCaseHost(u.hostname);
    ExampleRootHref(u);
    ExampleRootStrip("https://example.com/");
  }

  lemma LowerCaseHost(h: string)
    requires h == "example.com" || h == "test.org"
    ensures Lower(h) == h
  {
  }

  lemma ExampleRootHref(u: Url)
    requires u == Url("https:", "", "example.com", "", "/", "", "")
    ensures Href(u) == "https://example.com/"
  {
    assert Href(u) == "https:" + "//" + "example.com" + "/";
  }

  lemma ExampleRootStrip(s: string)
    requires s == "https://example.com/"
    ensures StripTrailingSlash(s) == "https://example.com"
  {
    assert s[|s| - 1..] == "/";
    assert s[..|s| - 1] == "https://example.com";
  }

  /** A URL with a path: the path keeps its letter case and loses its trailing `/`. */
  lemma NormalizeUrlExamplePath(url: string, parse: UrlParser)
    requires url == "http://test.org/Path/To/Resource/"
    requires parse(url) == Some(Url("http:", "", "test.org", "", "/Path/To/Resource/", "", ""))
    ensures NormalizeUrl(url, parse) == Some("http://test.org/Path/To/Resource")
  {
    var u := Url("http:", "", "test.org", "", "/Path/To/Resource/", "", "");
    ExamplePathParts(u);
    NormalizeUrlOfParts(url, parse, u, "test.org", "http://test.org/Path/To/Resource/");
  }

  lemma ExamplePathParts(u: Url)
    requires u == Url("http:", "", "test.org", "", "/Path/To/Resource/", "", "")
    ensures Lower(u.hostname) == "test.org" && u.(hostname := "test.org") == u
    ensures Href(u) == "http://test.org/Path/To/Resource/"
    ensures StripTrailingSlash("http://test.org/Path/To/Resource/") == "http://test.org/Path/To/Resource"
  {
    LowerCaseHost(u.hostname);
    ExamplePathHref(u);
    ExamplePathStrip("http://test.org/Path/To/Resource/");
  }

  lemma ExamplePathHref(u: Url)
    requires u == Url("http:", "", "test.org", "", "/Path/To/Resource/", "", "")
    ensures Href(u) == "http://test.org/Path/To/Resource/"
  {
    var head := "http://test.org";
    assert Href(u) == head + u.pathname;
    assert head + "/Path/To/Resource/" == "http://test.org/Path/To/Resource/";
  }

  lemma ExamplePathStrip(s: string)
    requires s == "http://test.org/Path/To/Resource/"
    ensures StripTrailingSlash(s) == "http://test.org/Path/To/Resource"
  {
    assert s[|s| - 1..] == "/";
    assert s[..|s| - 1] == "http://test.org/Path/To/Resource";
  }

  /** Text the URL parser rejects is no URL. */
  lemma NormalizeUrlExampleNotUrl(url: string, parse: UrlParser)
    requires url == "not a url" && parse(url).None?
    ensures NormalizeUrl(url, parse).None?
  {
  }

  /** `getCanonicalUrlKey`: the whole URL lower-cased, path included. */
  function CanonicalUrlKey(url: string): (r: string)
    ensures |r| == |url| && Lower(r) == r
    ensures forall i | 0 <= i < |url| :: r[i] == LowerChar(url[i])
  {
    LowerIdempotent(url);
    Lower(url)
  }

  // ---------------------------------------------------------------------------
  // Column detection

  /** `/id/i.test(h) && !/slug/i.test(h)`: a column that may hold a Notion relation ID. */
  predicate IsIdColumn(h: string)
  {
    Contains(Lower(h), "id") && !Contains(Lower(h), "slug")
  }

  /** `headers.find(isIdColumn)`. */
  function FirstIdColumn(headers: seq<string>): (r: Option<string>)
    ensures r.None? <==> forall h | h in headers :: !IsIdColumn(h)
    ensures r.Some? ==> r.value in headers && IsIdColumn(r.value)
    ensures r.Some? ==> forall j | 0 <= j < FirstIndex(headers, r.value) :: !IsIdColumn(headers[j])
  {
    if headers == [] then None
    else if IsIdColumn(headers[0]) then Some(headers[0])
    else
      var r := FirstIdColumn(headers[1..]);
      assert forall h | h in headers :: h == headers[0] || h in headers[1..];
      r
  }

  /** `findBrandRefKey`: the preferred column if the header has it, else the
      first of `brand_slug`, `slug`, `brand` present, else the first ID column. */
  function FindBrandRefKey(headers: seq<string>, preferred: Option<string>): (r: Option<string>)
    ensures r.Some? ==> r.value in headers
    ensures preferred.Some? && preferred.value != "" && preferred.value in headers ==> r == preferred
    ensures r.None? <==>
      && (preferred.None? || preferred.value == "" || preferred.value !in headers)
      && "brand_slug" !in headers && "slug" !in headers && "brand" !in headers
      && forall h | h in headers :: !IsIdColumn(h)
  {
    if preferred.Some? && preferred.value != "" && preferred.value in headers then preferred
    else if "brand_slug" in headers then Some("brand_slug")
    else if "slug" in headers then Some("slug")
    else if "brand" in headers then Some("brand")
    else FirstIdColumn(headers)
  }
}
