/** Attribute keywords found in a brand's free-text fields
    (src/lib/normalizeAttributes.ts). */
module Keywords {
  import opened Wrappers
  import opened Text
  import opened Seqs
  import opened Patterns

  /** A normalised attribute label (`name`) and the patterns that detect it. */
  datatype Keyword = Keyword(name: string, patterns: seq<Regex>)

  /** The curated keyword table, in its fixed order. */
  const KeywordTable: seq<Keyword> := [
    Keyword("GMP", [Regex("\\bGMP\\b", true), Regex("good\\s+manufacturing\\s+practice", true)]),
    Keyword("Allergen-free", [Regex("allergen[-\\s]?free", true)]),
    Keyword("Third-party tested", [Regex("third[-\\s]?party\\s*(tested|testing)", true)]),
    Keyword("Self-manufactured", [Regex("self[-\\s]?manufactur\\w*", true), Regex("in[-\\s]?house\\s+manufactur\\w*", true)]),
    Keyword("Women-owned", [Regex("women[-\\s]?owned", true)]),
    Keyword("Non-GMO", [Regex("\\bnon[-\\s]?gmo\\b", true)]),
    Keyword("Vegan", [Regex("\\bvegan\\b", true)])
  ]

  function Labels(table: seq<Keyword>): (r: seq<string>)
  {
    seq(|table|, i requires 0 <= i < |table| => table[i].name)
  }

  /** The text fields the extractor scans; absent fields read as empty. */
  datatype BrandText = BrandText(
    brand: string,
    certifications: Option<seq<string>>,
    ingredientPhilosophy: Option<string>,
    ownershipTransparency: Option<string>,
    testingQaNotes: Option<string>,
    proprietaryBlends: Option<string>,
    recallsNotices: Option<string>,
    sources: Option<seq<string>>)

  function HaystackParts(b: BrandText): seq<string>
  {
    [b.brand] + b.certifications.GetOr([])
    + [b.ingredientPhilosophy.GetOr(""), b.ownershipTransparency.GetOr(""),
       b.testingQaNotes.GetOr(""), b.proprietaryBlends.GetOr(""), b.recallsNotices.GetOr("")]
    + b.sources.GetOr([])
  }

  /** All scanned fields joined by single spaces. */
  function Haystack(b: BrandText): string
  {
    Join(HaystackParts(b), " ")
  }

  /** Every present field, certification and source is part of the haystack. */
  lemma HaystackCoversFields(b: BrandText)
    ensures Contains(Haystack(b), b.brand)
    ensures forall c | c in b.certifications.GetOr([]) :: Contains(Haystack(b), c)
    ensures forall s | s in b.sources.GetOr([]) :: Contains(Haystack(b), s)
    ensures b.testingQaNotes.Some? ==> Contains(Haystack(b), b.testingQaNotes.value)
  {
    var parts := HaystackParts(b);
    forall p | p in parts ensures Contains(Haystack(b), p) {
      var i :| 0 <= i < |parts| && parts[i] == p;
      JoinHoldsPart(parts, " ", i);
    }
    assert b.brand == parts[0];
    var n := |b.certifications.GetOr([])|;
    assert b.testingQaNotes.GetOr("") == parts[1 + n + 2];
    forall c | c in b.certifications.GetOr([]) ensures c in parts {
      var i :| 0 <= i < n && b.certifications.GetOr([])[i] == c;
      assert parts[1 + i] == c;
    }
    forall s | s in b.sources.GetOr([]) ensures s in parts {
      var i :| 0 <= i < |b.sources.GetOr([])| && b.sources.GetOr([])[i] == s;
      assert parts[1 + n + 5 + i] == s;
    }
  }

  /** Some pattern of `k` matches `hay`. */
  predicate Detects(test: RegexTest, k: Keyword, hay: string)
  {
    exists p | p in k.patterns :: test(p, hay)
  }

  /** The inner scan: tries the patterns in order and stops at the first match. */
  method AnyPatternMatches(test: RegexTest, patterns: seq<Regex>, hay: string) returns (found: bool)
    ensures found <==> exists p | p in patterns :: test(p, hay)
  {
    found := false;
    for k := 0 to |patterns|
      invariant !found && forall p | p in patterns[..k] :: !test(p, hay)
    {
      if test(patterns[k], hay) {
        assert patterns[k] in patterns;
        found := true;
        break;
      }
    }
    if !found {
      assert patterns[..|patterns|] == patterns;
    }
  }

  /** The labels of `table` whose patterns match `hay`, once each, in table order. */
  method ExtractKeywords(test: RegexTest, table: seq<Keyword>, hay: string) returns (r: seq<string>)
    ensures NoDuplicates(r)
    ensures IsSubsequence(r, Labels(table))
    ensures forall l :: l in r <==> exists i | 0 <= i < |table| :: table[i].name == l && Detects(test, table[i], hay)
  {
    r := [];
    for i := 0 to |table|
      invariant NoDuplicates(r)
      invariant IsSubsequence(r, Labels(table[..i]))
      invariant forall l :: l in r <==> exists j | 0 <= j < i :: table[j].name == l && Detects(test, table[j], hay)
    {
      var found := AnyPatternMatches(test, table[i].patterns, hay);
      assert Labels(table[..i + 1]) == Labels(table[..i]) + [table[i].name];
      if found && table[i].name !in r {
        IsSubsequenceSnoc(r, Labels(table[..i]), table[i].name);
        NoDuplicatesSnoc(r, table[i].name);
        r := r + [table[i].name];
      } else {
        IsSubsequenceExtend(r, Labels(table[..i]), table[i].name);
      }
    }
    assert table[..|table|] == table;
  }

  /** `extractKeywordsFromBrand`: the keyword labels detected in a brand's text. */
  method ExtractKeywordsFromBrand(test: RegexTest, b: BrandText) returns (r: seq<string>)
    ensures NoDuplicates(r) && |r| <= |KeywordTable|
    ensures IsSubsequence(r, Labels(KeywordTable))
    ensures forall l :: l in r <==>
      exists i | 0 <= i < |KeywordTable| :: KeywordTable[i].name == l && Detects(test, KeywordTable[i], Haystack(b))
  {
    r := ExtractKeywords(test, KeywordTable, Haystack(b));
    IsSubsequenceLength(r, Labels(KeywordTable));
  }
}
