/** The product directory's category helpers
    (src/components/ProductDirectory.tsx): heuristic categories inferred from
    a product's name and aliases, the category index, the category menu order,
    the selection toggle and the category filter. */
module Categories {
  import opened Wrappers
  import opened Text
  import opened Seqs
  import opened Sorting
  import opened Patterns

  datatype Product = Product(name: string, slug: string, aliases: Option<seq<string>>)

  /** A category and the pattern that detects it. */
  datatype Rule = Rule(name: string, pattern: Regex)

  /** The category of a product no rule matches. */
  const OtherCategory := "Other"

  const CategoryRules: seq<Rule> := [
    Rule("Multivitamin", Regex("(multi[ -]?vit|multivitamin)", true)),
    Rule("Vitamin D", Regex("\\bvit(amin)?\\s*d\\b|cholecalciferol", true)),
    Rule("Vitamin C", Regex("\\bvit(amin)?\\s*c\\b|ascorbic", true)),
    Rule("B-Complex", Regex("\\bb[- ]?complex\\b", true)),
    Rule("Omega-3", Regex("(omega|dha|epa|fish oil)", true)),
    Rule("Probiotic", Regex("(probiotic|bifido|lacto)", true)),
    Rule("Magnesium", Regex("(magnesium|mg glycinate|mg citrate)", true)),
    Rule("Iron", Regex("\\biron\\b|ferrous", true)),
    Rule("Collagen", Regex("collagen", true)),
    Rule("Protein", Regex("protein", true)),
    Rule("Creatine", Regex("creatine", true)),
    Rule("Electrolyte", Regex("(electrolyte|rehydration)", true)),
    Rule("Prenatal", Regex("prenatal", true))
  ]

  function RuleNames(rules: seq<Rule>): seq<string>
  {
    seq(|rules|, i requires 0 <= i < |rules| => rules[i].name)
  }

  /** The rule names followed by "Other". */
  const MenuNames: seq<string> := [
    "Multivitamin", "Vitamin D", "Vitamin C", "B-Complex", "Omega-3", "Probiotic", "Magnesium",
    "Iron", "Collagen", "Protein", "Creatine", "Electrolyte", "Prenatal", "Other"]

  /** The first and last characters of each of `MenuNames`. */
  const MenuNameEnds: seq<(char, char)> := [
    ('M', 'n'), ('V', 'D'), ('V', 'C'), ('B', 'x'), ('O', '3'), ('P', 'c'), ('M', 'm'),
    ('I', 'n'), ('C', 'n'), ('P', 'n'), ('C', 'e'), ('E', 'e'), ('P', 'l'), ('O', 'r')]

  function Ends(s: string): (char, char)
  {
    if s == [] then ('\0', '\0') else (s[0], s[|s| - 1])
  }

  function EndsOf(names: seq<string>): seq<(char, char)>
  {
    seq(|names|, i requires 0 <= i < |names| => Ends(names[i]))
  }

  /** Strings that differ in their first or last character are distinct. */
  lemma DistinctByEnds(names: seq<string>)
    requires NoDuplicates(EndsOf(names))
    ensures NoDuplicates(names)
  {
    forall i, j | 0 <= i < j < |names| ensures names[i] != names[j] {
      assert EndsOf(names)[i] != EndsOf(names)[j];
    }
  }

  lemma MenuNamesOfRules()
    ensures RuleNames(CategoryRules) + [OtherCategory] == MenuNames
  {
  }

  lemma MenuNameEndsOf()
    ensures EndsOf(MenuNames) == MenuNameEnds
  {
  }

  lemma MenuNameEndsDistinct()
    ensures NoDuplicates(MenuNameEnds)
  {
  }

  /** The rule table names each category once, and never "Other". */
  lemma RuleNamesDistinct()
    ensures NoDuplicates(RuleNames(CategoryRules))
    ensures OtherCategory !in RuleNames(CategoryRules)
  {
    MenuNameEndsOf();
    MenuNameEndsDistinct();
    DistinctByEnds(MenuNames);
    MenuNamesOfRules();
    NoDuplicatesInit(RuleNames(CategoryRules), OtherCategory);
  }

  /** The product's name and aliases, space-joined and lower-cased. */
  function ProductHaystack(p: Product): string
  {
    Lower(Join([p.name] + p.aliases.GetOr([]), " "))
  }

  /** The names of the rules whose pattern matches `hay`, in rule order. */
  function MatchedNames(test: RegexTest, rules: seq<Rule>, hay: string): seq<string>
  {
    if rules == [] then []
    else (if test(rules[0].pattern, hay) then [rules[0].name] else []) + MatchedNames(test, rules[1..], hay)
  }

  lemma {:induction false} MatchedNamesOrdered(test: RegexTest, rules: seq<Rule>, hay: string)
    ensures IsSubsequence(MatchedNames(test, rules, hay), RuleNames(rules))
  {
    if rules != [] {
      var rest := MatchedNames(test, rules[1..], hay);
      MatchedNamesOrdered(test, rules[1..], hay);
      assert RuleNames(rules) == [rules[0].name] + RuleNames(rules[1..]);
      if test(rules[0].pattern, hay) {
        assert MatchedNames(test, rules, hay) == [rules[0].name] + rest;
        assert ([rules[0].name] + rest)[1..] == rest;
      } else {
        assert MatchedNames(test, rules, hay) == rest;
        IsSubsequenceCons(rest, rules[0].name, RuleNames(rules[1..]));
      }
    }
  }

  lemma {:induction false} MatchedNamesMembers(test: RegexTest, rules: seq<Rule>, hay: string)
    ensures forall c :: c in MatchedNames(test, rules, hay) <==>
      exists i | 0 <= i < |rules| :: rules[i].name == c && test(rules[i].pattern, hay)
  {
    if rules != [] {
      MatchedNamesMembers(test, rules[1..], hay);
      forall c ensures c in MatchedNames(test, rules, hay) <==>
        exists i | 0 <= i < |rules| :: rules[i].name == c && test(rules[i].pattern, hay)
      {
        if exists i | 0 <= i < |rules| :: rules[i].name == c && test(rules[i].pattern, hay) {
          var i :| 0 <= i < |rules| && rules[i].name == c && test(rules[i].pattern, hay);
          if i > 0 {
            assert rules[1..][i - 1] == rules[i];
          }
        }
      }
    }
  }

  predicate AnyMatches(test: RegexTest, rules: seq<Rule>, hay: string)
  {
    exists i | 0 <= i < |rules| :: test(rules[i].pattern, hay)
  }

  /** Categories by `rules`: the matching names, or "Other" when none match. */
  function CategoriesBy(test: RegexTest, rules: seq<Rule>, hay: string): seq<string>
  {
    var matched := MatchedNames(test, rules, hay);
    if |matched| > 0 then Dedupe(matched) else [OtherCategory]
  }

  lemma CategoriesByShape(test: RegexTest, rules: seq<Rule>, hay: string)
    requires NoDuplicates(RuleNames(rules)) && OtherCategory !in RuleNames(rules)
    ensures var r := CategoriesBy(test, rules, hay);
      && r != []
      && NoDuplicates(r)
      && (r == [OtherCategory] <==> !AnyMatches(test, rules, hay))
      && (AnyMatches(test, rules, hay) ==> IsSubsequence(r, RuleNames(rules)))
      && forall c :: c in r <==>
        || (exists i | 0 <= i < |rules| :: rules[i].name == c && test(rules[i].pattern, hay))
        || (c == OtherCategory && !AnyMatches(test, rules, hay))
  {
    var matched := MatchedNames(test, rules, hay);
    MatchedNamesOrdered(test, rules, hay);
    MatchedNamesMembers(test, rules, hay);
    IsSubsequenceNoDuplicates(matched, RuleNames(rules));
    IsSubsequenceMembers(matched, RuleNames(rules));
    DedupeFromNoDuplicates(matched, {});
    if AnyMatches(test, rules, hay) {
      var i :| 0 <= i < |rules| && test(rules[i].pattern, hay);
      assert rules[i].name in matched;
      assert OtherCategory !in matched;
    }
  }

  /** `inferCategories`: the categories of a product by the rule table. */
  function InferCategories(test: RegexTest, p: Product): seq<string>
  {
    CategoriesBy(test, CategoryRules, ProductHaystack(p))
  }

  /** The inferred categories are never empty, hold no duplicates and follow
      the rule order; "Other" stands alone exactly when no rule matches. */
  lemma InferCategoriesShape(test: RegexTest, p: Product)
    ensures var r := InferCategories(test, p);
      && r != []
      && NoDuplicates(r)
      && (r == [OtherCategory] <==> !AnyMatches(test, CategoryRules, ProductHaystack(p)))
      && (AnyMatches(test, CategoryRules, ProductHaystack(p)) ==> IsSubsequence(r, RuleNames(CategoryRules)))
      && forall c :: c in r <==>
        || (exists i | 0 <= i < |CategoryRules| :: CategoryRules[i].name == c && test(CategoryRules[i].pattern, ProductHaystack(p)))
        || (c == OtherCategory && !AnyMatches(test, CategoryRules, ProductHaystack(p)))
  {
    RuleNamesDistinct();
    CategoriesByShape(test, CategoryRules, ProductHaystack(p));
  }

  // ---------------------------------------------------------------------------
  // The category index

  /** The slugs filed under `cat` so far. */
  function SlugsOf(index: map<string, set<string>>, cat: string): set<string>
  {
    if cat in index then index[cat] else {}
  }

  /** Files `slug` under each of `cats`, first to last. */
  function FileUnder(index: map<string, set<string>>, cats: seq<string>, slug: string): map<string, set<string>>
  {
    if cats == [] then index
    else
      var before := FileUnder(index, cats[..|cats| - 1], slug);
      var cat := cats[|cats| - 1];
      before[cat := SlugsOf(before, cat) + {slug}]
  }

  /** The index of `products`, built one product at a time; `categorize`
      gives a product's categories. */
  function CategoryIndex(categorize: Product -> seq<string>, products: seq<Product>): map<string, set<string>>
  {
    if products == [] then map[]
    else
      var last := products[|products| - 1];
      FileUnder(CategoryIndex(categorize, products[..|products| - 1]), categorize(last), last.slug)
  }

  /** Every category of every product, product by product, in visiting order. */
  function VisitedCategories(categorize: Product -> seq<string>, products: seq<Product>): seq<string>
  {
    if products == [] then []
    else VisitedCategories(categorize, products[..|products| - 1]) + categorize(products[|products| - 1])
  }

  lemma {:induction false} FileUnderShape(index: map<string, set<string>>, cats: seq<string>, slug: string)
    ensures forall c :: c in FileUnder(index, cats, slug) <==> c in index || c in cats
    ensures forall c | c in FileUnder(index, cats, slug) ::
      FileUnder(index, cats, slug)[c] == SlugsOf(index, c) + (if c in cats then {slug} else {})
    decreases |cats|
  {
    if cats != [] {
      var init := cats[..|cats| - 1];
      FileUnderShape(index, init, slug);
      assert forall c :: c in cats <==> c in init || c == cats[|cats| - 1];
    }
  }

  lemma {:induction false} VisitedCategoriesMembers(categorize: Product -> seq<string>, products: seq<Product>)
    ensures forall c :: c in VisitedCategories(categorize, products) <==>
      exists i | 0 <= i < |products| :: c in categorize(products[i])
    decreases |products|
  {
    if products != [] {
      var n := |products| - 1;
      VisitedCategoriesMembers(categorize, products[..n]);
      forall c ensures c in VisitedCategories(categorize, products) <==>
        exists i | 0 <= i < |products| :: c in categorize(products[i])
      {
        if exists i | 0 <= i < |products| :: c in categorize(products[i]) {
          var i :| 0 <= i < |products| && c in categorize(products[i]);
          if i < n {
            assert products[..n][i] == products[i];
          }
        }
      }
    }
  }

  /** Slug `s` is filed under `c` exactly when some product with slug `s` has
      category `c`; the categories in the index are exactly those inferred. */
  lemma {:induction false} CategoryIndexShape(categorize: Product -> seq<string>, products: seq<Product>)
    ensures forall c :: c in CategoryIndex(categorize, products) <==>
      exists i | 0 <= i < |products| :: c in categorize(products[i])
    ensures forall c, s | c in CategoryIndex(categorize, products) :: s in CategoryIndex(categorize, products)[c] <==>
      exists i | 0 <= i < |products| :: products[i].slug == s && c in categorize(products[i])
    decreases |products|
  {
    if products != [] {
      var n := |products| - 1;
      var before := CategoryIndex(categorize, products[..n]);
      CategoryIndexShape(categorize, products[..n]);
      FileUnderShape(before, categorize(products[n]), products[n].slug);
      forall c ensures c in CategoryIndex(categorize, products) <==>
        exists i | 0 <= i < |products| :: c in categorize(products[i])
      {
        if exists i | 0 <= i < |products| :: c in categorize(products[i]) {
          var i :| 0 <= i < |products| && c in categorize(products[i]);
          if i < n {
            assert products[..n][i] == products[i];
          }
        }
      }
      forall c, s | c in CategoryIndex(categorize, products) ensures s in CategoryIndex(categorize, products)[c] <==>
        exists i | 0 <= i < |products| :: products[i].slug == s && c in categorize(products[i])
      {
        if exists i | 0 <= i < |products| :: products[i].slug == s && c in categorize(products[i]) {
          var i :| 0 <= i < |products| && products[i].slug == s && c in categorize(products[i]);
          if i < n {
            assert products[..n][i] == products[i];
          }
        }
      }
    }
  }

  /** `inferCategories` as a function value. */
  function Categorizer(test: RegexTest): Product -> seq<string>
  {
    p => InferCategories(test, p)
  }

  lemma FileUnderStep(index: map<string, set<string>>, cats: seq<string>, k: nat, slug: string)
    requires k < |cats|
    ensures var before := FileUnder(index, cats[..k], slug);
      FileUnder(index, cats[..k + 1], slug) == before[cats[k] := SlugsOf(before, cats[k]) + {slug}]
  {
    assert cats[..k + 1][..k] == cats[..k];
  }

  lemma FirstSeenStep(visited: seq<string>, cats: seq<string>, k: nat)
    requires k < |cats|
    ensures var before := FirstSeen(visited + cats[..k]);
      FirstSeen(visited + cats[..k + 1]) == if cats[k] in before then before else before + [cats[k]]
  {
    var seen := visited + cats[..k + 1];
    assert seen[..|seen| - 1] == visited + cats[..k];
  }

  /** One turn of the inner loop keeps the index, the keys and their
      agreement in step with the definitions. */
  lemma FileStep(index0: map<string, set<string>>, visited: seq<string>, cats: seq<string>, k: nat, slug: string,
                 index: map<string, set<string>>, keys: seq<string>,
                 index1: map<string, set<string>>, keys1: seq<string>)
    requires k < |cats|
    requires index == FileUnder(index0, cats[..k], slug)
    requires keys == FirstSeen(visited + cats[..k])
    requires forall c :: c in keys <==> c in index
    requires index1 == index[cats[k] := SlugsOf(index, cats[k]) + {slug}]
    requires keys1 == if cats[k] in index then keys else keys + [cats[k]]
    ensures index1 == FileUnder(index0, cats[..k + 1], slug)
    ensures keys1 == FirstSeen(visited + cats[..k + 1])
    ensures forall c :: c in keys1 <==> c in index1
  {
    FileUnderStep(index0, cats, k, slug);
    FirstSeenStep(visited, cats, k);
  }

  /** The inner loop of `buildCategoryIndex`: files `slug` under each of
      `cats`, creating a category's set (and its key) on first use. */
  method FileProduct(index0: map<string, set<string>>, keys0: seq<string>, ghost visited: seq<string>,
                     cats: seq<string>, slug: string)
    returns (index: map<string, set<string>>, keys: seq<string>)
    requires keys0 == FirstSeen(visited)
    requires forall c :: c in keys0 <==> c in index0
    ensures index == FileUnder(index0, cats, slug)
    ensures keys == FirstSeen(visited + cats)
    ensures forall c :: c in keys <==> c in index
  {
    index, keys := index0, keys0;
    assert visited + cats[..0] == visited;
    for k := 0 to |cats|
      invariant index == FileUnder(index0, cats[..k], slug)
      invariant keys == FirstSeen(visited + cats[..k])
      invariant forall c :: c in keys <==> c in index
    {
      var cat := cats[k];
      ghost var before, keysBefore := index, keys;
      // a category seen for the first time gets an empty set and a key
      var slugs := if cat in index then index[cat] else {};
      if cat !in index {
        keys := keys + [cat];
      }
      index := index[cat := slugs + {slug}];
      FileStep(index0, visited, cats, k, slug, before, keysBefore, index, keys);
    }
    assert cats[..|cats|] == cats;
  }

  /** `buildCategoryIndex`: the index of `products` by their inferred
      categories, and its key order (JavaScript `Map` insertion order). */
  method BuildCategoryIndex(test: RegexTest, products: seq<Product>)
    returns (index: map<string, set<string>>, keys: seq<string>)
    ensures index == CategoryIndex(Categorizer(test), products)
    ensures keys == FirstSeen(VisitedCategories(Categorizer(test), products))
    ensures forall c :: c in keys <==> c in index
  {
    ghost var categorize := Categorizer(test);
    index, keys := map[], [];
    for i := 0 to |products|
      invariant index == CategoryIndex(categorize, products[..i])
      invariant keys == FirstSeen(VisitedCategories(categorize, products[..i]))
      invariant forall c :: c in keys <==> c in index
    {
      var cats := InferCategories(test, products[i]);
      assert cats == categorize(products[i]);
      assert products[..i + 1][..i] == products[..i];
      index, keys := FileProduct(index, keys, VisitedCategories(categorize, products[..i]), cats, products[i].slug);
    }
    assert products[..|products|] == products;
  }

  // ---------------------------------------------------------------------------
  // The category menu

  /** The menu comparator: "Other" after everything, the rest in text order. */
  predicate CategoryLe(a: string, b: string)
  {
    b == OtherCategory || (a != OtherCategory && LexLeq(a, b))
  }

  lemma CategoryLeTotal()
    ensures TotalPreorder(CategoryLe)
  {
    forall a, b ensures CategoryLe(a, b) || CategoryLe(b, a) {
      LexLeqTotal(a, b);
    }
    forall a, b, c | CategoryLe(a, b) && CategoryLe(b, c) ensures CategoryLe(a, c) {
      if c != OtherCategory {
        LexLeqTransitive(a, b, c);
      }
    }
  }

  /** `uniqueCategories`: the index keys with "Other" last and the rest ascending. */
  function UniqueCategories(keys: seq<string>): (r: seq<string>)
    ensures multiset(r) == multiset(keys)
    ensures OtherCategory in keys ==> r[|r| - 1] == OtherCategory
    ensures forall i, j | 0 <= i < j < |r| && r[j] != OtherCategory ::
      r[i] != OtherCategory && LexLeq(r[i], r[j])
  {
    CategoryLeTotal();
    var r := InsertionSort(keys, CategoryLe);
    assert OtherCategory in keys ==> OtherCategory in multiset(r);
    if OtherCategory in keys then
      var k :| 0 <= k < |r| && r[k] == OtherCategory;
      assert k < |r| - 1 ==> CategoryLe(r[k], r[|r| - 1]);
      r
    else r
  }

  // ---------------------------------------------------------------------------
  // Selection and filtering

  /** `toggleCat`: removes `cat` when selected, appends it otherwise. */
  function ToggleCat(selected: seq<string>, cat: string): (r: seq<string>)
    ensures cat in r <==> cat !in selected
    ensures forall c | c != cat :: c in r <==> c in selected
    ensures Remove(r, cat) == Remove(selected, cat)
    ensures cat !in selected ==> r == selected + [cat]
  {
    if cat in selected then
      RemoveAbsent(Remove(selected, cat), cat);
      Remove(selected, cat)
    else
      RemoveSnoc(selected, cat);
      selected + [cat]
  }

  /** Toggling a category on and off again restores the selection. */
  lemma ToggleCatTwice(selected: seq<string>, cat: string)
    requires cat !in selected
    ensures ToggleCat(ToggleCat(selected, cat), cat) == selected
  {
    RemoveSnoc(selected, cat);
    RemoveAbsent(selected, cat);
  }

  predicate HasSelectedCategory(test: RegexTest, selected: seq<string>, p: Product)
  {
    exists c | c in InferCategories(test, p) :: c in selected
  }

  /** The category filter over `base` (the search result, or all products). */
  function FilterByCategories(test: RegexTest, base: seq<Product>, selected: seq<string>): (r: seq<Product>)
    ensures selected == [] ==> r == base
    ensures IsSubsequence(r, base)
    ensures forall p :: p in r <==> p in base && (selected == [] || HasSelectedCategory(test, selected, p))
  {
    if selected == [] then
      IsSubsequenceReflexive(base);
      base
    else Filter(base, p => HasSelectedCategory(test, selected, p))
  }
}
