/** The testing-notes coverage report (scripts/check-testing-details.mjs):
    well-formed brands are split by whether they carry non-blank
    `testing_qa_notes`, each list is shown sorted by slug and truncated, and
    the share of brands with notes is rated. */
module TestingCoverage {
  import opened Wrappers
  import opened Text
  import opened Sorting
  import opened Json
  import ValidateBrands

  // ---------------------------------------------------------------------------
  // The partition

  /** A listed brand: its slug and name, as the JSON values found. */
  datatype Listed = Listed(slug: Json, brand: Json)

  /** A brand with a truthy `slug` and a truthy `brand`; others are skipped. */
  predicate WellFormed(b: Json)
    requires !b.Null?
  {
    Truthy(Property(b, "slug")) && Truthy(Property(b, "brand"))
  }

  function ListedOf(b: Json): Listed
    requires !b.Null? && WellFormed(b)
  {
    Listed(Property(b, "slug").value, Property(b, "brand").value)
  }

  /** The well-formed brands whose notes validity is `withNotes`, in order. */
  function Listing(brands: seq<Json>, withNotes: bool): seq<Listed>
    requires ValidateBrands.NoNulls(brands)
  {
    if brands == [] then []
    else
      var b := brands[|brands| - 1];
      var before := Listing(brands[..|brands| - 1], withNotes);
      if WellFormed(b) && ValidateBrands.HasValidNotes(b) == withNotes then before + [ListedOf(b)] else before
  }

  function WellFormedCount(brands: seq<Json>): nat
    requires ValidateBrands.NoNulls(brands)
  {
    if brands == [] then 0
    else WellFormedCount(brands[..|brands| - 1]) + (if WellFormed(brands[|brands| - 1]) then 1 else 0)
  }

  /** Every well-formed brand lands in exactly one of the two lists, and
      malformed ones in neither; so "with" never exceeds the total. */
  lemma {:induction false} ListingSizes(brands: seq<Json>)
    requires ValidateBrands.NoNulls(brands)
    ensures |Listing(brands, true)| + |Listing(brands, false)| == WellFormedCount(brands)
    ensures WellFormedCount(brands) <= |brands|
    decreases |brands|
  {
    if brands != [] {
      ListingSizes(brands[..|brands| - 1]);
    }
  }

  /** A well-formed brand is listed under its notes validity; whatever is
      listed comes from a well-formed brand with that validity. */
  lemma {:induction false} ListingMembers(brands: seq<Json>, withNotes: bool)
    requires ValidateBrands.NoNulls(brands)
    ensures forall i | 0 <= i < |brands| && WellFormed(brands[i]) && ValidateBrands.HasValidNotes(brands[i]) == withNotes ::
      ListedOf(brands[i]) in Listing(brands, withNotes)
    ensures forall l | l in Listing(brands, withNotes) :: exists i | 0 <= i < |brands| ::
      WellFormed(brands[i]) && ValidateBrands.HasValidNotes(brands[i]) == withNotes && ListedOf(brands[i]) == l
    decreases |brands|
  {
    if brands != [] {
      var n := |brands| - 1;
      ListingMembers(brands[..n], withNotes);
      assert forall i | 0 <= i < n :: brands[..n][i] == brands[i];
    }
  }

  /** The partition loop; reading `slug` of a `null` entry throws. */
  method Partition(brands: seq<Json>) returns (with: seq<Listed>, missing: seq<Listed>, crashed: bool)
    ensures crashed <==> !ValidateBrands.NoNulls(brands)
    ensures !crashed ==> with == Listing(brands, true) && missing == Listing(brands, false)
  {
    with, missing, crashed := [], [], false;
    for i := 0 to |brands|
      invariant ValidateBrands.NoNulls(brands[..i])
      invariant with == Listing(brands[..i], true) && missing == Listing(brands[..i], false)
    {
      var brand := brands[i];
      if brand.Null? {
        crashed := true;
        return;
      }
      assert brands[..i + 1][..i] == brands[..i] && brands[..i + 1][i] == brand;
      var slug := Property(brand, "slug");
      var brandName := Property(brand, "brand");
      if !Truthy(slug) || !Truthy(brandName) {
        continue;
      }
      var hasTestingNotes := HasOwn(brand, ValidateBrands.NotesKey)
        && brand.fields[ValidateBrands.NotesKey].String?
        && Trim(brand.fields[ValidateBrands.NotesKey].s) != "";
      if hasTestingNotes {
        with := with + [Listed(slug.value, brandName.value)];
      } else {
        missing := missing + [Listed(slug.value, brandName.value)];
      }
    }
    assert brands[..|brands|] == brands;
  }

  // ---------------------------------------------------------------------------
  // The listing

  /** An entry of a list to show: slug and name as text. */
  datatype Entry = Entry(slug: string, brand: string)

  const DefaultMaxCount := 30

  predicate SlugLe(a: Entry, b: Entry)
  {
    LexLeq(a.slug, b.slug)
  }

  lemma SlugLeTotal()
    ensures TotalPreorder(SlugLe)
  {
    forall a: Entry, b: Entry ensures SlugLe(a, b) || SlugLe(b, a) {
      LexLeqTotal(a.slug, b.slug);
    }
    forall a: Entry, b: Entry, c: Entry | SlugLe(a, b) && SlugLe(b, c) ensures SlugLe(a, c) {
      LexLeqTransitive(a.slug, b.slug, c.slug);
    }
  }

  function Min(a: nat, b: nat): nat
  {
    if a <= b then a else b
  }

  /** The entries shown: the first `Min(|list|, maxCount)` of a sorted copy
      (the list itself is a value and stays as it was). */
  function Shown(list: seq<Entry>, maxCount: nat): seq<Entry>
  {
    SlugLeTotal();
    var sorted := InsertionSort(list, SlugLe);
    assert |multiset(sorted)| == |list|;
    sorted[..Min(|list|, maxCount)]
  }

  /** The shown entries are `Min(|list|, maxCount)` entries of the list, in
      slug order, and none left out sorts before a shown one. */
  lemma ShownShape(list: seq<Entry>, maxCount: nat)
    ensures var r := Shown(list, maxCount);
      && |r| == Min(|list|, maxCount)
      && SortedBy(r, SlugLe)
      && multiset(r) <= multiset(list)
      && forall e, f | e in r && f in multiset(list) - multiset(r) :: LexLeq(e.slug, f.slug)
  {
    SlugLeTotal();
    var sorted := InsertionSort(list, SlugLe);
    assert |multiset(sorted)| == |list|;
    SortedPrefixFirst(sorted, Min(|list|, maxCount));
  }

  /** A prefix of a sorted sequence holds its least elements. */
  lemma SortedPrefixFirst(sorted: seq<Entry>, d: nat)
    requires SortedBy(sorted, SlugLe) && d <= |sorted|
    ensures multiset(sorted[..d]) <= multiset(sorted)
    ensures forall e, f | e in sorted[..d] && f in multiset(sorted) - multiset(sorted[..d]) :: LexLeq(e.slug, f.slug)
  {
    assert sorted == sorted[..d] + sorted[d..];
    assert multiset(sorted) == multiset(sorted[..d]) + multiset(sorted[d..]);
    forall e, f | e in sorted[..d] && f in multiset(sorted) - multiset(sorted[..d])
      ensures LexLeq(e.slug, f.slug)
    {
      var i :| 0 <= i < d && sorted[..d][i] == e;
      assert f in sorted[d..];
      var j :| 0 <= j < |sorted| - d && sorted[d..][j] == f;
      assert SlugLe(sorted[i], sorted[d + j]);
    }
  }

  /** `   • slug (brand)`. */
  function Bullet(e: Entry): string
  {
    "   • " + e.slug + " (" + e.brand + ")"
  }

  function BulletLines(list: seq<Entry>, maxCount: nat): (r: seq<string>)
  {
    var shown := Shown(list, maxCount);
    seq(|shown|, i requires 0 <= i < |shown| => Bullet(shown[i]))
  }

  /** The closing line for `remaining` entries left out. */
  function EllipsisLine(remaining: nat): string
  {
    "\n   … and " + NatToString(remaining) + " more"
  }

  /** `formatBrandList`: the bullet lines, then the ellipsis line when
      entries were left out. */
  function FormatBrandList(list: seq<Entry>, maxCount: nat): string
  {
    var remaining := |list| - Min(|list|, maxCount);
    Join(BulletLines(list, maxCount), "\n") + (if remaining > 0 then EllipsisLine(remaining) else "")
  }

  /** A join ends with its last part. */
  lemma JoinEndsWithLast(parts: seq<string>, sep: string)
    requires parts != []
    ensures EndsWith(Join(parts, sep), parts[|parts| - 1])
  {
    var last := parts[|parts| - 1];
    if |parts| >= 2 {
      JoinSnoc(parts, sep);
      var p := Join(parts[..|parts| - 1], sep) + sep;
      assert Join(parts, sep) == p + last;
      assert (p + last)[|p|..] == last;
    }
  }

  /** One bullet line per shown entry. */
  lemma BulletLinesCount(list: seq<Entry>, maxCount: nat)
    ensures |BulletLines(list, maxCount)| == Min(|list|, maxCount)
  {
    SlugLeTotal();
    assert |multiset(InsertionSort(list, SlugLe))| == |list|;
  }

  /** The report ends with the ellipsis line exactly when entries were left out. */
  lemma FormatBrandListEllipsis(list: seq<Entry>, maxCount: nat)
    ensures var remaining := |list| - Min(|list|, maxCount);
      remaining > 0 <==> EndsWith(FormatBrandList(list, maxCount), EllipsisLine(remaining))
  {
    var remaining := |list| - Min(|list|, maxCount);
    var tail := EllipsisLine(remaining);
    var p := Join(BulletLines(list, maxCount), "\n");
    assert tail[|tail| - 1] == 'e';
    if remaining > 0 {
      assert FormatBrandList(list, maxCount) == p + tail;
      assert (p + tail)[|p|..] == tail;
    } else {
      assert FormatBrandList(list, maxCount) == p;
      JoinEndsWithBracket(BulletLines(list, maxCount));
    }
  }

  /** Joined bullet lines end with a closing bracket, or are empty. */
  lemma JoinEndsWithBracket(lines: seq<string>)
    requires forall i | 0 <= i < |lines| :: lines[i] != "" && lines[i][|lines[i]| - 1] == ')'
    ensures var p := Join(lines, "\n"); p == "" || p[|p| - 1] == ')'
  {
    if lines != [] {
      var last := lines[|lines| - 1];
      JoinEndsWithLast(lines, "\n");
    }
  }

  // ---------------------------------------------------------------------------
  // Coverage and status

  /** The percentage of brands with notes, rounded half up; 0 for no brands. */
  function CoveragePercent(withNotes: nat, total: nat): (p: nat)
    ensures total == 0 ==> p == 0
    ensures total > 0 ==> p * (2 * total) <= 200 * withNotes + total < (p + 1) * (2 * total)
    ensures withNotes <= total ==> p <= 100
  {
    if total == 0 then 0
    else
      CoverageRounding(200 * withNotes + total, 2 * total);
      if withNotes <= total then
        AtMostHundred(withNotes, total, (200 * withNotes + total) / (2 * total));
        (200 * withNotes + total) / (2 * total)
      else (200 * withNotes + total) / (2 * total)
  }

  lemma CoverageRounding(a: nat, b: nat)
    requires b > 0
    ensures (a / b) * b <= a < (a / b + 1) * b
  {
  }

  lemma AtMostHundred(withNotes: nat, total: nat, p: nat)
    requires 0 < total && withNotes <= total && p * (2 * total) <= 200 * withNotes + total
    ensures p <= 100
  {
  }

  datatype CoverageStatus = Good | Moderate | Low

  /** Good from 80%, Moderate from 50%, Low below. */
  function Status(percent: int): CoverageStatus
  {
    if percent >= 80 then Good else if percent >= 50 then Moderate else Low
  }

  function Rank(s: CoverageStatus): nat
  {
    match s
    case Low => 0
    case Moderate => 1
    case Good => 2
  }

  /** More coverage never rates worse. */
  lemma StatusMonotone(p: int, q: int)
    requires p <= q
    ensures Rank(Status(p)) <= Rank(Status(q))
  {
  }

  // ---------------------------------------------------------------------------
  // The sort's comparator

  /** The positions of a list whose entries the engine's sort passes to the
      comparator as its first argument. Which entries these are is up to the
      engine's sorting algorithm, so the model takes them as a parameter. */
  type SortReceivers = seq<Listed> -> set<nat>

  /** Any sorting algorithm compares a list of two or more entries at least
      once, so the engine passes some entry of it first. */
  ghost predicate EngineReceivers(receivers: SortReceivers)
  {
    forall l: seq<Listed> :: |l| >= 2 ==> exists i | i in receivers(l) :: i < |l|
  }

  predicate StringSlug(l: Listed)
  {
    l.slug.String?
  }

  /** `a.slug.localeCompare(b.slug)` throws a `TypeError` when `a.slug` is not a
      string, so sorting a list throws when the engine passes such an entry
      first. A list of fewer than two entries is never compared. */
  function SortThrows(list: seq<Listed>, receivers: SortReceivers): (r: bool)
    ensures (forall i | 0 <= i < |list| :: StringSlug(list[i])) ==> !r
    ensures |list| < 2 ==> !r
    ensures r ==> exists i | 0 <= i < |list| :: !StringSlug(list[i])
  {
    |list| >= 2 && exists i | i in receivers(list) && i < |list| :: !StringSlug(list[i])
  }

  /** The report runs to the end: the array has no `null` entry and neither
      list's sort throws. */
  predicate Completes(brands: seq<Json>, receivers: SortReceivers)
  {
    && ValidateBrands.NoNulls(brands)
    && !SortThrows(Listing(brands, true), receivers)
    && !SortThrows(Listing(brands, false), receivers)
  }

  datatype Summary = Summary(with: seq<Listed>, missing: seq<Listed>, total: nat, percent: nat, status: CoverageStatus)

  /** The report's lists, its total (every entry, malformed or not), the
      coverage percentage and its rating. */
  predicate Summarizes(brands: seq<Json>, s: Summary)
    requires ValidateBrands.NoNulls(brands)
  {
    && s.with == Listing(brands, true) && s.missing == Listing(brands, false)
    && s.total == |brands|
    && s.percent == CoveragePercent(|s.with|, s.total)
    && s.status == Status(s.percent)
  }

  /** The whole report for the parsed `brands.json` (`None` when the file is
      missing or is not JSON): exit code 1 and no summary unless it is an
      array without `null` entries whose lists sort without throwing. */
  method CheckTestingDetails(parsed: Option<Json>, receivers: SortReceivers) returns (exitCode: int, summary: Option<Summary>)
    requires EngineReceivers(receivers)
    ensures exitCode == 0 <==> parsed.Some? && parsed.value.Array? && Completes(parsed.value.items, receivers)
    ensures exitCode != 0 ==> exitCode == 1 && summary.None?
    ensures exitCode == 0 ==> summary.Some? && Summarizes(parsed.value.items, summary.value)
    ensures summary.Some? ==> |summary.value.with| <= summary.value.total && summary.value.percent <= 100
  {
    if parsed.None? || !parsed.value.Array? {
      return 1, None;
    }
    var brands := parsed.value.items;
    var with, missing, crashed := Partition(brands);
    if crashed || SortThrows(with, receivers) || SortThrows(missing, receivers) {
      return 1, None;
    }
    ListingSizes(brands);
    var total := |brands|;
    var percent := CoveragePercent(|with|, total);
    summary := Some(Summary(with, missing, total, percent, Status(percent)));
    exitCode := 0;
  }

  /** When every listed slug is a string, the outcome does not depend on the
      engine's sort: exit 0 exactly for an array without `null` entries. */
  lemma CompletesWithStringSlugs(brands: seq<Json>, receivers: SortReceivers)
    requires ValidateBrands.NoNulls(brands)
    requires forall i | 0 <= i < |brands| && WellFormed(brands[i]) :: Property(brands[i], "slug").value.String?
    ensures Completes(brands, receivers)
  {
    ListingStringSlugs(brands, true);
    ListingStringSlugs(brands, false);
  }

  /** Whatever the engine, a list of two or more entries none of whose slugs
      is a string makes the sort throw. */
  lemma NonStringSlugsThrow(list: seq<Listed>, receivers: SortReceivers)
    requires EngineReceivers(receivers)
    requires |list| >= 2 && forall i | 0 <= i < |list| :: !StringSlug(list[i])
    ensures SortThrows(list, receivers)
  {
    var i :| i in receivers(list) && i < |list|;
    assert !StringSlug(list[i]);
  }

  /** Two or more well-formed brands in one list, and no well-formed brand
      with a string slug: the report does not complete, so the exit code is 1
      (as for `[{"slug":1,…},{"slug":2,…}]`). */
  lemma NonStringSlugsFail(brands: seq<Json>, receivers: SortReceivers, withNotes: bool)
    requires EngineReceivers(receivers)
    requires ValidateBrands.NoNulls(brands)
    requires |Listing(brands, withNotes)| >= 2
    requires forall i | 0 <= i < |brands| && WellFormed(brands[i]) :: !Property(brands[i], "slug").value.String?
    ensures !Completes(brands, receivers)
  {
    var list := Listing(brands, withNotes);
    ListingMembers(brands, withNotes);
    forall k | 0 <= k < |list|
      ensures !StringSlug(list[k])
    {
      assert list[k] in list;
      var i :| 0 <= i < |brands| && WellFormed(brands[i]) && ValidateBrands.HasValidNotes(brands[i]) == withNotes
               && ListedOf(brands[i]) == list[k];
    }
    NonStringSlugsThrow(list, receivers);
  }

  lemma {:induction false} ListingStringSlugs(brands: seq<Json>, withNotes: bool)
    requires ValidateBrands.NoNulls(brands)
    requires forall i | 0 <= i < |brands| && WellFormed(brands[i]) :: Property(brands[i], "slug").value.String?
    ensures forall i | 0 <= i < |Listing(brands, withNotes)| :: StringSlug(Listing(brands, withNotes)[i])
  {
    if brands != [] {
      ListingStringSlugs(brands[..|brands| - 1], withNotes);
    }
  }
}
