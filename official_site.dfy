/** `extractOfficialSite`: picks, among a brand's source URLs, the one most
    likely to be the brand's own site. Each URL gets an integer score from its
    parsed parts; the list is sorted stably by score (descending) and then by
    length (ascending), and the head wins when its score beats the threshold. */
module OfficialSite {
  import opened Wrappers
  import opened Urls
  import opened Text
  import opened Seqs
  import opened Sorting

  // ---------------------------------------------------------------------------
  // The brand name

  predicate IsLowerAlnum(c: char)
  {
    'a' <= c <= 'z' || '0' <= c <= '9'
  }

  /** `brandName.toLowerCase().replace(/[^a-z0-9]/g, '')`. */
  function NormalizedBrand(name: string): string
  {
    Filter(Lower(name), IsLowerAlnum)
  }

  /** `.map(token => token.replace(/[^a-z0-9]/g, ''))`. */
  function StripTokens(parts: seq<string>): seq<string>
  {
    seq(|parts|, i requires 0 <= i < |parts| => Filter(parts[i], IsLowerAlnum))
  }

  /** The lower-cased name split on whitespace runs, each piece stripped to
      `[a-z0-9]`, keeping the pieces of at least three characters. */
  function BrandTokens(name: string): seq<string>
  {
    Filter(StripTokens(SplitRuns(Lower(name), IsSpace)), t => |t| >= 3)
  }

  // ---------------------------------------------------------------------------
  // URL parts

  /** Hosts whose pages are never a brand's own site. */
  const BlockedHosts: seq<string> := [
    "facebook.com", "instagram.com", "twitter.com", "x.com",
    "linkedin.com", "youtube.com", "tiktok.com", "wikipedia.org",
    "amazon.com", "amazon.co.uk", "amazon.ca", "amazon.de",
    "amazon.fr", "amazon.es", "amazon.it", "amazon.jp"]

  /** `blockedHosts.some(host => hostname.endsWith(host))`. */
  predicate IsBlockedHost(hostname: string)
  {
    exists i | 0 <= i < |BlockedHosts| :: EndsWith(hostname, BlockedHosts[i])
  }

  /** The last two labels of a host name joined by a dot, or the whole name
      when it has fewer than two labels. */
  function RegistrableDomain(hostname: string): string
  {
    var parts := Split(hostname, '.');
    var n := |parts|;
    if n >= 2 then parts[n - 2] + "." + parts[n - 1] else hostname
  }

  /** The registrable domain ends the host name, and it is the whole name or
      follows a dot. */
  lemma RegistrableDomainSuffix(hostname: string)
    ensures var r := RegistrableDomain(hostname);
      EndsWith(hostname, r) && (r == hostname || hostname[|hostname| - |r| - 1] == '.')
  {
    var parts := Split(hostname, '.');
    var n := |parts|;
    if n >= 2 {
      var p := LastTwoLabels(parts, hostname);
      EndsAfter(p, parts[n - 2] + "." + parts[n - 1]);
    }
  }

  lemma EndsAfter(p: string, r: string)
    ensures EndsWith(p + r, r)
    ensures p != "" ==> (p + r)[|p| - 1] == p[|p| - 1]
  {
    assert (p + r)[|p|..] == r;
  }

  /** The registrable domain holds at most one dot, and exactly one when it is
      not the whole host name: it is the longest suffix with at most one dot. */
  lemma RegistrableDomainDots(hostname: string)
    ensures var r := RegistrableDomain(hostname);
      multiset(r)['.'] <= 1 && (r == hostname || multiset(r)['.'] == 1)
  {
    var parts := Split(hostname, '.');
    var n := |parts|;
    if n >= 2 {
      DotCount(parts[n - 2], parts[n - 1]);
    } else {
      assert '.' !in parts[0];
    }
  }

  /** The host name is what comes before its last two labels, then those two
      joined by a dot; what comes before is empty or ends with a dot. */
  lemma LastTwoLabels(parts: seq<string>, hostname: string) returns (p: string)
    requires |parts| >= 2 && Join(parts, ".") == hostname
    ensures hostname == p + (parts[|parts| - 2] + "." + parts[|parts| - 1])
    ensures p == "" || p[|p| - 1] == '.'
  {
    var n := |parts|;
    JoinSnoc(parts, ".");
    var init := parts[..n - 1];
    if n > 2 {
      JoinSnoc(init, ".");
      p := Join(init[..n - 2], ".") + ".";
    } else {
      p := "";
    }
  }

  /** Two labels joined by a dot hold exactly one dot. */
  lemma DotCount(a: string, b: string)
    requires '.' !in a && '.' !in b
    ensures multiset(a + "." + b)['.'] == 1
  {
    assert multiset(a + "." + b) == multiset(a) + multiset{'.'} + multiset(b);
  }

  /** `registrableDomain.toLowerCase().replace(/[^a-z0-9.]/g, '')`. */
  function RegistrableNormalized(hostname: string): string
  {
    Filter(Lower(RegistrableDomain(hostname)), c => IsLowerAlnum(c) || c == '.')
  }

  /** The number of non-empty path segments; `/` has none. */
  function PathDepth(pathname: string): nat
  {
    if pathname == "/" then 0 else |Filter(Split(pathname, '/'), segment => segment != "")|
  }

  function Min(a: int, b: int): int
  {
    if a <= b then a else b
  }

  // ---------------------------------------------------------------------------
  // Scoring

  /** The score of a parsed URL as a sum of its rules. */
  function UrlScore(u: Url, brand: string, tokens: seq<string>): (score: int)
    ensures -7 <= score <= 8
  {
    var domain := RegistrableNormalized(u.hostname);
    (if Contains(domain, brand) then 3 else 0)
    + (if exists t | t in tokens :: Contains(domain, t) then 2 else 0)
    + (if u.pathname == "/" || u.pathname == "" then 2 else 0)
    + (if u.protocol == "https:" then 1 else 0)
    - (if IsBlockedHost(u.hostname) then 4 else 0)
    - Min(PathDepth(u.pathname), 3)
  }

  /** The token loop: stops at the first token found in the domain. */
  method AnyTokenIn(domain: string, tokens: seq<string>) returns (found: bool)
    ensures found <==> exists t | t in tokens :: Contains(domain, t)
  {
    found := false;
    for k := 0 to |tokens|
      invariant !found && forall t | t in tokens[..k] :: !Contains(domain, t)
    {
      if Contains(domain, tokens[k]) {
        assert tokens[k] in tokens;
        found := true;
        break;
      }
    }
    if !found {
      assert tokens[..|tokens|] == tokens;
    }
  }

  /** The scoring steps of one parsed URL, the token rule counted once at most. */
  method Score(u: Url, brand: string, tokens: seq<string>) returns (score: int)
    ensures score == UrlScore(u, brand, tokens)
    ensures -7 <= score <= 8
  {
    var domain := RegistrableNormalized(u.hostname);
    var depth := PathDepth(u.pathname);
    score := 0;
    if Contains(domain, brand) {
      score := score + 3;
    }
    var found := AnyTokenIn(domain, tokens);
    if found {
      score := score + 2;
    }
    if u.pathname == "/" || u.pathname == "" {
      score := score + 2;
    }
    if u.protocol == "https:" {
      score := score + 1;
    }
    if IsBlockedHost(u.hostname) {
      score := score - 4;
    }
    score := score - Min(depth, 3);
  }

  /** A URL's length, `Infinity` for one that does not parse. */
  datatype Length = Finite(n: nat) | Infinite

  datatype Scored = Scored(url: string, score: int, length: Length)

  /** The scored entry of one source URL: `-999` when it does not parse. */
  function Candidate(url: string, brand: string, tokens: seq<string>, parse: UrlParser): (c: Scored)
    ensures c.url == url
    ensures parse(url).None? ==> c.score == -999 && c.length == Infinite
    ensures parse(url).Some? ==> -7 <= c.score <= 8 && c.length == Finite(|url|)
  {
    match parse(url)
    case None => Scored(url, -999, Infinite)
    case Some(u) => Scored(url, UrlScore(u, brand, tokens), Finite(|url|))
  }

  /** `sources.map(...)`: the scored entries, in input order. */
  function Candidates(sources: seq<string>, brandName: string, parse: UrlParser): (r: seq<Scored>)
    ensures |r| == |sources|
  {
    var brand := NormalizedBrand(brandName);
    var tokens := BrandTokens(brandName);
    seq(|sources|, i requires 0 <= i < |sources| => Candidate(sources[i], brand, tokens, parse))
  }

  /** The body of the map: a URL that does not parse scores `-999`. */
  method ScoreSource(url: string, brand: string, tokens: seq<string>, parse: UrlParser) returns (c: Scored)
    ensures c == Candidate(url, brand, tokens, parse)
  {
    match parse(url) {
      case None =>
        c := Scored(url, -999, Infinite);
      case Some(u) =>
        var s := Score(u, brand, tokens);
        c := Scored(url, s, Finite(|url|));
    }
  }

  /** The map over the sources, each parsed URL scored step by step. */
  method ScoreSources(sources: seq<string>, brandName: string, parse: UrlParser) returns (scored: seq<Scored>)
    ensures scored == Candidates(sources, brandName, parse)
  {
    var brand := NormalizedBrand(brandName);
    var tokens := BrandTokens(brandName);
    scored := [];
    for i := 0 to |sources|
      invariant |scored| == i
      invariant forall j | 0 <= j < i :: scored[j] == Candidate(sources[j], brand, tokens, parse)
    {
      var c := ScoreSource(sources[i], brand, tokens, parse);
      scored := scored + [c];
    }
  }

  // ---------------------------------------------------------------------------
  // Ordering

  /** `a.length - b.length <= 0`, where `Infinity - Infinity` is `NaN` and a
      comparator result of `NaN` counts as a tie. */
  predicate LengthLe(a: Length, b: Length)
  {
    match (a, b)
    case (Finite(x), Finite(y)) => x <= y
    case (Finite(_), Infinite) => true
    case (Infinite, Finite(_)) => false
    case (Infinite, Infinite) => true
  }

  /** The comparator of `scored.sort` answers at most zero: a higher score
      first, then the shorter URL. */
  predicate Before(a: Scored, b: Scored)
  {
    a.score > b.score || (a.score == b.score && LengthLe(a.length, b.length))
  }

  lemma BeforeTotal()
    ensures TotalPreorder(Before)
  {
    forall a: Scored, b: Scored, c: Scored | Before(a, b) && Before(b, c) ensures Before(a, c) {
      if a.score == b.score == c.score {
        assert LengthLe(a.length, b.length) && LengthLe(b.length, c.length);
      }
    }
  }

  /** Entry `i` is what the stable sort puts first: no entry has a higher
      score, none with the same score is shorter, and every earlier entry
      ranks strictly lower. */
  predicate IsBest(c: seq<Scored>, i: nat)
  {
    && i < |c|
    && (forall j | 0 <= j < |c| :: c[j].score <= c[i].score)
    && (forall j | 0 <= j < |c| && c[j].score == c[i].score :: LengthLe(c[i].length, c[j].length))
    && (forall j | 0 <= j < i :: c[j].score < c[i].score || !LengthLe(c[j].length, c[i].length))
  }

  /** `extractOfficialSite(sources, brandName)`. */
  method ExtractOfficialSite(sources: seq<string>, brandName: string, parse: UrlParser) returns (r: Option<string>)
    ensures sources == [] || brandName == "" ==> r == None
    ensures r.Some? ==> r.value in sources
    ensures sources != [] && brandName != "" ==>
      (r.Some? <==> exists i | 0 <= i < |sources| :: Candidates(sources, brandName, parse)[i].score > -5)
    ensures r.Some? ==>
      exists i | 0 <= i < |sources| :: sources[i] == r.value && IsBest(Candidates(sources, brandName, parse), i)
    ensures (forall i | 0 <= i < |sources| :: parse(sources[i]).None?) ==> r == None
  {
    if |sources| == 0 || |brandName| == 0 {
      return None;
    }
    var scored := ScoreSources(sources, brandName, parse);
    BeforeTotal();
    var sorted := InsertionSort(scored, Before);
    StableSortHead(scored, Before);
    var k := FirstMinimal(scored, Before);
    assert sorted[0] == scored[k];
    assert IsBest(scored, k);
    if |sorted| > 0 && sorted[0].score > -5 {
      r := Some(sorted[0].url);
    } else {
      r := None;
    }
  }
}
