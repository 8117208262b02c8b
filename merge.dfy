/** The batch merge of tools/merge-brands.mjs (`processFiles`): brand rows are
    ingested into records and indexed by slug, name and ID; source rows are
    attached to the brands they name, deduplicated by canonical URL;
    verification rows are grouped per brand and the latest one is applied;
    the brands are sorted by name and the exit code is decided. */
module MergeBrands {
  import opened Wrappers
  import opened Text
  import opened Seqs
  import opened Sorting
  import opened Urls
  import opened Normalizers
  import opened DateParsing

  // ---------------------------------------------------------------------------
  // Rows and records

  /** One CSV row read with `columns: true`: column name to trimmed cell. */
  type Row = map<string, string>

  /** `row[key]`; a column the row does not have reads as the empty string,
      which every use treats like `undefined`. */
  function Cell(row: Row, key: string): string
  {
    if key in row then row[key] else ""
  }

  /** A parsed CSV file: its header line and its data rows. */
  datatype Table = Table(columns: seq<string>, rows: seq<Row>)

  /** `Object.keys(data[0] || {})`: no headers when the file has no data row. */
  function Headers(t: Table): seq<string>
  {
    if t.rows == [] then [] else t.columns
  }

  /** A value stored in a brand record. */
  datatype FieldValue = Str(text: string) | Flag(flag: bool) | Num(number: int) | Items(items: seq<string>)

  /** An entry of a brand's `sources`: a bare URL or `{url, title}`. */
  datatype Source = Bare(url: string) | Titled(url: string, title: string)

  /** A brand object: its schema fields and its `sources` array. */
  datatype Brand = Brand(fields: map<string, FieldValue>, sources: seq<Source>)

  /** The warnings and errors the merge reports. */
  datatype Message =
    | UnknownColumns(columns: seq<string>)
    | NoSourceRefColumn
    | NoVerificationRefColumn
    | MissingRequired(field: string)
    | DuplicateSlug(slug: string)
    | BadBoolean(value: string, field: string, brand: string)
    | BadNumber(value: string, field: string, brand: string)
    | Migrated(brand: string)
    | InvalidUrl(url: string, brand: string)
    | BadDate(date: string, ref: string)
    | OrphanedVerification(ref: string)

  /** The summary counters. */
  datatype Stats = Stats(
    brandsProcessed: nat, brandsKept: nat, brandsSkipped: nat,
    sourcesProcessed: nat, sourcesOrphaned: nat,
    verificationsProcessed: nat, verificationsOrphaned: nat,
    duplicateSlugs: nat)

  /** JavaScript truthiness of a stored value. */
  predicate Truthy(v: FieldValue)
  {
    match v
    case Str(s) => s != ""
    case Flag(b) => b
    case Num(n) => n != 0
    case Items(_) => true
  }

  /** `brand.brand || ''`. */
  function BrandName(b: Brand): string
  {
    if "brand" in b.fields && b.fields["brand"].Str? then b.fields["brand"].text else ""
  }

  /** `harmonizePunctuation(normalizeWhitespace(value))`, the treatment of plain
      text cells. */
  function CleanText(value: string): string
  {
    HarmonizePunctuation(NormalizeWhitespace(value))
  }

  // ---------------------------------------------------------------------------
  // One brand row's fields

  /** Schema fields the field loop leaves to later stages. */
  const LaterFields: seq<string> := ["verification_status", "last_verified", "sources"]

  /** What the field loop stores for `field` given its cell, if anything: a
      flag, a number, a non-empty list, normalized notes or cleaned text. */
  function Converted(field: string, value: string): Option<FieldValue>
  {
    if field in LaterFields || value == "" then None
    else if field in BooleanFields then
      (match ParseBoolean(value) case Some(b) => Some(Flag(b)) case None => None)
    else if field in NumberFields then
      (match ParseInteger(value) case Some(n) => Some(Num(n)) case None => None)
    else if field in ArrayFields then
      var items := ParseArray(value);
      if |items| > 0 then Some(Items(items)) else None
    else if field == "testing_qa_notes" then
      (match NormalizeTestingNotes(value) case Some(s) => Some(Str(s)) case None => None)
    else Some(Str(CleanText(value)))
  }

  /** The warning the field loop adds for `field`, if any: a boolean or number
      cell that does not parse. */
  function FieldWarning(field: string, value: string, brand: string): Option<Message>
  {
    if field in LaterFields || value == "" then None
    else if field in BooleanFields then
      if ParseBoolean(value).None? then Some(BadBoolean(value, field, brand)) else None
    else if field in NumberFields then
      if ParseInteger(value).None? then Some(BadNumber(value, field, brand)) else None
    else None
  }

  /** The record the field loop builds over `fs`, field by field. */
  function FieldsOf(row: Row, fs: seq<string>): map<string, FieldValue>
  {
    if fs == [] then map[]
    else
      var last := fs[|fs| - 1];
      var m := FieldsOf(row, fs[..|fs| - 1]);
      match Converted(last, Cell(row, last))
      case Some(v) => m[last := v]
      case None => m
  }

  /** The record holds exactly the fields of `fs` whose cell converts, each
      with its converted cell. */
  lemma {:induction false} FieldsOfEntries(row: Row, fs: seq<string>)
    ensures var m := FieldsOf(row, fs);
      && (forall k :: k in m <==> k in fs && Converted(k, Cell(row, k)).Some?)
      && (forall k | k in m :: m[k] == Converted(k, Cell(row, k)).value)
  {
    if fs != [] {
      FieldsOfEntries(row, fs[..|fs| - 1]);
      assert forall k :: k in fs <==> k in fs[..|fs| - 1] || k == fs[|fs| - 1];
    }
  }

  /** The warnings the field loop adds over `fs`, in field order. */
  function FieldWarningsOf(row: Row, fs: seq<string>, brand: string): seq<Message>
  {
    if fs == [] then []
    else
      var last := fs[|fs| - 1];
      var ws := FieldWarningsOf(row, fs[..|fs| - 1], brand);
      match FieldWarning(last, Cell(row, last), brand)
      case Some(w) => ws + [w]
      case None => ws
  }

  /** At most one warning per field, each about a boolean or number field
      of `fs` whose non-empty cell does not parse. */
  lemma {:induction false} FieldWarningsOfShape(row: Row, fs: seq<string>, brand: string)
    ensures var ws := FieldWarningsOf(row, fs, brand);
      && |ws| <= |fs|
      && forall w | w in ws ::
        || (w.BadBoolean? && w.field in fs && w.field in BooleanFields && w.field !in LaterFields
            && w.value == Cell(row, w.field) != "" && ParseBoolean(w.value).None? && w.brand == brand)
        || (w.BadNumber? && w.field in fs && w.field in NumberFields && w.field !in BooleanFields
            && w.field !in LaterFields && w.value == Cell(row, w.field) != ""
            && ParseInteger(w.value).None? && w.brand == brand)
  {
    if fs != [] {
      FieldWarningsOfShape(row, fs[..|fs| - 1], brand);
      assert forall k | k in fs[..|fs| - 1] :: k in fs;
    }
  }

  /** `!brandObj.sustainability && row.sustainablity && legacy.trim() !== ''`:
      the misspelled legacy column fills an empty `sustainability`. */
  predicate NeedsMigration(row: Row, fields: map<string, FieldValue>)
  {
    !("sustainability" in fields && Truthy(fields["sustainability"]))
    && Trim(Cell(row, "sustainablity")) != ""
  }

  /** The record of a kept brand row. */
  function NewRecord(row: Row): (m: map<string, FieldValue>)
  {
    var fields := FieldsOf(row, SchemaFields);
    if NeedsMigration(row, fields) then fields["sustainability" := Str(CleanText(Cell(row, "sustainablity")))]
    else fields
  }

  /** The warnings a kept brand row adds. */
  function RecordWarnings(row: Row, brand: string): seq<Message>
  {
    FieldWarningsOf(row, SchemaFields, brand)
    + (if NeedsMigration(row, FieldsOf(row, SchemaFields)) then [Migrated(brand)] else [])
  }

  /** The field loop: each field of `fs` in turn stores its converted cell
      and adds its warning. */
  method FieldLoop(row: Row, fs: seq<string>, brand: string) returns (fields: map<string, FieldValue>, warnings: seq<Message>)
    ensures fields == FieldsOf(row, fs)
    ensures warnings == FieldWarningsOf(row, fs, brand)
  {
    fields, warnings := map[], [];
    for k := 0 to |fs|
      invariant fields == FieldsOf(row, fs[..k])
      invariant warnings == FieldWarningsOf(row, fs[..k], brand)
    {
      var field := fs[k];
      assert fs[..k + 1][..k] == fs[..k];
      var value := Cell(row, field);
      match Converted(field, value) {
        case Some(v) => fields := fields[field := v];
        case None =>
      }
      match FieldWarning(field, value, brand) {
        case Some(w) => warnings := warnings + [w];
        case None =>
      }
    }
    assert fs[..|fs|] == fs;
  }

  /** The field loop over `SCHEMA_FIELDS`, then the legacy-column migration. */
  method BuildRecord(row: Row, brand: string) returns (fields: map<string, FieldValue>, warnings: seq<Message>)
    ensures fields == NewRecord(row)
    ensures warnings == RecordWarnings(row, brand)
  {
    fields, warnings := FieldLoop(row, SchemaFields, brand);
    if NeedsMigration(row, fields) {
      fields := fields["sustainability" := Str(CleanText(Cell(row, "sustainablity")))];
      warnings := warnings + [Migrated(brand)];
    }
  }

  /** The trimmed non-empty ID cells of a row, under the given ID columns. */
  function IdKeys(row: Row, idColumns: seq<string>): (r: set<string>)
    ensures "" !in r
  {
    if idColumns == [] then {}
    else
      var value := Trim(Cell(row, idColumns[|idColumns| - 1]));
      IdKeys(row, idColumns[..|idColumns| - 1]) + (if value != "" then {value} else {})
  }

  /** The ID index after `idMap.set(idValue.trim(), brand)` for each column
      of `idColumns` in turn, skipping blank cells. */
  function IdsIndexed(index: map<string, nat>, row: Row, idColumns: seq<string>, n: nat): map<string, nat>
  {
    if idColumns == [] then index
    else
      var before := IdsIndexed(index, row, idColumns[..|idColumns| - 1], n);
      var value := Cell(row, idColumns[|idColumns| - 1]);
      if value != "" && Trim(value) != "" then before[Trim(value) := n] else before
  }

  /** Indexing ID cells keeps every older entry that no cell names, and
      sends every non-blank trimmed ID cell to position `n`. */
  lemma {:induction false} IdsIndexedEntries(index: map<string, nat>, row: Row, idColumns: seq<string>, n: nat)
    ensures var r := IdsIndexed(index, row, idColumns, n);
      && (forall k :: k in r <==> k in index || k in IdKeys(row, idColumns))
      && (forall k | k in IdKeys(row, idColumns) :: r[k] == n)
      && (forall k | k in index && k !in IdKeys(row, idColumns) :: r[k] == index[k])
  {
    if idColumns != [] {
      var init := idColumns[..|idColumns| - 1];
      var c := idColumns[|idColumns| - 1];
      IdsIndexedEntries(index, row, init, n);
    }
  }

  /** Indexing ID cells at a position that exists keeps the index in range. */
  lemma IdsIndexedInRange(index: map<string, nat>, row: Row, idColumns: seq<string>, n: nat, m: nat)
    requires InRange(index, m) && n < m
    ensures InRange(IdsIndexed(index, row, idColumns, n), m)
  {
    IdsIndexedEntries(index, row, idColumns, n);
  }

  // ---------------------------------------------------------------------------
  // Sources

  /** `getCanonicalUrlKey` of an entry's URL, whichever form it has. */
  function SourceKey(s: Source): string
  {
    CanonicalUrlKey(s.url)
  }

  function SourceKeys(ss: seq<Source>): (ks: seq<string>)
    ensures |ks| == |ss| && forall i | 0 <= i < |ss| :: ks[i] == SourceKey(ss[i])
  {
    seq(|ss|, i requires 0 <= i < |ss| => SourceKey(ss[i]))
  }

  /** No two entries share a canonical URL key. */
  predicate DistinctKeys(ss: seq<Source>)
  {
    NoDuplicates(SourceKeys(ss))
  }

  /** `row.url || row.URL || row.Url`. */
  function UrlCell(row: Row): string
  {
    if Cell(row, "url") != "" then Cell(row, "url")
    else if Cell(row, "URL") != "" then Cell(row, "URL")
    else Cell(row, "Url")
  }

  /** `row['Source Title'] || row.title || row.Title`. */
  function TitleCell(row: Row): string
  {
    if Cell(row, "Source Title") != "" then Cell(row, "Source Title")
    else if Cell(row, "title") != "" then Cell(row, "title")
    else Cell(row, "Title")
  }

  /** The entry for a normalized URL: titled when the cleaned title is
      non-empty and differs from the URL ignoring case, bare otherwise. */
  function NewSource(url: string, rawTitle: string): (s: Source)
    ensures s.url == url
    ensures s.Titled? <==> CleanText(rawTitle) != "" && Lower(CleanText(rawTitle)) != Lower(url)
  {
    var title := if rawTitle == "" then "" else CleanText(rawTitle);
    if title != "" && Lower(title) != Lower(url) then Titled(url, title) else Bare(url)
  }

  /** Appends the entry for `url` unless an entry with the same canonical key
      is already there. */
  function AddSource(ss: seq<Source>, url: string, rawTitle: string): (r: seq<Source>)
    ensures |ss| <= |r| <= |ss| + 1 && r[..|ss|] == ss
    ensures |r| == |ss| + 1 <==> CanonicalUrlKey(url) !in SourceKeys(ss)
  {
    if CanonicalUrlKey(url) in SourceKeys(ss) then
      ss
    else
      var r := ss + [NewSource(url, rawTitle)];
      assert r[..|ss|] == ss;
      r
  }

  /** After adding, the URL's canonical key is present: appended at the end
      when the entry was new. */
  lemma AddSourceKeys(ss: seq<Source>, url: string, rawTitle: string)
    ensures var r := AddSource(ss, url, rawTitle);
      && CanonicalUrlKey(url) in SourceKeys(r)
      && (|r| > |ss| ==> SourceKeys(r) == SourceKeys(ss) + [CanonicalUrlKey(url)])
  {
    var r := AddSource(ss, url, rawTitle);
    if |r| > |ss| {
      assert SourceKeys(r) == SourceKeys(ss) + [CanonicalUrlKey(url)];
    }
  }

  /** Adding keeps the canonical keys distinct. */
  lemma AddSourceDistinct(ss: seq<Source>, url: string, rawTitle: string)
    requires DistinctKeys(ss)
    ensures DistinctKeys(AddSource(ss, url, rawTitle))
  {
    AddSourceKeys(ss, url, rawTitle);
  }

  /** The brand a source row names: the normalized reference looked up as a
      slug, then as a name, then the trimmed raw reference as an ID. */
  function SourceTarget(row: Row, refKey: string, slugs: map<string, nat>, names: map<string, nat>, ids: map<string, nat>): (r: Option<nat>)
    ensures r.Some? ==> r.value in slugs.Values + names.Values + ids.Values
    ensures Cell(row, refKey) == "" ==> r.None?
  {
    var raw := Cell(row, refKey);
    var ref := if raw == "" then "" else NormalizeBrandRef(raw);
    if ref == "" then None
    else if ref in slugs then Some(slugs[ref])
    else if ref in names then Some(names[ref])
    else if Trim(raw) in ids then Some(ids[Trim(raw)])
    else None
  }

  /** The brands after the URL of a source row reaches brand `i`: nothing
      changes without a URL or for an invalid one; otherwise the normalized
      URL joins brand `i`'s sources unless its canonical key is there. */
  function SourcesAfter(brands: seq<Brand>, i: nat, row: Row, parse: UrlParser): (r: seq<Brand>)
    requires i < |brands|
    ensures |r| == |brands|
  {
    var raw := UrlCell(row);
    if raw == "" then brands
    else
      match NormalizeUrl(raw, parse)
      case None => brands
      case Some(url) => brands[i := brands[i].(sources := AddSource(brands[i].sources, url, TitleCell(row)))]
  }

  /** `after` holds the same brands as `before`, with the same fields and
      sources that only grew at the end. */
  ghost predicate SourcesGrown(before: seq<Brand>, after: seq<Brand>)
  {
    && |after| == |before|
    && forall i | 0 <= i < |before| :: after[i].fields == before[i].fields && before[i].sources <= after[i].sources
  }

  lemma SourcesGrownTransitive(a: seq<Brand>, b: seq<Brand>, c: seq<Brand>)
    requires SourcesGrown(a, b) && SourcesGrown(b, c)
    ensures SourcesGrown(a, c)
  {
    forall i | 0 <= i < |a|
      ensures a[i].sources <= c[i].sources
    {
      assert b[i].sources[..|a[i].sources|] == a[i].sources;
    }
  }

  /** Attaching a URL changes only brand `i`, and only by appending to its
      sources at most one entry, whose canonical key was not there. */
  lemma SourcesAfterAppends(brands: seq<Brand>, i: nat, row: Row, parse: UrlParser)
    requires i < |brands|
    ensures var r := SourcesAfter(brands, i, row, parse);
      && (forall j | 0 <= j < |r| && j != i :: r[j] == brands[j])
      && r[i].fields == brands[i].fields
      && brands[i].sources <= r[i].sources && |r[i].sources| <= |brands[i].sources| + 1
      && (|r[i].sources| > |brands[i].sources| ==>
            var key := CanonicalUrlKey(NormalizeUrl(UrlCell(row), parse).value);
            key !in SourceKeys(brands[i].sources) && SourceKeys(r[i].sources) == SourceKeys(brands[i].sources) + [key])
  {
    var raw := UrlCell(row);
    if raw != "" && NormalizeUrl(raw, parse).Some? {
      var url := NormalizeUrl(raw, parse).value;
      var ss := AddSource(brands[i].sources, url, TitleCell(row));
      AddSourceKeys(brands[i].sources, url, TitleCell(row));
      if |ss| > |brands[i].sources| {
        assert ss == brands[i].sources + [ss[|brands[i].sources|]];
      }
    }
  }

  /** Attaching a URL keeps every brand's canonical keys distinct. */
  lemma SourcesAfterDistinct(brands: seq<Brand>, i: nat, row: Row, parse: UrlParser)
    requires i < |brands| && AllSourcesDistinct(brands)
    ensures AllSourcesDistinct(SourcesAfter(brands, i, row, parse))
  {
    var raw := UrlCell(row);
    if raw != "" && NormalizeUrl(raw, parse).Some? {
      var url := NormalizeUrl(raw, parse).value;
      var b := brands[i].(sources := AddSource(brands[i].sources, url, TitleCell(row)));
      AddSourceDistinct(brands[i].sources, url, TitleCell(row));
      SourcesDistinctUpdate(brands, i, b);
    }
  }

  /** The warning a source row adds once it has found brand `i`: one for a
      URL that does not validate, none otherwise. */
  function UrlWarnings(brands: seq<Brand>, i: nat, row: Row, parse: UrlParser): (ws: seq<Message>)
    requires i < |brands|
    ensures |ws| <= 1
    ensures ws != [] <==> UrlCell(row) != "" && !ValidateUrl(UrlCell(row), parse)
    ensures forall w | w in ws :: w == InvalidUrl(UrlCell(row), BrandName(brands[i]))
  {
    var raw := UrlCell(row);
    if raw != "" && NormalizeUrl(raw, parse).None? then [InvalidUrl(raw, BrandName(brands[i]))] else []
  }

  // ---------------------------------------------------------------------------
  // Verifications

  /** A verification row reduced to what the merge keeps of it. */
  datatype Event = Event(status: string, date: Option<string>)

  /** The comparator of the verification sort, as "may come first": dated
      events before undated ones, later dates first. */
  predicate EventLe(a: Event, b: Event)
  {
    match (a.date, b.date)
    case (None, None) => true
    case (None, Some(_)) => false
    case (Some(_), None) => true
    case (Some(x), Some(y)) => LexLeq(y, x)
  }

  lemma EventOrderTotal()
    ensures TotalPreorder(EventLe)
  {
    forall a: Event, b: Event ensures EventLe(a, b) || EventLe(b, a) {
      if a.date.Some? && b.date.Some? {
        LexLeqTotal(a.date.value, b.date.value);
      }
    }
    forall a: Event, b: Event, c: Event | EventLe(a, b) && EventLe(b, c) ensures EventLe(a, c) {
      if a.date.Some? && b.date.Some? && c.date.Some? {
        LexLeqTransitive(c.date.value, b.date.value, a.date.value);
      }
    }
  }

  /** The position of the event a stable sort puts first: the greatest date
      wins, undated events lose to dated ones, and among equal dates the
      first-seen event wins. */
  function LatestIndex(events: seq<Event>): (r: nat)
    requires |events| > 0
    ensures r < |events|
    ensures forall j | 0 <= j < |events| && events[j].date.Some? ::
      events[r].date.Some? && LexLeq(events[j].date.value, events[r].date.value)
    ensures forall j | 0 <= j < r :: events[j].date != events[r].date
  {
    EventOrderTotal();
    var r := FirstMinimal(events, EventLe);
    assert forall j | 0 <= j < |events| :: EventLe(events[r], events[j]);
    forall j | 0 <= j < r ensures events[j].date != events[r].date {
      if events[r].date.Some? {
        LexLeqReflexive(events[r].date.value);
      }
    }
    r
  }

  /** `verifications.sort(…)[0]` is the event at `LatestIndex`. */
  lemma LatestIsSortHead(events: seq<Event>)
    requires |events| > 0
    ensures (EventOrderTotal(); InsertionSort(events, EventLe)[0]) == events[LatestIndex(events)]
  {
    EventOrderTotal();
    StableSortHead(events, EventLe);
  }

  /** The brand a verification row names: the reference lower-cased as a slug
      or a name, else trimmed as an ID. */
  function VerificationTarget(ref: string, slugs: map<string, nat>, names: map<string, nat>, ids: map<string, nat>): (r: Option<nat>)
    ensures r.Some? ==> r.value in slugs.Values + names.Values + ids.Values
    ensures r.None? <==> Lower(ref) !in slugs && Lower(ref) !in names && Trim(ref) !in ids
  {
    if Lower(ref) in slugs then Some(slugs[Lower(ref)])
    else if Lower(ref) in names then Some(names[Lower(ref)])
    else if Trim(ref) in ids then Some(ids[Trim(ref)])
    else None
  }

  /** What one verification row does: the event it files under a brand, the
      warnings it adds, and whether it counts as orphaned. */
  datatype RowResult = RowResult(event: Option<(nat, Event)>, warnings: seq<Message>, orphaned: bool)

  /** One verification row: a row without reference is orphaned; otherwise an
      unparseable non-empty date is warned about, a row without status is
      skipped, and a row whose reference names no brand is orphaned and warned
      about; the rest file `{status, date}` under the brand they name. */
  function VerificationRow(row: Row, key: string, fallback: DateFallback, slugs: map<string, nat>, names: map<string, nat>, ids: map<string, nat>): RowResult
  {
    var ref := Cell(row, key);
    if ref == "" then RowResult(None, [], true)
    else
      var status := NormalizeWhitespace(Cell(row, "verification_status"));
      var dateStr := NormalizeWhitespace(Cell(row, "last_verified"));
      var date := ParseDate(dateStr, fallback);
      var bad := if dateStr != "" && date.None? then [BadDate(dateStr, ref)] else [];
      if status == "" then RowResult(None, bad, false)
      else
        match VerificationTarget(ref, slugs, names, ids)
        case None => RowResult(None, bad + [OrphanedVerification(ref)], true)
        case Some(i) => RowResult(Some((i, Event(status, date))), bad, false)
  }

  /** A row files an event exactly when it has a reference, a status and a
      brand to file it under, with that status and the brand found by the
      reference; it is orphaned exactly when it has no reference or has a
      status but names no brand, and it warns about the orphan then; at most
      one other warning, about its date. */
  lemma VerificationRowShape(row: Row, key: string, fallback: DateFallback, slugs: map<string, nat>, names: map<string, nat>, ids: map<string, nat>)
    ensures var r := VerificationRow(row, key, fallback, slugs, names, ids);
      var ref := Cell(row, key);
      var status := NormalizeWhitespace(Cell(row, "verification_status"));
      && (r.event.Some? <==> ref != "" && status != "" && VerificationTarget(ref, slugs, names, ids).Some?)
      && (r.event.Some? ==> r.event.value.0 == VerificationTarget(ref, slugs, names, ids).value
                            && r.event.value.1.status == status && status != "")
      && (r.orphaned <==> ref == "" || (status != "" && VerificationTarget(ref, slugs, names, ids).None?))
      && (OrphanedVerification(ref) in r.warnings <==> r.orphaned && ref != "")
      && |r.warnings| <= 2
  {
  }

  /** `verificationsByBrand` after one more event for brand `i`. */
  function AddEvent(events: map<nat, seq<Event>>, i: nat, e: Event): (r: map<nat, seq<Event>>)
    ensures i in r && r[i] == (if i in events then events[i] else []) + [e]
    ensures forall j | j != i :: (j in r <==> j in events) && (j in events ==> r[j] == events[j])
  {
    events[i := (if i in events then events[i] else []) + [e]]
  }

  /** A filed event names a brand one of the indexes leads to. */
  lemma VerificationRowTarget(row: Row, key: string, fallback: DateFallback, slugs: map<string, nat>, names: map<string, nat>, ids: map<string, nat>)
    ensures var r := VerificationRow(row, key, fallback, slugs, names, ids);
      r.event.Some? ==> r.event.value.0 in slugs.Values + names.Values + ids.Values
  {
  }

  /** What each verification row does, in row order. */
  function VerificationRows(rows: seq<Row>, key: string, fallback: DateFallback,
                            slugs: map<string, nat>, names: map<string, nat>, ids: map<string, nat>): (r: seq<RowResult>)
    ensures |r| == |rows|
  {
    if rows == [] then []
    else VerificationRows(rows[..|rows| - 1], key, fallback, slugs, names, ids)
         + [VerificationRow(rows[|rows| - 1], key, fallback, slugs, names, ids)]
  }

  /** Entry `j` of the record is what row `j` does. */
  lemma {:induction false} VerificationRowsAt(rows: seq<Row>, key: string, fallback: DateFallback,
                                              slugs: map<string, nat>, names: map<string, nat>, ids: map<string, nat>)
    ensures forall j | 0 <= j < |rows| ::
      VerificationRows(rows, key, fallback, slugs, names, ids)[j] == VerificationRow(rows[j], key, fallback, slugs, names, ids)
  {
    if rows != [] {
      var init := rows[..|rows| - 1];
      var before := VerificationRows(init, key, fallback, slugs, names, ids);
      var last := VerificationRow(rows[|rows| - 1], key, fallback, slugs, names, ids);
      VerificationRowsAt(init, key, fallback, slugs, names, ids);
      assert VerificationRows(rows, key, fallback, slugs, names, ids) == before + [last];
      forall j | 0 <= j < |init|
        ensures (before + [last])[j] == VerificationRow(rows[j], key, fallback, slugs, names, ids)
      {
        assert rows[j] == init[j];
      }
    }
  }

  /** Taking one more row extends the record by what that row does. */
  lemma VerificationRowsStep(rows: seq<Row>, k: nat, key: string, fallback: DateFallback,
                             slugs: map<string, nat>, names: map<string, nat>, ids: map<string, nat>)
    requires k < |rows|
    ensures VerificationRows(rows[..k + 1], key, fallback, slugs, names, ids)
         == VerificationRows(rows[..k], key, fallback, slugs, names, ids) + [VerificationRow(rows[k], key, fallback, slugs, names, ids)]
  {
    assert rows[..k + 1][..k] == rows[..k];
  }

  /** The events filed under brand `i`, in row order. */
  function EventsFor(results: seq<RowResult>, i: nat): seq<Event>
  {
    if results == [] then []
    else
      var prev := EventsFor(results[..|results| - 1], i);
      match results[|results| - 1].event
      case Some((j, e)) => if j == i then prev + [e] else prev
      case None => prev
  }

  /** The number of orphaned rows. */
  function OrphanCount(results: seq<RowResult>): (n: nat)
    ensures n <= |results|
  {
    if results == [] then 0
    else OrphanCount(results[..|results| - 1]) + (if results[|results| - 1].orphaned then 1 else 0)
  }

  /** The warnings of all rows, in row order. */
  function VerificationWarnings(results: seq<RowResult>): seq<Message>
  {
    if results == [] then []
    else VerificationWarnings(results[..|results| - 1]) + results[|results| - 1].warnings
  }

  /** One more row adds its warnings and, when orphaned, one to the count. */
  lemma TalliesAppend(results: seq<RowResult>, o: RowResult)
    ensures VerificationWarnings(results + [o]) == VerificationWarnings(results) + o.warnings
    ensures OrphanCount(results + [o]) == OrphanCount(results) + (if o.orphaned then 1 else 0)
  {
    assert (results + [o])[..|results|] == results;
  }

  /** `events` files under each brand exactly the events filed for it. */
  ghost predicate GroupedAs(events: map<nat, seq<Event>>, results: seq<RowResult>)
  {
    forall i ::
      && (i in events <==> EventsFor(results, i) != [])
      && (i in events ==> events[i] == EventsFor(results, i))
  }

  /** Filing the event of one more row extends the grouping by that row. */
  lemma GroupedStep(results: seq<RowResult>, o: RowResult, events: map<nat, seq<Event>>)
    requires GroupedAs(events, results)
    ensures GroupedAs(if o.event.Some? then AddEvent(events, o.event.value.0, o.event.value.1) else events, results + [o])
  {
    assert (results + [o])[..|results|] == results;
  }

  /** The brand after its winning event: `verification_status` is set from a
      non-empty status, `last_verified` only from a date; nothing else changes. */
  function Applied(b: Brand, e: Event): (r: Brand)
    ensures r.sources == b.sources
    ensures forall k | k != "verification_status" && k != "last_verified" ::
      (k in r.fields <==> k in b.fields) && (k in b.fields ==> r.fields[k] == b.fields[k])
    ensures e.status != "" ==> "verification_status" in r.fields && r.fields["verification_status"] == Str(e.status)
    ensures e.date.Some? ==> "last_verified" in r.fields && r.fields["last_verified"] == Str(e.date.value)
    ensures e.date.None? ==>
      && ("last_verified" in r.fields <==> "last_verified" in b.fields)
      && ("last_verified" in b.fields ==> r.fields["last_verified"] == b.fields["last_verified"])
  {
    var f := if e.status != "" then b.fields["verification_status" := Str(e.status)] else b.fields;
    b.(fields := if e.date.Some? then f["last_verified" := Str(e.date.value)] else f)
  }

  /** The application loop: each brand with events takes the status and date
      of its latest one; the others are left as they are. */
  method ApplyEvents(brands: seq<Brand>, events: map<nat, seq<Event>>) returns (r: seq<Brand>)
    requires forall i | i in events :: events[i] != []
    ensures |r| == |brands|
    ensures forall i | 0 <= i < |r| ::
      r[i] == if i in events then Applied(brands[i], events[i][LatestIndex(events[i])]) else brands[i]
  {
    r := brands;
    for i := 0 to |r|
      invariant |r| == |brands|
      invariant forall j | 0 <= j < |r| ::
        r[j] == if j < i && j in events then Applied(brands[j], events[j][LatestIndex(events[j])]) else brands[j]
    {
      if i in events {
        var latest := events[i][LatestIndex(events[i])];
        r := r[i := Applied(r[i], latest)];
      }
    }
  }

  // ---------------------------------------------------------------------------
  // Output order

  /** `(a.brand || '').localeCompare(b.brand || '') <= 0`, with code-unit order
      in place of the locale's collation. */
  predicate BrandLe(a: Brand, b: Brand)
  {
    LexLeq(BrandName(a), BrandName(b))
  }

  lemma BrandOrderTotal()
    ensures TotalPreorder(BrandLe)
  {
    forall a: Brand, b: Brand ensures BrandLe(a, b) || BrandLe(b, a) {
      LexLeqTotal(BrandName(a), BrandName(b));
    }
    forall a: Brand, b: Brand, c: Brand | BrandLe(a, b) && BrandLe(b, c) ensures BrandLe(a, c) {
      LexLeqTransitive(BrandName(a), BrandName(b), BrandName(c));
    }
  }

  // ---------------------------------------------------------------------------
  // The merge invariant, on values

  /** The slug index leads from `keys[i]`, the lower-cased slug of the
      brand at position `i`, to that position. */
  ghost predicate SlugsIndexed(index: map<string, nat>, keys: seq<string>)
  {
    forall i | 0 <= i < |keys| :: keys[i] in index && index[keys[i]] == i
  }

  /** Every entry of `index` leads to one of `n` brands. */
  predicate InRange(index: map<string, nat>, n: nat)
  {
    forall k | k in index :: index[k] < n
  }

  predicate AllSourcesDistinct(brands: seq<Brand>)
  {
    forall i | 0 <= i < |brands| :: DistinctKeys(brands[i].sources)
  }

  /** The counters agree with `kept` kept brands. */
  predicate Counted(stats: Stats, kept: nat)
  {
    && stats.brandsProcessed == stats.brandsKept + stats.brandsSkipped
    && stats.brandsKept == kept
    && stats.duplicateSlugs <= stats.brandsSkipped
    && stats.sourcesOrphaned <= stats.sourcesProcessed
    && stats.verificationsOrphaned <= stats.verificationsProcessed
  }

  /** An indexed slug set has no duplicate keys. */
  lemma SlugKeysDistinct(index: map<string, nat>, keys: seq<string>)
    requires SlugsIndexed(index, keys)
    ensures NoDuplicates(keys)
  {
  }

  /** Indexing a new slug at the next position keeps the match one-to-one. */
  lemma SlugsIndexedAdd(index: map<string, nat>, keys: seq<string>, slug: string)
    requires SlugsIndexed(index, keys) && slug !in index
    ensures SlugsIndexed(index[slug := |keys|], keys + [slug])
  {
    var keys' := keys + [slug];
    assert forall i | 0 <= i < |keys| :: keys'[i] == keys[i];
  }

  /** A position found through an in-range index names a brand. */
  lemma TargetInRange(slugs: map<string, nat>, names: map<string, nat>, ids: map<string, nat>, n: nat, i: nat)
    requires InRange(slugs, n) && InRange(names, n) && InRange(ids, n)
    requires i in slugs.Values + names.Values + ids.Values
    ensures i < n
  {
    if i in slugs.Values {
      var k :| k in slugs && slugs[k] == i;
    } else if i in names.Values {
      var k :| k in names && names[k] == i;
    } else {
      var k :| k in ids && ids[k] == i;
    }
  }

  /** Adding a key for a new last position keeps an index in range. */
  lemma InRangeAdd(index: map<string, nat>, key: string, n: nat)
    requires InRange(index, n)
    ensures InRange(index[key := n], n + 1)
  {
  }

  /** Appending a brand whose sources are distinct keeps every brand's sources distinct. */
  lemma SourcesDistinctAppend(brands: seq<Brand>, b: Brand)
    requires AllSourcesDistinct(brands) && DistinctKeys(b.sources)
    ensures AllSourcesDistinct(brands + [b])
  {
    assert forall i | 0 <= i < |brands| :: (brands + [b])[i] == brands[i];
  }

  /** Replacing one brand by one whose sources are distinct keeps every
      brand's sources distinct. */
  lemma SourcesDistinctUpdate(brands: seq<Brand>, i: nat, b: Brand)
    requires AllSourcesDistinct(brands) && i < |brands| && DistinctKeys(b.sources)
    ensures AllSourcesDistinct(brands[i := b])
  {
  }

  // ---------------------------------------------------------------------------
  // The merge state

  /** Every event in `results` is filed under one of `count` brands. */
  predicate TargetsBelow(results: seq<RowResult>, count: nat)
  {
    forall j | 0 <= j < |results| :: results[j].event.Some? ==> results[j].event.value.0 < count
  }

  /** Every event the rows file names one of the `count` brands the indexes
      lead to. */
  lemma VerificationRowsInRange(rows: seq<Row>, key: string, fallback: DateFallback,
                                slugs: map<string, nat>, names: map<string, nat>, ids: map<string, nat>, count: nat)
    requires InRange(slugs, count) && InRange(names, count) && InRange(ids, count)
    ensures TargetsBelow(VerificationRows(rows, key, fallback, slugs, names, ids), count)
  {
    var results := VerificationRows(rows, key, fallback, slugs, names, ids);
    VerificationRowsAt(rows, key, fallback, slugs, names, ids);
    forall j | 0 <= j < |results| && results[j].event.Some?
      ensures results[j].event.value.0 < count
    {
      VerificationRowTarget(rows[j], key, fallback, slugs, names, ids);
      TargetInRange(slugs, names, ids, count, results[j].event.value.0);
    }
  }

  /** The grouping loop over what the rows do: brand `i` ends up with exactly
      the events of the rows that name it, in row order, and the warnings and
      orphans are tallied. */
  method GroupOutcomes(results: seq<RowResult>, count: nat)
    returns (events: map<nat, seq<Event>>, added: seq<Message>, orphans: nat)
    requires TargetsBelow(results, count)
    ensures GroupedAs(events, results)
    ensures added == VerificationWarnings(results) && orphans == OrphanCount(results)
    ensures forall i | i in events :: i < count
  {
    events, added, orphans := map[], [], 0;
    for k := 0 to |results|
      invariant GroupedAs(events, results[..k])
      invariant forall i | i in events :: i < count
      invariant added == VerificationWarnings(results[..k]) && orphans == OrphanCount(results[..k])
    {
      var o := results[k];
      GroupedStep(results[..k], o, events);
      TalliesAppend(results[..k], o);
      assert results[..k + 1] == results[..k] + [o];
      if o.event.Some? {
        events := AddEvent(events, o.event.value.0, o.event.value.1);
      }
      added := added + o.warnings;
      orphans := orphans + if o.orphaned then 1 else 0;
    }
    assert results[..|results|] == results;
  }

  /** Reordering brands keeps each brand's sources free of repeated keys. */
  lemma PermutationSourcesDistinct(before: seq<Brand>, after: seq<Brand>)
    requires multiset(after) == multiset(before)
    ensures AllSourcesDistinct(before) ==> AllSourcesDistinct(after)
  {
    if AllSourcesDistinct(before) {
      forall i | 0 <= i < |after| ensures DistinctKeys(after[i].sources) {
        assert after[i] in multiset(before);
        var j :| 0 <= j < |before| && before[j] == after[i];
      }
    }
  }

  // ---------------------------------------------------------------------------
  // The stages as functions of their rows

  /** The kept brands and the three lookup maps. */
  datatype Indexed = Indexed(brands: seq<Brand>, slugs: map<string, nat>, names: map<string, nat>, ids: map<string, nat>)

  /** One brand row: the state is kept for a row without brand or slug, or
      whose slug was already kept (ignoring case); otherwise the row's record
      is appended with no sources and indexed by slug, name and ID cells. */
  function IngestStep(st: Indexed, row: Row, idColumns: seq<string>): Indexed
  {
    var name := NormalizeWhitespace(Cell(row, "brand"));
    var slug := NormalizeWhitespace(Cell(row, "slug"));
    var n := |st.brands|;
    if name == "" || slug == "" || Lower(slug) in st.slugs then st
    else Indexed(st.brands + [Brand(NewRecord(row), [])], st.slugs[Lower(slug) := n],
                 st.names[Lower(name) := n], IdsIndexed(st.ids, row, idColumns, n))
  }

  /** The brand rows, one after the other. */
  function Ingested(st: Indexed, rows: seq<Row>, idColumns: seq<string>): Indexed
  {
    if rows == [] then st
    else IngestStep(Ingested(st, rows[..|rows| - 1], idColumns), rows[|rows| - 1], idColumns)
  }

  /** A brand row with a brand and a slug is never lost: once the rows are
      ingested its lower-cased slug is indexed, by that row or an earlier one;
      earlier brands are kept as they are, and each row adds at most one. */
  lemma {:induction false} IngestedKeepsRows(st: Indexed, rows: seq<Row>, idColumns: seq<string>)
    ensures var r := Ingested(st, rows, idColumns);
      && st.brands <= r.brands && |r.brands| <= |st.brands| + |rows|
      && st.slugs.Keys <= r.slugs.Keys
      && forall k | 0 <= k < |rows| && NormalizeWhitespace(Cell(rows[k], "brand")) != ""
                                   && NormalizeWhitespace(Cell(rows[k], "slug")) != "" ::
           Lower(NormalizeWhitespace(Cell(rows[k], "slug"))) in r.slugs
  {
    if rows != [] {
      var init := rows[..|rows| - 1];
      IngestedKeepsRows(st, init, idColumns);
      IngestStepKeeps(Ingested(st, init, idColumns), rows[|rows| - 1], idColumns);
      forall k | 0 <= k < |rows| - 1
        ensures rows[k] == init[k]
      {
      }
    }
  }

  /** One brand row keeps the brands and slugs before it, adds at most one
      brand, and leaves its own lower-cased slug indexed when it is complete. */
  lemma IngestStepKeeps(st: Indexed, row: Row, idColumns: seq<string>)
    ensures var r := IngestStep(st, row, idColumns);
      && st.brands <= r.brands && |r.brands| <= |st.brands| + 1
      && st.slugs.Keys <= r.slugs.Keys
      && (NormalizeWhitespace(Cell(row, "brand")) != "" && NormalizeWhitespace(Cell(row, "slug")) != ""
          ==> Lower(NormalizeWhitespace(Cell(row, "slug"))) in r.slugs)
  {
  }

  /** One source row: its URL attached to the brand its reference names, if
      any. (With the merger's indexes every named position is a kept brand.) */
  function SourceStep(brands: seq<Brand>, row: Row, refKey: string, slugs: map<string, nat>, names: map<string, nat>,
                      ids: map<string, nat>, parse: UrlParser): (r: seq<Brand>)
    ensures |r| == |brands|
  {
    match SourceTarget(row, refKey, slugs, names, ids)
    case Some(i) => if i < |brands| then SourcesAfter(brands, i, row, parse) else brands
    case None => brands
  }

  /** The source rows, one after the other. */
  function SourcesAll(brands: seq<Brand>, rows: seq<Row>, refKey: string, slugs: map<string, nat>, names: map<string, nat>,
                      ids: map<string, nat>, parse: UrlParser): (r: seq<Brand>)
    ensures |r| == |brands|
  {
    if rows == [] then brands
    else SourceStep(SourcesAll(brands, rows[..|rows| - 1], refKey, slugs, names, ids, parse),
                    rows[|rows| - 1], refKey, slugs, names, ids, parse)
  }

  /** Each brand after the verification rows: the status and date of its
      latest event, or unchanged when no row names it. */
  function Verified(brands: seq<Brand>, results: seq<RowResult>): (r: seq<Brand>)
    ensures |r| == |brands|
    ensures forall i | 0 <= i < |r| :: r[i].sources == brands[i].sources
  {
    seq(|brands|, i requires 0 <= i < |brands| =>
      var es := EventsFor(results, i);
      if es == [] then brands[i] else Applied(brands[i], es[LatestIndex(es)]))
  }

  /** The brands after the three loading stages, before the sort. */
  function Loaded(st: Indexed, brandRows: seq<Row>, idColumns: seq<string>, sourceRows: seq<Row>, refKey: string,
                  verificationRows: seq<Row>, verificationKey: Option<string>, parse: UrlParser, fallback: DateFallback): (r: seq<Brand>)
    ensures |r| == |Ingested(st, brandRows, idColumns).brands|
  {
    var ingested := Ingested(st, brandRows, idColumns);
    var sourced := SourcesAll(ingested.brands, sourceRows, refKey, ingested.slugs, ingested.names, ingested.ids, parse);
    match verificationKey
    case None => sourced
    case Some(key) => Verified(sourced, VerificationRows(verificationRows, key, fallback, ingested.slugs, ingested.names, ingested.ids))
  }

  // ---------------------------------------------------------------------------
  // The stages' messages and counters as functions of their rows

  /** `!brandName || !slug`: a brand row without brand or without slug. */
  predicate MissingField(row: Row)
  {
    NormalizeWhitespace(Cell(row, "brand")) == "" || NormalizeWhitespace(Cell(row, "slug")) == ""
  }

  /** A brand row with both fields whose lower-cased slug was already kept. */
  predicate DuplicateRow(st: Indexed, row: Row)
  {
    !MissingField(row) && Lower(NormalizeWhitespace(Cell(row, "slug"))) in st.slugs
  }

  /** The error a brand row adds: the first missing field, named. */
  function RowErrors(row: Row): seq<Message>
  {
    if MissingField(row) then [MissingRequired(if NormalizeWhitespace(Cell(row, "brand")) == "" then "brand" else "slug")]
    else []
  }

  /** The warnings a brand row adds: the duplicate-slug warning, or the kept
      record's field and migration warnings. */
  function RowWarnings(st: Indexed, row: Row): seq<Message>
  {
    if MissingField(row) then []
    else if DuplicateRow(st, row) then [DuplicateSlug(NormalizeWhitespace(Cell(row, "slug")))]
    else RecordWarnings(row, NormalizeWhitespace(Cell(row, "brand")))
  }

  /** The errors of the brand rows, in row order: one per row missing a field. */
  function IngestErrors(rows: seq<Row>): (es: seq<Message>)
    ensures |es| <= |rows|
    ensures forall e | e in es :: e.MissingRequired?
  {
    if rows == [] then [] else IngestErrors(rows[..|rows| - 1]) + RowErrors(rows[|rows| - 1])
  }

  /** The warnings of the brand rows, in row order, each row seen against
      the brands kept before it. */
  function IngestWarnings(st: Indexed, rows: seq<Row>, idColumns: seq<string>): seq<Message>
  {
    if rows == [] then []
    else
      var init := rows[..|rows| - 1];
      IngestWarnings(st, init, idColumns) + RowWarnings(Ingested(st, init, idColumns), rows[|rows| - 1])
  }

  /** The number of brand rows skipped as duplicates. */
  function DuplicateCount(st: Indexed, rows: seq<Row>, idColumns: seq<string>): (n: nat)
    ensures n <= |rows|
  {
    if rows == [] then 0
    else
      var init := rows[..|rows| - 1];
      DuplicateCount(st, init, idColumns) + (if DuplicateRow(Ingested(st, init, idColumns), rows[|rows| - 1]) then 1 else 0)
  }

  /** One more brand row extends each fold by what that row does. */
  lemma IngestFoldsStep(st: Indexed, rows: seq<Row>, k: nat, idColumns: seq<string>)
    requires k < |rows|
    ensures var before := Ingested(st, rows[..k], idColumns);
      && Ingested(st, rows[..k + 1], idColumns) == IngestStep(before, rows[k], idColumns)
      && IngestErrors(rows[..k + 1]) == IngestErrors(rows[..k]) + RowErrors(rows[k])
      && IngestWarnings(st, rows[..k + 1], idColumns) == IngestWarnings(st, rows[..k], idColumns) + RowWarnings(before, rows[k])
      && DuplicateCount(st, rows[..k + 1], idColumns)
         == DuplicateCount(st, rows[..k], idColumns) + (if DuplicateRow(before, rows[k]) then 1 else 0)
  {
    assert rows[..k + 1][..k] == rows[..k];
  }

  /** Messages added in three steps are the messages of all three, in order. */
  lemma AppendThree(a: seq<Message>, b: seq<Message>, c: seq<Message>, d: seq<Message>)
    ensures a + b + c + d == a + (b + c + d)
  {
  }

  /** Messages added in two steps are the messages of both, in order. */
  lemma AppendTwice(a: seq<Message>, b: seq<Message>, c: seq<Message>)
    ensures a + (b + c) == a + b + c
  {
  }

  /** The warning a source row adds: an invalid URL for the brand it names. */
  function SourceRowWarnings(brands: seq<Brand>, row: Row, refKey: string, slugs: map<string, nat>,
                             names: map<string, nat>, ids: map<string, nat>, parse: UrlParser): seq<Message>
  {
    match SourceTarget(row, refKey, slugs, names, ids)
    case Some(i) => if i < |brands| then UrlWarnings(brands, i, row, parse) else []
    case None => []
  }

  /** The warnings of the source rows, in row order, each row seen against
      the sources attached before it. */
  function SourceWarnings(brands: seq<Brand>, rows: seq<Row>, refKey: string, slugs: map<string, nat>,
                          names: map<string, nat>, ids: map<string, nat>, parse: UrlParser): seq<Message>
  {
    if rows == [] then []
    else
      var init := rows[..|rows| - 1];
      SourceWarnings(brands, init, refKey, slugs, names, ids, parse)
      + SourceRowWarnings(SourcesAll(brands, init, refKey, slugs, names, ids, parse), rows[|rows| - 1],
                          refKey, slugs, names, ids, parse)
  }

  /** The number of source rows that name no brand. */
  function SourceOrphans(rows: seq<Row>, refKey: string, slugs: map<string, nat>, names: map<string, nat>,
                         ids: map<string, nat>): (n: nat)
    ensures n <= |rows|
  {
    if rows == [] then 0
    else SourceOrphans(rows[..|rows| - 1], refKey, slugs, names, ids)
         + (if SourceTarget(rows[|rows| - 1], refKey, slugs, names, ids).None? then 1 else 0)
  }

  /** One more source row extends each fold by what that row does. */
  lemma SourceFoldsStep(brands: seq<Brand>, rows: seq<Row>, k: nat, refKey: string, slugs: map<string, nat>,
                        names: map<string, nat>, ids: map<string, nat>, parse: UrlParser)
    requires k < |rows|
    ensures var before := SourcesAll(brands, rows[..k], refKey, slugs, names, ids, parse);
      && SourcesAll(brands, rows[..k + 1], refKey, slugs, names, ids, parse) == SourceStep(before, rows[k], refKey, slugs, names, ids, parse)
      && SourceWarnings(brands, rows[..k + 1], refKey, slugs, names, ids, parse)
         == SourceWarnings(brands, rows[..k], refKey, slugs, names, ids, parse)
            + SourceRowWarnings(before, rows[k], refKey, slugs, names, ids, parse)
      && SourceOrphans(rows[..k + 1], refKey, slugs, names, ids)
         == SourceOrphans(rows[..k], refKey, slugs, names, ids) + (if SourceTarget(rows[k], refKey, slugs, names, ids).None? then 1 else 0)
  {
    assert rows[..k + 1][..k] == rows[..k];
  }

  /** What each verification row does, when the verification stage runs:
      rows joined on `verificationKey` against the indexes the brand rows built. */
  function VerificationResults(st: Indexed, brandRows: seq<Row>, idColumns: seq<string>, verificationRows: seq<Row>,
                               verificationKey: Option<string>, fallback: DateFallback): seq<RowResult>
  {
    var ingested := Ingested(st, brandRows, idColumns);
    match verificationKey
    case None => []
    case Some(key) => VerificationRows(verificationRows, key, fallback, ingested.slugs, ingested.names, ingested.ids)
  }

  /** The warnings the three loading stages add, in the order they add them. */
  function LoadedWarnings(st: Indexed, brandRows: seq<Row>, idColumns: seq<string>, sourceRows: seq<Row>, refKey: string,
                          verificationRows: seq<Row>, verificationKey: Option<string>, parse: UrlParser,
                          fallback: DateFallback): seq<Message>
  {
    var ingested := Ingested(st, brandRows, idColumns);
    IngestWarnings(st, brandRows, idColumns)
    + SourceWarnings(ingested.brands, sourceRows, refKey, ingested.slugs, ingested.names, ingested.ids, parse)
    + VerificationWarnings(VerificationResults(st, brandRows, idColumns, verificationRows, verificationKey, fallback))
  }

  /** The state `processFiles` builds up: the kept brand objects, the three
      lookup maps (a map value is the position of the brand object in
      `brands`), the warnings and errors, and the summary counters. */
  class Merge {
    var brands: seq<Brand>
    var slugIndex: map<string, nat>
    var nameIndex: map<string, nat>
    var idIndex: map<string, nat>
    var warnings: seq<Message>
    var errors: seq<Message>
    var stats: Stats
    /** The lower-cased slug each kept brand was indexed under, by position. */
    ghost var slugKeys: seq<string>

    /** Every index entry leads to a kept brand; the slug index is a
        one-to-one match between lower-cased slugs and kept brands; no brand
        holds two sources with one canonical key; the counters agree. */
    ghost predicate Valid()
      reads this
    {
      && |slugKeys| == |brands|
      && SlugsIndexed(slugIndex, slugKeys)
      && InRange(slugIndex, |brands|)
      && InRange(nameIndex, |brands|)
      && InRange(idIndex, |brands|)
      && AllSourcesDistinct(brands)
      && Counted(stats, |brands|)
    }

    /** The state before the first brand row, with the warnings and errors the
        column checks reported. */
    constructor(reported: seq<Message>, failed: seq<Message>)
      ensures Valid()
      ensures brands == [] && slugIndex == map[] && nameIndex == map[] && idIndex == map[]
      ensures warnings == reported && errors == failed
      ensures stats == Stats(0, 0, 0, 0, 0, 0, 0, 0)
    {
      brands, slugIndex, nameIndex, idIndex := [], map[], map[], map[];
      warnings, errors := reported, failed;
      stats := Stats(0, 0, 0, 0, 0, 0, 0, 0);
      slugKeys := [];
      new;
      assert SlugsIndexed(slugIndex, slugKeys);
      assert InRange(slugIndex, 0) && InRange(nameIndex, 0) && InRange(idIndex, 0);
      assert AllSourcesDistinct(brands);
    }

    /** One brand row: rejected without brand or slug, skipped when its slug
        was already kept (ignoring case), otherwise recorded with no sources
        and indexed by slug, name and ID cells. */
    method IngestRow(row: Row, idColumns: seq<string>)
      requires Valid()
      modifies this
      ensures Valid()
      ensures Indexed(brands, slugIndex, nameIndex, idIndex)
           == IngestStep(Indexed(old(brands), old(slugIndex), old(nameIndex), old(idIndex)), row, idColumns)
      ensures warnings == old(warnings) + RowWarnings(Indexed(old(brands), old(slugIndex), old(nameIndex), old(idIndex)), row)
      ensures errors == old(errors) + RowErrors(row)
      ensures var name := NormalizeWhitespace(Cell(row, "brand"));
              var slug := NormalizeWhitespace(Cell(row, "slug"));
              var n := |old(brands)|;
              if name == "" || slug == "" then
                && brands == old(brands) && slugIndex == old(slugIndex) && nameIndex == old(nameIndex)
                && idIndex == old(idIndex) && warnings == old(warnings)
                && errors == old(errors) + [MissingRequired(if name == "" then "brand" else "slug")]
                && stats == old(stats).(brandsProcessed := old(stats).brandsProcessed + 1,
                                        brandsSkipped := old(stats).brandsSkipped + 1)
              else if Lower(slug) in old(slugIndex) then
                && brands == old(brands) && slugIndex == old(slugIndex) && nameIndex == old(nameIndex)
                && idIndex == old(idIndex) && errors == old(errors)
                && warnings == old(warnings) + [DuplicateSlug(slug)]
                && stats == old(stats).(brandsProcessed := old(stats).brandsProcessed + 1,
                                        brandsSkipped := old(stats).brandsSkipped + 1,
                                        duplicateSlugs := old(stats).duplicateSlugs + 1)
              else
                && brands == old(brands) + [Brand(NewRecord(row), [])]
                && slugIndex == old(slugIndex)[Lower(slug) := n]
                && nameIndex == old(nameIndex)[Lower(name) := n]
                && idIndex == IdsIndexed(old(idIndex), row, idColumns, n)
                && warnings == old(warnings) + RecordWarnings(row, name)
                && errors == old(errors)
                && stats == old(stats).(brandsProcessed := old(stats).brandsProcessed + 1,
                                        brandsKept := old(stats).brandsKept + 1)
    {
      var name := NormalizeWhitespace(Cell(row, "brand"));
      var slug := NormalizeWhitespace(Cell(row, "slug"));
      if name == "" || slug == "" {
        errors := errors + [MissingRequired(if name == "" then "brand" else "slug")];
        stats := stats.(brandsProcessed := stats.brandsProcessed + 1, brandsSkipped := stats.brandsSkipped + 1);
        return;
      }
      if Lower(slug) in slugIndex {
        warnings := warnings + [DuplicateSlug(slug)];
        stats := stats.(brandsProcessed := stats.brandsProcessed + 1, brandsSkipped := stats.brandsSkipped + 1,
                        duplicateSlugs := stats.duplicateSlugs + 1);
        return;
      }
      var fields, fieldWarnings := BuildRecord(row, name);
      Keep(row, name, slug, fields, fieldWarnings, idColumns);
    }

    /** Records a kept brand with the given fields and field warnings: it
        takes the next position, is indexed by lower-cased slug, name and ID
        cells, and counts as processed and kept. */
    method Keep(row: Row, name: string, slug: string, fields: map<string, FieldValue>,
                fieldWarnings: seq<Message>, idColumns: seq<string>)
      requires Valid()
      requires Lower(slug) !in slugIndex
      modifies this
      ensures Valid()
      ensures var n := |old(brands)|;
        && brands == old(brands) + [Brand(fields, [])]
        && slugIndex == old(slugIndex)[Lower(slug) := n]
        && nameIndex == old(nameIndex)[Lower(name) := n]
        && idIndex == IdsIndexed(old(idIndex), row, idColumns, n)
        && warnings == old(warnings) + fieldWarnings
        && errors == old(errors)
        && stats == old(stats).(brandsProcessed := old(stats).brandsProcessed + 1,
                                brandsKept := old(stats).brandsKept + 1)
    {
      var n := |brands|;
      var slugKey, nameKey := Lower(slug), Lower(name);
      SlugsIndexedAdd(slugIndex, slugKeys, slugKey);
      SourcesDistinctAppend(brands, Brand(fields, []));
      InRangeAdd(slugIndex, slugKey, n);
      InRangeAdd(nameIndex, nameKey, n);
      IdsIndexedInRange(idIndex, row, idColumns, n, n + 1);
      IndexIds(row, idColumns, n);
      brands, slugKeys, warnings := brands + [Brand(fields, [])], slugKeys + [slugKey], warnings + fieldWarnings;
      slugIndex, nameIndex := slugIndex[slugKey := n], nameIndex[nameKey := n];
      stats := stats.(brandsProcessed := stats.brandsProcessed + 1, brandsKept := stats.brandsKept + 1);
    }

    /** `idMap.set(idValue.trim(), brandObj)` for each ID column with a
        non-blank cell. */
    method IndexIds(row: Row, idColumns: seq<string>, n: nat)
      modifies this`idIndex
      ensures idIndex == IdsIndexed(old(idIndex), row, idColumns, n)
    {
      for c := 0 to |idColumns|
        invariant idIndex == IdsIndexed(old(idIndex), row, idColumns[..c], n)
      {
        assert idColumns[..c + 1][..c] == idColumns[..c];
        var value := Cell(row, idColumns[c]);
        if value != "" && Trim(value) != "" {
          idIndex := idIndex[Trim(value) := n];
        }
      }
      assert idColumns[..|idColumns|] == idColumns;
    }

    /** The ingest loop over all brand rows. Kept brands are never changed
        by a later row. */
    method Ingest(rows: seq<Row>, idColumns: seq<string>)
      requires Valid()
      modifies this
      ensures Valid()
      ensures Indexed(brands, slugIndex, nameIndex, idIndex)
           == Ingested(Indexed(old(brands), old(slugIndex), old(nameIndex), old(idIndex)), rows, idColumns)
      ensures old(brands) <= brands
      ensures errors == old(errors) + IngestErrors(rows)
      ensures warnings == old(warnings) + IngestWarnings(Indexed(old(brands), old(slugIndex), old(nameIndex), old(idIndex)), rows, idColumns)
      ensures old(errors) <= errors && forall e | e in errors[|old(errors)|..] :: e.MissingRequired?
      ensures old(warnings) <= warnings
      ensures stats.brandsProcessed == old(stats.brandsProcessed) + |rows|
      ensures stats.duplicateSlugs
           == old(stats.duplicateSlugs) + DuplicateCount(Indexed(old(brands), old(slugIndex), old(nameIndex), old(idIndex)), rows, idColumns)
      ensures stats.sourcesProcessed == old(stats.sourcesProcessed) && stats.verificationsProcessed == old(stats.verificationsProcessed)
      ensures stats.sourcesOrphaned == old(stats.sourcesOrphaned) && stats.verificationsOrphaned == old(stats.verificationsOrphaned)
    {
      ghost var start := Indexed(brands, slugIndex, nameIndex, idIndex);
      for k := 0 to |rows|
        invariant Valid()
        invariant Indexed(brands, slugIndex, nameIndex, idIndex) == Ingested(start, rows[..k], idColumns)
        invariant old(brands) <= brands
        invariant errors == old(errors) + IngestErrors(rows[..k])
        invariant warnings == old(warnings) + IngestWarnings(start, rows[..k], idColumns)
        invariant stats.brandsProcessed == old(stats.brandsProcessed) + k
        invariant stats.duplicateSlugs == old(stats.duplicateSlugs) + DuplicateCount(start, rows[..k], idColumns)
        invariant stats.sourcesProcessed == old(stats.sourcesProcessed) && stats.verificationsProcessed == old(stats.verificationsProcessed)
        invariant stats.sourcesOrphaned == old(stats.sourcesOrphaned) && stats.verificationsOrphaned == old(stats.verificationsOrphaned)
      {
        IngestFoldsStep(start, rows, k, idColumns);
        var before := Ingested(start, rows[..k], idColumns);
        AppendTwice(old(errors), IngestErrors(rows[..k]), RowErrors(rows[k]));
        AppendTwice(old(warnings), IngestWarnings(start, rows[..k], idColumns), RowWarnings(before, rows[k]));
        IngestRow(rows[k], idColumns);
      }
      assert rows[..|rows|] == rows;
      assert errors[|old(errors)|..] == IngestErrors(rows);
    }

    /** The start of one source row: counted, looked up, and counted as
        orphaned when it names no brand. */
    method FindSourceBrand(row: Row, refKey: string) returns (target: Option<nat>)
      requires Valid()
      modifies this`stats
      ensures Valid()
      ensures target == SourceTarget(row, refKey, slugIndex, nameIndex, idIndex)
      ensures target.Some? ==> target.value < |brands|
      ensures stats == old(stats).(sourcesProcessed := old(stats).sourcesProcessed + 1,
                                   sourcesOrphaned := old(stats).sourcesOrphaned + (if target.None? then 1 else 0))
    {
      target := SourceTarget(row, refKey, slugIndex, nameIndex, idIndex);
      if target.None? {
        stats := stats.(sourcesProcessed := stats.sourcesProcessed + 1, sourcesOrphaned := stats.sourcesOrphaned + 1);
      } else {
        stats := stats.(sourcesProcessed := stats.sourcesProcessed + 1);
        TargetInRange(slugIndex, nameIndex, idIndex, |brands|, target.value);
      }
    }

    /** `row.url || row.URL || row.Url` for the brand at position `i`:
        skipped when empty, warned about when invalid, otherwise added to
        the brand's sources unless its canonical key is already there. */
    method AttachUrl(i: nat, row: Row, parse: UrlParser)
      requires Valid() && i < |brands|
      modifies this`brands, this`warnings
      ensures Valid()
      ensures brands == SourcesAfter(old(brands), i, row, parse)
      ensures warnings == old(warnings) + UrlWarnings(old(brands), i, row, parse)
    {
      SourcesAfterDistinct(brands, i, row, parse);
      var rawUrl := UrlCell(row);
      if rawUrl == "" {
        return;
      }
      var normalized := NormalizeUrl(rawUrl, parse);
      if normalized.None? {
        warnings := warnings + [InvalidUrl(rawUrl, BrandName(brands[i]))];
        return;
      }
      var b := brands[i];
      brands := brands[i := b.(sources := AddSource(b.sources, normalized.value, TitleCell(row)))];
    }

    /** One source row: looked up, and its URL attached to the brand it names. */
    method SourceRow(row: Row, refKey: string, parse: UrlParser)
      requires Valid()
      modifies this`brands, this`warnings, this`stats
      ensures Valid()
      ensures brands == SourceStep(old(brands), row, refKey, slugIndex, nameIndex, idIndex, parse)
      ensures SourcesGrown(old(brands), brands)
      ensures warnings == old(warnings) + SourceRowWarnings(old(brands), row, refKey, slugIndex, nameIndex, idIndex, parse)
      ensures old(warnings) <= warnings
      ensures stats == old(stats).(sourcesProcessed := old(stats).sourcesProcessed + 1,
                                   sourcesOrphaned := old(stats).sourcesOrphaned
                                     + (if SourceTarget(row, refKey, slugIndex, nameIndex, idIndex).None? then 1 else 0))
    {
      var target := FindSourceBrand(row, refKey);
      if target.Some? {
        GrowSources(target.value, row, parse);
      }
    }

    /** `AttachUrl` seen from the source loop: brands keep their fields and
        their sources only grow. */
    method GrowSources(i: nat, row: Row, parse: UrlParser)
      requires Valid() && i < |brands|
      modifies this`brands, this`warnings
      ensures Valid()
      ensures brands == SourcesAfter(old(brands), i, row, parse)
      ensures SourcesGrown(old(brands), brands)
      ensures warnings == old(warnings) + UrlWarnings(old(brands), i, row, parse)
      ensures old(warnings) <= warnings
    {
      SourcesAfterAppends(brands, i, row, parse);
      AttachUrl(i, row, parse);
    }

    /** The grouping stage on the merger's state: every row is counted, its
        warnings added and, when orphaned, counted as such; brand `i` ends up
        with exactly the events of the rows that name it, in row order. */
    method GroupVerifications(rows: seq<Row>, key: string, fallback: DateFallback)
      returns (events: map<nat, seq<Event>>, results: seq<RowResult>)
      requires Valid()
      modifies this`warnings, this`stats
      ensures Valid()
      ensures results == VerificationRows(rows, key, fallback, slugIndex, nameIndex, idIndex)
      ensures GroupedAs(events, results)
      ensures warnings == old(warnings) + VerificationWarnings(results)
      ensures stats == old(stats).(verificationsProcessed := old(stats).verificationsProcessed + |rows|,
                                   verificationsOrphaned := old(stats).verificationsOrphaned + OrphanCount(results))
      ensures forall i | i in events :: i < |brands|
    {
      results := VerificationRows(rows, key, fallback, slugIndex, nameIndex, idIndex);
      VerificationRowsInRange(rows, key, fallback, slugIndex, nameIndex, idIndex, |brands|);
      var added, orphans;
      events, added, orphans := GroupOutcomes(results, |brands|);
      warnings, stats := warnings + added,
        stats.(verificationsProcessed := stats.verificationsProcessed + |rows|,
               verificationsOrphaned := stats.verificationsOrphaned + orphans);
    }

    /** The application loop: each brand with events takes the status and
        date of its latest one. */
    method ApplyVerifications(events: map<nat, seq<Event>>)
      requires Valid()
      requires forall i | i in events :: i < |brands| && events[i] != []
      modifies this`brands
      ensures Valid()
      ensures |brands| == |old(brands)|
      ensures forall i | 0 <= i < |brands| ::
        brands[i] == if i in events then Applied(old(brands)[i], events[i][LatestIndex(events[i])]) else old(brands)[i]
    {
      var updated := ApplyEvents(brands, events);
      assert AllSourcesDistinct(updated) by {
        forall j | 0 <= j < |updated| ensures DistinctKeys(updated[j].sources) {
          assert updated[j].sources == brands[j].sources;
        }
      }
      brands := updated;
    }

    /** `brands.sort(…)` by brand name: sorted and a permutation, with equal
        names kept in their order. */
    method SortBrands()
      modifies this`brands
      ensures SortedBy(brands, BrandLe) && multiset(brands) == multiset(old(brands)) && |brands| == |old(brands)|
      ensures (BrandOrderTotal(); brands == InsertionSort(old(brands), BrandLe))
      ensures AllSourcesDistinct(old(brands)) ==> AllSourcesDistinct(brands)
    {
      BrandOrderTotal();
      var sorted := InsertionSort(brands, BrandLe);
      PermutationSourcesDistinct(brands, sorted);
      brands := sorted;
    }

    /** The brand rows, then the source rows. */
    method LoadRows(brandRows: seq<Row>, idColumns: seq<string>, sourceRows: seq<Row>, refKey: string, parse: UrlParser)
      requires Valid()
      modifies this
      ensures Valid()
      ensures var ingested := Ingested(Indexed(old(brands), old(slugIndex), old(nameIndex), old(idIndex)), brandRows, idColumns);
        && slugIndex == ingested.slugs && nameIndex == ingested.names && idIndex == ingested.ids
        && brands == SourcesAll(ingested.brands, sourceRows, refKey, slugIndex, nameIndex, idIndex, parse)
      ensures var start := Indexed(old(brands), old(slugIndex), old(nameIndex), old(idIndex));
        && errors == old(errors) + IngestErrors(brandRows)
        && warnings == old(warnings) + IngestWarnings(start, brandRows, idColumns)
                       + SourceWarnings(Ingested(start, brandRows, idColumns).brands, sourceRows, refKey, slugIndex, nameIndex, idIndex, parse)
        && stats.duplicateSlugs == old(stats.duplicateSlugs) + DuplicateCount(start, brandRows, idColumns)
      ensures stats.sourcesOrphaned == old(stats.sourcesOrphaned) + SourceOrphans(sourceRows, refKey, slugIndex, nameIndex, idIndex)
      ensures stats.verificationsOrphaned == old(stats.verificationsOrphaned)
      ensures old(errors) <= errors && forall e | e in errors[|old(errors)|..] :: e.MissingRequired?
      ensures old(warnings) <= warnings
      ensures stats.brandsProcessed == old(stats.brandsProcessed) + |brandRows|
      ensures stats.sourcesProcessed == old(stats.sourcesProcessed) + |sourceRows|
      ensures stats.verificationsProcessed == old(stats.verificationsProcessed)
    {
      Ingest(brandRows, idColumns);
      ghost var afterIngest := warnings;
      MergeSources(sourceRows, refKey, parse);
      AppendTwice(old(warnings), afterIngest[|old(warnings)|..], warnings[|afterIngest|..]);
    }

    /** The verification rows joined on `key`: grouped, then applied. */
    method LoadVerifications(rows: seq<Row>, key: string, fallback: DateFallback)
      requires Valid()
      modifies this
      ensures Valid()
      ensures slugIndex == old(slugIndex) && nameIndex == old(nameIndex) && idIndex == old(idIndex)
      ensures brands == Verified(old(brands), VerificationRows(rows, key, fallback, slugIndex, nameIndex, idIndex))
      ensures errors == old(errors) && old(warnings) <= warnings
      ensures warnings == old(warnings) + VerificationWarnings(VerificationRows(rows, key, fallback, slugIndex, nameIndex, idIndex))
      ensures stats == old(stats).(verificationsProcessed := old(stats.verificationsProcessed) + |rows|,
                                   verificationsOrphaned := old(stats.verificationsOrphaned)
                                     + OrphanCount(VerificationRows(rows, key, fallback, slugIndex, nameIndex, idIndex)))
      ensures stats.brandsProcessed == old(stats.brandsProcessed) && stats.sourcesProcessed == old(stats.sourcesProcessed)
      ensures stats.verificationsProcessed == old(stats.verificationsProcessed) + |rows|
    {
      var events, _ := GroupVerifications(rows, key, fallback);
      ApplyVerifications(events);
    }

    /** The four stages of `processFiles` in order: brand rows, source rows,
        verification rows when a reference column was found, then the sort. */
    method Run(brandRows: seq<Row>, idColumns: seq<string>, sourceRows: seq<Row>, refKey: string,
               verificationRows: seq<Row>, verificationKey: Option<string>, parse: UrlParser, fallback: DateFallback,
               ghost start: Indexed)
      requires Valid()
      requires start == Indexed(brands, slugIndex, nameIndex, idIndex)
      modifies this
      ensures (BrandOrderTotal();
               brands == InsertionSort(Loaded(start, brandRows, idColumns, sourceRows, refKey, verificationRows,
                                              verificationKey, parse, fallback), BrandLe))
      ensures |brands| == |Ingested(start, brandRows, idColumns).brands|
      ensures SortedBy(brands, BrandLe) && AllSourcesDistinct(brands) && Counted(stats, |brands|)
      ensures var ingested := Ingested(start, brandRows, idColumns);
        && errors == old(errors) + IngestErrors(brandRows)
        && warnings == old(warnings) + LoadedWarnings(start, brandRows, idColumns, sourceRows, refKey,
                                                      verificationRows, verificationKey, parse, fallback)
        && stats.duplicateSlugs == old(stats.duplicateSlugs) + DuplicateCount(start, brandRows, idColumns)
        && stats.sourcesOrphaned == old(stats.sourcesOrphaned)
                                    + SourceOrphans(sourceRows, refKey, ingested.slugs, ingested.names, ingested.ids)
        && stats.verificationsOrphaned == old(stats.verificationsOrphaned)
             + OrphanCount(VerificationResults(start, brandRows, idColumns, verificationRows, verificationKey, fallback))
      ensures old(errors) <= errors && forall e | e in errors[|old(errors)|..] :: e.MissingRequired?
      ensures old(warnings) <= warnings
      ensures stats.brandsProcessed == old(stats.brandsProcessed) + |brandRows|
      ensures stats.sourcesProcessed == old(stats.sourcesProcessed) + |sourceRows|
      ensures stats.verificationsProcessed ==
        old(stats.verificationsProcessed) + (if verificationKey.Some? then |verificationRows| else 0)
    {
      ghost var before := warnings;
      LoadRows(brandRows, idColumns, sourceRows, refKey, parse);
      ghost var loaded := warnings;
      ghost var results := VerificationResults(start, brandRows, idColumns, verificationRows, verificationKey, fallback);
      if verificationKey.Some? {
        LoadVerifications(verificationRows, verificationKey.value, fallback);
      } else {
        assert results == [];
      }
      assert warnings == loaded + VerificationWarnings(results);
      AppendThree(before, IngestWarnings(start, brandRows, idColumns), loaded[|before| + |IngestWarnings(start, brandRows, idColumns)|..],
                  VerificationWarnings(results));
      SortBrands();
    }

    /** The source loop: brand records keep their fields and only gain sources. */
    method MergeSources(rows: seq<Row>, refKey: string, parse: UrlParser)
      requires Valid()
      modifies this
      ensures Valid()
      ensures slugIndex == old(slugIndex) && nameIndex == old(nameIndex) && idIndex == old(idIndex)
      ensures errors == old(errors)
      ensures brands == SourcesAll(old(brands), rows, refKey, slugIndex, nameIndex, idIndex, parse)
      ensures SourcesGrown(old(brands), brands)
      ensures warnings == old(warnings) + SourceWarnings(old(brands), rows, refKey, slugIndex, nameIndex, idIndex, parse)
      ensures old(warnings) <= warnings
      ensures stats == old(stats).(sourcesProcessed := old(stats).sourcesProcessed + |rows|,
                                   sourcesOrphaned := old(stats).sourcesOrphaned
                                     + SourceOrphans(rows, refKey, slugIndex, nameIndex, idIndex))
    {
      for k := 0 to |rows|
        invariant Valid()
        invariant slugIndex == old(slugIndex) && nameIndex == old(nameIndex) && idIndex == old(idIndex)
        invariant errors == old(errors)
        invariant brands == SourcesAll(old(brands), rows[..k], refKey, slugIndex, nameIndex, idIndex, parse)
        invariant SourcesGrown(old(brands), brands)
        invariant warnings == old(warnings) + SourceWarnings(old(brands), rows[..k], refKey, slugIndex, nameIndex, idIndex, parse)
        invariant stats == old(stats).(sourcesProcessed := old(stats).sourcesProcessed + k,
                                       sourcesOrphaned := old(stats).sourcesOrphaned
                                         + SourceOrphans(rows[..k], refKey, slugIndex, nameIndex, idIndex))
      {
        SourceFoldsStep(old(brands), rows, k, refKey, slugIndex, nameIndex, idIndex, parse);
        AppendTwice(old(warnings), SourceWarnings(old(brands), rows[..k], refKey, slugIndex, nameIndex, idIndex, parse),
                    SourceRowWarnings(brands, rows[k], refKey, slugIndex, nameIndex, idIndex, parse));
        ghost var before := brands;
        SourceRow(rows[k], refKey, parse);
        SourcesGrownTransitive(old(brands), before, brands);
      }
      assert rows[..|rows|] == rows;
    }
  }

  // ---------------------------------------------------------------------------
  // The whole run

  /** The brands-file columns outside the schema, reported and then ignored. */
  function UnknownColumnsOf(headers: seq<string>): (r: seq<string>)
    ensures forall h :: h in r <==> h in headers && !IsSchemaField(h)
  {
    Filter(headers, h => !IsSchemaField(h))
  }

  /** The verification stage runs only with a verifications file that has a
      reference column; it then joins on that column. */
  function VerificationKey(verifications: Option<Table>, brandKey: Option<string>): (r: Option<string>)
    ensures r.Some? <==> verifications.Some? && FindBrandRefKey(Headers(verifications.value), brandKey).Some?
  {
    if verifications.Some? then FindBrandRefKey(Headers(verifications.value), brandKey) else None
  }

  /** The column checks' messages stay at the head of the run's messages,
      and the stages add only missing-field errors. */
  lemma ColumnMessagesKept(reported: seq<Message>, failed: seq<Message>, warnings: seq<Message>, errors: seq<Message>)
    requires reported <= warnings && failed <= errors
    requires forall e | e in errors[|failed|..] :: e.MissingRequired?
    ensures reported != [] ==> warnings[0] == reported[0] && reported[|reported| - 1] in warnings
    ensures forall e | e in errors :: e in failed || e.MissingRequired?
    ensures forall e | e in failed :: e in errors
  {
    assert warnings[..|reported|] == reported && errors[..|failed|] == failed;
    forall e | e in errors
      ensures e in failed || e.MissingRequired?
    {
      var k :| 0 <= k < |errors| && errors[k] == e;
      if k >= |failed| {
        assert e in errors[|failed|..];
      }
    }
  }

  /** The column source rows are joined on: `row[null]` reads the column
      named "null" when no reference column was found. */
  function SourceRefKey(sourcesFile: Table, brandKey: Option<string>): string
  {
    var key := FindBrandRefKey(Headers(sourcesFile), brandKey);
    if key.Some? then key.value else "null"
  }

  /** The state before the first brand row. */
  const NoBrands := Indexed([], map[], map[], map[])

  /** The ID columns of the brands file. */
  function IdColumnsOf(brandsFile: Table): seq<string>
  {
    Filter(Headers(brandsFile), IsIdColumn)
  }

  /** The verification rows the run reads: none unless the stage runs. */
  function VerificationRowsOf(verifications: Option<Table>, brandKey: Option<string>): seq<Row>
  {
    if VerificationKey(verifications, brandKey).Some? then verifications.value.rows else []
  }

  /** The indexes the brand rows build. */
  function FileIngested(brandsFile: Table): Indexed
  {
    Ingested(NoBrands, brandsFile.rows, IdColumnsOf(brandsFile))
  }

  /** The brands `processFiles` writes: the three loading stages from an empty
      state, then the stable sort by name. */
  function MergedBrands(brandsFile: Table, sourcesFile: Table, verifications: Option<Table>,
                        brandKey: Option<string>, parse: UrlParser, fallback: DateFallback): seq<Brand>
  {
    var loaded := Loaded(NoBrands, brandsFile.rows, IdColumnsOf(brandsFile), sourcesFile.rows, SourceRefKey(sourcesFile, brandKey),
                         VerificationRowsOf(verifications, brandKey), VerificationKey(verifications, brandKey), parse, fallback);
    BrandOrderTotal();
    InsertionSort(loaded, BrandLe)
  }

  /** The warnings the column checks report before any row is read: the
      unknown brand columns, then a verifications file without reference column. */
  function ColumnWarnings(brandsFile: Table, verifications: Option<Table>, brandKey: Option<string>): seq<Message>
  {
    var unknown := UnknownColumnsOf(Headers(brandsFile));
    (if unknown != [] then [UnknownColumns(unknown)] else [])
    + (if verifications.Some? && VerificationKey(verifications, brandKey).None? then [NoVerificationRefColumn] else [])
  }

  /** The error the column checks report: a sources file without reference column. */
  function ColumnErrors(sourcesFile: Table, brandKey: Option<string>): seq<Message>
  {
    if FindBrandRefKey(Headers(sourcesFile), brandKey).None? then [NoSourceRefColumn] else []
  }

  /** The warnings of the stages, from an empty state. */
  function StageWarnings(brandsFile: Table, sourcesFile: Table, verifications: Option<Table>,
                         brandKey: Option<string>, parse: UrlParser, fallback: DateFallback): seq<Message>
  {
    LoadedWarnings(NoBrands, brandsFile.rows, IdColumnsOf(brandsFile), sourcesFile.rows, SourceRefKey(sourcesFile, brandKey),
                   VerificationRowsOf(verifications, brandKey), VerificationKey(verifications, brandKey), parse, fallback)
  }

  /** Every warning of the run, in the order it is reported. */
  function MergedWarnings(brandsFile: Table, sourcesFile: Table, verifications: Option<Table>,
                          brandKey: Option<string>, parse: UrlParser, fallback: DateFallback): seq<Message>
  {
    ColumnWarnings(brandsFile, verifications, brandKey) + StageWarnings(brandsFile, sourcesFile, verifications, brandKey, parse, fallback)
  }

  /** Every error of the run, in the order it is reported. */
  function MergedErrors(brandsFile: Table, sourcesFile: Table, brandKey: Option<string>): seq<Message>
  {
    ColumnErrors(sourcesFile, brandKey) + IngestErrors(brandsFile.rows)
  }

  /** The verification rows' outcomes in the run. */
  function FileVerificationResults(brandsFile: Table, verifications: Option<Table>, brandKey: Option<string>,
                                   fallback: DateFallback): seq<RowResult>
  {
    VerificationResults(NoBrands, brandsFile.rows, IdColumnsOf(brandsFile), VerificationRowsOf(verifications, brandKey),
                        VerificationKey(verifications, brandKey), fallback)
  }

  /** The counters of the run. */
  predicate CountsRun(stats: Stats, brandsFile: Table, sourcesFile: Table, verifications: Option<Table>,
                      brandKey: Option<string>, fallback: DateFallback)
  {
    var ingested := FileIngested(brandsFile);
    && stats.brandsProcessed == |brandsFile.rows|
    && stats.brandsKept == |ingested.brands|
    && stats.brandsSkipped == |brandsFile.rows| - |ingested.brands|
    && stats.duplicateSlugs == DuplicateCount(NoBrands, brandsFile.rows, IdColumnsOf(brandsFile))
    && stats.sourcesProcessed == |sourcesFile.rows|
    && stats.sourcesOrphaned
       == SourceOrphans(sourcesFile.rows, SourceRefKey(sourcesFile, brandKey), ingested.slugs, ingested.names, ingested.ids)
    && stats.verificationsProcessed == |VerificationRowsOf(verifications, brandKey)|
    && stats.verificationsOrphaned == OrphanCount(FileVerificationResults(brandsFile, verifications, brandKey, fallback))
  }

  /** The exit code `processFiles` sets: 1 when there are errors, or warnings
      in strict mode, and 0 otherwise. */
  function ExitCode(brandsFile: Table, sourcesFile: Table, verifications: Option<Table>, brandKey: Option<string>,
                    strict: bool, parse: UrlParser, fallback: DateFallback): int
  {
    if MergedErrors(brandsFile, sourcesFile, brandKey) != []
       || (strict && MergedWarnings(brandsFile, sourcesFile, verifications, brandKey, parse, fallback) != [])
    then 1 else 0
  }

  /** What a run from the empty state leaves, in terms of the files: the
      sorted loaded brands and the counters of `CountsRun`. */
  lemma RunFromEmpty(brandsFile: Table, sourcesFile: Table, verifications: Option<Table>, brandKey: Option<string>,
                     parse: UrlParser, fallback: DateFallback, output: seq<Brand>, stats: Stats,
                     reported: seq<Message>, warnings: seq<Message>)
    requires (BrandOrderTotal();
              output == InsertionSort(Loaded(NoBrands, brandsFile.rows, IdColumnsOf(brandsFile), sourcesFile.rows,
                                             SourceRefKey(sourcesFile, brandKey), VerificationRowsOf(verifications, brandKey),
                                             VerificationKey(verifications, brandKey), parse, fallback), BrandLe))
    requires |output| == |FileIngested(brandsFile).brands| && Counted(stats, |output|)
    requires stats.brandsProcessed == |brandsFile.rows| && stats.sourcesProcessed == |sourcesFile.rows|
    requires stats.duplicateSlugs == DuplicateCount(NoBrands, brandsFile.rows, IdColumnsOf(brandsFile))
    requires var ingested := FileIngested(brandsFile);
      stats.sourcesOrphaned
        == SourceOrphans(sourcesFile.rows, SourceRefKey(sourcesFile, brandKey), ingested.slugs, ingested.names, ingested.ids)
    requires stats.verificationsProcessed
             == if VerificationKey(verifications, brandKey).Some? then |VerificationRowsOf(verifications, brandKey)| else 0
    requires stats.verificationsOrphaned == OrphanCount(FileVerificationResults(brandsFile, verifications, brandKey, fallback))
    requires warnings == reported + LoadedWarnings(NoBrands, brandsFile.rows, IdColumnsOf(brandsFile), sourcesFile.rows,
                                                   SourceRefKey(sourcesFile, brandKey), VerificationRowsOf(verifications, brandKey),
                                                   VerificationKey(verifications, brandKey), parse, fallback)
    ensures output == MergedBrands(brandsFile, sourcesFile, verifications, brandKey, parse, fallback)
    ensures CountsRun(stats, brandsFile, sourcesFile, verifications, brandKey, fallback)
    ensures warnings == reported + StageWarnings(brandsFile, sourcesFile, verifications, brandKey, parse, fallback)
  {
  }

  /** The four stages on a fresh merger that starts with the column checks'
      messages. */
  method RunStages(brandsFile: Table, sourcesFile: Table, verifications: Option<Table>, brandKey: Option<string>,
                   reported: seq<Message>, failed: seq<Message>, parse: UrlParser, fallback: DateFallback)
    returns (output: seq<Brand>, stats: Stats, warnings: seq<Message>, errors: seq<Message>)
    ensures output == MergedBrands(brandsFile, sourcesFile, verifications, brandKey, parse, fallback)
    ensures SortedBy(output, BrandLe) && AllSourcesDistinct(output)
    ensures warnings == reported + StageWarnings(brandsFile, sourcesFile, verifications, brandKey, parse, fallback)
    ensures errors == failed + IngestErrors(brandsFile.rows)
    ensures CountsRun(stats, brandsFile, sourcesFile, verifications, brandKey, fallback)
    ensures stats.brandsKept == |output|
  {
    var m := new Merge(reported, failed);
    m.Run(brandsFile.rows, IdColumnsOf(brandsFile), sourcesFile.rows, SourceRefKey(sourcesFile, brandKey),
          VerificationRowsOf(verifications, brandKey), VerificationKey(verifications, brandKey), parse, fallback, NoBrands);
    output, stats, warnings, errors := m.brands, m.stats, m.warnings, m.errors;
    RunFromEmpty(brandsFile, sourcesFile, verifications, brandKey, parse, fallback, output, stats, reported, warnings);
  }

  /** `processFiles` after the files are read: the column checks, the four
      stages in order, and the exit code. The output holds every kept brand,
      sorted by name, each with sources of distinct canonical keys; the
      messages are those of the columns and of every row, in order; the run
      fails exactly when there are errors, or warnings in strict mode. */
  method ProcessFiles(brandsFile: Table, sourcesFile: Table, verifications: Option<Table>,
                      brandKey: Option<string>, strict: bool, parse: UrlParser, fallback: DateFallback)
    returns (output: seq<Brand>, stats: Stats, warnings: seq<Message>, errors: seq<Message>, exitCode: int)
    ensures exitCode == (if errors != [] || (strict && warnings != []) then 1 else 0)
    ensures output == MergedBrands(brandsFile, sourcesFile, verifications, brandKey, parse, fallback)
    ensures warnings == MergedWarnings(brandsFile, sourcesFile, verifications, brandKey, parse, fallback)
    ensures errors == MergedErrors(brandsFile, sourcesFile, brandKey)
    ensures exitCode == ExitCode(brandsFile, sourcesFile, verifications, brandKey, strict, parse, fallback)
    ensures CountsRun(stats, brandsFile, sourcesFile, verifications, brandKey, fallback)
    ensures SortedBy(output, BrandLe) && AllSourcesDistinct(output)
    ensures NoSourceRefColumn in errors <==> FindBrandRefKey(Headers(sourcesFile), brandKey).None?
    ensures forall e | e in errors :: e.NoSourceRefColumn? || e.MissingRequired?
    ensures UnknownColumnsOf(Headers(brandsFile)) != [] ==>
      warnings != [] && warnings[0] == UnknownColumns(UnknownColumnsOf(Headers(brandsFile)))
    ensures verifications.Some? && VerificationKey(verifications, brandKey).None? ==> NoVerificationRefColumn in warnings
    ensures stats.brandsKept == |output|
  {
    exitCode := 0;
    var brandHeaders := Headers(brandsFile);
    var unknown := UnknownColumnsOf(brandHeaders);
    var reported: seq<Message> := if unknown != [] then [UnknownColumns(unknown)] else [];
    var failed: seq<Message> := [];
    var sourceKey := FindBrandRefKey(Headers(sourcesFile), brandKey);
    var verificationKey := VerificationKey(verifications, brandKey);
    if sourceKey.None? {
      failed := failed + [NoSourceRefColumn];
      exitCode := 1;
    }
    if verifications.Some? && verificationKey.None? {
      reported := reported + [NoVerificationRefColumn];
    }
    assert reported == ColumnWarnings(brandsFile, verifications, brandKey);
    assert failed == ColumnErrors(sourcesFile, brandKey);
    output, stats, warnings, errors := RunStages(brandsFile, sourcesFile, verifications, brandKey, reported, failed, parse, fallback);
    ColumnMessagesKept(reported, failed, warnings, errors);
    if warnings != [] && strict {
      exitCode := 1;
    }
    if errors != [] {
      exitCode := 1;
    }
  }
}
