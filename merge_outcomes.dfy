// What decides the exit code of `processFiles` in tools/merge-brands.mjs:
// which rows report an error, and which rows report a warning that fails a
// run in strict mode. Every statement here is about the specification
// functions of the merge (`MergedErrors`, `MergedWarnings`, `ExitCode`),
// which `ProcessFiles` is proved to compute.

module MergeOutcomes {
  import opened Wrappers
  import opened Text
  import opened Urls
  import opened Normalizers
  import opened DateParsing
  import opened MergeBrands

  // ---------------------------------------------------------------------------
  // Errors: a brand row without brand or slug

  /** The brand rows report an error exactly when one of them lacks its
      brand or its slug. */
  lemma IngestErrorsExactly(rows: seq<Row>)
    ensures IngestErrors(rows) != [] <==> exists k | 0 <= k < |rows| :: MissingField(rows[k])
  {
    if IngestErrors(rows) != [] {
      IngestErrorsFromMissing(rows);
    }
    if k :| 0 <= k < |rows| && MissingField(rows[k]) {
      IngestErrorsReport(rows, k);
    }
  }

  /** Every error of the brand rows comes from a row lacking a field. */
  lemma {:induction false} IngestErrorsFromMissing(rows: seq<Row>)
    requires IngestErrors(rows) != []
    ensures exists k | 0 <= k < |rows| :: MissingField(rows[k])
  {
    var init, last := rows[..|rows| - 1], rows[|rows| - 1];
    assert IngestErrors(rows) == IngestErrors(init) + RowErrors(last);
    if IngestErrors(init) != [] {
      IngestErrorsFromMissing(init);
      var k :| 0 <= k < |init| && MissingField(init[k]);
      assert rows[k] == init[k];
    } else {
      assert RowErrors(last) != [];
      assert MissingField(rows[|rows| - 1]);
    }
  }

  /** Row `k` missing its brand or slug reports that field, whatever the other
      rows hold. */
  lemma {:induction false} IngestErrorsReport(rows: seq<Row>, k: nat)
    requires k < |rows| && MissingField(rows[k])
    ensures MissingRequired(if NormalizeWhitespace(Cell(rows[k], "brand")) == "" then "brand" else "slug")
            in IngestErrors(rows)
  {
    var init := rows[..|rows| - 1];
    assert IngestErrors(rows) == IngestErrors(init) + RowErrors(rows[|rows| - 1]);
    if k < |rows| - 1 {
      assert init[k] == rows[k];
      IngestErrorsReport(init, k);
    }
  }

  /** A brand row without brand or slug fails the run, strict or not. */
  lemma MissingFieldFails(brandsFile: Table, sourcesFile: Table, verifications: Option<Table>, brandKey: Option<string>,
                          strict: bool, parse: UrlParser, fallback: DateFallback, k: nat)
    requires k < |brandsFile.rows| && MissingField(brandsFile.rows[k])
    ensures MissingRequired(if NormalizeWhitespace(Cell(brandsFile.rows[k], "brand")) == "" then "brand" else "slug")
            in MergedErrors(brandsFile, sourcesFile, brandKey)
    ensures ExitCode(brandsFile, sourcesFile, verifications, brandKey, strict, parse, fallback) == 1
  {
    IngestErrorsReport(brandsFile.rows, k);
  }

  /** Outside strict mode the run fails exactly when the sources file has no
      brand reference column or a brand row lacks its brand or slug. */
  lemma LenientExitCode(brandsFile: Table, sourcesFile: Table, verifications: Option<Table>, brandKey: Option<string>,
                        parse: UrlParser, fallback: DateFallback)
    ensures ExitCode(brandsFile, sourcesFile, verifications, brandKey, false, parse, fallback) == 1
            <==> FindBrandRefKey(Headers(sourcesFile), brandKey).None?
                 || exists k | 0 <= k < |brandsFile.rows| :: MissingField(brandsFile.rows[k])
  {
    IngestErrorsExactly(brandsFile.rows);
  }

  // ---------------------------------------------------------------------------
  // Warnings: each row's warnings are among the run's

  /** The run's warnings: the column checks', then the brand rows', the
      source rows' and the verification rows', in that order. */
  lemma MergedWarningsParts(brandsFile: Table, sourcesFile: Table, verifications: Option<Table>, brandKey: Option<string>,
                            parse: UrlParser, fallback: DateFallback)
    ensures var ingested := FileIngested(brandsFile);
      MergedWarnings(brandsFile, sourcesFile, verifications, brandKey, parse, fallback)
      == ColumnWarnings(brandsFile, verifications, brandKey)
         + IngestWarnings(NoBrands, brandsFile.rows, IdColumnsOf(brandsFile))
         + SourceWarnings(ingested.brands, sourcesFile.rows, SourceRefKey(sourcesFile, brandKey),
                          ingested.slugs, ingested.names, ingested.ids, parse)
         + VerificationWarnings(FileVerificationResults(brandsFile, verifications, brandKey, fallback))
  {
    var ingested := FileIngested(brandsFile);
    AppendThree(ColumnWarnings(brandsFile, verifications, brandKey),
                IngestWarnings(NoBrands, brandsFile.rows, IdColumnsOf(brandsFile)),
                SourceWarnings(ingested.brands, sourcesFile.rows, SourceRefKey(sourcesFile, brandKey),
                               ingested.slugs, ingested.names, ingested.ids, parse),
                VerificationWarnings(FileVerificationResults(brandsFile, verifications, brandKey, fallback)));
  }

  /** A message in one of four parts is in their concatenation. */
  lemma InParts(w: Message, a: seq<Message>, b: seq<Message>, c: seq<Message>, d: seq<Message>)
    requires w in b || w in c || w in d
    ensures w in a + b + c + d
  {
  }

  /** What brand row `j` warns about, given the rows before it, is among the
      warnings of all the brand rows. */
  lemma {:induction false} IngestWarningsInclude(st: Indexed, rows: seq<Row>, idColumns: seq<string>, j: nat)
    requires j < |rows|
    ensures forall w | w in RowWarnings(Ingested(st, rows[..j], idColumns), rows[j]) :: w in IngestWarnings(st, rows, idColumns)
  {
    var init := rows[..|rows| - 1];
    if j < |rows| - 1 {
      IngestWarningsInclude(st, init, idColumns, j);
      assert init[..j] == rows[..j] && init[j] == rows[j];
    }
  }

  /** What source row `j` warns about, given the rows before it, is among the
      warnings of all the source rows. */
  lemma {:induction false} SourceWarningsInclude(brands: seq<Brand>, rows: seq<Row>, refKey: string, slugs: map<string, nat>,
                                                 names: map<string, nat>, ids: map<string, nat>, parse: UrlParser, j: nat)
    requires j < |rows|
    ensures forall w | w in SourceRowWarnings(SourcesAll(brands, rows[..j], refKey, slugs, names, ids, parse), rows[j],
                                              refKey, slugs, names, ids, parse) ::
              w in SourceWarnings(brands, rows, refKey, slugs, names, ids, parse)
  {
    var init := rows[..|rows| - 1];
    if j < |rows| - 1 {
      SourceWarningsInclude(brands, init, refKey, slugs, names, ids, parse, j);
      assert init[..j] == rows[..j] && init[j] == rows[j];
    }
  }

  /** What verification row `j` warns about is among the warnings of all the
      verification rows. */
  lemma {:induction false} VerificationWarningsInclude(results: seq<RowResult>, j: nat)
    requires j < |results|
    ensures forall w | w in results[j].warnings :: w in VerificationWarnings(results)
  {
    var init := results[..|results| - 1];
    if j < |results| - 1 {
      VerificationWarningsInclude(init, j);
      assert init[j] == results[j];
    }
  }

  // ---------------------------------------------------------------------------
  // Strict mode: any row warning fails the run

  /** In strict mode a brand row that warns (a duplicate slug, a value that is
      not a boolean or a number, a record that needs migration) fails the run. */
  lemma StrictBrandRowFails(brandsFile: Table, sourcesFile: Table, verifications: Option<Table>, brandKey: Option<string>,
                            parse: UrlParser, fallback: DateFallback, j: nat)
    requires j < |brandsFile.rows|
    requires RowWarnings(Ingested(NoBrands, brandsFile.rows[..j], IdColumnsOf(brandsFile)), brandsFile.rows[j]) != []
    ensures forall w | w in RowWarnings(Ingested(NoBrands, brandsFile.rows[..j], IdColumnsOf(brandsFile)), brandsFile.rows[j]) ::
              w in MergedWarnings(brandsFile, sourcesFile, verifications, brandKey, parse, fallback)
    ensures ExitCode(brandsFile, sourcesFile, verifications, brandKey, true, parse, fallback) == 1
  {
    var ingested := FileIngested(brandsFile);
    var ws := RowWarnings(Ingested(NoBrands, brandsFile.rows[..j], IdColumnsOf(brandsFile)), brandsFile.rows[j]);
    IngestWarningsInclude(NoBrands, brandsFile.rows, IdColumnsOf(brandsFile), j);
    MergedWarningsParts(brandsFile, sourcesFile, verifications, brandKey, parse, fallback);
    forall w | w in ws
      ensures w in MergedWarnings(brandsFile, sourcesFile, verifications, brandKey, parse, fallback)
    {
      InParts(w, ColumnWarnings(brandsFile, verifications, brandKey),
              IngestWarnings(NoBrands, brandsFile.rows, IdColumnsOf(brandsFile)),
              SourceWarnings(ingested.brands, sourcesFile.rows, SourceRefKey(sourcesFile, brandKey),
                             ingested.slugs, ingested.names, ingested.ids, parse),
              VerificationWarnings(FileVerificationResults(brandsFile, verifications, brandKey, fallback)));
    }
    assert ws[0] in ws;
  }

  /** Two complete brand rows whose slugs agree up to case: the later one is
      skipped with a duplicate-slug warning, which fails a strict run. */
  lemma DuplicateSlugFailsStrict(brandsFile: Table, sourcesFile: Table, verifications: Option<Table>, brandKey: Option<string>,
                                 parse: UrlParser, fallback: DateFallback, k: nat, j: nat)
    requires k < j < |brandsFile.rows|
    requires !MissingField(brandsFile.rows[k]) && !MissingField(brandsFile.rows[j])
    requires Lower(NormalizeWhitespace(Cell(brandsFile.rows[k], "slug")))
             == Lower(NormalizeWhitespace(Cell(brandsFile.rows[j], "slug")))
    ensures DuplicateSlug(NormalizeWhitespace(Cell(brandsFile.rows[j], "slug")))
            in MergedWarnings(brandsFile, sourcesFile, verifications, brandKey, parse, fallback)
    ensures ExitCode(brandsFile, sourcesFile, verifications, brandKey, true, parse, fallback) == 1
  {
    var rows := brandsFile.rows;
    var before := rows[..j];
    IngestedKeepsRows(NoBrands, before, IdColumnsOf(brandsFile));
    assert before[k] == rows[k];
    assert DuplicateRow(Ingested(NoBrands, before, IdColumnsOf(brandsFile)), rows[j]);
    StrictBrandRowFails(brandsFile, sourcesFile, verifications, brandKey, parse, fallback, j);
  }

  /** In strict mode a source row that reaches a kept brand with a URL that
      does not validate fails the run. */
  lemma InvalidUrlFailsStrict(brandsFile: Table, sourcesFile: Table, verifications: Option<Table>, brandKey: Option<string>,
                              parse: UrlParser, fallback: DateFallback, j: nat)
    requires j < |sourcesFile.rows|
    requires var ingested := FileIngested(brandsFile);
      var target := SourceTarget(sourcesFile.rows[j], SourceRefKey(sourcesFile, brandKey), ingested.slugs, ingested.names, ingested.ids);
      target.Some? && target.value < |ingested.brands|
    requires UrlCell(sourcesFile.rows[j]) != "" && !ValidateUrl(UrlCell(sourcesFile.rows[j]), parse)
    ensures exists w | w in MergedWarnings(brandsFile, sourcesFile, verifications, brandKey, parse, fallback) ::
              w.InvalidUrl? && w.url == UrlCell(sourcesFile.rows[j])
    ensures ExitCode(brandsFile, sourcesFile, verifications, brandKey, true, parse, fallback) == 1
  {
    var ingested := FileIngested(brandsFile);
    var sw := SourceWarnings(ingested.brands, sourcesFile.rows, SourceRefKey(sourcesFile, brandKey),
                             ingested.slugs, ingested.names, ingested.ids, parse);
    InvalidUrlReported(ingested.brands, sourcesFile.rows, SourceRefKey(sourcesFile, brandKey),
                       ingested.slugs, ingested.names, ingested.ids, parse, j);
    var w :| w in sw && w.InvalidUrl? && w.url == UrlCell(sourcesFile.rows[j]);
    MergedWarningsParts(brandsFile, sourcesFile, verifications, brandKey, parse, fallback);
    InParts(w, ColumnWarnings(brandsFile, verifications, brandKey),
            IngestWarnings(NoBrands, brandsFile.rows, IdColumnsOf(brandsFile)), sw,
            VerificationWarnings(FileVerificationResults(brandsFile, verifications, brandKey, fallback)));
  }

  /** A source row reaching one of the brands with a URL that does not
      validate is warned about among the source rows' warnings. */
  lemma InvalidUrlReported(brands: seq<Brand>, rows: seq<Row>, refKey: string, slugs: map<string, nat>,
                           names: map<string, nat>, ids: map<string, nat>, parse: UrlParser, j: nat)
    requires j < |rows|
    requires var target := SourceTarget(rows[j], refKey, slugs, names, ids);
      target.Some? && target.value < |brands|
    requires UrlCell(rows[j]) != "" && !ValidateUrl(UrlCell(rows[j]), parse)
    ensures exists w | w in SourceWarnings(brands, rows, refKey, slugs, names, ids, parse) ::
              w.InvalidUrl? && w.url == UrlCell(rows[j])
  {
    var before := SourcesAll(brands, rows[..j], refKey, slugs, names, ids, parse);
    var ws := SourceRowWarnings(before, rows[j], refKey, slugs, names, ids, parse);
    assert ws == UrlWarnings(before, SourceTarget(rows[j], refKey, slugs, names, ids).value, rows[j], parse);
    SourceWarningsInclude(brands, rows, refKey, slugs, names, ids, parse, j);
    assert ws[0] in ws;
  }

  /** In strict mode a verification row whose reference names no kept brand
      (and that has a status) is reported as orphaned, which fails the run. */
  lemma OrphanedVerificationFailsStrict(brandsFile: Table, sourcesFile: Table, verifications: Option<Table>,
                                        brandKey: Option<string>, parse: UrlParser, fallback: DateFallback, j: nat)
    requires VerificationKey(verifications, brandKey).Some?
    requires j < |verifications.value.rows|
    requires var row := verifications.value.rows[j];
      var ref := Cell(row, VerificationKey(verifications, brandKey).value);
      var ingested := FileIngested(brandsFile);
      && ref != "" && NormalizeWhitespace(Cell(row, "verification_status")) != ""
      && VerificationTarget(ref, ingested.slugs, ingested.names, ingested.ids).None?
    ensures OrphanedVerification(Cell(verifications.value.rows[j], VerificationKey(verifications, brandKey).value))
            in MergedWarnings(brandsFile, sourcesFile, verifications, brandKey, parse, fallback)
    ensures ExitCode(brandsFile, sourcesFile, verifications, brandKey, true, parse, fallback) == 1
  {
    var key := VerificationKey(verifications, brandKey).value;
    var rows := verifications.value.rows;
    var ingested := FileIngested(brandsFile);
    var results := VerificationRows(rows, key, fallback, ingested.slugs, ingested.names, ingested.ids);
    assert results == FileVerificationResults(brandsFile, verifications, brandKey, fallback);
    VerificationRowsAt(rows, key, fallback, ingested.slugs, ingested.names, ingested.ids);
    VerificationRowShape(rows[j], key, fallback, ingested.slugs, ingested.names, ingested.ids);
    VerificationWarningsInclude(results, j);
    MergedWarningsParts(brandsFile, sourcesFile, verifications, brandKey, parse, fallback);
    InParts(OrphanedVerification(Cell(rows[j], key)), ColumnWarnings(brandsFile, verifications, brandKey),
            IngestWarnings(NoBrands, brandsFile.rows, IdColumnsOf(brandsFile)),
            SourceWarnings(ingested.brands, sourcesFile.rows, SourceRefKey(sourcesFile, brandKey),
                           ingested.slugs, ingested.names, ingested.ids, parse),
            VerificationWarnings(FileVerificationResults(brandsFile, verifications, brandKey, fallback)));
  }

  /** A verification row with a reference and a non-empty date that does not
      parse warns about that date. */
  lemma BadDateReported(row: Row, key: string, fallback: DateFallback,
                        slugs: map<string, nat>, names: map<string, nat>, ids: map<string, nat>)
    requires var date := NormalizeWhitespace(Cell(row, "last_verified"));
      Cell(row, key) != "" && date != "" && ParseDate(date, fallback).None?
    ensures BadDate(NormalizeWhitespace(Cell(row, "last_verified")), Cell(row, key))
            in VerificationRow(row, key, fallback, slugs, names, ids).warnings
  {
  }

  /** In strict mode a verification row with a reference and a non-empty date
      that does not parse fails the run, whether or not it names a brand. */
  lemma BadDateFailsStrict(brandsFile: Table, sourcesFile: Table, verifications: Option<Table>,
                           brandKey: Option<string>, parse: UrlParser, fallback: DateFallback, j: nat)
    requires VerificationKey(verifications, brandKey).Some?
    requires j < |verifications.value.rows|
    requires var row := verifications.value.rows[j];
      var date := NormalizeWhitespace(Cell(row, "last_verified"));
      && Cell(row, VerificationKey(verifications, brandKey).value) != ""
      && date != "" && ParseDate(date, fallback).None?
    ensures BadDate(NormalizeWhitespace(Cell(verifications.value.rows[j], "last_verified")),
                    Cell(verifications.value.rows[j], VerificationKey(verifications, brandKey).value))
            in MergedWarnings(brandsFile, sourcesFile, verifications, brandKey, parse, fallback)
    ensures ExitCode(brandsFile, sourcesFile, verifications, brandKey, true, parse, fallback) == 1
  {
    var key := VerificationKey(verifications, brandKey).value;
    var rows := verifications.value.rows;
    var ingested := FileIngested(brandsFile);
    var results := VerificationRows(rows, key, fallback, ingested.slugs, ingested.names, ingested.ids);
    assert results == FileVerificationResults(brandsFile, verifications, brandKey, fallback);
    VerificationRowsAt(rows, key, fallback, ingested.slugs, ingested.names, ingested.ids);
    var date := NormalizeWhitespace(Cell(rows[j], "last_verified"));
    BadDateReported(rows[j], key, fallback, ingested.slugs, ingested.names, ingested.ids);
    VerificationWarningsInclude(results, j);
    MergedWarningsParts(brandsFile, sourcesFile, verifications, brandKey, parse, fallback);
    InParts(BadDate(date, Cell(rows[j], key)), ColumnWarnings(brandsFile, verifications, brandKey),
            IngestWarnings(NoBrands, brandsFile.rows, IdColumnsOf(brandsFile)),
            SourceWarnings(ingested.brands, sourcesFile.rows, SourceRefKey(sourcesFile, brandKey),
                           ingested.slugs, ingested.names, ingested.ids, parse),
            VerificationWarnings(FileVerificationResults(brandsFile, verifications, brandKey, fallback)));
  }
}
