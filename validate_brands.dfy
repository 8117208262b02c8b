/** The brand data validator (scripts/validate-brands.mjs): every brand needs
    a truthy `slug`, and `testing_qa_notes`, when present, must be a string
    that is not blank. All brands are checked; the run fails when any error
    was collected. */
module ValidateBrands {
  import opened Wrappers
  import opened Text
  import opened Json

  const NotesKey := "testing_qa_notes"

  /** The collected messages; a slug is kept as the JSON value it was. */
  datatype ValidationError =
    | MissingSlug                               // `Brand missing required "slug" field`
    | NotesNotString(slug: Json, kind: string)  // `<slug>: testing_qa_notes must be a string, got <typeof>`
    | NotesBlank(slug: Json)                    // `<slug>: testing_qa_notes cannot be empty or whitespace-only`

  /** The notes are a string with a non-space character. */
  predicate HasValidNotes(b: Json)
  {
    HasOwn(b, NotesKey) && b.fields[NotesKey].String? && Trim(b.fields[NotesKey].s) != ""
  }

  /** The error one brand adds, if any. */
  function CheckBrand(b: Json): Option<ValidationError>
    requires !b.Null?
  {
    var slug := Property(b, "slug");
    if !Truthy(slug) then Some(MissingSlug)
    else if !HasOwn(b, NotesKey) then None
    else
      var notes := b.fields[NotesKey];
      if !notes.String? then Some(NotesNotString(slug.value, TypeOf(notes)))
      else if Trim(notes.s) == "" then Some(NotesBlank(slug.value))
      else None
  }

  /** A brand counts toward `brandsWithTestingNotes`. */
  predicate CountsNotes(b: Json)
    requires !b.Null?
  {
    Truthy(Property(b, "slug")) && HasValidNotes(b)
  }

  /** A brand passes exactly when its slug is truthy and its notes, if
      present, are a non-blank string; a falsy slug is the one error such a
      brand gets, and the notes decide which error a slugged brand gets. */
  lemma CheckBrandMeaning(b: Json)
    requires !b.Null?
    ensures CheckBrand(b).None? <==> Truthy(Property(b, "slug")) && (HasOwn(b, NotesKey) ==> HasValidNotes(b))
    ensures CheckBrand(b) == Some(MissingSlug) <==> !Truthy(Property(b, "slug"))
    ensures Truthy(Property(b, "slug")) && !HasOwn(b, NotesKey) ==> CheckBrand(b).None?
    ensures (CheckBrand(b).Some? && CheckBrand(b).value.NotesNotString?) <==>
      Truthy(Property(b, "slug")) && HasOwn(b, NotesKey) && !b.fields[NotesKey].String?
    ensures (CheckBrand(b).Some? && CheckBrand(b).value.NotesBlank?) <==>
      Truthy(Property(b, "slug")) && HasOwn(b, NotesKey) && b.fields[NotesKey].String? && !HasValidNotes(b)
    ensures CountsNotes(b) ==> CheckBrand(b).None?
  {
  }

  predicate NoNulls(brands: seq<Json>)
  {
    forall i | 0 <= i < |brands| :: !brands[i].Null?
  }

  /** The errors of `brands`, in brand order. */
  function ErrorsOf(brands: seq<Json>): seq<ValidationError>
    requires NoNulls(brands)
  {
    if brands == [] then []
    else
      var last := brands[|brands| - 1];
      ErrorsOf(brands[..|brands| - 1]) + (if CheckBrand(last).Some? then [CheckBrand(last).value] else [])
  }

  /** The number of brands with valid notes. */
  function NotesCount(brands: seq<Json>): nat
    requires NoNulls(brands)
  {
    if brands == [] then 0
    else NotesCount(brands[..|brands| - 1]) + (if CountsNotes(brands[|brands| - 1]) then 1 else 0)
  }

  /** Each brand adds at most one error or one count, never both. */
  lemma {:induction false} ErrorsAndCountBounded(brands: seq<Json>)
    requires NoNulls(brands)
    ensures |ErrorsOf(brands)| + NotesCount(brands) <= |brands|
    decreases |brands|
  {
    if brands != [] {
      ErrorsAndCountBounded(brands[..|brands| - 1]);
      CheckBrandMeaning(brands[|brands| - 1]);
    }
  }

  /** No error was collected exactly when every brand passes. */
  lemma {:induction false} ErrorsOfEmpty(brands: seq<Json>)
    requires NoNulls(brands)
    ensures ErrorsOf(brands) == [] <==> forall i | 0 <= i < |brands| :: CheckBrand(brands[i]).None?
    decreases |brands|
  {
    if brands != [] {
      var n := |brands| - 1;
      ErrorsOfEmpty(brands[..n]);
      assert forall i | 0 <= i < n :: brands[..n][i] == brands[i];
    }
  }

  /** The validation loop. Reading `slug` of a `null` entry throws, which
      ends the script; `crashed` reports it. */
  method CheckBrands(brands: seq<Json>) returns (errors: seq<ValidationError>, withNotes: nat, crashed: bool)
    ensures crashed <==> !NoNulls(brands)
    ensures !crashed ==> errors == ErrorsOf(brands) && withNotes == NotesCount(brands)
  {
    errors, withNotes, crashed := [], 0, false;
    for i := 0 to |brands|
      invariant NoNulls(brands[..i])
      invariant errors == ErrorsOf(brands[..i]) && withNotes == NotesCount(brands[..i])
    {
      var brand := brands[i];
      if brand.Null? {
        crashed := true;
        return;
      }
      assert brands[..i + 1][..i] == brands[..i] && brands[..i + 1][i] == brand;
      var slug := Property(brand, "slug");
      if !Truthy(slug) {
        errors := errors + [MissingSlug];
        continue;
      }
      if HasOwn(brand, NotesKey) {
        var notes := brand.fields[NotesKey];
        if !notes.String? {
          errors := errors + [NotesNotString(slug.value, TypeOf(notes))];
          continue;
        }
        if Trim(notes.s) == "" {
          errors := errors + [NotesBlank(slug.value)];
          continue;
        }
        withNotes := withNotes + 1;
      }
    }
    assert brands[..|brands|] == brands;
  }

  /** The script's exit code for the parsed `brands.json` (`None` when the
      file is missing or is not JSON): 1 unless it is an array whose every
      brand passes. */
  method Validate(parsed: Option<Json>) returns (exitCode: int)
    ensures exitCode == 0 || exitCode == 1
    ensures exitCode == 0 <==>
      parsed.Some? && parsed.value.Array? && NoNulls(parsed.value.items) && ErrorsOf(parsed.value.items) == []
  {
    if parsed.None? || !parsed.value.Array? {
      return 1;
    }
    var errors, withNotes, crashed := CheckBrands(parsed.value.items);
    if crashed || |errors| > 0 {
      return 1;
    }
    return 0;
  }
}
