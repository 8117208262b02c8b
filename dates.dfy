/** `parseDate` of the brand merge tool (tools/merge-brands.mjs): four
    regular-expression formats tried in order, then the runtime's own date
    parser. */
module DateParsing {
  import opened Wrappers
  import opened Text

  /** `new Date(s)` followed by `toISOString().split('T')[0]`, `None` for an
      invalid date. The runtime's date heuristics are not modelled. */
  type DateFallback = string -> Option<string>

  /** `\d{lo,hi}` matched against the whole of `s`. */
  predicate DigitField(s: string, lo: nat, hi: nat)
  {
    lo <= |s| <= hi && AllDigits(s)
  }

  /** `padStart(2, '0')` on a one- or two-digit field: same number, two digits. */
  function Pad2(s: string): (r: string)
    requires DigitField(s, 1, 2)
    ensures DigitField(r, 2, 2) && DigitsValue(r) == DigitsValue(s)
  {
    if |s| == 1 then
      assert ("0" + s)[..1] == "0";
      "0" + s
    else s
  }

  /** `YYYY-MM-DD`. */
  predicate IsIsoShape(r: string)
  {
    |r| == 10 && DigitField(r[..4], 4, 4) && r[4] == '-' && DigitField(r[5..7], 2, 2)
    && r[7] == '-' && DigitField(r[8..], 2, 2)
  }

  function IsoDate(year: string, month: string, day: string): (r: string)
    requires DigitField(year, 4, 4) && DigitField(month, 1, 2) && DigitField(day, 1, 2)
    ensures IsIsoShape(r)
    ensures r[..4] == year && DigitsValue(r[5..7]) == DigitsValue(month) && DigitsValue(r[8..]) == DigitsValue(day)
  {
    var r := year + "-" + Pad2(month) + "-" + Pad2(day);
    assert r[..4] == year && r[5..7] == Pad2(month) && r[8..] == Pad2(day);
    r
  }

  /** The three captured groups of a matching format, in the order they occur. */
  datatype Groups = Groups(first: string, second: string, third: string)

  /** A digit field cut off the front of a string, and what follows its separator. */
  datatype Cut = Cut(field: string, rest: string)

  /** `(\d{lo,hi})<sep>` at the start of `s`. */
  function DigitsThen(s: string, lo: nat, hi: nat, sep: char): (r: Option<Cut>)
    ensures r.Some? ==> DigitField(r.value.field, lo, hi) && s == r.value.field + [sep] + r.value.rest
  {
    var f := LeadingDigits(s);
    if lo <= |f| <= hi && |f| < |s| && s[|f|] == sep then
      assert s == f + [sep] + s[|f| + 1..];
      Some(Cut(f, s[|f| + 1..]))
    else None
  }

  /** `^(\d{1,2})<sep>(\d{1,2})<sep>(\d{4})$`. */
  function MatchShortShortYear(s: string, sep: char): (r: Option<Groups>)
    ensures r.Some? ==>
      && DigitField(r.value.first, 1, 2) && DigitField(r.value.second, 1, 2) && DigitField(r.value.third, 4, 4)
      && s == r.value.first + [sep] + r.value.second + [sep] + r.value.third
  {
    match DigitsThen(s, 1, 2, sep)
    case None => None
    case Some(c1) =>
      match DigitsThen(c1.rest, 1, 2, sep)
      case None => None
      case Some(c2) =>
        if DigitField(c2.rest, 4, 4) then Some(Groups(c1.field, c2.field, c2.rest)) else None
  }

  /** The line terminators, which `.` in a regular expression does not match. */
  predicate IsLineTerminator(c: char)
  {
    c == '\n' || c == '\r' || c == '\U{2028}' || c == '\U{2029}'
  }

  /** `(T.*)?$`: nothing, or a `T` followed by anything up to the end but a
      line terminator. */
  predicate TimeTail(t: string)
  {
    t == [] || (t[0] == 'T' && forall k | 1 <= k < |t| :: !IsLineTerminator(t[k]))
  }

  /** `(\d{1,2})(T.*)?$` at the start of `s`: the day, then a time tail. */
  function DayThenTime(s: string): (r: Option<string>)
    ensures r.Some? ==> DigitField(r.value, 1, 2) && r.value <= s && TimeTail(s[|r.value|..])
  {
    var day := LeadingDigits(s);
    if 1 <= |day| <= 2 && TimeTail(s[|day|..]) then Some(day) else None
  }

  /** `^(\d{4})-(\d{1,2})-(\d{1,2})(T.*)?$`: after the day comes nothing or a
      `T` and anything. */
  function MatchYearFirst(s: string): (r: Option<Groups>)
    ensures r.Some? ==>
      && DigitField(r.value.first, 4, 4) && DigitField(r.value.second, 1, 2) && DigitField(r.value.third, 1, 2)
      && var p := r.value.first + "-" + r.value.second + "-" + r.value.third;
         p <= s && TimeTail(s[|p|..])
  {
    match DigitsThen(s, 4, 4, '-')
    case None => None
    case Some(c1) =>
      match DigitsThen(c1.rest, 1, 2, '-')
      case None => None
      case Some(c2) =>
        match DayThenTime(c2.rest)
        case None => None
        case Some(day) =>
          JoinedPrefix(s, c1.field, c1.rest, c2.field, c2.rest, day);
          Some(Groups(c1.field, c2.field, day))
  }

  /** Cutting `a-` and then `b-` off `s` and taking a prefix `c` of what is left
      gives the prefix `a-b-c` of `s`, followed by what followed `c`. */
  lemma JoinedPrefix(s: string, a: string, r: string, b: string, rest: string, c: string)
    requires s == a + "-" + r && r == b + "-" + rest && c <= rest
    ensures var p := a + "-" + b + "-" + c;
      && p <= s && s[|p|..] == rest[|c|..]
  {
    assert s == a + "-" + b + "-" + c + rest[|c|..];
  }

  /** The entries of the format list, in the order the tool tries them. */
  datatype DateFormat =
    | MonthDaySlash   // M/D/YYYY
    | DayMonthDash    // D-M-YYYY
    | YearMonthDay    // YYYY-M-D, optionally followed by `T…`
    | MonthDayDash    // M-D-YYYY: same pattern as DayMonthDash

  const Formats: seq<DateFormat> := [MonthDaySlash, DayMonthDash, YearMonthDay, MonthDayDash]

  /** One format function of the list. Every format that matches yields `YYYY-MM-DD`. */
  function TryFormat(f: DateFormat, s: string): (r: Option<string>)
    ensures r.Some? ==> IsIsoShape(r.value)
  {
    match f
    case MonthDaySlash =>
      (match MatchShortShortYear(s, '/')
       case Some(g) => Some(IsoDate(g.third, g.first, g.second))
       case None => None)
    case DayMonthDash =>
      (match MatchShortShortYear(s, '-')
       case Some(g) => Some(IsoDate(g.third, g.second, g.first))
       case None => None)
    case YearMonthDay =>
      (match MatchYearFirst(s)
       case Some(g) => Some(IsoDate(g.first, g.second, g.third))
       case None => None)
    case MonthDayDash =>
      (match MatchShortShortYear(s, '-')
       case Some(g) => Some(IsoDate(g.third, g.first, g.second))
       case None => None)
  }

  /** `for (const format of formats) { … if (result) return result; }`. */
  function FirstFormat(formats: seq<DateFormat>, s: string): (r: Option<string>)
    ensures r.Some? ==> IsIsoShape(r.value)
    ensures r.Some? <==> exists i | 0 <= i < |formats| :: TryFormat(formats[i], s).Some?
  {
    if formats == [] then None
    else if TryFormat(formats[0], s).Some? then TryFormat(formats[0], s)
    else
      var r := FirstFormat(formats[1..], s);
      assert forall i | 1 <= i < |formats| :: formats[i] == formats[1..][i - 1];
      r
  }

  /** `parseDate` on a cell that is already whitespace-normalized. */
  function ParseNormalizedDate(n: string, fallback: DateFallback): Option<string>
  {
    match FirstFormat(Formats, n)
    case Some(d) => Some(d)
    case None => fallback(n)
  }

  /** `parseDate`: `None` for a blank cell; otherwise the first format that
      matches the whitespace-normalized cell, or else the runtime's reading. */
  function ParseDate(dateStr: string, fallback: DateFallback): (r: Option<string>)
    ensures AllSpace(dateStr) ==> r.None?
  {
    TrimShape(dateStr);
    if dateStr == "" || Trim(dateStr) == "" then None
    else ParseNormalizedDate(NormalizeWhitespace(dateStr), fallback)
  }

  /** A cell with no whitespace is parsed as it stands. */
  lemma ParseDateOfWord(s: string, fallback: DateFallback)
    requires s != [] && forall i | 0 <= i < |s| :: !IsSpace(s[i])
    ensures ParseDate(s, fallback) == ParseNormalizedDate(s, fallback)
  {
    NoSpaceNormalizes(s);
    assert Trim(s) != "";
  }

  /** A format that can only match where an earlier one does adds nothing
      at the end of the list. */
  lemma {:induction false} FirstFormatShadowed(fs: seq<DateFormat>, f: DateFormat, s: string)
    requires TryFormat(f, s).Some? ==> exists i | 0 <= i < |fs| :: TryFormat(fs[i], s).Some?
    ensures FirstFormat(fs + [f], s) == FirstFormat(fs, s)
  {
    if fs == [] {
    } else {
      assert (fs + [f])[1..] == fs[1..] + [f];
      if TryFormat(fs[0], s).None? {
        if TryFormat(f, s).Some? {
          var i :| 0 <= i < |fs| && TryFormat(fs[i], s).Some?;
          assert fs[1..][i - 1] == fs[i];
        }
        FirstFormatShadowed(fs[1..], f, s);
      }
    }
  }

  /** The fourth format can never decide: whenever it would match, the second
      one, with the same pattern, has matched first. */
  lemma MonthDayDashUnreachable(s: string)
    ensures FirstFormat(Formats, s) == FirstFormat(Formats[..3], s)
  {
    assert Formats == Formats[..3] + [MonthDayDash];
    assert Formats[..3][1] == DayMonthDash;
    FirstFormatShadowed(Formats[..3], MonthDayDash, s);
  }

  /** When the slash format fails, the dash format decides if it matches. */
  lemma FirstFormatSecond(s: string)
    requires TryFormat(MonthDaySlash, s).None? && TryFormat(DayMonthDash, s).Some?
    ensures FirstFormat(Formats, s) == TryFormat(DayMonthDash, s)
  {
    assert Formats[1..][0] == DayMonthDash;
  }

  /** When both short-field formats fail, the year-first format decides if it matches. */
  lemma FirstFormatThird(s: string)
    requires TryFormat(MonthDaySlash, s).None? && TryFormat(DayMonthDash, s).None?
    requires TryFormat(YearMonthDay, s).Some?
    ensures FirstFormat(Formats, s) == TryFormat(YearMonthDay, s)
  {
    var rest := Formats[1..][1..];
    assert rest[0] == YearMonthDay;
    assert FirstFormat(Formats, s) == FirstFormat(Formats[1..], s);
    assert FirstFormat(Formats[1..], s) == FirstFormat(rest, s);
  }

  /** `(\d{lo,hi})<sep>` cuts a digit field followed by its separator. */
  lemma DigitsThenOf(f: string, lo: nat, hi: nat, sep: char, rest: string)
    requires DigitField(f, lo, hi) && !IsDigit(sep)
    ensures DigitsThen(f + [sep] + rest, lo, hi, sep) == Some(Cut(f, rest))
  {
    var s := f + [sep] + rest;
    assert s == f + ([sep] + rest);
    LeadingDigitsStop(f, [sep] + rest);
    assert s[|f| + 1..] == rest;
  }

  /** The fields of `^(\d{1,2})<sep>(\d{1,2})<sep>(\d{4})$` are matched. */
  lemma MatchShortShortYearOf(a: string, b: string, c: string, sep: char)
    requires DigitField(a, 1, 2) && DigitField(b, 1, 2) && DigitField(c, 4, 4) && !IsDigit(sep)
    ensures MatchShortShortYear(a + [sep] + b + [sep] + c, sep) == Some(Groups(a, b, c))
  {
    assert a + [sep] + b + [sep] + c == a + [sep] + (b + [sep] + c);
    DigitsThenOf(a, 1, 2, sep, b + [sep] + c);
    DigitsThenOf(b, 1, 2, sep, c);
  }

  /** A cell that starts with three digits matches neither short-field pattern. */
  lemma NotShortShortYear(s: string, sep: char)
    requires |s| >= 3 && IsDigit(s[0]) && IsDigit(s[1]) && IsDigit(s[2])
    ensures MatchShortShortYear(s, sep).None?
  {
    assert forall k | 0 <= k < 3 :: IsDigit(s[k]);
    assert |LeadingDigits(s)| >= 3;
  }

  /** A cell with no slash does not match the slash format. */
  lemma NoSlashNoMatch(s: string)
    requires '/' !in s
    ensures TryFormat(MonthDaySlash, s).None?
  {
  }

  /** `M/D/YYYY` is read month first. */
  lemma SlashIsMonthFirst(m: string, d: string, y: string)
    requires DigitField(m, 1, 2) && DigitField(d, 1, 2) && DigitField(y, 4, 4)
    ensures FirstFormat(Formats, m + "/" + d + "/" + y) == Some(IsoDate(y, m, d))
  {
    MatchShortShortYearOf(m, d, y, '/');
  }

  /** `D-M-YYYY` is read day first. */
  lemma DashIsDayFirst(d: string, m: string, y: string)
    requires DigitField(d, 1, 2) && DigitField(m, 1, 2) && DigitField(y, 4, 4)
    ensures FirstFormat(Formats, d + "-" + m + "-" + y) == Some(IsoDate(y, m, d))
  {
    var s := d + "-" + m + "-" + y;
    assert '/' !in s;
    NoSlashNoMatch(s);
    MatchShortShortYearOf(d, m, y, '-');
    FirstFormatSecond(s);
  }

  /** The groups of `^(\d{4})-(\d{1,2})-(\d{1,2})(T.*)?$` are matched. */
  lemma MatchYearFirstOf(y: string, m: string, d: string, tail: string)
    requires DigitField(y, 4, 4) && DigitField(m, 1, 2) && DigitField(d, 1, 2)
    requires TimeTail(tail)
    ensures MatchYearFirst(y + "-" + m + "-" + d + tail) == Some(Groups(y, m, d))
  {
    var rest := d + tail;
    assert y + "-" + m + "-" + d + tail == y + "-" + (m + "-" + rest);
    DigitsThenOf(y, 4, 4, '-', m + "-" + rest);
    DigitsThenOf(m, 1, 2, '-', rest);
    DayThenTimeOf(d, tail);
  }

  /** A one- or two-digit day followed by nothing or a `T` is matched. */
  lemma DayThenTimeOf(d: string, tail: string)
    requires DigitField(d, 1, 2)
    requires TimeTail(tail)
    ensures DayThenTime(d + tail) == Some(d)
  {
    LeadingDigitsStop(d, tail);
    assert (d + tail)[|d|..] == tail;
  }

  /** `YYYY-M-D`, with or without a `T…` time part, is read year first. */
  lemma YearFirstAccepted(y: string, m: string, d: string, tail: string)
    requires DigitField(y, 4, 4) && DigitField(m, 1, 2) && DigitField(d, 1, 2)
    requires TimeTail(tail)
    ensures FirstFormat(Formats, y + "-" + m + "-" + d + tail) == Some(IsoDate(y, m, d))
  {
    var s := y + "-" + m + "-" + d + tail;
    assert s[..4] == y;
    NotShortShortYear(s, '/');
    NotShortShortYear(s, '-');
    MatchYearFirstOf(y, m, d, tail);
    FirstFormatThird(s);
  }

  /** A cell that does not start with a digit matches no format. */
  lemma NoDigitNoFormat(s: string)
    requires s == [] || !IsDigit(s[0])
    ensures FirstFormat(Formats, s).None?
  {
    assert LeadingDigits(s) == [];
    forall i | 0 <= i < |Formats| ensures TryFormat(Formats[i], s).None? {
    }
  }

  // ---------------------------------------------------------------------------
  // the tool's own self-test dates, each built from small steps

  lemma SlashExampleFields(s: string)
    requires s == "9/3/2025"
    ensures DigitField(s[..1], 1, 2) && DigitField(s[2..3], 1, 2) && DigitField(s[4..], 4, 4)
    ensures s == s[..1] + "/" + s[2..3] + "/" + s[4..]
    ensures s[..1] == "9" && s[2..3] == "3" && s[4..] == "2025"
    ensures s != [] && forall i | 0 <= i < |s| :: !IsSpace(s[i])
  {
  }

  lemma SlashExampleIso(y: string, m: string, d: string)
    requires DigitField(y, 4, 4) && DigitField(m, 1, 2) && DigitField(d, 1, 2)
    requires y == "2025" && m == "9" && d == "3"
    ensures IsoDate(y, m, d) == "2025-09-03"
  {
  }

  /** `9/3/2025` is read month first: `2025-09-03`. */
  lemma SlashExample(s: string, fallback: DateFallback)
    requires s == "9/3/2025"
    ensures ParseDate(s, fallback) == Some("2025-09-03")
  {
    SlashExampleFields(s);
    var m, d, y := s[..1], s[2..3], s[4..];
    SlashIsMonthFirst(m, d, y);
    SlashExampleIso(y, m, d);
    ParseDateOfWord(s, fallback);
  }

  lemma DashExampleFields(s: string)
    requires s == "03-09-2025"
    ensures DigitField(s[..2], 1, 2) && DigitField(s[3..5], 1, 2) && DigitField(s[6..], 4, 4)
    ensures s == s[..2] + "-" + s[3..5] + "-" + s[6..]
    ensures s[..2] == "03" && s[3..5] == "09" && s[6..] == "2025"
    ensures s != [] && forall i | 0 <= i < |s| :: !IsSpace(s[i])
  {
  }

  lemma DashExampleIso(y: string, m: string, d: string)
    requires DigitField(y, 4, 4) && DigitField(m, 1, 2) && DigitField(d, 1, 2)
    requires y == "2025" && m == "09" && d == "03"
    ensures IsoDate(y, m, d) == "2025-09-03"
  {
  }

  /** `03-09-2025` is read day first: `2025-09-03`. */
  lemma DashExample(s: string, fallback: DateFallback)
    requires s == "03-09-2025"
    ensures ParseDate(s, fallback) == Some("2025-09-03")
  {
    DashExampleFields(s);
    var d, m, y := s[..2], s[3..5], s[6..];
    DashIsDayFirst(d, m, y);
    DashExampleIso(y, m, d);
    ParseDateOfWord(s, fallback);
  }

  lemma TimestampExampleFields(s: string)
    requires s == "2025-09-03T12:00:00Z"
    ensures DigitField(s[..4], 4, 4) && DigitField(s[5..7], 1, 2) && DigitField(s[8..10], 1, 2)
    ensures TimeTail(s[10..]) && s == s[..4] + "-" + s[5..7] + "-" + s[8..10] + s[10..]
    ensures s[..4] == "2025" && s[5..7] == "09" && s[8..10] == "03"
    ensures s != [] && forall i | 0 <= i < |s| :: !IsSpace(s[i])
  {
  }

  /** A timestamp keeps only its date part: `2025-09-03T12:00:00Z` gives `2025-09-03`. */
  lemma TimestampExample(s: string, fallback: DateFallback)
    requires s == "2025-09-03T12:00:00Z"
    ensures ParseDate(s, fallback) == Some("2025-09-03")
  {
    TimestampExampleFields(s);
    var y, m, d := s[..4], s[5..7], s[8..10];
    YearFirstAccepted(y, m, d, s[10..]);
    DashExampleIso(y, m, d);
    ParseDateOfWord(s, fallback);
  }

  lemma InvalidExampleFields(s: string, a: string, b: string)
    requires s == "invalid date" && a == "invalid" && b == "date"
    ensures s == a + " " + b && a != [] && b != [] && !IsDigit(s[0])
    ensures forall i | 0 <= i < |a| :: !IsSpace(a[i])
    ensures forall i | 0 <= i < |b| :: !IsSpace(b[i])
  {
  }

  /** `invalid date` matches no format, so it is `null` when the runtime's
      `new Date` rejects it too. */
  lemma InvalidExample(s: string, fallback: DateFallback)
    requires s == "invalid date" && fallback(s).None?
    ensures ParseDate(s, fallback).None?
  {
    var a, b := "invalid", "date";
    InvalidExampleFields(s, a, b);
    TwoWordsNormalized(a, b);
    TrimShape(s);
    assert !AllSpace(s) by {
      assert !IsSpace(s[0]);
    }
    NoDigitNoFormat(s);
  }
}
