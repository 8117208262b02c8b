/** String primitives of the JavaScript runtime that the brand tools rely on:
    the whitespace class `\s`, `trim`, whitespace collapsing, ASCII lower-casing,
    substring tests, `split`/`join`, and the string order used for sorting. */
module Text {

  /** The code points matched by `\s` and removed by `String.prototype.trim`:
      the ECMAScript WhiteSpace and LineTerminator sets. */
  predicate IsSpace(c: char)
  {
    || c == ' ' || c == '\t' || c == '\n' || c == '\r' || c == '\U{000B}' || c == '\U{000C}'
    || c == '\U{00A0}' || c == '\U{1680}' || ('\U{2000}' <= c <= '\U{200A}')
    || c == '\U{2028}' || c == '\U{2029}' || c == '\U{202F}' || c == '\U{205F}'
    || c == '\U{3000}' || c == '\U{FEFF}'
  }

  predicate AllSpace(s: string)
  {
    forall i | 0 <= i < |s| :: IsSpace(s[i])
  }

  /** The characters of `s` that are not whitespace, in order: what whitespace
      normalization must never change. */
  function NonSpace(s: string): string
  {
    if s == [] then [] else (if IsSpace(s[0]) then [] else [s[0]]) + NonSpace(s[1..])
  }

  lemma {:induction false} NonSpaceAppend(a: string, b: string)
    ensures NonSpace(a + b) == NonSpace(a) + NonSpace(b)
  {
    if a == [] {
      assert a + b == b;
    } else {
      assert (a + b)[1..] == a[1..] + b;
      NonSpaceAppend(a[1..], b);
    }
  }

  /** A non-space character occurs in `s` exactly when it survives in `NonSpace(s)`. */
  lemma {:induction false} NonSpaceMembers(s: string, c: char)
    requires !IsSpace(c)
    ensures c in s <==> c in NonSpace(s)
    decreases |s|
  {
    if s != [] {
      NonSpaceMembers(s[1..], c);
      assert s == [s[0]] + s[1..];
    }
  }

  lemma {:induction false} NonSpaceOfSpaces(s: string)
    requires AllSpace(s)
    ensures NonSpace(s) == []
  {
    if s != [] {
      NonSpaceOfSpaces(s[1..]);
    }
  }

  /** Drops the leading run of whitespace. */
  function TrimStart(s: string): (r: string)
    ensures |r| <= |s|
    ensures r == [] || !IsSpace(r[0])
  {
    if s != [] && IsSpace(s[0]) then TrimStart(s[1..]) else s
  }

  /** What `TrimStart` drops is whitespace, and what it keeps is a suffix. */
  lemma {:induction false} TrimStartSplits(s: string)
    ensures var r := TrimStart(s);
      r == s[|s| - |r|..] && AllSpace(s[..|s| - |r|])
  {
    if s != [] && IsSpace(s[0]) {
      TrimStartSplits(s[1..]);
      var r := TrimStart(s);
      assert s[..|s| - |r|] == [s[0]] + s[1..][..|s| - 1 - |r|];
    }
  }

  /** Drops the trailing run of whitespace. */
  function TrimEnd(s: string): (r: string)
    ensures |r| <= |s|
    ensures r == [] || !IsSpace(r[|r| - 1])
  {
    if s != [] && IsSpace(s[|s| - 1]) then TrimEnd(s[..|s| - 1]) else s
  }

  /** What `TrimEnd` drops is whitespace, and what it keeps is a prefix. */
  lemma {:induction false} TrimEndSplits(s: string)
    ensures var r := TrimEnd(s);
      r == s[..|r|] && AllSpace(s[|r|..])
  {
    if s != [] && IsSpace(s[|s| - 1]) {
      TrimEndSplits(s[..|s| - 1]);
      var r := TrimEnd(s);
      assert s[|r|..] == s[..|s| - 1][|r|..] + [s[|s| - 1]];
    }
  }

  lemma {:induction false} TrimStartNonSpace(s: string)
    ensures NonSpace(TrimStart(s)) == NonSpace(s)
  {
    if s != [] && IsSpace(s[0]) {
      TrimStartNonSpace(s[1..]);
    }
  }

  lemma {:induction false} TrimEndNonSpace(s: string)
    ensures NonSpace(TrimEnd(s)) == NonSpace(s)
  {
    if s != [] && IsSpace(s[|s| - 1]) {
      var init := s[..|s| - 1];
      TrimEndNonSpace(init);
      assert s == init + [s[|s| - 1]];
      NonSpaceAppend(init, [s[|s| - 1]]);
    }
  }

  /** `String.prototype.trim`. */
  function Trim(s: string): string
  {
    TrimEnd(TrimStart(s))
  }

  /** Trimming leaves no whitespace at either end, is empty exactly for an
      all-whitespace string, and keeps every other character. */
  lemma TrimShape(s: string)
    ensures var r := Trim(s);
      && (r == [] || (!IsSpace(r[0]) && !IsSpace(r[|r| - 1])))
      && (r == [] <==> AllSpace(s))
      && NonSpace(r) == NonSpace(s)
  {
    var t := TrimStart(s);
    TrimStartNonSpace(s);
    TrimEndNonSpace(t);
    TrimEmpty(s);
    TrimEndSplits(t);
  }

  lemma TrimEmpty(s: string)
    ensures TrimEnd(TrimStart(s)) == [] <==> AllSpace(s)
  {
    var t := TrimStart(s);
    TrimStartSplits(s);
    TrimEndSplits(t);
    if t != [] {
      assert !IsSpace(s[|s| - |t|]);
    } else {
      assert s[..|s|] == s;
    }
  }

  /** Every whitespace character is a plain space and is not followed by another
      whitespace character: what `replace(/\s+/g, ' ')` produces. */
  predicate Collapsed(s: string)
  {
    s == [] || ((IsSpace(s[0]) ==> s[0] == ' ' && (|s| > 1 ==> !IsSpace(s[1]))) && Collapsed(s[1..]))
  }

  /** `s.replace(/\s+/g, ' ')`: each maximal run of whitespace becomes one space. */
  function CollapseSpaces(s: string): string
    decreases |s|
  {
    if s == [] then []
    else if IsSpace(s[0]) then " " + CollapseSpaces(TrimStart(s))
    else [s[0]] + CollapseSpaces(s[1..])
  }

  /** Collapsing keeps the string empty or not, turns a whitespace character at
      either end into a space, leaves no two whitespace characters in a row,
      and keeps every other character. */
  lemma {:induction false} CollapseSpacesShape(s: string)
    ensures var r := CollapseSpaces(s);
      && (r == [] <==> s == [])
      && (s != [] ==> r[0] == (if IsSpace(s[0]) then ' ' else s[0]))
      && (s != [] ==> r[|r| - 1] == (if IsSpace(s[|s| - 1]) then ' ' else s[|s| - 1]))
      && Collapsed(r)
      && NonSpace(r) == NonSpace(s)
    decreases |s|
  {
    if s == [] {
    } else if IsSpace(s[0]) {
      var rest := TrimStart(s);
      TrimStartSplits(s);
      CollapseSpacesShape(rest);
      var c := CollapseSpaces(rest);
      assert s == s[..|s| - |rest|] + rest;
      NonSpaceAppend(s[..|s| - |rest|], rest);
      NonSpaceOfSpaces(s[..|s| - |rest|]);
      NonSpaceAppend(" ", c);
      assert (" " + c)[1..] == c;
    } else {
      CollapseSpacesShape(s[1..]);
      var c := CollapseSpaces(s[1..]);
      assert s == [s[0]] + s[1..];
      NonSpaceAppend([s[0]], s[1..]);
      NonSpaceAppend([s[0]], c);
      assert ([s[0]] + c)[1..] == c;
    }
  }

  lemma {:induction false} CollapseSpacesOfCollapsed(s: string)
    requires Collapsed(s)
    ensures CollapseSpaces(s) == s
    decreases |s|
  {
    if s != [] {
      var tail := s[1..];
      CollapseSpacesOfCollapsed(tail);
      assert s == [s[0]] + tail;
      if IsSpace(s[0]) {
        assert TrimStart(tail) == tail;
        assert TrimStart(s) == tail;
      }
    }
  }

  /** The result of `normalizeWhitespace`: collapsed, with no whitespace at either end. */
  predicate IsNormalized(s: string)
  {
    Collapsed(s) && (s == [] || (!IsSpace(s[0]) && !IsSpace(s[|s| - 1])))
  }

  /** `str.toString().trim().replace(/\s+/g, ' ')`. */
  function NormalizeWhitespace(s: string): string
  {
    CollapseSpaces(Trim(s))
  }

  /** Normalizing gives a normalized string, empty exactly for an
      all-whitespace one, with every other character kept in order. */
  lemma NormalizeWhitespaceShape(s: string)
    ensures var r := NormalizeWhitespace(s);
      && IsNormalized(r)
      && NonSpace(r) == NonSpace(s)
      && (r == [] <==> AllSpace(s))
  {
    TrimShape(s);
    CollapseSpacesShape(Trim(s));
  }

  /** Two collapsed strings stay collapsed when joined after a non-space character. */
  lemma {:induction false} CollapsedAppend(a: string, b: string)
    requires Collapsed(a) && Collapsed(b)
    requires a == [] || !IsSpace(a[|a| - 1])
    ensures Collapsed(a + b)
    decreases |a|
  {
    if a != [] {
      assert (a + b)[1..] == a[1..] + b;
      if |a| > 1 {
        assert (a + b)[1] == a[1];
        CollapsedAppend(a[1..], b);
      } else {
        assert a[1..] + b == b;
      }
    } else {
      assert a + b == b;
    }
  }

  /** Normalizing is idempotent: a normalized string is left unchanged. */
  lemma NormalizeWhitespaceIdempotent(s: string)
    requires IsNormalized(s)
    ensures NormalizeWhitespace(s) == s
  {
    assert TrimStart(s) == s;
    assert TrimEnd(s) == s;
    CollapseSpacesOfCollapsed(s);
  }

  /** Normalizing drops only whitespace, so it never adds another character. */
  lemma NormalizeKeepsAbsent(s: string, c: char)
    requires !IsSpace(c) && c !in s
    ensures c !in NormalizeWhitespace(s)
  {
    NormalizeWhitespaceShape(s);
    NonSpaceMembers(s, c);
    NonSpaceMembers(NormalizeWhitespace(s), c);
  }

  /** Whitespace around a string with non-space ends is dropped by normalizing. */
  lemma NormalizeWhitespacePadded(p: string, s: string, q: string)
    requires AllSpace(p) && AllSpace(q)
    requires s != [] && !IsSpace(s[0]) && !IsSpace(s[|s| - 1])
    ensures NormalizeWhitespace(p + s + q) == NormalizeWhitespace(s)
  {
    TrimStartPadded(p, s + q);
    assert p + s + q == p + (s + q);
    TrimEndPadded(s, q);
    assert TrimStart(s) == s;
    assert TrimEnd(s) == s;
  }

  lemma {:induction false} TrimStartPadded(p: string, s: string)
    requires AllSpace(p) && s != [] && !IsSpace(s[0])
    ensures TrimStart(p + s) == s
    decreases |p|
  {
    if p == [] {
      assert p + s == s;
    } else {
      assert (p + s)[0] == p[0] && IsSpace(p[0]);
      assert (p + s)[1..] == p[1..] + s;
      assert forall i | 0 <= i < |p[1..]| :: p[1..][i] == p[i + 1];
      TrimStartPadded(p[1..], s);
    }
  }

  lemma {:induction false} TrimEndPadded(s: string, q: string)
    requires AllSpace(q) && s != [] && !IsSpace(s[|s| - 1])
    ensures TrimEnd(s + q) == s
    decreases |q|
  {
    if q == [] {
      assert s + q == s;
    } else {
      assert (s + q)[..|s + q| - 1] == s + q[..|q| - 1];
      TrimEndPadded(s, q[..|q| - 1]);
    }
  }

  /** A string with no whitespace at all is already normalized. */
  lemma {:induction false} NoSpaceIsNormalized(s: string)
    requires forall i | 0 <= i < |s| :: !IsSpace(s[i])
    ensures IsNormalized(s)
  {
    if s != [] {
      NoSpaceIsNormalized(s[1..]);
    }
  }

  /** A string with no whitespace normalizes to itself. */
  lemma NoSpaceNormalizes(s: string)
    requires forall i | 0 <= i < |s| :: !IsSpace(s[i])
    ensures NormalizeWhitespace(s) == s
  {
    NoSpaceIsNormalized(s);
    NormalizeWhitespaceIdempotent(s);
  }

  /** Two words with one space between them are already normalized. */
  lemma TwoWordsNormalized(a: string, b: string)
    requires a != [] && b != []
    requires forall i | 0 <= i < |a| :: !IsSpace(a[i])
    requires forall i | 0 <= i < |b| :: !IsSpace(b[i])
    ensures NormalizeWhitespace(a + " " + b) == a + " " + b
  {
    NoSpaceIsNormalized(a);
    NoSpaceIsNormalized(b);
    assert (" " + b)[1..] == b;
    assert Collapsed(" " + b);
    CollapsedAppend(a, " " + b);
    assert a + " " + b == a + (" " + b);
    NormalizeWhitespaceIdempotent(a + " " + b);
  }

  /** Collapsed, position by position: every whitespace character is a plain
      space followed by no other whitespace character. */
  lemma {:induction false} CollapsedPointwise(s: string)
    requires forall i | 0 <= i < |s| && IsSpace(s[i]) :: s[i] == ' ' && (i + 1 < |s| ==> !IsSpace(s[i + 1]))
    ensures Collapsed(s)
    decreases |s|
  {
    if s != [] {
      var t := s[1..];
      forall i | 0 <= i < |t| && IsSpace(t[i]) ensures t[i] == ' ' && (i + 1 < |t| ==> !IsSpace(t[i + 1])) {
        assert t[i] == s[i + 1];
      }
      CollapsedPointwise(t);
    }
  }

  // ---------------------------------------------------------------------------
  // Case

  /** `toLowerCase` on one character, for the ASCII letters. */
  function LowerChar(c: char): char
  {
    if 'A' <= c <= 'Z' then (c as int + 32) as char else c
  }

  function Lower(s: string): (r: string)
    ensures |r| == |s|
    ensures forall i | 0 <= i < |s| :: r[i] == LowerChar(s[i])
  {
    seq(|s|, i requires 0 <= i < |s| => LowerChar(s[i]))
  }

  /** Lower-casing keeps whitespace where it is, so it keeps a string normalized. */
  lemma {:induction false} LowerNormalized(s: string)
    requires IsNormalized(s)
    ensures IsNormalized(Lower(s))
  {
    LowerCollapsed(s);
  }

  lemma {:induction false} LowerCollapsed(s: string)
    requires Collapsed(s)
    ensures Collapsed(Lower(s))
    decreases |s|
  {
    if s != [] {
      assert Lower(s)[1..] == Lower(s[1..]);
      LowerCollapsed(s[1..]);
    }
  }

  lemma LowerIdempotent(s: string)
    ensures Lower(Lower(s)) == Lower(s)
  {
  }

  // ---------------------------------------------------------------------------
  // Substrings

  predicate StartsWith(s: string, prefix: string)
  {
    |prefix| <= |s| && s[..|prefix|] == prefix
  }

  predicate EndsWith(s: string, suffix: string)
  {
    |suffix| <= |s| && s[|s| - |suffix|..] == suffix
  }

  /** `String.prototype.includes`. */
  predicate Contains(s: string, needle: string)
  {
    StartsWith(s, needle) || (s != [] && Contains(s[1..], needle))
  }

  /** The first position of `c` in `s`. */
  function IndexOf(s: string, c: char): (i: nat)
    requires c in s
    ensures i < |s| && s[i] == c && c !in s[..i]
  {
    if s[0] == c then 0 else IndexOf(s[1..], c) + 1
  }

  // ---------------------------------------------------------------------------
  // split and join

  /** `parts.join(sep)`. */
  function Join(parts: seq<string>, sep: string): string
  {
    if parts == [] then ""
    else if |parts| == 1 then parts[0]
    else parts[0] + sep + Join(parts[1..], sep)
  }

  /** Joining peels off the last part. */
  lemma {:induction false} JoinSnoc(parts: seq<string>, sep: string)
    requires |parts| >= 2
    ensures Join(parts, sep) == Join(parts[..|parts| - 1], sep) + sep + parts[|parts| - 1]
  {
    if |parts| > 2 {
      JoinSnoc(parts[1..], sep);
      assert parts[1..][..|parts| - 2] == parts[..|parts| - 1][1..];
    }
  }

  /** Each part is found in the joined text. */
  lemma {:induction false} JoinHoldsPart(parts: seq<string>, sep: string, i: nat)
    requires i < |parts|
    ensures Contains(Join(parts, sep), parts[i])
    decreases i
  {
    if |parts| == 1 {
      assert Join(parts, sep) == parts[0];
      assert StartsWith(parts[0], parts[0]);
    } else if i == 0 {
      assert Join(parts, sep)[..|parts[0]|] == parts[0];
    } else {
      JoinHoldsPart(parts[1..], sep, i - 1);
      ContainsAfter(parts[0] + sep, Join(parts[1..], sep), parts[i]);
    }
  }

  /** Text found in `s` is found in anything ending with `s`. */
  lemma {:induction false} ContainsAfter(p: string, s: string, needle: string)
    requires Contains(s, needle)
    ensures Contains(p + s, needle)
    decreases |p|
  {
    if p != [] {
      assert (p + s)[1..] == p[1..] + s;
      ContainsAfter(p[1..], s, needle);
    } else {
      assert p + s == s;
    }
  }

  /** `s.split(sep)` for a one-character separator. */
  function Split(s: string, sep: char): (r: seq<string>)
    ensures |r| >= 1
    ensures forall i | 0 <= i < |r| :: sep !in r[i]
    ensures Join(r, [sep]) == s
    decreases |s|
  {
    if sep !in s then [s]
    else
      var i := IndexOf(s, sep);
      var rest := Split(s[i + 1..], sep);
      assert s == s[..i] + [sep] + s[i + 1..];
      [s[..i]] + rest
  }

  /** Splitting a string that has no separator gives it back whole. */
  lemma SplitNoSeparator(s: string, sep: char)
    requires sep !in s
    ensures Split(s, sep) == [s]
  {
  }

  /** Splitting `a + sep + b` where `a` has no separator peels `a` off. */
  lemma SplitCons(a: string, sep: char, b: string)
    requires sep !in a
    ensures Split(a + [sep] + b, sep) == [a] + Split(b, sep)
  {
    var s := a + [sep] + b;
    assert s[|a|] == sep;
    assert forall k | 0 <= k < |a| :: s[k] == a[k];
    var i := IndexOf(s, sep);
    assert i == |a|;
    assert s[..i] == a;
    assert s[i + 1..] == b;
  }

  /** Drops the leading run of separator characters. */
  function DropSeparators(s: string, isSep: char -> bool): (r: string)
    ensures |r| <= |s| && r == s[|s| - |r|..]
    ensures r == [] || !isSep(r[0])
    ensures forall i | 0 <= i < |s| - |r| :: isSep(s[i])
  {
    if s != [] && isSep(s[0]) then DropSeparators(s[1..], isSep) else s
  }

  /** The characters of `s` that are not separators, in order. */
  function Unseparated(s: string, isSep: char -> bool): string
  {
    if s == [] then [] else (if isSep(s[0]) then [] else [s[0]]) + Unseparated(s[1..], isSep)
  }

  function Concat(parts: seq<string>): string
  {
    if parts == [] then "" else parts[0] + Concat(parts[1..])
  }

  /** `s.split(/[…]+/)`: split on maximal runs of separator characters. A run at
      either end yields one empty token there; interior tokens are never empty,
      tokens hold no separator, and together they hold every other character. */
  function SplitRuns(s: string, isSep: char -> bool): (r: seq<string>)
    ensures |r| >= 1
    ensures forall i, k | 0 <= i < |r| && 0 <= k < |r[i]| :: !isSep(r[i][k])
    ensures forall i | 0 < i < |r| - 1 :: r[i] != ""
    ensures s != [] && !isSep(s[0]) ==> r[0] != ""
    ensures Concat(r) == Unseparated(s, isSep)
    decreases |s|
  {
    if s == [] then [""]
    else if isSep(s[0]) then
      var rest := DropSeparators(s, isSep);
      UnseparatedSkip(s, isSep);
      [""] + SplitRuns(rest, isSep)
    else
      var rest := SplitRuns(s[1..], isSep);
      [[s[0]] + rest[0]] + rest[1..]
  }

  /** A string without separators is a single token. */
  lemma {:induction false} SplitRunsSingle(a: string, isSep: char -> bool)
    requires a != []
    requires forall k | 0 <= k < |a| :: !isSep(a[k])
    ensures SplitRuns(a, isSep) == [a]
    decreases |a|
  {
    assert a == [a[0]] + a[1..];
    if |a| > 1 {
      SplitRunsSingle(a[1..], isSep);
    } else {
      assert SplitRuns(a[1..], isSep) == [""];
    }
  }

  /** A token followed by one separator and a string that starts with a
      non-separator splits off that token. */
  lemma {:induction false} SplitRunsCons(a: string, c: char, b: string, isSep: char -> bool)
    requires forall k | 0 <= k < |a| :: !isSep(a[k])
    requires isSep(c)
    requires b != [] && !isSep(b[0])
    ensures SplitRuns(a + [c] + b, isSep) == [a] + SplitRuns(b, isSep)
    decreases |a|
  {
    var s := a + [c] + b;
    if a == [] {
      assert s == [c] + b;
      assert DropSeparators(s, isSep) == b;
    } else {
      assert s[1..] == a[1..] + [c] + b;
      SplitRunsCons(a[1..], c, b, isSep);
      var rest := SplitRuns(s[1..], isSep);
      assert rest[0] == a[1..] && rest[1..] == SplitRuns(b, isSep);
      assert !isSep(s[0]) && s[0] == a[0];
      assert SplitRuns(s, isSep) == [[a[0]] + rest[0]] + rest[1..];
      assert [a[0]] + a[1..] == a;
    }
  }

  /** A run of separators is dropped whole. */
  lemma {:induction false} DropSeparatorsRun(p: string, b: string, isSep: char -> bool)
    requires forall k | 0 <= k < |p| :: isSep(p[k])
    requires b == [] || !isSep(b[0])
    ensures DropSeparators(p + b, isSep) == b
    decreases |p|
  {
    if p == [] {
      assert p + b == b;
    } else {
      assert (p + b)[0] == p[0] && (p + b)[1..] == p[1..] + b;
      DropSeparatorsRun(p[1..], b, isSep);
    }
  }

  /** A token followed by a run of separators and a string that starts with a
      non-separator splits off that token. */
  lemma {:induction false} SplitRunsAfterRun(a: string, p: string, b: string, isSep: char -> bool)
    requires forall k | 0 <= k < |a| :: !isSep(a[k])
    requires p != [] && forall k | 0 <= k < |p| :: isSep(p[k])
    requires b != [] && !isSep(b[0])
    ensures SplitRuns(a + p + b, isSep) == [a] + SplitRuns(b, isSep)
    decreases |a|
  {
    var s := a + p + b;
    if a == [] {
      assert s == p + b && s[0] == p[0];
      DropSeparatorsRun(p, b, isSep);
    } else {
      assert s[1..] == a[1..] + p + b;
      SplitRunsAfterRun(a[1..], p, b, isSep);
      var rest := SplitRuns(s[1..], isSep);
      assert rest[0] == a[1..] && rest[1..] == SplitRuns(b, isSep);
      assert !isSep(s[0]) && s[0] == a[0];
      assert SplitRuns(s, isSep) == [[a[0]] + rest[0]] + rest[1..];
      assert [a[0]] + a[1..] == a;
    }
  }

  lemma {:induction false} UnseparatedSkip(s: string, isSep: char -> bool)
    ensures Unseparated(DropSeparators(s, isSep), isSep) == Unseparated(s, isSep)
    decreases |s|
  {
    if s != [] && isSep(s[0]) {
      UnseparatedSkip(s[1..], isSep);
    }
  }

  // ---------------------------------------------------------------------------
  // Order

  /** The stand-in for `localeCompare(...) <= 0`: lexicographic order on code points. */
  predicate LexLeq(a: string, b: string)
  {
    if a == [] then true
    else if b == [] then false
    else if a[0] != b[0] then a[0] < b[0]
    else LexLeq(a[1..], b[1..])
  }

  lemma {:induction false} LexLeqTotal(a: string, b: string)
    ensures LexLeq(a, b) || LexLeq(b, a)
  {
    if a != [] && b != [] && a[0] == b[0] {
      LexLeqTotal(a[1..], b[1..]);
    }
  }

  lemma {:induction false} LexLeqTransitive(a: string, b: string, c: string)
    requires LexLeq(a, b) && LexLeq(b, c)
    ensures LexLeq(a, c)
  {
    if a != [] && b != [] && c != [] && a[0] == b[0] && b[0] == c[0] {
      LexLeqTransitive(a[1..], b[1..], c[1..]);
    }
  }

  lemma {:induction false} LexLeqAntisymmetric(a: string, b: string)
    requires LexLeq(a, b) && LexLeq(b, a)
    ensures a == b
  {
    if a != [] && b != [] {
      LexLeqAntisymmetric(a[1..], b[1..]);
      assert a == [a[0]] + a[1..];
      assert b == [b[0]] + b[1..];
    }
  }

  lemma {:induction false} LexLeqReflexive(a: string)
    ensures LexLeq(a, a)
  {
    if a != [] {
      LexLeqReflexive(a[1..]);
    }
  }

  // ---------------------------------------------------------------------------
  // Numbers as text

  predicate IsDigit(c: char)
  {
    '0' <= c <= '9'
  }

  predicate AllDigits(s: string)
  {
    forall i | 0 <= i < |s| :: IsDigit(s[i])
  }

  function DigitChar(d: nat): (c: char)
    requires d < 10
    ensures IsDigit(c)
  {
    ('0' as int + d) as char
  }

  /** The decimal numeral of `n`, without leading zeros. */
  function NatToString(n: nat): (r: string)
    ensures r != [] && AllDigits(r)
  {
    if n < 10 then [DigitChar(n)] else NatToString(n / 10) + [DigitChar(n % 10)]
  }

  /** The value of a string of decimal digits. */
  function DigitsValue(s: string): nat
    requires AllDigits(s)
  {
    if s == [] then 0 else DigitsValue(s[..|s| - 1]) * 10 + (s[|s| - 1] as int - '0' as int)
  }

  lemma {:induction false} DigitsValueOfNatToString(n: nat)
    ensures DigitsValue(NatToString(n)) == n
  {
    if n >= 10 {
      var s := NatToString(n);
      assert s[..|s| - 1] == NatToString(n / 10);
      DigitsValueOfNatToString(n / 10);
    }
  }

  /** The longest prefix of ASCII digits. */
  function LeadingDigits(s: string): (r: string)
    ensures AllDigits(r) && |r| <= |s| && r == s[..|r|]
    ensures |r| == |s| || !IsDigit(s[|r|])
  {
    if s != [] && IsDigit(s[0]) then [s[0]] + LeadingDigits(s[1..]) else []
  }

  /** The digit prefix stops at the first non-digit. */
  lemma {:induction false} LeadingDigitsStop(d: string, rest: string)
    requires AllDigits(d)
    requires rest == [] || !IsDigit(rest[0])
    ensures LeadingDigits(d + rest) == d
    decreases |d|
  {
    if d == [] {
      assert d + rest == rest;
    } else {
      assert (d + rest)[1..] == d[1..] + rest;
      LeadingDigitsStop(d[1..], rest);
    }
  }
}
