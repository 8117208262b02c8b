/** Sequence facts shared by the brand tools: duplicate-freedom, first-seen
    deduplication (`new Set(items)` / a `seen` Set in a filter), subsequences. */
module Seqs {

  predicate NoDuplicates<T(==,!new)>(s: seq<T>)
  {
    forall i, j | 0 <= i < j < |s| :: s[i] != s[j]
  }

  /** A duplicate-free sequence's last element is not among the others, which are duplicate-free too. */
  lemma NoDuplicatesInit<T(!new)>(s: seq<T>, x: T)
    requires NoDuplicates(s + [x])
    ensures NoDuplicates(s) && x !in s
  {
    forall i | 0 <= i < |s| ensures s[i] != x {
      assert (s + [x])[i] == s[i] && (s + [x])[|s|] == x;
    }
    forall i, j | 0 <= i < j < |s| ensures s[i] != s[j] {
      assert (s + [x])[i] == s[i] && (s + [x])[j] == s[j];
    }
  }

  /** Appending an element not yet present keeps a sequence duplicate-free. */
  lemma NoDuplicatesSnoc<T(!new)>(s: seq<T>, x: T)
    requires NoDuplicates(s) && x !in s
    ensures NoDuplicates(s + [x])
  {
    forall i, j | 0 <= i < j < |s| + 1 ensures (s + [x])[i] != (s + [x])[j] {
      if j == |s| {
        assert s[i] in s;
      }
    }
  }

  /** The position of the first occurrence of `x`. */
  function FirstIndex<T(==,!new)>(s: seq<T>, x: T): (i: nat)
    requires x in s
    ensures i < |s| && s[i] == x && x !in s[..i]
  {
    if s[0] == x then 0 else FirstIndex(s[1..], x) + 1
  }

  /** Keeps each element of `s` that is not in `seen` and was not kept before:
      JavaScript's `items.filter(x => !seen.has(x) && seen.add(x))`. The result
      holds every such element once, ordered by first occurrence in `s`. */
  function DedupeFrom<T(==,!new)>(s: seq<T>, seen: set<T>): (r: seq<T>)
    ensures NoDuplicates(r)
    ensures forall x :: x in r <==> x in s && x !in seen
    ensures forall i, j | 0 <= i < j < |r| :: FirstIndex(s, r[i]) < FirstIndex(s, r[j])
  {
    if s == [] then []
    else
      var rest := if s[0] in seen then DedupeFrom(s[1..], seen) else DedupeFrom(s[1..], seen + {s[0]});
      assert forall x | x in rest :: x != s[0] && FirstIndex(s, x) == FirstIndex(s[1..], x) + 1;
      if s[0] in seen then rest else [s[0]] + rest
  }

  /** First-seen deduplication: `Array.from(new Set(s))`. */
  function Dedupe<T(==,!new)>(s: seq<T>): (r: seq<T>)
    ensures NoDuplicates(r)
    ensures forall x :: x in r <==> x in s
    ensures forall i, j | 0 <= i < j < |r| :: FirstIndex(s, r[i]) < FirstIndex(s, r[j])
  {
    DedupeFrom(s, {})
  }

  /** A sequence without duplicates is its own deduplication. */
  lemma {:induction false} DedupeFromNoDuplicates<T(!new)>(s: seq<T>, seen: set<T>)
    requires NoDuplicates(s)
    requires forall x | x in s :: x !in seen
    ensures DedupeFrom(s, seen) == s
  {
    if s != [] {
      var tail := s[1..];
      assert NoDuplicates(tail) by {
        forall i, j | 0 <= i < j < |tail| ensures tail[i] != tail[j] {
          assert tail[i] == s[i + 1] && tail[j] == s[j + 1];
        }
      }
      forall x | x in tail ensures x !in seen + {s[0]} {
        var k :| 0 <= k < |tail| && tail[k] == x;
        assert s[k + 1] == x;
      }
      DedupeFromNoDuplicates(tail, seen + {s[0]});
      assert s[0] !in seen;
      assert s == [s[0]] + tail;
    }
  }

  /** `a` is `b` with some elements left out, the rest in the same order. */
  predicate IsSubsequence<T(==,!new)>(a: seq<T>, b: seq<T>)
  {
    if a == [] then true
    else if b == [] then false
    else if a[0] == b[0] then IsSubsequence(a[1..], b[1..])
    else IsSubsequence(a, b[1..])
  }

  lemma {:induction false} IsSubsequenceLength<T(!new)>(a: seq<T>, b: seq<T>)
    requires IsSubsequence(a, b)
    ensures |a| <= |b|
    decreases a, b
  {
    if a != [] && b != [] {
      if a[0] == b[0] {
        IsSubsequenceLength(a[1..], b[1..]);
      } else {
        IsSubsequenceLength(a, b[1..]);
      }
    }
  }

  lemma {:induction false} IsSubsequenceMembers<T(!new)>(a: seq<T>, b: seq<T>)
    requires IsSubsequence(a, b)
    ensures forall x | x in a :: x in b
    decreases a, b
  {
    if a != [] && b != [] {
      if a[0] == b[0] {
        IsSubsequenceMembers(a[1..], b[1..]);
        assert forall x | x in a :: x == a[0] || x in a[1..];
        assert forall x | x in b[1..] :: x in b;
      } else {
        IsSubsequenceMembers(a, b[1..]);
      }
    }
  }

  /** Extending a sequence keeps its subsequences. */
  lemma {:induction false} IsSubsequenceExtend<T(!new)>(a: seq<T>, b: seq<T>, x: T)
    requires IsSubsequence(a, b)
    ensures IsSubsequence(a, b + [x])
    decreases a, b
  {
    if a != [] && b != [] {
      assert (b + [x])[1..] == b[1..] + [x];
      if a[0] == b[0] {
        IsSubsequenceExtend(a[1..], b[1..], x);
      } else {
        IsSubsequenceExtend(a, b[1..], x);
      }
    }
  }

  /** Appending the same element to both keeps a subsequence. */
  lemma {:induction false} IsSubsequenceSnoc<T(!new)>(a: seq<T>, b: seq<T>, x: T)
    requires IsSubsequence(a, b)
    ensures IsSubsequence(a + [x], b + [x])
    decreases a, b
  {
    if a == [] {
      assert a + [x] == [x];
      IsSubsequenceOfSingle(b, x);
    } else {
      assert b != [];
      assert (a + [x])[1..] == a[1..] + [x];
      assert (b + [x])[1..] == b[1..] + [x];
      if a[0] == b[0] {
        IsSubsequenceSnoc(a[1..], b[1..], x);
      } else {
        IsSubsequenceSnoc(a, b[1..], x);
      }
    }
  }

  lemma {:induction false} IsSubsequenceOfSingle<T(!new)>(b: seq<T>, x: T)
    ensures IsSubsequence([x], b + [x])
    decreases b
  {
    if b != [] {
      assert (b + [x])[1..] == b[1..] + [x];
      if b[0] != x {
        IsSubsequenceOfSingle(b[1..], x);
      }
    }
  }

  lemma {:induction false} IsSubsequenceReflexive<T(!new)>(s: seq<T>)
    ensures IsSubsequence(s, s)
  {
    if s != [] {
      IsSubsequenceReflexive(s[1..]);
    }
  }

  /** Putting an element in front keeps a subsequence. */
  lemma {:induction false} IsSubsequenceCons<T(!new)>(a: seq<T>, x: T, b: seq<T>)
    requires IsSubsequence(a, b)
    ensures IsSubsequence(a, [x] + b)
    decreases |b|, 1
  {
    assert ([x] + b)[1..] == b;
    if a != [] && a[0] == x {
      IsSubsequenceDropHead(a, b);
    }
  }

  /** Dropping the first element keeps a subsequence. */
  lemma {:induction false} IsSubsequenceDropHead<T(!new)>(a: seq<T>, b: seq<T>)
    requires a != [] && IsSubsequence(a, b)
    ensures IsSubsequence(a[1..], b)
    decreases |b|, 0
  {
    if a[0] == b[0] {
      IsSubsequenceCons(a[1..], b[0], b[1..]);
      assert [b[0]] + b[1..] == b;
    } else {
      IsSubsequenceDropHead(a, b[1..]);
      IsSubsequenceCons(a[1..], b[0], b[1..]);
      assert [b[0]] + b[1..] == b;
    }
  }

  /** First-seen deduplication grows by one element at most. */
  lemma {:induction false} DedupeFromSnoc<T(!new)>(s: seq<T>, seen: set<T>, x: T)
    ensures DedupeFrom(s + [x], seen) == DedupeFrom(s, seen) + (if x in s || x in seen then [] else [x])
    decreases |s|
  {
    if s == [] {
      assert [] + [x] == [x];
    } else {
      var t := s + [x];
      assert t[0] == s[0] && t[1..] == s[1..] + [x];
      assert x in s <==> x == s[0] || x in s[1..];
      if s[0] in seen {
        DedupeFromSnoc(s[1..], seen, x);
        assert DedupeFrom(t, seen) == DedupeFrom(s[1..] + [x], seen);
      } else {
        DedupeFromSnoc(s[1..], seen + {s[0]}, x);
        assert DedupeFrom(t, seen) == [s[0]] + DedupeFrom(s[1..] + [x], seen + {s[0]});
      }
    }
  }

  /** First-seen deduplication built from the back, one element at a time:
      what filling a JavaScript `Set` or `Map` leaves as its key order. */
  function FirstSeen<T(==)>(s: seq<T>): seq<T>
  {
    if s == [] then []
    else
      var before := FirstSeen(s[..|s| - 1]);
      if s[|s| - 1] in before then before else before + [s[|s| - 1]]
  }

  /** Insertion order agrees with first-seen deduplication. */
  lemma {:induction false} FirstSeenIsDedupe<T(!new)>(s: seq<T>)
    ensures FirstSeen(s) == Dedupe(s)
    decreases |s|
  {
    if s != [] {
      var init := s[..|s| - 1];
      FirstSeenIsDedupe(init);
      assert init + [s[|s| - 1]] == s;
      DedupeFromSnoc(init, {}, s[|s| - 1]);
    }
  }

  /** `s.filter(y => y !== x)`. */
  function Remove<T(==,!new)>(s: seq<T>, x: T): (r: seq<T>)
    ensures forall y :: y in r <==> y in s && y != x
    ensures IsSubsequence(r, s)
  {
    if s == [] then []
    else
      var rest := Remove(s[1..], x);
      assert forall y :: y in s <==> y == s[0] || y in s[1..];
      if s[0] != x then
        assert ([s[0]] + rest)[1..] == rest;
        [s[0]] + rest
      else
        IsSubsequenceCons(rest, s[0], s[1..]);
        assert [s[0]] + s[1..] == s;
        rest
  }

  /** Removing an absent element changes nothing. */
  lemma {:induction false} RemoveAbsent<T(!new)>(s: seq<T>, x: T)
    requires x !in s
    ensures Remove(s, x) == s
  {
    if s != [] {
      RemoveAbsent(s[1..], x);
      assert [s[0]] + s[1..] == s;
    }
  }

  /** Removing `x` ignores an `x` appended at the end. */
  lemma {:induction false} RemoveSnoc<T(!new)>(s: seq<T>, x: T)
    ensures Remove(s + [x], x) == Remove(s, x)
  {
    if s == [] {
      assert Remove([x], x) == Remove([x][1..], x);
    } else {
      assert (s + [x])[1..] == s[1..] + [x];
      RemoveSnoc(s[1..], x);
    }
  }

  /** A subsequence of a duplicate-free sequence is duplicate-free. */
  lemma {:induction false} IsSubsequenceNoDuplicates<T(!new)>(a: seq<T>, b: seq<T>)
    requires IsSubsequence(a, b) && NoDuplicates(b)
    ensures NoDuplicates(a)
    decreases a, b
  {
    if a != [] && b != [] {
      if a[0] == b[0] {
        IsSubsequenceNoDuplicates(a[1..], b[1..]);
        IsSubsequenceMembers(a[1..], b[1..]);
        assert forall x | x in a[1..] :: x != a[0];
        forall i, j | 0 <= i < j < |a| ensures a[i] != a[j] {
          if i > 0 {
            assert a[i] == a[1..][i - 1] && a[j] == a[1..][j - 1];
          } else {
            assert a[j] in a[1..];
          }
        }
      } else {
        IsSubsequenceNoDuplicates(a, b[1..]);
      }
    }
  }

  /** `s.filter(p)`: the elements that satisfy `p`, in their order. */
  function Filter<T(==,!new)>(s: seq<T>, p: T -> bool): (r: seq<T>)
    ensures forall x :: x in r <==> x in s && p(x)
    ensures IsSubsequence(r, s)
  {
    if s == [] then []
    else
      var rest := Filter(s[1..], p);
      assert forall x :: x in s <==> x == s[0] || x in s[1..];
      if p(s[0]) then
        assert ([s[0]] + rest)[1..] == rest;
        [s[0]] + rest
      else rest
  }
}
