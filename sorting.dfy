/** The reference for `Array.prototype.sort` with a comparator: a stable
    insertion sort over a total preorder. */
module Sorting {

  /** A comparator that is total and transitive: `le(a, b)` means `a` may come
      before `b`. */
  ghost predicate TotalPreorder<T(!new)>(le: (T, T) -> bool)
  {
    && (forall a, b :: le(a, b) || le(b, a))
    && (forall a, b, c :: le(a, b) && le(b, c) ==> le(a, c))
  }

  predicate SortedBy<T>(s: seq<T>, le: (T, T) -> bool)
  {
    forall i, j | 0 <= i < j < |s| :: le(s[i], s[j])
  }

  /** Inserts `x` in front of the first element it may precede. */
  function Insert<T(!new)>(x: T, s: seq<T>, le: (T, T) -> bool): (r: seq<T>)
    requires TotalPreorder(le)
    requires SortedBy(s, le)
    ensures SortedBy(r, le)
    ensures multiset(r) == multiset(s) + multiset{x}
    ensures forall e | e in r :: e == x || e in s
  {
    if s == [] || le(x, s[0]) then
      [x] + s
    else
      var rest := Insert(x, s[1..], le);
      assert s == [s[0]] + s[1..];
      assert le(s[0], x);
      assert forall e | e in s[1..] :: le(s[0], e);
      assert forall e | e in rest :: le(s[0], e);
      [s[0]] + rest
  }

  /** Sorts `s`; elements that compare equal keep their input order. */
  function InsertionSort<T(!new)>(s: seq<T>, le: (T, T) -> bool): (r: seq<T>)
    requires TotalPreorder(le)
    ensures SortedBy(r, le)
    ensures multiset(r) == multiset(s)
  {
    if s == [] then []
    else
      assert s == [s[0]] + s[1..];
      Insert(s[0], InsertionSort(s[1..], le), le)
  }

  /** The first position of a least element: what a stable sort puts first. */
  function FirstMinimal<T(!new)>(s: seq<T>, le: (T, T) -> bool): (i: nat)
    requires TotalPreorder(le)
    requires |s| > 0
    ensures i < |s|
    ensures forall j | 0 <= j < |s| :: le(s[i], s[j])
    ensures forall j | 0 <= j < i :: !le(s[j], s[i])
  {
    if |s| == 1 then 0
    else
      var k := FirstMinimal(s[1..], le);
      if le(s[0], s[1..][k]) then
        0
      else
        assert forall j | 0 < j < k + 1 :: s[j] == s[1..][j - 1];
        k + 1
  }

  /** The stable sort's first element is the first least element of the input. */
  lemma {:induction false} StableSortHead<T(!new)>(s: seq<T>, le: (T, T) -> bool)
    requires TotalPreorder(le)
    requires |s| > 0
    ensures InsertionSort(s, le)[0] == s[FirstMinimal(s, le)]
  {
    if |s| > 1 {
      var r := InsertionSort(s[1..], le);
      assert |multiset(r)| == |multiset(s[1..])|;
      StableSortHead(s[1..], le);
      assert InsertionSort(s, le) == Insert(s[0], r, le);
    }
  }

  /** The elements of `s` that compare equal to `p`, in their order in `s`. */
  function EquivalentTo<T(!new)>(s: seq<T>, le: (T, T) -> bool, p: T): (r: seq<T>)
    ensures forall e | e in r :: e in s && le(e, p) && le(p, e)
  {
    if s == [] then []
    else (if le(s[0], p) && le(p, s[0]) then [s[0]] else []) + EquivalentTo(s[1..], le, p)
  }

  lemma EquivalentToCons<T(!new)>(y: T, t: seq<T>, le: (T, T) -> bool, p: T)
    ensures EquivalentTo([y] + t, le, p) == (if le(y, p) && le(p, y) then [y] else []) + EquivalentTo(t, le, p)
  {
    assert ([y] + t)[1..] == t;
  }

  /** An element that may not precede `y` is not equal to anything `y` equals. */
  lemma NotBothEquivalent<T(!new)>(x: T, y: T, le: (T, T) -> bool, p: T)
    requires TotalPreorder(le)
    requires !le(x, y)
    ensures !(le(x, p) && le(p, x) && le(y, p) && le(p, y))
  {
    assert le(x, p) && le(p, y) ==> le(x, y);
  }

  /** Inserting `x` puts it before every element equal to it and changes no
      other relative order. */
  lemma {:induction false} InsertEquivalentTo<T(!new)>(x: T, s: seq<T>, le: (T, T) -> bool, p: T)
    requires TotalPreorder(le)
    requires SortedBy(s, le)
    ensures EquivalentTo(Insert(x, s, le), le, p)
         == (if le(x, p) && le(p, x) then [x] else []) + EquivalentTo(s, le, p)
  {
    if s == [] || le(x, s[0]) {
      EquivalentToCons(x, s, le, p);
    } else {
      InsertEquivalentTo(x, s[1..], le, p);
      InsertPastHead(x, s, le, p);
    }
  }

  /** The step of `InsertEquivalentTo` where `x` goes past the head of `s`. */
  lemma InsertPastHead<T(!new)>(x: T, s: seq<T>, le: (T, T) -> bool, p: T)
    requires TotalPreorder(le)
    requires SortedBy(s, le) && s != [] && !le(x, s[0])
    requires EquivalentTo(Insert(x, s[1..], le), le, p)
          == (if le(x, p) && le(p, x) then [x] else []) + EquivalentTo(s[1..], le, p)
    ensures EquivalentTo(Insert(x, s, le), le, p)
         == (if le(x, p) && le(p, x) then [x] else []) + EquivalentTo(s, le, p)
  {
    var rest, tail := Insert(x, s[1..], le), EquivalentTo(s[1..], le, p);
    var ex := if le(x, p) && le(p, x) then [x] else [];
    var e0 := if le(s[0], p) && le(p, s[0]) then [s[0]] else [];
    assert Insert(x, s, le) == [s[0]] + rest;
    EquivalentToCons(s[0], rest, le, p);
    assert EquivalentTo(s, le, p) == e0 + tail;
    NotBothEquivalent(x, s[0], le, p);
    SwapEmpty(e0, ex, tail);
  }

  lemma SwapEmpty<T>(a: seq<T>, b: seq<T>, t: seq<T>)
    requires a == [] || b == []
    ensures a + (b + t) == b + (a + t)
  {
    if a == [] {
      assert a + (b + t) == b + t && a + t == t;
    } else {
      assert b + (a + t) == a + t && b + t == t;
    }
  }

  /** Stability: the sort keeps the input order among elements that compare
      equal. */
  lemma {:induction false} InsertionSortStable<T(!new)>(s: seq<T>, le: (T, T) -> bool, p: T)
    requires TotalPreorder(le)
    ensures EquivalentTo(InsertionSort(s, le), le, p) == EquivalentTo(s, le, p)
  {
    if s != [] {
      InsertionSortStable(s[1..], le, p);
      InsertEquivalentTo(s[0], InsertionSort(s[1..], le), le, p);
    }
  }
}
