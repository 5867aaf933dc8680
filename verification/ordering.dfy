/** Strict orders, sorted sequences, and why sorting makes iteration order irrelevant. */
module Ordering {

  /** Byte-wise string comparison, Go's `<`. */
  predicate StrLess(a: string, b: string) {
    if b == "" then false
    else if a == "" then true
    else if a[0] != b[0] then a[0] < b[0]
    else StrLess(a[1..], b[1..])
  }

  lemma {:induction false} StrTransitive(a: string, b: string, c: string)
    requires StrLess(a, b) && StrLess(b, c)
    ensures StrLess(a, c)
  {
    if a != "" && a[0] == b[0] && b[0] == c[0] {
      StrTransitive(a[1..], b[1..], c[1..]);
    }
  }

  lemma {:induction false} StrTrichotomy(a: string, b: string)
    ensures !StrLess(a, a)
    ensures a == b || StrLess(a, b) || StrLess(b, a)
    ensures !(StrLess(a, b) && StrLess(b, a))
  {
    if a != "" {
      StrTrichotomy(a[1..], if b == "" then "" else b[1..]);
      if b != "" && a[0] == b[0] && a[1..] == b[1..] {
        assert a == [a[0]] + a[1..] && b == [b[0]] + b[1..];
      }
    }
  }

  /** `less` orders the elements of `xs` strictly and totally. */
  ghost predicate StrictOrder<T>(less: (T, T) -> bool, xs: seq<T>) {
    && (forall x | x in xs :: !less(x, x))
    && (forall x, y | x in xs && y in xs :: x == y || less(x, y) || less(y, x))
    && (forall x, y, z | x in xs && y in xs && z in xs && less(x, y) && less(y, z) :: less(x, z))
  }

  predicate Ascending<T>(s: seq<T>, less: (T, T) -> bool) {
    forall i, j | 0 <= i < j < |s| :: less(s[i], s[j])
  }

  predicate SameElements<T(==)>(a: seq<T>, b: seq<T>) {
    (forall x | x in a :: x in b) && (forall x | x in b :: x in a)
  }

  function Elements<T(==)>(s: seq<T>): set<T> {
    set x | x in s
  }

  lemma ElementsSnoc<T>(s: seq<T>, x: T)
    ensures Elements(s + [x]) == Elements(s) + {x}
  {
    forall y | y in Elements(s) + {x} ensures y in s + [x] {
      assert (s + [x])[|s|] == x;
    }
  }

  /** There is one ascending arrangement of a set of elements. */
  lemma {:induction false} AscendingUnique<T>(a: seq<T>, b: seq<T>, less: (T, T) -> bool)
    requires StrictOrder(less, a)
    requires Ascending(a, less) && Ascending(b, less)
    requires SameElements(a, b)
    ensures a == b
  {
    assert b == [] || b[0] in b;
    if a != [] {
      assert a[0] in b && b[0] in a;
      HeadIsLeast(a, less, b[0]);
      HeadIsLeast(b, less, a[0]);
      TailElements(a, b, less);
      AscendingUnique(a[1..], b[1..], less);
      assert a == [a[0]] + a[1..] && b == [b[0]] + b[1..];
    }
  }

  lemma HeadIsLeast<T>(s: seq<T>, less: (T, T) -> bool, x: T)
    requires Ascending(s, less) && x in s
    ensures s[0] == x || less(s[0], x)
  {
    var i :| 0 <= i < |s| && s[i] == x;
  }

  lemma TailMember<T>(s: seq<T>, t: seq<T>, less: (T, T) -> bool, x: T)
    requires s != [] && Ascending(s, less) && x in s[1..]
    requires t != [] && t[0] == s[0] && !less(s[0], s[0]) && x in t
    ensures x in t[1..]
  {
    var i :| 0 <= i < |s| - 1 && s[1..][i] == x;
    assert less(s[0], s[i + 1]);
    assert t == [t[0]] + t[1..];
  }

  lemma TailElements<T>(a: seq<T>, b: seq<T>, less: (T, T) -> bool)
    requires a != [] && b != [] && a[0] == b[0] && !less(a[0], a[0])
    requires Ascending(a, less) && Ascending(b, less) && SameElements(a, b)
    ensures SameElements(a[1..], b[1..])
  {
    forall x | x in a[1..] ensures x in b[1..] {
      assert x in a;
      TailMember(a, b, less, x);
    }
    forall x | x in b[1..] ensures x in a[1..] {
      assert x in b;
      TailMember(b, a, less, x);
    }
  }

  // ---------------------------------------------------------------- sort.Slice and sort.Strings

  function InsertedInto<T>(x: T, s: seq<T>, less: (T, T) -> bool): (r: seq<T>)
    ensures multiset(r) == multiset(s) + multiset{x}
  {
    if s == [] || less(x, s[0]) then
      [x] + s
    else
      assert s == [s[0]] + s[1..];
      [s[0]] + InsertedInto(x, s[1..], less)
  }

  /** A stable ascending arrangement; the library's sorting routines are modelled by it. */
  function Sorted<T>(s: seq<T>, less: (T, T) -> bool): (r: seq<T>)
    ensures multiset(r) == multiset(s)
  {
    if s == [] then
      []
    else
      assert s == s[..|s| - 1] + [s[|s| - 1]];
      InsertedInto(s[|s| - 1], Sorted(s[..|s| - 1], less), less)
  }

  lemma SortedElements<T>(s: seq<T>, less: (T, T) -> bool)
    ensures SameElements(Sorted(s, less), s)
    ensures |Sorted(s, less)| == |s|
  {
    var r := Sorted(s, less);
    assert |multiset(r)| == |multiset(s)|;
    forall x | x in r ensures x in s {
      assert x in multiset(r);
    }
    forall x | x in s ensures x in r {
      assert x in multiset(s);
    }
  }

  predicate Distinct<T(==)>(s: seq<T>) {
    forall i, j | 0 <= i < j < |s| :: s[i] != s[j]
  }

  lemma AscendingCons<T>(x: T, s: seq<T>, less: (T, T) -> bool)
    requires Ascending(s, less) && forall y | y in s :: less(x, y)
    ensures Ascending([x] + s, less)
  {
  }

  lemma {:induction false} InsertedIntoAscending<T>(x: T, s: seq<T>, all: seq<T>, less: (T, T) -> bool)
    requires StrictOrder(less, all) && x in all && (forall y | y in s :: y in all)
    requires Ascending(s, less) && x !in s
    ensures Ascending(InsertedInto(x, s, less), less)
  {
    if s != [] {
      var head, rest := s[0], s[1..];
      assert s == [head] + rest;
      assert head in all && forall i | 0 <= i < |rest| :: rest[i] == s[i + 1] && less(head, rest[i]);
      if less(x, head) {
        AscendingCons(x, s, less);
      } else {
        InsertedIntoAscending(x, rest, all, less);
        var r := InsertedInto(x, rest, less);
        forall y | y in r ensures less(head, y) {
          assert y in multiset(r);
        }
        AscendingCons(head, r, less);
      }
    }
  }

  lemma {:induction false} SortedAscending<T>(s: seq<T>, all: seq<T>, less: (T, T) -> bool)
    requires StrictOrder(less, all) && (forall y | y in s :: y in all) && Distinct(s)
    ensures Ascending(Sorted(s, less), less)
  {
    if s != [] {
      var init, x := s[..|s| - 1], s[|s| - 1];
      SortedAscending(init, all, less);
      SortedElements(init, less);
      InsertedIntoAscending(x, Sorted(init, less), all, less);
    }
  }

  /** `sort.Slice` as its documentation promises it: a rearrangement, ascending when `less` is a
      strict order of distinct elements. Callers see nothing else of the algorithm. */
  method SortSlice<T(==)>(s: seq<T>, less: (T, T) -> bool) returns (r: seq<T>)
    ensures SameElements(r, s) && |r| == |s|
    ensures StrictOrder(less, s) && Distinct(s) ==> Ascending(r, less)
  {
    r := Sorted(s, less);
    SortedElements(s, less);
    if StrictOrder(less, s) && Distinct(s) {
      SortedAscending(s, s, less);
    }
  }
}
