/**
  The array computations the popup performs on the allowlist: the default
  `Array.prototype.sort` on strings, `Array.from(new Set(...))` and `filter`.
 */
module Lists {
  import opened Text

  /**
    The order `Array.prototype.sort()` uses for strings when no comparator is
    given: character by character, and a proper prefix comes first.
   */
  predicate Le(a: String, b: String) {
    if a == [] then true
    else if b == [] then false
    else if a[0] != b[0] then a[0] < b[0]
    else Le(a[1..], b[1..])
  }

  lemma {:induction false} LeRefl(a: String)
    ensures Le(a, a)
  {
    if a != [] { LeRefl(a[1..]); }
  }

  lemma {:induction false} LeTotal(a: String, b: String)
    ensures Le(a, b) || Le(b, a)
  {
    if a != [] && b != [] && a[0] == b[0] { LeTotal(a[1..], b[1..]); }
  }

  lemma {:induction false} LeAntisym(a: String, b: String)
    requires Le(a, b) && Le(b, a)
    ensures a == b
  {
    if a != [] && b != [] {
      LeAntisym(a[1..], b[1..]);
      assert a == [a[0]] + a[1..] && b == [b[0]] + b[1..];
    }
  }

  lemma {:induction false} LeTrans(a: String, b: String, c: String)
    requires Le(a, b) && Le(b, c)
    ensures Le(a, c)
  {
    if a != [] && b != [] && c != [] && a[0] == b[0] && b[0] == c[0] {
      LeTrans(a[1..], b[1..], c[1..]);
    }
  }

  /** Every earlier element is at most every later one. */
  predicate Sorted(s: seq<String>) {
    forall i, j :: 0 <= i < j < |s| ==> Le(s[i], s[j])
  }

  /** No value occurs twice. */
  predicate NoDuplicates(s: seq<String>) {
    forall i, j :: 0 <= i < j < |s| ==> s[i] != s[j]
  }

  /** Inserts `x` into a sorted list, keeping it sorted. */
  function Insert(x: String, s: seq<String>): (r: seq<String>)
    requires Sorted(s)
    ensures multiset(r) == multiset(s) + multiset{x}
    ensures Sorted(r)
  {
    if s == [] then [x]
    else if Le(x, s[0]) then
      BelowHead(x, s);
      SortedCons(x, s);
      [x] + s
    else
      SortedTail(s);
      var t := Insert(x, s[1..]);
      InsertedAboveHead(x, s, t);
      SortedCons(s[0], t);
      assert multiset(s) == multiset{s[0]} + multiset(s[1..]) by {
        assert s == [s[0]] + s[1..];
      }
      assert multiset([s[0]] + t) == multiset{s[0]} + multiset(t);
      [s[0]] + t
  }

  /** Putting an element in front of a sorted list keeps it sorted when the element is at most each of them. */
  lemma SortedCons(h: String, t: seq<String>)
    requires Sorted(t)
    requires forall y :: y in t ==> Le(h, y)
    ensures Sorted([h] + t)
  {
    forall i, j | 0 <= i < j < |t| + 1 ensures Le(([h] + t)[i], ([h] + t)[j]) {
      assert ([h] + t)[j] == t[j - 1];
      if i == 0 {
        assert t[j - 1] in t;
      } else {
        assert ([h] + t)[i] == t[i - 1];
      }
    }
  }

  /** What is at most the head of a sorted list is at most all of it. */
  lemma BelowHead(x: String, s: seq<String>)
    requires Sorted(s) && s != [] && Le(x, s[0])
    ensures forall y :: y in s ==> Le(x, y)
  {
    forall y | y in s ensures Le(x, y) {
      SortedHeadLeast(s, y);
      LeTrans(x, s[0], y);
    }
  }

  /** Inserting a value above the head into the tail gives values all above the head. */
  lemma InsertedAboveHead(x: String, s: seq<String>, t: seq<String>)
    requires Sorted(s) && s != [] && !Le(x, s[0])
    requires multiset(t) == multiset(s[1..]) + multiset{x}
    ensures forall y :: y in t ==> Le(s[0], y)
  {
    LeTotal(x, s[0]);
    forall y | y in t ensures Le(s[0], y) {
      assert y in multiset(t);
      if y != x {
        assert y in s[1..];
        SortedHeadLeast(s, y);
      }
    }
  }

  /**
    `Array.prototype.sort()` on strings: the result is sorted and a permutation
    of the input. By `SortedPermutationUnique` it is the only such list.
   */
  function SortStrings(s: seq<String>): (r: seq<String>)
    ensures Sorted(r)
    ensures multiset(r) == multiset(s)
  {
    if s == [] then []
    else
      assert s == [s[0]] + s[1..];
      Insert(s[0], SortStrings(s[1..]))
  }

  /** The head of a non-empty sorted list is at most each of its elements. */
  lemma SortedHeadLeast(a: seq<String>, y: String)
    requires Sorted(a) && y in a
    ensures Le(a[0], y)
  {
    var i :| 0 <= i < |a| && a[i] == y;
    if i == 0 { LeRefl(y); }
  }

  lemma SortedTail(a: seq<String>)
    requires Sorted(a) && a != []
    ensures Sorted(a[1..])
  {
    forall i, j | 0 <= i < j < |a| - 1 ensures Le(a[1..][i], a[1..][j]) {
      assert a[1..][i] == a[i + 1] && a[1..][j] == a[j + 1];
    }
  }

  lemma MultisetTail(a: seq<String>, b: seq<String>)
    requires a != [] && b != [] && a[0] == b[0]
    requires multiset(a) == multiset(b)
    ensures multiset(a[1..]) == multiset(b[1..])
  {
    assert a == [a[0]] + a[1..] && b == [b[0]] + b[1..];
    assert multiset(a) == multiset{a[0]} + multiset(a[1..]);
    assert multiset(b) == multiset{a[0]} + multiset(b[1..]);
    assert multiset(a[1..]) == multiset(a) - multiset{a[0]};
  }

  /** Two sorted lists with the same elements, counted with multiplicity, are equal. */
  lemma {:induction false} SortedPermutationUnique(a: seq<String>, b: seq<String>)
    requires Sorted(a) && Sorted(b)
    requires multiset(a) == multiset(b)
    ensures a == b
  {
    if a == [] {
      assert |b| == |multiset(b)| == 0;
    } else {
      assert |b| == |multiset(b)| == |a|;
      assert a[0] in multiset(b) && b[0] in multiset(a);
      SortedHeadLeast(b, a[0]);
      SortedHeadLeast(a, b[0]);
      LeAntisym(a[0], b[0]);
      MultisetTail(a, b);
      SortedTail(a);
      SortedTail(b);
      SortedPermutationUnique(a[1..], b[1..]);
      assert a == [a[0]] + a[1..] && b == [b[0]] + b[1..];
    }
  }

  /** Any sort that returns a sorted permutation returns what `SortStrings` returns. */
  lemma SortIsDetermined(s: seq<String>, t: seq<String>)
    requires Sorted(t) && multiset(t) == multiset(s)
    ensures t == SortStrings(s)
  {
    SortedPermutationUnique(t, SortStrings(s));
  }

  /**
    `Array.from(new Set(s))`: the result has no duplicates and the same
    elements. The popup sorts it afterwards, so its order is not stated.
   */
  function Dedup(s: seq<String>): (r: seq<String>)
    ensures NoDuplicates(r)
    ensures forall x :: x in r <==> x in s
    ensures |r| <= |s|
    ensures s != [] ==> r != []
  {
    if s == [] then []
    else
      var init := Dedup(s[..|s| - 1]);
      assert s == s[..|s| - 1] + [s[|s| - 1]];
      if s[|s| - 1] in init then init else init + [s[|s| - 1]]
  }

  /** A duplicate-free list is its own deduplication. */
  lemma {:induction false} DedupOfDistinct(s: seq<String>)
    requires NoDuplicates(s)
    ensures Dedup(s) == s
  {
    if s != [] {
      DedupOfDistinct(s[..|s| - 1]);
      assert s == s[..|s| - 1] + [s[|s| - 1]];
    }
  }

  /** `s.filter((item) => item !== x)`. */
  function Without(s: seq<String>, x: String): (r: seq<String>)
    ensures x !in r
    ensures forall y :: y != x ==> multiset(r)[y] == multiset(s)[y]
    ensures |r| <= |s|
  {
    if s == [] then []
    else
      assert s == [s[0]] + s[1..];
      (if s[0] == x then [] else [s[0]]) + Without(s[1..], x)
  }

  /** Filtering distributes over concatenation, so the elements kept stay in their order. */
  lemma {:induction false} WithoutAppend(a: seq<String>, b: seq<String>, x: String)
    ensures Without(a + b, x) == Without(a, x) + Without(b, x)
  {
    if a != [] {
      var head := if a[0] == x then [] else [a[0]];
      assert (a + b)[0] == a[0] && (a + b)[1..] == a[1..] + b;
      assert Without(a + b, x) == head + Without(a[1..] + b, x);
      assert Without(a, x) == head + Without(a[1..], x);
      WithoutAppend(a[1..], b, x);
    } else {
      assert a + b == b;
    }
  }

  /** Filtering out a value that is absent changes nothing. */
  lemma {:induction false} WithoutAbsent(s: seq<String>, x: String)
    requires x !in s
    ensures Without(s, x) == s
  {
    if s != [] {
      WithoutAbsent(s[1..], x);
      assert s == [s[0]] + s[1..];
    }
  }

  /** Filtering keeps a list free of duplicates. */
  lemma WithoutKeepsDistinct(s: seq<String>, x: String)
    requires NoDuplicates(s)
    ensures NoDuplicates(Without(s, x))
  {
    var r := Without(s, x);
    DistinctIffCounts(s);
    assert forall y :: multiset(r)[y] <= multiset(s)[y] by {
      forall y ensures multiset(r)[y] <= multiset(s)[y] {
        if y == x { assert y !in multiset(r); }
      }
    }
    DistinctIffCounts(r);
  }

  /** Filtering keeps a list sorted. */
  lemma {:induction false} WithoutKeepsSorted(s: seq<String>, x: String)
    requires Sorted(s)
    ensures Sorted(Without(s, x))
  {
    if s != [] {
      SortedTail(s);
      WithoutKeepsSorted(s[1..], x);
      var t := Without(s[1..], x);
      if s[0] != x {
        forall k | 0 <= k < |t| ensures Le(s[0], t[k]) {
          assert t[k] in multiset(t);
          assert t[k] in s[1..];
          SortedHeadLeast(s, t[k]);
        }
        assert Without(s, x) == [s[0]] + t;
      }
    }
  }

  /** Two equal elements at different positions make a count of at least two. */
  lemma PairCount(s: seq<String>, i: nat, j: nat)
    requires i < j < |s|
    ensures s[i] == s[j] ==> multiset(s)[s[i]] >= 2
  {
    assert s == s[..i] + [s[i]] + s[i + 1..j] + [s[j]] + s[j + 1..];
  }

  /** In a duplicate-free list every value is counted at most once. */
  lemma {:induction false} DistinctCount(s: seq<String>, y: String)
    requires NoDuplicates(s)
    ensures multiset(s)[y] <= 1
  {
    if s != [] {
      assert s == [s[0]] + s[1..];
      DistinctCount(s[1..], y);
      if s[0] == y { assert y !in s[1..]; }
    }
  }

  /** A list is duplicate-free exactly when it counts every value at most once. */
  lemma DistinctIffCounts(s: seq<String>)
    ensures NoDuplicates(s) <==> forall y :: multiset(s)[y] <= 1
  {
    if NoDuplicates(s) {
      forall y ensures multiset(s)[y] <= 1 { DistinctCount(s, y); }
    }
    if forall y :: multiset(s)[y] <= 1 {
      forall i, j | 0 <= i < j < |s| ensures s[i] != s[j] { PairCount(s, i, j); }
    }
  }

  /** Two sorted, duplicate-free lists with the same elements are equal. */
  lemma SortedDistinctUnique(a: seq<String>, b: seq<String>)
    requires Sorted(a) && Sorted(b) && NoDuplicates(a) && NoDuplicates(b)
    requires forall y :: y in a <==> y in b
    ensures a == b
  {
    DistinctIffCounts(a);
    DistinctIffCounts(b);
    forall y ensures multiset(a)[y] == multiset(b)[y] {
      assert y in a <==> y in multiset(a);
      assert y in b <==> y in multiset(b);
    }
    assert multiset(a) == multiset(b);
    SortedPermutationUnique(a, b);
  }

  /** Sorting keeps the elements and, for a duplicate-free list, keeps it duplicate-free. */
  lemma SortKeepsElements(s: seq<String>)
    ensures forall y :: y in SortStrings(s) <==> y in s
    ensures NoDuplicates(s) ==> NoDuplicates(SortStrings(s))
  {
    var r := SortStrings(s);
    forall y ensures y in r <==> y in s {
      assert y in r <==> y in multiset(r);
      assert y in s <==> y in multiset(s);
    }
    DistinctIffCounts(s);
    DistinctIffCounts(r);
  }
}
