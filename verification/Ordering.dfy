/**
 Sorting with duplicates removed, over any strict total order: what the source gets
 from `sort` followed by `dedup`. The result depends only on the set of elements.
 */
module Ordering {
  import opened Wire

  ghost predicate StrictTotal<T(!new)>(less: (T, T) -> bool) {
    && (forall x :: !less(x, x))
    && (forall x, y :: x == y || less(x, y) || less(y, x))
    && (forall x, y, z :: less(x, y) && less(y, z) ==> less(x, z))
  }

  ghost predicate StrictlySorted<T>(less: (T, T) -> bool, s: seq<T>) {
    forall i, j | 0 <= i < j < |s| :: less(s[i], s[j])
  }

  /** Insert `x` at its place, unless it is already there. */
  function Insert<T(==,!new)>(less: (T, T) -> bool, x: T, s: seq<T>): (r: seq<T>)
    ensures forall y :: y in r <==> y == x || y in s
  {
    if s == [] then [x]
    else if s[0] == x then s
    else if less(x, s[0]) then [x] + s
    else [s[0]] + Insert(less, x, s[1..])
  }

  function SortDistinct<T(==,!new)>(less: (T, T) -> bool, s: seq<T>): (r: seq<T>)
    ensures forall y :: y in r <==> y in s
  {
    if s == [] then [] else Insert(less, s[0], SortDistinct(less, s[1..]))
  }

  lemma {:induction false} InsertSorted<T(!new)>(less: (T, T) -> bool, x: T, s: seq<T>)
    requires StrictTotal(less) && StrictlySorted(less, s)
    ensures StrictlySorted(less, Insert(less, x, s))
  {
    if s != [] && s[0] != x && !less(x, s[0]) {
      InsertSorted(less, x, s[1..]);
      var tail := Insert(less, x, s[1..]);
      assert forall y | y in tail :: less(s[0], y);
    }
  }

  lemma {:induction false} SortDistinctSorted<T(!new)>(less: (T, T) -> bool, s: seq<T>)
    requires StrictTotal(less)
    ensures StrictlySorted(less, SortDistinct(less, s))
  {
    if s != [] {
      SortDistinctSorted(less, s[1..]);
      InsertSorted(less, s[0], SortDistinct(less, s[1..]));
    }
  }

  /** The head of a strictly sorted sequence is its least element and occurs once. */
  lemma SortedHead<T(!new)>(less: (T, T) -> bool, s: seq<T>)
    requires StrictTotal(less) && StrictlySorted(less, s) && s != []
    ensures s == [s[0]] + s[1..] && StrictlySorted(less, s[1..])
    ensures forall x :: x in s <==> x == s[0] || x in s[1..]
    ensures forall x | x in s[1..] :: less(s[0], x)
  {
    forall x ensures x in s <==> x == s[0] || x in s[1..] {
      if x in s {
        var i :| 0 <= i < |s| && s[i] == x;
        assert i == 0 || s[1..][i - 1] == x;
      }
    }
    forall x | x in s[1..] ensures less(s[0], x) {
      var i :| 0 <= i < |s[1..]| && s[1..][i] == x;
      assert s[i + 1] == x;
    }
  }

  /** A set has one strictly sorted spelling. */
  lemma {:induction false} SortedUnique<T(!new)>(less: (T, T) -> bool, a: seq<T>, b: seq<T>)
    requires StrictTotal(less) && StrictlySorted(less, a) && StrictlySorted(less, b)
    requires forall x :: x in a <==> x in b
    ensures a == b
  {
    if b != [] {
      var x := b[0];
      assert x in a;
    }
    if a != [] {
      SortedHead(less, a);
      assert a[0] in b && b != [];
      SortedHead(less, b);
      assert b[0] in a;
      assert !less(a[0], b[0]) || !less(b[0], a[0]) by {
        assert forall x, y, z :: less(x, y) && less(y, z) ==> less(x, z);
      }
      assert a[0] == b[0];
      forall x ensures x in a[1..] <==> x in b[1..] {
        assert x in a <==> x == a[0] || x in a[1..];
        assert x in b <==> x == b[0] || x in b[1..];
        assert !less(a[0], a[0]);
      }
      SortedUnique(less, a[1..], b[1..]);
    }
  }

  /** Sorting and deduplicating forgets order and repetition, and nothing else. */
  lemma SortDistinctBySet<T(!new)>(less: (T, T) -> bool, a: seq<T>, b: seq<T>)
    requires StrictTotal(less)
    ensures SortDistinct(less, a) == SortDistinct(less, b) <==> (forall x :: x in a <==> x in b)
  {
    if SortDistinct(less, a) == SortDistinct(less, b) {
      forall x ensures x in a <==> x in b {
        assert x in a <==> x in SortDistinct(less, a);
        assert x in b <==> x in SortDistinct(less, b);
      }
    }
    if forall x :: x in a <==> x in b {
      SortDistinctSorted(less, a);
      SortDistinctSorted(less, b);
      SortedUnique(less, SortDistinct(less, a), SortDistinct(less, b));
    }
  }

  lemma SortedSingleton<T(!new)>(less: (T, T) -> bool, s: seq<T>, x: T)
    requires StrictTotal(less) && StrictlySorted(less, s)
    requires s != [] && forall y | y in s :: y == x
    ensures s == [x]
  {
    assert |s| > 1 ==> less(s[0], s[1]);
    forall i | 0 <= i < |s|
      ensures s[i] == x
    {
      assert s[i] in s;
    }
  }

  // ----- sequences compared left to right -----

  predicate LexLess<T(==)>(less: (T, T) -> bool, a: seq<T>, b: seq<T>) {
    b != [] && (a == [] || less(a[0], b[0]) || (a[0] == b[0] && LexLess(less, a[1..], b[1..])))
  }

  lemma {:induction false} LexTotal<T(!new)>(less: (T, T) -> bool, a: seq<T>, b: seq<T>)
    requires StrictTotal(less)
    ensures a == b || LexLess(less, a, b) || LexLess(less, b, a)
    ensures !LexLess(less, a, a)
  {
    if a != [] && b != [] {
      LexTotal(less, a[1..], b[1..]);
      if a[0] == b[0] && a[1..] == b[1..] {
        assert a == [a[0]] + a[1..] && b == [b[0]] + b[1..];
      }
    }
    if a != [] {
      LexTotal(less, a[1..], a[1..]);
    }
  }

  lemma {:induction false} LexTransitive<T(!new)>(less: (T, T) -> bool, a: seq<T>, b: seq<T>, c: seq<T>)
    requires StrictTotal(less) && LexLess(less, a, b) && LexLess(less, b, c)
    ensures LexLess(less, a, c)
  {
    if a != [] && a[0] == b[0] == c[0] {
      LexTransitive(less, a[1..], b[1..], c[1..]);
    }
  }

  /** `a` comes first where the two part: it ends there, or goes on with the lesser element. */
  ghost predicate PartsBelow<T>(less: (T, T) -> bool, a: seq<T>, b: seq<T>, k: nat) {
    k <= |a| && k < |b| && a[..k] == b[..k] && (k == |a| || less(a[k], b[k]))
  }

  lemma {:induction false} LexMeans<T(!new)>(less: (T, T) -> bool, a: seq<T>, b: seq<T>)
    requires forall x :: !less(x, x)
    ensures LexLess(less, a, b) <==> exists k: nat :: PartsBelow(less, a, b, k)
  {
    if b != [] && a != [] && a[0] == b[0] {
      LexMeans(less, a[1..], b[1..]);
      if k: nat :| PartsBelow(less, a[1..], b[1..], k) {
        assert a[..k + 1] == [a[0]] + a[1..][..k] && b[..k + 1] == [b[0]] + b[1..][..k];
        assert PartsBelow(less, a, b, k + 1);
      }
      if k: nat :| PartsBelow(less, a, b, k) {
        assert k > 0;
        assert a[1..][..k - 1] == a[..k][1..] && b[1..][..k - 1] == b[..k][1..];
        assert PartsBelow(less, a[1..], b[1..], k - 1);
      }
    } else if LexLess(less, a, b) {
      assert PartsBelow(less, a, b, 0);
    }
  }

  // ----- octet strings -----

  predicate ByteLess(x: byte, y: byte) {
    x < y
  }

  predicate BytesLess(a: Bytes, b: Bytes) {
    LexLess(ByteLess, a, b)
  }

  lemma BytesTransitive(a: Bytes, b: Bytes, c: Bytes)
    requires BytesLess(a, b) && BytesLess(b, c)
    ensures BytesLess(a, c)
  {
    LexTransitive(ByteLess, a, b, c);
  }

  lemma BytesOrder()
    ensures StrictTotal(BytesLess)
  {
    forall a, b: Bytes
      ensures !BytesLess(a, a) && (a == b || BytesLess(a, b) || BytesLess(b, a))
    {
      LexTotal(ByteLess, a, b);
    }
    forall a, b, c: Bytes | BytesLess(a, b) && BytesLess(b, c)
      ensures BytesLess(a, c)
    {
      BytesTransitive(a, b, c);
    }
  }

  /** Where the two part, `a` has ended or has the lesser octet. */
  ghost predicate Precedes(a: Bytes, b: Bytes) {
    exists k: nat :: k <= |a| && k < |b| && a[..k] == b[..k] && (k == |a| || a[k] as int < b[k] as int)
  }

  /** Octet strings compare as unsigned octets from the left, a prefix first. */
  lemma BytesLessMeans(a: Bytes, b: Bytes)
    ensures BytesLess(a, b) <==> Precedes(a, b)
  {
    LexMeans(ByteLess, a, b);
    forall k: nat ensures PartsBelow(ByteLess, a, b, k) <==>
                          k <= |a| && k < |b| && a[..k] == b[..k] && (k == |a| || a[k] as int < b[k] as int) {
    }
  }

  // ----- text -----

  predicate CharLess(x: char, y: char) {
    x < y
  }

  predicate TextLess(a: string, b: string) {
    LexLess(CharLess, a, b)
  }

  lemma TextOrder()
    ensures StrictTotal(TextLess)
  {
    forall a, b: string
      ensures !TextLess(a, a) && (a == b || TextLess(a, b) || TextLess(b, a))
    {
      LexTotal(CharLess, a, b);
    }
    forall a, b, c: string | TextLess(a, b) && TextLess(b, c)
      ensures TextLess(a, c)
    {
      LexTransitive(CharLess, a, b, c);
    }
  }

  /** Where the two part, `a` has ended or has the lesser character. */
  ghost predicate TextPrecedes(a: string, b: string) {
    exists k: nat :: k <= |a| && k < |b| && a[..k] == b[..k] && (k == |a| || a[k] as int < b[k] as int)
  }

  /** Strings compare by code points from the left, a prefix first. */
  lemma TextLessMeans(a: string, b: string)
    ensures TextLess(a, b) <==> TextPrecedes(a, b)
  {
    LexMeans(CharLess, a, b);
    forall k: nat ensures PartsBelow(CharLess, a, b, k) <==>
                          k <= |a| && k < |b| && a[..k] == b[..k] && (k == |a| || a[k] as int < b[k] as int) {
    }
  }
}
