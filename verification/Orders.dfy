/** Orders: the comparison of Go strings, and the sort that the service applies
    to slices whose elements are compared by a strict total order. */
module Orders {

  /** Go's `<` on strings. Keys are valid UTF-8, whose byte order is the order of
      the code points, so the comparison is lexicographic on runes. */
  predicate LexLess(a: string, b: string)
    decreases |a|
  {
    if b == "" then false
    else if a == "" then true
    else if a[0] != b[0] then a[0] < b[0]
    else LexLess(a[1..], b[1..])
  }

  /** The same, said outright: `a` is a proper prefix of `b`, or has the smaller rune where they first differ. */
  ghost predicate Precedes(a: string, b: string) {
    exists k: nat :: k <= |a| && k < |b| && a[..k] == b[..k] && (k == |a| || a[k] < b[k])
  }

  lemma {:induction false} LexLessIff(a: string, b: string)
    ensures LexLess(a, b) <==> Precedes(a, b)
    decreases |a|
  {
    if a == "" || b == "" || a[0] != b[0] {
      assert a[..0] == b[..0];
      assert forall k: nat :: 0 < k <= |a| && k < |b| ==> a[..k][0] == a[0] && b[..k][0] == b[0];
    } else {
      LexLessIff(a[1..], b[1..]);
      PrecedesTail(a, b);
    }
  }

  /** A common first rune does not matter to the order. */
  lemma {:induction false} PrecedesTail(a: string, b: string)
    requires a != "" && b != "" && a[0] == b[0]
    ensures Precedes(a, b) <==> Precedes(a[1..], b[1..])
  {
    if Precedes(a, b) {
      var k: nat :| k <= |a| && k < |b| && a[..k] == b[..k] && (k == |a| || a[k] < b[k]);
      assert a[1..][..k - 1] == a[..k][1..] && b[1..][..k - 1] == b[..k][1..];
    }
    if Precedes(a[1..], b[1..]) {
      PrecedesLonger(a, b);
    }
  }

  lemma {:induction false} PrecedesLonger(a: string, b: string)
    requires a != "" && b != "" && a[0] == b[0] && Precedes(a[1..], b[1..])
    ensures Precedes(a, b)
  {
    var c, d := a[1..], b[1..];
    var k: nat :| k <= |c| && k < |d| && c[..k] == d[..k] && (k == |c| || c[k] < d[k]);
    assert a[..k + 1] == [a[0]] + c[..k] && b[..k + 1] == [b[0]] + d[..k];
  }

  lemma {:induction false} LexTrichotomy(a: string, b: string)
    ensures a == b ==> !LexLess(a, b)
    ensures a != b ==> (LexLess(a, b) <==> !LexLess(b, a))
    decreases |a|
  {
    if a != "" && b != "" && a[0] == b[0] {
      LexTrichotomy(a[1..], b[1..]);
      assert a == [a[0]] + a[1..] && b == [b[0]] + b[1..];
    }
  }

  lemma {:induction false} LexTransitive(a: string, b: string, c: string)
    requires LexLess(a, b) && LexLess(b, c)
    ensures LexLess(a, c)
    decreases |a|
  {
    if a != "" && a[0] == b[0] && b[0] == c[0] {
      LexTransitive(a[1..], b[1..], c[1..]);
    }
  }

  ghost predicate StrictTotalOrder<T(!new)>(less: (T, T) -> bool) {
    && (forall x :: !less(x, x))
    && (forall x, y :: x != y ==> (less(x, y) <==> !less(y, x)))
    && (forall x, y, z :: less(x, y) && less(y, z) ==> less(x, z))
  }

  lemma {:induction false} LexIsStrictTotalOrder()
    ensures StrictTotalOrder(LexLess)
  {
    forall x: string, y: string ensures x == y ==> !LexLess(x, y)
                                ensures x != y ==> (LexLess(x, y) <==> !LexLess(y, x)) {
      LexTrichotomy(x, y);
    }
    forall x: string, y: string, z: string | LexLess(x, y) && LexLess(y, z) ensures LexLess(x, z) {
      LexTransitive(x, y, z);
    }
  }

  /** No element is smaller than an earlier one. */
  ghost predicate SortedBy<T>(less: (T, T) -> bool, s: seq<T>) {
    forall i, j :: 0 <= i < j < |s| ==> !less(s[j], s[i])
  }

  lemma {:induction false} InsertKeepsSorted<T>(less: (T, T) -> bool, s: seq<T>, i: nat, x: T)
    requires SortedBy(less, s) && i <= |s|
    requires forall j :: i <= j < |s| ==> !less(s[j], x)
    requires forall j :: 0 <= j < i ==> !less(x, s[j])
    ensures SortedBy(less, s[..i] + [x] + s[i..])
    ensures multiset(s[..i] + [x] + s[i..]) == multiset(s) + multiset{x}
  {
    assert s == s[..i] + s[i..];
    var r := s[..i] + [x] + s[i..];
    forall a, b | 0 <= a < b < |r| ensures !less(r[b], r[a]) {
      assert r[a] == if a < i then s[a] else if a == i then x else s[a - 1];
      assert r[b] == if b < i then s[b] else if b == i then x else s[b - 1];
    }
  }

  lemma {:induction false} InsertionPoint<T(!new)>(less: (T, T) -> bool, s: seq<T>, i: nat, x: T)
    requires StrictTotalOrder(less) && SortedBy(less, s) && i <= |s|
    requires i > 0 ==> !less(x, s[i - 1])
    ensures forall j :: 0 <= j < i ==> !less(x, s[j])
  {
    forall j | 0 <= j < i ensures !less(x, s[j]) {
      assert j < i - 1 ==> !less(s[i - 1], s[j]);
    }
  }

  /** `sort.Slice` and `sort.Strings`: the argument's elements, in order. The algorithm
      of Go's library is not modelled; under a strict total order the contract fixes the result. */
  method Sort<T(!new)>(s: seq<T>, less: (T, T) -> bool) returns (r: seq<T>)
    requires StrictTotalOrder(less)
    ensures SortedBy(less, r)
    ensures multiset(r) == multiset(s)
  {
    r := [];
    for k := 0 to |s|
      invariant SortedBy(less, r)
      invariant multiset(r) == multiset(s[..k])
    {
      var i := |r|;
      while i > 0 && less(s[k], r[i - 1])
        invariant 0 <= i <= |r|
        invariant forall j :: i <= j < |r| ==> !less(r[j], s[k])
      {
        i := i - 1;
      }
      assert s[..k + 1] == s[..k] + [s[k]];
      InsertionPoint(less, r, i, s[k]);
      InsertKeepsSorted(less, r, i, s[k]);
      r := r[..i] + [s[k]] + r[i..];
    }
    assert s[..|s|] == s;
  }

  ghost predicate NoDuplicates<T(!new)>(s: seq<T>) {
    forall x :: multiset(s)[x] <= 1
  }

  lemma {:induction false} NoDuplicatesMeansDistinct<T(!new)>(s: seq<T>, i: int, j: int)
    requires NoDuplicates(s) && 0 <= i < j < |s|
    ensures s[i] != s[j]
  {
    assert s == s[..j] + [s[j]] + s[j + 1..];
    assert s[i] in s[..j];
    assert multiset(s)[s[j]] == multiset(s[..j])[s[j]] + 1 + multiset(s[j + 1..])[s[j]];
  }
}
