/** Byte strings in the order of Go's `bytes.Compare`, which also orders Go strings. */
module ByteStrings {
  type Byte = b: int | 0 <= b < 256
  type Bytes = seq<Byte>

  const TWO32 := 0x1_0000_0000
  const TWO64 := 0x1_0000_0000_0000_0000

  predicate Less(a: Bytes, b: Bytes) {
    b != [] && (a == [] || a[0] < b[0] || (a[0] == b[0] && Less(a[1..], b[1..])))
  }

  predicate AtMost(a: Bytes, b: Bytes) {
    !Less(b, a)
  }

  lemma LessTransitive(a: Bytes, b: Bytes, c: Bytes)
    requires Less(a, b) && Less(b, c)
    ensures Less(a, c)
  {
    if a != [] && a[0] == b[0] == c[0] {
      LessTransitive(a[1..], b[1..], c[1..]);
    }
  }

  lemma LessIrreflexive(a: Bytes)
    ensures !Less(a, a)
  {
  }

  lemma LessAsymmetric(a: Bytes, b: Bytes)
    requires Less(a, b)
    ensures !Less(b, a)
  {
    if Less(b, a) {
      LessTransitive(a, b, a);
      LessIrreflexive(a);
    }
  }

  lemma LessTotal(a: Bytes, b: Bytes)
    ensures Less(a, b) || a == b || Less(b, a)
  {
    if a != [] && b != [] && a[0] == b[0] {
      LessTotal(a[1..], b[1..]);
      if a[1..] == b[1..] {
        assert a == [a[0]] + a[1..] == b;
      }
    }
  }

  lemma AtMostIsTotalOrder()
    ensures forall a, b :: AtMost(a, b) || AtMost(b, a)
    ensures forall a, b :: AtMost(a, b) && AtMost(b, a) ==> a == b
    ensures forall a, b, c :: AtMost(a, b) && AtMost(b, c) ==> AtMost(a, c)
  {
    forall a, b
      ensures AtMost(a, b) || AtMost(b, a)
      ensures AtMost(a, b) && AtMost(b, a) ==> a == b
    {
      LessTotal(a, b);
      if Less(a, b) {
        LessAsymmetric(a, b);
      }
    }
    forall a, b, c | AtMost(a, b) && AtMost(b, c)
      ensures AtMost(a, c)
    {
      if Less(c, a) {
        LessTotal(a, b);
        LessTotal(b, c);
        if a == b || b == c {
        } else {
          LessTransitive(c, a, b);
          LessAsymmetric(b, c);
        }
      }
    }
  }
}

/** The contract of Go's `sort`: some permutation, in order. Ties may end up in any order. */
module Sorting {
  ghost predicate TotalPreorder<T(!new)>(leq: (T, T) -> bool) {
    && (forall a, b :: leq(a, b) || leq(b, a))
    && (forall a, b, c :: leq(a, b) && leq(b, c) ==> leq(a, c))
  }

  predicate SortedBy<T(!new)>(leq: (T, T) -> bool, s: seq<T>) {
    forall i, j :: 0 <= i < j < |s| ==> leq(s[i], s[j])
  }

  function Insert<T(!new)>(leq: (T, T) -> bool, x: T, r: seq<T>): (t: seq<T>)
    ensures multiset(t) == multiset(r) + multiset{x}
  {
    if r == [] || leq(x, r[0]) then
      [x] + r
    else
      assert r == [r[0]] + r[1..];
      [r[0]] + Insert(leq, x, r[1..])
  }

  function Sort<T(!new)>(leq: (T, T) -> bool, s: seq<T>): (r: seq<T>)
    ensures multiset(r) == multiset(s)
  {
    if s == [] then
      []
    else
      assert s == [s[0]] + s[1..];
      Insert(leq, s[0], Sort(leq, s[1..]))
  }

  lemma {:induction false} InsertKeepsOrder<T(!new)>(leq: (T, T) -> bool, x: T, r: seq<T>)
    requires TotalPreorder(leq) && SortedBy(leq, r)
    ensures SortedBy(leq, Insert(leq, x, r))
  {
    if r != [] && !leq(x, r[0]) {
      InsertKeepsOrder(leq, x, r[1..]);
      var t := Insert(leq, x, r[1..]);
      forall k | 0 <= k < |t|
        ensures leq(r[0], t[k])
      {
        assert t[k] in multiset(t);
        assert t[k] == x || t[k] in r[1..];
      }
    }
  }

  lemma {:induction false} SortIsSorted<T(!new)>(leq: (T, T) -> bool, s: seq<T>)
    requires TotalPreorder(leq)
    ensures SortedBy(leq, Sort(leq, s))
  {
    if s != [] {
      SortIsSorted(leq, s[1..]);
      InsertKeepsOrder(leq, s[0], Sort(leq, s[1..]));
    }
  }

  lemma TailMultiset<T>(s: seq<T>)
    requires s != []
    ensures s == [s[0]] + s[1..]
    ensures multiset(s[1..]) == multiset(s) - multiset{s[0]}
  {
    assert s == [s[0]] + s[1..];
  }

  lemma HeadLeast<T(!new)>(leq: (T, T) -> bool, s: seq<T>, x: T)
    requires TotalPreorder(leq) && SortedBy(leq, s)
    requires x in multiset(s)
    ensures x in s && leq(s[0], x)
  {
  }

  lemma SameHead<T(!new)>(leq: (T, T) -> bool, a: seq<T>, b: seq<T>)
    requires TotalPreorder(leq) && SortedBy(leq, a) && SortedBy(leq, b)
    requires a != [] && multiset(a) == multiset(b)
    ensures b != [] && leq(a[0], b[0]) && leq(b[0], a[0]) && b[0] in a
  {
    hide TotalPreorder, SortedBy;
    assert |a| == |multiset(a)| == |multiset(b)| == |b|;
    assert a[0] in multiset(a) && b[0] in multiset(b);
    HeadLeast(leq, a, b[0]);
    HeadLeast(leq, b, a[0]);
  }

  lemma TailSorted<T(!new)>(leq: (T, T) -> bool, s: seq<T>)
    requires SortedBy(leq, s) && s != []
    ensures SortedBy(leq, s[1..])
  {
  }

  /** No two different values of the sequence tie. */
  ghost predicate NoTies<T(!new)>(leq: (T, T) -> bool, s: seq<T>) {
    forall x, y :: leq(x, y) && leq(y, x) && x in s && y in s ==> x == y
  }

  /** A sorted sequence is decided by its elements when no two different values tie. */
  lemma {:induction false} SortedUnique<T(!new)>(leq: (T, T) -> bool, a: seq<T>, b: seq<T>)
    requires TotalPreorder(leq) && NoTies(leq, a)
    requires SortedBy(leq, a) && SortedBy(leq, b)
    requires multiset(a) == multiset(b)
    ensures a == b
  {
    if a == [] {
      assert |b| == |multiset(b)| == 0;
    } else {
      SameHead(leq, a, b);
      assert a[0] in a && a[0] == b[0];
      hide TotalPreorder, SortedBy;
      TailMultiset(a);
      TailMultiset(b);
      TailSorted(leq, a);
      TailSorted(leq, b);
      FewerTies(leq, a);
      SortedUnique(leq, a[1..], b[1..]);
    }
  }

  lemma FewerTies<T(!new)>(leq: (T, T) -> bool, s: seq<T>)
    requires NoTies(leq, s) && s != []
    ensures NoTies(leq, s[1..])
  {
    assert forall x <- s[1..] :: x in s;
  }

  ghost predicate Distinct<T>(s: seq<T>) {
    forall i, j :: 0 <= i < j < |s| ==> s[i] != s[j]
  }

  lemma {:induction false} DistinctCounts<T>(s: seq<T>)
    requires Distinct(s)
    ensures forall x :: multiset(s)[x] <= 1
  {
    if s != [] {
      assert s == [s[0]] + s[1..];
      DistinctCounts(s[1..]);
      assert s[0] !in s[1..];
      assert s[0] !in multiset(s[1..]);
    }
  }

  lemma CountsDistinct<T>(s: seq<T>)
    requires forall x :: multiset(s)[x] <= 1
    ensures Distinct(s)
  {
    forall i, j | 0 <= i < j < |s|
      ensures s[i] != s[j]
    {
      assert s == s[..i] + [s[i]] + s[i + 1..j] + [s[j]] + s[j + 1..];
      assert multiset(s)[s[i]] <= 1;
    }
  }

  function Without<T>(s: seq<T>, i: nat): (r: seq<T>)
    requires i < |s|
    ensures |r| == |s| - 1
    ensures forall k :: 0 <= k < |r| ==> r[k] == if k < i then s[k] else s[k + 1]
  {
    s[..i] + s[i + 1..]
  }

  lemma WithoutMultiset<T>(s: seq<T>, i: nat)
    requires i < |s|
    ensures multiset(Without(s, i)) == multiset(s) - multiset{s[i]}
  {
    assert s == s[..i] + [s[i]] + s[i + 1..];
  }

  lemma Find<T>(s: seq<T>, x: T) returns (i: nat)
    requires x in multiset(s)
    ensures i < |s| && s[i] == x
  {
    assert x in s;
    i :| i < |s| && s[i] == x;
  }

  lemma InMultiset<T>(s: seq<T>, i: nat)
    requires i < |s|
    ensures s[i] in multiset(s)
  {
    assert s[i] in s;
  }

  /** Two places of one order are two places of any other. */
  lemma TwoPlaces<T>(a: seq<T>, b: seq<T>, i: nat, j: nat) returns (m: nat, n: nat)
    requires multiset(a) == multiset(b) && i < j < |a|
    ensures m < |b| && n < |b| && m != n && b[m] == a[i] && b[n] == a[j]
  {
    InMultiset(a, i);
    m := Find(b, a[i]);
    WithoutMultiset(a, i);
    WithoutMultiset(b, m);
    InMultiset(Without(a, i), j - 1);
    n := Find(Without(b, m), a[j]);
    n := if n < m then n else n + 1;
  }

  function Sum<T>(weight: T -> int, s: seq<T>): int {
    if s == [] then 0 else weight(s[0]) + Sum(weight, s[1..])
  }

  lemma {:induction false} SumAppend<T>(weight: T -> int, s: seq<T>, x: T)
    ensures Sum(weight, s + [x]) == Sum(weight, s) + weight(x)
  {
    if s == [] {
      assert s + [x] == [x];
    } else {
      assert (s + [x])[1..] == s[1..] + [x];
      SumAppend(weight, s[1..], x);
    }
  }

  lemma {:induction false} SumConcat<T>(weight: T -> int, a: seq<T>, b: seq<T>)
    ensures Sum(weight, a + b) == Sum(weight, a) + Sum(weight, b)
  {
    if a == [] {
      assert a + b == b;
    } else {
      assert (a + b)[1..] == a[1..] + b;
      SumConcat(weight, a[1..], b);
    }
  }

  lemma {:induction false} SumWithout<T>(weight: T -> int, s: seq<T>, i: nat)
    requires i < |s|
    ensures Sum(weight, s) == weight(s[i]) + Sum(weight, Without(s, i))
  {
    if i == 0 {
      assert Without(s, 0) == s[1..];
    } else {
      SumWithout(weight, s[1..], i - 1);
      assert Without(s, i)[1..] == Without(s[1..], i - 1);
    }
  }

  lemma {:induction false} SumAnyOrder<T>(weight: T -> int, a: seq<T>, b: seq<T>)
    requires multiset(a) == multiset(b)
    ensures Sum(weight, a) == Sum(weight, b)
    decreases |a|
  {
    if a == [] {
      assert |b| == |multiset(b)| == 0;
    } else {
      InMultiset(a, 0);
      var m := Find(b, a[0]);
      WithoutMultiset(a, 0);
      WithoutMultiset(b, m);
      SumWithout(weight, a, 0);
      SumWithout(weight, b, m);
      SumAnyOrder(weight, Without(a, 0), Without(b, m));
    }
  }
}

/** Letter case, as path and attribute names are compared without it. */
module Text {
  function LowerChar(c: char): char {
    if 'A' <= c <= 'Z' then c - 'A' + 'a' else c
  }

  function Lower(s: string): string {
    seq(|s|, i requires 0 <= i < |s| => LowerChar(s[i]))
  }
}
