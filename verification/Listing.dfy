/** What is done for the names of a directory, one after the other. */
module Listing {
  import opened Sorting

  /** The parts of the listed names; a name without one adds nothing. */
  function Concat<T>(names: seq<string>, parts: map<string, seq<T>>): seq<T> {
    if names == [] then [] else Concat(names[..|names| - 1], parts) + PartOf(names[|names| - 1], parts)
  }

  function PartOf<T>(name: string, parts: map<string, seq<T>>): seq<T> {
    if name in parts then parts[name] else []
  }

  lemma ConcatNext<T>(names: seq<string>, i: nat, parts: map<string, seq<T>>)
    requires i < |names|
    ensures Concat(names[..i + 1], parts) == Concat(names[..i], parts) + PartOf(names[i], parts)
  {
    assert names[..i + 1][..i] == names[..i];
  }

  lemma {:induction false} ConcatGrows<T>(names: seq<string>, i: nat, parts: map<string, seq<T>>)
    requires i <= |names|
    ensures Concat(names[..i], parts) <= Concat(names, parts)
    decreases |names|
  {
    if i == |names| {
      assert names[..i] == names;
    } else {
      assert names[..|names| - 1][..i] == names[..i];
      ConcatGrows(names[..|names| - 1], i, parts);
    }
  }

  lemma {:induction false} InConcat<T>(names: seq<string>, parts: map<string, seq<T>>, op: T) returns (x: string)
    requires op in Concat(names, parts)
    ensures x in names && x in parts && op in parts[x]
  {
    x := names[|names| - 1];
    if op !in PartOf(x, parts) {
      x := InConcat(names[..|names| - 1], parts, op);
    }
  }

  lemma {:induction false} ConcatContains<T>(names: seq<string>, parts: map<string, seq<T>>, x: string)
    requires x in names && x in parts
    ensures forall op <- parts[x] :: op in Concat(names, parts)
    decreases |names|
  {
    var front, last := names[..|names| - 1], names[|names| - 1];
    if x != last {
      assert names == front + [last];
      ConcatContains(front, parts, x);
    }
  }

  lemma ConcatLast<T>(front: seq<string>, last: string, parts: map<string, seq<T>>)
    ensures Concat(front + [last], parts) == Concat(front, parts) + PartOf(last, parts)
  {
    assert (front + [last])[..|front|] == front;
  }

  lemma {:induction false} ConcatWithout<T>(names: seq<string>, k: nat, parts: map<string, seq<T>>)
    requires k < |names|
    ensures multiset(Concat(names, parts))
      == multiset(Concat(Without(names, k), parts)) + multiset(PartOf(names[k], parts))
    decreases |names|
  {
    hide PartOf, Concat, Without;
    var front, last := names[..|names| - 1], names[|names| - 1];
    assert names == front + [last];
    ConcatLast(front, last, parts);
    if k == |front| {
      assert Without(names, k) == front by { WithoutEnds(front, last, k); }
    } else {
      ConcatWithout(front, k, parts);
      WithoutEnds(front, last, k);
      ConcatLast(Without(front, k), last, parts);
    }
  }

  lemma WithoutEnds(front: seq<string>, last: string, k: nat)
    requires k <= |front|
    ensures Without(front + [last], k) == if k == |front| then front else Without(front, k) + [last]
  {
  }

  /** Listing the names in another order yields the same parts. */
  lemma {:induction false} ConcatAnyOrder<T>(xs: seq<string>, ys: seq<string>, parts: map<string, seq<T>>)
    requires multiset(xs) == multiset(ys)
    ensures multiset(Concat(xs, parts)) == multiset(Concat(ys, parts))
    decreases |xs|
  {
    hide PartOf;
    if xs == [] {
      assert |ys| == |multiset(ys)| == 0;
    } else {
      var i := |xs| - 1;
      InMultiset(xs, i);
      var k := Find(ys, xs[i]);
      WithoutMultiset(xs, i);
      WithoutMultiset(ys, k);
      ConcatAnyOrder(Without(xs, i), Without(ys, k), parts);
      ConcatWithout(xs, i, parts);
      ConcatWithout(ys, k, parts);
    }
  }

  lemma {:induction false} ConcatAlike<T>(names: seq<string>, p: map<string, seq<T>>, q: map<string, seq<T>>)
    requires p.Keys == q.Keys && forall x | x in p :: multiset(p[x]) == multiset(q[x])
    ensures multiset(Concat(names, p)) == multiset(Concat(names, q))
    decreases |names|
  {
    if names != [] {
      ConcatAlike(names[..|names| - 1], p, q);
    }
  }

  lemma ConcatSame<T>(xs: seq<string>, ys: seq<string>, p: map<string, seq<T>>, q: map<string, seq<T>>)
    requires multiset(xs) == multiset(ys)
    requires p.Keys == q.Keys && forall x | x in p :: multiset(p[x]) == multiset(q[x])
    ensures multiset(Concat(xs, p)) == multiset(Concat(ys, q))
  {
    ConcatAlike(xs, p, q);
    ConcatAnyOrder(xs, ys, q);
  }
}
