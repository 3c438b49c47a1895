/** The number of positions in which two sequences of equal length differ. */
module Hamming {
  function Distance<T(==)>(a: seq<T>, b: seq<T>): (d: nat)
    requires |a| == |b|
  {
    if a == [] then 0 else Distance(a[1..], b[1..]) + (if a[0] == b[0] then 0 else 1)
  }

  lemma {:induction false} ZeroDistance<T>(a: seq<T>, b: seq<T>)
    requires |a| == |b|
    ensures Distance(a, b) == 0 <==> a == b
  {
    if a != [] {
      ZeroDistance(a[1..], b[1..]);
      assert a == [a[0]] + a[1..] && b == [b[0]] + b[1..];
    }
  }

  lemma {:induction false} DistanceBound<T>(a: seq<T>, b: seq<T>)
    requires |a| == |b|
    ensures Distance(a, b) <= |a|
  {
    if a != [] {
      DistanceBound(a[1..], b[1..]);
    }
  }

  lemma {:induction false} DistanceTriangle<T>(a: seq<T>, b: seq<T>, c: seq<T>)
    requires |a| == |b| == |c|
    ensures Distance(a, c) <= Distance(a, b) + Distance(b, c)
  {
    if a != [] {
      DistanceTriangle(a[1..], b[1..], c[1..]);
    }
  }

  lemma {:induction false} DistanceSnoc<T>(a: seq<T>, b: seq<T>, x: T, y: T)
    requires |a| == |b|
    ensures Distance(a + [x], b + [y]) == Distance(a, b) + (if x == y then 0 else 1)
  {
    if a == [] {
      assert (a + [x])[1..] == [] && (b + [y])[1..] == [];
    } else {
      assert (a + [x])[1..] == a[1..] + [x] && (b + [y])[1..] == b[1..] + [y];
      DistanceSnoc(a[1..], b[1..], x, y);
    }
  }

  lemma {:induction false} DistanceSymmetric<T>(a: seq<T>, b: seq<T>)
    requires |a| == |b|
    ensures Distance(a, b) == Distance(b, a)
  {
    if a != [] {
      DistanceSymmetric(a[1..], b[1..]);
    }
  }
}
