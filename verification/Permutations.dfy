/** Lists with the same elements in another order. */
module Permutations {
  /** A permutation of `xs` holds its head somewhere, and the rest of it is a permutation of the rest. */
  lemma HeadIn<T>(xs: seq<T>, ys: seq<T>) returns (a: seq<T>, b: seq<T>)
    requires xs != [] && multiset(xs) == multiset(ys)
    ensures ys == a + [xs[0]] + b && multiset(a + b) == multiset(xs[1..])
  {
    var x, rest := xs[0], xs[1..];
    assert xs == [x] + rest;
    assert x in multiset(ys);
    var j := PlaceOf(ys, x);
    a, b := ys[..j], ys[j + 1..];
    assert ys == a + [x] + b;
    TakenOut(a, x, b);
    SameLess(multiset(rest), multiset(a + b), x);
  }

  lemma PlaceOf<T>(ys: seq<T>, x: T) returns (j: nat)
    requires x in multiset(ys)
    ensures j < |ys| && ys[j] == x
  {
    assert x in ys;
    j :| 0 <= j < |ys| && ys[j] == x;
  }

  lemma TakenOut<T>(a: seq<T>, x: T, b: seq<T>)
    ensures multiset(a + [x] + b) == multiset{x} + multiset(a + b)
  {
  }

  lemma SameLess<T>(a: multiset<T>, b: multiset<T>, x: T)
    requires multiset{x} + a == multiset{x} + b
    ensures a == b
  {
    assert a == (multiset{x} + a) - multiset{x} && b == (multiset{x} + b) - multiset{x};
  }

  lemma SameElements<T>(xs: seq<T>, ys: seq<T>)
    requires multiset(xs) == multiset(ys)
    ensures |xs| == |ys| && forall v :: v in xs <==> v in ys
  {
    assert |multiset(xs)| == |xs| && |multiset(ys)| == |ys|;
    forall v ensures v in xs <==> v in ys {
      assert v in xs <==> v in multiset(xs);
      assert v in ys <==> v in multiset(ys);
    }
  }

  function Less<T>(xs: seq<T>, i: nat): seq<T>
    requires i < |xs|
  {
    xs[..i] + xs[i + 1..]
  }

  /** `xs` with places `i` and `j` moved to the end, `j` first. */
  function Last<T>(xs: seq<T>, i: nat, j: nat): seq<T>
    requires i < |xs| && j < |xs| && i != j
  {
    Less(Less(xs, i), if j < i then j else j - 1) + [xs[j], xs[i]]
  }

  lemma LastPermutes<T>(xs: seq<T>, i: nat, j: nat)
    requires i < |xs| && j < |xs| && i != j
    ensures multiset(Last(xs, i, j)) == multiset(xs)
    ensures multiset(Less(Less(xs, i), if j < i then j else j - 1) + [xs[j]]) == multiset(Less(xs, i))
  {
    LessPermutes(xs, i);
    var k, rest := if j < i then j else j - 1, Less(xs, i);
    assert rest[k] == xs[j];
    LessPermutes(rest, k);
  }

  lemma LessPermutes<T>(xs: seq<T>, i: nat)
    requires i < |xs|
    ensures multiset{xs[i]} + multiset(Less(xs, i)) == multiset(xs)
  {
    assert xs == xs[..i] + [xs[i]] + xs[i + 1..];
    TakenOut(xs[..i], xs[i], xs[i + 1..]);
  }

  lemma LessFront<T>(xs: seq<T>, x: T, i: nat)
    requires i < |xs|
    ensures Less(xs + [x], i) == Less(xs, i) + [x]
  {
  }

  lemma LessLast<T>(xs: seq<T>, x: T)
    ensures Less(xs + [x], |xs|) == xs
  {
  }

  lemma LessAlike<T>(xs: seq<T>, ys: seq<T>, i: nat, k: nat)
    requires multiset(xs) == multiset(ys) && i < |xs| && k < |ys| && xs[i] == ys[k]
    ensures multiset(Less(xs, i)) == multiset(Less(ys, k))
  {
    hide Less;
    LessPermutes(xs, i);
    LessPermutes(ys, k);
    SameLess(multiset(Less(xs, i)), multiset(Less(ys, k)), xs[i]);
  }

  lemma LessAmong<T>(xs: seq<T>, i: nat)
    requires i < |xs|
    ensures forall v | v in Less(xs, i) :: v in xs
  {
  }

  function Mapped<A, B>(f: A -> B, xs: seq<A>): (ys: seq<B>)
    ensures |ys| == |xs| && forall i | 0 <= i < |xs| :: ys[i] == f(xs[i])
  {
    seq(|xs|, i requires 0 <= i < |xs| => f(xs[i]))
  }

  lemma {:induction false} MappedPermuted<A, B>(f: A -> B, xs: seq<A>, ys: seq<A>)
    requires multiset(xs) == multiset(ys)
    ensures multiset(Mapped(f, xs)) == multiset(Mapped(f, ys))
    decreases |xs|
  {
    SameElements(xs, ys);
    if xs != [] {
      var a, b := HeadIn(xs, ys);
      MappedPermuted(f, xs[1..], a + b);
      assert Mapped(f, xs) == [f(xs[0])] + Mapped(f, xs[1..]);
      assert Mapped(f, ys) == Mapped(f, a) + [f(xs[0])] + Mapped(f, b);
      assert Mapped(f, a + b) == Mapped(f, a) + Mapped(f, b);
      TakenOut(Mapped(f, a), f(xs[0]), Mapped(f, b));
    }
  }

  /** Every order of the images is the images of some order. */
  lemma {:induction false} MappedOrder<A, B>(f: A -> B, xs: seq<A>, vs: seq<B>) returns (ys: seq<A>)
    requires multiset(vs) == multiset(Mapped(f, xs))
    ensures multiset(ys) == multiset(xs) && Mapped(f, ys) == vs
    decreases |xs|
  {
    SameElements(vs, Mapped(f, xs));
    ys := [];
    if xs != [] {
      hide Mapped, Less;
      assert vs[0] in multiset(vs);
      var p := PlaceOf(Mapped(f, xs), vs[0]);
      MappedLess(f, xs, p);
      LessAlike(Mapped(f, xs), vs, p, 0);
      LessFirst(vs);
      var rest := MappedOrder(f, Less(xs, p), vs[1..]);
      ys := [xs[p]] + rest;
      LessPermutes(xs, p);
      MappedFirst(f, xs[p], rest);
    }
  }

  lemma MappedFirst<A, B>(f: A -> B, x: A, xs: seq<A>)
    ensures Mapped(f, [x] + xs) == [f(x)] + Mapped(f, xs) && multiset([x] + xs) == multiset{x} + multiset(xs)
  {
  }

  lemma LessFirst<T>(xs: seq<T>)
    requires xs != []
    ensures Less(xs, 0) == xs[1..] && xs == [xs[0]] + xs[1..]
  {
  }

  lemma MappedLess<A, B>(f: A -> B, xs: seq<A>, i: nat)
    requires i < |xs|
    ensures Mapped(f, Less(xs, i)) == Less(Mapped(f, xs), i)
  {
  }
}
