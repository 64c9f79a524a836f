/**
 * The merges fields name for values several tasks change apart, and why the
 * order a superstep's forks are installed in does not matter for them.
 *
 * An install bypasses the merge when the index still holds what the fork
 * found, so each result is about `FoldKey`, which takes that shortcut, and
 * not about the merge alone.
 */
module MergeAlgebra {
  import opened Options
  import opened ThreeWay
  import opened Permutations
  import opened Pruning

  // ----- sums

  function Amount(v: Option<nat>): nat {
    if v.Some? then v.value else 0
  }

  /** Zero is absent. */
  function Stored(sum: nat): Option<nat> {
    if sum != 0 then Some(sum) else None
  }

  /** Wrapping addition of words below `modulus`. */
  function Add(modulus: nat, a: nat, b: nat): nat {
    if a + b < modulus then a + b else a + b - modulus
  }

  /** Wrapping subtraction of words below `modulus`. */
  function Sub(modulus: nat, a: nat, b: nat): nat {
    if b <= a then a - b else if b <= a + modulus then a + modulus - b else 0
  }

  function MergeSum(modulus: nat, now: Option<nat>, before: Option<nat>, value: Option<nat>): Merged<nat> {
    Composed(Stored(Add(modulus, Amount(now), Sub(modulus, Amount(value), Amount(before)))))
  }

  function SumMerge(modulus: nat): Option<Merge<nat>> {
    Some((now, before, value) => MergeSum(modulus, now, before, value))
  }

  predicate Word(modulus: nat, v: Option<nat>) {
    Amount(v) < modulus
  }

  /** Every fork's wrapping difference from what it found, added up. */
  function Delta(modulus: nat, before: Option<nat>, values: seq<Option<nat>>): nat {
    if values == [] then 0
    else Add(modulus, Delta(modulus, before, values[1..]), Sub(modulus, Amount(values[0]), Amount(before)))
  }

  lemma DeltaIsWord(modulus: nat, before: Option<nat>, values: seq<Option<nat>>)
    requires Word(modulus, before) && forall v | v in values :: Word(modulus, v)
    ensures Delta(modulus, before, values) < modulus
  {
    if values != [] {
      assert Word(modulus, values[0]);
      DeltaIsWord(modulus, before, values[1..]);
    }
  }

  lemma AddLaws(modulus: nat, a: nat, b: nat, c: nat)
    requires a < modulus && b < modulus && c < modulus
    ensures Add(modulus, Add(modulus, a, b), c) == Add(modulus, a, Add(modulus, b, c))
    ensures Add(modulus, a, b) == Add(modulus, b, a) < modulus
    ensures Sub(modulus, a, b) < modulus && Add(modulus, b, Sub(modulus, a, b)) == a
  {
  }

  /** One fork adds its own difference, by whichever branch. */
  lemma SumStep(modulus: nat, now: Option<nat>, before: Option<nat>, value: Option<nat>)
    requires Word(modulus, now) && Word(modulus, before) && Word(modulus, value)
    ensures var step := MergeKey(SumMerge(modulus), now, before, value);
      && !step.conflict && Amount(step.value) == Add(modulus, Amount(now), Sub(modulus, Amount(value), Amount(before)))
      && (now != Some(0) && value != Some(0) ==> step.value != Some(0))
  {
  }

  /** The sum of all changes is kept, whatever is stored. */
  lemma {:induction false} SumFold(modulus: nat, before: Option<nat>, now: Option<nat>, values: seq<Option<nat>>)
    requires Word(modulus, now) && Word(modulus, before) && forall v | v in values :: Word(modulus, v)
    ensures var left := FoldKey(SumMerge(modulus), before, now, values);
      && Amount(left) == Add(modulus, Amount(now), Delta(modulus, before, values)) < modulus
      && (now != Some(0) && Some(0) !in values ==> left == Stored(Amount(left)))
    decreases |values|
  {
    if values == [] {
    } else {
      var last := |values| - 1;
      var value := values[last];
      SumFold(modulus, before, now, values[..last]);
      SumStep(modulus, FoldKey(SumMerge(modulus), before, now, values[..last]), before, value);
      assert values == values[..last] + [value];
      DeltaSplit(modulus, before, values[..last], [value]);
      DeltaIsWord(modulus, before, values[..last]);
      AddLaws(modulus, Amount(now), Delta(modulus, before, values[..last]),
          Sub(modulus, Amount(value), Amount(before)));
      assert Delta(modulus, before, [value]) == Sub(modulus, Amount(value), Amount(before));
    }
  }

  lemma {:induction false} DeltaSplit(modulus: nat, before: Option<nat>, a: seq<Option<nat>>, b: seq<Option<nat>>)
    requires Word(modulus, before) && forall v | v in a + b :: Word(modulus, v)
    ensures Delta(modulus, before, a + b) == Add(modulus, Delta(modulus, before, a), Delta(modulus, before, b))
  {
    assert forall v | v in a :: v in a + b;
    assert forall v | v in b :: v in a + b;
    DeltaIsWord(modulus, before, b);
    if a == [] {
      assert a + b == b;
    } else {
      assert (a + b)[1..] == a[1..] + b;
      DeltaSplit(modulus, before, a[1..], b);
      DeltaIsWord(modulus, before, a[1..]);
      var d := Sub(modulus, Amount(a[0]), Amount(before));
      assert Word(modulus, a[0]);
      AddLaws(modulus, d, Delta(modulus, before, a[1..]), Delta(modulus, before, b));
      AddLaws(modulus, Delta(modulus, before, a[1..]), d, Delta(modulus, before, b));
      AddLaws(modulus, Delta(modulus, before, a[1..]), Delta(modulus, before, b), d);
      AddLaws(modulus, Delta(modulus, before, b), d, 0);
    }
  }

  lemma {:induction false} DeltaPermuted(modulus: nat, before: Option<nat>, xs: seq<Option<nat>>, ys: seq<Option<nat>>)
    requires Word(modulus, before) && (forall v | v in xs :: Word(modulus, v)) && multiset(xs) == multiset(ys)
    ensures Delta(modulus, before, xs) == Delta(modulus, before, ys)
    decreases |xs|
  {
    SameElements(xs, ys);
    if xs == [] {
    } else {
      var x := xs[0];
      var a, b := HeadIn(xs, ys);
      assert [x] + xs[1..] == xs && ([x] + (a + b))[1..] == a + b;
      DeltaPermuted(modulus, before, xs[1..], a + b);
      DeltaMoved(modulus, before, a, x, b);
    }
  }

  lemma DeltaMoved(modulus: nat, before: Option<nat>, a: seq<Option<nat>>, x: Option<nat>, b: seq<Option<nat>>)
    requires Word(modulus, before) && forall v | v in a + [x] + b :: Word(modulus, v)
    ensures Delta(modulus, before, a + [x] + b) == Delta(modulus, before, [x] + (a + b))
  {
    assert a + [x] + b == a + ([x] + b) && ([x] + b)[1..] == b && ([x] + (a + b))[1..] == a + b;
    assert forall v | v in a + b :: v in a + [x] + b;
    assert x in a + [x] + b;
    DeltaSplit(modulus, before, a, [x] + b);
    DeltaSplit(modulus, before, a, b);
    DeltaIsWord(modulus, before, a);
    DeltaIsWord(modulus, before, b);
    AddLaws(modulus, Delta(modulus, before, a), Delta(modulus, before, b), Sub(modulus, Amount(x), Amount(before)));
  }

  lemma SumTame(modulus: nat, before: Option<nat>, values: seq<Option<nat>>)
    requires Word(modulus, before) && forall v | v in values :: Word(modulus, v)
    ensures Tame(SumMerge(modulus).value, 0, v => Word(modulus, v), before, values)
  {
    var merge, ok := SumMerge(modulus).value, v => Word(modulus, v);
    forall n, x | ok(n) && x in values
      ensures Amount(After(merge, before, n, x)) == Add(modulus, Amount(n), Sub(modulus, Amount(x), Amount(before)))
      ensures ok(After(merge, before, n, x))
    {
      SumStep(modulus, n, before, x);
      AddLaws(modulus, Amount(n), Sub(modulus, Amount(x), Amount(before)), 0);
      AddLaws(modulus, Amount(x), Amount(before), 0);
    }
    forall a, b ensures Alike(0, a, b) <==> Amount(a) == Amount(b) {
      AlikeAmounts(a, b);
    }
    hide After, Add, Sub, Amount, Alike;
    forall n, x, y | ok(n) && x in values && y in values
      ensures Alike(0, After(merge, before, After(merge, before, n, x), y),
          After(merge, before, After(merge, before, n, y), x))
    {
      SumSwap(modulus, before, n, x, y);
    }
  }

  lemma AlikeAmounts(a: Option<nat>, b: Option<nat>)
    ensures Alike(0, a, b) <==> Amount(a) == Amount(b)
  {
  }

  lemma SumSwap(modulus: nat, before: Option<nat>, n: Option<nat>, x: Option<nat>, y: Option<nat>)
    requires Word(modulus, before) && Word(modulus, n) && Word(modulus, x) && Word(modulus, y)
    ensures var merge := SumMerge(modulus).value;
      Amount(After(merge, before, After(merge, before, n, x), y)) == Amount(After(merge, before,
          After(merge, before, n, y), x))
  {
    var merge := SumMerge(modulus).value;
    var a, b := After(merge, before, n, x), After(merge, before, n, y);
    var dx, dy := Sub(modulus, Amount(x), Amount(before)), Sub(modulus, Amount(y), Amount(before));
    SumStep(modulus, n, before, x);
    SumStep(modulus, n, before, y);
    SumStep(modulus, a, before, y);
    SumStep(modulus, b, before, x);
    AddLaws(modulus, Amount(n), dx, dy);
    AddLaws(modulus, Amount(n), dy, dx);
    AddLaws(modulus, dx, dy, 0);
  }

  /** A fork stores a zero, another changes to something else, and all changes add up to nothing. */
  ghost predicate SumOrderShows(modulus: nat, before: Option<nat>, now: Option<nat>, values: seq<Option<nat>>) {
    && Add(modulus, Amount(now), Delta(modulus, before, values)) == 0
    && Some(0) in values && before != Some(0)
    && exists c :: c in values && c != before && c != Some(0)
  }

  /** Forks less one that stores zero undo each other exactly when all of them add up to nothing. */
  lemma ShowsIsZeroSum(modulus: nat, before: Option<nat>, now: Option<nat>, xs: seq<Option<nat>>, i: nat)
    requires Word(modulus, now) && Word(modulus, before) && (forall v | v in xs :: Word(modulus, v)) && i < |xs|
      && xs[i] == Some(0)
    ensures Alike(0, FoldKey(SumMerge(modulus), before, now, Less(xs, i)), before)
       <==> Add(modulus, Amount(now), Delta(modulus, before, xs)) == 0
  {
    var rest := Less(xs, i);
    LessAmong(xs, i);
    ZeroFirst(modulus, before, xs, i);
    SumFold(modulus, before, now, rest);
    DeltaIsWord(modulus, before, rest);
    AlikeAmounts(FoldKey(SumMerge(modulus), before, now, rest), before);
    hide FoldKey, SumMerge, Less, Delta;
    AddLaws(modulus, Amount(now), Delta(modulus, before, rest), Sub(modulus, 0, Amount(before)));
  }

  lemma ZeroFirst(modulus: nat, before: Option<nat>, xs: seq<Option<nat>>, i: nat)
    requires Word(modulus, before) && (forall v | v in xs :: Word(modulus, v)) && i < |xs| && xs[i] == Some(0)
    ensures Delta(modulus, before, xs) == Add(modulus, Delta(modulus, before, Less(xs, i)),
        Sub(modulus, 0, Amount(before)))
  {
    var rest := Less(xs, i);
    LessPermutes(xs, i);
    var moved := [Some(0)] + rest;
    assert multiset(moved) == multiset{Some(0)} + multiset(rest);
    DeltaPermuted(modulus, before, xs, moved);
    assert moved[1..] == rest;
  }

  /** Some order of the forks leaves something else exactly when the order shows: a condition on the values alone. */
  lemma SumOrderMatters(modulus: nat, before: Option<nat>, now: Option<nat>, xs: seq<Option<nat>>)
    requires Word(modulus, now) && Word(modulus, before) && forall v | v in xs :: Word(modulus, v)
    ensures OrderSeen(SumMerge(modulus), before, now, xs) <==> SumOrderShows(modulus, before, now, xs)
  {
    SumTame(modulus, before, xs);
    OrderMatters(SumMerge(modulus).value, 0, v => Word(modulus, v), before, now, xs);
    SumShows(modulus, before, now, xs);
  }

  lemma SumShows(modulus: nat, before: Option<nat>, now: Option<nat>, xs: seq<Option<nat>>)
    requires Word(modulus, now) && Word(modulus, before) && forall v | v in xs :: Word(modulus, v)
    ensures OrderShows(SumMerge(modulus).value, 0, before, now, xs) <==> SumOrderShows(modulus, before, now, xs)
  {
    var merge := SumMerge(modulus).value;
    if OrderShows(merge, 0, before, now, xs) {
      var i: nat, j: nat :| Undone(merge, 0, before, now, xs, i, j);
      ShowsIsZeroSum(modulus, before, now, xs, i);
      assert xs[i] in xs && xs[j] in xs;
    }
    if SumOrderShows(modulus, before, now, xs) {
      var i: nat :| i < |xs| && xs[i] == Some(0);
      var j: nat :| j < |xs| && xs[j] != before && xs[j] != Some(0);
      ShowsIsZeroSum(modulus, before, now, xs, i);
      assert Undone(merge, 0, before, now, xs, i, j);
    }
  }

  /** When no fork stores a zero, forks of a sum install alike in any order: the sum of all their changes. */
  lemma SumOrderFree(modulus: nat, before: Option<nat>, now: Option<nat>, xs: seq<Option<nat>>, ys: seq<Option<nat>>)
    requires Word(modulus, now) && Word(modulus, before) && forall v | v in xs :: Word(modulus, v)
    requires Some(0) !in xs && multiset(xs) == multiset(ys)
    ensures var left, sum := FoldKey(SumMerge(modulus), before, now, xs), Delta(modulus, before, xs);
      && left == FoldKey(SumMerge(modulus), before, now, ys) && Amount(left) == Add(modulus, Amount(now), sum)
      && (now != Some(0) ==> left == Stored(Add(modulus, Amount(now), sum)))
  {
    SumFold(modulus, before, now, xs);
    SumOrderMatters(modulus, before, now, xs);
  }

  /** A stored zero breaks that in every word size: the last fork of three may leave it, or its absence. */
  lemma StoredZeroOrderMatters(modulus: nat)
    requires modulus >= 2
    ensures FoldKey<nat>(SumMerge(modulus), None, None, [Some(1), Some(modulus - 1), Some(0)]) == Some(0)
    ensures FoldKey<nat>(SumMerge(modulus), None, None, [Some(0), Some(1), Some(modulus - 1)]) == None
  {
    var merge, a, b, zero := SumMerge(modulus), Some(1 as nat), Some((modulus - 1) as nat), Some(0 as nat);
    FoldOne(merge, None, None, [], a);
    FoldOne(merge, None, None, [a], b);
    FoldOne(merge, None, None, [a] + [b], zero);
    FoldOne(merge, None, None, [], zero);
    FoldOne(merge, None, None, [zero], a);
    FoldOne(merge, None, None, [zero] + [a], b);
    assert [a, b, zero] == [a] + [b] + [zero] && [zero, a, b] == [zero] + [a] + [b];
  }

  // ----- sets

  function Elements<T>(v: Option<set<T>>): set<T> {
    if v.Some? then v.value else {}
  }

  /** No set is kept for no elements. */
  function Pruned<T>(s: set<T>): Option<set<T>> {
    if s != {} then Some(s) else None
  }

  /** What is left of a set a fork found as `had` and left as `left`. */
  function Changed<T>(now: set<T>, had: set<T>, left: set<T>): set<T> {
    now + (left - had) - (had - left)
  }

  function MergeSet<T(==)>(now: Option<set<T>>, before: Option<set<T>>, value: Option<set<T>>): Merged<set<T>> {
    Composed(Pruned(Changed(Elements(now), Elements(before), Elements(value))))
  }

  function SetMerge<T(==)>(): Option<Merge<set<T>>> {
    Some((now, before, value) => MergeSet(now, before, value))
  }

  /** The same merge element by element, in place. */
  method MergeSetInPlace<T(==)>(current: Option<set<T>>, frozen: Option<set<T>>,
                                fork: Option<set<T>>) returns (merged: Option<set<T>>)
    ensures Composed(merged) == MergeSet(current, frozen, fork)
  {
    var had, left := Elements(frozen), Elements(fork);
    var now := Elements(current);
    var rest := left;
    while rest != {}
      invariant rest <= left && now == Elements(current) + (left - rest - had)
    {
      var element :| element in rest;
      if element !in had {
        now := now + {element};
      }
      rest := rest - {element};
    }
    rest := had;
    while rest != {}
      invariant rest <= had && now == Elements(current) + (left - had) - (had - rest - left)
    {
      var element :| element in rest;
      if element !in left {
        now := now - {element};
      }
      rest := rest - {element};
    }
    assert had - rest - left == had - left;
    merged := Pruned(now);
  }

  predicate Adds<T(==)>(before: Option<set<T>>, value: Option<set<T>>, e: T) {
    e !in Elements(before) && e in Elements(value)
  }

  predicate Drops<T(==)>(before: Option<set<T>>, value: Option<set<T>>, e: T) {
    e in Elements(before) && e !in Elements(value)
  }

  /** Some fork added `e`. */
  ghost predicate Added<T>(before: Option<set<T>>, values: seq<Option<set<T>>>, e: T) {
    exists v | v in values :: Adds(before, v, e)
  }

  /** Some fork dropped `e`. */
  ghost predicate Dropped<T>(before: Option<set<T>>, values: seq<Option<set<T>>>, e: T) {
    exists v | v in values :: Drops(before, v, e)
  }

  lemma SetStep<T>(before: Option<set<T>>, now: Option<set<T>>, x: Option<set<T>>, e: T)
    ensures var left := MergeKey(SetMerge(), now, before, x).value;
      e in Elements(left) <==> (e in Elements(now) || Adds(before, x, e)) && !Drops(before, x, e)
  {
  }

  lemma SetStepPrunes<T>(before: Option<set<T>>, now: Option<set<T>>, x: Option<set<T>>)
    requires now != Some({}) && x != Some({})
    ensures MergeKey(SetMerge(), now, before, x).value != Some({})
  {
  }

  lemma ChangesNext<T>(before: Option<set<T>>, values: seq<Option<set<T>>>, x: Option<set<T>>, e: T)
    ensures Added(before, values + [x], e) <==> Added(before, values, e) || Adds(before, x, e)
    ensures Dropped(before, values + [x], e) <==> Dropped(before, values, e) || Drops(before, x, e)
  {
    assert x in values + [x] && forall v | v in values :: v in values + [x];
  }

  /** All additions are kept and all removals made, whatever is stored. */
  lemma {:induction false} SetFold<T(!new)>(before: Option<set<T>>, now: Option<set<T>>, values: seq<Option<set<T>>>)
    ensures var left := FoldKey(SetMerge(), before, now, values);
      && (forall e :: e in Elements(left) <==> (e in Elements(now) || Added(before, values, e)) && !Dropped(before,
          values, e))
      && (now != Some({}) && Some({}) !in values ==> left == Pruned(Elements(left)))
    decreases |values|
  {
    if values != [] {
      var n := |values| - 1;
      var front, x := values[..n], values[n];
      SetFold(before, now, front);
      assert values == front + [x];
      var mid := FoldKey(SetMerge(), before, now, front);
      forall e
        ensures Added(before, values, e) <==> Added(before, front, e) || Adds(before, x, e)
        ensures Dropped(before, values, e) <==> Dropped(before, front, e) || Drops(before, x, e)
      {
        ChangesNext(before, front, x, e);
      }
      forall e ensures e in Elements(MergeKey(SetMerge(), mid, before, x).value)
                  <==> (e in Elements(mid) || Adds(before, x, e)) && !Drops(before, x, e) {
        SetStep(before, mid, x, e);
      }
      if now != Some({}) && Some({}) !in values {
        assert x in values && mid == Pruned(Elements(mid));
        SetStepPrunes(before, mid, x);
      }
      hide Added, Dropped, MergeKey, SetMerge;
    }
  }

  lemma ChangesCommute<T>(n: set<T>, b: set<T>, u: set<T>, v: set<T>)
    ensures Changed(Changed(n, b, u), b, v) == Changed(Changed(n, b, v), b, u)
    ensures Changed(u, b, v) == Changed(v, b, u)
  {
  }

  lemma SetAfter<T>(before: Option<set<T>>, now: Option<set<T>>, x: Option<set<T>>)
    requires x != before && now != before
    ensures After(SetMerge<T>().value, before, now, x) == Pruned(Changed(Elements(now), Elements(before), Elements(x)))
    ensures Elements(After(SetMerge<T>().value, before, now, x)) == Changed(Elements(now), Elements(before),
        Elements(x))
  {
  }

  /** Two forks of a set can be taken in either order, stored empty sets and absences included. */
  lemma SetStepsCommute<T>(before: Option<set<T>>, now: Option<set<T>>, x: Option<set<T>>, y: Option<set<T>>)
    ensures var merge := SetMerge<T>().value;
      After(merge, before, After(merge, before, now, x), y) == After(merge, before, After(merge, before, now, y), x)
  {
    if x != before && y != before {
      ChangesCommute(Elements(now), Elements(before), Elements(x), Elements(y));
      if now == before {
        SetAfter(before, x, y);
        SetAfter(before, y, x);
      } else {
        SetStepsMeet(before, now, x, y);
      }
    }
  }

  lemma SetStepsMeet<T>(before: Option<set<T>>, now: Option<set<T>>, x: Option<set<T>>, y: Option<set<T>>)
    requires x != before && y != before && now != before
    ensures var merge := SetMerge<T>().value;
      After(merge, before, After(merge, before, now, x), y) == After(merge, before, After(merge, before, now, y), x)
  {
    var merge := SetMerge<T>().value;
    var a, c := After(merge, before, now, x), After(merge, before, now, y);
    SetAfter(before, now, x);
    SetAfter(before, now, y);
    if a == before {
      BackToStart(before, now, x);
      StartsOver(y);
    } else if c == before {
      BackToStart(before, now, y);
      StartsOver(x);
    } else {
      SetAfter(before, a, y);
      SetAfter(before, c, x);
      ChangesCommute(Elements(now), Elements(before), Elements(x), Elements(y));
      hide After, SetMerge, Changed, Pruned;
    }
  }

  /** Over nothing, a stored empty set then a value, or the value then the empty set, leave the value. */
  lemma StartsOver<T>(y: Option<set<T>>)
    requires y != None
    ensures var merge, hollow := SetMerge<T>().value, Some({});
      && After(merge, None, After(merge, None, hollow, hollow), y) == y
      && After(merge, None, After(merge, None, hollow, y), hollow) == y
  {
    var merge, hollow: Option<set<T>> := SetMerge<T>().value, Some({});
    SetAfter(None, hollow, hollow);
    SetAfter(None, hollow, y);
    assert Changed({}, {}, y.value) == y.value;
    if y.value != {} {
      SetAfter(None, y, hollow);
      assert Changed(y.value, {}, {}) == y.value;
    }
  }

  /** A fork that changed the set makes it what it found only by pruning a second stored empty set. */
  lemma BackToStart<T>(before: Option<set<T>>, now: Option<set<T>>, x: Option<set<T>>)
    requires now != before && x != before && After(SetMerge<T>().value, before, now, x) == before
    ensures before == None && now == Some({}) && x == Some({})
  {
    var b, n, u := Elements(before), Elements(now), Elements(x);
    var r := Changed(n, b, u);
    assert before == Pruned(r);
    assert r == b;
    forall e ensures e in u <==> e in b {
      assert e in r <==> e in b;
    }
    assert u == b;
    assert n <= r;
  }

  /** Forks of a set install alike in any order, whatever is stored. */
  lemma SetOrderFree<T(!new)>(before: Option<set<T>>, now: Option<set<T>>, xs: seq<Option<set<T>>>,
                              ys: seq<Option<set<T>>>)
    requires multiset(xs) == multiset(ys)
    ensures FoldKey(SetMerge(), before, now, xs) == FoldKey(SetMerge(), before, now, ys)
  {
    SetsCommute(before, xs);
    CommutingFold(SetMerge<T>().value, _ => true, before, now, xs, ys);
  }

  lemma SetsCommute<T(!new)>(before: Option<set<T>>, among: seq<Option<set<T>>>)
    ensures Commutes(SetMerge<T>().value, _ => true, before, among)
  {
    var merge := SetMerge<T>().value;
    forall n, x, y ensures After(merge, before, After(merge, before, n, x), y)
        == After(merge, before, After(merge, before, n, y), x) {
      SetStepsCommute(before, n, x, y);
    }
  }

  /** When no empty set is stored, they do however often repeated. */
  lemma SetRepetitionFree<T(!new)>(before: Option<set<T>>, now: Option<set<T>>, xs: seq<Option<set<T>>>,
                                   ys: seq<Option<set<T>>>)
    requires now != Some({}) && Some({}) !in xs && forall v :: v in xs <==> v in ys
    ensures FoldKey(SetMerge(), before, now, xs) == FoldKey(SetMerge(), before, now, ys)
  {
    SetFold(before, now, xs);
    SetFold(before, now, ys);
    assert Elements(FoldKey(SetMerge(), before, now, xs)) == Elements(FoldKey(SetMerge(), before, now, ys));
  }

  // ----- maps of mergeable values

  function EntriesOf<J, U>(v: Option<map<J, U>>): map<J, U> {
    if v.Some? then v.value else map[]
  }

  function PrunedMap<J, U>(m: map<J, U>): Option<map<J, U>> {
    if m != map[] then Some(m) else None
  }

  /** Maps merge entry by entry: one entry `inner` cannot compose makes the whole a conflict. */
  function MergeMap<J(!new), U(==)>(inner: Merge<U>, now: Option<map<J, U>>, before: Option<map<J, U>>,
                                    value: Option<map<J, U>>): Merged<map<J, U>> {
    var keys := EntriesOf(before).Keys + EntriesOf(value).Keys;
    if exists j :: j in keys && MergeAt(Some(inner), EntriesOf(now), EntriesOf(before), EntriesOf(value),
        j).conflict then Conflict
    else Composed(PrunedMap(MergeMaps(Some(inner), EntriesOf(now), EntriesOf(before), EntriesOf(value))))
  }

  function MapMerge<J(!new), U(==)>(inner: Merge<U>): Option<Merge<map<J, U>>> {
    Some((now, before, value) => MergeMap(inner, now, before, value))
  }

  /** The same merge entry by entry, in place, giving up at the first entry `inner` refuses. */
  method MergeMapInPlace<J(==, !new), U(==)>(inner: Merge<U>, current: Option<map<J, U>>, frozen: Option<map<J, U>>,
                                             fork: Option<map<J, U>>)
    returns (merged: Merged<map<J, U>>)
    ensures merged == MergeMap(inner, current, frozen, fork)
  {
    var now, was, left := EntriesOf(current), EntriesOf(frozen), EntriesOf(fork);
    var target := now;
    var changed := (set j | j in left && Lookup(was, j) != Some(left[j])) + (set j | j in was && j !in left);
    UnchangedKeys(Some(inner), now, was, left, changed);
    hide MergeAt, MergeMaps, Put, Lookup;
    var rest := changed;
    while rest != {}
      invariant rest <= changed
      invariant forall j ::
              Lookup(target, j) == if j in rest then Lookup(now, j) else MergeAt(Some(inner), now, was, left, j).value
      invariant forall j | j !in rest :: !MergeAt(Some(inner), now, was, left, j).conflict
    {
      var key :| key in rest;
      rest := rest - {key};
      var value, clash := InstallKey(Some(inner), Lookup(target, key), Lookup(was, key), Lookup(left, key));
      assert MergeAt(Some(inner), now, was, left, key) == Step(value, clash)
          by { MergeAtIs(Some(inner), now, was, left, key); }
      if clash {
        merged := Conflict;
        return;
      }
      PutLookup(target, key, value);
      target := Put(target, key, value);
    }
    MergedByKey(Some(inner), now, was, left, target);
    merged := Composed(PrunedMap(target));
  }

  /** An entry both changed, apart, and `inner` does not compose. */
  ghost predicate Irreconcilable<U>(inner: Merge<U>, now: Option<U>, before: Option<U>, value: Option<U>) {
    value != before && now != before && now != value && inner(now, before, value) == Conflict
  }

  /** What the map merge leaves of each entry, and that it refuses exactly when it cannot reconcile one. */
  lemma MapMergeReads<J(!new), U(!new)>(inner: Merge<U>, now: Option<map<J, U>>, before: Option<map<J, U>>,
                                       value: Option<map<J, U>>)
    ensures var a, b, c := EntriesOf(now), EntriesOf(before), EntriesOf(value);
      MergeMap(inner, now, before, value) == Conflict <==>
        exists j :: Irreconcilable(inner, Lookup(a, j), Lookup(b, j), Lookup(c, j))
    ensures var a, b, c := EntriesOf(now), EntriesOf(before), EntriesOf(value);
      forall m | MergeMap(inner, now, before, value) == Composed(m) :: m != Some(map[]) && forall j ::
              var held, was, left := Lookup(a, j), Lookup(b, j), Lookup(c, j);
              Lookup(EntriesOf(m), j) == if left == was then held else if held == was then left
                                         else match inner(held, was, left) case Composed(v) => v case Conflict => left
  {
    var a, b, c := EntriesOf(now), EntriesOf(before), EntriesOf(value);
    forall j ensures MergeAt(Some(inner), a, b, c, j).conflict
        <==> Irreconcilable(inner, Lookup(a, j), Lookup(b, j), Lookup(c, j)) {
    }
    forall j ensures Lookup(MergeMaps(Some(inner), a, b, c), j) == MergeAt(Some(inner), a, b, c, j).value {
      MergeMapsLookup(Some(inner), a, b, c, j);
    }
    assert forall j | MergeAt(Some(inner), a, b, c, j).conflict :: j in b.Keys + c.Keys;
  }

  function ColumnOf<J, U>(values: seq<Option<map<J, U>>>, j: J): (column: seq<Option<U>>)
    ensures |column| == |values|
  {
    seq(|values|, i requires 0 <= i < |values| => Lookup(EntriesOf(values[i]), j))
  }

  /** One fork of a map of mergeable values is one fork of each entry. */
  lemma MapStep<J(!new), U(!new)>(inner: Merge<U>, now: Option<map<J, U>>, before: Option<map<J, U>>,
                                  value: Option<map<J, U>>, j: J)
    requires Total(inner)
    ensures var step := MergeKey(MapMerge(inner), now, before, value);
      && !step.conflict
      && Lookup(EntriesOf(step.value), j) == MergeKey(Some(inner), Lookup(EntriesOf(now), j),
          Lookup(EntriesOf(before), j), Lookup(EntriesOf(value), j)).value
  {
    NeverConflicts(inner, EntriesOf(now), EntriesOf(before), EntriesOf(value));
    MergeMapsLookup(Some(inner), EntriesOf(now), EntriesOf(before), EntriesOf(value), j);
  }

  /**
   * A map of mergeable values folds entry by entry: the shortcuts of the outer install and of the
   * inner merge agree.
   */
  lemma {:induction false} MapFold<J(!new), U(!new)>(inner: Merge<U>, before: Option<map<J, U>>,
                                                     now: Option<map<J, U>>, values: seq<Option<map<J, U>>>, j: J)
    requires Total(inner)
    ensures var left := FoldKey(MapMerge(inner), before, now, values);
      && Lookup(EntriesOf(left), j) == FoldKey(Some(inner), Lookup(EntriesOf(before), j), Lookup(EntriesOf(now), j),
          ColumnOf(values, j))
    decreases |values|
  {
    if values != [] {
      var last := |values| - 1;
      MapFold(inner, before, now, values[..last], j);
      assert ColumnOf(values, j)[..last] == ColumnOf(values[..last], j);
      hide MergeKey, MapMerge, EntriesOf, PrunedMap;
      MapStep(inner, FoldKey(MapMerge(inner), before, now, values[..last]), before, values[last], j);
    }
  }
}
