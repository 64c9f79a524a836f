/**
 * Merges that make an emptied value absent, and exactly when the order of a
 * superstep's forks can be seen through them.
 *
 * Such a merge composes changes in any order up to whether nothing is left as
 * an absence or as a stored empty value. An install takes a fork's value as it
 * is when the index still holds what the fork found, so a stored empty value
 * can survive at the end of one order and not of another.
 */
module Pruning {
  import opened Options
  import opened ThreeWay
  import opened Permutations

  /** Nothing, absent or stored. */
  predicate Hollow<V(==)>(empty: V, v: Option<V>) {
    v == None || v == Some(empty)
  }

  predicate Alike<V(==)>(empty: V, a: Option<V>, b: Option<V>) {
    a == b || (Hollow(empty, a) && Hollow(empty, b))
  }

  function After<V(==)>(merge: Merge<V>, before: Option<V>, now: Option<V>, value: Option<V>): Option<V> {
    MergeKey(Some(merge), now, before, value).value
  }

  // ----- folds in another order

  lemma {:induction false} FoldJoin<V>(merge: Option<Merge<V>>, before: Option<V>, now: Option<V>, xs: seq<Option<V>>,
                                       ys: seq<Option<V>>)
    ensures FoldKey(merge, before, now, xs + ys) == FoldKey(merge, before, FoldKey(merge, before, now, xs), ys)
    decreases |ys|
  {
    if ys == [] {
      assert xs + ys == xs;
    } else {
      var n := |ys| - 1;
      assert (xs + ys)[..|xs + ys| - 1] == xs + ys[..n];
      FoldJoin(merge, before, now, xs, ys[..n]);
    }
  }

  lemma FoldOne<V>(merge: Option<Merge<V>>, before: Option<V>, now: Option<V>, xs: seq<Option<V>>, x: Option<V>)
    ensures FoldKey(merge, before, now, xs + [x]) == MergeKey(merge, FoldKey(merge, before, now, xs), before, x).value
    ensures FoldKey(merge, before, now, []) == now
    ensures FoldKey(merge, before, now, [x]) == MergeKey(merge, now, before, x).value
  {
    assert (xs + [x])[..|xs|] == xs && [x][..0] == [];
  }

  /** Of the values `among`, any two can be taken in either order. */
  ghost predicate Commutes<V(!new)>(merge: Merge<V>, ok: Option<V> -> bool, before: Option<V>, among: seq<Option<V>>) {
    && (forall n, x | ok(n) && x in among :: ok(After(merge, before, n, x)))
    && (forall n, x, y | ok(n) && x in among && y in among ::
          After(merge, before, After(merge, before, n, x), y) == After(merge, before, After(merge, before, n, y), x))
  }

  lemma {:induction false} CommutingHead<V(!new)>(merge: Merge<V>, ok: Option<V> -> bool, before: Option<V>,
                                                  now: Option<V>,
                                                 x: Option<V>, xs: seq<Option<V>>)
    requires ok(now) && Commutes(merge, ok, before, [x] + xs)
    ensures FoldKey(Some(merge), before, After(merge, before, now, x), xs) == After(merge, before,
        FoldKey(Some(merge), before, now, xs), x)
    ensures ok(FoldKey(Some(merge), before, now, xs))
    decreases |xs|
  {
    if xs != [] {
      var n := |xs| - 1;
      assert forall v | v in [x] + xs[..n] :: v in [x] + xs;
      assert xs[n] in [x] + xs && x in [x] + xs;
      CommutingHead(merge, ok, before, now, x, xs[..n]);
    }
  }

  /** Values that commute leave the same in every order. */
  lemma {:induction false} CommutingFold<V(!new)>(merge: Merge<V>, ok: Option<V> -> bool, before: Option<V>,
                                                  now: Option<V>,
                                                 xs: seq<Option<V>>, ys: seq<Option<V>>)
    requires ok(now) && Commutes(merge, ok, before, xs) && multiset(xs) == multiset(ys)
    ensures FoldKey(Some(merge), before, now, xs) == FoldKey(Some(merge), before, now, ys)
    decreases |xs|
  {
    SameElements(xs, ys);
    if xs == [] {
      assert ys == [];
    } else {
      var a, b := HeadIn(xs, ys);
      var x, rest := xs[0], xs[1..];
      assert xs == [x] + rest;
      var next := After(merge, before, now, x);
      FoldOne(Some(merge), before, now, [], x);
      FoldJoin(Some(merge), before, now, [x], rest);
      assert Commutes(merge, ok, before, rest) && ok(next);
      CommutingFold(merge, ok, before, next, rest, a + b);
      FoldJoin(Some(merge), before, next, a, b);
      assert forall v | v in [x] + a :: v in ys;
      CommutingHead(merge, ok, before, now, x, a);
      FoldOne(Some(merge), before, now, a, x);
      FoldJoin(Some(merge), before, now, a + [x], b);
    }
  }

  // ----- merges that prune

  /** A merge that never refuses and never composes the empty value. */
  ghost predicate Prunes<V(!new)>(merge: Merge<V>, empty: V) {
    forall a, b, c :: merge(a, b, c).Composed? && merge(a, b, c).value != Some(empty)
  }

  /** Of the values `among`, steps can be taken in either order up to how nothing is stored. */
  ghost predicate Tame<V(!new)>(merge: Merge<V>, empty: V, ok: Option<V> -> bool, before: Option<V>,
                                among: seq<Option<V>>) {
    && (forall n, x | ok(n) && x in among :: ok(After(merge, before, n, x)))
    && (forall n, m, x | ok(n) && ok(m) && x in among && Alike(empty, n, m) ::
          Alike(empty, After(merge, before, n, x), After(merge, before, m, x)))
    && (forall n, x, y | ok(n) && x in among && y in among ::
          Alike(empty, After(merge, before, After(merge, before, n, x), y),
              After(merge, before, After(merge, before, n, y), x)))
  }

  lemma TameAmong<V(!new)>(merge: Merge<V>, empty: V, ok: Option<V> -> bool, before: Option<V>, xs: seq<Option<V>>,
                           ys: seq<Option<V>>)
    requires Tame(merge, empty, ok, before, xs) && forall v | v in ys :: v in xs
    ensures Tame(merge, empty, ok, before, ys)
  {
    hide After;
  }

  lemma {:induction false} AlikeFold<V(!new)>(merge: Merge<V>, empty: V, ok: Option<V> -> bool, before: Option<V>,
                                             n: Option<V>, m: Option<V>, xs: seq<Option<V>>)
    requires ok(n) && ok(m) && Alike(empty, n, m) && Tame(merge, empty, ok, before, xs)
    ensures ok(FoldKey(Some(merge), before, n, xs)) && ok(FoldKey(Some(merge), before, m, xs))
    ensures Alike(empty, FoldKey(Some(merge), before, n, xs), FoldKey(Some(merge), before, m, xs))
    decreases |xs|
  {
    if xs != [] {
      var k := |xs| - 1;
      TameAmong(merge, empty, ok, before, xs, xs[..k]);
      AlikeFold(merge, empty, ok, before, n, m, xs[..k]);
      assert xs[k] in xs;
    }
  }

  lemma {:induction false} AlikeHead<V(!new)>(merge: Merge<V>, empty: V, ok: Option<V> -> bool, before: Option<V>,
                                              now: Option<V>,
                                             x: Option<V>, xs: seq<Option<V>>)
    requires ok(now) && Tame(merge, empty, ok, before, [x] + xs)
    ensures ok(FoldKey(Some(merge), before, now, xs))
    ensures Alike(empty, FoldKey(Some(merge), before, After(merge, before, now, x), xs),
                  After(merge, before, FoldKey(Some(merge), before, now, xs), x))
    decreases |xs|
  {
    if xs != [] {
      var k := |xs| - 1;
      var front, y := xs[..k], xs[k];
      assert x in [x] + xs && y in [x] + xs;
      TameAmong(merge, empty, ok, before, [x] + xs, [x] + front);
      TameAmong(merge, empty, ok, before, [x] + xs, front);
      AlikeHead(merge, empty, ok, before, now, x, front);
      var moved := After(merge, before, now, x);
      AlikeFold(merge, empty, ok, before, moved, moved, front);
      var a, b := FoldKey(Some(merge), before, moved, front), FoldKey(Some(merge), before, now, front);
      assert Alike(empty, After(merge, before, a, y), After(merge, before, After(merge, before, b, x), y));
      assert Alike(empty, After(merge, before, After(merge, before, b, x), y),
          After(merge, before, After(merge, before, b, y), x));
    }
  }

  /** Every order leaves the same up to how nothing is stored. */
  lemma {:induction false} AlikeInAnyOrder<V(!new)>(merge: Merge<V>, empty: V, ok: Option<V> -> bool,
                                                    before: Option<V>, now: Option<V>,
                                                   xs: seq<Option<V>>, ys: seq<Option<V>>)
    requires ok(now) && Tame(merge, empty, ok, before, xs) && multiset(xs) == multiset(ys)
    ensures Alike(empty, FoldKey(Some(merge), before, now, xs), FoldKey(Some(merge), before, now, ys))
    decreases |xs|
  {
    SameElements(xs, ys);
    if xs == [] {
      assert ys == [];
    } else {
      var a, b := HeadIn(xs, ys);
      var x, rest := xs[0], xs[1..];
      assert xs == [x] + rest;
      var next := After(merge, before, now, x);
      FoldOne(Some(merge), before, now, [], x);
      FoldJoin(Some(merge), before, now, [x], rest);
      TameAmong(merge, empty, ok, before, xs, rest);
      AlikeInAnyOrder(merge, empty, ok, before, next, rest, a + b);
      FoldJoin(Some(merge), before, next, a, b);
      TameAmong(merge, empty, ok, before, xs, [x] + a);
      TameAmong(merge, empty, ok, before, xs, a);
      TameAmong(merge, empty, ok, before, xs, b);
      AlikeHead(merge, empty, ok, before, now, x, a);
      AlikeFold(merge, empty, ok, before, next, next, a);
      FoldOne(Some(merge), before, now, a, x);
      var moved, kept := FoldKey(Some(merge), before, next, a), FoldKey(Some(merge), before, now, a + [x]);
      AlikeFold(merge, empty, ok, before, moved, kept, b);
      FoldJoin(Some(merge), before, now, a + [x], b);
    }
  }

  // ----- exactly when the order can be seen

  /** Some other order of the forks leaves something else. */
  ghost predicate OrderSeen<V(!new)>(merge: Option<Merge<V>>, before: Option<V>, now: Option<V>, xs: seq<Option<V>>) {
    exists ys :: multiset(ys) == multiset(xs) && FoldKey(merge, before, now, ys) != FoldKey(merge, before, now, xs)
  }

  /** Two orders that leave different values: one of them differs from any third. */
  lemma TwoOrders<V(!new)>(merge: Option<Merge<V>>, before: Option<V>, now: Option<V>, xs: seq<Option<V>>,
                           ys: seq<Option<V>>, zs: seq<Option<V>>)
    requires multiset(ys) == multiset(xs) && multiset(zs) == multiset(xs)
    requires FoldKey(merge, before, now, ys) != FoldKey(merge, before, now, zs)
    ensures OrderSeen(merge, before, now, xs)
  {
  }

  /** Fork `i` stores the empty value over another, and fork `j` something else. */
  ghost predicate Emptied<V>(empty: V, before: Option<V>, xs: seq<Option<V>>, i: nat, j: nat) {
    i < |xs| && j < |xs| && xs[i] == Some(empty) != before && xs[j] != before && xs[j] != Some(empty)
  }

  /** Fork `i` stores the empty value, fork `j` something else, and without fork `i` the forks undo each other. */
  ghost predicate Undone<V>(merge: Merge<V>, empty: V, before: Option<V>, now: Option<V>, xs: seq<Option<V>>, i: nat,
                            j: nat) {
    Emptied(empty, before, xs, i, j) && Alike(empty, FoldKey(Some(merge), before, now, Less(xs, i)), before)
  }

  ghost predicate OrderShows<V>(merge: Merge<V>, empty: V, before: Option<V>, now: Option<V>, xs: seq<Option<V>>) {
    exists i: nat, j: nat :: Undone(merge, empty, before, now, xs, i, j)
  }

  /** A fork that changed something other than to the empty value never leaves the empty value stored. */
  lemma SolidLast<V(!new)>(merge: Merge<V>, empty: V, before: Option<V>, now: Option<V>, xs: seq<Option<V>>,
                           x: Option<V>)
    requires Prunes(merge, empty) && x != before && x != Some(empty)
    ensures FoldKey(Some(merge), before, now, xs + [x]) != Some(empty)
  {
    FoldOne(Some(merge), before, now, xs, x);
  }

  /** Forks that undo each other, ending with one that changed something, are back at what they found. */
  lemma BackAtFound<V(!new)>(merge: Merge<V>, empty: V, before: Option<V>, now: Option<V>, rest: seq<Option<V>>,
                             c: Option<V>)
    requires Prunes(merge, empty) && before != Some(empty) && c != before && c != Some(empty)
    requires Alike(empty, FoldKey(Some(merge), before, now, rest + [c]), before)
    ensures FoldKey(Some(merge), before, now, rest + [c]) == before
    ensures FoldKey(Some(merge), before, now, rest + [c] + [Some(empty)]) == Some(empty)
  {
    SolidLast(merge, empty, before, now, rest, c);
    FoldOne(Some(merge), before, now, rest + [c], Some(empty));
  }

  /** Where the other forks, `c` last, undo each other, the empty value taken last stays and taken earlier does not. */
  lemma UndoneIsSeen<V(!new)>(merge: Merge<V>, empty: V, before: Option<V>, now: Option<V>, xs: seq<Option<V>>,
                              rest: seq<Option<V>>, c: Option<V>)
    requires Prunes(merge, empty) && before != Some(empty) && c != before && c != Some(empty)
    requires multiset(rest + [c] + [Some(empty)]) == multiset(xs)
    requires Alike(empty, FoldKey(Some(merge), before, now, rest + [c]), before)
    ensures OrderSeen(Some(merge), before, now, xs)
  {
    var other := [Some(empty)] + rest;
    BackAtFound(merge, empty, before, now, rest, c);
    SolidLast(merge, empty, before, now, other, c);
    assert multiset(other + [c]) == multiset(rest + [c] + [Some(empty)]);
    TwoOrders(Some(merge), before, now, xs, rest + [c] + [Some(empty)], other + [c]);
  }

  lemma {:induction false} NoOps<V>(merge: Option<Merge<V>>, before: Option<V>, now: Option<V>, xs: seq<Option<V>>)
    requires forall v | v in xs :: v == before
    ensures FoldKey(merge, before, now, xs) == now
    decreases |xs|
  {
    if xs != [] {
      var n := |xs| - 1;
      assert xs[n] in xs;
      forall v | v in xs[..n] ensures v == before {
        assert v in xs;
      }
      NoOps(merge, before, now, xs[..n]);
    }
  }

  /** A fork that leaves the empty value stored changed nothing, or stored it over what it found. */
  lemma EmptyStep<V(!new)>(merge: Merge<V>, empty: V, before: Option<V>, now: Option<V>, xs: seq<Option<V>>,
                           x: Option<V>)
    requires Prunes(merge, empty) && FoldKey(Some(merge), before, now, xs + [x]) == Some(empty)
    ensures x == before ==> FoldKey(Some(merge), before, now, xs) == Some(empty)
    ensures x != before ==> x == Some(empty) && FoldKey(Some(merge), before, now, xs) == before
  {
    FoldOne(Some(merge), before, now, xs, x);
  }

  /**
   * How forks come to leave the empty value stored: none changed anything, or the last to change
   * stored it over what it found.
   */
  lemma {:induction false} EmptyLeft<V(!new)>(merge: Merge<V>, empty: V, before: Option<V>, now: Option<V>,
                                              xs: seq<Option<V>>) returns (i: nat)
    requires Prunes(merge, empty) && FoldKey(Some(merge), before, now, xs) == Some(empty)
    ensures i <= |xs|
    ensures i == |xs| ==> now == Some(empty) && forall v | v in xs :: v == before
    ensures i < |xs| ==> xs[i] == Some(empty) != before && FoldKey(Some(merge), before, now, Less(xs, i)) == before
    decreases |xs|
  {
    i := |xs|;
    if xs != [] {
      var n := |xs| - 1;
      var front, x := xs[..n], xs[n];
      assert xs == front + [x];
      hide FoldKey, Prunes, Less;
      EmptyStep(merge, empty, before, now, front, x);
      if x != before {
        i := n;
        LessLast(front, x);
      } else {
        var k := EmptyLeft(merge, empty, before, now, front);
        if k < n {
          i := k;
          LessFront(front, x, k);
          FoldOne(Some(merge), before, now, Less(front, k), x);
        }
      }
    }
  }

  /** With nothing but the empty value and what was found, every order is the same. */
  lemma OnlyEmpties<V(!new)>(merge: Merge<V>, empty: V, before: Option<V>, now: Option<V>, xs: seq<Option<V>>,
                             ys: seq<Option<V>>)
    requires multiset(xs) == multiset(ys) && forall v | v in xs :: v == before || v == Some(empty)
    ensures FoldKey(Some(merge), before, now, xs) == FoldKey(Some(merge), before, now, ys)
  {
    CommutingFold(merge, _ => true, before, now, xs, ys);
  }

  /** An order that leaves the empty value where another does not: the forks less one that stores it undo each other. */
  lemma EmptyIsUndone<V(!new)>(merge: Merge<V>, empty: V, before: Option<V>, now: Option<V>, xs: seq<Option<V>>,
                               ys: seq<Option<V>>) returns (i: nat, j: nat)
    requires Prunes(merge, empty) && multiset(xs) == multiset(ys)
    requires FoldKey(Some(merge), before, now, xs) == Some(empty) != FoldKey(Some(merge), before, now, ys)
    ensures Emptied(empty, before, xs, i, j) && FoldKey(Some(merge), before, now, Less(xs, i)) == before
  {
    SameElements(xs, ys);
    i := EmptyLeft(merge, empty, before, now, xs);
    if i == |xs| {
      NoOps(Some(merge), before, now, ys);
    } else {
      if forall v | v in xs :: v == before || v == Some(empty) {
        OnlyEmpties(merge, empty, before, now, xs, ys);
      }
      j :| j < |xs| && xs[j] != before && xs[j] != Some(empty);
    }
  }

  /** The same places in another order of the forks, and the other forks in another order too. */
  lemma EmptiedAlike<V>(empty: V, before: Option<V>, xs: seq<Option<V>>, ys: seq<Option<V>>, i: nat, j: nat)
    returns (k: nat, l: nat)
    requires multiset(xs) == multiset(ys) && Emptied(empty, before, xs, i, j)
    ensures Emptied(empty, before, ys, k, l) && multiset(Less(xs, i)) == multiset(Less(ys, k))
  {
    SameElements(xs, ys);
    k := PlaceOf(ys, xs[i]);
    l := PlaceOf(ys, xs[j]);
    LessAlike(xs, ys, i, k);
  }

  /** Forks with the empty value and another taken to the end. */
  lemma EmptiedLast<V>(empty: V, before: Option<V>, xs: seq<Option<V>>, i: nat, j: nat) returns (rest: seq<Option<V>>)
    requires Emptied(empty, before, xs, i, j)
    ensures multiset(rest + [xs[j]]) == multiset(Less(xs, i))
    ensures multiset(rest + [xs[j]] + [Some(empty)]) == multiset(xs)
  {
    rest := Less(Less(xs, i), if j < i then j else j - 1);
    LastPermutes(xs, i, j);
    assert Last(xs, i, j) == rest + [xs[j]] + [Some(empty)];
  }

  /** Some order of the forks leaves something else exactly when the order shows. */
  lemma OrderMatters<V(!new)>(merge: Merge<V>, empty: V, ok: Option<V> -> bool, before: Option<V>, now: Option<V>,
                              xs: seq<Option<V>>)
    requires Prunes(merge, empty) && ok(now) && Tame(merge, empty, ok, before, xs)
    ensures OrderSeen(Some(merge), before, now, xs) <==> OrderShows(merge, empty, before, now, xs)
  {
    if OrderSeen(Some(merge), before, now, xs) {
      SeenShows(merge, empty, ok, before, now, xs);
    }
    if i: nat, j: nat :| Undone(merge, empty, before, now, xs, i, j) {
      var rest := EmptiedLast(empty, before, xs, i, j);
      LessAmong(xs, i);
      TameAmong(merge, empty, ok, before, xs, Less(xs, i));
      hide Tame;
      AlikeInAnyOrder(merge, empty, ok, before, now, Less(xs, i), rest + [xs[j]]);
      UndoneIsSeen(merge, empty, before, now, xs, rest, xs[j]);
    }
  }

  lemma SeenShows<V(!new)>(merge: Merge<V>, empty: V, ok: Option<V> -> bool, before: Option<V>, now: Option<V>,
                           xs: seq<Option<V>>)
    requires Prunes(merge, empty) && ok(now) && Tame(merge, empty, ok, before, xs)
    requires OrderSeen(Some(merge), before, now, xs)
    ensures OrderShows(merge, empty, before, now, xs)
  {
    hide Tame, Prunes;
    var ys :|
        multiset(ys) == multiset(xs) && FoldKey(Some(merge), before, now, ys) != FoldKey(Some(merge), before, now, xs);
    AlikeInAnyOrder(merge, empty, ok, before, now, xs, ys);
    if FoldKey(Some(merge), before, now, xs) == Some(empty) {
      var i, j := EmptyIsUndone(merge, empty, before, now, xs, ys);
      assert Undone(merge, empty, before, now, xs, i, j);
    } else {
      var k, l := EmptyIsUndone(merge, empty, before, now, ys, xs);
      var i, j := EmptiedAlike(empty, before, ys, xs, k, l);
      LessAmong(xs, i);
      TameAmong(merge, empty, ok, before, xs, Less(xs, i));
      AlikeInAnyOrder(merge, empty, ok, before, now, Less(xs, i), Less(ys, k));
      assert Undone(merge, empty, before, now, xs, i, j);
    }
  }

  // ----- whole supersteps

  /** A merge that never refuses. */
  ghost predicate Total<U(!new)>(inner: Merge<U>) {
    forall a, b, c :: inner(a, b, c).Composed?
  }

  lemma NeverConflicts<K(!new), V(!new)>(inner: Merge<V>, now: map<K, V>, before: map<K, V>, value: map<K, V>)
    requires Total(inner)
    ensures forall j :: !MergeAt(Some(inner), now, before, value, j).conflict
  {
  }

  lemma ColumnPermuted<K, V>(xs: seq<map<K, V>>, ys: seq<map<K, V>>, k: K)
    requires multiset(xs) == multiset(ys)
    ensures multiset(Column(xs, k)) == multiset(Column(ys, k))
  {
    MappedPermuted((m: map<K, V>) => Lookup(m, k), xs, ys);
    assert Column(xs, k) == Mapped((m: map<K, V>) => Lookup(m, k), xs);
    assert Column(ys, k) == Mapped((m: map<K, V>) => Lookup(m, k), ys);
  }

  /** A superstep whose every key folds alike in two orders leaves the same map in both. */
  lemma SameFolds<K(!new), V>(merge: Option<Merge<V>>, before: map<K, V>, now: map<K, V>, xs: seq<map<K, V>>,
                              ys: seq<map<K, V>>)
    requires forall k ::
            FoldKey(merge, Lookup(before, k), Lookup(now, k), Column(xs, k)) == FoldKey(merge, Lookup(before, k),
                Lookup(now, k), Column(ys, k))
    ensures FoldMaps(merge, before, now, xs) == FoldMaps(merge, before, now, ys)
  {
    forall k ensures Lookup(FoldMaps(merge, before, now, xs), k) == Lookup(FoldMaps(merge, before, now, ys), k) {
      FoldMapsByKey(merge, before, now, xs, k);
      FoldMapsByKey(merge, before, now, ys, k);
    }
    SameLookups(FoldMaps(merge, before, now, xs), FoldMaps(merge, before, now, ys));
  }

  /** Forks whose merge never refuses never conflict. */
  lemma TotalNeverConflicts<K(!new), V(!new)>(merge: Merge<V>, before: map<K, V>, now: map<K, V>, forks: seq<map<K, V>>)
    requires Total(merge)
    ensures forall i: nat | i < |forks| :: !ForkConflicts(Some(merge), before, now, forks, i)
  {
    forall i: nat | i < |forks| ensures !ForkConflicts(Some(merge), before, now, forks, i) {
      NeverConflicts(merge, FoldMaps(Some(merge), before, now, forks[..i]), before, forks[i]);
    }
  }

  /** Some other order of a superstep's forks leaves another map. */
  ghost predicate IndexOrderSeen<K(!new), V(!new)>(merge: Option<Merge<V>>, before: map<K, V>, now: map<K, V>,
                                                   xs: seq<map<K, V>>) {
    exists ys :: multiset(ys) == multiset(xs) && FoldMaps(merge, before, now, ys) != FoldMaps(merge, before, now, xs)
  }

  /** Whatever the merge, the order of a superstep is seen exactly when it is at some key. */
  lemma IndexOrderMatters<K(!new), V(!new)>(merge: Option<Merge<V>>, before: map<K, V>, now: map<K, V>,
                                            xs: seq<map<K, V>>)
    ensures IndexOrderSeen(merge, before, now, xs)
       <==> exists k :: OrderSeen(merge, Lookup(before, k), Lookup(now, k), Column(xs, k))
  {
    if ys :| multiset(ys) == multiset(xs) && FoldMaps(merge, before, now, ys) != FoldMaps(merge, before, now, xs) {
      if forall k :: !OrderSeen(merge, Lookup(before, k), Lookup(now, k), Column(xs, k)) {
        forall k ensures FoldKey(merge, Lookup(before, k), Lookup(now, k), Column(xs, k))
                      == FoldKey(merge, Lookup(before, k), Lookup(now, k), Column(ys, k)) {
          ColumnPermuted(xs, ys, k);
        }
        SameFolds(merge, before, now, xs, ys);
      }
    }
    if k :| OrderSeen(merge, Lookup(before, k), Lookup(now, k), Column(xs, k)) {
      SeenAtKey(merge, before, now, xs, k);
    }
  }

  lemma SeenAtKey<K(!new), V(!new)>(merge: Option<Merge<V>>, before: map<K, V>, now: map<K, V>, xs: seq<map<K, V>>,
                                    k: K)
    requires OrderSeen(merge, Lookup(before, k), Lookup(now, k), Column(xs, k))
    ensures IndexOrderSeen(merge, before, now, xs)
  {
    var was, held, f := Lookup(before, k), Lookup(now, k), (m: map<K, V>) => Lookup(m, k);
    var vs :| multiset(vs) == multiset(Column(xs, k))
      && FoldKey(merge, was, held, vs) != FoldKey(merge, was, held, Column(xs, k));
    assert Column(xs, k) == Mapped(f, xs);
    var ys := MappedOrder(f, xs, vs);
    assert Column(ys, k) == vs;
    FoldMapsByKey(merge, before, now, xs, k);
    FoldMapsByKey(merge, before, now, ys, k);
  }
}
