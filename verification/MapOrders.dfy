/**
 * Maps of mergeable values, and exactly when the order of a superstep's forks
 * is seen through them: at an entry, or in whether nothing is left as an
 * absence or as a stored empty map.
 */
module MapOrders {
  import opened Options
  import opened ThreeWay
  import opened Permutations
  import opened Pruning
  import opened MergeAlgebra

  // ----- any merge of the entries

  function EntryOf<J, U>(v: Option<map<J, U>>, j: J): Option<U> {
    Lookup(EntriesOf(v), j)
  }

  lemma MapPrunes<J(!new), U(!new)>(inner: Merge<U>)
    requires Total(inner)
    ensures Prunes(MapMerge<J, U>(inner).value, map[])
  {
    forall a: Option<map<J, U>>, b: Option<map<J, U>>, c: Option<map<J, U>>
      ensures MapMerge(inner).value(a, b, c).Composed? && MapMerge(inner).value(a, b, c).value != Some(map[])
    {
      NeverConflicts(inner, EntriesOf(a), EntriesOf(b), EntriesOf(c));
    }
  }

  lemma ColumnOfPermuted<J, U>(xs: seq<Option<map<J, U>>>, ys: seq<Option<map<J, U>>>, j: J)
    requires multiset(xs) == multiset(ys)
    ensures multiset(ColumnOf(xs, j)) == multiset(ColumnOf(ys, j))
  {
    var f := (v: Option<map<J, U>>) => EntryOf(v, j);
    MappedPermuted(f, xs, ys);
    assert ColumnOf(xs, j) == Mapped(f, xs) && ColumnOf(ys, j) == Mapped(f, ys);
  }

  lemma ColumnOfLess<J, U>(xs: seq<Option<map<J, U>>>, i: nat, j: J)
    requires i < |xs|
    ensures ColumnOf(Less(xs, i), j) == Less(ColumnOf(xs, j), i)
  {
  }

  lemma AlikeEntries<J(!new), U>(a: Option<map<J, U>>, b: Option<map<J, U>>)
    ensures Alike(map[], a, b) <==> forall j :: EntryOf(a, j) == EntryOf(b, j)
  {
    if forall j :: EntryOf(a, j) == EntryOf(b, j) {
      forall j ensures Lookup(EntriesOf(a), j) == Lookup(EntriesOf(b), j) {
        assert EntryOf(a, j) == EntryOf(b, j);
      }
      SameLookups(EntriesOf(a), EntriesOf(b));
    }
  }

  /** The order of the forks is seen at entry `j`. */
  ghost predicate EntrySeen<J, U(!new)>(inner: Merge<U>, before: Option<map<J, U>>, now: Option<map<J, U>>,
                                        xs: seq<Option<map<J, U>>>, j: J) {
    OrderSeen(Some(inner), EntryOf(before, j), EntryOf(now, j), ColumnOf(xs, j))
  }

  /** Every entry of the forks `xs` is left as they found it. */
  ghost predicate EntriesBack<J(!new), U>(inner: Merge<U>, before: Option<map<J, U>>, now: Option<map<J, U>>,
                                          xs: seq<Option<map<J, U>>>) {
    forall j :: FoldKey(Some(inner), EntryOf(before, j), EntryOf(now, j), ColumnOf(xs, j)) == EntryOf(before, j)
  }

  lemma BackIsAlike<J(!new), U(!new)>(inner: Merge<U>, before: Option<map<J, U>>, now: Option<map<J, U>>,
                                      xs: seq<Option<map<J, U>>>)
    requires Total(inner)
    ensures EntriesBack(inner, before, now, xs) <==> Alike(map[], FoldKey(MapMerge(inner), before, now, xs), before)
  {
    var left := FoldKey(MapMerge(inner), before, now, xs);
    AlikeEntries(left, before);
    forall j ensures EntryOf(left, j)
        == FoldKey(Some(inner), EntryOf(before, j), EntryOf(now, j), ColumnOf(xs, j)) {
      MapFold(inner, before, now, xs, j);
    }
    hide FoldKey, MapMerge, Alike;
  }

  lemma EntrySeenIsSeen<J(!new), U(!new)>(inner: Merge<U>, before: Option<map<J, U>>, now: Option<map<J, U>>,
                                          xs: seq<Option<map<J, U>>>, j: J)
    requires Total(inner) && EntrySeen(inner, before, now, xs, j)
    ensures OrderSeen(MapMerge(inner), before, now, xs)
  {
    var was, held, f := EntryOf(before, j), EntryOf(now, j), (v: Option<map<J, U>>) => EntryOf(v, j);
    var vs :| multiset(vs) == multiset(ColumnOf(xs, j))
      && FoldKey(Some(inner), was, held, vs) != FoldKey(Some(inner), was, held, ColumnOf(xs, j));
    assert ColumnOf(xs, j) == Mapped(f, xs);
    var ys := MappedOrder(f, xs, vs);
    assert ColumnOf(ys, j) == vs;
    MapFold(inner, before, now, xs, j);
    MapFold(inner, before, now, ys, j);
  }

  /** Orders that leave the same entries and yet different values: one leaves the empty map, the other none. */
  lemma SameEntriesSeen<J(!new), U(!new)>(inner: Merge<U>, before: Option<map<J, U>>, now: Option<map<J, U>>,
                                          xs: seq<Option<map<J, U>>>, ys: seq<Option<map<J, U>>>)
    returns (i: nat, j: nat, rest: seq<Option<map<J, U>>>)
    requires Total(inner) && multiset(ys) == multiset(xs) && forall e :: !EntrySeen(inner, before, now, xs, e)
    requires FoldKey(MapMerge(inner), before, now, ys) != FoldKey(MapMerge(inner), before, now, xs)
    ensures Emptied(map[], before, xs, i, j) && multiset(rest) == multiset(Less(xs, i))
      && EntriesBack(inner, before, now, rest)
  {
    var merge := MapMerge(inner);
    var a, b := FoldKey(merge, before, now, xs), FoldKey(merge, before, now, ys);
    forall e ensures EntryOf(a, e) == EntryOf(b, e) {
      ColumnOfPermuted(xs, ys, e);
      assert !EntrySeen(inner, before, now, xs, e);
      MapFold(inner, before, now, xs, e);
      MapFold(inner, before, now, ys, e);
    }
    AlikeEntries(a, b);
    MapPrunes<J, U>(inner);
    hide MapMerge, Prunes, EntrySeen, EntriesBack;
    if a == Some(map[]) {
      i, j := EmptyIsUndone(merge.value, map[], before, now, xs, ys);
      rest := Less(xs, i);
    } else {
      var k, l := EmptyIsUndone(merge.value, map[], before, now, ys, xs);
      i, j := EmptiedAlike(map[], before, ys, xs, k, l);
      rest := Less(ys, k);
    }
    BackIsAlike(inner, before, now, rest);
  }

  /** What of an entry's values tells, for every order of them, that they undo each other. */
  type Restored<!U> = (Option<U>, Option<U>, seq<Option<U>>) -> bool

  ghost predicate Tells<U(!new)>(inner: Merge<U>, restored: Restored<U>, before: Option<U>, now: Option<U>,
                                 values: seq<Option<U>>) {
    forall vs | multiset(vs) == multiset(values) ::
      FoldKey(Some(inner), before, now, vs) == before <==> restored(before, now, values)
  }

  /** A fork stores the empty map, another something else, and at every entry the others undo each other. */
  ghost predicate MapShows<J(!new), U>(restored: Restored<U>, before: Option<map<J, U>>, now: Option<map<J, U>>,
                                       xs: seq<Option<map<J, U>>>) {
    exists i: nat, j: nat :: Emptied(map[], before, xs, i, j) && AllRestored(restored, before, now, Less(xs, i))
  }

  ghost predicate AllRestored<J(!new), U>(restored: Restored<U>, before: Option<map<J, U>>, now: Option<map<J, U>>,
                                          xs: seq<Option<map<J, U>>>) {
    forall e :: restored(EntryOf(before, e), EntryOf(now, e), ColumnOf(xs, e))
  }

  ghost predicate AllTell<J(!new), U(!new)>(inner: Merge<U>, restored: Restored<U>, before: Option<map<J, U>>,
                                            now: Option<map<J, U>>, xs: seq<Option<map<J, U>>>) {
    forall e :: Tells(inner, restored, EntryOf(before, e), EntryOf(now, e), ColumnOf(xs, e))
  }

  lemma TellsBack<J(!new), U(!new)>(inner: Merge<U>, restored: Restored<U>, before: Option<map<J, U>>,
                                    now: Option<map<J, U>>, xs: seq<Option<map<J, U>>>, ys: seq<Option<map<J, U>>>)
    requires AllTell(inner, restored, before, now, xs) && multiset(xs) == multiset(ys)
    ensures EntriesBack(inner, before, now, ys) <==> AllRestored(restored, before, now, xs)
  {
    forall e ensures FoldKey(Some(inner), EntryOf(before, e), EntryOf(now, e), ColumnOf(ys, e)) == EntryOf(before, e)
                <==> restored(EntryOf(before, e), EntryOf(now, e), ColumnOf(xs, e)) {
      ColumnOfPermuted(xs, ys, e);
      assert Tells(inner, restored, EntryOf(before, e), EntryOf(now, e), ColumnOf(xs, e));
    }
  }

  lemma SeenIsShown<J(!new), U(!new)>(inner: Merge<U>, restored: Restored<U>, before: Option<map<J, U>>,
                                      now: Option<map<J, U>>, xs: seq<Option<map<J, U>>>)
    requires Total(inner) && OrderSeen(MapMerge(inner), before, now, xs)
    requires forall e :: !EntrySeen(inner, before, now, xs, e)
    requires forall i: nat | i < |xs| && xs[i] == Some(map[]) :: AllTell(inner, restored, before, now, Less(xs, i))
    ensures MapShows(restored, before, now, xs)
  {
    hide EntrySeen, AllTell, AllRestored, EntriesBack, MapMerge, FoldKey;
    var ys :| multiset(ys) == multiset(xs)
      && FoldKey(MapMerge(inner), before, now, ys) != FoldKey(MapMerge(inner), before, now, xs);
    var i, j, rest := SameEntriesSeen(inner, before, now, xs, ys);
    TellsBack(inner, restored, before, now, Less(xs, i), rest);
  }

  lemma ShownIsSeen<J(!new), U(!new)>(inner: Merge<U>, restored: Restored<U>, before: Option<map<J, U>>,
                                      now: Option<map<J, U>>, xs: seq<Option<map<J, U>>>, i: nat, j: nat)
    requires Total(inner) && Emptied(map[], before, xs, i, j)
    requires AllTell(inner, restored, before, now, Less(xs, i)) && AllRestored(restored, before, now, Less(xs, i))
    ensures OrderSeen(MapMerge(inner), before, now, xs)
  {
    var merge := MapMerge<J, U>(inner);
    assert merge.Some?;
    hide AllTell, AllRestored, EntriesBack, MapMerge, FoldKey, OrderSeen, Prunes, Less, Alike;
    var rest := EmptiedLast(map[], before, xs, i, j);
    TellsBack(inner, restored, before, now, Less(xs, i), rest + [xs[j]]);
    BackIsAlike(inner, before, now, rest + [xs[j]]);
    MapPrunes<J, U>(inner);
    UndoneIsSeen(merge.value, map[], before, now, xs, rest, xs[j]);
  }

  /**
   * Some order of the forks leaves another map exactly when one leaves another entry, or the forks
   * beside a stored empty map undo each other.
   */
  lemma MapOrderMatters<J(!new), U(!new)>(inner: Merge<U>, restored: Restored<U>, before: Option<map<J, U>>,
                                          now: Option<map<J, U>>, xs: seq<Option<map<J, U>>>)
    requires Total(inner)
    requires (forall e :: !EntrySeen(inner, before, now, xs, e)) ==>
      forall i: nat | i < |xs| && xs[i] == Some(map[]) :: AllTell(inner, restored, before, now, Less(xs, i))
    ensures OrderSeen(MapMerge(inner), before, now, xs)
       <==> (exists e :: EntrySeen(inner, before, now, xs, e)) || MapShows(restored, before, now, xs)
  {
    hide EntrySeen, AllTell, AllRestored, OrderSeen, MapMerge;
    if e :| EntrySeen(inner, before, now, xs, e) {
      EntrySeenIsSeen(inner, before, now, xs, e);
    } else {
      if OrderSeen(MapMerge(inner), before, now, xs) {
        SeenIsShown(inner, restored, before, now, xs);
      }
      if i: nat, j: nat :| Emptied(map[], before, xs, i, j) && AllRestored(restored, before, now, Less(xs, i)) {
        ShownIsSeen(inner, restored, before, now, xs, i, j);
      }
    }
  }

  // ----- stored empties over nothing

  /** How many of the values store the empty value. */
  function Empties<V(==)>(empty: V, values: seq<Option<V>>): nat {
    multiset(values)[Some(empty)]
  }

  /** Over nothing, stored empties take each other away by twos. */
  predicate Even<V(==)>(empty: V, now: Option<V>, values: seq<Option<V>>) {
    Hollow(empty, now) && (Empties(empty, values) + if now == None then 0 else 1) % 2 == 0
  }

  lemma EvenNext<V>(empty: V, now: Option<V>, values: seq<Option<V>>, x: Option<V>)
    requires Hollow(empty, x)
    ensures Even(empty, now, values + [x])
       <==> if x == None then Even(empty, now, values) else Hollow(empty, now) && !Even(empty, now, values)
  {
    assert multiset(values + [x]) == multiset(values) + multiset{x};
  }

  lemma {:induction false} EvenFold<V(!new)>(merge: Merge<V>, empty: V, now: Option<V>, values: seq<Option<V>>)
    requires merge(Some(empty), None, Some(empty)) == Composed(None)
    requires !Hollow(empty, now) ==> merge(now, None, Some(empty)) == Composed(now)
    requires forall v | v in values :: Hollow(empty, v)
    ensures FoldKey(Some(merge), None, now, values) == None <==> Even(empty, now, values)
    ensures !Hollow(empty, now) ==> FoldKey(Some(merge), None, now, values) == now
    ensures Hollow(empty, now) ==> Hollow(empty, FoldKey(Some(merge), None, now, values))
    decreases |values|
  {
    if values != [] {
      var n := |values| - 1;
      var front, x := values[..n], values[n];
      assert values == front + [x] && x in values;
      EvenFold(merge, empty, now, front);
      FoldOne(Some(merge), None, now, front, x);
      EvenNext(empty, now, front, x);
      hide Even, FoldKey;
    }
  }

  // ----- maps of sets

  /** Forks of a set undo each other: none changed it, or they stored an even number of empty sets over nothing. */
  predicate SetRestored<T(==)>(before: Option<set<T>>, now: Option<set<T>>, values: seq<Option<set<T>>>) {
    if before == None then (forall v | v in values :: Hollow({}, v)) && Even({}, now, values)
    else now == before && forall v | v in values :: v == before
  }

  lemma SetRestores<T(!new)>(before: Option<set<T>>, now: Option<set<T>>, values: seq<Option<set<T>>>)
    ensures FoldKey(SetMerge(), before, now, values) == before <==> SetRestored(before, now, values)
  {
    var left := FoldKey(SetMerge(), before, now, values);
    SetFold(before, now, values);
    if v :| v in values && Elements(v) != Elements(before) {
      assert exists e :: e in Elements(v) <==> e !in Elements(before);
    } else if before == None {
      EvenFold(SetMerge<T>().value, {}, now, values);
    } else if forall v | v in values :: v == before {
      NoOps(SetMerge(), before, now, values);
    } else {
      assert before == Some({});
      if left == before {
        SetPrunes<T>();
        var i := EmptyLeft(SetMerge<T>().value, {}, before, now, values);
      }
    }
  }

  lemma SetPrunes<T(!new)>()
    ensures Prunes(SetMerge<T>().value, {})
  {
  }

  lemma SetTells<T(!new)>(before: Option<set<T>>, now: Option<set<T>>, values: seq<Option<set<T>>>)
    ensures Tells(SetMerge<T>().value, SetRestored, before, now, values)
  {
    forall vs | multiset(vs) == multiset(values)
      ensures FoldKey(SetMerge(), before, now, vs) == before <==> SetRestored(before, now, values)
    {
      SameElements(vs, values);
      SetRestores(before, now, vs);
    }
  }

  /**
   * Some order of forks of a map of sets leaves something else exactly when a fork stores the empty
   * map, another something else, and the others undo each other at every entry.
   */
  lemma SetMapOrderMatters<J(!new), T(!new)>(before: Option<map<J, set<T>>>, now: Option<map<J, set<T>>>,
                                             xs: seq<Option<map<J, set<T>>>>)
    ensures OrderSeen(MapMerge(SetMerge<T>().value), before, now, xs) <==> MapShows(SetRestored, before, now, xs)
  {
    var inner := SetMerge<T>().value;
    forall e ensures !EntrySeen(inner, before, now, xs, e) {
      SetEntryFree(before, now, xs, e);
    }
    forall i: nat | i < |xs| && xs[i] == Some(map[]) ensures AllTell(inner, SetRestored, before, now, Less(xs, i)) {
      forall e ensures Tells(inner, SetRestored, EntryOf(before, e), EntryOf(now, e), ColumnOf(Less(xs, i), e)) {
        SetTells(EntryOf(before, e), EntryOf(now, e), ColumnOf(Less(xs, i), e));
      }
    }
    hide EntrySeen, AllTell, OrderSeen, MapShows;
    MapOrderMatters(inner, SetRestored, before, now, xs);
  }

  lemma SetEntryFree<J(!new), T(!new)>(before: Option<map<J, set<T>>>, now: Option<map<J, set<T>>>,
                                       xs: seq<Option<map<J, set<T>>>>, e: J)
    ensures !EntrySeen(SetMerge<T>().value, before, now, xs, e)
  {
    var was, held, column := EntryOf(before, e), EntryOf(now, e), ColumnOf(xs, e);
    forall ys | multiset(ys) == multiset(column)
      ensures FoldKey(SetMerge(), was, held, ys) == FoldKey(SetMerge(), was, held, column)
    {
      SetOrderFree(was, held, ys, column);
    }
  }

  /** The order shows only where forks store both an empty map and a map with an empty set. */
  lemma SetMapShowsEmpties<J(!new), T(!new)>(before: Option<map<J, set<T>>>, now: Option<map<J, set<T>>>,
                                             xs: seq<Option<map<J, set<T>>>>)
    requires MapShows(SetRestored, before, now, xs)
    ensures Some(map[]) in xs && exists v, e :: v in xs && EntryOf(v, e) == Some({})
  {
    var i: nat, j: nat :| Emptied(map[], before, xs, i, j) && AllRestored(SetRestored, before, now, Less(xs, i));
    var e := ChangedEntry(before, xs, i, j);
    assert SetRestored(EntryOf(before, e), EntryOf(now, e), ColumnOf(Less(xs, i), e));
    assert xs[j] in xs && xs[i] in xs && EntryOf(xs[j], e) == Some({});
  }

  /** A map other than the empty one that differs from the one found differs at an entry. */
  lemma ChangedEntry<J(!new), U>(before: Option<map<J, U>>, xs: seq<Option<map<J, U>>>, i: nat, j: nat) returns (e: J)
    requires Emptied(map[], before, xs, i, j)
    ensures EntryOf(xs[j], e) != EntryOf(before, e) && EntryOf(xs[j], e) in ColumnOf(Less(xs, i), e)
  {
    AlikeEntries(xs[j], before);
    e :| EntryOf(xs[j], e) != EntryOf(before, e);
    var k := if j < i then j else j - 1;
    assert ColumnOf(Less(xs, i), e)[k] == EntryOf(xs[j], e);
  }

  /**
   * A stored empty map over a map of empty sets breaks it: the first fork's empty set is undone by
   * the second's, or not yet.
   */
  lemma StoredEmptyMapOrderMatters<J(!new), T(!new)>(j: J)
    ensures var merge := MapMerge<J, set<T>>(SetMerge<T>().value);
            var hollow, empty := Some(map[j := {}]), Some(map[]);
      FoldKey(merge, None, hollow, [hollow, empty]) == Some(map[]) && FoldKey(merge, None, hollow,
          [empty, hollow]) == None
  {
    var merge := MapMerge<J, set<T>>(SetMerge<T>().value);
    var hollow: Option<map<J, set<T>>>, empty: Option<map<J, set<T>>> := Some(map[j := {}]), Some(map[]);
    FoldOne(merge, None, hollow, [], hollow);
    FoldOne(merge, None, hollow, [hollow], empty);
    FoldOne(merge, None, hollow, [], empty);
    FoldOne(merge, None, hollow, [empty], hollow);
    assert [hollow, empty] == [hollow] + [empty] && [empty, hollow] == [empty] + [hollow];
    HollowUndone<J, T>(j);
  }

  lemma HollowUndone<J(!new), T(!new)>(j: J)
    ensures var hollow: Option<map<J, set<T>>> := Some(map[j := {}]);
      && MergeMap(SetMerge<T>().value, hollow, None, hollow) == Composed(None)
      && MergeMap(SetMerge<T>().value, hollow, None, Some(map[])) == Composed(hollow)
  {
    var inner := SetMerge<T>().value;
    var one: map<J, set<T>> := map[j := {}];
    NeverConflicts(inner, one, map[], one);
    NeverConflicts(inner, one, map[], map[]);
    forall k ensures Lookup(MergeMaps(Some(inner), one, map[], one), k) == None {
      MergeMapsLookup(Some(inner), one, map[], one, k);
    }
    forall k ensures Lookup(MergeMaps(Some(inner), one, map[], map[]), k) == Lookup(one, k) {
      MergeMapsLookup(Some(inner), one, map[], map[], k);
    }
    SameLookups(MergeMaps(Some(inner), one, map[], one), map[]);
    SameLookups(MergeMaps(Some(inner), one, map[], map[]), one);
    assert j in one;
  }

  // ----- maps of counts

  /**
   * Forks of a count undo each other: their changes bring it back to a count found; a zero found
   * stays only unchanged; and over nothing, stored zeros alone take each other away by twos.
   */
  predicate SumRestored(modulus: nat, before: Option<nat>, now: Option<nat>, values: seq<Option<nat>>) {
    if before == Some(0) then now == before && forall v | v in values :: v == before
    else if before == None && forall v | v in values :: Hollow(0, v) then Even(0, now, values)
    else Cancels(modulus, before, now, values)
  }

  /** The forks' changes bring the count back to the one they found. */
  predicate Cancels(modulus: nat, before: Option<nat>, now: Option<nat>, values: seq<Option<nat>>) {
    Add(modulus, Amount(now), Delta(modulus, before, values)) == Amount(before)
  }

  ghost function Restoring(modulus: nat): Restored<nat> {
    (before, now, values) => SumRestored(modulus, before, now, values)
  }

  lemma SumPrunes(modulus: nat)
    ensures Prunes(SumMerge(modulus).value, 0)
  {
  }

  ghost predicate AllWords(modulus: nat, before: Option<nat>, now: Option<nat>, values: seq<Option<nat>>) {
    Word(modulus, before) && Word(modulus, now) && forall v | v in values :: Word(modulus, v)
  }

  /** A zero found is left only by forks that change nothing. */
  lemma ZeroRestores(modulus: nat, now: Option<nat>, values: seq<Option<nat>>)
    ensures FoldKey(SumMerge(modulus), Some(0), now, values) == Some(0)
       <==> now == Some(0) && forall v | v in values :: v == Some(0)
  {
    hide FoldKey;
    if FoldKey(SumMerge(modulus), Some(0), now, values) == Some(0) {
      SumPrunes(modulus);
      var i := EmptyLeft(SumMerge(modulus).value, 0, Some(0), now, values);
    }
    if forall v | v in values :: v == Some(0) {
      NoOps(SumMerge(modulus), Some(0), now, values);
    }
  }

  /** Over nothing, forks that store more than zeros leave nothing when they cancel, unless their order shows. */
  lemma NothingRestores(modulus: nat, now: Option<nat>, values: seq<Option<nat>>, c: Option<nat>)
    requires AllWords(modulus, None, now, values) && c in values && !Hollow(0, c)
    requires !SumOrderShows(modulus, None, now, values)
    ensures FoldKey(SumMerge(modulus), None, now, values) == None <==> Cancels(modulus, None, now, values)
  {
    var left := FoldKey(SumMerge(modulus), None, now, values);
    SumFold(modulus, None, now, values);
    hide FoldKey, Delta, Add;
    if left == Some(0) {
      SumPrunes(modulus);
      var i := EmptyLeft(SumMerge(modulus).value, 0, None, now, values);
    }
  }

  lemma SumRestores(modulus: nat, before: Option<nat>, now: Option<nat>, values: seq<Option<nat>>)
    requires AllWords(modulus, before, now, values)
    requires before == None ==> !SumOrderShows(modulus, before, now, values)
    ensures FoldKey(SumMerge(modulus), before, now, values) == before <==> SumRestored(modulus, before, now, values)
  {
    hide FoldKey, Even, SumOrderShows, Delta, Add;
    if before == Some(0) {
      ZeroRestores(modulus, now, values);
    } else if before != None {
      SumFold(modulus, before, now, values);
    } else if c :| c in values && !Hollow(0, c) {
      NothingRestores(modulus, now, values, c);
    } else {
      ZerosMeet(modulus, now);
      EvenFold(SumMerge(modulus).value, 0, now, values);
    }
  }

  /** A stored zero is taken away by another and leaves any other word as it is. */
  lemma ZerosMeet(modulus: nat, now: Option<nat>)
    requires Word(modulus, now)
    ensures SumMerge(modulus).value(Some(0), None, Some(0)) == Composed(None)
    ensures !Hollow(0, now) ==> SumMerge(modulus).value(now, None, Some(0)) == Composed(now)
  {
  }

  /** Neither condition depends on the order of the values. */
  lemma ConditionsPermuted(modulus: nat, before: Option<nat>, now: Option<nat>, vs: seq<Option<nat>>,
                           values: seq<Option<nat>>)
    requires AllWords(modulus, before, now, values) && multiset(vs) == multiset(values)
    ensures AllWords(modulus, before, now, vs)
    ensures SumRestored(modulus, before, now, vs) <==> SumRestored(modulus, before, now, values)
    ensures SumOrderShows(modulus, before, now, vs) <==> SumOrderShows(modulus, before, now, values)
  {
    SameElements(vs, values);
    DeltaPermuted(modulus, before, vs, values);
    hide Add, Delta;
  }

  lemma SumTells(modulus: nat, before: Option<nat>, now: Option<nat>, values: seq<Option<nat>>)
    requires AllWords(modulus, before, now, values)
    requires before == None ==> !SumOrderShows(modulus, before, now, values)
    ensures Tells(SumMerge(modulus).value, Restoring(modulus), before, now, values)
  {
    hide SumRestored, SumOrderShows, AllWords, FoldKey;
    forall vs | multiset(vs) == multiset(values)
      ensures FoldKey(SumMerge(modulus), before, now, vs) == before <==> SumRestored(modulus, before, now, values)
    {
      ConditionsPermuted(modulus, before, now, vs, values);
      SumRestores(modulus, before, now, vs);
    }
  }

  /** Words at every entry. */
  ghost predicate EntriesAreWords<J(!new)>(modulus: nat, before: Option<map<J, nat>>, now: Option<map<J, nat>>,
                                           xs: seq<Option<map<J, nat>>>) {
    forall e :: AllWords(modulus, EntryOf(before, e), EntryOf(now, e), ColumnOf(xs, e))
  }

  /** Beside a stored empty map, an entry found absent shows its order only if it does with it. */
  lemma ShowsBesideEmpty<J(!new)>(modulus: nat, now: Option<nat>, xs: seq<Option<map<J, nat>>>, i: nat, e: J)
    requires i < |xs| && xs[i] == Some(map[]) && AllWords(modulus, None, now, ColumnOf(xs, e))
    requires SumOrderShows(modulus, None, now, ColumnOf(Less(xs, i), e))
    ensures SumOrderShows(modulus, None, now, ColumnOf(xs, e))
  {
    var column := ColumnOf(xs, e);
    ColumnOfLess(xs, i, e);
    LessAmong(column, i);
    LessPermutes(column, i);
    var moved := [column[i]] + Less(column, i);
    assert multiset(moved) == multiset(column) && moved[1..] == Less(column, i);
    DeltaPermuted(modulus, None, column, moved);
    DeltaIsWord(modulus, None, Less(column, i));
  }

  lemma SumEntryTells<J(!new)>(modulus: nat, before: Option<map<J, nat>>, now: Option<map<J, nat>>,
                               xs: seq<Option<map<J, nat>>>, i: nat, e: J)
    requires EntriesAreWords(modulus, before, now, xs) && i < |xs| && xs[i] == Some(map[])
    requires !SumOrderShows(modulus, EntryOf(before, e), EntryOf(now, e), ColumnOf(xs, e))
    ensures Tells(SumMerge(modulus).value, Restoring(modulus), EntryOf(before, e),
                  EntryOf(now, e), ColumnOf(Less(xs, i), e))
  {
    assert AllWords(modulus, EntryOf(before, e), EntryOf(now, e), ColumnOf(xs, e));
    ColumnOfLess(xs, i, e);
    LessAmong(ColumnOf(xs, e), i);
    if EntryOf(before, e) == None && SumOrderShows(modulus, None, EntryOf(now, e), ColumnOf(Less(xs, i), e)) {
      ShowsBesideEmpty(modulus, EntryOf(now, e), xs, i, e);
    }
    SumTells(modulus, EntryOf(before, e), EntryOf(now, e), ColumnOf(Less(xs, i), e));
  }

  /** Some order of the forks shows at an entry, or in a stored empty map. */
  ghost predicate SumMapShows<J(!new)>(modulus: nat, before: Option<map<J, nat>>, now: Option<map<J, nat>>,
                                       xs: seq<Option<map<J, nat>>>) {
    || (exists e :: SumOrderShows(modulus, EntryOf(before, e), EntryOf(now, e), ColumnOf(xs, e)))
    || MapShows(Restoring(modulus), before, now, xs)
  }

  /**
   * Some order of forks of a map of counts, zeros stored or not, leaves something else exactly when
   * an entry's order shows, or a fork stores the empty map, another something else, and the others
   * undo each other at every entry.
   */
  lemma SumMapOrderMatters<J(!new)>(modulus: nat, before: Option<map<J, nat>>, now: Option<map<J, nat>>,
                                    xs: seq<Option<map<J, nat>>>)
    requires EntriesAreWords(modulus, before, now, xs)
    ensures OrderSeen(MapMerge(SumMerge(modulus).value), before, now, xs) <==> SumMapShows(modulus, before, now, xs)
  {
    var inner, restored: Restored<nat> := SumMerge(modulus).value, Restoring(modulus);
    forall e ensures EntrySeen(inner, before, now, xs, e)
                <==> SumOrderShows(modulus, EntryOf(before, e), EntryOf(now, e), ColumnOf(xs, e)) {
      assert AllWords(modulus, EntryOf(before, e), EntryOf(now, e), ColumnOf(xs, e));
      SumOrderMatters(modulus, EntryOf(before, e), EntryOf(now, e), ColumnOf(xs, e));
    }
    hide EntrySeen, OrderSeen, MapShows, SumOrderShows, Tells;
    if forall e :: !EntrySeen(inner, before, now, xs, e) {
      forall i: nat | i < |xs| && xs[i] == Some(map[]) ensures AllTell(inner, restored, before, now, Less(xs, i)) {
        forall e ensures Tells(inner, restored, EntryOf(before, e), EntryOf(now, e), ColumnOf(Less(xs, i), e)) {
          assert !EntrySeen(inner, before, now, xs, e);
          SumEntryTells(modulus, before, now, xs, i, e);
        }
      }
    }
    hide AllTell;
    MapOrderMatters(inner, restored, before, now, xs);
  }

  ghost predicate AllCounts(modulus: nat, before: Option<nat>, now: Option<nat>, values: seq<Option<nat>>) {
    AllWords(modulus, before, now, values) && before != Some(0) && now != Some(0) && Some(0) !in values
  }

  /** Where no zero is stored, forks of a count undo each other exactly when their changes add up to none. */
  lemma CountRestored(modulus: nat, before: Option<nat>, now: Option<nat>, values: seq<Option<nat>>)
    requires AllCounts(modulus, before, now, values)
    ensures SumRestored(modulus, before, now, values) <==> Cancels(modulus, before, now, values)
  {
    if before == None && forall v | v in values :: Hollow(0, v) {
      NoDelta(modulus, values);
      assert multiset(values)[Some(0)] == 0;
    }
  }

  lemma NoDelta(modulus: nat, values: seq<Option<nat>>)
    requires modulus > 0 && forall v | v in values :: v == None
    ensures Delta(modulus, None, values) == 0
  {
    if values != [] {
      assert values[0] in values;
      forall v | v in values[1..] ensures v == None {
        assert v in values;
      }
      NoDelta(modulus, values[1..]);
    }
  }

  /** A fork stores the empty map, another something else, and the others' changes add up to none at every entry. */
  ghost predicate CountsCancel<J(!new)>(modulus: nat, before: Option<map<J, nat>>, now: Option<map<J, nat>>,
                                        xs: seq<Option<map<J, nat>>>) {
    exists i: nat, j: nat :: Emptied(map[], before, xs, i, j)
      && forall e :: Cancels(modulus, EntryOf(before, e), EntryOf(now, e), ColumnOf(Less(xs, i), e))
  }

  /** Where no zero is stored, that is exactly when some order leaves something else. */
  lemma CountMapOrderMatters<J(!new)>(modulus: nat, before: Option<map<J, nat>>, now: Option<map<J, nat>>,
                                      xs: seq<Option<map<J, nat>>>)
    requires forall e :: AllCounts(modulus, EntryOf(before, e), EntryOf(now, e), ColumnOf(xs, e))
    ensures OrderSeen(MapMerge(SumMerge(modulus).value), before, now, xs) <==> CountsCancel(modulus, before, now, xs)
  {
    forall e ensures !SumOrderShows(modulus, EntryOf(before, e), EntryOf(now, e), ColumnOf(xs, e)) {
      assert AllCounts(modulus, EntryOf(before, e), EntryOf(now, e), ColumnOf(xs, e));
    }
    forall i: nat, e | i < |xs|
      ensures Restoring(modulus)(EntryOf(before, e), EntryOf(now, e), ColumnOf(Less(xs, i), e))
         <==> Cancels(modulus, EntryOf(before, e), EntryOf(now, e), ColumnOf(Less(xs, i), e))
    {
      assert AllCounts(modulus, EntryOf(before, e), EntryOf(now, e), ColumnOf(xs, e));
      ColumnOfLess(xs, i, e);
      LessAmong(ColumnOf(xs, e), i);
      CountRestored(modulus, EntryOf(before, e), EntryOf(now, e), ColumnOf(Less(xs, i), e));
    }
    hide OrderSeen, SumOrderShows, Cancels, Less, ColumnOf;
    SumMapOrderMatters(modulus, before, now, xs);
  }

  /**
   * No zero is needed for it: over nothing, two forks whose counts wrap around to none and a third
   * that stores the empty map leave the empty map or nothing, by which is last.
   */
  lemma CancelledCountsOrderMatters<J(!new)>(modulus: nat, j: J)
    requires modulus >= 2
    ensures var merge := MapMerge<J, nat>(SumMerge(modulus).value);
            var one, most, empty := Some(map[j := 1]), Some(map[j := modulus - 1]), Some(map[]);
      && FoldKey<map<J, nat>>(merge, None, None, [one, most, empty]) == Some(map[])
      && FoldKey<map<J, nat>>(merge, None, None, [empty, one, most]) == None
  {
    var merge := MapMerge<J, nat>(SumMerge(modulus).value);
    var one: Option<map<J, nat>>, most: Option<map<J, nat>> := Some(map[j := 1]), Some(map[j := modulus - 1]);
    var empty: Option<map<J, nat>> := Some(map[]);
    CountsMeet(modulus, j);
    hide MergeMap, FoldKey, SumMerge;
    FoldOne(merge, None, None, [], one);
    FoldOne(merge, None, None, [one], most);
    FoldOne(merge, None, None, [one] + [most], empty);
    FoldOne(merge, None, None, [], empty);
    FoldOne(merge, None, None, [empty], one);
    FoldOne(merge, None, None, [empty] + [one], most);
    assert [one, most, empty] == [one] + [most] + [empty] && [empty, one, most] == [empty] + [one] + [most];
  }

  lemma CountsMeet<J(!new)>(modulus: nat, j: J)
    requires modulus >= 2
    ensures var inner := SumMerge(modulus).value;
            var one: map<J, nat>, most: map<J, nat> := map[j := 1], map[j := modulus - 1];
      && MergeMap(inner, Some(one), None, Some(most)) == Composed(None)
      && MergeMap(inner, Some(map[]), None, Some(one)) == Composed(Some(one))
  {
    var inner := SumMerge(modulus).value;
    var one: map<J, nat>, most: map<J, nat> := map[j := 1], map[j := modulus - 1];
    NeverConflicts(inner, one, map[], most);
    NeverConflicts(inner, map[], map[], one);
    forall k ensures Lookup(MergeMaps(Some(inner), one, map[], most), k) == None {
      MergeMapsLookup(Some(inner), one, map[], most, k);
    }
    forall k ensures Lookup(MergeMaps(Some(inner), map[], map[], one), k) == Lookup(one, k) {
      MergeMapsLookup(Some(inner), map[], map[], one, k);
    }
    SameLookups(MergeMaps(Some(inner), one, map[], most), map[]);
    SameLookups(MergeMaps(Some(inner), map[], map[], one), one);
    assert j in one;
  }
}
