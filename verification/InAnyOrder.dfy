/**
 * Whole supersteps in any order: what the merges of counts, of sets and of
 * maps of either leave of an index, whatever order its forks are taken in.
 */
module InAnyOrder {
  import opened Options
  import opened ThreeWay
  import opened Permutations
  import opened Pruning
  import opened MergeAlgebra
  import opened MapOrders

  // ----- counts

  /** A map of words below `modulus`. */
  ghost predicate Words<K>(modulus: nat, m: map<K, nat>) {
    forall k | k in m :: m[k] < modulus
  }

  lemma WordColumn<K(!new)>(modulus: nat, before: map<K, nat>, now: map<K, nat>, xs: seq<map<K, nat>>, k: K)
    requires modulus > 0 && Words(modulus, before) && Words(modulus, now) && forall m | m in xs :: Words(modulus, m)
    ensures Word(modulus, Lookup(now, k)) && Word(modulus, Lookup(before, k))
      && forall v | v in Column(xs, k) :: Word(modulus, v)
  {
    forall v | v in Column(xs, k) ensures Word(modulus, v) {
      var i :| 0 <= i < |xs| && Column(xs, k)[i] == v;
      assert xs[i] in xs;
    }
  }

  /** Counts: every order adds up every fork's change and never conflicts. */
  lemma CountsAddUp<K(!new)>(modulus: nat, before: map<K, nat>, now: map<K, nat>, xs: seq<map<K, nat>>)
    requires modulus > 0 && Words(modulus, before) && Words(modulus, now) && forall m | m in xs :: Words(modulus, m)
    ensures forall k :: Amount(Lookup(FoldMaps(SumMerge(modulus), before, now, xs), k))
                     == Add(modulus, Amount(Lookup(now, k)), Delta(modulus, Lookup(before, k), Column(xs, k)))
    ensures forall i: nat | i < |xs| :: !ForkConflicts(SumMerge(modulus), before, now, xs, i)
  {
    forall k ensures Amount(Lookup(FoldMaps(SumMerge(modulus), before, now, xs), k))
                  == Add(modulus, Amount(Lookup(now, k)), Delta(modulus, Lookup(before, k), Column(xs, k))) {
      WordColumn(modulus, before, now, xs, k);
      FoldMapsByKey(SumMerge(modulus), before, now, xs, k);
      SumFold(modulus, Lookup(before, k), Lookup(now, k), Column(xs, k));
    }
    TotalNeverConflicts(SumMerge(modulus).value, before, now, xs);
  }

  /**
   * Some order leaves another index exactly when, at some key, a fork stores a zero, another
   * changes to something else, and all add up to nothing.
   */
  lemma CountsOrderMatters<K(!new)>(modulus: nat, before: map<K, nat>, now: map<K, nat>, xs: seq<map<K, nat>>)
    requires modulus > 0 && Words(modulus, before) && Words(modulus, now) && forall m | m in xs :: Words(modulus, m)
    ensures IndexOrderSeen(SumMerge(modulus), before, now, xs)
       <==> (exists k :: SumOrderShows(modulus, Lookup(before, k), Lookup(now, k), Column(xs, k)))
  {
    forall k ensures OrderSeen(SumMerge(modulus), Lookup(before, k), Lookup(now, k), Column(xs, k))
                <==> SumOrderShows(modulus, Lookup(before, k), Lookup(now, k), Column(xs, k)) {
      WordColumn(modulus, before, now, xs, k);
      SumOrderMatters(modulus, Lookup(before, k), Lookup(now, k), Column(xs, k));
    }
    hide OrderSeen, SumOrderShows, IndexOrderSeen;
    IndexOrderMatters(SumMerge(modulus), before, now, xs);
  }

  /** Forks that store no zero leave the same index of counts in every order. */
  lemma CountsInAnyOrder<K(!new)>(modulus: nat, before: map<K, nat>, now: map<K, nat>, xs: seq<map<K, nat>>,
                                  ys: seq<map<K, nat>>)
    requires modulus > 0 && Words(modulus, before) && Words(modulus, now) && forall m | m in xs :: Words(modulus, m)
    requires multiset(xs) == multiset(ys) && forall m, k | m in xs && k in m :: m[k] != 0
    ensures FoldMaps(SumMerge(modulus), before, now, xs) == FoldMaps(SumMerge(modulus), before, now, ys)
  {
    forall k ensures !SumOrderShows(modulus, Lookup(before, k), Lookup(now, k), Column(xs, k)) {
      NoZeroInColumn(xs, k);
    }
    hide SumOrderShows, FoldMaps, Words;
    CountsOrderMatters(modulus, before, now, xs);
  }

  lemma NoZeroInColumn<K>(xs: seq<map<K, nat>>, k: K)
    requires forall m, j | m in xs && j in m :: m[j] != 0
    ensures Some(0) !in Column(xs, k)
  {
    forall i | 0 <= i < |xs| ensures Column(xs, k)[i] != Some(0) {
      assert xs[i] in xs;
    }
  }

  // ----- sets

  /** What forks of a set leave: what was there and what any added, less what any dropped. */
  ghost predicate AllChanges<T(!new)>(before: Option<set<T>>, now: Option<set<T>>, values: seq<Option<set<T>>>,
                                      left: Option<set<T>>) {
    forall e :: e in Elements(left) <==> (e in Elements(now) || Added(before, values, e)) && !Dropped(before, values, e)
  }

  /**
   * Sets: every order leaves the same index, each key all additions and no removal, and never
   * conflicts, whatever is stored.
   */
  lemma SetsInAnyOrder<K(!new), T(!new)>(before: map<K, set<T>>, now: map<K, set<T>>, xs: seq<map<K, set<T>>>,
                                         ys: seq<map<K, set<T>>>)
    requires multiset(xs) == multiset(ys)
    ensures FoldMaps(SetMerge(), before, now, xs) == FoldMaps(SetMerge(), before, now, ys)
    ensures forall k ::
            AllChanges(Lookup(before, k), Lookup(now, k), Column(xs, k),
                Lookup(FoldMaps(SetMerge(), before, now, xs), k))
    ensures forall i: nat | i < |xs| :: !ForkConflicts(SetMerge(), before, now, xs, i)
  {
    forall k
      ensures FoldKey(SetMerge(), Lookup(before, k), Lookup(now, k), Column(xs, k))
           == FoldKey(SetMerge(), Lookup(before, k), Lookup(now, k), Column(ys, k))
      ensures AllChanges(Lookup(before, k), Lookup(now, k), Column(xs, k),
          Lookup(FoldMaps(SetMerge(), before, now, xs), k))
    {
      ColumnPermuted(xs, ys, k);
      SetOrderFree(Lookup(before, k), Lookup(now, k), Column(xs, k), Column(ys, k));
      FoldMapsByKey(SetMerge(), before, now, xs, k);
      SetFold(Lookup(before, k), Lookup(now, k), Column(xs, k));
    }
    SameFolds(SetMerge(), before, now, xs, ys);
    TotalNeverConflicts(SetMerge<T>().value, before, now, xs);
  }

  // ----- maps of mergeable values

  /** The entry `j` of key `k` in every fork. */
  ghost function EntryColumn<K, J, U>(xs: seq<map<K, map<J, U>>>, k: K, j: J): seq<Option<U>> {
    ColumnOf(Column(xs, k), j)
  }

  ghost function EntryAt<K, J, U>(m: map<K, map<J, U>>, k: K, j: J): Option<U> {
    EntryOf(Lookup(m, k), j)
  }

  /** An index of maps folds entry by entry and never conflicts when the inner merge never refuses. */
  lemma MapsByEntry<K(!new), J(!new), U(!new)>(inner: Merge<U>, before: map<K, map<J, U>>, now: map<K, map<J, U>>,
                                               xs: seq<map<K, map<J, U>>>)
    requires Total(inner)
    ensures forall k, j :: EntryAt(FoldMaps(MapMerge(inner), before, now, xs), k, j)
                        == FoldKey(Some(inner), EntryAt(before, k, j), EntryAt(now, k, j), EntryColumn(xs, k, j))
    ensures forall i: nat | i < |xs| :: !ForkConflicts(MapMerge(inner), before, now, xs, i)
  {
    forall k, j ensures EntryAt(FoldMaps(MapMerge(inner), before, now, xs), k, j)
                     == FoldKey(Some(inner), EntryAt(before, k, j), EntryAt(now, k, j), EntryColumn(xs, k, j)) {
      FoldMapsByKey(MapMerge(inner), before, now, xs, k);
      MapFold(inner, Lookup(before, k), Lookup(now, k), Column(xs, k), j);
    }
    MapPrunes<J, U>(inner);
    TotalNeverConflicts(MapMerge<J, U>(inner).value, before, now, xs);
  }

  // ----- maps of sets

  /**
   * Some order leaves another index of maps of sets exactly when, at some key, a fork stores the
   * empty map, another something else, and the others undo each other at every entry.
   */
  lemma MapsOfSetsOrderMatters<K(!new), J(!new), T(!new)>(before: map<K, map<J, set<T>>>, now: map<K, map<J, set<T>>>,
                                                         xs: seq<map<K, map<J, set<T>>>>)
    ensures IndexOrderSeen(MapMerge(SetMerge<T>().value), before, now, xs)
       <==> exists k :: MapShows(SetRestored, Lookup(before, k), Lookup(now, k), Column(xs, k))
  {
    var merge := MapMerge<J, set<T>>(SetMerge<T>().value);
    forall k ensures OrderSeen(merge, Lookup(before, k), Lookup(now, k), Column(xs, k))
                <==> MapShows(SetRestored, Lookup(before, k), Lookup(now, k), Column(xs, k)) {
      SetMapOrderMatters(Lookup(before, k), Lookup(now, k), Column(xs, k));
    }
    hide OrderSeen, MapShows, IndexOrderSeen;
    IndexOrderMatters(merge, before, now, xs);
  }

  /** No fork stores an empty map, or none an empty set. */
  ghost predicate NoEmpties<K(!new), J(!new), T>(xs: seq<map<K, map<J, set<T>>>>) {
    || (forall m, k | m in xs && k in m :: m[k] != map[])
    || (forall m, k, j | m in xs && k in m && j in m[k] :: m[k][j] != {})
  }

  lemma NoEmptiesAtKey<K(!new), J(!new), T(!new)>(before: map<K, map<J, set<T>>>, now: map<K, map<J, set<T>>>,
                                                  xs: seq<map<K, map<J, set<T>>>>, k: K)
    requires NoEmpties(xs)
    ensures !MapShows(SetRestored, Lookup(before, k), Lookup(now, k), Column(xs, k))
  {
    forall v | v in Column(xs, k)
      ensures (forall m, l | m in xs && l in m :: m[l] != map[]) ==> v != Some(map[])
      ensures (forall m, l, j | m in xs && l in m && j in m[l] :: m[l][j] != {}) ==>
                forall j :: EntryOf(v, j) != Some({})
    {
      var i :| 0 <= i < |xs| && Column(xs, k)[i] == v;
      assert xs[i] in xs;
    }
    if MapShows(SetRestored, Lookup(before, k), Lookup(now, k), Column(xs, k)) {
      SetMapShowsEmpties(Lookup(before, k), Lookup(now, k), Column(xs, k));
    }
  }

  /**
   * Maps of sets, whatever sets are stored: all additions and no removal of every entry in every
   * order, no conflict, and the same index when no fork stores an empty map, or none an empty set.
   */
  lemma MapsOfSetsInAnyOrder<K(!new), J(!new), T(!new)>(before: map<K, map<J, set<T>>>, now: map<K, map<J, set<T>>>,
                                                       xs: seq<map<K, map<J, set<T>>>>, ys: seq<map<K, map<J, set<T>>>>)
    requires multiset(xs) == multiset(ys)
    ensures var merge := MapMerge(SetMerge<T>().value);
      && (forall k, j :: AllChanges(EntryAt(before, k, j), EntryAt(now, k, j), EntryColumn(xs, k, j),
          EntryAt(FoldMaps(merge, before, now, xs), k, j)))
      && (forall i: nat | i < |xs| :: !ForkConflicts(merge, before, now, xs, i))
      && (NoEmpties(xs) ==> FoldMaps(merge, before, now, xs) == FoldMaps(merge, before, now, ys))
  {
    var inner := SetMerge<T>().value;
    MapsByEntry(inner, before, now, xs);
    forall k, j
      ensures AllChanges(EntryAt(before, k, j), EntryAt(now, k, j), EntryColumn(xs, k, j),
          EntryAt(FoldMaps(MapMerge(inner), before, now, xs), k, j))
    {
      SetFold(EntryAt(before, k, j), EntryAt(now, k, j), EntryColumn(xs, k, j));
    }
    if NoEmpties(xs) {
      forall k ensures !MapShows(SetRestored, Lookup(before, k), Lookup(now, k), Column(xs, k)) {
        NoEmptiesAtKey(before, now, xs, k);
      }
      hide MapShows;
      MapsOfSetsOrderMatters(before, now, xs);
    }
  }

  // ----- maps of counts

  /** An index of maps of words, zeros stored or not. */
  ghost predicate WordMaps<K, J>(modulus: nat, m: map<K, map<J, nat>>) {
    forall k, j | k in m && j in m[k] :: m[k][j] < modulus
  }

  ghost predicate NoZeros<K, J>(m: map<K, map<J, nat>>) {
    forall k, j | k in m && j in m[k] :: m[k][j] != 0
  }

  lemma WordEntries<K(!new), J(!new)>(modulus: nat, before: map<K, map<J, nat>>, now: map<K, map<J, nat>>,
                                      xs: seq<map<K, map<J, nat>>>, k: K, j: J)
    requires modulus > 0 && WordMaps(modulus, before) && WordMaps(modulus, now)
      && forall m | m in xs :: WordMaps(modulus, m)
    ensures AllWords(modulus, EntryAt(before, k, j), EntryAt(now, k, j), EntryColumn(xs, k, j))
  {
    forall v | v in EntryColumn(xs, k, j) ensures Word(modulus, v) {
      var i :| 0 <= i < |xs| && EntryColumn(xs, k, j)[i] == v;
      assert xs[i] in xs && v == EntryAt(xs[i], k, j);
    }
  }

  lemma NoZeroEntries<K(!new), J(!new)>(xs: seq<map<K, map<J, nat>>>, k: K, j: J)
    requires forall m | m in xs :: NoZeros(m)
    ensures Some(0) !in EntryColumn(xs, k, j)
  {
    forall i | 0 <= i < |xs| ensures EntryColumn(xs, k, j)[i] != Some(0) {
      assert xs[i] in xs && EntryColumn(xs, k, j)[i] == EntryAt(xs[i], k, j);
    }
  }

  /**
   * Some order leaves another index of maps of counts exactly when, at some key, an entry's order
   * shows, or a fork stores the empty map, another something else, and the others undo each other at
   * every entry.
   */
  lemma MapsOfCountsOrderMatters<K(!new), J(!new)>(modulus: nat, before: map<K, map<J, nat>>,
                                                   now: map<K, map<J, nat>>, xs: seq<map<K, map<J, nat>>>)
    requires modulus > 0 && WordMaps(modulus, before) && WordMaps(modulus, now)
      && forall m | m in xs :: WordMaps(modulus, m)
    ensures IndexOrderSeen(MapMerge(SumMerge(modulus).value), before, now, xs)
       <==> exists k :: SumMapShows(modulus, Lookup(before, k), Lookup(now, k), Column(xs, k))
  {
    var merge := MapMerge<J, nat>(SumMerge(modulus).value);
    forall k ensures OrderSeen(merge, Lookup(before, k), Lookup(now, k), Column(xs, k))
                <==> SumMapShows(modulus, Lookup(before, k), Lookup(now, k), Column(xs, k)) {
      forall j ensures AllWords(modulus, EntryOf(Lookup(before, k), j), EntryOf(Lookup(now, k), j),
          ColumnOf(Column(xs, k), j)) {
        WordEntries(modulus, before, now, xs, k, j);
      }
      SumMapOrderMatters(modulus, Lookup(before, k), Lookup(now, k), Column(xs, k));
    }
    hide OrderSeen, SumMapShows, IndexOrderSeen;
    IndexOrderMatters(merge, before, now, xs);
  }

  /** Where no zero is stored: exactly when, beside a stored empty map, the others' changes add up to none. */
  lemma MapsOfPositiveCountsOrderMatters<K(!new), J(!new)>(modulus: nat, before: map<K, map<J, nat>>,
                                                           now: map<K, map<J, nat>>, xs: seq<map<K, map<J, nat>>>)
    requires modulus > 0 && WordMaps(modulus, before) && WordMaps(modulus, now)
      && forall m | m in xs :: WordMaps(modulus, m)
    requires NoZeros(before) && NoZeros(now) && forall m | m in xs :: NoZeros(m)
    ensures IndexOrderSeen(MapMerge(SumMerge(modulus).value), before, now, xs)
       <==> exists k :: CountsCancel(modulus, Lookup(before, k), Lookup(now, k), Column(xs, k))
  {
    var merge := MapMerge<J, nat>(SumMerge(modulus).value);
    forall k ensures OrderSeen(merge, Lookup(before, k), Lookup(now, k), Column(xs, k))
                <==> CountsCancel(modulus, Lookup(before, k), Lookup(now, k), Column(xs, k)) {
      forall j ensures AllCounts(modulus, EntryOf(Lookup(before, k), j), EntryOf(Lookup(now, k), j),
          ColumnOf(Column(xs, k), j)) {
        WordEntries(modulus, before, now, xs, k, j);
        NoZeroEntries(xs, k, j);
      }
      CountMapOrderMatters(modulus, Lookup(before, k), Lookup(now, k), Column(xs, k));
    }
    hide OrderSeen, CountsCancel, IndexOrderSeen;
    IndexOrderMatters(merge, before, now, xs);
  }

  /** The words an order leaves: each entry its start plus all changes. */
  ghost predicate AddedUp<K(!new), J(!new)>(modulus: nat, before: map<K, map<J, nat>>, now: map<K, map<J, nat>>,
                                            xs: seq<map<K, map<J, nat>>>, left: map<K, map<J, nat>>) {
    forall k, j ::
      Amount(EntryAt(left, k, j))
      == Add(modulus, Amount(EntryAt(now, k, j)), Delta(modulus, EntryAt(before, k, j), EntryColumn(xs, k, j)))
  }

  lemma CountEntries<K(!new), J(!new)>(modulus: nat, before: map<K, map<J, nat>>, now: map<K, map<J, nat>>,
                                       xs: seq<map<K, map<J, nat>>>)
    requires modulus > 0 && WordMaps(modulus, before) && WordMaps(modulus, now)
      && forall m | m in xs :: WordMaps(modulus, m)
    ensures var left := FoldMaps(MapMerge(SumMerge(modulus).value), before, now, xs);
      && AddedUp(modulus, before, now, xs, left)
      && (forall k, j | EntryAt(now, k, j) != Some(0) && Some(0) !in EntryColumn(xs, k, j) ::
            EntryAt(left, k, j) != Some(0))
  {
    var inner := SumMerge(modulus).value;
    MapsByEntry(inner, before, now, xs);
    var left := FoldMaps(MapMerge(inner), before, now, xs);
    hide FoldMaps;
    forall k, j
      ensures Amount(EntryAt(left, k, j))
           == Add(modulus, Amount(EntryAt(now, k, j)), Delta(modulus, EntryAt(before, k, j), EntryColumn(xs, k, j)))
      ensures EntryAt(now, k, j) != Some(0) && Some(0) !in EntryColumn(xs, k, j) ==> EntryAt(left, k, j) != Some(0)
    {
      WordEntries(modulus, before, now, xs, k, j);
      SumFold(modulus, EntryAt(before, k, j), EntryAt(now, k, j), EntryColumn(xs, k, j));
    }
  }

  /** An index all whose entries read other than zero stores none. */
  lemma NoZeroRead<K(!new), J(!new)>(m: map<K, map<J, nat>>)
    ensures NoZeros(m) <==> forall k, j :: EntryAt(m, k, j) != Some(0)
  {
    if forall k, j :: EntryAt(m, k, j) != Some(0) {
      forall k, j | k in m && j in m[k] ensures m[k][j] != 0 {
        assert EntryAt(m, k, j) == Some(m[k][j]);
      }
    }
  }

  /** Forks that store neither a zero nor an empty map hide their order at every key. */
  lemma QuietCounts<K(!new), J(!new)>(modulus: nat, before: map<K, map<J, nat>>, now: map<K, map<J, nat>>,
                                      xs: seq<map<K, map<J, nat>>>, k: K)
    requires (forall m | m in xs :: NoZeros(m)) && forall m, l | m in xs && l in m :: m[l] != map[]
    ensures !SumMapShows(modulus, Lookup(before, k), Lookup(now, k), Column(xs, k))
  {
    forall j ensures Some(0) !in ColumnOf(Column(xs, k), j) {
      NoZeroEntries(xs, k, j);
    }
    forall i | 0 <= i < |xs| ensures Column(xs, k)[i] != Some(map[]) {
      assert xs[i] in xs;
    }
  }

  /**
   * Maps of counts, whatever zeros are stored: every entry its start plus all changes in every order
   * and no conflict. Forks that store no zero leave none where the index held none; those that store
   * no empty map either leave the same index in every order.
   */
  lemma MapsOfCountsInAnyOrder<K(!new), J(!new)>(modulus: nat, before: map<K, map<J, nat>>, now: map<K, map<J, nat>>,
                                                xs: seq<map<K, map<J, nat>>>, ys: seq<map<K, map<J, nat>>>)
    requires modulus > 0 && WordMaps(modulus, before) && WordMaps(modulus, now)
      && forall m | m in xs :: WordMaps(modulus, m)
    requires multiset(xs) == multiset(ys)
    ensures var merge := MapMerge(SumMerge(modulus).value);
      && AddedUp(modulus, before, now, xs, FoldMaps(merge, before, now, xs))
      && (forall i: nat | i < |xs| :: !ForkConflicts(merge, before, now, xs, i))
      && (NoZeros(now) && (forall m | m in xs :: NoZeros(m)) ==> NoZeros(FoldMaps(merge, before, now, xs)))
      && ((forall m | m in xs :: NoZeros(m)) && (forall m, k | m in xs && k in m :: m[k] != map[])
          ==> FoldMaps(merge, before, now, xs) == FoldMaps(merge, before, now, ys))
  {
    var left := FoldMaps(MapMerge(SumMerge(modulus).value), before, now, xs);
    MapsByEntry(SumMerge(modulus).value, before, now, xs);
    CountEntries(modulus, before, now, xs);
    if forall m | m in xs :: NoZeros(m) {
      forall k, j ensures Some(0) !in EntryColumn(xs, k, j) {
        NoZeroEntries(xs, k, j);
      }
      NoZeroRead(now);
      NoZeroRead(left);
      if forall m, k | m in xs && k in m :: m[k] != map[] {
        forall k ensures !SumMapShows(modulus, Lookup(before, k), Lookup(now, k), Column(xs, k)) {
          QuietCounts(modulus, before, now, xs, k);
        }
        hide SumMapShows;
        MapsOfCountsOrderMatters(modulus, before, now, xs);
      }
    }
  }
}
