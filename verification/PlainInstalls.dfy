/**
 * Supersteps without a merge, or with one that refuses: the last fork to
 * change a key decides it, and forks clash exactly where an earlier change
 * was another. Said of the values the forks leave, not of the installs.
 */
module PlainInstalls {
  import opened Options
  import opened ThreeWay
  import opened ArcWorld
  import opened Sharding
  import opened InstallSpec
  import Supersteps

  /** No merge is named, or one that composes nothing. */
  ghost predicate Refuses<V(!new)>(merge: Option<Merge<V>>) {
    merge.Some? ==> forall a, b, c :: merge.value(a, b, c) == Conflict
  }

  /** `left` is what the last of `values` to differ from `before` is, and `now` when none does. */
  ghost predicate LastChange<V>(before: Option<V>, now: Option<V>, values: seq<Option<V>>, left: Option<V>) {
    || (left == now && forall v | v in values :: v == before)
    || exists i: nat :: ChangedLast(before, values, i) && left == values[i]
  }

  /** Value `i` differs from `before`, and none behind it does. */
  ghost predicate ChangedLast<V>(before: Option<V>, values: seq<Option<V>>, i: nat) {
    i < |values| && values[i] != before && forall j | i < j < |values| :: values[j] == before
  }

  lemma OneLastChange<V>(before: Option<V>, now: Option<V>, values: seq<Option<V>>, a: Option<V>, b: Option<V>)
    requires LastChange(before, now, values, a) && LastChange(before, now, values, b)
    ensures a == b
  {
    assert forall i: nat | ChangedLast(before, values, i) :: values[i] in values && values[i] != before;
    assert forall i: nat, j: nat | ChangedLast(before, values, i) && ChangedLast(before, values, j) :: i == j;
  }

  lemma {:induction false} LastChangeWins<V(!new)>(merge: Option<Merge<V>>, before: Option<V>, now: Option<V>,
                                                  values: seq<Option<V>>)
    requires Refuses(merge)
    ensures LastChange(before, now, values, FoldKey(merge, before, now, values))
    decreases |values|
  {
    if values != [] {
      var n := |values| - 1;
      var front, held := values[..n], FoldKey(merge, before, now, values[..n]);
      LastChangeWins(merge, before, now, front);
      if values[n] == before {
        if i: nat :| ChangedLast(before, front, i) && held == front[i] {
          assert ChangedLast(before, values, i) && held == values[i];
        } else {
          forall v | v in values ensures v == before {
            assert v in front || v == values[n];
          }
        }
      } else {
        assert ChangedLast(before, values, n);
      }
    }
  }

  /** A fork leaves `value` where what the forks `values` before it left is a change, and another. */
  ghost predicate Overwrites<V(!new)>(before: Option<V>, now: Option<V>, values: seq<Option<V>>, value: Option<V>) {
    value != before && exists held :: LastChange(before, now, values, held) && held != before && held != value
  }

  /** Every key holds its last change, and a fork conflicts exactly when it overwrites another change of some key. */
  lemma PlainSuperstep<K(!new), V(!new)>(merge: Option<Merge<V>>, before: map<K, V>, now: map<K, V>,
                                         forks: seq<map<K, V>>)
    requires Refuses(merge)
    ensures forall k :: LastChange(Lookup(before, k), Lookup(now, k), Column(forks, k),
                Lookup(FoldMaps(merge, before, now, forks), k))
    ensures forall i: nat | i < |forks| :: ForkConflicts(merge, before, now, forks, i) <==>
              exists k :: Overwrites(Lookup(before, k), Lookup(now, k), Column(forks[..i], k), Lookup(forks[i], k))
  {
    forall k ensures LastChange(Lookup(before, k), Lookup(now, k), Column(forks, k),
        Lookup(FoldMaps(merge, before, now, forks), k)) {
      FoldMapsByKey(merge, before, now, forks, k);
      LastChangeWins(merge, Lookup(before, k), Lookup(now, k), Column(forks, k));
    }
    forall i: nat | i < |forks| ensures ForkConflicts(merge, before, now, forks, i) <==>
        exists k :: Overwrites(Lookup(before, k), Lookup(now, k), Column(forks[..i], k), Lookup(forks[i], k)) {
      forall k ensures MergeAt(merge, FoldMaps(merge, before, now, forks[..i]), before, forks[i], k).conflict
          <==> Overwrites(Lookup(before, k), Lookup(now, k), Column(forks[..i], k), Lookup(forks[i], k)) {
        OverwriteConflicts(merge, before, now, forks, i, k);
      }
      hide MergeAt, Overwrites, FoldMaps;
    }
  }

  lemma OverwriteConflicts<K(!new), V(!new)>(merge: Option<Merge<V>>, before: map<K, V>, now: map<K, V>,
                                             forks: seq<map<K, V>>, i: nat, k: K)
    requires Refuses(merge) && i < |forks|
    ensures MergeAt(merge, FoldMaps(merge, before, now, forks[..i]), before, forks[i], k).conflict
       <==> Overwrites(Lookup(before, k), Lookup(now, k), Column(forks[..i], k), Lookup(forks[i], k))
  {
    var held := Lookup(FoldMaps(merge, before, now, forks[..i]), k);
    FoldMapsByKey(merge, before, now, forks[..i], k);
    LastChangeWins(merge, Lookup(before, k), Lookup(now, k), Column(forks[..i], k));
    hide LastChange, FoldMaps, FoldKey;
    forall other | LastChange(Lookup(before, k), Lookup(now, k), Column(forks[..i], k), other) ensures other == held {
      OneLastChange(Lookup(before, k), Lookup(now, k), Column(forks[..i], k), held, other);
    }
  }

  // ----- of the store and of a domain's fields

  /** So in the store: what installing all forks leaves and flags. */
  lemma PlainInstall(family: Family, self: Name, frozen: Name, forks: seq<Name>, merge: Option<Merge<Value>>)
    requires InFamily(family, self, frozen, forks) && Refuses(merge)
    ensures var values := ForkMaps(family, forks);
      && (forall k :: LastChange(Lookup(family[frozen], k), Lookup(family[self], k), Column(values, k),
            Lookup(Installed(family, self, frozen, forks, merge)[self], k)))
      && (forall i: nat | i < |forks| :: Flags(family, self, frozen, forks, merge)[i] <==>
            exists k :: Overwrites(Lookup(family[frozen], k), Lookup(family[self], k), Column(values[..i], k),
                Lookup(family[forks[i]], k)))
  {
    PlainSuperstep(merge, family[frozen], family[self], ForkMaps(family, forks));
    hide LastChange, Overwrites, FoldMaps;
  }

  ghost function FieldForks(c: Supersteps.Column, f: nat, n: nat): seq<Supersteps.Store>
    requires Supersteps.Formed(c) && f < |c.now| && n <= |c.forks|
  {
    seq(n, i requires 0 <= i < n => c.forks[i][f])
  }

  /** A field's superstep is the fold of its forks, and its clashes those of the fold. */
  lemma FieldIsFold(c: Supersteps.Column, f: nat, i: nat)
    requires Supersteps.Formed(c) && f < |c.now| && i < |c.forks|
    ensures var merge, all := c.kind.merges[f], FieldForks(c, f, |c.forks|);
      && all[..i] == FieldForks(c, f, i) && all[i] == c.forks[i][f]
      && (Supersteps.Clash(c, f, i) <==> ForkConflicts(merge, c.frozen[f], c.now[f], all, i))
  {
    Supersteps.FieldAfterIsFold(c, f, i);
    assert FieldForks(c, f, |c.forks|)[..i] == FieldForks(c, f, i);
    hide FoldMaps, MapsConflict, Supersteps.FieldAfter;
  }

  /** And so of every field of a domain's superstep. */
  lemma PlainField(c: Supersteps.Column, f: nat)
    requires Supersteps.Formed(c) && f < |c.now| && Refuses(c.kind.merges[f])
    ensures forall k :: LastChange(Lookup(c.frozen[f], k), Lookup(c.now[f], k),
                Column(FieldForks(c, f, |c.forks|), k), Lookup(Supersteps.FieldAfter(c, f, |c.forks|), k))
    ensures forall i: nat | i < |c.forks| :: Supersteps.Clash(c, f, i) <==>
              exists k :: Overwrites(Lookup(c.frozen[f], k), Lookup(c.now[f], k), Column(FieldForks(c, f, i), k),
                  Lookup(c.forks[i][f], k))
  {
    var merge, all := c.kind.merges[f], FieldForks(c, f, |c.forks|);
    Supersteps.FieldAfterIsFold(c, f, |c.forks|);
    hide LastChange, Overwrites, FoldMaps, Supersteps.FieldAfter, Supersteps.Clash, ForkConflicts;
    PlainSuperstep(merge, c.frozen[f], c.now[f], all);
    forall i: nat | i < |c.forks|
      ensures Supersteps.Clash(c, f, i) <==>
          exists k :: Overwrites(Lookup(c.frozen[f], k), Lookup(c.now[f], k), Column(FieldForks(c, f, i), k),
              Lookup(c.forks[i][f], k))
    {
      FieldIsFold(c, f, i);
    }
  }
}
