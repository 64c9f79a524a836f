/**
 * The three-way merge every install of a task fork is specified by.
 *
 * A fork found `before`, left `value`, and the index holds `now`. `MergeKey`
 * says what one key becomes; `MergeMaps` lifts it to finite maps and
 * `FoldMaps` to a superstep's forks taken in order.
 */
module ThreeWay {
  import opened Options

  /** What a field's merge makes of two changes: a value, or a refusal. */
  datatype Merged<+V> = Composed(value: Option<V>) | Conflict

  /** Composes a change the index saw with a fork's: the index's value, then the fork's start and end. */
  type Merge<!V> = (Option<V>, Option<V>, Option<V>) -> Merged<V>

  datatype Step<+V> = Step(value: Option<V>, conflict: bool)

  function MergeKey<V(==)>(merge: Option<Merge<V>>, now: Option<V>, before: Option<V>, value: Option<V>): Step<V> {
    if value == before then Step(now, false)
    else if now == before then Step(value, false)
    else if merge.Some? then
      match merge.value(now, before, value)
      case Composed(merged) => Step(merged, false)
      case Conflict => Step(value, now != value)
    else Step(value, now != value)
  }

  function MergeAt<K, V(==)>(merge: Option<Merge<V>>, now: map<K, V>, before: map<K, V>, fork: map<K, V>,
                             k: K): Step<V> {
    MergeKey(merge, Lookup(now, k), Lookup(before, k), Lookup(fork, k))
  }

  function MergeMaps<K, V(==)>(merge: Option<Merge<V>>, now: map<K, V>, before: map<K, V>, fork: map<K, V>): map<K, V> {
    map k | k in now.Keys + before.Keys + fork.Keys && MergeAt(merge, now, before, fork, k).value.Some?
      :: MergeAt(merge, now, before, fork, k).value.value
  }

  ghost predicate MapsConflict<K(!new), V>(merge: Option<Merge<V>>, now: map<K, V>, before: map<K, V>,
                                           fork: map<K, V>) {
    exists k :: MergeAt(merge, now, before, fork, k).conflict
  }

  lemma MergeMapsLookup<K, V>(merge: Option<Merge<V>>, now: map<K, V>, before: map<K, V>, fork: map<K, V>, k: K)
    ensures Lookup(MergeMaps(merge, now, before, fork), k) == MergeAt(merge, now, before, fork, k).value
  {
  }

  /** What the merge `merge` makes of one key, by what the index, the start and the fork read of it. */
  lemma MergedReads<K(!new), V>(merge: Option<Merge<V>>, now: map<K, V>, before: map<K, V>, fork: map<K, V>, k: K)
    ensures var held, was, value := Lookup(now, k), Lookup(before, k), Lookup(fork, k);
            var left := Lookup(MergeMaps(merge, now, before, fork), k);
      && (value == was ==> left == held)
      && (value != was && (held == was || merge.None? || merge.value(held, was, value).Conflict?) ==> left == value)
      && (value != was && held != was && merge.Some? ==>
            forall v | merge.value(held, was, value) == Composed(v) :: left == v)
    ensures MapsConflict(merge, now, before, fork) <==>
              exists j :: var held, was, value := Lookup(now, j), Lookup(before, j), Lookup(fork, j);
                && value != was && held != was && held != value
                && (merge.None? || merge.value(held, was, value).Conflict?)
  {
    MergeMapsLookup(merge, now, before, fork, k);
    forall j ensures MergeAt(merge, now, before, fork, j).conflict
        <==> var held, was, value := Lookup(now, j), Lookup(before, j), Lookup(fork, j);
          && value != was && held != was && held != value
          && (merge.None? || merge.value(held, was, value).Conflict?) {
    }
  }

  /** What an install leaves of one key its fork changed, and whether that conflicts. */
  method InstallKey<V(==)>(merge: Option<Merge<V>>, now: Option<V>, before: Option<V>, value: Option<V>)
    returns (left: Option<V>, conflicted: bool)
    requires value != before
    ensures Step(left, conflicted) == MergeKey(merge, now, before, value)
  {
    conflicted := false;
    left := value;
    var identical := now == value;
    if now == before {
    } else if merge.Some? {
      // Equal values are no shortcut here: a sum both raised by one is raised by two.
      match merge.value(now, before, value) {
        case Composed(merged) => left := merged;
        case Conflict => conflicted := !identical;
      }
    } else if !identical {
      conflicted := true;
    }
  }

  /**
   * Takes into `current`, key by key, what a fork changed of `was`: the inner
   * loop of an install, over the keys in any order.
   */
  method MergeShard<K(==, !new), V(==)>(merge: Option<Merge<V>>, current: map<K, V>, was: map<K, V>, fork: map<K, V>)
    returns (target: map<K, V>, conflicted: bool)
    ensures target == MergeMaps(merge, current, was, fork)
    ensures conflicted <==> MapsConflict(merge, current, was, fork)
  {
    target, conflicted := current, false;
    var changed := (set k | k in fork && Lookup(was, k) != Some(fork[k])) + (set k | k in was && k !in fork);
    UnchangedKeys(merge, current, was, fork, changed);
    hide MergeAt, MergeMaps, Put, Lookup;
    var rest := changed;
    while rest != {}
      invariant rest <= changed
      invariant forall k ::
              Lookup(target, k) == if k in rest then Lookup(current, k) else MergeAt(merge, current, was, fork, k).value
      invariant conflicted <==> exists k :: k !in rest && MergeAt(merge, current, was, fork, k).conflict
    {
      var key :| key in rest;
      rest := rest - {key};
      var left, clash := InstallKey(merge, Lookup(target, key), Lookup(was, key), Lookup(fork, key));
      assert MergeAt(merge, current, was, fork, key) == Step(left, clash)
          by { MergeAtIs(merge, current, was, fork, key); }
      PutLookup(target, key, left);
      target := Put(target, key, left);
      conflicted := conflicted || clash;
    }
    MergedByKey(merge, current, was, fork, target);
  }

  lemma MergeAtIs<K, V>(merge: Option<Merge<V>>, now: map<K, V>, before: map<K, V>, fork: map<K, V>, k: K)
    ensures MergeAt(merge, now, before, fork, k) == MergeKey(merge, Lookup(now, k), Lookup(before, k), Lookup(fork, k))
  {
  }

  lemma UnchangedKeys<K(!new), V>(merge: Option<Merge<V>>, now: map<K, V>, before: map<K, V>, fork: map<K, V>,
                                  changed: set<K>)
    requires forall k ::
            k in changed <==> (k in fork && Lookup(before, k) != Some(fork[k])) || (k in before && k !in fork)
    ensures forall k | k in changed :: Lookup(fork, k) != Lookup(before, k)
    ensures forall k | k !in changed :: MergeAt(merge, now, before, fork, k) == Step(Lookup(now, k), false)
  {
  }

  /** A map that holds the merge of every key is the merge. */
  lemma MergedByKey<K(!new), V>(merge: Option<Merge<V>>, now: map<K, V>, before: map<K, V>, fork: map<K, V>,
                                merged: map<K, V>)
    requires forall k :: Lookup(merged, k) == MergeAt(merge, now, before, fork, k).value
    ensures merged == MergeMaps(merge, now, before, fork)
  {
    forall k ensures Lookup(merged, k) == Lookup(MergeMaps(merge, now, before, fork), k) {
      MergeMapsLookup(merge, now, before, fork, k);
    }
    SameLookups(merged, MergeMaps(merge, now, before, fork));
  }

  /** The forks `forks` of `before` taken in order into `now`. */
  function FoldMaps<K, V(==)>(merge: Option<Merge<V>>, before: map<K, V>, now: map<K, V>,
                              forks: seq<map<K, V>>): map<K, V>
    decreases |forks|
  {
    if forks == [] then now
    else
      var last := |forks| - 1;
      MergeMaps(merge, FoldMaps(merge, before, now, forks[..last]), before, forks[last])
  }

  /** Whether fork `i` conflicts when the forks before it are in. */
  ghost predicate ForkConflicts<K(!new), V>(merge: Option<Merge<V>>, before: map<K, V>, now: map<K, V>,
                                            forks: seq<map<K, V>>, i: nat)
    requires i < |forks|
  {
    MapsConflict(merge, FoldMaps(merge, before, now, forks[..i]), before, forks[i])
  }

  /** One key of `FoldMaps`: the values `values` left by forks that found `before`. */
  function FoldKey<V(==)>(merge: Option<Merge<V>>, before: Option<V>, now: Option<V>, values: seq<Option<V>>): Option<V>
    decreases |values|
  {
    if values == [] then now
    else
      var last := |values| - 1;
      MergeKey(merge, FoldKey(merge, before, now, values[..last]), before, values[last]).value
  }

  function Column<K, V>(forks: seq<map<K, V>>, k: K): (values: seq<Option<V>>)
    ensures |values| == |forks|
  {
    seq(|forks|, i requires 0 <= i < |forks| => Lookup(forks[i], k))
  }

  /** A superstep acts on each key by itself: no key's outcome reads another's. */
  lemma {:induction false} FoldMapsByKey<K, V>(merge: Option<Merge<V>>, before: map<K, V>, now: map<K, V>,
                                               forks: seq<map<K, V>>, k: K)
    ensures Lookup(FoldMaps(merge, before, now, forks), k)
         == FoldKey(merge, Lookup(before, k), Lookup(now, k), Column(forks, k))
    decreases |forks|
  {
    if forks != [] {
      var last := |forks| - 1;
      FoldMapsByKey(merge, before, now, forks[..last], k);
      assert Column(forks, k)[..last] == Column(forks[..last], k);
      MergeMapsLookup(merge, FoldMaps(merge, before, now, forks[..last]), before, forks[last], k);
    }
  }

  /** A fork that reads like what it was forked from changes nothing and conflicts with nothing. */
  lemma UnwrittenForkIsIdentity<K(!new), V>(merge: Option<Merge<V>>, now: map<K, V>, before: map<K, V>)
    ensures MergeMaps(merge, now, before, before) == now
    ensures !MapsConflict(merge, now, before, before)
  {
    forall k ensures Lookup(MergeMaps(merge, now, before, before), k) == Lookup(now, k) {
      MergeMapsLookup(merge, now, before, before, k);
    }
    SameLookups(MergeMaps(merge, now, before, before), now);
  }

  /** An index unchanged since the fork becomes the fork. */
  lemma UnchangedIndexBecomesFork<K(!new), V>(merge: Option<Merge<V>>, before: map<K, V>, fork: map<K, V>)
    ensures MergeMaps(merge, before, before, fork) == fork
    ensures !MapsConflict(merge, before, before, fork)
  {
    forall k ensures Lookup(MergeMaps(merge, before, before, fork), k) == Lookup(fork, k) {
      MergeMapsLookup(merge, before, before, fork, k);
    }
    SameLookups(MergeMaps(merge, before, before, fork), fork);
  }
}
