/**
 * What a superstep's install does to a family of independent finite maps:
 * each fork is taken into the index in order and is gone.
 */
module InstallSpec {
  import opened Options
  import opened Sharding
  import opened ThreeWay
  import opened ArcWorld

  type Family = map<Name, map<Key, Value>>

  ghost predicate InFamily(family: Family, self: Name, frozen: Name, forks: seq<Name>) {
    self in family && frozen in family && forall i | 0 <= i < |forks| :: forks[i] in family
  }

  ghost function ForkMaps(family: Family, forks: seq<Name>): (maps: seq<map<Key, Value>>)
    requires forall i | 0 <= i < |forks| :: forks[i] in family
    ensures |maps| == |forks| && forall i | 0 <= i < |forks| :: maps[i] == family[forks[i]]
  {
    seq(|forks|, i requires 0 <= i < |forks| => family[forks[i]])
  }

  ghost function Others(family: Family, forks: seq<Name>): Family {
    map m | m in family && m !in forks :: family[m]
  }

  lemma OthersNext(family: Family, forks: seq<Name>, i: nat)
    requires i < |forks|
    ensures Others(family, forks[..i + 1]) == Others(family, forks[..i]) - {forks[i]}
  {
    assert forks[..i + 1] == forks[..i] + [forks[i]];
  }

  lemma FoldNext(family: Family, self: Name, frozen: Name, forks: seq<Name>, i: nat, merge: Option<Merge<Value>>)
    requires i < |forks| && InFamily(family, self, frozen, forks)
    ensures InFamily(family, self, frozen, forks[..i]) && InFamily(family, self, frozen, forks[..i + 1])
    ensures var now := FoldMaps(merge, family[frozen], family[self], ForkMaps(family, forks[..i]));
      && FoldMaps(merge, family[frozen], family[self], ForkMaps(family, forks[..i + 1])) == MergeMaps(merge, now,
          family[frozen], family[forks[i]])
      && (MapsConflict(merge, now, family[frozen], family[forks[i]]) <==> Flags(family, self, frozen, forks, merge)[i])
  {
    hide MergeMaps, MapsConflict;
    var maps := ForkMaps(family, forks);
    assert ForkMaps(family, forks[..i]) == maps[..i];
    assert ForkMaps(family, forks[..i + 1]) == maps[..i + 1];
    assert maps[..i + 1][..i] == maps[..i];
  }

  /** The family once the forks are taken into `self`, one after another, and gone. */
  ghost function Installed(family: Family, self: Name, frozen: Name, forks: seq<Name>,
                           merge: Option<Merge<Value>>): Family
    requires InFamily(family, self, frozen, forks)
  {
    Others(family, forks)
    [self := FoldMaps(merge, family[frozen], family[self], ForkMaps(family, forks))]
  }

  /** Which forks conflict when taken in order. */
  ghost function Flags(family: Family, self: Name, frozen: Name, forks: seq<Name>,
                       merge: Option<Merge<Value>>): (flags: seq<bool>)
    requires InFamily(family, self, frozen, forks)
    ensures |flags| == |forks|
  {
    seq(|forks|, i requires 0 <= i < |forks| => ForkConflicts(merge, family[frozen], family[self],
        ForkMaps(family, forks), i))
  }

  ghost predicate Ascending(places: seq<nat>) {
    forall i, j | 0 <= i < j < |places| :: places[i] < places[j]
  }

  /** `conflicted` lists the places of the flagged among the first `n` forks, in order when `places` is. */
  ghost predicate Lists(flags: seq<bool>, places: seq<nat>, n: nat, conflicted: seq<nat>)
    requires n <= |flags| == |places|
  {
    && (forall p :: p in conflicted <==> exists i: nat :: i < n && flags[i] && places[i] == p)
    && (Ascending(places) ==> Ascending(conflicted))
  }

  lemma ListsNone(flags: seq<bool>, places: seq<nat>)
    requires |flags| == |places|
    ensures Lists(flags, places, 0, [])
  {
  }

  lemma AscendingNext(places: seq<nat>, p: nat)
    requires Ascending(places) && forall q | q in places :: q < p
    ensures Ascending(places + [p])
  {
    assert forall j | 0 <= j < |places| :: places[j] in places;
  }

  lemma ListsNext(flags: seq<bool>, places: seq<nat>, n: nat, conflicted: seq<nat>)
    requires n < |flags| == |places| && Lists(flags, places, n, conflicted)
    ensures Lists(flags, places, n + 1, if flags[n] then conflicted + [places[n]] else conflicted)
  {
    if Ascending(places) && flags[n] {
      forall p | p in conflicted ensures p < places[n] {
        var j: nat :| j < n && flags[j] && places[j] == p;
      }
      AscendingNext(conflicted, places[n]);
    }
    hide Ascending;
    var next := if flags[n] then conflicted + [places[n]] else conflicted;
    forall p ensures p in next <==> exists i: nat :: i < n + 1 && flags[i] && places[i] == p {
      assert p in next <==> p in conflicted || (flags[n] && p == places[n]);
      if i: nat :| i < n && flags[i] && places[i] == p {
        assert p in conflicted;
      }
    }
  }

  lemma InstalledNone(family: Family, self: Name, frozen: Name, forks: seq<Name>, merge: Option<Merge<Value>>)
    requires InFamily(family, self, frozen, forks)
    ensures InFamily(family, self, frozen, forks[..0]) && Installed(family, self, frozen, forks[..0], merge) == family
  {
  }

  /** One more fork is one more three-way merge. */
  lemma InstalledNext(family: Family, self: Name, frozen: Name, forks: seq<Name>, i: nat, merge: Option<Merge<Value>>)
    requires i < |forks| && InFamily(family, self, frozen, forks) && self != frozen && self !in forks
      && frozen !in forks
    requires forall a, b | 0 <= a < b < |forks| :: forks[a] != forks[b]
    ensures InFamily(family, self, frozen, forks[..i]) && InFamily(family, self, frozen, forks[..i + 1])
    ensures var f := Installed(family, self, frozen, forks[..i], merge);
      && self in f && frozen in f && forks[i] in f
      && Installed(family, self, frozen, forks[..i + 1], merge)
          == (f - {forks[i]})[self := MergeMaps(merge, f[self], f[frozen], f[forks[i]])]
      && (MapsConflict(merge, f[self], f[frozen], f[forks[i]]) <==> Flags(family, self, frozen, forks, merge)[i])
  {
    FoldNext(family, self, frozen, forks, i, merge);
    OthersNext(family, forks, i);
    OthersHold(family, forks, i, frozen);
    hide FoldMaps, MergeMaps, MapsConflict, Flags, ForkMaps, Others, InFamily;
    var now := FoldMaps(merge, family[frozen], family[self], ForkMaps(family, forks[..i]));
    var next := FoldMaps(merge, family[frozen], family[self], ForkMaps(family, forks[..i + 1]));
    Regrouped(Others(family, forks[..i]), self, forks[i], now, next);
  }

  lemma OthersHold(family: Family, forks: seq<Name>, i: nat, frozen: Name)
    requires i < |forks| && frozen in family && forks[i] in family && frozen !in forks
      && forall a | 0 <= a < i :: forks[a] != forks[i]
    ensures Lookup(Others(family, forks[..i]), frozen) == Some(family[frozen])
    ensures Lookup(Others(family, forks[..i]), forks[i]) == Some(family[forks[i]])
  {
    assert forks[i] !in forks[..i];
  }

  lemma Regrouped(others: Family, self: Name, gone: Name, now: map<Key, Value>, next: map<Key, Value>)
    requires gone != self
    ensures (others - {gone})[self := next] == (others[self := now] - {gone})[self := next]
  {
  }
}
