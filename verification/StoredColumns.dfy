/**
 * One field of a superstep over the copy-on-write store: the store's own
 * install of all forks is the column install the barrier is specified by, and
 * its pointer comparison tells truly which forks wrote.
 */
module StoredColumns {
  import opened Options
  import opened ThreeWay
  import opened ArcWorld
  import opened InstallSpec
  import opened CowFrames
  import opened CowMemory
  import Supersteps

  /** The maps `self`, `frozen` and `forks` of a memory hold field `f` of a domain. */
  ghost predicate Holds(family: Family, c: Supersteps.Column, f: nat, self: Name, frozen: Name, forks: seq<Name>) {
    && Supersteps.Formed(c) && f < |c.now| && |forks| == |c.forks| && InFamily(family, self, frozen, forks)
    && family[self] == c.now[f] && family[frozen] == c.frozen[f]
    && forall i | 0 <= i < |forks| :: family[forks[i]] == c.forks[i][f]
  }

  lemma FieldFold(family: Family, c: Supersteps.Column, f: nat, self: Name, frozen: Name, forks: seq<Name>, n: nat)
    requires Holds(family, c, f, self, frozen, forks) && n <= |forks|
    ensures Supersteps.FieldAfter(c, f, n) == FoldMaps(c.kind.merges[f], family[frozen], family[self],
        ForkMaps(family, forks)[..n])
  {
    hide FoldMaps, Supersteps.FieldAfter;
    Supersteps.FieldAfterIsFold(c, f, n);
    var maps, column := ForkMaps(family, forks)[..n], seq(n, i requires 0 <= i < n => c.forks[i][f]);
    forall i | 0 <= i < n ensures column[i] == maps[i] {
    }
    assert column == maps;
  }

  lemma FlagsAreClashes(family: Family, c: Supersteps.Column, f: nat, self: Name, frozen: Name, forks: seq<Name>,
                        i: nat)
    requires Holds(family, c, f, self, frozen, forks) && i < |forks|
    ensures Flags(family, self, frozen, forks, c.kind.merges[f])[i] <==> Supersteps.Clash(c, f, i)
  {
    FieldFold(family, c, f, self, frozen, forks, i);
    hide FoldMaps, MapsConflict;
  }

  /** Ascending lists of the same numbers are the same. */
  lemma {:induction false} AscendingSame(a: seq<nat>, b: seq<nat>)
    requires Ascending(a) && Ascending(b) && forall p :: p in a <==> p in b
    ensures a == b
    decreases |a|
  {
    assert (a != [] ==> a[0] in b) && (b != [] ==> b[0] in a);
    if a != [] && b != [] {
      var fa, fb := a[..|a| - 1], b[..|b| - 1];
      SameLast(a, b);
      forall p ensures p in fa <==> p in fb {
        FrontOf(a, p);
        FrontOf(b, p);
      }
      AscendingSame(fa, fb);
      assert a == fa + [a[|a| - 1]] && b == fb + [b[|b| - 1]];
    }
  }

  lemma FrontOf(a: seq<nat>, p: nat)
    requires Ascending(a) && a != []
    ensures p in a[..|a| - 1] <==> p in a && p != a[|a| - 1]
    ensures Ascending(a[..|a| - 1])
  {
    assert a == a[..|a| - 1] + [a[|a| - 1]];
  }

  lemma SameLast(a: seq<nat>, b: seq<nat>)
    requires Ascending(a) && Ascending(b) && a != [] && b != [] && forall p :: p in a <==> p in b
    ensures a[|a| - 1] == b[|b| - 1] && Ascending(a[..|a| - 1]) && Ascending(b[..|b| - 1])
  {
    var x, y := a[|a| - 1], b[|b| - 1];
    assert x in b && y in a;
  }

  lemma {:induction false} ClashingAscends(c: Supersteps.Column, f: nat, places: seq<nat>, n: nat)
    requires Supersteps.Formed(c) && f < |c.now| && |places| == |c.forks| && n <= |places| && Ascending(places)
    ensures var s := Supersteps.Clashing(c, f, places, n);
      Ascending(s) && forall p :: p in s <==> exists i: nat :: i < n && Supersteps.Clash(c, f, i) && places[i] == p
    decreases n
  {
    hide Supersteps.Clash, Supersteps.Formed;
    if n > 0 {
      ClashingAscends(c, f, places, n - 1);
      var front, last := Supersteps.Clashing(c, f, places, n - 1), places[n - 1];
      forall p | p in front ensures p < last {
        var i: nat :| i < n - 1 && Supersteps.Clash(c, f, i) && places[i] == p;
      }
      var s := Supersteps.Clashing(c, f, places, n);
      assert forall p :: p in s <==> p in front || (Supersteps.Clash(c, f, n - 1) && p == last);
      assert forall j | 0 <= j < |front| :: front[j] in front;
    }
  }

  /**
   * Installing every fork of a field into the store is the field's column install: the same map
   * and the same places.
   */
  method InstallColumn(memory: Memory, ghost c: Supersteps.Column, ghost f: nat, merge: Option<Merge<Value>>,
                       self: Name, frozen: Name, forks: seq<Name>, places: seq<nat>)
    returns (clashes: seq<nat>)
    requires memory.Valid() && NoHands(memory.world) && Installable(memory.world, self, frozen, forks)
    requires Holds(memory.Reads(), c, f, self, frozen, forks) && |places| == |forks| && Ascending(places)
    requires merge == c.kind.merges[f]
    modifies memory
    ensures memory.Valid() && NoHands(memory.world)
    ensures self in memory.Reads() && memory.Reads()[self] == Supersteps.FieldAfter(c, f, |c.forks|)
    ensures clashes == Supersteps.Clashing(c, f, places, |c.forks|)
  {
    ghost var family := memory.Reads();
    FieldFold(family, c, f, self, frozen, forks, |forks|);
    assert ForkMaps(family, forks)[..|forks|] == ForkMaps(family, forks);
    forall i: nat | i < |forks|
        ensures Flags(family, self, frozen, forks, c.kind.merges[f])[i] <==> Supersteps.Clash(c, f, i) {
      FlagsAreClashes(family, c, f, self, frozen, forks, i);
    }
    ClashingAscends(c, f, places, |forks|);
    hide FoldMaps, Flags, Supersteps.FieldAfter, Supersteps.Clashing, Supersteps.Clash, FamilyOf, ArcWorld.Valid;
    clashes := memory.InstallAll(self, frozen, places, forks, merge);
    AscendingSame(clashes, Supersteps.Clashing(c, f, places, |forks|));
  }

  /** The forks told not to have written read the field as it was frozen. */
  ghost predicate Told(family: Family, frozen: Name, forks: seq<Name>, wrote: seq<bool>) {
    && |wrote| <= |forks| && frozen in family && (forall i | 0 <= i < |forks| :: forks[i] in family)
    && (forall i | 0 <= i < |wrote| && !wrote[i] :: family[forks[i]] == family[frozen])
  }

  lemma ToldNext(family: Family, frozen: Name, forks: seq<Name>, wrote: seq<bool>, w: bool)
    requires Told(family, frozen, forks, wrote) && |wrote| < |forks|
      && (!w ==> family[forks[|wrote|]] == family[frozen])
    ensures Told(family, frozen, forks, wrote + [w])
  {
  }

  /** Which forks wrote the field, by their pointers. */
  method WroteFlags(memory: Memory, frozen: Name, forks: seq<Name>) returns (wrote: seq<bool>)
    requires memory.Valid() && frozen in memory.world.maps
    requires forall i | 0 <= i < |forks| :: forks[i] in memory.world.maps && ForkOf(memory.world, frozen, forks[i])
    ensures |wrote| == |forks| && Told(memory.Reads(), frozen, forks, wrote)
  {
    FamilyKeys(memory.keying, memory.world);
    wrote := [];
    hide FamilyOf, ArcWorld.Valid, ForkOf, Told;
    ghost var family := memory.Reads();
    assert Told(family, frozen, forks, []) by {
      ToldNone(family, frozen, forks);
    }
    for i := 0 to |forks|
      invariant |wrote| == i && Told(family, frozen, forks, wrote)
    {
      var w := memory.Wrote(forks[i], frozen);
      ToldNext(family, frozen, forks, wrote, w);
      wrote := wrote + [w];
    }
  }

  lemma ToldNone(family: Family, frozen: Name, forks: seq<Name>)
    requires frozen in family && forall i | 0 <= i < |forks| :: forks[i] in family
    ensures Told(family, frozen, forks, [])
  {
  }
}
