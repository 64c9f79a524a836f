/**
 * The copy-on-write maps of an index, and the writes, forks and installs made
 * through them, over one shared memory of `Arc`s.
 *
 * `Reads(m)` is the finite map that `m` stands for. Every operation is
 * specified by what it does to `Reads` of the map it is called on; that it
 * leaves `Reads` of every other map alone is what makes forks independent.
 */
module CowMemory {
  import opened Options
  import opened Sharding
  import opened ThreeWay
  import opened ArcWorld
  import opened InstallSpec
  import opened CowFrames

  class Memory {
    const keying: Keying
    var world: World

    ghost predicate Valid()
      reads this
    {
      Fits(keying) && ArcWorld.Valid(keying, world)
    }

    ghost function Reads(): Family
      requires Valid()
      reads this
    {
      FamilyOf(keying, world)
    }

    constructor (keying: Keying)
      requires Fits(keying)
      ensures Valid() && this.keying == keying && world.maps == map[] && world.held == map[]
    {
      this.keying := keying;
      world := World(map[], map[], map[], 0);
    }

    // ----- making a shard writable

    /** Gives `m` a slot table of its own, grown to hold `at`. */
    method SlotsMut(m: Name, at: nat)
      requires Valid() && m in world.maps && at < WORD
      modifies this
      ensures Valid() && OnlyMap(old(world), world, m) && world.shards == old(world.shards)
      ensures OnlyTableHolder(world, m) && at < world.maps[m].slots.len
      ensures forall i: nat :: HeldShard(world, m, i) == HeldShard(old(world), m, i)
      ensures forall i: nat :: At(world, DirtySlot(m, i)) == At(old(world), DirtySlot(m, i))
      ensures OnlyTableHolder(old(world), m) && at < old(world.maps[m].slots.len) ==> world == old(world)
    {
      if at >= world.maps[m].slots.len {
        var len := (at + SLOT_CHUNK) / SLOT_CHUNK * SLOT_CHUNK;
        RetableEffect(keying, world, m, len);
        world := Retable(world, m, len);
      } else if |TableHolders(world, world.maps[m].slots)| > 1 {
        assert !OnlyTableHolder(world, m) by { SharedTable(world, m); }
        RetableEffect(keying, world, m, world.maps[m].slots.len);
        world := Retable(world, m, world.maps[m].slots.len);
      } else {
        CountedOnceTable(world, m);
      }
    }

    /** Makes the shard `m` holds at its own place `p` writable: copied when anything else holds it. */
    method MakeMut(m: Name, p: Place)
      requires Valid() && m in world.maps && Owns(world, m, p) && p in world.held
      requires p.TableSlot? ==> DirtySlot(m, p.at) !in world.held
      modifies this
      ensures Valid() && OnlyMap(old(world), world, m) && Grows(old(world), world) && Writable(world, m, p.at, p)
      ensures world.maps == old(world.maps)
      ensures Entries(world, m, p.at) == Entries(old(world), m, p.at)
      ensures forall q: Place | q != p :: At(world, q) == At(old(world), q)
    {
      var a := world.held[p];
      if |ShardHolders(world, a)| > 1 {
        HoldNew(m, p, ShardAt(world, a));
      } else {
        assert m in TableHolders(world, world.maps[m].slots);
        CountedOnce(world, p, a);
      }
    }

    /** Puts a new shard at `m`'s own place `p`. */
    method HoldNew(m: Name, p: Place, shard: Shard)
      requires Valid() && m in world.maps && Owns(world, m, p) && InSlot(keying, shard, p.at) && p.at < WORD
      requires p.TableSlot? ==> p.at < p.table.len && DirtySlot(m, p.at) !in world.held
      modifies this
      ensures Valid() && OnlyMap(old(world), world, m) && Grows(old(world), world) && Writable(world, m, p.at, p)
      ensures world.maps == old(world.maps)
      ensures Entries(world, m, p.at) == shard
      ensures forall q: Place | q != p :: At(world, q) == At(old(world), q)
    {
      var a := NewId(world, p.at);
      NewInPlace(keying, world, m, p, shard);
      world := Alloc(world, p.at, shard);
      world := Hold(world, p, a);
    }

    /** The shard at `at` in the dirty list, for writing. */
    method DirtyShardMut(m: Name, at: nat)
      requires Valid() && m in world.maps && at < WORD
      modifies this
      ensures Valid() && OnlyMap(old(world), world, m) && Grows(old(world), world)
      ensures Writable(world, m, at, DirtySlot(m, at)) && world.maps == old(world.maps)
      ensures Entries(world, m, at) == Entries(old(world), m, at)
      ensures forall q: Place | q != DirtySlot(m, at) :: At(world, q) == At(old(world), q)
    {
      var p := DirtySlot(m, at);
      if p !in world.held {
        var held := At(world, TableSlot(world.maps[m].slots, at));
        if held.None? {
          HoldNew(m, p, map[]);
          return;
        }
        HeldInUse(keying, world, m, at);
        HoldEffect(keying, world, m, p, held.value);
        world := Hold(world, p, held.value);
      }
      label Held:
      MakeMut(m, p);
      OnlyMapTwice(old(world), old@Held(world), world, m);
    }

    /** The shard at `at` in a table `m` alone holds, for writing. */
    method SlotShardMut(m: Name, at: nat) returns (p: Place)
      requires Valid() && m in world.maps && at < WORD && DirtySlot(m, at) !in world.held
      modifies this
      ensures Valid() && OnlyMap(old(world), world, m) && Grows(old(world), world)
      ensures Writable(world, m, at, p) && p == TableSlot(world.maps[m].slots, at) && OnlyTableHolder(world, m)
      ensures forall i: nat :: Entries(world, m, i) == Entries(old(world), m, i)
      ensures forall i: nat :: At(world, DirtySlot(m, i)) == At(old(world), DirtySlot(m, i))
      ensures OnlyTableHolder(old(world), m) && at < old(world.maps[m].slots.len) ==>
        world.maps == old(world.maps) && forall q: Place | q != p :: At(world, q) == At(old(world), q)
    {
      hide Sole, ShardHolders, TableHolders, PlacedWell, SlotOf;
      SlotsMut(m, at);
      label Tabled:
      p := TableSlot(world.maps[m].slots, at);
      if p !in world.held {
        HoldNew(m, p, map[]);
      } else {
        MakeMut(m, p);
      }
      OnlyMapTwice(old(world), old@Tabled(world), world, m);
      OtherSlots(keying, old@Tabled(world), world, m, at);
    }

    /** Opens slot `at`: in the dirty list for a fork or when a dirty shard is there, in the table otherwise. */
    method ShardMut(m: Name, at: nat) returns (p: Place)
      requires Valid() && m in world.maps && at < WORD
      modifies this
      ensures Valid() && OnlyMap(old(world), world, m) && Grows(old(world), world)
      ensures Writable(world, m, at, p)
      ensures forall i: nat :: Entries(world, m, i) == Entries(old(world), m, i)
      ensures KeepsDirty(old(world), world, m)
      ensures old(world.maps[m].forked) || (OnlyTableHolder(old(world), m) && at < old(world.maps[m].slots.len)) ==>
        world.maps == old(world.maps) && forall q: Place | q != p :: At(world, q) == At(old(world), q)
      ensures p == PlaceOf(world, m, at)
      ensures p.DirtySlot? <==> old(world.maps[m].forked) || DirtySlot(m, at) in old(world.held)
      ensures !old(world.maps[m].forked) && DirtySlot(m, at) !in old(world.held) ==>
        OnlyTableHolder(world, m) && forall i: nat :: At(world, DirtySlot(m, i)) == At(old(world), DirtySlot(m, i))
    {
      hide ShardHolders, TableHolders, PlacedWell, SlotOf;
      if !world.maps[m].forked && DirtySlot(m, at) !in world.held {
        p := SlotShardMut(m, at);
        assert forall i: nat | DirtySlot(m, i) in old(world.held) :: At(world, DirtySlot(m, i)).Some?;
      } else {
        p := DirtySlot(m, at);
        DirtyShardMut(m, at);
        OtherSlots(keying, old(world), world, m, at);
        assert forall i: nat | DirtySlot(m, i) in old(world.held) && i != at :: At(world, DirtySlot(m, i)).Some?;
      }
    }

    // ----- writes

    /** Rewrites the shard at `at` of `m`, copying what is shared first. */
    method Rewrite(m: Name, at: nat, rewrite: Shard -> Shard)
      requires Valid() && m in world.maps && at < WORD
      requires InSlot(keying, rewrite(Entries(world, m, at)), at)
      modifies this
      ensures Valid() && Leaves(old(world), world, m) && KeepsDirty(old(world), world, m)
      ensures Entries(world, m, at) == rewrite(Entries(old(world), m, at))
      ensures forall i: nat | i != at :: Entries(world, m, i) == Entries(old(world), m, i)
    {
      var p := ShardMut(m, at);
      label Opened:
      var a := HeldShard(world, m, at).value;
      GrowingLeaves(keying, old(world), world, m);
      var shard := rewrite(ShardAt(world, a));
      hide ArcWorld.Valid, Sole, ShardHolders, TableHolders, PlacedWell, SlotOf, OnlyMap, Owns, HeldShard, Grows;
      WriteLeaves(keying, world, m, at, p, shard);
      world := Write(world, a, shard);
      LeavesTwice(old(world), old@Opened(world), world, m);
    }

    /** Puts or drops `k` in its shard. */
    method PutKey(m: Name, k: Key, value: Option<Value>)
      requires Valid() && m in world.maps
      modifies this
      ensures Valid() && Reads() == old(Reads())[m := Put(old(Reads())[m], k, value)]
      ensures OnlyMap(old(world), world, m) && KeepsDirty(old(world), world, m)
    {
      var at := SlotOf(keying, k);
      HeldInUse(keying, world, m, at);
      Rewrite(m, at, (shard: Shard) => Put(shard, k, value));
      ShardRewritten(keying, old(world), world, m, k, value);
      FamilyUpdated(keying, old(world), world, m);
    }

    method Get(m: Name, k: Key) returns (r: Option<Value>)
      requires Valid() && m in world.maps
      ensures r == Lookup(Reads()[m], k)
    {
      ContentsLookup(keying, world, m, k);
      r := Lookup(Entries(world, m, SlotOf(keying, k)), k);
    }

    method Insert(m: Name, k: Key, v: Value) returns (was: Option<Value>)
      requires Valid() && m in world.maps
      modifies this
      ensures Valid() && Reads() == old(Reads())[m := old(Reads())[m][k := v]]
      ensures was == Lookup(old(Reads())[m], k)
      ensures OnlyMap(old(world), world, m) && KeepsDirty(old(world), world, m)
    {
      was := Get(m, k);
      PutKey(m, k, Some(v));
    }

    /** Whether the shard of `k` need be begun to change `k`: a fork's only when `k` is there. */
    predicate Holding(m: Name, k: Key)
      requires m in world.maps
      reads this
    {
      var at := SlotOf(keying, k);
      HeldShard(world, m, at).Some? && (world.maps[m].forked ==> k in Entries(world, m, at))
    }

    method Remove(m: Name, k: Key) returns (was: Option<Value>)
      requires Valid() && m in world.maps
      modifies this
      ensures Valid() && Reads() == old(Reads())[m := old(Reads())[m] - {k}]
      ensures was == Lookup(old(Reads())[m], k)
      ensures OnlyMap(old(world), world, m) && KeepsDirty(old(world), world, m)
    {
      was := Get(m, k);
      if Holding(m, k) {
        PutKey(m, k, None);
      } else {
        ContentsLookup(keying, world, m, k);
        assert Reads()[m] - {k} == Reads()[m];
      }
    }

    /** Writes through `get_mut`: the value of a key that is there becomes `change` of it. */
    method GetMut(m: Name, k: Key, change: Value -> Value) returns (found: bool)
      requires Valid() && m in world.maps
      modifies this
      ensures Valid() && found == (k in old(Reads())[m])
      ensures var was := old(Reads());
        Reads() == if found then was[m := was[m][k := change(was[m][k])]] else was
      ensures OnlyMap(old(world), world, m) && KeepsDirty(old(world), world, m)
    {
      var was := Get(m, k);
      found := was.Some?;
      if Holding(m, k) {
        if !found {
          AbsentStays(old(Reads()), m, k);
        }
        hide FamilyOf, ArcWorld.Valid, OnlyMap, KeepsDirty;
        PutKey(m, k, if found then Some(change(was.value)) else None);
      }
    }

    /** Writes through `entry`: whatever `k` holds, or its absence, becomes `change` of it. */
    method Entry(m: Name, k: Key, change: Option<Value> -> Option<Value>)
      requires Valid() && m in world.maps
      modifies this
      ensures Valid() && Reads() == old(Reads())[m := Put(old(Reads())[m], k, change(Lookup(old(Reads())[m], k)))]
      ensures OnlyMap(old(world), world, m) && KeepsDirty(old(world), world, m)
    {
      var was := Get(m, k);
      PutKey(m, k, change(was));
    }

    // ----- making, copying and dropping maps

    /** An empty map called `n`. */
    method New(n: Name)
      requires Valid() && n !in world.maps
      modifies this
      ensures Valid() && Reads() == old(Reads())[n := map[]]
      ensures KeepsMapsBut(old(world), world, n)
    {
      NewMapEffect(keying, world, n);
      world := NewMap(world, n);
      hide ArcWorld.Valid, KeepsMapsBut;
      FamilyKept(keying, old(world), world, n);
    }

    /** `n` becomes a copy of `m` that shares every shard: a clone, or a fork whose writes stay in its dirty list. */
    method Copy(m: Name, n: Name, forked: bool)
      requires Valid() && m in world.maps && n !in world.maps
      modifies this
      ensures Valid() && Reads() == old(Reads())[n := old(Reads())[m]]
      ensures KeepsMapsBut(old(world), world, n) && n in world.maps && ForkOf(world, m, n)
      ensures world.maps[n] == Cow(world.maps[m].slots, forked)
    {
      CopyMapEffect(keying, world, m, n, forked);
      CopyReadsTheSame(keying, world, m, n, forked);
      world := CopyMap(world, m, n, forked);
      assert ForkOf(world, m, n) by {
        forall i: nat | DirtySlot(m, i) in world.held ensures DirtySlot(n, i) in world.held {
          assert At(world, DirtySlot(n, i)) == At(old(world), DirtySlot(m, i)) == At(world, DirtySlot(m, i));
        }
      }
      hide ArcWorld.Valid, KeepsMapsBut, ForkOf;
      FamilyKept(keying, old(world), world, n);
    }

    method Drop(n: Name)
      requires Valid() && n in world.maps
      modifies this
      ensures Valid() && Reads() == old(Reads()) - {n}
      ensures KeepsMapsBut(old(world), world, n) && world.maps.Keys == old(world.maps.Keys) - {n}
      ensures NoHands(old(world)) ==> NoHands(world)
    {
      DropMapEffect(keying, world, n);
      world := DropMap(world, n);
      hide ArcWorld.Valid, KeepsMapsBut;
      FamilyKept(keying, old(world), world, n);
    }

    method Clear(m: Name)
      requires Valid() && m in world.maps
      modifies this
      ensures Valid() && Reads() == old(Reads())[m := map[]]
      ensures OnlyMap(old(world), world, m) && KeepsDirty(old(world), world, m)
    {
      ClearMapEffect(keying, world, m);
      world := ClearMap(world, m);
      hide ArcWorld.Valid, KeepsMapsBut, OnlyMap;
      FamilyKept(keying, old(world), world, m);
    }

    // ----- folding, and writing every shard

    /** Puts the shard dirty at `at` into the table; an empty one leaves the slot empty. */
    method FoldSlot(m: Name, at: nat)
      requires Valid() && m in world.maps && DirtySlot(m, at) in world.held
      modifies this
      ensures Valid() && OnlyMap(old(world), world, m) && Grows(old(world), world)
      ensures forall i: nat :: Entries(world, m, i) == Entries(old(world), m, i)
      ensures forall i: nat :: At(world, DirtySlot(m, i)) == if i == at then None else At(old(world), DirtySlot(m, i))
    {
      hide ArcWorld.Valid, TableHolders, SlotOf, Folded, OnlyTableHolder;
      HeldInUse(keying, world, m, at);
      SlotsMut(m, at);
      label Tabled:
      assert At(world, DirtySlot(m, at)) == At(old(world), DirtySlot(m, at));
      FoldedEffect(keying, world, m, at);
      world := Folded(world, m, at);
      OnlyMapTwice(old(world), old@Tabled(world), world, m);
      OtherSlots(keying, old@Tabled(world), world, m, at);
    }

    /** Moves every dirty shard of an unforked map to its place in the table. */
    method Flatten(m: Name)
      requires Valid() && m in world.maps
      modifies this
      ensures Valid() && Reads() == old(Reads())
      ensures OnlyMap(old(world), world, m)
      ensures !old(world.maps[m].forked) ==> forall i: nat :: DirtySlot(m, i) !in world.held
      ensures old(world.maps[m].forked) ==> world == old(world)
    {
      if world.maps[m].forked {
        return;
      }
      var rest := DirtyKeys(world, m);
      DirtyKeysListed(world, m);
      while rest != {}
        invariant Valid() && m in world.maps
        invariant OnlyMap(old(world), world, m) && Grows(old(world), world)
        invariant forall i: nat :: Entries(world, m, i) == Entries(old(world), m, i)
        invariant forall i: nat :: i in rest <==> At(world, DirtySlot(m, i)).Some?
      {
        label Before:
        var at :| at in rest;
        hide ArcWorld.Valid, OnlyMap, Entries, SlotOf;
        assert At(world, DirtySlot(m, at)).Some?;
        FoldSlot(m, at);
        OnlyMapTwice(old(world), old@Before(world), world, m);
        GrowsTwice(old(world), old@Before(world), world);
        rest := rest - {at};
      }
      assert forall i: nat :: At(world, DirtySlot(m, i)).None?;
      GrowingLeaves(keying, old(world), world, m);
      hide ArcWorld.Valid, Entries, SlotOf, Grows;
      SameEntriesSameContents(keying, old(world), world, m, m);
      FamilyUpdated(keying, old(world), world, m);
    }

    /** One past the last slot `m` may hold a shard at. */
    method End(m: Name) returns (end: nat)
      requires Valid() && m in world.maps
      ensures end <= WORD && forall i: nat | i >= end :: HeldShard(world, m, i).None?
    {
      end := world.maps[m].slots.len;
      var rest := DirtyKeys(world, m);
      DirtyKeysListed(world, m);
      while rest != {}
        invariant world.maps[m].slots.len <= end <= WORD
        invariant forall i: nat | At(world, DirtySlot(m, i)).Some? :: i in rest || i < end
        invariant forall i | i in rest :: i < WORD
      {
        var at :| at in rest;
        end := if at + 1 > end then at + 1 else end;
        rest := rest - {at};
      }
      assert forall p | p in world.held :: PlacedWell(world, p, world.held[p]);
    }

    /** After this, each slot of `m` that holds entries can be written in place. */
    method OpenShards(m: Name, end: nat)
      requires Valid() && m in world.maps && end <= WORD
      requires world.maps[m].forked || forall i: nat :: DirtySlot(m, i) !in world.held
      modifies this
      ensures Valid() && OnlyMap(old(world), world, m) && Grows(old(world), world)
      ensures forall i: nat :: Entries(world, m, i) == Entries(old(world), m, i)
      ensures forall i: nat | i < end && Entries(world, m, i) != map[] :: Writable(world, m, i, PlaceOf(world, m, i))
      ensures KeepsDirty(old(world), world, m)
    {
      ghost var begun := false;
      for at := 0 to end
        invariant Valid() && m in world.maps
        invariant OnlyMap(old(world), world, m) && Grows(old(world), world)
        invariant forall i: nat :: Entries(world, m, i) == Entries(old(world), m, i)
        invariant world.maps[m].forked || forall i: nat :: At(world, DirtySlot(m, i)).None?
        invariant begun && !world.maps[m].forked ==> OnlyTableHolder(world, m)
        invariant forall i: nat | i < at
          && Entries(world, m, i) != map[] :: begun && Writable(world, m, i, PlaceOf(world, m, i))
        invariant KeepsDirty(old(world), world, m)
      {
        if Entries(world, m, at) != map[] {
          label Before:
          OpenShard(m, at, begun);
          begun := true;
          NextGrows(old(world), old@Before(world), m);
          hide ArcWorld.Valid, OnlyMap, Sole, SlotOf, Grows, PlaceOf, HeldShard, Writable, KeepsDirty;
          KeepsDirtyTwice(old(world), old@Before(world), world, m);
          OnlyMapTwice(old(world), old@Before(world), world, m);
          GrowsTwice(old(world), old@Before(world), world);
        }
      }
    }

    /** Opens one shard, leaving those begun before it open. */
    method OpenShard(m: Name, at: nat, ghost begun: bool)
      requires Valid() && m in world.maps && at < WORD && Entries(world, m, at) != map[]
      requires world.maps[m].forked || forall i: nat :: At(world, DirtySlot(m, i)).None?
      requires begun && !world.maps[m].forked ==> OnlyTableHolder(world, m)
      modifies this
      ensures Valid() && OnlyMap(old(world), world, m) && Grows(old(world), world)
      ensures forall i: nat :: Entries(world, m, i) == Entries(old(world), m, i)
      ensures world.maps[m].forked || (OnlyTableHolder(world, m) && forall i: nat :: At(world, DirtySlot(m, i)).None?)
      ensures Writable(world, m, at, PlaceOf(world, m, at)) && KeepsDirty(old(world), world, m)
      ensures forall i: nat | i != at && begun && HeldShard(old(world), m, i).Some?
        && Writable(old(world), m, i, PlaceOf(old(world), m, i)) ::
        Writable(world, m, i, PlaceOf(world, m, i))
    {
      HeldInUse(keying, world, m, at);
      assert forall p | p in world.held :: PlacedWell(world, p, world.held[p]);
      var p := ShardMut(m, at);
      assert p == PlaceOf(world, m, at);
      forall i: nat | i != at && begun && HeldShard(old(world), m, i).Some? && Writable(old(world), m, i,
          PlaceOf(old(world), m, i))
        ensures Writable(world, m, i, PlaceOf(world, m, i))
      {
        WritableKept(keying, old(world), world, m, i, p);
      }
    }

    /** Rewrites the writable shard at `at` in place. */
    method RetainShard(m: Name, at: nat, keep: (Key, Value) -> Option<Value>)
      requires Valid() && m in world.maps && HeldShard(world, m, at).Some?
        && Writable(world, m, at, PlaceOf(world, m, at))
      modifies this
      ensures Valid() && Leaves(old(world), world, m) && world.held == old(world).held && world.maps == old(world).maps
      ensures Entries(world, m, at) == Kept(keep, Entries(old(world), m, at))
      ensures forall i: nat | i != at :: Entries(world, m, i) == Entries(old(world), m, i)
    {
      HeldInUse(keying, world, m, at);
      var a := HeldShard(world, m, at).value;
      var shard := Kept(keep, ShardAt(world, a));
      WriteLeaves(keying, world, m, at, PlaceOf(world, m, at), shard);
      world := Write(world, a, shard);
    }

    /** Retains one slot, leaving every other as it is. */
    method RetainSlot(m: Name, at: nat, keep: (Key, Value) -> Option<Value>)
      requires Valid() && m in world.maps
      requires Entries(world, m, at) != map[] ==> Writable(world, m, at, PlaceOf(world, m, at))
      modifies this
      ensures Valid() && Leaves(old(world), world, m) && world.held == old(world).held && world.maps == old(world).maps
      ensures Entries(world, m, at) == Kept(keep, Entries(old(world), m, at))
      ensures forall i: nat | i != at :: Entries(world, m, i) == Entries(old(world), m, i)
    {
      LeavesSelf(world, m);
      hide ArcWorld.Valid, Sole, SlotOf, OnlyMap, ShardHolders, TableHolders, Leaves, Unique, Writable;
      if HeldShard(world, m, at).Some? {
        UniqueIsWritable(world, m, at);
        if Unique(world, m, PlaceOf(world, m, at)) {
          RetainShard(m, at, keep);
        }
      }
    }

    method RetainShards(m: Name, end: nat, keep: (Key, Value) -> Option<Value>)
      requires Valid() && m in world.maps && forall i: nat | i >= end :: Entries(world, m, i) == map[]
      requires forall i: nat | i < end && Entries(world, m, i) != map[] :: Writable(world, m, i, PlaceOf(world, m, i))
      modifies this
      ensures Valid() && Leaves(old(world), world, m) && world.held == old(world).held && world.maps == old(world).maps
      ensures forall i: nat :: Entries(world, m, i) == Kept(keep, Entries(old(world), m, i))
    {
      ghost var w := world;
      LeavesSelf(world, m);
      hide ArcWorld.Valid, Writable, Leaves, Entries, HeldShard, PlaceOf;
      for at := 0 to end
        invariant Valid() && m in world.maps && RetainedTo(w, world, m, at, keep)
      {
        ghost var before := world;
        WritableAlike(w, world, m, at);
        RetainSlot(m, at, keep);
        LeavesTwice(w, before, world, m);
      }
    }

    /** Drops the entries `keep` refuses and rewrites the others, as `retain` and `iter_mut` do. */
    method Retain(m: Name, keep: (Key, Value) -> Option<Value>)
      requires Valid() && m in world.maps
      modifies this
      ensures Valid() && Reads() == old(Reads())[m := Kept(keep, old(Reads())[m])]
      ensures Retains(keep, old(Reads())[m], Reads()[m])
      ensures OnlyMap(old(world), world, m)
      ensures old(world.maps[m].forked) ==> KeepsDirty(old(world), world, m)
    {
      Flatten(m);
      label Flat:
      var end := End(m);
      OpenShards(m, end);
      label Open:
      assert forall i: nat | i >= end :: Entries(world, m, i) == map[];
      GrowingLeaves(keying, old@Flat(world), world, m);
      RetainShards(m, end, keep);
      hide ArcWorld.Valid, OnlyMap, Grows;
      LeavesTwice(old@Flat(world), old@Open(world), world, m);
      FamilyUpdated(keying, old@Flat(world), world, m);
      OnlyMapTwice(old(world), old@Flat(world), world, m) by { assert Leaves(old@Flat(world), world, m); }
      KeptContents(keying, old@Flat(world), world, m, keep);
      KeptRetains(keep, old(Reads())[m]);
    }

    // ----- reading whole maps

    method Len(m: Name) returns (n: nat)
      requires Valid() && m in world.maps
      ensures n == |Reads()[m]|
    {
      var end := End(m);
      n := 0;
      ghost var contents := Contents(keying, world, m);
      ghost var below: set<Key> := {};
      PastEnd(keying, world, m, end);
      assert below == KeysBelow(keying, contents, 0);
      hide ArcWorld.Valid, SlotOf, Entries, Contents, HeldShard, KeysBelow;
      for at := 0 to end
        invariant below == KeysBelow(keying, contents, at)
        invariant n == |below|
      {
        var shard := Entries(world, m, at);
        ShardOfContents(keying, world, m, at);
        BelowNext(keying, contents, at, shard);
        n := n + |shard|;
        below := below + shard.Keys;
      }
      AllBelow(keying, contents, end);
    }

    /** The entries of one shard, in any order. */
    static method ListShard(shard: Shard) returns (items: seq<(Key, Value)>)
      ensures forall k, v :: (k, v) in items <==> Lookup(shard, k) == Some(v)
      ensures forall i, j | 0 <= i < j < |items| :: items[i].0 != items[j].0
    {
      items := [];
      var rest := shard.Keys;
      while rest != {}
        invariant forall k, v :: (k, v) in items <==> k !in rest && Lookup(shard, k) == Some(v)
        invariant forall i, j | 0 <= i < j < |items| :: items[i].0 != items[j].0
      {
        var k :| k in rest;
        assert forall i | 0 <= i < |items| :: items[i] in items;
        items := items + [(k, shard[k])];
        rest := rest - {k};
      }
    }

    /** The entries of `m`, shard by shard in slot order, each shard in any order. */
    method Iter(m: Name) returns (items: seq<(Key, Value)>)
      requires Valid() && m in world.maps
      ensures forall k, v :: (k, v) in items <==> Lookup(Reads()[m], k) == Some(v)
      ensures forall i, j | 0 <= i < j < |items| ::
              items[i].0 != items[j].0 && SlotOf(keying, items[i].0) <= SlotOf(keying, items[j].0)
    {
      var end := End(m);
      items := [];
      ghost var contents := Contents(keying, world, m);
      NoItems(keying, contents);
      PastEnd(keying, world, m, end);
      hide ArcWorld.Valid, SlotOf, Entries, Contents, HeldShard;
      hide Lookup;
      for at := 0 to end
        invariant ItemsBelow(keying, contents, at, items)
        invariant Ordered(keying, items)
      {
        ShardOfContents(keying, world, m, at);
        var more := ListShard(Entries(world, m, at));
        ItemsNext(keying, contents, at, items, Entries(world, m, at), more);
        items := items + more;
      }
      AllItems(keying, contents, end, items);
    }

    /**
     * The entries held in the shard of file `id`: those the file owns while
     * its slot fits a dirty key, else those of the page the key collides with,
     * if a dirty shard of it is held.
     */
    method FileEntries(m: Name, id: nat) returns (entries: map<Key, Value>)
      requires Valid() && m in world.maps
      ensures FileSlot(keying.paged, id) < WORD ==>
                entries == map k | k in Reads()[m] && keying.owner(k) == File(id) :: Reads()[m][k]
      ensures FileSlot(keying.paged, id) >= WORD ==>
                var word := DirtyWord(FileSlot(keying.paged, id));
                entries == map k | k in Reads()[m] && SlotOf(keying, k) == word && DirtySlot(m, word) in world.held
                    :: Reads()[m][k]
    {
      hide ArcWorld.Valid, Contents, SlotOf, Entries, ShardRead, DirtyWord, FileSlot;
      var at := FileSlot(keying.paged, id);
      entries := ShardRead(world, m, at);
      ShardReadIs(keying, world, m, at);
      EntriesAre(keying, world, m, DirtyWord(at));
      forall k ensures SlotOf(keying, k) == at <==> keying.owner(k) == File(id) {
        FileShardHoldsItsKeys(keying, k, id);
      }
    }

    // ----- moving shards between a map and an install's local variables

    /** Takes the shard `m` holds at `at` into `hand`: moved when `m` alone reaches it, else shared. */
    method TakeHeldShard(m: Name, at: nat, hand: Place)
      requires Valid() && m in world.maps && hand.IsHand() && hand.at == at && hand !in world.held
      modifies this
      ensures Valid() && world.maps == old(world.maps) && world.shards == old(world.shards)
        && world.next == old(world.next)
      ensures At(world, hand) == HeldShard(old(world), m, at)
      ensures forall q: Place | q != hand
        && !(q.at == at && Owns(old(world), m, q)) :: At(world, q) == At(old(world), q)
    {
      HeldInUse(keying, world, m, at);
      var held := HeldShard(world, m, at);
      if held.Some? {
        var p := PlaceOf(world, m, at);
        if p.TableSlot? && |TableHolders(world, p.table)| == 1 {
          CountedOnceTable(world, m);
        }
        if p.DirtySlot? || |TableHolders(world, p.table)| == 1 {
          ReleaseEffect(keying, world, m, p);
          world := Release(world, p);
        }
        world := Hold(world, hand, held.value);
      }
    }

    /** Whether installs into `m` write apart: a fork's always, another map's while its table is shared. */
    predicate WritesApart(m: Name)
      requires m in world.maps
      reads this
    {
      world.maps[m].forked || |TableHolders(world, world.maps[m].slots)| > 1
    }

    /** Puts the shard in `hand`, or none, at `at` of `m` for an install. */
    method PlaceShard(m: Name, at: nat, hand: Place)
      requires Valid() && m in world.maps && hand.IsHand() && hand.at == at < WORD
      modifies this
      ensures Valid() && OnlyMap(Release(old(world), hand), world, m) && Grows(old(world), world)
      ensures Entries(world, m, at) == ShardOf(old(world), At(old(world), hand))
      ensures forall i: nat | i != at :: Entries(world, m, i) == Entries(old(world), m, i)
      ensures if old(world.maps[m].forked || !OnlyTableHolder(world, m)) then world.maps == old(world.maps)
              else OnlyTableHolder(world, m) && DirtySlot(m, at) !in world.held
    {
      SoleOrShared(world, m);
      var held := At(world, hand);
      ReleaseHand(keying, world, hand);
      world := Release(world, hand);
      if WritesApart(m) {
        PlaceApart(m, at, held);
      } else {
        PlaceInSlots(m, at, held);
      }
    }

    method PlaceApart(m: Name, at: nat, held: Option<ShardId>)
      requires Valid() && m in world.maps && at < WORD
      requires held.Some? ==> held.value.slot == at && held.value.id < world.next
      modifies this
      ensures Valid() && OnlyMap(old(world), world, m) && Grows(old(world), world)
      ensures Entries(world, m, at) == ShardOf(old(world), held)
      ensures forall i: nat | i != at :: Entries(world, m, i) == Entries(old(world), m, i)
      ensures world.maps == old(world.maps)
        && forall q: Place | q != DirtySlot(m, at) :: At(world, q) == At(old(world), q)
    {
      var p := DirtySlot(m, at);
      if held.None? {
        HoldNew(m, p, map[]);
      } else {
        HoldEffect(keying, world, m, p, held.value);
        world := Hold(world, p, held.value);
      }
      OtherSlots(keying, old(world), world, m, at);
    }

    method PlaceInSlots(m: Name, at: nat, held: Option<ShardId>)
      requires Valid() && m in world.maps && at < WORD
      requires held.Some? ==> held.value.slot == at && held.value.id < world.next
      modifies this
      ensures Valid() && OnlyMap(old(world), world, m) && Grows(old(world), world)
      ensures Entries(world, m, at) == ShardOf(old(world), held)
      ensures forall i: nat | i != at :: Entries(world, m, i) == Entries(old(world), m, i)
      ensures OnlyTableHolder(world, m) && DirtySlot(m, at) !in world.held
    {
      SlotsMut(m, at);
      label Tabled:
      PlaceInTable(m, at, held);
      hide ArcWorld.Valid, TableHolders;
      OnlyMapTwice(old(world), old@Tabled(world), world, m);
      OtherSlots(keying, old@Tabled(world), world, m, at);
    }

    method PlaceInTable(m: Name, at: nat, held: Option<ShardId>)
      requires Valid() && m in world.maps && at < world.maps[m].slots.len && OnlyTableHolder(world, m)
      requires held.Some? ==> held.value.slot == at && held.value.id < world.next
      modifies this
      ensures Valid() && OnlyMap(old(world), world, m) && world.maps == old(world.maps)
        && world.shards == old(world.shards)
      ensures HeldShard(world, m, at) == held && DirtySlot(m, at) !in world.held
      ensures forall q: Place | q.at != at :: At(world, q) == At(old(world), q)
    {
      ReleaseEffect(keying, world, m, DirtySlot(m, at));
      world := Release(world, DirtySlot(m, at));
      label Undirtied:
      var p := TableSlot(world.maps[m].slots, at);
      if held.None? {
        ReleaseEffect(keying, world, m, p);
        world := Release(world, p);
      } else {
        HoldEffect(keying, world, m, p, held.value);
        world := Hold(world, p, held.value);
      }
      OnlyMapTwice(old(world), old@Undirtied(world), world, m);
    }

    /** Opens slot `at` of an installing map, apart while others share its table. */
    method InstallShardMut(m: Name, at: nat) returns (p: Place)
      requires Valid() && m in world.maps && at < WORD
      modifies this
      ensures Valid() && OnlyMap(old(world), world, m) && Grows(old(world), world) && Writable(world, m, at, p)
      ensures forall i: nat :: Entries(world, m, i) == Entries(old(world), m, i)
    {
      if WritesApart(m) {
        p := DirtySlot(m, at);
        DirtyShardMut(m, at);
        hide ArcWorld.Valid, OnlyMap, Sole;
        OtherSlots(keying, old(world), world, m, at);
      } else {
        p := ShardMut(m, at);
      }
    }

    // ----- installing a fork

    /** Places the fork's shard in `hand` where the index still held what the fork was forked from. */
    method InstallWhole(self: Name, at: nat, hand: Place)
      requires Valid() && self in world.maps && hand.IsHand() && hand.at == at < WORD
      modifies this
      ensures Valid() && world.maps.Keys == old(world.maps.Keys)
      ensures forall n | n in world.maps && n != self :: Untouched(old(world), world, n)
      ensures forall p: Place | p.IsHand() :: At(world, p) == if p == hand then None else At(old(world), p)
      ensures Entries(world, self, at) == ShardOf(old(world), At(old(world), hand))
      ensures forall i: nat | i != at :: Entries(world, self, i) == Entries(old(world), self, i)
    {
      ReleaseHand(keying, world, hand);
      PlaceShard(self, at, hand);
      ghost var released := Release(old(world), hand);
      GrowingLeaves(keying, released, world, self);
      assert forall p: Place | p.IsHand() :: !Owns(released, self, p);
      forall n | n in world.maps && n != self ensures Untouched(old(world), world, n) {
        ReleaseHandUntouched(keying, old(world), hand, n);
        LeavesUntouched(keying, released, world, self, n);
        UntouchedTwice(old(world), released, world, n);
      }
    }

    /** Writes a merged shard at `at` of `self`. */
    method InstallMerged(self: Name, at: nat, merge: Option<Merge<Value>>, was: Shard,
                         forked: Shard) returns (conflicted: bool)
      requires Valid() && self in world.maps && at < WORD && InSlot(keying, was, at) && InSlot(keying, forked, at)
      modifies this
      ensures Valid() && Leaves(old(world), world, self)
      ensures Entries(world, self, at) == MergeMaps(merge, Entries(old(world), self, at), was, forked)
      ensures conflicted <==> MapsConflict(merge, Entries(old(world), self, at), was, forked)
      ensures forall i: nat | i != at :: Entries(world, self, i) == Entries(old(world), self, i)
    {
      var p := InstallShardMut(self, at);
      label Open:
      GrowingLeaves(keying, old(world), world, self);
      HeldInUse(keying, world, self, at);
      var target;
      target, conflicted := MergeShard(merge, Entries(world, self, at), was, forked);
      var a := HeldShard(world, self, at).value;
      hide ArcWorld.Valid, OnlyMap, Sole, Owns, Grows, SlotOf, HeldShard;
      WriteLeaves(keying, world, self, at, p, target);
      world := Write(world, a, target);
      LeavesTwice(old(world), old@Open(world), world, self);
    }

    /** One slot of an install: skipped, moved whole or merged by key. */
    method InstallSlot(self: Name, frozen: Name, fork: Name, at: nat,
                       merge: Option<Merge<Value>>) returns (conflicted: bool)
      requires Valid() && NoHands(world) && Distinct(world, self, frozen, fork) && at < WORD
      modifies this
      ensures Valid() && NoHands(world) && world.maps.Keys == old(world.maps.Keys)
      ensures forall n | n in world.maps && n != self && n != fork :: Untouched(old(world), world, n)
      ensures UntouchedBut(old(world), world, fork, at)
      ensures Entries(world, self, at) == MergeMaps(merge, Entries(old(world), self, at),
          Entries(old(world), frozen, at), Entries(old(world), fork, at))
      ensures conflicted <==> MapsConflict(merge, Entries(old(world), self, at), Entries(old(world), frozen, at),
          Entries(old(world), fork, at))
      ensures forall i: nat | i != at :: Entries(world, self, i) == Entries(old(world), self, i)
    {
      conflicted := false;
      UnwrittenForkIsIdentity(merge, Entries(world, self, at), Entries(world, frozen, at));
      UnchangedIndexBecomesFork(merge, Entries(world, frozen, at), Entries(world, fork, at));
      if HeldShard(world, frozen, at) == HeldShard(world, fork, at) {
        return;
      }
      var hand := ForkHand(0, at);
      var was := Entries(world, frozen, at);
      HeldInUse(keying, world, frozen, at);
      assert At(world, hand).None?;
      Take(fork, at, hand);
      label Taken:
      hide ArcWorld.Valid, SlotOf, MapsConflict, MergeMaps, UntouchedBut;
      assert Untouched(old(world), world, self) && Untouched(old(world), world, frozen);
      if HeldShard(world, frozen, at) == HeldShard(world, self, at) {
        InstallWhole(self, at, hand);
      } else {
        conflicted := InstallTaken(self, at, hand, merge, was);
      }
      hide Entries, HeldShard;
      forall n | n in world.maps && n != self && n != fork ensures Untouched(old(world), world, n) {
        UntouchedTwice(old(world), old@Taken(world), world, n);
      }
      UntouchedButTwice(old(world), old@Taken(world), world, fork, at);
    }

    /** Takes the shard a map holds at `at` into `hand`, touching nothing else. */
    method Take(fork: Name, at: nat, hand: Place)
      requires Valid() && fork in world.maps && hand.IsHand() && hand.at == at && hand !in world.held
      modifies this
      ensures Valid() && world.maps == old(world.maps) && world.next == old(world.next)
      ensures forall n | n in world.maps && n != fork :: Untouched(old(world), world, n)
      ensures UntouchedBut(old(world), world, fork, at)
      ensures forall p: Place | p.IsHand() && p != hand :: At(world, p) == At(old(world), p)
      ensures world.shards == old(world.shards) && At(world, hand) == HeldShard(old(world), fork, at)
      ensures ShardOf(world, At(world, hand)) == Entries(old(world), fork, at)
      ensures InSlot(keying, Entries(old(world), fork, at), at)
    {
      HeldInUse(keying, world, fork, at);
      TakeHeldShard(fork, at, hand);
      hide ArcWorld.Valid, Untouched, UntouchedBut, SlotOf;
      forall n | n in world.maps ensures n != fork ==> Untouched(old(world), world, n)
          ensures n == fork ==> UntouchedBut(old(world), world, n, at) {
        TakenUntouched(old(world), world, fork, at, hand, n);
      }
    }

    /** Merges the shard in `hand` into `self`, whose own has changed too. */
    method InstallTaken(self: Name, at: nat, hand: Place, merge: Option<Merge<Value>>,
                        was: Shard) returns (conflicted: bool)
      requires Valid() && self in world.maps && hand.IsHand() && hand.at == at < WORD
      requires InSlot(keying, was, at) && InSlot(keying, ShardOf(world, At(world, hand)), at)
      modifies this
      ensures Valid() && world.maps.Keys == old(world.maps.Keys)
      ensures forall n | n in world.maps && n != self :: Untouched(old(world), world, n)
      ensures forall p: Place | p.IsHand() :: At(world, p) == if p == hand then None else At(old(world), p)
      ensures Entries(world, self, at) == MergeMaps(merge, Entries(old(world), self, at), was,
          ShardOf(old(world), At(old(world), hand)))
      ensures conflicted <==> MapsConflict(merge, Entries(old(world), self, at), was,
          ShardOf(old(world), At(old(world), hand)))
      ensures forall i: nat | i != at :: Entries(world, self, i) == Entries(old(world), self, i)
    {
      var forked := ShardOf(world, At(world, hand));
      ReleaseHand(keying, world, hand);
      world := Release(world, hand);
      label Released:
      conflicted := InstallMerged(self, at, merge, was, forked);
      assert forall p: Place | p.IsHand() :: !Owns(old@Released(world), self, p);
      forall n | n in world.maps && n != self ensures Untouched(old(world), world, n) {
        ReleaseHandUntouched(keying, old(world), hand, n);
        LeavesUntouched(keying, old@Released(world), world, self, n);
        UntouchedTwice(old(world), old@Released(world), world, n);
      }
    }

    /** A fork with the frozen table differs from it in its dirty slots at most; any other fork may anywhere. */
    method ForkedSlots(frozen: Name, fork: Name) returns (slots: set<nat>)
      requires Valid() && frozen in world.maps && fork in world.maps && ForkOf(world, frozen, fork)
      ensures forall i | i in slots :: i < WORD
      ensures forall i: nat | i !in slots :: HeldShard(world, frozen, i) == HeldShard(world, fork, i)
    {
      if world.maps[fork].slots == world.maps[frozen].slots {
        slots := DirtyKeys(world, fork);
        DirtyKeysListed(world, fork);
        forall i: nat | i !in slots ensures HeldShard(world, frozen, i) == HeldShard(world, fork, i) {
          assert At(world, DirtySlot(fork, i)).None?;
        }
      } else {
        var end := End(fork);
        var frozenEnd := End(frozen);
        slots := {};
        for i := 0 to if end < frozenEnd then frozenEnd else end
          invariant forall j: nat :: j in slots <==> j < i
        {
          slots := slots + {i};
        }
      }
    }

    /**
     * Installs one fork, slot after slot. Whatever path each slot took, the
     * index becomes the three-way merge of the finite maps,
     * and a conflict is reported exactly when some key conflicts.
     */
    method InstallWith(self: Name, frozen: Name, fork: Name, merge: Option<Merge<Value>>) returns (conflicted: bool)
      requires Valid() && NoHands(world) && Distinct(world, self, frozen, fork) && ForkOf(world, frozen, fork)
      modifies this
      ensures Valid() && NoHands(world)
      ensures Reads() == (old(Reads()) - {fork})[self := MergeMaps(merge, old(Reads())[self], old(Reads())[frozen],
          old(Reads())[fork])]
      ensures conflicted <==> MapsConflict(merge, old(Reads())[self], old(Reads())[frozen], old(Reads())[fork])
      ensures forall n | n in world.maps && n != self :: Untouched(old(world), world, n)
      ensures world.maps.Keys == old(world.maps.Keys) - {fork}
    {
      var slots := ForkedSlots(frozen, fork);
      UnforkedSlots(world, self, frozen, fork, merge, slots);
      SlotwiseConflict(keying, world, self, frozen, fork, merge);
      hide ArcWorld.Valid, MergeMaps, SlotConflict, MergedSlot, NoHands, Untouched, Entries;
      conflicted := InstallSlots(self, frozen, fork, merge, slots);
      SlotwiseContents(keying, old(world), world, self, frozen, fork, merge);
      FamilyInstalled(keying, old(world), world, self, fork);
      label Installed:
      Drop(fork);
      DropUntouched(old(world), old@Installed(world), world, self, fork);
    }

    /** Installs `slots` of `fork`, in any order. */
    method InstallSlots(self: Name, frozen: Name, fork: Name, merge: Option<Merge<Value>>,
                        slots: set<nat>) returns (conflicted: bool)
      requires Valid() && NoHands(world) && Distinct(world, self, frozen, fork) && forall i | i in slots :: i < WORD
      modifies this
      ensures Valid() && NoHands(world) && OthersUntouched(old(world), world, self, fork)
      ensures forall i: nat | i in slots ::
              Entries(world, self, i) == MergedSlot(old(world), self, frozen, fork, i, merge)
      ensures forall i: nat | i !in slots :: Entries(world, self, i) == Entries(old(world), self, i)
      ensures conflicted <==> exists i | i in slots :: SlotConflict(old(world), self, frozen, fork, i, merge)
    {
      conflicted := false;
      var rest := slots;
      hide ArcWorld.Valid, Fits, MergeMaps, MapsConflict, HeldShard, At, Entries, NoHands, Untouched, UntouchedBut;
      UntouchedSelf(world);
      while rest != {}
        invariant Valid() && NoHands(world) && rest <= slots
        invariant OthersUntouched(old(world), world, self, fork)
        invariant forall i | i in rest :: Entries(world, fork, i) == Entries(old(world), fork, i)
        invariant forall i | i in rest :: Entries(world, self, i) == Entries(old(world), self, i)
        invariant forall i | i in slots
          && i !in rest :: Entries(world, self, i) == MergedSlot(old(world), self, frozen, fork, i, merge)
        invariant forall i: nat | i !in slots :: Entries(world, self, i) == Entries(old(world), self, i)
        invariant conflicted <==> exists i | i in slots && i !in rest :: SlotConflict(old(world), self, frozen, fork,
            i, merge)
      {
        label Before:
        var at :| at in rest;
        rest := rest - {at};
        UntouchedEntries(old(world), world, frozen);
        var c := InstallSlot(self, frozen, fork, at, merge);
        assert c == SlotConflict(old(world), self, frozen, fork, at, merge);
        conflicted := conflicted || c;
        UntouchedButEntries(old@Before(world), world, fork, at);
        OthersUntouchedTwice(old(world), old@Before(world), world, self, fork);
      }
    }

    // ----- installing every fork of a superstep, shard by shard

    /** Makes the shard in the hand at `at` writable, making an empty one when there is none. */
    method MakeHandMut(at: nat)
      requires Valid() && at < WORD
      modifies this
      ensures Valid() && OnlyHand(old(world), world, SelfHand(at))
      ensures At(world, SelfHand(at)).Some? && Sole(world, SelfHand(at), At(world, SelfHand(at)).value)
      ensures HandShard(world, SelfHand(at)) == HandShard(old(world), SelfHand(at))
    {
      var hand := SelfHand(at);
      if hand in world.held && |ShardHolders(world, world.held[hand])| <= 1 {
        CountedOnce(world, hand, world.held[hand]);
        UntouchedSelf(world);
      } else {
        HandInSlot(keying, world, hand);
        HoldNewHand(keying, world, hand, HandShard(world, hand));
        world := WithNew(world, hand, HandShard(world, hand));
      }
    }

    /** Installs the shard fork `i` left at `at` into the shard in hand, as an install writing apart does. */
    method InstallHand(frozen: Name, at: nat, i: nat, merge: Option<Merge<Value>>) returns (conflicted: bool)
      requires Valid() && frozen in world.maps && at < WORD
      modifies this
      ensures Valid() && OnlyPair(old(world), world, SelfHand(at), ForkHand(i, at)) && At(world, ForkHand(i, at)).None?
      ensures HandShard(world, SelfHand(at)) ==
        MergeMaps(merge, HandShard(old(world), SelfHand(at)), Entries(old(world), frozen, at),
            HandShard(old(world), ForkHand(i, at)))
      ensures conflicted <==>
        MapsConflict(merge, HandShard(old(world), SelfHand(at)), Entries(old(world), frozen, at),
            HandShard(old(world), ForkHand(i, at)))
    {
      conflicted := false;
      var self, hand := SelfHand(at), ForkHand(i, at);
      var was := HeldShard(world, frozen, at);
      HandInSlot(keying, world, hand);
      HandInSlot(keying, world, self);
      HeldInUse(keying, world, frozen, at);
      UnchangedIndexBecomesFork(merge, ShardOf(world, was), HandShard(world, hand));
      if was == At(world, self) {
        TakeHand(at, i);
      } else {
        conflicted := MergeHand(at, i, merge, ShardOf(world, was));
      }
    }

    /** The fork's shard, or an empty one, replaces the shard in hand. */
    method TakeHand(at: nat, i: nat)
      requires Valid() && at < WORD
      modifies this
      ensures Valid() && OnlyPair(old(world), world, SelfHand(at), ForkHand(i, at)) && At(world, ForkHand(i, at)).None?
      ensures HandShard(world, SelfHand(at)) == HandShard(old(world), ForkHand(i, at))
    {
      var self, hand := SelfHand(at), ForkHand(i, at);
      HandInSlot(keying, world, hand);
      var held := At(world, hand);
      ReleaseHandOnly(keying, world, hand);
      world := Release(world, hand);
      label Released:
      if held.Some? {
        HoldHandOnly(keying, world, self, held.value);
        world := Hold(world, self, held.value);
      } else {
        HoldNewHand(keying, world, self, map[]);
        world := WithNew(world, self, map[]);
      }
      hide ArcWorld.Valid, OnlyHand;
      OnlyHandTwice(old(world), old@Released(world), world, self, hand);
    }

    /** Merges the fork's shard into the shard in hand. */
    method MergeHand(at: nat, i: nat, merge: Option<Merge<Value>>, was: Shard) returns (conflicted: bool)
      requires Valid() && at < WORD && InSlot(keying, was, at)
      modifies this
      ensures Valid() && OnlyPair(old(world), world, SelfHand(at), ForkHand(i, at)) && At(world, ForkHand(i, at)).None?
      ensures HandShard(world, SelfHand(at)) ==
        MergeMaps(merge, HandShard(old(world), SelfHand(at)), was, HandShard(old(world), ForkHand(i, at)))
      ensures conflicted <==>
        MapsConflict(merge, HandShard(old(world), SelfHand(at)), was, HandShard(old(world), ForkHand(i, at)))
    {
      var self, hand := SelfHand(at), ForkHand(i, at);
      var forked := HandShard(world, hand);
      HandInSlot(keying, world, hand);
      HandInSlot(keying, world, self);
      ReleaseHandOnly(keying, world, hand);
      world := Release(world, hand);
      label Released:
      MakeHandMut(at);
      label Made:
      var target;
      target, conflicted := MergeShard(merge, HandShard(world, self), was, forked);
      WriteHand(keying, world, self, target);
      world := Write(world, At(world, self).value, target);
      hide ArcWorld.Valid, Sole;
      OnlyHandTwiceSame(old@Released(world), old@Made(world), world, self);
      OnlyHandTwice(old(world), old@Released(world), world, self, hand);
    }

    /** Installs into the shard in hand, in order, the shards the forks `took` left at `at`. */
    method InstallHands(frozen: Name, at: nat, took: set<nat>, merge: Option<Merge<Value>>, n: nat,
                        ghost left: seq<Shard>, ghost was: Shard, ghost now: Shard) returns (conflicts: set<nat>)
      requires Valid() && frozen in world.maps && at < WORD && |left| == n
        && LeftInHandsFrom(world, frozen, at, took, left, 0)
      requires was == Entries(world, frozen, at) && now == HandShard(world, SelfHand(at))
      modifies this
      ensures Valid() && OnlyHandsAt(old(world), world, at)
      ensures forall i: nat :: At(world, ForkHand(i, at)).None?
      ensures HandShard(world, SelfHand(at)) == FoldMaps(merge, was, now, left)
      ensures forall i: nat :: i in conflicts <==> i < n && ForkConflicts(merge, was, now, left, i)
    {
      conflicts := {};
      hide *;
      OnlyHandsAtSelf(world, at);
      NoForks(merge, was, now, left);
      for i := 0 to n
        invariant Valid() && OnlyHandsAt(old(world), world, at)
        invariant frozen in world.maps && LeftInHandsFrom(world, frozen, at, took, left, i)
        invariant HandShard(world, SelfHand(at)) == FoldMaps(merge, was, now, left[..i])
        invariant forall j: nat :: j in conflicts <==> j < i && ForkConflicts(merge, was, now, left, j)
      {
        label Before:
        OnlyHandsAtMaps(old(world), world, at, frozen);
        ForkStep(merge, was, now, left, i);
        LeftNext(world, frozen, at, took, left, i);
        if i in took {
          var c := InstallHand(frozen, at, i, merge);
          if c {
            conflicts := conflicts + {i};
          }
          OnlyHandsAtStep(old(world), old@Before(world), world, at, i);
          LeftKept(old@Before(world), world, frozen, at, took, left, i);
        }
      }
      assert left[..n] == left;
      LeftDone(world, frozen, at, took, left);
    }

    /** Installs slot `at` of every fork at once: takes the held shard, installs into it, and keeps it dirty. */
    method InstallShard(self: Name, frozen: Name, at: nat, took: set<nat>, merge: Option<Merge<Value>>, n: nat,
                        ghost left: seq<Shard>, ghost was: Shard, ghost now: Shard) returns (conflicts: set<nat>)
      requires Valid() && self in world.maps && frozen in world.maps && self != frozen && at < WORD && |left| == n
      requires LeftInHandsFrom(world, frozen, at, took, left, 0) && At(world, SelfHand(at)).None?
      requires was == Entries(world, frozen, at) && now == Entries(world, self, at)
      modifies this
      ensures Valid() && world.maps == old(world.maps) && ShardInstalled(old(world), world, self, at)
      ensures Entries(world, self, at) == FoldMaps(merge, was, now, left)
      ensures forall i: nat :: i in conflicts <==> i < n && ForkConflicts(merge, was, now, left, i)
    {
      var hand := SelfHand(at);
      assert hand !in world.held;
      Take(self, at, hand);
      label Taken:
      LeftTaken(old(world), world, frozen, at, took, left);
      hide *;
      UntouchedEntries(old(world), world, frozen);
      conflicts := InstallHands(frozen, at, took, merge, n, left, was, now);
      label Installed:
      OnlyHandsAtMaps(old@Taken(world), world, at, self);
      KeepDirty(self, at);
      ShardInstalledSteps(old(world), old@Taken(world), old@Installed(world), world, self, at);
    }

    /** Files the shard in hand, or an empty one, in the dirty list. */
    method KeepDirty(self: Name, at: nat)
      requires Valid() && self in world.maps && at < WORD
      modifies this
      ensures Valid() && world.maps == old(world.maps)
      ensures Entries(world, self, at) == HandShard(old(world), SelfHand(at))
      ensures ShardKept(old(world), world, self, at)
    {
      var hand := SelfHand(at);
      var held := At(world, hand);
      HandInSlot(keying, world, hand);
      ReleaseHandOnly(keying, world, hand);
      world := Release(world, hand);
      label Released:
      PlaceApart(self, at, held);
      GrowingLeaves(keying, old@Released(world), world, self);
      hide ArcWorld.Valid;
      KeptSteps(keying, old(world), old@Released(world), world, self, at);
    }

    /** Takes every shard fork `i` changed into hands, and drops the fork. Returns the slots it changed. */
    method GatherFork(frozen: Name, fork: Name, i: nat) returns (slots: set<nat>)
      requires Valid() && frozen in world.maps && fork in world.maps && frozen != fork && ForkOf(world, frozen, fork)
      requires forall at: nat :: At(world, ForkHand(i, at)).None?
      modifies this
      ensures Valid() && world.shards == old(world.shards) && world.maps.Keys == old(world.maps.Keys) - {fork}
      ensures forall n | n in world.maps :: Untouched(old(world), world, n)
      ensures forall at: nat :: at in slots <==> HeldShard(old(world), frozen, at) != HeldShard(old(world), fork, at)
      ensures forall at: nat ::
              At(world, ForkHand(i, at)) == if at in slots then HeldShard(old(world), fork, at) else None
      ensures forall p: Place | p.IsHand() && !(p.ForkHand? && p.fork == i) :: At(world, p) == At(old(world), p)
    {
      var forked := ForkedSlots(frozen, fork);
      slots := GatherSlots(frozen, fork, i, forked);
      label Gathered:
      Drop(fork);
      hide ArcWorld.Valid, HeldShard, Entries;
      forall n | n in world.maps ensures Untouched(old(world), world, n) {
        KeptUntouched(old@Gathered(world), world, fork, n);
        UntouchedTwice(old(world), old@Gathered(world), world, n);
      }
      assert forall p: Place | p.IsHand() :: At(world, p) == At(old@Gathered(world), p);
    }

    method GatherSlots(frozen: Name, fork: Name, i: nat, forked: set<nat>) returns (slots: set<nat>)
      requires Valid() && frozen in world.maps && fork in world.maps && frozen != fork
      requires forall at: nat :: At(world, ForkHand(i, at)).None?
      modifies this
      ensures Valid() && world.shards == old(world.shards) && world.maps == old(world.maps)
      ensures forall n | n in world.maps && n != fork :: Untouched(old(world), world, n)
      ensures forall at: nat ::
              at in slots <==> at in forked && HeldShard(old(world), frozen, at) != HeldShard(old(world), fork, at)
      ensures forall at: nat ::
              At(world, ForkHand(i, at)) == if at in slots then HeldShard(old(world), fork, at) else None
      ensures forall p: Place | p.IsHand() && !(p.ForkHand? && p.fork == i) :: At(world, p) == At(old(world), p)
    {
      slots := {};
      var rest := forked;
      UntouchedSelf(world);
      while rest != {}
        invariant Valid() && world.shards == old(world.shards) && world.maps == old(world.maps)
        invariant forall n | n in world.maps && n != fork :: Untouched(old(world), world, n)
        invariant rest <= forked
          && forall at | at in rest :: at !in slots && HeldShard(world, fork, at) == HeldShard(old(world), fork, at)
        invariant forall at: nat | at !in rest ::
                at in slots <==> at in forked && HeldShard(old(world), frozen, at) != HeldShard(old(world), fork, at)
        invariant forall at: nat ::
                At(world, ForkHand(i, at)) == if at in slots then HeldShard(old(world), fork, at) else None
        invariant forall p: Place | p.IsHand() && !(p.ForkHand? && p.fork == i) :: At(world, p) == At(old(world), p)
      {
        label Before:
        var at :| at in rest;
        rest := rest - {at};
        UntouchedHeld(old(world), world, frozen, at);
        if HeldShard(world, frozen, at) != HeldShard(world, fork, at) {
          assert At(world, ForkHand(i, at)).None?;
          Take(fork, at, ForkHand(i, at));
          slots := slots + {at};
          hide ArcWorld.Valid, Untouched, Entries, HeldShard, UntouchedBut, At, Fits;
          UntouchedButHeld(old@Before(world), world, fork, at);
          UntouchedAllTwice(old(world), old@Before(world), world, fork);
        }
      }
    }

    /** Takes every shard each fork changed into hands, and drops the forks. */
    method GatherForks(frozen: Name, forks: seq<Name>) returns (took: set<(nat, nat)>)
      requires Valid() && NoHands(world) && Forks(world, frozen, forks)
      modifies this
      ensures Valid() && Gathered(old(world), world, frozen, forks, |forks|, took)
    {
      hide *;
      took := {};
      GatheredNone(world, frozen, forks);
      for i := 0 to |forks|
        invariant Valid() && Gathered(old(world), world, frozen, forks, i, took)
      {
        label Before:
        NextFork(old(world), world, frozen, forks, i, took);
        var slots := GatherFork(frozen, forks[i], i);
        GatheredNext(old(world), old@Before(world), world, frozen, forks, i, took, slots);
        took := took + set at | at in slots :: (at, i);
      }
    }

    /** Installs every gathered shard, one slot after another in any order. Returns the forks that conflicted. */
    method InstallShards(self: Name, frozen: Name, took: set<(nat, nat)>, merge: Option<Merge<Value>>,
                         ghost w0: World, ghost forks: seq<Name>, n: nat)
      returns (conflicts: set<nat>)
      requires Valid() && n == |forks| && Forks(w0, frozen, forks) && ArcWorld.Valid(keying, w0)
      requires self in w0.maps && self != frozen && self !in forks && Gathered(w0, world, frozen, forks, n, took)
      modifies this
      ensures Valid() && NoHands(world) && world.maps == old(world.maps)
      ensures forall m | m in world.maps && m != self :: Untouched(old(world), world, m)
      ensures forall at: nat :: Entries(world, self, at) == SlotFold(w0, self, frozen, forks, merge, at)
      ensures forall i: nat ::
              i in conflicts <==> i < n && exists at: nat :: SlotForkConflict(w0, self, frozen, forks, merge, at, i)
    {
      hide ArcWorld.Valid, Fits, Entries, HeldShard, At, HandShard, Untouched, UntouchedBut, Gathered, Pending;
      hide ShardInstalled, LeftInHandsFrom, FoldMaps, ForkConflicts, NoHands, ForkChanged, ForkOf;
      hide SlotsTaken, ForksTaken;
      conflicts := {};
      var slots := SlotsTaken(took);
      var rest := slots;
      PendingStart(w0, world, self, frozen, forks, merge, took);
      while rest != {}
        invariant Valid() && rest <= slots && Pending(w0, old(world), world, self, frozen, forks, merge, slots, rest)
        invariant forall i: nat ::
                i in conflicts <==> i < n && exists at: nat | at in slots && at !in rest :: SlotForkConflict(w0, self,
                    frozen, forks, merge, at, i)
      {
        label Before:
        var at :| at in rest;
        var forked := ForksTaken(took, at);
        SlotBelowWord(keying, w0, old(world), frozen, forks, took, at);
        GatheredAt(w0, old(world), self, frozen, forks, took, at);
        PendingAt(w0, old(world), world, self, frozen, forks, merge, slots, rest, at, forked, LeftAt(w0, forks, at));
        var c := InstallShard(self, frozen, at, forked, merge, n, LeftAt(w0, forks, at), Entries(w0, frozen, at),
            Entries(w0, self, at));
        conflicts := conflicts + c;
        PendingNext(w0, old(world), old@Before(world), world, self, frozen, forks, merge, slots, rest, at);
        rest := rest - {at};
        assert forall i: nat | i < n :: i in c <==> SlotForkConflict(w0, self, frozen, forks, merge, at, i);
      }
      PendingDone(w0, old(world), world, self, frozen, forks, merge, took);
    }

    /** The places of `conflicts`, sorted without duplicates. */
    static method SortedPlaces(places: seq<nat>, conflicts: set<nat>) returns (sorted: seq<nat>)
      requires forall i | i in conflicts :: i < |places|
      ensures Ascending(sorted) && forall p :: p in sorted <==> exists i | i in conflicts :: places[i] == p
    {
      sorted := [];
      var rest := set i | i in conflicts :: places[i];
      while rest != {}
        invariant Ascending(sorted) && forall p, q | p in sorted && q in rest :: p < q
        invariant forall p :: p in sorted || p in rest <==> exists i | i in conflicts :: places[i] == p
      {
        var least := Least(rest);
        assert forall i | 0 <= i < |sorted| :: sorted[i] in sorted;
        sorted := sorted + [least];
        rest := rest - {least};
      }
    }

    static method Least(s: set<nat>) returns (least: nat)
      requires s != {}
      ensures least in s && forall q | q in s :: least <= q
    {
      least :| least in s;
      var rest := s - {least};
      while rest != {}
        invariant rest <= s && least in s && forall q | q in s :: q in rest || least <= q
      {
        var q :| q in rest;
        least := if q < least then q else least;
        rest := rest - {q};
      }
    }

    /** Installs each fork in order with `InstallWith`. */
    method InstallInOrder(self: Name, frozen: Name, places: seq<nat>, forks: seq<Name>,
                          merge: Option<Merge<Value>>) returns (conflicted: seq<nat>)
      requires Valid() && NoHands(world) && |places| == |forks| && Installable(world, self, frozen, forks)
      modifies this
      ensures Valid() && NoHands(world)
      ensures Reads() == Installed(old(Reads()), self, frozen, forks, merge)
      ensures Lists(Flags(old(Reads()), self, frozen, forks, merge), places, |forks|, conflicted)
      ensures forall n | n in world.maps && n != self :: Untouched(old(world), world, n)
    {
      conflicted := [];
      InstallableFacts(keying, world, self, frozen, forks);
      ghost var family := Reads();
      ghost var flags := Flags(family, self, frozen, forks, merge);
      hide *;
      RemainingNone(world, self, frozen, forks);
      InstalledNone(family, self, frozen, forks, merge);
      ListsNone(flags, places);
      for i := 0 to |forks|
        invariant Valid() && NoHands(world) && Remaining(old(world), world, self, frozen, forks, i)
        invariant InFamily(family, self, frozen, forks[..i])
          && Reads() == Installed(family, self, frozen, forks[..i], merge)
        invariant Lists(flags, places, i, conflicted)
      {
        label Before:
        RemainingNext(old(world), world, self, frozen, forks, i);
        InstalledNext(family, self, frozen, forks, i, merge);
        ListsNext(flags, places, i, conflicted);
        var c := InstallWith(self, frozen, forks[i], merge);
        if c {
          conflicted := conflicted + [places[i]];
        }
        RemainingAfter(old(world), old@Before(world), world, self, frozen, forks, i);
      }
      assert forks[..|forks|] == forks;
      RemainingDone(old(world), world, self, frozen, forks);
    }

    /** Installs all forks slot by slot: their shards gathered first, then each slot folded by itself. */
    method InstallApart(self: Name, frozen: Name, places: seq<nat>, forks: seq<Name>,
                        merge: Option<Merge<Value>>) returns (conflicted: seq<nat>)
      requires Valid() && NoHands(world) && |places| == |forks| && Installable(world, self, frozen, forks)
      modifies this
      ensures Valid() && NoHands(world)
      ensures Reads() == Installed(old(Reads()), self, frozen, forks, merge)
      ensures Lists(Flags(old(Reads()), self, frozen, forks, merge), places, |forks|, conflicted)
      ensures forall n | n in world.maps && n != self :: Untouched(old(world), world, n)
    {
      ghost var w := world;
      InstallableFacts(keying, world, self, frozen, forks);
      hide ArcWorld.Valid, Untouched, FoldMaps, ForkConflicts, Gathered, NoHands, SlotFold, Fits, FamilyOf, Entries;
      hide Lists, Flags, Ascending, SlotForkConflict, Installed, InFamily;
      var took := GatherForks(frozen, forks);
      ghost var gathered := world;
      var conflicts := InstallShards(self, frozen, took, merge, w, forks, |forks|);
      conflicted := SortedPlaces(places, conflicts);
      GatheredFacts(w, gathered, world, self, frozen, forks, took);
      SuperstepContents(keying, w, world, self, frozen, forks, merge);
      FamilySuperstep(keying, w, world, self, frozen, forks, merge);
      SuperstepPlaces(keying, w, self, frozen, forks, merge, places, conflicts, conflicted);
    }

    /**
     * Installs a superstep's forks: while installs write apart, shard by
     * shard; otherwise one after another. Either way the index and the
     * conflicting places are those of installing each fork whole, in order.
     */
    method InstallAll(self: Name, frozen: Name, places: seq<nat>, forks: seq<Name>,
                      merge: Option<Merge<Value>>) returns (conflicted: seq<nat>)
      requires Valid() && NoHands(world) && |places| == |forks| && Installable(world, self, frozen, forks)
      modifies this
      ensures Valid() && NoHands(world)
      ensures Reads() == Installed(old(Reads()), self, frozen, forks, merge)
      ensures Lists(Flags(old(Reads()), self, frozen, forks, merge), places, |forks|, conflicted)
      ensures forall n | n in world.maps && n != self :: Untouched(old(world), world, n)
    {
      if |forks| < 2 || !WritesApart(self) {
        conflicted := InstallInOrder(self, frozen, places, forks, merge);
      } else {
        conflicted := InstallApart(self, frozen, places, forks, merge);
      }
    }

    // ----- asking what a fork changed

    /** Whether a fork wrote anything, by its pointers alone: one that did not reads like what it was forked from. */
    method Wrote(fork: Name, frozen: Name) returns (wrote: bool)
      requires Valid() && frozen in world.maps && fork in world.maps && ForkOf(world, frozen, fork)
      ensures !wrote ==> Reads()[fork] == Reads()[frozen]
      ensures !wrote <==> world.maps[fork].slots == world.maps[frozen].slots
                          && forall at: nat :: At(world, DirtySlot(fork, at)) == At(world, DirtySlot(frozen, at))
    {
      wrote := world.maps[fork].slots != world.maps[frozen].slots;
      var rest := if wrote then {} else DirtyKeys(world, fork);
      DirtyKeysListed(world, fork);
      ghost var listed := rest;
      while rest != {}
        invariant rest <= listed
        invariant !wrote ==> world.maps[fork].slots == world.maps[frozen].slots && listed == DirtyKeys(world, fork)
        invariant wrote ==> world.maps[fork].slots != world.maps[frozen].slots
                            || exists at: nat :: At(world, DirtySlot(fork, at)) != At(world, DirtySlot(frozen, at))
        invariant !wrote ==> forall at | at in listed && at !in rest :: At(world, DirtySlot(fork, at)) == At(world,
            DirtySlot(frozen, at))
      {
        var at :| at in rest;
        rest := rest - {at};
        if At(world, DirtySlot(fork, at)) != At(world, DirtySlot(frozen, at)) {
          wrote := true;
        }
      }
      forall at: nat | !wrote ensures At(world, DirtySlot(fork, at)) == At(world, DirtySlot(frozen, at)) {
        assert at in listed <==> At(world, DirtySlot(fork, at)).Some?;
      }
      if !wrote {
        forall at: nat ensures Entries(world, fork, at) == Entries(world, frozen, at) {
          assert at in listed <==> At(world, DirtySlot(fork, at)).Some?;
        }
        SameEntriesSameContents(keying, world, world, frozen, fork);
      }
    }

    /** The keys a fork changed. */
    method ChangedKeys(frozen: Name, fork: Name) returns (keys: set<Key>)
      requires Valid() && frozen in world.maps && fork in world.maps && ForkOf(world, frozen, fork)
      ensures forall k :: k in keys <==> Lookup(Reads()[fork], k) != Lookup(Reads()[frozen], k)
    {
      var rest := ForkedSlots(frozen, fork);
      ghost var slots := rest;
      keys := {};
      hide ArcWorld.Valid, SlotOf;
      while rest != {}
        invariant rest <= slots
        invariant forall k ::
                k in keys <==> exists at | at in slots && at !in rest :: Differs(world, frozen, fork, at, k)
      {
        var at :| at in rest;
        rest := rest - {at};
        var was, shard := Entries(world, frozen, at), Entries(world, fork, at);
        keys := keys + (set k | k in shard && Lookup(was, k) != Some(shard[k])) + (set k | k in was && k !in shard);
      }
      forall k ensures k in keys <==> Lookup(Reads()[fork], k) != Lookup(Reads()[frozen], k) {
        ShardsOfKey(keying, world, frozen, fork, k);
      }
    }

    /** The keys both `self` and the fork changed, to different values: what an install without a merge conflicts on. */
    method BothChangedKeys(self: Name, frozen: Name, fork: Name) returns (keys: set<Key>)
      requires Valid() && Distinct(world, self, frozen, fork) && ForkOf(world, frozen, fork)
      ensures keys != {} <==> MapsConflict(None, Reads()[self], Reads()[frozen], Reads()[fork])
      ensures forall k :: k in keys <==> MergeAt(None, Reads()[self], Reads()[frozen], Reads()[fork], k).conflict
    {
      var changed := ChangedKeys(frozen, fork);
      forall k ensures Lookup(Entries(world, self, SlotOf(keying, k)), k) == Lookup(Reads()[self], k)
        && Lookup(Entries(world, frozen, SlotOf(keying, k)), k) == Lookup(Reads()[frozen], k)
        && Lookup(Entries(world, fork, SlotOf(keying, k)), k) == Lookup(Reads()[fork], k) {
        ContentsLookup(keying, world, self, k);
        ContentsLookup(keying, world, frozen, k);
        ContentsLookup(keying, world, fork, k);
      }
      hide ArcWorld.Valid, Entries, SlotOf, FamilyOf, Contents;
      keys := set k | k in changed
        && Lookup(Entries(world, self, SlotOf(keying, k)), k) != Lookup(Entries(world, frozen, SlotOf(keying, k)), k)
        && Lookup(Entries(world, self, SlotOf(keying, k)), k) != Lookup(Entries(world, fork, SlotOf(keying, k)), k);
      assert forall k :: k in keys <==> MergeAt(None, Reads()[self], Reads()[frozen], Reads()[fork], k).conflict;
      assert keys != {} ==> exists k :: k in keys;
    }
  }
}
