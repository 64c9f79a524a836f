/**
 * What the steps of an operation leave alone, and what a map reads once its
 * shards are rewritten: the facts `CowMemory` composes.
 */
module CowFrames {
  import opened Options
  import opened Sharding
  import opened ThreeWay
  import opened ArcWorld
  import opened InstallSpec

  /** `m` got a new table, or kept its own and every dirty entry. */
  ghost predicate KeepsDirty(w: World, w': World, m: Name)
    requires m in w.maps && m in w'.maps
  {
    w'.maps[m].slots.id >= w.next
    || (w'.maps[m].slots == w.maps[m].slots && forall i: nat | DirtySlot(m, i) in w.held :: DirtySlot(m, i) in w'.held)
  }

  /** The independent finite maps the maps of `w` stand for. */
  ghost function FamilyOf(keying: Keying, w: World): Family
    requires ArcWorld.Valid(keying, w)
  {
    map m | m in w.maps :: Contents(keying, w, m)
  }

  lemma FamilyKeys(keying: Keying, w: World)
    requires ArcWorld.Valid(keying, w)
    ensures FamilyOf(keying, w).Keys == w.maps.Keys
  {
  }

  /** A write through `m` changes `m` in the family, and no other member. */
  lemma FamilyUpdated(keying: Keying, w: World, w': World, m: Name)
    requires ArcWorld.Valid(keying, w) && ArcWorld.Valid(keying, w') && m in w.maps && Leaves(w, w', m)
    ensures m in w'.maps && FamilyOf(keying, w') == FamilyOf(keying, w)[m := Contents(keying, w', m)]
  {
    forall n | n in w.maps && n != m ensures Contents(keying, w', n) == Contents(keying, w, n) {
      SameEntriesSameContents(keying, w, w', n, n);
    }
  }

  /** Rewriting the shard a key belongs to rewrites what the map reads of that key. */
  lemma ShardRewritten(keying: Keying, w: World, w': World, m: Name, k: Key, value: Option<Value>)
    requires ArcWorld.Valid(keying, w) && ArcWorld.Valid(keying, w') && m in w.maps && m in w'.maps
    requires Entries(w', m, SlotOf(keying, k)) == Put(Entries(w, m, SlotOf(keying, k)), k, value)
    requires forall i: nat | i != SlotOf(keying, k) :: Entries(w', m, i) == Entries(w, m, i)
    ensures Contents(keying, w', m) == Put(Contents(keying, w, m), k, value)
  {
    hide ArcWorld.Valid, Contents, Entries, SlotOf, Lookup, Put;
    PutLookup(Contents(keying, w, m), k, value);
    PutLookup(Entries(w, m, SlotOf(keying, k)), k, value);
    forall j ensures Lookup(Contents(keying, w', m), j) == Lookup(Put(Contents(keying, w, m), k, value), j) {
      ContentsLookup(keying, w, m, j);
      ContentsLookup(keying, w', m, j);
    }
    SameLookups(Contents(keying, w', m), Put(Contents(keying, w, m), k, value));
  }

  /** A fork that still holds the table it was forked with holds every dirty slot it was forked with. */
  ghost predicate ForkOf(w: World, frozen: Name, fork: Name)
    requires frozen in w.maps && fork in w.maps
  {
    w.maps[fork].slots == w.maps[frozen].slots ==>
      forall i: nat | DirtySlot(frozen, i) in w.held :: DirtySlot(fork, i) in w.held
  }

  lemma FamilyKept(keying: Keying, w: World, w': World, n: Name)
    requires ArcWorld.Valid(keying, w) && ArcWorld.Valid(keying, w') && KeepsMapsBut(w, w', n)
    requires forall o | o != n :: o in w'.maps <==> o in w.maps
    ensures n in w'.maps ==> FamilyOf(keying, w') == FamilyOf(keying, w)[n := Contents(keying, w', n)]
    ensures n !in w'.maps ==> FamilyOf(keying, w') == FamilyOf(keying, w) - {n}
  {
    forall o | o in w.maps && o != n ensures Contents(keying, w', o) == Contents(keying, w, o) {
      KeptMap(keying, w, w', n, o);
    }
  }

  /** Place `p` gets shard `a`, unless it is empty: then the place holds nothing. */
  function TakenOver(w: World, p: Place, a: ShardId): World {
    if ShardAt(w, a) == map[] then Release(w, p) else Hold(w, p, a)
  }

  /** The world once the shard dirty at `at` took the table's slot. */
  function Folded(w: World, m: Name, at: nat): World
    requires m in w.maps && DirtySlot(m, at) in w.held
  {
    var a := w.held[DirtySlot(m, at)];
    var p := TableSlot(w.maps[m].slots, at);
    Release(TakenOver(w, p, a), DirtySlot(m, at))
  }

  /** A new shard held in a place of the map's own is the map's alone to write. */
  lemma NewInPlace(keying: Keying, w: World, m: Name, p: Place, shard: Shard)
    requires ArcWorld.Valid(keying, w) && m in w.maps && Owns(w, m, p) && InSlot(keying, shard, p.at) && p.at < WORD
    requires p.TableSlot? ==> p.at < p.table.len && DirtySlot(m, p.at) !in w.held
    ensures var w' := Hold(Alloc(w, p.at, shard), p, NewId(w, p.at));
      && ArcWorld.Valid(keying, w') && OnlyMap(w, w', m) && Grows(w, w')
          && Writable(w', m, p.at, p) && w'.maps == w.maps
      && Entries(w', m, p.at) == shard && (forall q: Place | q != p :: At(w', q) == At(w, q))
  {
    NewKeeps(keying, w, m, p, shard);
    NewReads(keying, w, m, p, shard);
    hide ArcWorld.Valid, OnlyMap, Writable, Entries, Grows, Owns;
  }

  lemma NewKeeps(keying: Keying, w: World, m: Name, p: Place, shard: Shard)
    requires ArcWorld.Valid(keying, w) && m in w.maps && Owns(w, m, p) && InSlot(keying, shard, p.at) && p.at < WORD
    requires p.TableSlot? ==> p.at < p.table.len
    ensures var w' := Hold(Alloc(w, p.at, shard), p, NewId(w, p.at));
      ArcWorld.Valid(keying, w') && OnlyMap(w, w', m) && Grows(w, w')
  {
    var a, mid := NewId(w, p.at), Alloc(w, p.at, shard);
    AllocEffect(keying, w, m, p.at, shard);
    assert PlacedWell(mid, p, a);
    HoldEffect(keying, mid, m, p, a);
    hide ArcWorld.Valid, OnlyMap;
    OnlyMapTwice(w, mid, Hold(mid, p, a), m);
  }

  lemma NewReads(keying: Keying, w: World, m: Name, p: Place, shard: Shard)
    requires ArcWorld.Valid(keying, w) && m in w.maps && Owns(w, m, p)
      && (p.TableSlot? ==> DirtySlot(m, p.at) !in w.held)
    ensures var w' := Hold(Alloc(w, p.at, shard), p, NewId(w, p.at));
      && Writable(w', m, p.at, p) && w'.maps == w.maps && Entries(w', m, p.at) == shard
      && (forall q: Place | q != p :: At(w', q) == At(w, q))
  {
    NewHeldNowhere(keying, w, p.at);
    hide ArcWorld.Valid;
  }

  lemma NewHeldNowhere(keying: Keying, w: World, at: nat)
    requires ArcWorld.Valid(keying, w)
    ensures forall q | q in w.held :: w.held[q] != NewId(w, at)
  {
    forall q | q in w.held ensures w.held[q] != NewId(w, at) {
      assert PlacedWell(w, q, w.held[q]);
    }
  }

  lemma TakenOverEffect(keying: Keying, w: World, m: Name, p: Place, a: ShardId)
    requires ArcWorld.Valid(keying, w) && m in w.maps && Owns(w, m, p) && PlacedWell(w, p, a)
    ensures var w' := TakenOver(w, p, a);
      && ArcWorld.Valid(keying, w') && OnlyMap(w, w', m) && w'.shards == w.shards && w'.maps == w.maps
      && (forall q: Place | q != p :: At(w', q) == At(w, q)) && ShardOf(w', At(w', p)) == ShardAt(w, a)
  {
    if ShardAt(w, a) == map[] {
      ReleaseEffect(keying, w, m, p);
    } else {
      HoldEffect(keying, w, m, p, a);
    }
    hide ArcWorld.Valid, OnlyMap;
  }

  lemma FoldedEffect(keying: Keying, w: World, m: Name, at: nat)
    requires ArcWorld.Valid(keying, w) && m in w.maps && DirtySlot(m, at) in w.held
    requires OnlyTableHolder(w, m) && at < w.maps[m].slots.len
    ensures var w' := Folded(w, m, at);
      && ArcWorld.Valid(keying, w') && OnlyMap(w, w', m) && w'.shards == w.shards && w'.maps == w.maps
      && DirtySlot(m, at) !in w'.held && Entries(w', m, at) == Entries(w, m, at)
      && (forall q: Place | q.at != at :: At(w', q) == At(w, q))
  {
    var a := w.held[DirtySlot(m, at)];
    var p := TableSlot(w.maps[m].slots, at);
    assert PlacedWell(w, DirtySlot(m, at), a);
    assert PlacedWell(w, p, a) by {
      InTable(keying, w, m, at, a);
    }
    var mid := TakenOver(w, p, a);
    TakenOverEffect(keying, w, m, p, a);
    ReleaseEffect(keying, mid, m, DirtySlot(m, at));
    OnlyMapTwice(w, mid, Folded(w, m, at), m);
    hide ArcWorld.Valid, OnlyMap, TakenOver, PlacedWell;
  }

  lemma InTable(keying: Keying, w: World, m: Name, at: nat, a: ShardId)
    requires ArcWorld.Valid(keying, w) && m in w.maps && at < w.maps[m].slots.len && PlacedWell(w, DirtySlot(m, at), a)
    ensures PlacedWell(w, TableSlot(w.maps[m].slots, at), a)
  {
  }

  lemma DirtyKeysListed(w: World, m: Name)
    ensures forall i: nat :: i in DirtyKeys(w, m) <==> At(w, DirtySlot(m, i)).Some?
  {
    forall i: nat ensures i in DirtyKeys(w, m) <==> At(w, DirtySlot(m, i)).Some? {
      if DirtySlot(m, i) in w.held {
        assert DirtySlot(m, i).at in DirtyKeys(w, m);
      }
    }
  }

  lemma NextGrows(w: World, w': World, m: Name)
    requires m in w.maps && OnlyMap(w, w', m)
    ensures w.next <= w'.next && w'.maps.Keys == w.maps.Keys
  {
  }

  lemma KeepsDirtyTwice(w0: World, w1: World, w2: World, m: Name)
    requires m in w0.maps && m in w1.maps && m in w2.maps && w0.next <= w1.next
    requires KeepsDirty(w0, w1, m) && KeepsDirty(w1, w2, m)
    ensures KeepsDirty(w0, w2, m)
  {
  }

  lemma GrowsTwice(w0: World, w1: World, w2: World)
    requires Grows(w0, w1) && Grows(w1, w2) && w0.next <= w1.next
    ensures Grows(w0, w2)
  {
  }

  function Kept(keep: (Key, Value) -> Option<Value>, entries: map<Key, Value>): map<Key, Value> {
    map k | k in entries && keep(k, entries[k]).Some? :: keep(k, entries[k]).value
  }

  /** `after` holds of every key of `before` what `keep` makes of its entry, and no other key. */
  ghost predicate Retains(keep: (Key, Value) -> Option<Value>, before: map<Key, Value>, after: map<Key, Value>) {
    forall k :: Lookup(after, k) == if k in before then keep(k, before[k]) else None
  }

  lemma KeptRetains(keep: (Key, Value) -> Option<Value>, entries: map<Key, Value>)
    ensures Retains(keep, entries, Kept(keep, entries))
  {
  }

  lemma KeptContents(keying: Keying, w: World, w': World, m: Name, keep: (Key, Value) -> Option<Value>)
    requires ArcWorld.Valid(keying, w) && ArcWorld.Valid(keying, w') && m in w.maps && m in w'.maps
    requires forall i: nat :: Entries(w', m, i) == Kept(keep, Entries(w, m, i))
    ensures Contents(keying, w', m) == Kept(keep, Contents(keying, w, m))
  {
    forall k ensures Lookup(Contents(keying, w', m), k) == Lookup(Kept(keep, Contents(keying, w, m)), k) {
      ContentsLookup(keying, w, m, k);
      ContentsLookup(keying, w', m, k);
      assert Entries(w', m, SlotOf(keying, k)) == Kept(keep, Entries(w, m, SlotOf(keying, k)));
    }
    SameLookups(Contents(keying, w', m), Kept(keep, Contents(keying, w, m)));
  }

  /** A shard is the part of the map its slot is for. */
  lemma ShardOfContents(keying: Keying, w: World, m: Name, at: nat)
    requires ArcWorld.Valid(keying, w) && m in w.maps
    ensures forall k ::
            Lookup(Entries(w, m, at), k) == if SlotOf(keying, k) == at then Lookup(Contents(keying, w, m), k) else None
  {
    HeldInUse(keying, w, m, at);
    forall k ensures Lookup(Entries(w, m, at), k) == if SlotOf(keying, k) == at then Lookup(Contents(keying, w, m), k)
        else None {
      ContentsLookup(keying, w, m, k);
    }
  }

  /** The slots before `at` hold what `keep` keeps of them, the others what they held. */
  ghost predicate RetainedTo(w: World, w': World, m: Name, at: nat, keep: (Key, Value) -> Option<Value>)
    requires m in w.maps && m in w'.maps
  {
    && w'.held == w.held && w'.maps == w.maps && Leaves(w, w', m)
    && (forall i: nat | i < at :: Entries(w', m, i) == Kept(keep, Entries(w, m, i)))
    && (forall i: nat | at <= i :: Entries(w', m, i) == Entries(w, m, i))
  }

  /** Who may write a shard depends on who holds it alone. */
  lemma WritableAlike(w: World, w': World, m: Name, at: nat)
    requires m in w.maps && w'.held == w.held && w'.maps == w.maps
    ensures PlaceOf(w', m, at) == PlaceOf(w, m, at)
      && (Writable(w', m, at, PlaceOf(w', m, at)) <==> Writable(w, m, at, PlaceOf(w, m, at)))
  {
  }

  lemma LeavesSelf(w: World, m: Name)
    requires m in w.maps
    ensures Leaves(w, w, m)
  {
  }

  /** The shard read at a slot: the dirty list is asked by the slot's word, the table by the slot. */
  function ShardRead(w: World, m: Name, at: nat): Shard
    requires m in w.maps
  {
    if DirtySlot(m, DirtyWord(at)) in w.held then ShardOf(w, At(w, DirtySlot(m, DirtyWord(at))))
    else ShardOf(w, At(w, TableSlot(w.maps[m].slots, at)))
  }

  lemma ShardReadIs(keying: Keying, w: World, m: Name, at: nat)
    requires ArcWorld.Valid(keying, w) && m in w.maps
    ensures at < WORD ==> DirtyWord(at) == at && ShardRead(w, m, at) == Entries(w, m, at)
    ensures at >= WORD ==> ShardRead(w, m, at) == if DirtySlot(m, DirtyWord(at)) in w.held then Entries(w, m,
        DirtyWord(at)) else map[]
  {
    var p := TableSlot(w.maps[m].slots, at);
    assert p in w.held ==> PlacedWell(w, p, w.held[p]);
  }

  lemma EntriesAre(keying: Keying, w: World, m: Name, at: nat)
    requires ArcWorld.Valid(keying, w) && m in w.maps
    ensures Entries(w, m, at) == map k | k in Contents(keying, w, m)
      && SlotOf(keying, k) == at :: Contents(keying, w, m)[k]
  {
    ShardOfContents(keying, w, m, at);
    hide ArcWorld.Valid, Contents, SlotOf, Entries;
    var shard := map k | k in Contents(keying, w, m) && SlotOf(keying, k) == at :: Contents(keying, w, m)[k];
    forall k ensures Lookup(Entries(w, m, at), k) == Lookup(shard, k) {
    }
    SameLookups(Entries(w, m, at), shard);
  }

  lemma PastEnd(keying: Keying, w: World, m: Name, end: nat)
    requires ArcWorld.Valid(keying, w) && m in w.maps && forall i: nat | i >= end :: HeldShard(w, m, i).None?
    ensures forall k | k in Contents(keying, w, m) :: SlotOf(keying, k) < end
  {
    forall k | k in Contents(keying, w, m) ensures SlotOf(keying, k) < end {
      ContentsLookup(keying, w, m, k);
    }
  }

  /** The keys of the slots before `at`. */
  ghost function KeysBelow(keying: Keying, contents: map<Key, Value>, at: nat): set<Key> {
    set k | k in contents && SlotOf(keying, k) < at
  }

  lemma BelowNext(keying: Keying, contents: map<Key, Value>, at: nat, shard: Shard)
    requires forall k :: Lookup(shard, k) == if SlotOf(keying, k) == at then Lookup(contents, k) else None
    ensures KeysBelow(keying, contents, at) !! shard.Keys
    ensures KeysBelow(keying, contents, at + 1) == KeysBelow(keying, contents, at) + shard.Keys
  {
    hide SlotOf;
    forall k ensures k in shard <==> k in contents && SlotOf(keying, k) == at {
      assert Lookup(shard, k) == if SlotOf(keying, k) == at then Lookup(contents, k) else None;
    }
  }

  lemma AllBelow(keying: Keying, contents: map<Key, Value>, end: nat)
    requires forall k | k in contents :: SlotOf(keying, k) < end
    ensures KeysBelow(keying, contents, end) == contents.Keys
  {
  }

  /** The entries of the slots before `at`. */
  ghost predicate ItemsBelow(keying: Keying, contents: map<Key, Value>, at: nat, items: seq<(Key, Value)>) {
    forall k, v :: (k, v) in items <==> Lookup(contents, k) == Some(v) && SlotOf(keying, k) < at
  }

  lemma NoItems(keying: Keying, contents: map<Key, Value>)
    ensures ItemsBelow(keying, contents, 0, [])
  {
  }

  lemma AllItems(keying: Keying, contents: map<Key, Value>, end: nat, items: seq<(Key, Value)>)
    requires ItemsBelow(keying, contents, end, items) && forall k | k in contents :: SlotOf(keying, k) < end
    ensures forall k, v :: (k, v) in items <==> Lookup(contents, k) == Some(v)
  {
    hide SlotOf;
  }

  lemma ItemsNext(keying: Keying, contents: map<Key, Value>, at: nat, items: seq<(Key, Value)>, shard: Shard,
                  more: seq<(Key, Value)>)
    requires ItemsBelow(keying, contents, at, items) && Ordered(keying, items)
    requires forall k :: Lookup(shard, k) == if SlotOf(keying, k) == at then Lookup(contents, k) else None
    requires forall k, v :: (k, v) in more <==> Lookup(shard, k) == Some(v)
    requires forall i, j | 0 <= i < j < |more| :: more[i].0 != more[j].0
    ensures ItemsBelow(keying, contents, at + 1, items + more) && Ordered(keying, items + more)
  {
    hide SlotOf, Lookup;
    forall i | 0 <= i < |items| ensures SlotOf(keying, items[i].0) < at {
      assert (items[i].0, items[i].1) in items;
    }
    forall i | 0 <= i < |more| ensures SlotOf(keying, more[i].0) == at {
      assert (more[i].0, more[i].1) in more;
    }
  }

  /** Taking an absent key out of a member leaves the family. */
  lemma AbsentStays(family: Family, m: Name, k: Key)
    requires m in family && k !in family[m]
    ensures family[m := Put(family[m], k, None)] == family
  {
    assert family[m] - {k} == family[m];
  }

  /** Distinct keys in slot order. */
  ghost predicate Ordered(keying: Keying, items: seq<(Key, Value)>) {
    forall i, j | 0 <= i < j < |items| ::
      items[i].0 != items[j].0 && SlotOf(keying, items[i].0) <= SlotOf(keying, items[j].0)
  }

  /** Letting go of a hand changes what no map holds. */
  lemma ReleaseHand(keying: Keying, w: World, hand: Place)
    requires ArcWorld.Valid(keying, w) && hand.IsHand()
    ensures ArcWorld.Valid(keying, Release(w, hand))
    ensures At(w, hand).Some? ==> At(w, hand).value.slot == hand.at && At(w, hand).value.id < w.next
    ensures forall n, i: nat | n in w.maps :: Entries(Release(w, hand), n, i) == Entries(w, n, i)
  {
    assert hand in w.held ==> PlacedWell(w, hand, w.held[hand]);
    forall p | p in Release(w, hand).held ensures PlacedWell(Release(w, hand), p, w.held[p]) {
      assert PlacedWell(w, p, w.held[p]);
    }
    forall n, i: nat | n in w.maps ensures HeldShard(Release(w, hand), n, i) == HeldShard(w, n, i) {
    }
  }

  /** `n` holds and reads in `w'` what it did in `w`. */
  ghost predicate Untouched(w: World, w': World, n: Name) {
    && n in w.maps && n in w'.maps && w'.maps[n] == w.maps[n]
    && (forall i: nat :: At(w', DirtySlot(n, i)) == At(w, DirtySlot(n, i)))
    && (forall i: nat :: At(w', TableSlot(w.maps[n].slots, i)) == At(w, TableSlot(w.maps[n].slots, i)))
    && (forall i: nat :: Entries(w', n, i) == Entries(w, n, i))
  }

  /** `n` holds and reads in `w'` what it did in `w`, but for slot `at`. */
  ghost predicate UntouchedBut(w: World, w': World, n: Name, at: nat) {
    && n in w.maps && n in w'.maps && w'.maps[n] == w.maps[n]
    && (forall i: nat | i != at :: At(w', DirtySlot(n, i)) == At(w, DirtySlot(n, i)))
    && (forall i: nat | i != at :: At(w', TableSlot(w.maps[n].slots, i)) == At(w, TableSlot(w.maps[n].slots, i)))
    && (forall i: nat | i != at :: Entries(w', n, i) == Entries(w, n, i))
  }

  lemma UntouchedTwice(w0: World, w1: World, w2: World, n: Name)
    requires Untouched(w0, w1, n) && Untouched(w1, w2, n)
    ensures Untouched(w0, w2, n)
  {
  }

  lemma UntouchedButTwice(w0: World, w1: World, w2: World, n: Name, at: nat)
    requires UntouchedBut(w0, w1, n, at) && Untouched(w1, w2, n)
    ensures UntouchedBut(w0, w2, n, at)
  {
  }

  lemma LeavesUntouched(keying: Keying, w: World, w': World, m: Name, n: Name)
    requires ArcWorld.Valid(keying, w) && m in w.maps && n in w.maps && n != m && Leaves(w, w', m)
    ensures Untouched(w, w', n)
  {
    forall i: nat
      ensures At(w', DirtySlot(n, i)) == At(w, DirtySlot(n, i))
      ensures At(w', TableSlot(w.maps[n].slots, i)) == At(w, TableSlot(w.maps[n].slots, i))
    {
      FramedHeld(w, w', m, n, i);
    }
  }

  lemma ReleaseHandUntouched(keying: Keying, w: World, hand: Place, n: Name)
    requires ArcWorld.Valid(keying, w) && hand.IsHand() && n in w.maps
    ensures Untouched(w, Release(w, hand), n)
  {
    ReleaseHand(keying, w, hand);
  }

  /** Taking a shard out of `m` touches no other map, and no other slot of `m`. */
  lemma TakenUntouched(w: World, w': World, m: Name, at: nat, hand: Place, n: Name)
    requires m in w.maps && n in w.maps && hand.IsHand() && w'.maps == w.maps && w'.shards == w.shards
    requires forall q: Place | q != hand && !(q.at == at && Owns(w, m, q)) :: At(w', q) == At(w, q)
    ensures n != m ==> Untouched(w, w', n)
    ensures n == m ==> UntouchedBut(w, w', n, at)
  {
    forall i: nat | n != m || i != at
      ensures At(w', DirtySlot(n, i)) == At(w, DirtySlot(n, i))
      ensures At(w', TableSlot(w.maps[n].slots, i)) == At(w, TableSlot(w.maps[n].slots, i))
    {
      assert !(TableSlot(w.maps[n].slots, i).at == at && Owns(w, m, TableSlot(w.maps[n].slots, i)));
    }
  }

  /** No install holds a shard in a local variable. */
  ghost predicate NoHands(w: World) {
    forall p: Place | p.IsHand() :: At(w, p).None?
  }

  predicate Distinct(w: World, self: Name, frozen: Name, fork: Name) {
    self in w.maps && frozen in w.maps && fork in w.maps && self != frozen && self != fork && frozen != fork
  }

  ghost function MergedSlot(w: World, self: Name, frozen: Name, fork: Name, at: nat, merge: Option<Merge<Value>>): Shard
    requires Distinct(w, self, frozen, fork)
  {
    MergeMaps(merge, Entries(w, self, at), Entries(w, frozen, at), Entries(w, fork, at))
  }

  ghost predicate SlotConflict(w: World, self: Name, frozen: Name, fork: Name, at: nat, merge: Option<Merge<Value>>)
    requires Distinct(w, self, frozen, fork)
  {
    MapsConflict(merge, Entries(w, self, at), Entries(w, frozen, at), Entries(w, fork, at))
  }

  /** The merge of two maps, slot by slot, is the merge of the finite maps they stand for. */
  lemma SlotwiseMerge(keying: Keying, w: World, self: Name, frozen: Name, fork: Name, merge: Option<Merge<Value>>,
                      k: Key)
    requires ArcWorld.Valid(keying, w) && Distinct(w, self, frozen, fork)
    ensures MergeAt(merge, Contents(keying, w, self), Contents(keying, w, frozen), Contents(keying, w, fork), k)
         == MergeAt(merge, Entries(w, self, SlotOf(keying, k)), Entries(w, frozen, SlotOf(keying, k)),
             Entries(w, fork, SlotOf(keying, k)), k)
    ensures forall i: nat | i != SlotOf(keying, k) ::
      MergeAt(merge, Entries(w, self, i), Entries(w, frozen, i), Entries(w, fork, i), k) == Step(None, false)
  {
    ContentsLookup(keying, w, self, k);
    ContentsLookup(keying, w, frozen, k);
    ContentsLookup(keying, w, fork, k);
    forall i: nat | i != SlotOf(keying, k) ensures MergeAt(merge, Entries(w, self, i), Entries(w, frozen, i),
        Entries(w, fork, i), k) == Step(None, false) {
      HeldInUse(keying, w, self, i);
      HeldInUse(keying, w, frozen, i);
      HeldInUse(keying, w, fork, i);
    }
  }

  lemma SlotwiseConflict(keying: Keying, w: World, self: Name, frozen: Name, fork: Name, merge: Option<Merge<Value>>)
    requires ArcWorld.Valid(keying, w) && Distinct(w, self, frozen, fork)
    ensures MapsConflict(merge, Contents(keying, w, self), Contents(keying, w, frozen), Contents(keying, w, fork))
       <==> exists at: nat :: SlotConflict(w, self, frozen, fork, at, merge)
  {
    if k :| MergeAt(merge, Contents(keying, w, self), Contents(keying, w, frozen), Contents(keying, w, fork),
        k).conflict {
      SlotwiseMerge(keying, w, self, frozen, fork, merge, k);
      assert SlotConflict(w, self, frozen, fork, SlotOf(keying, k), merge);
    }
    if at: nat :| SlotConflict(w, self, frozen, fork, at, merge) {
      var k :| MergeAt(merge, Entries(w, self, at), Entries(w, frozen, at), Entries(w, fork, at), k).conflict;
      SlotwiseMerge(keying, w, self, frozen, fork, merge, k);
    }
  }

  lemma SlotwiseContents(keying: Keying, w: World, w': World, self: Name, frozen: Name, fork: Name,
                         merge: Option<Merge<Value>>)
    requires ArcWorld.Valid(keying, w) && ArcWorld.Valid(keying, w') && Distinct(w, self, frozen, fork)
      && self in w'.maps
    requires forall i: nat :: Entries(w', self, i) == MergedSlot(w, self, frozen, fork, i, merge)
    ensures Contents(keying, w', self) == MergeMaps(merge, Contents(keying, w, self), Contents(keying, w, frozen),
        Contents(keying, w, fork))
  {
    var now, was, left := Contents(keying, w, self), Contents(keying, w, frozen), Contents(keying, w, fork);
    forall k ensures Lookup(Contents(keying, w', self), k) == MergeAt(merge, now, was, left, k).value {
      var at := SlotOf(keying, k);
      SlotwiseMerge(keying, w, self, frozen, fork, merge, k);
      ContentsLookup(keying, w', self, k);
      assert Entries(w', self, at) == MergedSlot(w, self, frozen, fork, at, merge);
      MergeMapsLookup(merge, Entries(w, self, at), Entries(w, frozen, at), Entries(w, fork, at), k);
    }
    MergedByKey(merge, now, was, left, Contents(keying, w', self));
  }

  lemma KeptUntouched(w: World, w': World, n: Name, o: Name)
    requires KeepsMapsBut(w, w', n) && o in w.maps && o != n
    ensures Untouched(w, w', o)
  {
    forall i: nat
      ensures At(w', DirtySlot(o, i)) == At(w, DirtySlot(o, i))
      ensures At(w', TableSlot(w.maps[o].slots, i)) == At(w, TableSlot(w.maps[o].slots, i))
    {
    }
  }

  /** Only `self` and `fork` were touched. */
  ghost predicate OthersUntouched(w: World, w': World, self: Name, fork: Name) {
    w'.maps.Keys == w.maps.Keys && forall n | n in w.maps && n != self && n != fork :: Untouched(w, w', n)
  }

  lemma UntouchedSelf(w: World)
    ensures forall n | n in w.maps :: Untouched(w, w, n)
  {
  }

  lemma UntouchedEntries(w: World, w': World, n: Name)
    requires Untouched(w, w', n)
    ensures forall i: nat :: Entries(w', n, i) == Entries(w, n, i)
  {
  }

  lemma UntouchedButEntries(w: World, w': World, n: Name, at: nat)
    requires UntouchedBut(w, w', n, at)
    ensures forall i: nat | i != at :: Entries(w', n, i) == Entries(w, n, i)
  {
  }

  lemma OthersUntouchedTwice(w0: World, w1: World, w2: World, self: Name, fork: Name)
    requires OthersUntouched(w0, w1, self, fork) && OthersUntouched(w1, w2, self, fork)
    ensures OthersUntouched(w0, w2, self, fork)
  {
    hide Untouched;
    forall n | n in w0.maps && n != self && n != fork ensures Untouched(w0, w2, n) {
      UntouchedTwice(w0, w1, w2, n);
    }
  }

  lemma UnforkedSlots(w: World, self: Name, frozen: Name, fork: Name, merge: Option<Merge<Value>>, slots: set<nat>)
    requires Distinct(w, self, frozen, fork)
      && forall i: nat | i !in slots :: HeldShard(w, frozen, i) == HeldShard(w, fork, i)
    ensures forall i: nat | i !in slots :: !SlotConflict(w, self, frozen, fork, i, merge)
    ensures forall i: nat | i !in slots :: MergedSlot(w, self, frozen, fork, i, merge) == Entries(w, self, i)
  {
    forall i: nat | i !in slots
      ensures !SlotConflict(w, self, frozen, fork, i, merge)
        && MergedSlot(w, self, frozen, fork, i, merge) == Entries(w, self, i)
    {
      UnwrittenForkIsIdentity(merge, Entries(w, self, i), Entries(w, frozen, i));
    }
  }

  lemma FamilyInstalled(keying: Keying, w: World, w': World, self: Name, fork: Name)
    requires ArcWorld.Valid(keying, w) && ArcWorld.Valid(keying, w') && self in w.maps && self != fork
      && OthersUntouched(w, w', self, fork)
    ensures self in w'.maps
      && FamilyOf(keying, w') - {fork} == (FamilyOf(keying, w) - {fork})[self := Contents(keying, w', self)]
  {
    forall n | n in w.maps && n != self && n != fork ensures Contents(keying, w', n) == Contents(keying, w, n) {
      UntouchedEntries(w, w', n);
      SameEntriesSameContents(keying, w, w', n, n);
    }
  }

  lemma DropUntouched(w0: World, w1: World, w2: World, self: Name, fork: Name)
    requires OthersUntouched(w0, w1, self, fork) && KeepsMapsBut(w1, w2, fork) && w2.maps.Keys == w1.maps.Keys - {fork}
    ensures forall n | n in w2.maps && n != self :: Untouched(w0, w2, n)
  {
    forall n | n in w2.maps && n != self ensures Untouched(w0, w2, n) {
      KeptUntouched(w1, w2, fork, n);
      UntouchedTwice(w0, w1, w2, n);
    }
  }

  function HandShard(w: World, p: Place): Shard {
    ShardOf(w, At(w, p))
  }

  /** Only `hand` was touched. */
  ghost predicate OnlyHand(w: World, w': World, hand: Place) {
    && w.next <= w'.next && w'.maps == w.maps
    && (forall n | n in w.maps :: Untouched(w, w', n))
    && (forall p: Place | p.IsHand() && p != hand :: At(w', p) == At(w, p) && HandShard(w', p) == HandShard(w, p))
  }

  /** Only `a` and `b` were touched. */
  ghost predicate OnlyPair(w: World, w': World, a: Place, b: Place) {
    && w.next <= w'.next && w'.maps == w.maps
    && (forall n | n in w.maps :: Untouched(w, w', n))
    && (forall p: Place | p.IsHand() && p != a && p != b :: At(w', p) == At(w, p) && HandShard(w', p) == HandShard(w,
        p))
  }

  lemma OnlyHandTwice(w0: World, w1: World, w2: World, a: Place, b: Place)
    requires OnlyHand(w0, w1, b) && OnlyHand(w1, w2, a) && a != b && a.IsHand() && b.IsHand()
    ensures OnlyPair(w0, w2, a, b)
    ensures At(w2, b) == At(w1, b) && HandShard(w1, a) == HandShard(w0, a)
  {
    hide Untouched;
    forall n | n in w0.maps ensures Untouched(w0, w2, n) {
      UntouchedTwice(w0, w1, w2, n);
    }
  }

  lemma OnlyHandTwiceSame(w0: World, w1: World, w2: World, a: Place)
    requires OnlyHand(w0, w1, a) && OnlyHand(w1, w2, a)
    ensures OnlyHand(w0, w2, a)
  {
    hide Untouched;
    forall n | n in w0.maps ensures Untouched(w0, w2, n) {
      UntouchedTwice(w0, w1, w2, n);
    }
  }

  lemma HandInSlot(keying: Keying, w: World, hand: Place)
    requires ArcWorld.Valid(keying, w)
    ensures InSlot(keying, HandShard(w, hand), hand.at)
    ensures At(w, hand).Some? ==> At(w, hand).value.slot == hand.at && At(w, hand).value.id < w.next
  {
    assert hand in w.held ==> PlacedWell(w, hand, w.held[hand]);
  }

  /** The world with a new shard in `hand`. */
  function WithNew(w: World, hand: Place, shard: Shard): World {
    Hold(Alloc(w, hand.at, shard), hand, NewId(w, hand.at))
  }

  /** A step that moved only a hand, rewriting no shard in use, touched only that hand. */
  lemma HandStep(keying: Keying, w: World, w': World, hand: Place)
    requires ArcWorld.Valid(keying, w) && hand.IsHand() && w'.maps == w.maps && w.next <= w'.next && Grows(w, w')
    requires forall q: Place | q != hand :: At(w', q) == At(w, q)
    ensures OnlyHand(w, w', hand)
  {
    forall n | n in w.maps ensures Untouched(w, w', n) {
      forall i: nat
        ensures At(w', DirtySlot(n, i)) == At(w, DirtySlot(n, i))
        ensures At(w', TableSlot(w.maps[n].slots, i)) == At(w, TableSlot(w.maps[n].slots, i))
        ensures Entries(w', n, i) == Entries(w, n, i)
      {
        HeldInUse(keying, w, n, i);
      }
    }
    forall p: Place | p.IsHand() && p != hand ensures HandShard(w', p) == HandShard(w, p) {
      HandInSlot(keying, w, p);
    }
  }

  lemma HoldNewHand(keying: Keying, w: World, hand: Place, shard: Shard)
    requires ArcWorld.Valid(keying, w) && hand.IsHand() && hand.at < WORD && InSlot(keying, shard, hand.at)
    ensures var w' := WithNew(w, hand, shard);
      ArcWorld.Valid(keying, w') && OnlyHand(w, w', hand) && HandShard(w', hand) == shard && Sole(w', hand,
          NewId(w, hand.at))
  {
    var w' := WithNew(w, hand, shard);
    forall p | p in w.held ensures PlacedWell(w', p, w.held[p]) && w.held[p] != NewId(w, hand.at) {
      assert PlacedWell(w, p, w.held[p]);
    }
    hide PlacedWell;
    HandStep(keying, w, w', hand);
  }

  lemma ReleaseHandOnly(keying: Keying, w: World, hand: Place)
    requires ArcWorld.Valid(keying, w) && hand.IsHand()
    ensures ArcWorld.Valid(keying, Release(w, hand)) && OnlyHand(w, Release(w, hand), hand)
      && At(Release(w, hand), hand).None?
  {
    ReleaseHand(keying, w, hand);
    HandStep(keying, w, Release(w, hand), hand);
  }

  lemma HoldHandOnly(keying: Keying, w: World, hand: Place, a: ShardId)
    requires ArcWorld.Valid(keying, w) && hand.IsHand() && a.slot == hand.at < WORD && a.id < w.next
    ensures ArcWorld.Valid(keying, Hold(w, hand, a)) && OnlyHand(w, Hold(w, hand, a), hand)
      && At(Hold(w, hand, a), hand) == Some(a)
  {
    forall p | p in w.held ensures PlacedWell(Hold(w, hand, a), p, w.held[p]) {
      assert PlacedWell(w, p, w.held[p]);
    }
    HandStep(keying, w, Hold(w, hand, a), hand);
  }

  /** Writing a shard in place through the hand that alone holds it touches nothing else. */
  lemma WriteHand(keying: Keying, w: World, hand: Place, shard: Shard)
    requires ArcWorld.Valid(keying, w) && hand.IsHand() && InSlot(keying, shard, hand.at)
    requires At(w, hand).Some? && Sole(w, hand, At(w, hand).value)
    ensures var w' := Write(w, At(w, hand).value, shard);
      ArcWorld.Valid(keying, w') && OnlyHand(w, w', hand) && HandShard(w', hand) == shard
  {
    var a := At(w, hand).value;
    var w' := Write(w, a, shard);
    WriteEffect(keying, w, hand, a, shard);
    forall n | n in w.maps ensures Untouched(w, w', n) {
      forall i: nat ensures Entries(w', n, i) == Entries(w, n, i) {
        assert At(w, DirtySlot(n, i)) != Some(a) && At(w, TableSlot(w.maps[n].slots, i)) != Some(a);
      }
    }
  }

  /** Only hands of slot `at` were touched. */
  ghost predicate OnlyHandsAt(w: World, w': World, at: nat) {
    && w.next <= w'.next && w'.maps == w.maps
    && (forall n | n in w.maps :: Untouched(w, w', n))
    && (forall p: Place | p.IsHand() && p.at != at :: At(w', p) == At(w, p) && HandShard(w', p) == HandShard(w, p))
  }

  lemma OnlyHandsAtSelf(w: World, at: nat)
    ensures OnlyHandsAt(w, w, at)
  {
    UntouchedSelf(w);
  }

  lemma OnlyHandsAtMaps(w: World, w': World, at: nat, n: Name)
    requires OnlyHandsAt(w, w', at) && n in w.maps
    ensures n in w'.maps && Entries(w', n, at) == Entries(w, n, at)
  {
    UntouchedEntries(w, w', n);
  }

  lemma OnlyHandsAtStep(w0: World, w1: World, w2: World, at: nat, i: nat)
    requires OnlyHandsAt(w0, w1, at) && OnlyPair(w1, w2, SelfHand(at), ForkHand(i, at))
    ensures OnlyHandsAt(w0, w2, at)
  {
    hide Untouched;
    forall n | n in w0.maps ensures Untouched(w0, w2, n) {
      UntouchedTwice(w0, w1, w2, n);
    }
  }

  /**
   * The forks from `from` on that changed slot `at` of `frozen` have left
   * their shard of it in hand; no other fork has a hand there.
   */
  ghost predicate LeftInHandsFrom(w: World, frozen: Name, at: nat, took: set<nat>, left: seq<Shard>, from: nat)
    requires frozen in w.maps
  {
    && (forall i: nat | from <= i < |left| && i in took :: HandShard(w, ForkHand(i, at)) == left[i])
    && (forall i: nat | from <= i < |left| && i !in took :: left[i] == Entries(w, frozen, at))
    && (forall i: nat | At(w, ForkHand(i, at)).Some? :: from <= i < |left| && i in took)
  }

  lemma LeftNext(w: World, frozen: Name, at: nat, took: set<nat>, left: seq<Shard>, i: nat)
    requires frozen in w.maps && i < |left| && LeftInHandsFrom(w, frozen, at, took, left, i)
    ensures i in took ==> HandShard(w, ForkHand(i, at)) == left[i]
    ensures i !in took ==> left[i] == Entries(w, frozen, at) && LeftInHandsFrom(w, frozen, at, took, left, i + 1)
  {
  }

  lemma LeftKept(w: World, w': World, frozen: Name, at: nat, took: set<nat>, left: seq<Shard>, i: nat)
    requires frozen in w.maps && i < |left| && LeftInHandsFrom(w, frozen, at, took, left, i)
    requires OnlyPair(w, w', SelfHand(at), ForkHand(i, at)) && At(w', ForkHand(i, at)).None?
    ensures frozen in w'.maps && LeftInHandsFrom(w', frozen, at, took, left, i + 1)
  {
    UntouchedEntries(w, w', frozen);
    forall j: nat | At(w', ForkHand(j, at)).Some? ensures i + 1 <= j < |left| && j in took {
      assert At(w', ForkHand(j, at)) == At(w, ForkHand(j, at));
    }
  }

  lemma LeftDone(w: World, frozen: Name, at: nat, took: set<nat>, left: seq<Shard>)
    requires frozen in w.maps && LeftInHandsFrom(w, frozen, at, took, left, |left|)
    ensures forall i: nat :: At(w, ForkHand(i, at)).None?
  {
    forall i: nat ensures At(w, ForkHand(i, at)).None? {
    }
  }

  lemma NoForks(merge: Option<Merge<Value>>, was: Shard, now: Shard, left: seq<Shard>)
    ensures FoldMaps(merge, was, now, left[..0]) == now
  {
  }

  /** One more fork: what it leaves, and when it conflicts; nothing when it left what it found. */
  lemma ForkStep(merge: Option<Merge<Value>>, was: Shard, now: Shard, left: seq<Shard>, i: nat)
    requires i < |left|
    ensures FoldMaps(merge, was, now, left[..i + 1]) == MergeMaps(merge, FoldMaps(merge, was, now, left[..i]), was,
        left[i])
    ensures ForkConflicts(merge, was, now, left, i) <==> MapsConflict(merge, FoldMaps(merge, was, now, left[..i]),
        was, left[i])
    ensures left[i] == was ==> FoldMaps(merge, was, now, left[..i + 1]) == FoldMaps(merge, was, now, left[..i])
    ensures left[i] == was ==> !ForkConflicts(merge, was, now, left, i)
  {
    assert left[..i + 1][..i] == left[..i];
    UnwrittenForkIsIdentity(merge, FoldMaps(merge, was, now, left[..i]), was);
  }

  /** Slot `at` of `self` was installed: no other map, no other slot and no hand of another slot was touched. */
  ghost predicate ShardInstalled(w: World, w': World, self: Name, at: nat) {
    && w'.maps == w.maps
    && (forall n | n in w.maps && n != self :: Untouched(w, w', n))
    && UntouchedBut(w, w', self, at)
    && (forall p: Place | p.IsHand() && p.at != at :: At(w', p) == At(w, p) && HandShard(w', p) == HandShard(w, p))
    && (forall p: Place | p.IsHand() && p.at == at :: At(w', p).None?)
  }

  /** The shard in hand at `at` was filed in the dirty list of `self`. */
  ghost predicate ShardKept(w: World, w': World, self: Name, at: nat) {
    && w'.maps == w.maps
    && (forall n | n in w.maps && n != self :: Untouched(w, w', n))
    && UntouchedBut(w, w', self, at)
    && (forall p: Place | p.IsHand() && p != SelfHand(at) :: At(w', p) == At(w, p) && HandShard(w', p) == HandShard(w,
        p))
    && At(w', SelfHand(at)).None?
  }

  lemma LeftTaken(w: World, w': World, frozen: Name, at: nat, took: set<nat>, left: seq<Shard>)
    requires frozen in w.maps && LeftInHandsFrom(w, frozen, at, took, left, 0) && Untouched(w, w', frozen)
    requires w'.shards == w.shards && forall p: Place | p.IsHand() && p != SelfHand(at) :: At(w', p) == At(w, p)
    ensures LeftInHandsFrom(w', frozen, at, took, left, 0)
  {
    UntouchedEntries(w, w', frozen);
    forall i: nat ensures At(w', ForkHand(i, at)) == At(w, ForkHand(i, at)) {
    }
  }

  lemma KeptSteps(keying: Keying, w0: World, w1: World, w2: World, self: Name, at: nat)
    requires ArcWorld.Valid(keying, w1) && self in w1.maps && OnlyHand(w0, w1, SelfHand(at))
      && At(w1, SelfHand(at)).None? && Leaves(w1, w2, self)
    requires w2.maps == w1.maps && forall q: Place | q != DirtySlot(self, at) :: At(w2, q) == At(w1, q)
    requires forall i: nat | i != at :: Entries(w2, self, i) == Entries(w1, self, i)
    ensures ShardKept(w0, w2, self, at)
  {
    forall n | n in w0.maps && n != self ensures Untouched(w0, w2, n) {
      LeavesUntouched(keying, w1, w2, self, n);
      UntouchedTwice(w0, w1, w2, n);
    }
  }

  lemma ShardInstalledSteps(w0: World, w1: World, w2: World, w3: World, self: Name, at: nat)
    requires w1.maps == w0.maps && w1.shards == w0.shards && UntouchedBut(w0, w1, self, at)
    requires forall n | n in w0.maps && n != self :: Untouched(w0, w1, n)
    requires forall p: Place | p.IsHand() && p != SelfHand(at) :: At(w1, p) == At(w0, p)
    requires OnlyHandsAt(w1, w2, at) && forall i: nat :: At(w2, ForkHand(i, at)).None?
    requires ShardKept(w2, w3, self, at)
    ensures ShardInstalled(w0, w3, self, at)
  {
    forall n | n in w0.maps && n != self ensures Untouched(w0, w3, n) {
      UntouchedTwice(w0, w1, w2, n);
      UntouchedTwice(w0, w2, w3, n);
    }
    UntouchedButTwice(w0, w1, w2, self, at);
    UntouchedButBoth(w0, w2, w3, self, at);
    forall p: Place | p.IsHand() && p.at == at ensures At(w3, p).None? {
      if p.ForkHand? {
        assert p == ForkHand(p.fork, at);
      }
    }
  }

  lemma UntouchedButBoth(w0: World, w1: World, w2: World, n: Name, at: nat)
    requires UntouchedBut(w0, w1, n, at) && UntouchedBut(w1, w2, n, at)
    ensures UntouchedBut(w0, w2, n, at)
  {
  }

  lemma UntouchedHeld(w: World, w': World, n: Name, at: nat)
    requires Untouched(w, w', n)
    ensures HeldShard(w', n, at) == HeldShard(w, n, at)
  {
    assert At(w', DirtySlot(n, at)) == At(w, DirtySlot(n, at));
    assert At(w', TableSlot(w.maps[n].slots, at)) == At(w, TableSlot(w.maps[n].slots, at));
  }

  lemma UntouchedButHeld(w: World, w': World, n: Name, at: nat)
    requires UntouchedBut(w, w', n, at)
    ensures forall i: nat | i != at :: HeldShard(w', n, i) == HeldShard(w, n, i)
  {
    forall i: nat | i != at ensures HeldShard(w', n, i) == HeldShard(w, n, i) {
      assert At(w', DirtySlot(n, i)) == At(w, DirtySlot(n, i));
      assert At(w', TableSlot(w.maps[n].slots, i)) == At(w, TableSlot(w.maps[n].slots, i));
    }
  }

  lemma UntouchedAllTwice(w0: World, w1: World, w2: World, fork: Name)
    requires w1.maps == w0.maps && w2.maps == w0.maps
    requires forall n | n in w0.maps && n != fork :: Untouched(w0, w1, n)
    requires forall n | n in w0.maps && n != fork :: Untouched(w1, w2, n)
    ensures forall n | n in w0.maps && n != fork :: Untouched(w0, w2, n)
  {
    hide Untouched;
    forall n | n in w0.maps && n != fork ensures Untouched(w0, w2, n) {
      UntouchedTwice(w0, w1, w2, n);
    }
  }

  /** Distinct forks of `frozen`. */
  ghost predicate Forks(w: World, frozen: Name, forks: seq<Name>) {
    && frozen in w.maps
    && (forall i | 0 <= i < |forks| :: forks[i] in w.maps && forks[i] != frozen && ForkOf(w, frozen, forks[i]))
    && (forall i, j | 0 <= i < j < |forks| :: forks[i] != forks[j])
  }

  ghost predicate ForkChanged(w: World, frozen: Name, fork: Name, at: nat)
    requires frozen in w.maps && fork in w.maps
  {
    HeldShard(w, frozen, at) != HeldShard(w, fork, at)
  }

  /** The first `n` forks are gone, and every shard they changed of `frozen` is in hand. */
  ghost predicate Gathered(w0: World, w: World, frozen: Name, forks: seq<Name>, n: nat, took: set<(nat, nat)>)
    requires n <= |forks| && Forks(w0, frozen, forks)
  {
    && w.shards == w0.shards
    && (forall m :: m in w.maps <==> m in w0.maps && m !in forks[..n])
    && (forall m | m in w.maps :: Untouched(w0, w, m))
    && (forall at: nat, i: nat :: (at, i) in took <==> i < n && ForkChanged(w0, frozen, forks[i], at))
    && (forall at: nat, i: nat :: At(w, ForkHand(i, at)) ==
          if i < n && ForkChanged(w0, frozen, forks[i], at) then HeldShard(w0, forks[i], at) else None)
    && (forall at: nat :: At(w, SelfHand(at)).None?)
  }

  lemma GatheredNone(w: World, frozen: Name, forks: seq<Name>)
    requires NoHands(w) && Forks(w, frozen, forks)
    ensures Gathered(w, w, frozen, forks, 0, {})
  {
    UntouchedSelf(w);
  }

  lemma ForkOfKept(w: World, w': World, frozen: Name, fork: Name)
    requires Untouched(w, w', frozen) && Untouched(w, w', fork) && ForkOf(w, frozen, fork)
    ensures ForkOf(w', frozen, fork)
  {
    forall i: nat | w'.maps[fork].slots == w'.maps[frozen].slots && DirtySlot(frozen, i) in w'.held
        ensures DirtySlot(fork, i) in w'.held {
      assert At(w', DirtySlot(frozen, i)) == At(w, DirtySlot(frozen, i));
      assert At(w', DirtySlot(fork, i)) == At(w, DirtySlot(fork, i));
    }
  }

  lemma NextFork(w0: World, w: World, frozen: Name, forks: seq<Name>, i: nat, took: set<(nat, nat)>)
    requires i < |forks| && Forks(w0, frozen, forks) && Gathered(w0, w, frozen, forks, i, took)
    ensures frozen in w.maps && forks[i] in w.maps && frozen != forks[i] && ForkOf(w, frozen, forks[i])
    ensures forall at: nat :: At(w, ForkHand(i, at)).None?
  {
    ForkOfKept(w0, w, frozen, forks[i]);
  }

  lemma GatheredNext(w0: World, w: World, w': World, frozen: Name, forks: seq<Name>, i: nat, took: set<(nat, nat)>,
                     slots: set<nat>)
    requires i < |forks| && Forks(w0, frozen, forks) && Gathered(w0, w, frozen, forks, i, took)
    requires frozen in w.maps && forks[i] in w.maps
    requires w'.shards == w.shards && w'.maps.Keys == w.maps.Keys - {forks[i]}
    requires forall n | n in w'.maps :: Untouched(w, w', n)
    requires forall at: nat :: at in slots <==> HeldShard(w, frozen, at) != HeldShard(w, forks[i], at)
    requires forall at: nat :: At(w', ForkHand(i, at)) == if at in slots then HeldShard(w, forks[i], at) else None
    requires forall p: Place | p.IsHand() && !(p.ForkHand? && p.fork == i) :: At(w', p) == At(w, p)
    ensures Gathered(w0, w', frozen, forks, i + 1, took + set at | at in slots :: (at, i))
  {
    forall at: nat ensures HeldShard(w, frozen, at) == HeldShard(w0, frozen, at)
        && HeldShard(w, forks[i], at) == HeldShard(w0, forks[i], at) {
      UntouchedHeld(w0, w, frozen, at);
      UntouchedHeld(w0, w, forks[i], at);
    }
    hide Untouched, HeldShard, Entries;
    forall m | m in w'.maps ensures Untouched(w0, w', m) {
      UntouchedTwice(w0, w, w', m);
    }
    assert forks[..i + 1] == forks[..i] + [forks[i]];
    forall at: nat, j: nat ensures At(w', ForkHand(j, at)) ==
          if j < i + 1 && ForkChanged(w0, frozen, forks[j], at) then HeldShard(w0, forks[j], at) else None {
      if j != i {
        assert At(w', ForkHand(j, at)) == At(w, ForkHand(j, at));
      }
    }
  }

  /** What each fork left at slot `at`. */
  ghost function LeftAt(w: World, forks: seq<Name>, at: nat): (left: seq<Shard>)
    requires forall i | 0 <= i < |forks| :: forks[i] in w.maps
    ensures |left| == |forks| && forall i | 0 <= i < |forks| :: left[i] == Entries(w, forks[i], at)
  {
    seq(|forks|, i requires 0 <= i < |forks| => Entries(w, forks[i], at))
  }

  /** What the superstep makes of slot `at`. */
  ghost function SlotFold(w: World, self: Name, frozen: Name, forks: seq<Name>, merge: Option<Merge<Value>>,
                          at: nat): Shard
    requires self in w.maps && Forks(w, frozen, forks)
  {
    FoldMaps(merge, Entries(w, frozen, at), Entries(w, self, at), LeftAt(w, forks, at))
  }

  ghost predicate SlotForkConflict(w: World, self: Name, frozen: Name, forks: seq<Name>, merge: Option<Merge<Value>>,
                                   at: nat, i: nat)
    requires self in w.maps && Forks(w, frozen, forks) && i < |forks|
  {
    ForkConflicts(merge, Entries(w, frozen, at), Entries(w, self, at), LeftAt(w, forks, at), i)
  }

  /** The slots `rest` of `slots` are still to be installed. */
  ghost predicate Pending(w0: World, w1: World, w: World, self: Name, frozen: Name, forks: seq<Name>,
                          merge: Option<Merge<Value>>,
                          slots: set<nat>, rest: set<nat>)
    requires self in w0.maps && self in w1.maps && Forks(w0, frozen, forks)
  {
    && w.maps == w1.maps
    && (forall m | m in w.maps && m != self :: Untouched(w1, w, m))
    && (forall at: nat :: Entries(w, self, at) ==
          if at in slots && at !in rest then SlotFold(w0, self, frozen, forks, merge, at) else Entries(w1, self, at))
    && (forall p: Place | p.IsHand() && p.at in rest :: At(w, p) == At(w1, p) && HandShard(w, p) == HandShard(w1, p))
    && (forall p: Place | p.IsHand() && p.at !in rest :: At(w, p).None?)
  }

  function SlotsTaken(took: set<(nat, nat)>): set<nat> {
    set pair | pair in took :: pair.0
  }

  function ForksTaken(took: set<(nat, nat)>, at: nat): set<nat> {
    set pair | pair in took && pair.0 == at :: pair.1
  }

  lemma Taken(took: set<(nat, nat)>, at: nat)
    ensures at in SlotsTaken(took) <==> exists i :: (at, i) in took
    ensures forall i :: i in ForksTaken(took, at) <==> (at, i) in took
  {
    if i :| (at, i) in took {
      assert (at, i).0 in SlotsTaken(took);
    }
    forall i | (at, i) in took ensures i in ForksTaken(took, at) {
      assert (at, i).1 in ForksTaken(took, at);
    }
  }

  lemma PendingStart(w0: World, w1: World, self: Name, frozen: Name, forks: seq<Name>, merge: Option<Merge<Value>>,
                     took: set<(nat, nat)>)
    requires self in w0.maps && self !in forks && Forks(w0, frozen, forks)
      && Gathered(w0, w1, frozen, forks, |forks|, took)
    ensures self in w1.maps && Pending(w0, w1, w1, self, frozen, forks, merge, SlotsTaken(took), SlotsTaken(took))
  {
    UntouchedSelf(w1);
    forall p: Place | p.IsHand() && p.at !in SlotsTaken(took) ensures At(w1, p).None? {
      Taken(took, p.at);
      if p.ForkHand? {
        assert (p.at, p.fork) !in took;
        assert p == ForkHand(p.fork, p.at);
      }
    }
  }

  /** A gathered slot was changed by some fork, so it is a slot a word names. */
  lemma SlotBelowWord(keying: Keying, w0: World, w1: World, frozen: Name, forks: seq<Name>, took: set<(nat, nat)>,
                      at: nat)
    requires ArcWorld.Valid(keying, w0) && Forks(w0, frozen, forks) && Gathered(w0, w1, frozen, forks, |forks|, took)
    requires at in SlotsTaken(took)
    ensures at < WORD
  {
    Taken(took, at);
    var i :| (at, i) in took;
    HeldInUse(keying, w0, frozen, at);
    HeldInUse(keying, w0, forks[i], at);
  }

  lemma GatheredAt(w0: World, w1: World, self: Name, frozen: Name, forks: seq<Name>, took: set<(nat, nat)>, at: nat)
    requires self in w0.maps && self !in forks && Forks(w0, frozen, forks)
      && Gathered(w0, w1, frozen, forks, |forks|, took)
    ensures self in w1.maps && frozen in w1.maps && At(w1, SelfHand(at)).None?
    ensures Entries(w1, frozen, at) == Entries(w0, frozen, at) && Entries(w1, self, at) == Entries(w0, self, at)
    ensures LeftInHandsFrom(w1, frozen, at, ForksTaken(took, at), LeftAt(w0, forks, at), 0)
  {
    Taken(took, at);
    UntouchedEntries(w0, w1, frozen);
    UntouchedEntries(w0, w1, self);
    hide Untouched;
    forall i: nat | At(w1, ForkHand(i, at)).Some? ensures i < |forks| && i in ForksTaken(took, at) {
      assert (at, i) in took;
    }
    forall i: nat | i < |forks| && i in ForksTaken(took, at) ensures HandShard(w1, ForkHand(i, at)) == LeftAt(w0,
        forks, at)[i] {
    }
    forall i: nat | i < |forks| && i !in ForksTaken(took, at)
        ensures LeftAt(w0, forks, at)[i] == Entries(w1, frozen, at) {
      assert (at, i) !in took;
    }
  }

  /** A pending slot is as it was gathered. */
  lemma PendingAt(w0: World, w1: World, w: World, self: Name, frozen: Name, forks: seq<Name>,
                  merge: Option<Merge<Value>>,
                  slots: set<nat>, rest: set<nat>, at: nat, forked: set<nat>, left: seq<Shard>)
    requires self in w0.maps && self in w1.maps && frozen in w1.maps && self != frozen && Forks(w0, frozen, forks)
    requires Pending(w0, w1, w, self, frozen, forks, merge, slots, rest) && at in rest
    requires At(w1, SelfHand(at)).None? && LeftInHandsFrom(w1, frozen, at, forked, left, 0)
    ensures self in w.maps && frozen in w.maps && At(w, SelfHand(at)).None?
    ensures Entries(w, frozen, at) == Entries(w1, frozen, at) && Entries(w, self, at) == Entries(w1, self, at)
    ensures LeftInHandsFrom(w, frozen, at, forked, left, 0)
  {
    UntouchedEntries(w1, w, frozen);
    hide Untouched, Entries;
    forall i: nat ensures At(w, ForkHand(i, at)) == At(w1, ForkHand(i, at))
        && HandShard(w, ForkHand(i, at)) == HandShard(w1, ForkHand(i, at)) {
    }
  }

  lemma PendingNext(w0: World, w1: World, w: World, w': World, self: Name, frozen: Name, forks: seq<Name>,
                    merge: Option<Merge<Value>>,
                    slots: set<nat>, rest: set<nat>, at: nat)
    requires self in w0.maps && self in w1.maps && Forks(w0, frozen, forks)
    requires Pending(w0, w1, w, self, frozen, forks, merge, slots, rest)
    requires at in rest && rest <= slots && w'.maps == w.maps && ShardInstalled(w, w', self, at)
    requires Entries(w', self, at) == SlotFold(w0, self, frozen, forks, merge, at)
    ensures Pending(w0, w1, w', self, frozen, forks, merge, slots, rest - {at})
  {
    UntouchedButEntries(w, w', self, at);
    forall m | m in w'.maps && m != self ensures Untouched(w1, w', m) {
      UntouchedTwice(w1, w, w', m);
    }
  }

  lemma PendingDone(w0: World, w1: World, w: World, self: Name, frozen: Name, forks: seq<Name>,
                    merge: Option<Merge<Value>>, took: set<(nat, nat)>)
    requires self in w0.maps && self in w1.maps && Forks(w0, frozen, forks)
      && Gathered(w0, w1, frozen, forks, |forks|, took)
    requires Pending(w0, w1, w, self, frozen, forks, merge, SlotsTaken(took), {})
    ensures NoHands(w) && w.maps == w1.maps && forall m | m in w.maps && m != self :: Untouched(w1, w, m)
    ensures forall at: nat :: Entries(w, self, at) == SlotFold(w0, self, frozen, forks, merge, at)
    ensures forall at: nat, i: nat | at !in SlotsTaken(took)
      && i < |forks| :: !SlotForkConflict(w0, self, frozen, forks, merge, at, i)
  {
    UntouchedEntries(w0, w1, self);
    forall at: nat | at !in SlotsTaken(took)
      ensures SlotFold(w0, self, frozen, forks, merge, at) == Entries(w0, self, at)
      ensures forall i: nat | i < |forks| :: !SlotForkConflict(w0, self, frozen, forks, merge, at, i)
    {
      Taken(took, at);
      var left := LeftAt(w0, forks, at);
      forall i | 0 <= i < |forks| ensures left[i] == Entries(w0, frozen, at) {
        assert (at, i) !in took;
      }
      UnwrittenForks(merge, Entries(w0, frozen, at), Entries(w0, self, at), left);
    }
  }

  lemma {:induction false} UnwrittenForks(merge: Option<Merge<Value>>, was: Shard, now: Shard, left: seq<Shard>)
    requires forall i | 0 <= i < |left| :: left[i] == was
    ensures FoldMaps(merge, was, now, left) == now
    ensures forall i: nat | i < |left| :: !ForkConflicts(merge, was, now, left, i)
    decreases |left|
  {
    if left != [] {
      var last := |left| - 1;
      UnwrittenForks(merge, was, now, left[..last]);
      UnwrittenForkIsIdentity(merge, now, was);
      forall i: nat | i < last ensures !ForkConflicts(merge, was, now, left, i) {
        assert left[..last][..i] == left[..i];
        assert !ForkConflicts(merge, was, now, left[..last], i);
      }
    }
  }

  ghost predicate Installable(w: World, self: Name, frozen: Name, forks: seq<Name>) {
    self in w.maps && self != frozen && self !in forks && Forks(w, frozen, forks)
  }

  lemma InstallableFacts(keying: Keying, w: World, self: Name, frozen: Name, forks: seq<Name>)
    requires ArcWorld.Valid(keying, w) && Installable(w, self, frozen, forks)
    ensures InFamily(FamilyOf(keying, w), self, frozen, forks) && self != frozen && self !in forks && frozen !in forks
    ensures forall a, b | 0 <= a < b < |forks| :: forks[a] != forks[b]
  {
  }

  /** The first `i` forks are in and gone; `self` alone was touched. */
  ghost predicate Remaining(w0: World, w: World, self: Name, frozen: Name, forks: seq<Name>, i: nat) {
    && i <= |forks|
    && (forall m :: m in w.maps <==> m in w0.maps && m !in forks[..i])
    && (forall m | m in w.maps && m != self :: Untouched(w0, w, m))
  }

  lemma RemainingNone(w: World, self: Name, frozen: Name, forks: seq<Name>)
    ensures Remaining(w, w, self, frozen, forks, 0)
  {
    UntouchedSelf(w);
  }

  lemma RemainingDone(w0: World, w: World, self: Name, frozen: Name, forks: seq<Name>)
    requires Remaining(w0, w, self, frozen, forks, |forks|)
    ensures forall n | n in w.maps && n != self :: Untouched(w0, w, n)
  {
  }

  lemma RemainingNext(w0: World, w: World, self: Name, frozen: Name, forks: seq<Name>, i: nat)
    requires i < |forks| && Installable(w0, self, frozen, forks) && Remaining(w0, w, self, frozen, forks, i)
    ensures Distinct(w, self, frozen, forks[i]) && ForkOf(w, frozen, forks[i])
  {
    ForkOfKept(w0, w, frozen, forks[i]);
  }

  lemma RemainingAfter(w0: World, w: World, w': World, self: Name, frozen: Name, forks: seq<Name>, i: nat)
    requires i < |forks| && Remaining(w0, w, self, frozen, forks, i)
    requires w'.maps.Keys == w.maps.Keys - {forks[i]} && forall n | n in w'.maps && n != self :: Untouched(w, w', n)
    ensures Remaining(w0, w', self, frozen, forks, i + 1)
  {
    hide Untouched;
    assert forks[..i + 1] == forks[..i] + [forks[i]];
    forall m | m in w'.maps && m != self ensures Untouched(w0, w', m) {
      UntouchedTwice(w0, w, w', m);
    }
  }

  // ----- a superstep, slot by slot and as a whole

  /** Taking the forks in slot by slot takes each key in as taking them in whole does. */
  lemma SlotFoldByKey(keying: Keying, w: World, self: Name, frozen: Name, forks: seq<Name>,
                      merge: Option<Merge<Value>>, k: Key, n: nat)
    requires ArcWorld.Valid(keying, w) && Installable(w, self, frozen, forks) && n <= |forks|
    requires InFamily(FamilyOf(keying, w), self, frozen, forks)
    ensures var f, at := FamilyOf(keying, w), SlotOf(keying, k);
      Lookup(FoldMaps(merge, f[frozen], f[self], ForkMaps(f, forks)[..n]), k)
      == Lookup(FoldMaps(merge, Entries(w, frozen, at), Entries(w, self, at), LeftAt(w, forks, at)[..n]), k)
  {
    var f, at := FamilyOf(keying, w), SlotOf(keying, k);
    var whole, part := ForkMaps(f, forks)[..n], LeftAt(w, forks, at)[..n];
    FoldMapsByKey(merge, f[frozen], f[self], whole, k);
    FoldMapsByKey(merge, Entries(w, frozen, at), Entries(w, self, at), part, k);
    ContentsLookup(keying, w, frozen, k);
    ContentsLookup(keying, w, self, k);
    forall i | 0 <= i < n ensures Lookup(whole[i], k) == Lookup(part[i], k) {
      ContentsLookup(keying, w, forks[i], k);
    }
    hide ArcWorld.Valid, Contents, Entries, FoldMaps, FoldKey;
    assert Column(whole, k) == Column(part, k);
  }

  lemma SuperstepContents(keying: Keying, w: World, w': World, self: Name, frozen: Name, forks: seq<Name>,
                          merge: Option<Merge<Value>>)
    requires ArcWorld.Valid(keying, w) && ArcWorld.Valid(keying, w') && self in w'.maps
    requires Installable(w, self, frozen, forks) && InFamily(FamilyOf(keying, w), self, frozen, forks)
    requires forall at: nat :: Entries(w', self, at) == SlotFold(w, self, frozen, forks, merge, at)
    ensures var f := FamilyOf(keying, w);
      Contents(keying, w', self) == FoldMaps(merge, f[frozen], f[self], ForkMaps(f, forks))
  {
    var f := FamilyOf(keying, w);
    var folded := FoldMaps(merge, f[frozen], f[self], ForkMaps(f, forks));
    forall k ensures Lookup(Contents(keying, w', self), k) == Lookup(folded, k) {
      var at := SlotOf(keying, k);
      ContentsLookup(keying, w', self, k);
      SlotFoldByKey(keying, w, self, frozen, forks, merge, k, |forks|);
      assert ForkMaps(f, forks)[..|forks|] == ForkMaps(f, forks) && LeftAt(w, forks, at)[..|forks|] == LeftAt(w,
          forks, at);
    }
    SameLookups(Contents(keying, w', self), folded);
  }

  /** Fork `i` conflicts on `k` in its own slot when it does as a whole, and in no other slot. */
  lemma SlotConflictByKey(keying: Keying, w: World, self: Name, frozen: Name, forks: seq<Name>,
                          merge: Option<Merge<Value>>, i: nat, k: Key, at: nat)
    requires ArcWorld.Valid(keying, w) && Installable(w, self, frozen, forks) && i < |forks|
    requires InFamily(FamilyOf(keying, w), self, frozen, forks)
    ensures var f := FamilyOf(keying, w);
      MergeAt(merge, FoldMaps(merge, Entries(w, frozen, at), Entries(w, self, at), LeftAt(w, forks, at)[..i]),
          Entries(w, frozen, at), LeftAt(w, forks, at)[i], k).conflict
      <==> at == SlotOf(keying, k) && MergeAt(merge, FoldMaps(merge, f[frozen], f[self], ForkMaps(f, forks)[..i]),
          f[frozen], f[forks[i]], k).conflict
  {
    SlotFoldByKey(keying, w, self, frozen, forks, merge, k, i);
    ContentsLookup(keying, w, frozen, k);
    ContentsLookup(keying, w, forks[i], k);
    HeldInUse(keying, w, frozen, at);
    HeldInUse(keying, w, forks[i], at);
  }

  lemma SuperstepConflict(keying: Keying, w: World, self: Name, frozen: Name, forks: seq<Name>,
                          merge: Option<Merge<Value>>, i: nat)
    requires ArcWorld.Valid(keying, w) && Installable(w, self, frozen, forks) && i < |forks|
    requires InFamily(FamilyOf(keying, w), self, frozen, forks)
    ensures Flags(FamilyOf(keying, w), self, frozen, forks, merge)[i] <==> exists at: nat :: SlotForkConflict(w, self,
        frozen, forks, merge, at, i)
  {
    var f := FamilyOf(keying, w);
    hide ArcWorld.Valid, MergeAt, FoldMaps, Entries, FamilyOf, SlotOf;
    if Flags(f, self, frozen, forks, merge)[i] {
      var k :| MergeAt(merge, FoldMaps(merge, f[frozen], f[self], ForkMaps(f, forks)[..i]), f[frozen],
          ForkMaps(f, forks)[i], k).conflict;
      SlotConflictByKey(keying, w, self, frozen, forks, merge, i, k, SlotOf(keying, k));
      assert SlotForkConflict(w, self, frozen, forks, merge, SlotOf(keying, k), i);
    }
    if at: nat :| SlotForkConflict(w, self, frozen, forks, merge, at, i) {
      var k :| MergeAt(merge, FoldMaps(merge, Entries(w, frozen, at), Entries(w, self, at),
          LeftAt(w, forks, at)[..i]), Entries(w, frozen, at), LeftAt(w, forks, at)[i], k).conflict;
      SlotConflictByKey(keying, w, self, frozen, forks, merge, i, k, at);
    }
  }

  /** A fork is listed as conflicting by slot exactly when it is listed by key. */
  lemma SuperstepPlaces(keying: Keying, w: World, self: Name, frozen: Name, forks: seq<Name>,
                        merge: Option<Merge<Value>>,
                        places: seq<nat>, conflicts: set<nat>, conflicted: seq<nat>)
    requires ArcWorld.Valid(keying, w) && Installable(w, self, frozen, forks) && |places| == |forks|
    requires InFamily(FamilyOf(keying, w), self, frozen, forks)
    requires forall i: nat ::
            i in conflicts <==> i < |forks| && exists at: nat :: SlotForkConflict(w, self, frozen, forks, merge, at, i)
    requires Ascending(conflicted) && forall p :: p in conflicted <==> exists i | i in conflicts :: places[i] == p
    ensures Lists(Flags(FamilyOf(keying, w), self, frozen, forks, merge), places, |forks|, conflicted)
  {
    var flags := Flags(FamilyOf(keying, w), self, frozen, forks, merge);
    forall i: nat | i < |forks| ensures i in conflicts <==> flags[i] {
      SuperstepConflict(keying, w, self, frozen, forks, merge, i);
    }
    hide ArcWorld.Valid, Installable, FamilyOf, Flags, SlotForkConflict, InFamily;
  }

  lemma GatheredFacts(w0: World, w1: World, w: World, self: Name, frozen: Name, forks: seq<Name>, took: set<(nat, nat)>)
    requires Installable(w0, self, frozen, forks) && Gathered(w0, w1, frozen, forks, |forks|, took)
    requires w.maps == w1.maps && forall m | m in w.maps && m != self :: Untouched(w1, w, m)
    ensures forall m :: m in w.maps <==> m in w0.maps && m !in forks
    ensures forall m | m in w.maps && m != self :: Untouched(w0, w, m)
  {
    assert forks[..|forks|] == forks;
    hide Untouched;
    forall m | m in w.maps && m != self ensures Untouched(w0, w, m) {
      UntouchedTwice(w0, w1, w, m);
    }
  }

  lemma FamilySuperstep(keying: Keying, w0: World, w: World, self: Name, frozen: Name, forks: seq<Name>,
                        merge: Option<Merge<Value>>)
    requires ArcWorld.Valid(keying, w0) && ArcWorld.Valid(keying, w)
      && InFamily(FamilyOf(keying, w0), self, frozen, forks)
    requires self in w.maps && forall m :: m in w.maps <==> m in w0.maps && m !in forks
    requires forall m | m in w.maps && m != self :: Untouched(w0, w, m)
    requires var f := FamilyOf(keying, w0); Contents(keying, w, self) == FoldMaps(merge, f[frozen], f[self],
        ForkMaps(f, forks))
    ensures FamilyOf(keying, w) == Installed(FamilyOf(keying, w0), self, frozen, forks, merge)
  {
    hide ArcWorld.Valid, Contents, Untouched, Entries, FoldMaps, ForkMaps;
    forall m | m in w.maps && m != self ensures Contents(keying, w, m) == Contents(keying, w0, m) {
      UntouchedEntries(w0, w, m);
      SameEntriesSameContents(keying, w0, w, m, m);
    }
  }

  /** A fork and what it was forked from disagree on `k` in slot `at`. */
  ghost predicate Differs(w: World, frozen: Name, fork: Name, at: nat, k: Key)
    requires frozen in w.maps && fork in w.maps
  {
    Lookup(Entries(w, fork, at), k) != Lookup(Entries(w, frozen, at), k)
  }

  /** A key is changed as a whole exactly when it is changed in its slot, and it is in no other. */
  lemma ShardsOfKey(keying: Keying, w: World, frozen: Name, fork: Name, k: Key)
    requires ArcWorld.Valid(keying, w) && frozen in w.maps && fork in w.maps
    ensures Lookup(Contents(keying, w, fork), k) == Lookup(Entries(w, fork, SlotOf(keying, k)), k)
    ensures Lookup(Contents(keying, w, frozen), k) == Lookup(Entries(w, frozen, SlotOf(keying, k)), k)
    ensures forall at: nat | at != SlotOf(keying, k) ::
            Lookup(Entries(w, fork, at), k) == Lookup(Entries(w, frozen, at), k) == None
  {
    ContentsLookup(keying, w, fork, k);
    ContentsLookup(keying, w, frozen, k);
    forall at: nat | at != SlotOf(keying, k)
        ensures Lookup(Entries(w, fork, at), k) == Lookup(Entries(w, frozen, at), k) == None {
      HeldInUse(keying, w, fork, at);
      HeldInUse(keying, w, frozen, at);
    }
  }
}
