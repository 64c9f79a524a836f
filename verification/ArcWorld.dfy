/**
 * The memory copy-on-write maps share: `Arc`s as addresses, and the places
 * that hold them.
 *
 * A map is a slot table, a dirty overlay and a fork flag. A table's slots and
 * a dirty list's entries are places that may hold a shard. A strong count is
 * the number of places holding an address; a table's slot counts once however
 * many maps share the table, so a shard with count one inside a table with
 * count two is still shared.
 */
module ArcWorld {
  import opened Options
  import opened Sharding

  /** The value type of a copy-on-write map, any with equality. */
  type Value(==, !new)

  type Name = nat
  type Shard = map<Key, Value>

  /** A slot table's address: a table keeps its length, a longer one is a new table. */
  datatype TableId = TableId(id: nat, len: nat)

  /** A shard's address: a shard is made for one slot and never moves to another. */
  datatype ShardId = ShardId(slot: nat, id: nat)

  /** A place that holds a shard: a map's own, or a local variable of an install. */
  datatype Place =
    | TableSlot(table: TableId, at: nat)
    | DirtySlot(name: Name, at: nat)
    | ForkHand(fork: nat, at: nat)
    | SelfHand(at: nat)
  {
    predicate IsHand() { ForkHand? || SelfHand? }
  }

  datatype Cow = Cow(slots: TableId, forked: bool)

  /** Ids from `next` on are unused. */
  datatype World = World(
    maps: map<Name, Cow>,
    held: map<Place, ShardId>,
    shards: map<ShardId, Shard>,
    next: nat)

  // ----- reading

  function ShardAt(w: World, a: ShardId): Shard {
    if a in w.shards then w.shards[a] else map[]
  }

  function ShardOf(w: World, held: Option<ShardId>): Shard {
    if held.Some? then ShardAt(w, held.value) else map[]
  }

  function At(w: World, p: Place): Option<ShardId> {
    Lookup(w.held, p)
  }

  /** What `m` holds at `at`: its dirty list comes before its table. */
  function HeldShard(w: World, m: Name, at: nat): Option<ShardId>
    requires m in w.maps
  {
    if DirtySlot(m, at) in w.held then At(w, DirtySlot(m, at)) else At(w, TableSlot(w.maps[m].slots, at))
  }

  function Entries(w: World, m: Name, at: nat): Shard
    requires m in w.maps
  {
    ShardOf(w, HeldShard(w, m, at))
  }

  function DirtyKeys(w: World, m: Name): set<nat> {
    set p | p in w.held && p.DirtySlot? && p.name == m :: p.at
  }

  // ----- strong counts

  function TableHolders(w: World, t: TableId): set<Name> {
    set m | m in w.maps && w.maps[m].slots == t
  }

  function ShardHolders(w: World, a: ShardId): set<Place> {
    set p | p in w.held && w.held[p] == a && (p.TableSlot? ==> TableHolders(w, p.table) != {})
  }

  // ----- validity

  ghost predicate InSlot(keying: Keying, shard: Shard, at: nat) {
    forall k | k in shard :: SlotOf(keying, k) == at
  }

  /** Places hold shards made for their slot, and shards hold keys of theirs. */
  ghost predicate Valid(keying: Keying, w: World) {
    && (forall m | m in w.maps :: w.maps[m].slots.id < w.next && w.maps[m].slots.len <= WORD)
    && (forall p | p in w.held :: PlacedWell(w, p, w.held[p]))
    && (forall a | a in w.shards :: InSlot(keying, w.shards[a], a.slot))
  }

  /** `p` is a place there is, and `a` a shard it may hold. */
  ghost predicate PlacedWell(w: World, p: Place, a: ShardId) {
    && a.slot == p.at < WORD && a.id < w.next
    && (p.TableSlot? ==> p.table.id < w.next && p.at < p.table.len)
    && (p.DirtySlot? ==> p.name in w.maps)
  }

  // ----- frames

  ghost predicate OnlyTableHolder(w: World, m: Name)
    requires m in w.maps
  {
    forall n | n in w.maps && w.maps[n].slots == w.maps[m].slots :: n == m
  }

  /** `p` is a place of `m`'s own: its dirty list, or a table no other map holds. */
  ghost predicate Owns(w: World, m: Name, p: Place)
    requires m in w.maps
  {
    (p.DirtySlot? && p.name == m) || (p.TableSlot? && p.table == w.maps[m].slots && OnlyTableHolder(w, m))
  }

  /** Only places of `m`'s own changed, and new tables were made. */
  ghost predicate OnlyMap(w: World, w': World, m: Name)
    requires m in w.maps
  {
    && w.next <= w'.next
    && w'.maps.Keys == w.maps.Keys
    && w'.maps[m].forked == w.maps[m].forked
    && (w'.maps[m].slots == w.maps[m].slots || w'.maps[m].slots.id >= w.next)
    && (forall n | n in w.maps && n != m :: w'.maps[n] == w.maps[n])
    && (forall p: Place | !Owns(w, m, p) && (p.TableSlot? ==> p.table.id < w.next) :: At(w', p) == At(w, p))
  }

  lemma OnlyMapTwice(w0: World, w1: World, w2: World, m: Name)
    requires m in w0.maps && OnlyMap(w0, w1, m) && OnlyMap(w1, w2, m)
    ensures OnlyMap(w0, w2, m)
  {
    forall p: Place | !Owns(w0, m, p) && (p.TableSlot? ==> p.table.id < w0.next) ensures At(w2, p) == At(w0, p) {
      assert !Owns(w1, m, p);
    }
  }

  /** Shards in use keep their entries; only unused ids are filled. */
  ghost predicate Grows(w: World, w': World) {
    forall a: ShardId | a.id < w.next :: ShardAt(w', a) == ShardAt(w, a)
  }

  // ----- sole holders

  /** Some map or hand reaches place `q`. */
  ghost predicate Reachable(w: World, q: Place) {
    q.TableSlot? ==> exists n | n in w.maps :: w.maps[n].slots == q.table
  }

  /** No place any map or hand can reach but `p` holds `a`. */
  ghost predicate Sole(w: World, p: Place, a: ShardId) {
    && At(w, p) == Some(a)
    && forall q | q in w.held && w.held[q] == a && Reachable(w, q) :: q == p
  }

  /** An element counted alone is the only one there is. */
  lemma SoleElement<T>(s: set<T>, x: T)
    requires x in s && |s| <= 1
    ensures forall y | y in s :: y == x
  {
    assert |s - {x}| == 0;
    assert forall y | y in s && y != x :: y in s - {x};
  }

  lemma CountedOnceTable(w: World, m: Name)
    requires m in w.maps && |TableHolders(w, w.maps[m].slots)| <= 1
    ensures OnlyTableHolder(w, m)
  {
    SoleElement(TableHolders(w, w.maps[m].slots), m);
    assert forall n | n in w.maps && w.maps[n].slots == w.maps[m].slots :: n in TableHolders(w, w.maps[m].slots);
  }

  lemma SharedTable(w: World, m: Name)
    requires m in w.maps && |TableHolders(w, w.maps[m].slots)| > 1
    ensures !OnlyTableHolder(w, m)
  {
    assert |TableHolders(w, w.maps[m].slots) - {m}| >= 1;
    var n :| n in TableHolders(w, w.maps[m].slots) - {m};
  }

  /** A table is counted more than once exactly when another map has it too. */
  lemma SoleOrShared(w: World, m: Name)
    requires m in w.maps
    ensures OnlyTableHolder(w, m) <==> |TableHolders(w, w.maps[m].slots)| <= 1
  {
    if |TableHolders(w, w.maps[m].slots)| <= 1 {
      CountedOnceTable(w, m);
    } else {
      SharedTable(w, m);
    }
  }

  /** A count of one is a sole holder. */
  lemma CountedOnce(w: World, p: Place, a: ShardId)
    requires At(w, p) == Some(a) && p in ShardHolders(w, a) && |ShardHolders(w, a)| <= 1
    ensures Sole(w, p, a)
  {
    SoleElement(ShardHolders(w, a), p);
    forall q | q in w.held && w.held[q] == a && Reachable(w, q) ensures q == p {
      if q.TableSlot? {
        var n :| n in w.maps && w.maps[n].slots == q.table;
        assert n in TableHolders(w, q.table);
      }
      assert q in ShardHolders(w, a);
    }
  }

  // ----- elementary steps

  function Hold(w: World, p: Place, a: ShardId): World {
    w.(held := w.held[p := a])
  }

  function Release(w: World, p: Place): World {
    w.(held := w.held - {p})
  }

  function Write(w: World, a: ShardId, shard: Shard): World {
    w.(shards := w.shards[a := shard])
  }

  /** A new shard for slot `at`, held nowhere yet. */
  function NewId(w: World, at: nat): ShardId {
    ShardId(at, w.next)
  }

  function Alloc(w: World, at: nat, shard: Shard): World {
    w.(shards := w.shards[NewId(w, at) := shard], next := w.next + 1)
  }

  /** Gives `m` a copy of its table, `len` slots long. */
  function Retable(w: World, m: Name, len: nat): World
    requires m in w.maps
  {
    var t := TableId(w.next, len);
    w.(maps := w.maps[m := w.maps[m].(slots := t)],
       held := w.held + (map p | p in w.held && p.TableSlot? && p.table == w.maps[m].slots
           :: TableSlot(t, p.at) := w.held[p]),
       next := w.next + 1)
  }

  lemma HoldEffect(keying: Keying, w: World, m: Name, p: Place, a: ShardId)
    requires Valid(keying, w) && m in w.maps && Owns(w, m, p) && PlacedWell(w, p, a)
    ensures Valid(keying, Hold(w, p, a)) && OnlyMap(w, Hold(w, p, a), m)
  {
  }

  lemma ReleaseEffect(keying: Keying, w: World, m: Name, p: Place)
    requires Valid(keying, w) && m in w.maps && Owns(w, m, p)
    ensures Valid(keying, Release(w, p)) && OnlyMap(w, Release(w, p), m)
  {
  }

  lemma AllocEffect(keying: Keying, w: World, m: Name, at: nat, shard: Shard)
    requires Valid(keying, w) && m in w.maps && InSlot(keying, shard, at)
    ensures Valid(keying, Alloc(w, at, shard)) && OnlyMap(w, Alloc(w, at, shard), m) && Grows(w, Alloc(w, at, shard))
  {
  }

  lemma RetableHolds(w: World, m: Name, len: nat, i: nat)
    requires m in w.maps
    ensures At(Retable(w, m, len), TableSlot(TableId(w.next, len), i)) == At(w, TableSlot(w.maps[m].slots, i))
         || (TableSlot(w.maps[m].slots, i) !in w.held && TableSlot(TableId(w.next, len), i) in w.held)
    ensures forall p: Place | !(p.TableSlot? && p.table == TableId(w.next, len)) ::
            At(Retable(w, m, len), p) == At(w, p)
  {
    var w' := Retable(w, m, len);
    if TableSlot(w.maps[m].slots, i) in w.held {
      assert TableSlot(TableId(w.next, len), TableSlot(w.maps[m].slots, i).at) in w'.held;
    }
  }

  lemma RetableValid(keying: Keying, w: World, m: Name, len: nat)
    requires Valid(keying, w) && m in w.maps && w.maps[m].slots.len <= len <= WORD
    ensures Valid(keying, Retable(w, m, len))
  {
    var w' := Retable(w, m, len);
    forall p | p in w'.held ensures PlacedWell(w', p, w'.held[p]) {
      if p in w.held {
        assert PlacedWell(w, p, w.held[p]);
      }
      if p.TableSlot? && p.table == TableId(w.next, len) {
        var q := TableSlot(w.maps[m].slots, p.at);
        RetableHolds(w, m, len, p.at);
        assert q in w.held ==> PlacedWell(w, q, w.held[q]);
      }
    }
    hide PlacedWell;
  }

  lemma RetableEffect(keying: Keying, w: World, m: Name, len: nat)
    requires Valid(keying, w) && m in w.maps && w.maps[m].slots.len <= len <= WORD
    ensures var w' := Retable(w, m, len);
      && Valid(keying, w') && OnlyMap(w, w', m) && OnlyTableHolder(w', m)
      && forall i: nat :: HeldShard(w', m, i) == HeldShard(w, m, i)
  {
    RetableValid(keying, w, m, len);
    var w' := Retable(w, m, len);
    forall i: nat ensures HeldShard(w', m, i) == HeldShard(w, m, i) {
      RetableHolds(w, m, len, i);
      var p := TableSlot(TableId(w.next, len), i);
      assert p in w.held ==> PlacedWell(w, p, w.held[p]);
    }
    RetableHolds(w, m, len, 0);
    hide Retable, HeldShard;
    assert w'.maps == w.maps[m := w.maps[m].(slots := TableId(w.next, len))] && w'.next == w.next + 1 by {
      RetableMaps(w, m, len);
    }
  }

  lemma RetableMaps(w: World, m: Name, len: nat)
    requires m in w.maps
    ensures Retable(w, m, len).maps == w.maps[m := w.maps[m].(slots := TableId(w.next, len))]
      && Retable(w, m, len).next == w.next + 1
  {
  }

  lemma WriteEffect(keying: Keying, w: World, p: Place, a: ShardId, shard: Shard)
    requires Valid(keying, w) && Sole(w, p, a) && InSlot(keying, shard, p.at)
    ensures Valid(keying, Write(w, a, shard))
  {
    assert p in w.held;
  }

  /** A map other than the one written holds the same shards. */
  lemma FramedHeld(w: World, w': World, m: Name, n: Name, at: nat)
    requires m in w.maps && OnlyMap(w, w', m) && n in w.maps && n != m && w.maps[n].slots.id < w.next
    ensures At(w', DirtySlot(n, at)) == At(w, DirtySlot(n, at))
    ensures At(w', TableSlot(w.maps[n].slots, at)) == At(w, TableSlot(w.maps[n].slots, at))
  {
    assert !Owns(w, m, TableSlot(w.maps[n].slots, at));
  }

  lemma HeldInUse(keying: Keying, w: World, m: Name, at: nat)
    requires Valid(keying, w) && m in w.maps
    ensures var held := HeldShard(w, m, at); held.Some? ==> held.value.slot == at < WORD && held.value.id < w.next
    ensures InSlot(keying, Entries(w, m, at), at)
  {
    assert DirtySlot(m, at) in w.held ==> PlacedWell(w, DirtySlot(m, at), w.held[DirtySlot(m, at)]);
    var p := TableSlot(w.maps[m].slots, at);
    assert p in w.held ==> PlacedWell(w, p, w.held[p]);
  }

  // ----- what a write leaves alone

  /** `m` alone was written: every other map and every hand holds and reads what it did. */
  ghost predicate Leaves(w: World, w': World, m: Name)
    requires m in w.maps
  {
    && OnlyMap(w, w', m)
    && (forall n, i: nat | n in w.maps && n != m :: Entries(w', n, i) == Entries(w, n, i))
    && (forall p: Place | p.IsHand() :: ShardOf(w', At(w', p)) == ShardOf(w, At(w, p)))
  }

  lemma LeavesTwice(w0: World, w1: World, w2: World, m: Name)
    requires m in w0.maps && Leaves(w0, w1, m) && Leaves(w1, w2, m)
    ensures Leaves(w0, w2, m)
  {
    OnlyMapTwice(w0, w1, w2, m);
  }

  lemma GrowingLeaves(keying: Keying, w: World, w': World, m: Name)
    requires Valid(keying, w) && m in w.maps && OnlyMap(w, w', m) && Grows(w, w')
    ensures Leaves(w, w', m)
  {
    forall n, i: nat | n in w.maps && n != m ensures Entries(w', n, i) == Entries(w, n, i) {
      FramedHeld(w, w', m, n, i);
      HeldInUse(keying, w, n, i);
    }
    forall p: Place | p.IsHand() ensures ShardOf(w', At(w', p)) == ShardOf(w, At(w, p)) {
      assert !Owns(w, m, p);
    }
  }

  /** The place `m` holds its shard at `at` in, when it holds one. */
  function PlaceOf(w: World, m: Name, at: nat): Place
    requires m in w.maps
  {
    if DirtySlot(m, at) in w.held then DirtySlot(m, at) else TableSlot(w.maps[m].slots, at)
  }

  /** Whether `Arc::get_mut` reaches the shard at `p` of `m`: its count, and its table's, is one. */
  predicate Unique(w: World, m: Name, p: Place)
    requires m in w.maps
  {
    p in w.held && |ShardHolders(w, w.held[p])| == 1 && (p.TableSlot? ==> |TableHolders(w, p.table)| == 1)
  }

  /** A shard is reached by `Arc::get_mut` exactly when nothing else reaches it. */
  lemma UniqueIsWritable(w: World, m: Name, at: nat)
    requires m in w.maps && HeldShard(w, m, at).Some?
    ensures Unique(w, m, PlaceOf(w, m, at)) <==> Writable(w, m, at, PlaceOf(w, m, at))
  {
    var p := PlaceOf(w, m, at);
    var a := w.held[p];
    assert m in TableHolders(w, w.maps[m].slots);
    if Unique(w, m, p) {
      CountedOnce(w, p, a);
      if p.TableSlot? {
        CountedOnceTable(w, m);
      }
    }
    if Writable(w, m, at, p) {
      assert ShardHolders(w, a) == {p};
      if p.TableSlot? {
        assert TableHolders(w, p.table) == {m};
      }
    }
  }

  /**
   * A shard counted once in a table two maps hold is still shared: both read it, neither reaches
   * it alone, and a write would show in both.
   */
  lemma CountedOnceStillShared(w: World, m: Name, n: Name, at: nat, shard: Shard)
    requires m in w.maps && n in w.maps && m != n && w.maps[m].slots == w.maps[n].slots
    requires TableSlot(w.maps[m].slots, at) in w.held && DirtySlot(m, at) !in w.held && DirtySlot(n, at) !in w.held
    ensures var a := w.held[TableSlot(w.maps[m].slots, at)];
      && HeldShard(w, m, at) == HeldShard(w, n, at) == Some(a)
      && !Unique(w, m, PlaceOf(w, m, at)) && !Writable(w, m, at, PlaceOf(w, m, at))
      && Entries(Write(w, a, shard), m, at) == Entries(Write(w, a, shard), n, at) == shard
  {
    var t := w.maps[m].slots;
    assert {m, n} <= TableHolders(w, t);
    if |TableHolders(w, t)| == 1 {
      SoleElement(TableHolders(w, t), m);
    }
    UniqueIsWritable(w, m, at);
  }

  /** Slots whose places were left alone read the same. */
  lemma OtherSlots(keying: Keying, w: World, w': World, m: Name, at: nat)
    requires Valid(keying, w) && Grows(w, w') && m in w.maps && m in w'.maps && w'.maps[m] == w.maps[m]
    requires forall q: Place | q.at != at :: At(w', q) == At(w, q)
    ensures forall i: nat | i != at :: Entries(w', m, i) == Entries(w, m, i)
  {
    forall i: nat | i != at ensures Entries(w', m, i) == Entries(w, m, i) {
      assert At(w', DirtySlot(m, i)) == At(w, DirtySlot(m, i));
      assert At(w', TableSlot(w.maps[m].slots, i)) == At(w, TableSlot(w.maps[m].slots, i));
      HeldInUse(keying, w, m, i);
    }
  }

  /** `m` may write the shard it holds at `at` in place: it holds it at `p`, alone. */
  ghost predicate Writable(w: World, m: Name, at: nat, p: Place)
    requires m in w.maps
  {
    p.at == at && Owns(w, m, p) && HeldShard(w, m, at).Some? && Sole(w, p, HeldShard(w, m, at).value)
  }

  /** Opening another slot leaves a writable shard writable. */
  lemma WritableKept(keying: Keying, w: World, w': World, m: Name, at: nat, p: Place)
    requires Valid(keying, w) && Valid(keying, w') && m in w.maps && w'.maps == w.maps && p.at != at
    requires forall q: Place | q != p :: At(w', q) == At(w, q)
    requires HeldShard(w, m, at).Some? && Writable(w, m, at, PlaceOf(w, m, at))
    ensures PlaceOf(w', m, at) == PlaceOf(w, m, at) && HeldShard(w', m, at) == HeldShard(w, m, at)
    ensures Writable(w', m, at, PlaceOf(w', m, at))
  {
    var held := PlaceOf(w, m, at);
    assert At(w', DirtySlot(m, at)) == At(w, DirtySlot(m, at));
    assert At(w', TableSlot(w.maps[m].slots, at)) == At(w, TableSlot(w.maps[m].slots, at));
    var a := w.held[held];
    assert PlacedWell(w, held, a);
    forall q | q in w'.held && w'.held[q] == a && Reachable(w', q) ensures q == held {
      assert PlacedWell(w', q, a);
      assert At(w', q) == At(w, q);
    }
  }

  lemma WritableElsewhere(w: World, m: Name, at: nat, p: Place, n: Name, i: nat)
    requires m in w.maps && Writable(w, m, at, p) && n in w.maps && HeldShard(w, n, i) == HeldShard(w, m, at)
    ensures n == m && i == at
  {
    var q := if DirtySlot(n, i) in w.held then DirtySlot(n, i) else TableSlot(w.maps[n].slots, i);
    assert q == p;
  }

  /** A write in place through a writable shard reaches that slot of that map, and nothing else. */
  lemma WriteLeaves(keying: Keying, w: World, m: Name, at: nat, p: Place, shard: Shard)
    requires Valid(keying, w) && m in w.maps && Writable(w, m, at, p) && InSlot(keying, shard, at)
    ensures var w' := Write(w, HeldShard(w, m, at).value, shard);
      && Valid(keying, w') && Leaves(w, w', m) && Entries(w', m, at) == shard
      && forall i: nat | i != at :: Entries(w', m, i) == Entries(w, m, i)
  {
    var a := HeldShard(w, m, at).value;
    var w' := Write(w, a, shard);
    WriteEffect(keying, w, p, a, shard);
    forall n, i: nat | n in w.maps && (n != m || i != at) ensures Entries(w', n, i) == Entries(w, n, i) {
      if HeldShard(w, n, i) == Some(a) {
        WritableElsewhere(w, m, at, p, n, i);
      }
    }
    forall q: Place | q.IsHand() ensures ShardOf(w', At(w', q)) == ShardOf(w, At(w, q)) {
      assert q in w.held ==> q != p;
    }
  }

  // ----- the finite map a copy-on-write map stands for

  ghost function Slots(w: World, m: Name): set<nat>
    requires m in w.maps
  {
    set p | p in w.held && (p == DirtySlot(m, p.at) || p == TableSlot(w.maps[m].slots, p.at)) :: p.at
  }

  ghost function HeldKeys(w: World, m: Name): set<Key>
    requires m in w.maps
  {
    set at, k | at in Slots(w, m) && k in Entries(w, m, at) :: k
  }

  ghost function Contents(keying: Keying, w: World, m: Name): map<Key, Value>
    requires Valid(keying, w) && m in w.maps
  {
    HeldKeysAtTheirSlot(keying, w, m);
    map k | k in HeldKeys(w, m) :: Entries(w, m, SlotOf(keying, k))[k]
  }

  lemma HeldKeysAtTheirSlot(keying: Keying, w: World, m: Name)
    requires Valid(keying, w) && m in w.maps
    ensures forall k :: k in HeldKeys(w, m) <==> k in Entries(w, m, SlotOf(keying, k))
  {
    forall k ensures k in HeldKeys(w, m) <==> k in Entries(w, m, SlotOf(keying, k)) {
      if k in HeldKeys(w, m) {
        var at :| at in Slots(w, m) && k in Entries(w, m, at);
        HeldInUse(keying, w, m, at);
      }
      var at := SlotOf(keying, k);
      if k in Entries(w, m, at) {
        var p := if DirtySlot(m, at) in w.held then DirtySlot(m, at) else TableSlot(w.maps[m].slots, at);
        assert p in w.held && p.at in Slots(w, m);
      }
    }
  }

  lemma ContentsLookup(keying: Keying, w: World, m: Name, k: Key)
    requires Valid(keying, w) && m in w.maps
    ensures Lookup(Contents(keying, w, m), k) == Lookup(Entries(w, m, SlotOf(keying, k)), k)
  {
    HeldKeysAtTheirSlot(keying, w, m);
  }

  /** Maps whose every slot reads the same stand for the same finite map. */
  lemma SameEntriesSameContents(keying: Keying, w: World, w': World, m: Name, n: Name)
    requires Valid(keying, w) && m in w.maps && Valid(keying, w') && n in w'.maps
    requires forall at: nat :: Entries(w', n, at) == Entries(w, m, at)
    ensures Contents(keying, w', n) == Contents(keying, w, m)
  {
    forall k ensures Lookup(Contents(keying, w', n), k) == Lookup(Contents(keying, w, m), k) {
      ContentsLookup(keying, w, m, k);
      ContentsLookup(keying, w', n, k);
    }
    SameLookups(Contents(keying, w', n), Contents(keying, w, m));
  }

  lemma NoEntriesNoContents(keying: Keying, w: World, m: Name)
    requires Valid(keying, w) && m in w.maps
      && forall p | p in w.held :: p != DirtySlot(m, p.at) && p != TableSlot(w.maps[m].slots, p.at)
    ensures Contents(keying, w, m) == map[]
  {
    assert Slots(w, m) == {};
  }

  // ----- making, copying and dropping maps

  function NewMap(w: World, n: Name): World {
    w.(maps := w.maps[n := Cow(TableId(w.next, 0), false)], next := w.next + 1)
  }

  function CopyMap(w: World, m: Name, n: Name, forked: bool): World
    requires m in w.maps
  {
    w.(maps := w.maps[n := Cow(w.maps[m].slots, forked)],
       held := w.held + (map p | p in w.held && p.DirtySlot? && p.name == m :: DirtySlot(n, p.at) := w.held[p]))
  }

  function DropMap(w: World, n: Name): World {
    w.(maps := w.maps - {n}, held := map p | p in w.held && !(p.DirtySlot? && p.name == n) :: w.held[p])
  }

  function ClearMap(w: World, m: Name): World
    requires m in w.maps
  {
    w.(maps := w.maps[m := w.maps[m].(slots := TableId(w.next, 0))],
       held := map p | p in w.held && !(p.DirtySlot? && p.name == m) :: w.held[p],
       next := w.next + 1)
  }

  /** Every map of `w` but `n` is in `w'` as it was. */
  ghost predicate KeepsMapsBut(w: World, w': World, n: Name) {
    && w.next <= w'.next && w'.shards == w.shards
    && (forall o | o in w.maps && o != n :: o in w'.maps && w'.maps[o] == w.maps[o])
    && (forall p: Place | !(p.DirtySlot? && p.name == n) :: At(w', p) == At(w, p))
  }

  lemma NewMapEffect(keying: Keying, w: World, n: Name)
    requires Valid(keying, w) && n !in w.maps
    ensures Valid(keying, NewMap(w, n)) && KeepsMapsBut(w, NewMap(w, n), n)
    ensures Contents(keying, NewMap(w, n), n) == map[]
  {
    forall p | p in w.held ensures PlacedWell(NewMap(w, n), p, w.held[p])
        && p != DirtySlot(n, p.at) && p != TableSlot(TableId(w.next, 0), p.at) {
      assert PlacedWell(w, p, w.held[p]);
    }
    NoEntriesNoContents(keying, NewMap(w, n), n);
  }

  lemma CopyMapHolds(w: World, m: Name, n: Name, forked: bool)
    requires m in w.maps && n !in w.maps
    ensures var w' := CopyMap(w, m, n, forked);
      && (forall p: Place | !(p.DirtySlot? && p.name == n) :: At(w', p) == At(w, p))
      && (forall i: nat | DirtySlot(n, i) !in w.held :: At(w', DirtySlot(n, i)) == At(w, DirtySlot(m, i)))
  {
    var w' := CopyMap(w, m, n, forked);
    forall i: nat | DirtySlot(n, i) !in w.held ensures At(w', DirtySlot(n, i)) == At(w, DirtySlot(m, i)) {
      if DirtySlot(m, i) in w.held {
        assert DirtySlot(n, DirtySlot(m, i).at) in w'.held;
      }
    }
  }

  lemma CopyMapEffect(keying: Keying, w: World, m: Name, n: Name, forked: bool)
    requires Valid(keying, w) && m in w.maps && n !in w.maps
    ensures var w' := CopyMap(w, m, n, forked);
      && Valid(keying, w') && KeepsMapsBut(w, w', n) && w'.maps[n] == Cow(w.maps[m].slots, forked)
      && (forall i: nat :: At(w', DirtySlot(n, i)) == At(w, DirtySlot(m, i)))
  {
    var w' := CopyMap(w, m, n, forked);
    CopyMapHolds(w, m, n, forked);
    assert forall p | p in w.held && p.DirtySlot? :: PlacedWell(w, p, w.held[p]);
    forall p | p in w'.held ensures PlacedWell(w', p, w'.held[p]) {
      var q := if p.DirtySlot? && p.name == n then DirtySlot(m, p.at) else p;
      assert At(w', p) == At(w, q);
      assert PlacedWell(w, q, w.held[q]);
    }
  }

  lemma DropMapEffect(keying: Keying, w: World, n: Name)
    requires Valid(keying, w)
    ensures Valid(keying, DropMap(w, n)) && KeepsMapsBut(w, DropMap(w, n), n)
  {
    var w' := DropMap(w, n);
    forall p | p in w'.held ensures PlacedWell(w', p, w'.held[p]) {
      assert PlacedWell(w, p, w.held[p]);
    }
  }

  lemma ClearMapEffect(keying: Keying, w: World, m: Name)
    requires Valid(keying, w) && m in w.maps
    ensures Valid(keying, ClearMap(w, m)) && KeepsMapsBut(w, ClearMap(w, m), m) && OnlyMap(w, ClearMap(w, m), m)
    ensures Contents(keying, ClearMap(w, m), m) == map[]
  {
    var w' := ClearMap(w, m);
    forall p | p in w'.held
        ensures PlacedWell(w', p, w'.held[p]) && p != DirtySlot(m, p.at) && p != TableSlot(TableId(w.next, 0), p.at) {
      assert PlacedWell(w, p, w.held[p]);
    }
    NoEntriesNoContents(keying, w', m);
  }

  lemma KeptMap(keying: Keying, w: World, w': World, n: Name, o: Name)
    requires Valid(keying, w) && Valid(keying, w') && KeepsMapsBut(w, w', n) && o in w.maps && o != n
    ensures Contents(keying, w', o) == Contents(keying, w, o)
  {
    forall i: nat ensures Entries(w', o, i) == Entries(w, o, i) {
      assert At(w', DirtySlot(o, i)) == At(w, DirtySlot(o, i));
      assert At(w', TableSlot(w.maps[o].slots, i)) == At(w, TableSlot(w.maps[o].slots, i));
    }
    SameEntriesSameContents(keying, w, w', o, o);
  }

  lemma CopyReadsTheSame(keying: Keying, w: World, m: Name, n: Name, forked: bool)
    requires Valid(keying, w) && m in w.maps && n !in w.maps && Valid(keying, CopyMap(w, m, n, forked))
    ensures Contents(keying, CopyMap(w, m, n, forked), n) == Contents(keying, w, m)
  {
    var w' := CopyMap(w, m, n, forked);
    CopyMapEffect(keying, w, m, n, forked);
    forall i: nat ensures Entries(w', n, i) == Entries(w, m, i) {
      assert At(w', DirtySlot(n, i)) == At(w, DirtySlot(m, i));
      assert At(w', TableSlot(w.maps[m].slots, i)) == At(w, TableSlot(w.maps[m].slots, i));
    }
    SameEntriesSameContents(keying, w, w', m, n);
  }
}
