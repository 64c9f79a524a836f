/**
 * Whole runs: any interleaving of operations on any family of maps related by
 * clones and forks reads like the same operations on independent finite maps.
 */
module CowRuns {
  import opened Options
  import opened Sharding
  import opened ThreeWay
  import opened ArcWorld
  import opened InstallSpec
  import opened PlainInstalls
  import opened CowFrames
  import opened CowMemory

  datatype Op =
    | OpNew(n: Name)
    | OpCopy(m: Name, n: Name, forked: bool)
    | OpDrop(n: Name)
    | OpInsert(m: Name, k: Key, v: Value)
    | OpRemove(m: Name, k: Key)
    | OpGetMut(m: Name, k: Key, change: Value -> Value)
    | OpEntry(m: Name, k: Key, entry: Option<Value> -> Option<Value>)
    | OpRetain(m: Name, keep: (Key, Value) -> Option<Value>)
    | OpClear(m: Name)
    | OpFlatten(m: Name)
    | OpInstall(self: Name, frozen: Name, forks: seq<Name>, places: seq<nat>, merge: Option<Merge<Value>>)

  /** Independent maps, and for each fork the map it was forked from while that map is unwritten. */
  datatype Spec = Spec(family: Family, base: map<Name, Name>)

  /** The forks of `m` no longer have their base: `m` was written. */
  ghost function Written(base: map<Name, Name>, m: Name): map<Name, Name> {
    map f | f in base && base[f] != m :: base[f]
  }

  /** The bases once `m` is gone, or its own base may no longer be told from its writes. */
  ghost function Without(base: map<Name, Name>, gone: set<Name>): map<Name, Name> {
    map f | f in base && f !in gone && base[f] !in gone :: base[f]
  }

  /**
   * What the operations ask of their callers: the maps they name exist, and installs take forks of
   * a map unwritten since.
   */
  ghost predicate Enabled(spec: Spec, op: Op) {
    match op
    case OpNew(n) => n !in spec.family
    case OpCopy(m, n, _) => m in spec.family && n !in spec.family
    case OpDrop(n) => n in spec.family
    case OpInstall(self, frozen, forks, places, _) =>
      && self in spec.family && frozen in spec.family && self != frozen && self !in forks && |places| == |forks|
      && (forall i | 0 <= i < |forks| ::
            && forks[i] in spec.base && spec.base[forks[i]] == frozen
            && forks[i] in spec.family && forks[i] != frozen)
      && (forall i, j | 0 <= i < j < |forks| :: forks[i] != forks[j])
    case _ => op.m in spec.family
  }

  /** What an operation does to independent finite maps. */
  ghost function Apply(spec: Spec, op: Op): Spec
    requires Enabled(spec, op)
  {
    var f := spec.family;
    match op
    case OpNew(n) => Spec(f[n := map[]], Without(spec.base, {n}))
    case OpCopy(m, n, forked) =>
      Spec(f[n := f[m]], if forked then Without(spec.base, {n})[n := m] else Without(spec.base, {n}))
    case OpDrop(n) => Spec(f - {n}, Without(spec.base, {n}))
    case OpInsert(m, k, v) => Spec(f[m := f[m][k := v]], Written(spec.base, m))
    case OpRemove(m, k) => Spec(f[m := f[m] - {k}], Written(spec.base, m))
    case OpGetMut(m, k, change) =>
      Spec(if k in f[m] then f[m := f[m][k := change(f[m][k])]] else f, Written(spec.base, m))
    case OpEntry(m, k, entry) => Spec(f[m := Put(f[m], k, entry(Lookup(f[m], k)))], Written(spec.base, m))
    case OpRetain(m, keep) => Spec(f[m := Kept(keep, f[m])], Written(spec.base, m))
    case OpClear(m) => Spec(f[m := map[]], Written(spec.base, m))
    case OpFlatten(m) => Spec(f, Written(spec.base, m))
    case OpInstall(self, frozen, forks, places, merge) =>
      Spec(Installed(f, self, frozen, forks, merge), Without(spec.base, {self} + set x | x in forks))
  }

  ghost predicate Runs(spec: Spec, ops: seq<Op>)
    decreases |ops|
  {
    ops == [] || (Enabled(spec, ops[0]) && Runs(Apply(spec, ops[0]), ops[1..]))
  }

  ghost function Run(spec: Spec, ops: seq<Op>): Spec
    requires Runs(spec, ops)
    decreases |ops|
  {
    if ops == [] then spec else Run(Apply(spec, ops[0]), ops[1..])
  }

  /** Every fork whose base the specification still knows is, in memory, a fork of it. */
  ghost predicate Based(w: World, base: map<Name, Name>) {
    forall f | f in base :: f in w.maps && base[f] in w.maps && f != base[f] && w.maps[f].forked && ForkOf(w, base[f],
        f)
  }

  /** The memory stands for the specification's maps. */
  ghost predicate Stands(memory: Memory, spec: Spec)
    reads memory
  {
    memory.Valid() && NoHands(memory.world) && memory.Reads() == spec.family && Based(memory.world, spec.base)
  }

  // ----- what every step of a run does, key by key

  /** What an operation does to what the maps read of every key. */
  ghost predicate StepReads(f: Family, op: Op, g: Family) {
    match op
    case OpNew(n) => OtherMaps(f, g, n) && n in g && forall k :: Lookup(g[n], k) == None
    case OpCopy(m, n, _) => OtherMaps(f, g, n) && m in f && n in g && forall k :: Lookup(g[n], k) == Lookup(f[m], k)
    case OpDrop(n) => OtherMaps(f, g, n) && n !in g
    case OpInsert(m, k, v) =>
      OtherMaps(f, g, m) && m in f && m in g && OtherKeys(f[m], g[m], k) && Lookup(g[m], k) == Some(v)
    case OpRemove(m, k) =>
      OtherMaps(f, g, m) && m in f && m in g && OtherKeys(f[m], g[m], k) && Lookup(g[m], k) == None
    case OpGetMut(m, k, change) =>
      && OtherMaps(f, g, m) && m in f && m in g && OtherKeys(f[m], g[m], k)
      && Lookup(g[m], k) == if k in f[m] then Some(change(f[m][k])) else None
    case OpEntry(m, k, entry) =>
      OtherMaps(f, g, m) && m in f && m in g && OtherKeys(f[m], g[m], k) && Lookup(g[m], k) == entry(Lookup(f[m], k))
    case OpRetain(m, keep) => OtherMaps(f, g, m) && m in f && m in g && Retains(keep, f[m], g[m])
    case OpClear(m) => OtherMaps(f, g, m) && m in g && forall k :: Lookup(g[m], k) == None
    case OpFlatten(_) => g == f
    case OpInstall(self, frozen, forks, _, merge) =>
      && (forall n | n != self :: Lookup(g, n) == if n in forks then None else Lookup(f, n))
      && InFamily(f, self, frozen, forks) && self in g
      && (forall k :: Lookup(g[self], k)
                   == FoldKey(merge, Lookup(f[frozen], k), Lookup(f[self], k), Column(ForkMaps(f, forks), k)))
      && (Refuses(merge) ==> forall k ::
            LastChange(Lookup(f[frozen], k), Lookup(f[self], k), Column(ForkMaps(f, forks), k), Lookup(g[self], k)))
  }

  /** No other map is touched. */
  ghost predicate OtherMaps(f: Family, g: Family, n: Name) {
    forall m | m != n :: Lookup(g, m) == Lookup(f, m)
  }

  ghost predicate OtherKeys(a: map<Key, Value>, b: map<Key, Value>, k: Key) {
    forall j | j != k :: Lookup(b, j) == Lookup(a, j)
  }

  lemma ApplyReads(spec: Spec, op: Op)
    requires Enabled(spec, op)
    ensures StepReads(spec.family, op, Apply(spec, op).family)
  {
    hide LastChange, FoldMaps, FoldKey, Kept, Retains, Refuses, Column;
    match op
    case OpRetain(m, keep) => KeptRetains(keep, spec.family[m]);
    case OpInstall(self, frozen, forks, _, merge) => InstallReads(spec.family, self, frozen, forks, merge);
    case _ =>
  }

  lemma InstallReads(f: Family, self: Name, frozen: Name, forks: seq<Name>, merge: Option<Merge<Value>>)
    requires InFamily(f, self, frozen, forks)
    ensures var g := Installed(f, self, frozen, forks, merge);
      && (forall k :: Lookup(g[self], k)
                   == FoldKey(merge, Lookup(f[frozen], k), Lookup(f[self], k), Column(ForkMaps(f, forks), k)))
      && (Refuses(merge) ==> forall k ::
            LastChange(Lookup(f[frozen], k), Lookup(f[self], k), Column(ForkMaps(f, forks), k), Lookup(g[self], k)))
  {
    forall k ensures Lookup(FoldMaps(merge, f[frozen], f[self], ForkMaps(f, forks)), k)
        == FoldKey(merge, Lookup(f[frozen], k), Lookup(f[self], k), Column(ForkMaps(f, forks), k)) {
      FoldMapsByKey(merge, f[frozen], f[self], ForkMaps(f, forks), k);
    }
    if Refuses(merge) {
      PlainInstall(f, self, frozen, forks, merge);
    }
  }

  /** Every step of every run does so to the maps the run has come to. */
  lemma {:induction false} EveryStepReads(spec: Spec, ops: seq<Op>, i: nat)
    requires Runs(spec, ops) && i < |ops|
    ensures Runs(spec, ops[..i]) && Runs(spec, ops[..i + 1])
    ensures StepReads(Run(spec, ops[..i]).family, ops[i], Run(spec, ops[..i + 1]).family)
    decreases i
  {
    hide StepReads, Apply, Enabled;
    if i == 0 {
      ApplyReads(spec, ops[0]);
      assert ops[..1][1..] == [];
    } else {
      var next := Apply(spec, ops[0]);
      EveryStepReads(next, ops[1..], i - 1);
      assert ops[..i][1..] == ops[1..][..i - 1] && ops[..i + 1][1..] == ops[1..][..i];
    }
  }

  // ----- writes keep forks forks

  lemma BasedWritten(w: World, w': World, m: Name, base: map<Name, Name>)
    requires Based(w, base) && m in w.maps && OnlyMap(w, w', m) && (w.maps[m].forked ==> KeepsDirty(w, w', m))
    requires forall n | n in w.maps :: w.maps[n].slots.id < w.next
    ensures Based(w', Written(base, m))
  {
    forall f | f in Written(base, m) ensures ForkOf(w', base[f], f) {
      forall i: nat ensures At(w', DirtySlot(base[f], i)) == At(w, DirtySlot(base[f], i)) {
      }
      if f != m {
        forall i: nat ensures At(w', DirtySlot(f, i)) == At(w, DirtySlot(f, i)) {
        }
      }
    }
  }

  lemma BasedKept(w: World, w': World, n: Name, base: map<Name, Name>)
    requires Based(w, base) && KeepsMapsBut(w, w', n)
    ensures Based(w', Without(base, {n}))
  {
    forall f | f in Without(base, {n}) ensures ForkOf(w', base[f], f) {
      forall i: nat ensures At(w', DirtySlot(base[f], i)) == At(w, DirtySlot(base[f], i)) && At(w',
          DirtySlot(f, i)) == At(w, DirtySlot(f, i)) {
      }
    }
  }

  lemma BasedInstalled(w: World, w': World, self: Name, forks: seq<Name>, base: map<Name, Name>)
    requires Based(w, base) && (forall m :: m in w'.maps <==> m in w.maps && m !in forks)
    requires forall n | n in w'.maps && n != self :: Untouched(w, w', n)
    ensures Based(w', Without(base, {self} + set x | x in forks))
  {
    var gone := {self} + set x | x in forks;
    forall f | f in Without(base, gone) ensures ForkOf(w', base[f], f) && w'.maps[f].forked {
      ForkOfKept(w, w', base[f], f);
    }
  }

  lemma NoHandsWritten(w: World, w': World, m: Name)
    requires NoHands(w) && m in w.maps && OnlyMap(w, w', m)
    ensures NoHands(w')
  {
    forall p: Place | p.IsHand() ensures At(w', p).None? {
      assert !Owns(w, m, p);
    }
  }

  /** A write through `m` that reads as specified stands for the specification. */
  lemma WriteStands(keying: Keying, w: World, w': World, m: Name, base: map<Name, Name>)
    requires ArcWorld.Valid(keying, w) && NoHands(w) && Based(w, base) && m in w.maps
    requires OnlyMap(w, w', m) && (w.maps[m].forked ==> KeepsDirty(w, w', m))
    ensures NoHands(w') && Based(w', Written(base, m))
  {
    NoHandsWritten(w, w', m);
    BasedWritten(w, w', m, base);
  }

  method Write(memory: Memory, op: Op, ghost spec: Spec)
    requires Stands(memory, spec) && Enabled(spec, op)
    requires !op.OpNew? && !op.OpCopy? && !op.OpDrop? && !op.OpInstall?
    modifies memory
    ensures Stands(memory, Apply(spec, op))
  {
    ghost var w := memory.world;
    FamilyKeys(memory.keying, w);
    hide ArcWorld.Valid, Fits, NoHands, Based, OnlyMap, KeepsDirty, FamilyOf;
    match op {
      case OpInsert(m, k, v) => var _ := memory.Insert(m, k, v);
      case OpRemove(m, k) => var _ := memory.Remove(m, k);
      case OpGetMut(m, k, change) => var _ := memory.GetMut(m, k, change);
      case OpEntry(m, k, entry) => memory.Entry(m, k, entry);
      case OpRetain(m, keep) => memory.Retain(m, keep);
      case OpClear(m) => memory.Clear(m);
      case OpFlatten(m) => memory.Flatten(m); KeepsDirtySelf(w, m);
    }
    WriteStands(memory.keying, w, memory.world, op.m, spec.base);
  }

  lemma KeepsDirtySelf(w: World, m: Name)
    requires m in w.maps
    ensures KeepsDirty(w, w, m)
  {
  }

  lemma NoHandsKept(w: World, w': World, n: Name)
    requires NoHands(w) && KeepsMapsBut(w, w', n)
    ensures NoHands(w')
  {
    assert forall p: Place | p.IsHand() :: At(w', p) == At(w, p);
  }

  lemma BasedForked(w: World, base: map<Name, Name>, m: Name, n: Name)
    requires Based(w, base) && m in w.maps && n in w.maps && m != n && w.maps[n].forked && ForkOf(w, m, n)
    ensures Based(w, base[n := m])
  {
    hide ForkOf;
  }

  method Make(memory: Memory, op: Op, ghost spec: Spec)
    requires Stands(memory, spec) && Enabled(spec, op)
    requires op.OpNew? || op.OpCopy? || op.OpDrop?
    modifies memory
    ensures Stands(memory, Apply(spec, op))
  {
    ghost var w := memory.world;
    FamilyKeys(memory.keying, w);
    hide ArcWorld.Valid, Fits, FamilyOf, NoHands, Based, KeepsMapsBut, ForkOf, Without;
    match op {
      case OpNew(n) => memory.New(n);
      case OpCopy(m, n, forked) => memory.Copy(m, n, forked);
      case OpDrop(n) => memory.Drop(n);
    }
    NoHandsKept(w, memory.world, op.n);
    BasedKept(w, memory.world, op.n, spec.base);
    if op.OpCopy? && op.forked {
      FamilyKeys(memory.keying, memory.world);
      BasedForked(memory.world, Without(spec.base, {op.n}), op.m, op.n);
    }
  }

  method Install(memory: Memory, op: Op, ghost spec: Spec) returns (conflicted: seq<nat>)
    requires Stands(memory, spec) && op.OpInstall? && Enabled(spec, op)
    modifies memory
    ensures Stands(memory, Apply(spec, op))
    ensures Lists(Flags(spec.family, op.self, op.frozen, op.forks, op.merge), op.places, |op.forks|, conflicted)
  {
    ghost var w := memory.world;
    FamilyKeys(memory.keying, w);
    conflicted := memory.InstallAll(op.self, op.frozen, op.places, op.forks, op.merge);
    FamilyKeys(memory.keying, memory.world);
    hide ArcWorld.Valid, Fits, NoHands, Based, FamilyOf, FoldMaps;
    BasedInstalled(w, memory.world, op.self, op.forks, spec.base);
  }

  /**
   * Runs `ops` on memory: no write in place through an `Arc` counted once is
   * ever seen through another map, so memory goes on standing for maps that
   * share nothing.
   */
  method Execute(memory: Memory, ops: seq<Op>, ghost spec: Spec)
    requires Stands(memory, spec) && Runs(spec, ops)
    modifies memory
    ensures Stands(memory, Run(spec, ops))
  {
    ghost var now := spec;
    hide Stands, Enabled, Apply;
    for i := 0 to |ops|
      invariant Stands(memory, now) && Runs(now, ops[i..]) && Run(now, ops[i..]) == Run(spec, ops)
    {
      var op := ops[i];
      assert ops[i..][0] == op && ops[i..][1..] == ops[i + 1..];
      if op.OpInstall? {
        var _ := Install(memory, op, now);
      } else if op.OpNew? || op.OpCopy? || op.OpDrop? {
        Make(memory, op, now);
      } else {
        Write(memory, op, now);
      }
      now := Apply(now, op);
    }
  }

  /** A new memory stands for no maps at all. */
  method Start(keying: Keying) returns (memory: Memory)
    requires Fits(keying)
    ensures fresh(memory) && memory.keying == keying && Stands(memory, Spec(map[], map[]))
  {
    memory := new Memory(keying);
  }

  /** Every run from a new memory reads like the same operations on independent finite maps. */
  method ExecuteFromNothing(keying: Keying, ops: seq<Op>) returns (memory: Memory)
    requires Fits(keying) && Runs(Spec(map[], map[]), ops)
    ensures Stands(memory, Run(Spec(map[], map[]), ops))
  {
    memory := Start(keying);
    Execute(memory, ops, Spec(map[], map[]));
  }
}
