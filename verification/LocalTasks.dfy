/**
 * Tasks that each change their own keys of a map: forking the map, running
 * the tasks apart and installing the forks without a merge leaves what
 * running the tasks one after another leaves, and no fork conflicts.
 */
module LocalTasks {
  import opened Options
  import opened ThreeWay
  import opened MergeAlgebra

  // ----- one writer per key

  /** At most one of `values` differs from `before`. */
  ghost predicate OneWriter<V>(before: Option<V>, values: seq<Option<V>>) {
    forall i, j | 0 <= i < j < |values| :: values[i] == before || values[j] == before
  }

  /** With one writer a plain install leaves its value. */
  lemma {:induction false} OneWriterFold<V>(before: Option<V>, values: seq<Option<V>>)
    requires OneWriter(before, values)
    ensures forall i | 0 <= i < |values| && values[i] != before :: FoldKey(None, before, before, values) == values[i]
    ensures (forall i | 0 <= i < |values| :: values[i] == before) ==> FoldKey(None, before, before, values) == before
    decreases |values|
  {
    if values != [] {
      var last := |values| - 1;
      OneWriterFold(before, values[..last]);
    }
  }

  /** ... and never conflicts. */
  lemma OneWriterNoConflict<V>(before: Option<V>, values: seq<Option<V>>, i: nat)
    requires OneWriter(before, values) && i < |values|
    ensures !MergeKey(None, FoldKey(None, before, before, values[..i]), before, values[i]).conflict
  {
    OneWriterFold(before, values[..i]);
  }

  /** The fork that wrote, or one past the last when none did. */
  ghost function Writer<V>(before: Option<V>, values: seq<Option<V>>): (w: nat)
    ensures w <= |values| && (w < |values| ==> values[w] != before)
  {
    if exists w: nat :: w < |values| && values[w] != before then
      var w: nat :| w < |values| && values[w] != before; w
    else |values|
  }

  lemma OneWriterOthers<V>(before: Option<V>, values: seq<Option<V>>)
    requires OneWriter(before, values)
    ensures forall i | 0 <= i < |values| && i != Writer(before, values) :: values[i] == before
  {
  }

  /** An element only fork `w` changed is, after the merge, what fork `w` left. */
  lemma OneWriterElement<T(!new)>(before: Option<set<T>>, values: seq<Option<set<T>>>, e: T, w: nat)
    requires forall i | 0 <= i < |values| && i != w :: e in Elements(values[i]) <==> e in Elements(before)
    ensures e in Elements(FoldKey(SetMerge(), before, before, values))
       <==> e in Elements(if w < |values| then values[w] else before)
  {
    SetFold(before, before, values);
    if w < |values| {
      assert values[w] in values;
    }
  }

  ghost predicate DisjointWriters<K(!new), V>(before: map<K, V>, forks: seq<map<K, V>>) {
    forall k :: OneWriter(Lookup(before, k), Column(forks, k))
  }

  lemma DisjointNeverConflict<K(!new), V>(before: map<K, V>, forks: seq<map<K, V>>)
    requires DisjointWriters(before, forks)
    ensures forall i: nat | i < |forks| :: !ForkConflicts(None, before, before, forks, i)
  {
    forall i: nat, k | i < |forks| ensures !MergeAt(None, FoldMaps(None, before, before, forks[..i]), before,
        forks[i], k).conflict {
      FoldMapsByKey(None, before, before, forks[..i], k);
      OneWriterNoConflict(Lookup(before, k), Column(forks, k), i);
      assert Column(forks, k)[..i] == Column(forks[..i], k);
    }
  }

  // ----- the same as one task after another

  /** A change of one key that depends on that key alone. */
  datatype LocalOp<!K, !V> = LocalOp(key: K, change: Option<V> -> Option<V>)

  function ApplyOp<K, V>(m: map<K, V>, op: LocalOp<K, V>): map<K, V> {
    Put(m, op.key, op.change(Lookup(m, op.key)))
  }

  function RunOps<K, V>(m: map<K, V>, ops: seq<LocalOp<K, V>>): map<K, V>
    decreases |ops|
  {
    if ops == [] then m else ApplyOp(RunOps(m, ops[..|ops| - 1]), ops[|ops| - 1])
  }

  ghost predicate Touches<K, V>(ops: seq<LocalOp<K, V>>, k: K) {
    exists i :: 0 <= i < |ops| && ops[i].key == k
  }

  /** What becomes of a key depends on its own value and operations only. */
  lemma {:induction false} RunIsLocal<K, V>(m: map<K, V>, m': map<K, V>, ops: seq<LocalOp<K, V>>, k: K)
    ensures Lookup(m, k) == Lookup(m', k) ==> Lookup(RunOps(m, ops), k) == Lookup(RunOps(m', ops), k)
    ensures !Touches(ops, k) ==> Lookup(RunOps(m, ops), k) == Lookup(m, k)
    decreases |ops|
  {
    if ops != [] {
      var last := |ops| - 1;
      RunIsLocal(m, m', ops[..last], k);
      assert Touches(ops[..last], k) ==> Touches(ops, k);
      assert ops[last].key == k ==> Touches(ops, k);
    }
  }

  lemma {:induction false} RunConcat<K, V>(m: map<K, V>, a: seq<LocalOp<K, V>>, b: seq<LocalOp<K, V>>)
    ensures RunOps(m, a + b) == RunOps(RunOps(m, a), b)
    decreases |b|
  {
    if b == [] {
      assert a + b == a;
    } else {
      assert (a + b)[..|a + b| - 1] == a + b[..|b| - 1];
      RunConcat(m, a, b[..|b| - 1]);
    }
  }

  function Concat<K, V>(tasks: seq<seq<LocalOp<K, V>>>): seq<LocalOp<K, V>>
    decreases |tasks|
  {
    if tasks == [] then [] else Concat(tasks[..|tasks| - 1]) + tasks[|tasks| - 1]
  }

  /** No two tasks touch the same key. */
  ghost predicate DisjointTasks<K(!new), V(!new)>(tasks: seq<seq<LocalOp<K, V>>>) {
    forall i, j, k | 0 <= i < j < |tasks| :: !(Touches(tasks[i], k) && Touches(tasks[j], k))
  }

  ghost function Forked<K, V>(m: map<K, V>, tasks: seq<seq<LocalOp<K, V>>>): (forks: seq<map<K, V>>)
    ensures |forks| == |tasks|
  {
    seq(|tasks|, i requires 0 <= i < |tasks| => RunOps(m, tasks[i]))
  }

  lemma {:induction false} MergedKeyIsSequential<K(!new), V(!new)>(m: map<K, V>, tasks: seq<seq<LocalOp<K, V>>>, k: K)
    requires DisjointTasks(tasks)
    ensures Lookup(RunOps(m, Concat(tasks)), k) == FoldKey(None, Lookup(m, k), Lookup(m, k),
        Column(Forked(m, tasks), k))
    ensures (forall i | 0 <= i < |tasks| :: !Touches(tasks[i], k)) ==>
              Lookup(RunOps(m, Concat(tasks)), k) == Lookup(m, k)
    decreases |tasks|
  {
    if tasks != [] {
      var last := |tasks| - 1;
      var front, task := tasks[..last], tasks[last];
      var before := RunOps(m, Concat(front));
      assert forall i | 0 <= i < last :: front[i] == tasks[i];
      MergedKeyIsSequential(m, front, k);
      RunConcat(m, Concat(front), task);
      RunIsLocal(before, m, task, k);
      RunIsLocal(m, m, task, k);
      ForkedNext(m, tasks, k);
      assert Concat(tasks) == Concat(front) + task;
      hide RunOps, Concat, Forked, Column;
      if Touches(task, k) {
        assert forall i | 0 <= i < last :: !Touches(front[i], k);
        assert Lookup(before, k) == Lookup(m, k);
      }
      hide Touches;
    }
  }

  lemma ForkedNext<K(!new), V(!new)>(m: map<K, V>, tasks: seq<seq<LocalOp<K, V>>>, k: K)
    requires tasks != []
    ensures var last, column := |tasks| - 1, Column(Forked(m, tasks), k);
      column != [] && column[..last] == Column(Forked(m, tasks[..last]), k)
          && column[last] == Lookup(RunOps(m, tasks[last]), k) && |column| == |tasks|
  {
    hide RunOps;
  }

  /** Disjoint tasks, forked and installed, leave what running them in sequence leaves. */
  lemma MergedIsSequential<K(!new), V(!new)>(m: map<K, V>, tasks: seq<seq<LocalOp<K, V>>>)
    requires DisjointTasks(tasks)
    ensures FoldMaps(None, m, m, Forked(m, tasks)) == RunOps(m, Concat(tasks))
    ensures DisjointWriters(m, Forked(m, tasks))
  {
    var forks := Forked(m, tasks);
    forall k ensures Lookup(FoldMaps(None, m, m, forks), k) == Lookup(RunOps(m, Concat(tasks)), k) {
      FoldMapsByKey(None, m, m, forks, k);
      MergedKeyIsSequential(m, tasks, k);
    }
    SameLookups(FoldMaps(None, m, m, forks), RunOps(m, Concat(tasks)));
    forall k, i, j | 0 <= i < j < |tasks|
        ensures Column(forks, k)[i] == Lookup(m, k) || Column(forks, k)[j] == Lookup(m, k) {
      RunIsLocal(m, m, tasks[i], k);
      RunIsLocal(m, m, tasks[j], k);
    }
  }
}
