/**
 * Lists used as sets and kept sorted, and how the merge of several tasks'
 * changes counts what a list holds more than once.
 */
module SortedLists {
  import opened Options
  import opened ThreeWay
  import opened Populations

  // ----- lists used as sets, and sorted

  function ListOf<T>(v: Option<seq<T>>): seq<T> {
    if v.Some? then v.value else []
  }

  function PrunedList<T>(ps: seq<T>): Option<seq<T>> {
    if ps != [] then Some(ps) else None
  }

  ghost predicate NoDup<T>(ps: seq<T>) {
    forall i, j | 0 <= i < j < |ps| :: ps[i] != ps[j]
  }

  /** The elements of `ps` the fork did not drop. */
  function Retained<T(==)>(ps: seq<T>, frozen: seq<T>, fork: seq<T>): (r: seq<T>)
    ensures forall i | 0 <= i < |r| :: r[i] in ps
  {
    if ps == [] then []
    else (if ps[0] !in frozen || ps[0] in fork then [ps[0]] else []) + Retained(ps[1..], frozen, fork)
  }

  /** `merged`, then what the fork has over `frozen` and `merged` has not. */
  function Appended<T(==)>(merged: seq<T>, frozen: seq<T>, fork: seq<T>): seq<T>
    decreases |fork|
  {
    if fork == [] then merged
    else Appended(if fork[0] !in frozen && fork[0] !in merged then merged + [fork[0]] else merged, frozen, fork[1..])
  }

  function MergeList<T(==)>(now: Option<seq<T>>, before: Option<seq<T>>, value: Option<seq<T>>): seq<T> {
    Appended(Retained(ListOf(now), ListOf(before), ListOf(value)), ListOf(before), ListOf(value))
  }

  /** `picked` is `ps` at the places `at`, in order. */
  ghost predicate Picks<T>(ps: seq<T>, at: seq<nat>, picked: seq<T>) {
    && (forall j, k | 0 <= j < k < |at| :: at[j] < at[k]) && (forall j | 0 <= j < |at| :: at[j] < |ps|)
    && |picked| == |at| && forall j | 0 <= j < |at| :: picked[j] == ps[at[j]]
  }

  /** The elements kept are, in their order, those the fork did not drop. */
  lemma {:induction false} RetainedPicks<T>(ps: seq<T>, frozen: seq<T>, fork: seq<T>) returns (at: seq<nat>)
    ensures Picks(ps, at, Retained(ps, frozen, fork))
    ensures forall i: nat | i < |ps| :: i in at <==> ps[i] !in frozen || ps[i] in fork
    decreases |ps|
  {
    at := [];
    if ps != [] {
      var n := |ps| - 1;
      var front, x := ps[..n], ps[n];
      at := RetainedPicks(front, frozen, fork);
      assert ps == front + [x];
      RetainedNext(front, x, frozen, fork);
      hide Retained;
      assert forall j | 0 <= j < |at| :: at[j] in at;
      if x !in frozen || x in fork {
        at := at + [n];
      }
    }
  }

  lemma {:induction false} RetainedNext<T>(ps: seq<T>, x: T, frozen: seq<T>, fork: seq<T>)
    ensures Retained(ps + [x], frozen, fork)
         == Retained(ps, frozen, fork) + if x !in frozen || x in fork then [x] else []
    decreases |ps|
  {
    if ps == [] {
      assert ps + [x] == [x] && [x][1..] == [];
    } else {
      assert (ps + [x])[1..] == ps[1..] + [x];
      RetainedNext(ps[1..], x, frozen, fork);
    }
  }

  /** What a fork adds follows in its order, each element where it first is. */
  lemma {:induction false} AppendedPicks<T>(merged: seq<T>, frozen: seq<T>, fork: seq<T>, n: nat)
    returns (at: seq<nat>, added: seq<T>)
    requires n <= |fork|
    ensures Appended(merged, frozen, fork) == Appended(merged + added, frozen, fork[n..])
    ensures Picks(fork[..n], at, added)
    ensures forall i: nat | i < n :: i in at <==> fork[i] !in frozen && fork[i] !in merged && fork[i] !in fork[..i]
    ensures forall x :: x in added <==> x in fork[..n] && x !in frozen && x !in merged
    decreases n
  {
    if n == 0 {
      at, added := [], [];
      assert merged + added == merged && fork[0..] == fork;
    } else {
      at, added := AppendedPicks(merged, frozen, fork, n - 1);
      var x := fork[n - 1];
      assert fork[..n] == fork[..n - 1] + [x];
      AppendedFrom(merged + added, frozen, fork, n);
      hide Appended;
      assert forall j | 0 <= j < |at| :: at[j] in at;
      if x !in frozen && x !in merged + added {
        assert merged + added + [x] == merged + (added + [x]);
        at, added := at + [n - 1], added + [x];
      }
    }
  }

  lemma AppendedFrom<T>(merged: seq<T>, frozen: seq<T>, fork: seq<T>, n: nat)
    requires 0 < n <= |fork|
    ensures var x := fork[n - 1];
      Appended(merged, frozen, fork[n - 1..])
      == Appended(if x !in frozen && x !in merged then merged + [x] else merged, frozen, fork[n..])
  {
    assert fork[n - 1..][0] == fork[n - 1] && fork[n - 1..][1..] == fork[n..];
  }

  /**
   * The merged list: what the index has and the fork did not drop, in order, then what the fork
   * added, in its order and each element once.
   */
  lemma MergeListPicks<T>(now: Option<seq<T>>, before: Option<seq<T>>, value: Option<seq<T>>)
    returns (kept: seq<nat>, added: seq<nat>, a: seq<T>, b: seq<T>)
    ensures MergeList(now, before, value) == a + b && Picks(ListOf(now), kept, a) && Picks(ListOf(value), added, b)
    ensures forall i: nat | i < |ListOf(now)| ::
              i in kept <==> ListOf(now)[i] !in ListOf(before) || ListOf(now)[i] in ListOf(value)
    ensures forall i: nat | i < |ListOf(value)| :: i in added <==>
              ListOf(value)[i] !in ListOf(before) && ListOf(value)[i] !in a && ListOf(value)[i] !in ListOf(value)[..i]
  {
    var list, frozen, fork := ListOf(now), ListOf(before), ListOf(value);
    a := Retained(list, frozen, fork);
    kept := RetainedPicks(list, frozen, fork);
    added, b := AppendedPicks(a, frozen, fork, |fork|);
    assert fork[..|fork|] == fork && fork[|fork|..] == [];
  }

  function InsertInto(ps: seq<Population>, p: Population): seq<Population> {
    if ps == [] then [p]
    else if Le(ps[0], p) then [ps[0]] + InsertInto(ps[1..], p)
    else [p] + ps
  }

  /** A stable sort by the populations' order. */
  function SortBy(ps: seq<Population>): seq<Population>
    decreases |ps|
  {
    if ps == [] then [] else InsertInto(SortBy(ps[..|ps| - 1]), ps[|ps| - 1])
  }

  lemma SortedCons(p: Population, ps: seq<Population>)
    requires Sorted(ps) && forall q | q in ps :: Le(p, q)
    ensures Sorted([p] + ps)
  {
    forall i | 0 <= i < |ps| ensures InOrder(p, ps[i]) {
      assert ps[i] in ps && Le(p, ps[i]);
    }
  }

  lemma SortedUncons(ps: seq<Population>)
    requires Sorted(ps) && ps != []
    ensures Sorted(ps[1..]) && forall q | q in ps :: Le(ps[0], q)
  {
  }

  lemma LeOrder(p: Population, q: Population)
    ensures Le(p, q) || Le(q, p)
    ensures forall r | Le(p, q) && Le(q, r) :: Le(p, r)
  {
  }

  lemma {:induction false} InsertIntoSorts(ps: seq<Population>, p: Population)
    requires Sorted(ps)
    ensures Sorted(InsertInto(ps, p)) && multiset(InsertInto(ps, p)) == multiset(ps) + multiset{p}
  {
    hide Sorted, Le;
    if ps == [] {
      SortedCons(p, ps);
      assert [p] + ps == [p];
    } else {
      var first, rest := ps[0], ps[1..];
      SortedUncons(ps);
      assert ps == [first] + rest;
      LeOrder(first, p);
      if Le(first, p) {
        InsertIntoSorts(rest, p);
        var into := InsertInto(rest, p);
        forall q | q in into ensures Le(first, q) {
          assert q in multiset(into);
          assert q in rest || q == p;
        }
        SortedCons(first, into);
      } else {
        LeOrder(p, first);
        SortedCons(p, ps);
      }
    }
  }

  lemma {:induction false} SortBySorts(ps: seq<Population>)
    ensures Sorted(SortBy(ps)) && multiset(SortBy(ps)) == multiset(ps)
    decreases |ps|
  {
    if ps != [] {
      var last := |ps| - 1;
      SortBySorts(ps[..last]);
      InsertIntoSorts(SortBy(ps[..last]), ps[last]);
      assert ps == ps[..last] + [ps[last]];
    }
  }

  /** The populations of `ps` that stand level with `p`, in their order. */
  ghost function Level(ps: seq<Population>, p: Population): seq<Population>
    decreases |ps|
  {
    if ps == [] then []
    else
      var q := ps[|ps| - 1];
      Level(ps[..|ps| - 1], p)
      + if q.place == p.place && q.callStart == p.callStart && q.start == p.start then [q] else []
  }

  lemma {:induction false} LevelJoin(a: seq<Population>, b: seq<Population>, p: Population)
    ensures Level(a + b, p) == Level(a, p) + Level(b, p)
    decreases |b|
  {
    if b == [] {
      assert a + b == a;
    } else {
      assert (a + b)[..|a + b| - 1] == a + b[..|b| - 1];
      LevelJoin(a, b[..|b| - 1], p);
    }
  }

  lemma {:induction false} InsertIntoStays(ps: seq<Population>, q: Population, p: Population)
    requires Sorted(ps)
    ensures Level(InsertInto(ps, q), p) == Level(ps, p) + Level([q], p)
    decreases |ps|
  {
    if ps == [] {
      assert [] + [q] == [q];
      LevelJoin([], [q], p);
    } else {
      assert ps == [ps[0]] + ps[1..];
      LevelJoin([ps[0]], ps[1..], p);
      if Le(ps[0], q) {
        InsertIntoStays(ps[1..], q, p);
        LevelJoin([ps[0]], InsertInto(ps[1..], q), p);
      } else {
        LevelJoin([q], ps, p);
        NoneLevel(ps, q, p);
      }
    }
  }

  /** Before a sorted list no one of which may stand before `q`, no one is level with `q`. */
  lemma {:induction false} NoneLevel(ps: seq<Population>, q: Population, p: Population)
    requires Sorted(ps) && ps != [] && !Le(ps[0], q)
    ensures Level([q], p) == [] || Level(ps, p) == []
    decreases |ps|
  {
    var n := |ps| - 1;
    if n > 0 {
      NoneLevel(ps[..n], q, p);
      assert InOrder(ps[0], ps[n]);
    } else {
      assert ps[..0] == [];
    }
  }

  /** Populations the order does not tell apart keep their order. */
  lemma {:induction false} SortByStays(ps: seq<Population>, p: Population)
    ensures Level(SortBy(ps), p) == Level(ps, p)
    decreases |ps|
  {
    if ps != [] {
      var n := |ps| - 1;
      SortByStays(ps[..n], p);
      SortBySorts(ps[..n]);
      InsertIntoStays(SortBy(ps[..n]), ps[n], p);
      assert ps == ps[..n] + [ps[n]];
      LevelJoin(ps[..n], [ps[n]], p);
    }
  }

  function MergeSorted(now: Option<seq<Population>>, before: Option<seq<Population>>,
                       value: Option<seq<Population>>): Merged<seq<Population>> {
    Composed(PrunedList(SortBy(MergeList(now, before, value))))
  }

  function SortedMerge(): Option<Merge<seq<Population>>> {
    Some((now, before, value) => MergeSorted(now, before, value))
  }

  lemma {:induction false} NoDupCounts<T>(xs: seq<T>, p: T)
    requires NoDup(xs)
    ensures multiset(xs)[p] == if p in xs then 1 else 0
  {
    if xs != [] {
      assert xs == [xs[0]] + xs[1..];
      assert NoDup(xs[1..]);
      NoDupCounts(xs[1..], p);
    }
  }

  // ----- counts through the merge

  ghost function Count(v: Option<seq<Population>>, p: Population): nat {
    multiset(ListOf(v))[p]
  }

  /** How often an element is left: `n` times in the index, found `b` times by the fork and left `v` times. */
  function MergedCount(n: nat, b: nat, v: nat): nat {
    var kept := if b == 0 || v > 0 then n else 0;
    if v > 0 && b == 0 && kept == 0 then 1 else kept
  }

  lemma {:induction false} RetainedCounts<T>(ps: seq<T>, frozen: seq<T>, fork: seq<T>, e: T)
    ensures multiset(Retained(ps, frozen, fork))[e] == if e !in frozen || e in fork then multiset(ps)[e] else 0
  {
    if ps != [] {
      RetainedCounts(ps[1..], frozen, fork, e);
      assert ps == [ps[0]] + ps[1..];
    }
  }

  lemma {:induction false} AppendedCounts<T>(merged: seq<T>, frozen: seq<T>, fork: seq<T>, e: T)
    ensures multiset(Appended(merged, frozen,
        fork))[e] == multiset(merged)[e] + if e in fork && e !in frozen && e !in merged then 1 else 0
    decreases |fork|
  {
    if fork != [] {
      var next := if fork[0] !in frozen && fork[0] !in merged then merged + [fork[0]] else merged;
      assert fork == [fork[0]] + fork[1..];
      AppendedCounts(next, frozen, fork[1..], e);
    }
  }

  lemma MergeListCounts(now: Option<seq<Population>>, before: Option<seq<Population>>, value: Option<seq<Population>>,
                        p: Population)
    ensures multiset(MergeList(now, before, value))[p] == MergedCount(Count(now, p), Count(before, p), Count(value, p))
  {
    var frozen, fork := ListOf(before), ListOf(value);
    var kept := Retained(ListOf(now), frozen, fork);
    RetainedCounts(ListOf(now), frozen, fork, p);
    AppendedCounts(kept, frozen, fork, p);
    assert p in kept <==> multiset(kept)[p] > 0;
  }

  /** A list as its owners keep it: sorted, and absent when empty. */
  ghost predicate Neat(v: Option<seq<Population>>) {
    v != Some([]) && Sorted(ListOf(v))
  }

  lemma MergeSortedCounts(now: Option<seq<Population>>, before: Option<seq<Population>>, value: Option<seq<Population>>)
    ensures MergeSorted(now, before, value).Composed? && Neat(MergeSorted(now, before, value).value)
    ensures forall p ::
            Count(MergeSorted(now, before, value).value, p) == MergedCount(Count(now, p), Count(before, p),
                Count(value, p))
  {
    var merged := MergeList(now, before, value);
    SortBySorts(merged);
    forall p ensures multiset(merged)[p] == MergedCount(Count(now, p), Count(before, p), Count(value, p)) {
      MergeListCounts(now, before, value, p);
    }
    assert ListOf(MergeSorted(now, before, value).value) == SortBy(merged);
  }

  /** One fork: how it leaves a list, and how often each population in it. */
  lemma SortedStep(now: Option<seq<Population>>, before: Option<seq<Population>>, value: Option<seq<Population>>)
    requires Neat(now) && Neat(value)
    ensures var step := MergeKey(SortedMerge(), now, before, value);
      && !step.conflict && Neat(step.value)
      && forall p
          :: Count(step.value, p) == if value == before then Count(now, p) else if now == before then Count(value, p)
                                          else MergedCount(Count(now, p), Count(before, p), Count(value, p))
  {
    MergeSortedCounts(now, before, value);
    hide Neat, MergeSorted, Count;
  }

  // ----- forks that change different populations

  /** No two forks change how often a population is listed. */
  ghost predicate Apart(before: Option<seq<Population>>, values: seq<Option<seq<Population>>>) {
    forall i, j, p | 0 <= i < j < |values|
        :: Count(values[i], p) == Count(before, p) || Count(values[j], p) == Count(before, p)
  }

  lemma {:induction false} RetainedAll<T>(ps: seq<T>, frozen: seq<T>, fork: seq<T>)
    requires forall e | e in ps :: e !in frozen || e in fork
    ensures Retained(ps, frozen, fork) == ps
  {
    if ps != [] {
      assert ps[0] in ps && forall e | e in ps[1..] :: e in ps;
      RetainedAll(ps[1..], frozen, fork);
    }
  }

  lemma {:induction false} AppendedNone<T>(merged: seq<T>, frozen: seq<T>, fork: seq<T>)
    requires forall e | e in fork :: e in frozen || e in merged
    ensures Appended(merged, frozen, fork) == merged
    decreases |fork|
  {
    if fork != [] {
      assert fork[0] in fork && forall e | e in fork[1..] :: e in fork;
      AppendedNone(merged, frozen, fork[1..]);
    }
  }

  lemma {:induction false} InsertedLast(ps: seq<Population>, p: Population)
    requires forall q | q in ps :: Le(q, p)
    ensures InsertInto(ps, p) == ps + [p]
  {
    if ps != [] {
      assert ps[0] in ps && forall q | q in ps[1..] :: q in ps;
      InsertedLast(ps[1..], p);
    }
  }

  lemma {:induction false} SortedStays(ps: seq<Population>)
    requires Sorted(ps)
    ensures SortBy(ps) == ps
    decreases |ps|
  {
    if ps != [] {
      var last := |ps| - 1;
      SortedStays(ps[..last]);
      InsertedLast(ps[..last], ps[last]);
    }
  }

  /** A merge that changes no count leaves the list as it is, order included. */
  lemma NothingMerged(now: Option<seq<Population>>, before: Option<seq<Population>>, value: Option<seq<Population>>)
    requires Neat(now) && forall p :: MergedCount(Count(now, p), Count(before, p), Count(value, p)) == Count(now, p)
    ensures MergeSorted(now, before, value) == Composed(now)
  {
    var ps, frozen, fork := ListOf(now), ListOf(before), ListOf(value);
    forall e | e in ps ensures e !in frozen || e in fork {
      assert MergedCount(Count(now, e), Count(before, e), Count(value, e)) == Count(now, e);
    }
    forall e | e in fork ensures e in frozen || e in ps {
      assert MergedCount(Count(now, e), Count(before, e), Count(value, e)) == Count(now, e);
    }
    RetainedAll(ps, frozen, fork);
    AppendedNone(ps, frozen, fork);
    SortedStays(ps);
  }

  /** The list left differs from the one found: in a count some fork changed, or in its order alone. */
  ghost predicate Differs(before: Option<seq<Population>>, values: seq<Option<seq<Population>>>,
                          left: Option<seq<Population>>) {
    || (exists i, p :: 0 <= i < |values| && Count(values[i], p) != Count(before, p) && Count(left, p) != Count(before,
        p))
    || (left != before && forall p :: Count(left, p) == Count(before, p))
  }

  lemma DiffersIsOther(before: Option<seq<Population>>, values: seq<Option<seq<Population>>>,
                       left: Option<seq<Population>>)
    requires Differs(before, values, left)
    ensures left != before
  {
  }

  /** A list that differs goes on differing. */
  lemma DiffersNext(before: Option<seq<Population>>, values: seq<Option<seq<Population>>>,
                    now: Option<seq<Population>>, value: Option<seq<Population>>)
    requires Neat(now) && Neat(value) && Differs(before, values, now) && Apart(before, values + [value])
    ensures Differs(before, values + [value], MergeKey(SortedMerge(), now, before, value).value)
  {
    var all, left, n := values + [value], MergeKey(SortedMerge(), now, before, value).value, |values|;
    DiffersIsOther(before, values, now);
    SortedStep(now, before, value);
    hide Neat, SortedMerge;
    if i, p :| 0 <= i < n && Count(values[i], p) != Count(before, p) && Count(now, p) != Count(before, p) {
      assert all[i] == values[i] && all[n] == value;
      assert Count(all[i], p) == Count(before, p) || Count(all[n], p) == Count(before, p);
      assert Count(left, p) == Count(now, p);
    } else if value == before {
      assert left == now;
    } else if p :| Count(left, p) != Count(before, p) {
      assert all[n] == value;
      assert Count(all[n], p) != Count(before, p);
    } else {
      NothingMerged(now, before, value);
      SortedMergeIs(now, before, value);
    }
  }

  lemma SortedMergeIs(now: Option<seq<Population>>, before: Option<seq<Population>>, value: Option<seq<Population>>)
    ensures SortedMerge().value(now, before, value) == MergeSorted(now, before, value)
  {
  }

  lemma FirstDiffers(before: Option<seq<Population>>, values: seq<Option<seq<Population>>>,
                     value: Option<seq<Population>>)
    requires value != before
    ensures Differs(before, values + [value], value)
  {
    var all, n := values + [value], |values|;
    if p :| Count(value, p) != Count(before, p) {
      assert all[n] == value && Count(all[n], p) != Count(before, p);
    }
  }

  lemma FrontApart(before: Option<seq<Population>>, values: seq<Option<seq<Population>>>, n: nat)
    requires n <= |values| && Apart(before, values)
    ensures Apart(before, values[..n])
  {
    var front := values[..n];
    assert forall i | 0 <= i < n :: front[i] == values[i];
  }

  /** The list is still the one found exactly while no fork changed it. */
  lemma {:induction false} Unmoved(before: Option<seq<Population>>, values: seq<Option<seq<Population>>>)
    requires Neat(before) && (forall i | 0 <= i < |values| :: Neat(values[i])) && Apart(before, values)
    ensures var left := FoldKey(SortedMerge(), before, before, values);
      && Neat(left)
      && ((forall i | 0 <= i < |values| :: values[i] == before) ==> left == before)
      && ((exists i :: 0 <= i < |values| && values[i] != before) ==> Differs(before, values, left))
    decreases |values|
  {
    if values != [] {
      var n := |values| - 1;
      var front, value := values[..n], values[n];
      assert values == front + [value];
      FrontApart(before, values, n);
      Unmoved(before, front);
      var now := FoldKey(SortedMerge(), before, before, front);
      hide Neat, SortedMerge, Differs, Apart;
      SortedStep(now, before, value);
      if i :| 0 <= i < n && values[i] != before {
        assert front[i] != before;
        DiffersNext(before, front, now, value);
      } else if value != before {
        FirstDiffers(before, front, value);
      }
    }
  }

  /** No fork before `w` changed the list. */
  ghost predicate First(before: Option<seq<Population>>, values: seq<Option<seq<Population>>>, w: nat)
    requires w <= |values|
  {
    forall i | 0 <= i < w :: values[i] == before
  }

  /**
   * How often a population that fork `w` alone changed is left: as often as
   * the fork has it when the fork is first to change the list; otherwise not
   * at all, as often as before, or once when it is new.
   */
  ghost function Left(before: Option<seq<Population>>, values: seq<Option<seq<Population>>>, w: nat, p: Population): nat
    requires w <= |values|
  {
    if w == |values| then Count(before, p)
    else if First(before, values, w) then Count(values[w], p)
    else MergedCount(Count(before, p), Count(before, p), Count(values[w], p))
  }

  lemma StillFound(before: Option<seq<Population>>, values: seq<Option<seq<Population>>>)
    requires Neat(before) && (forall i | 0 <= i < |values| :: Neat(values[i])) && Apart(before, values)
    ensures Neat(FoldKey(SortedMerge(), before, before, values))
    ensures FoldKey(SortedMerge(), before, before, values) == before <==> First(before, values, |values|)
  {
    Unmoved(before, values);
    hide Neat, SortedMerge, Differs, Apart;
    if i :| 0 <= i < |values| && values[i] != before {
      DiffersIsOther(before, values, FoldKey(SortedMerge(), before, before, values));
    }
  }

  /** What a population only fork `w` changed comes to with one more fork. */
  lemma LeftNext(before: Option<seq<Population>>, values: seq<Option<seq<Population>>>, p: Population, w: nat,
                 now: Option<seq<Population>>,
                 left: Option<seq<Population>>)
    requires values != [] && w <= |values|
    requires forall i | 0 <= i < |values| && i != w :: Count(values[i], p) == Count(before, p)
    requires var n := |values| - 1;
      && (now == before <==> First(before, values[..n], n)) && Count(now, p) == Left(before, values[..n],
          if w < n then w else n, p)
      && Count(left, p) == if values[n] == before then Count(now, p) else if now == before then Count(values[n], p)
                           else MergedCount(Count(now, p), Count(before, p), Count(values[n], p))
    ensures Count(left, p) == Left(before, values, w, p)
  {
    hide Count;
    var n := |values| - 1;
    var front, v := values[..n], if w < n then w else n;
    assert First(before, values, v) <==> First(before, front, v) by {
      assert forall i | 0 <= i < n :: front[i] == values[i];
    }
  }

  lemma {:induction false} CountFold(before: Option<seq<Population>>, values: seq<Option<seq<Population>>>,
                                     p: Population, w: nat)
    requires Neat(before) && (forall i | 0 <= i < |values| :: Neat(values[i])) && Apart(before, values) && w <= |values|
    requires forall i | 0 <= i < |values| && i != w :: Count(values[i], p) == Count(before, p)
    ensures Count(FoldKey(SortedMerge(), before, before, values), p) == Left(before, values, w, p)
    decreases |values|
  {
    hide Neat, SortedMerge, Apart, Count;
    if values != [] {
      var n := |values| - 1;
      var front := values[..n];
      var now := FoldKey(SortedMerge(), before, before, front);
      FrontApart(before, values, n);
      StillFound(before, front);
      CountFold(before, front, p, if w < n then w else n);
      SortedStep(now, before, values[n]);
      hide First, Left;
      LeftNext(before, values, p, w, now, FoldKey(SortedMerge(), before, before, values));
    }
  }
}
