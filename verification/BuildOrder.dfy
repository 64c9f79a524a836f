/**
 * The order builds begin in, over whole runs: planned keys by first use, a key
 * asked for unplanned before all that has not begun. Said of the run's events
 * alone.
 */
module BuildOrder {
  import opened Options
  import opened BuildQueue

  /** The keys whose builds began, in order. */
  function Starts(trace: seq<Event>): seq<Key>
    decreases |trace|
  {
    if trace == [] then []
    else
      var e := trace[|trace| - 1];
      Starts(trace[..|trace| - 1]) + if e.Start? then [e.key] else []
  }

  /** A planned use of `k` is still to come. */
  predicate Wanted(trace: seq<Event>, k: Key) {
    Planned(trace, k) > Times(trace, UseOf(k))
  }

  /** The keys no use of which is to come, each at its first place among `keys`. */
  function Newly(trace: seq<Event>, keys: seq<Key>): seq<Key>
    decreases |keys|
  {
    if keys == [] then []
    else
      var n := |keys| - 1;
      Newly(trace, keys[..n]) + if Wanted(trace, keys[n]) || keys[n] in keys[..n] then [] else [keys[n]]
  }

  /** `due`, with `k` next behind the first `n`. */
  function Inserted(due: seq<Key>, n: nat, k: Key): seq<Key> {
    if n <= |due| then due[..n] + [k] + due[n..] else due
  }

  /**
   * The builds in the order they begin or are due: planned keys last, a key asked for unplanned
   * next; the close takes away what has not begun.
   */
  function Schedule(trace: seq<Event>): seq<Key>
    decreases |trace|
  {
    if trace == [] then []
    else
      var before, e := trace[..|trace| - 1], trace[|trace| - 1];
      match e
      case Plan(keys) => Schedule(before) + Newly(before, keys)
      case Ask(k) => if Wanted(before, k) then Schedule(before) else Inserted(Schedule(before), |Starts(before)|, k)
      case Close => Starts(before)
      case _ => Schedule(before)
  }

  /** A key has uses to come exactly when the run planned more of them than it handed over. */
  lemma WantedIsUsed(limit: nat, trace: seq<Event>, k: Key)
    requires Possible(limit, trace)
    ensures Wanted(trace, k) <==> k in After(limit, trace).keys.uses
  {
    EveryUseIsAccounted(limit, trace, k);
    EveryRunIsSafe(limit, trace);
  }

  lemma {:induction false} NewlyAreFirstUses(limit: nat, trace: seq<Event>, keys: seq<Key>)
    requires Possible(limit, trace)
    ensures Newly(trace, keys) == FirstUses(After(limit, trace).keys.uses.Keys, keys)
    decreases |keys|
  {
    hide Wanted, After, Possible;
    if keys != [] {
      var n := |keys| - 1;
      NewlyAreFirstUses(limit, trace, keys[..n]);
      WantedIsUsed(limit, trace, keys[n]);
    }
  }

  /** What a step does to the queue. */
  lemma QueueAfter(limit: nat, s: System, e: Event)
    requires Inv(limit, s) && Enabled(limit, s, e)
    ensures var was, now := s.keys.queued, Next(limit, s, e).keys.queued;
      match e
      case Plan(keys) => now == was + FirstUses(s.keys.uses.Keys, keys)
      case Ask(k) => now == if k in s.keys.uses then was else [k] + was
      case Close => now == []
      case Start(_, k) => was == [k] + now
      case _ => now == was
  {
    match e
    case Plan(keys) => PlanningKeepsOrder(s.keys, keys);
    case Ask(k) => assert Present(s.keys, k) ==> k in s.keys.uses;
    case _ =>
  }

  /** Builds begin on schedule: those begun and then the queue are the schedule, in every run. */
  lemma {:induction false} BuildsBeginOnSchedule(limit: nat, trace: seq<Event>)
    requires Possible(limit, trace)
    ensures Starts(trace) + After(limit, trace).keys.queued == Schedule(trace)
    decreases |trace|
  {
    if trace != [] {
      var before, e := trace[..|trace| - 1], trace[|trace| - 1];
      var s := After(limit, before);
      BuildsBeginOnSchedule(limit, before);
      EveryRunIsSafe(limit, before);
      QueueAfter(limit, s, e);
      assert After(limit, trace) == Next(limit, s, e);
      ScheduleNext(trace);
      var was, now := s.keys.queued, After(limit, trace).keys.queued;
      hide *;
      assert !e.Start? ==> Starts(before) + [] == Starts(before);
      match e
      case Plan(keys) =>
        NewlyAreFirstUses(limit, before, keys);
        JoinJoins(Starts(before), was, Newly(before, keys));
      case Ask(k) =>
        WantedIsUsed(limit, before, k);
        InsertedNext(Starts(before), was, k);
      case Start(_, k) =>
        JoinJoins(Starts(before), [k], now);
      case _ =>
    }
  }

  lemma JoinJoins(a: seq<Key>, b: seq<Key>, c: seq<Key>)
    ensures a + (b + c) == a + b + c
  {
  }

  lemma ScheduleNext(trace: seq<Event>)
    requires trace != []
    ensures var before, e := trace[..|trace| - 1], trace[|trace| - 1];
      && Starts(trace) == Starts(before) + (if e.Start? then [e.key] else [])
      && Schedule(trace) == match e
          case Plan(keys) => Schedule(before) + Newly(before, keys)
          case Ask(k) => if Wanted(before, k) then Schedule(before) else Inserted(Schedule(before), |Starts(before)|, k)
          case Close => Starts(before)
          case _ => Schedule(before)
  {
    hide Wanted, Newly, Inserted;
  }

  lemma InsertedNext(begun: seq<Key>, due: seq<Key>, k: Key)
    ensures Inserted(begun + due, |begun|, k) == begun + ([k] + due)
  {
    assert (begun + due)[..|begun|] == begun && (begun + due)[|begun|..] == due;
  }

  // ---- Runs that only plan ----

  /** Every key planned, in order and as often as planned. */
  function PlannedKeys(trace: seq<Event>): seq<Key>
    decreases |trace|
  {
    if trace == [] then []
    else
      var e := trace[|trace| - 1];
      PlannedKeys(trace[..|trace| - 1]) + if e.Plan? then e.keys else []
  }

  ghost predicate OnlyPlans(trace: seq<Event>) {
    forall e | e in trace :: !e.Ask? && !e.Close?
  }

  /** Without a take, nothing planned is handed over. */
  lemma {:induction false} NothingTaken(limit: nat, trace: seq<Event>, k: Key)
    requires Possible(limit, trace) && OnlyPlans(trace)
    ensures !After(limit, trace).driver.Taking? && Times(trace, UseOf(k)) == 0
    ensures Wanted(trace, k) <==> k in PlannedKeys(trace)
    decreases |trace|
  {
    if trace != [] {
      var before, e := trace[..|trace| - 1], trace[|trace| - 1];
      assert trace == before + [e] && e in trace;
      NothingTaken(limit, before, k);
      assert e.Plan? ==> (multiset(e.keys)[k] > 0 <==> k in e.keys);
    }
  }

  lemma {:induction false} FirstUsesJoin(a: seq<Key>, b: seq<Key>, trace: seq<Event>)
    requires forall k :: Wanted(trace, k) <==> k in a
    ensures FirstUses({}, a + b) == FirstUses({}, a) + Newly(trace, b)
    decreases |b|
  {
    hide Wanted;
    if b == [] {
      assert a + b == a;
    } else {
      var n := |b| - 1;
      assert (a + b)[..|a + b| - 1] == a + b[..n];
      FirstUsesJoin(a, b[..n], trace);
    }
  }

  /** Builds begin in the order their keys are first planned, what is left being the queue. */
  lemma {:induction false} BuildsBeginAsPlanned(limit: nat, trace: seq<Event>)
    requires Possible(limit, trace) && OnlyPlans(trace)
    ensures Starts(trace) + After(limit, trace).keys.queued == FirstUses({}, PlannedKeys(trace))
  {
    BuildsBeginOnSchedule(limit, trace);
    ScheduleIsPlan(limit, trace);
  }

  lemma {:induction false} ScheduleIsPlan(limit: nat, trace: seq<Event>)
    requires Possible(limit, trace) && OnlyPlans(trace)
    ensures Schedule(trace) == FirstUses({}, PlannedKeys(trace))
    decreases |trace|
  {
    if trace != [] {
      var before, e := trace[..|trace| - 1], trace[|trace| - 1];
      assert trace == before + [e] && e in trace;
      ScheduleIsPlan(limit, before);
      assert PlannedKeys(trace) == PlannedKeys(before) + if e.Plan? then e.keys else [];
      ScheduleNext(trace);
      if e.Plan? {
        forall k ensures Wanted(before, k) <==> k in PlannedKeys(before) {
          NothingTaken(limit, before, k);
        }
        hide *;
        FirstUsesJoin(PlannedKeys(before), e.keys, before);
      } else {
        assert PlannedKeys(before) + [] == PlannedKeys(before);
      }
    }
  }

  // ---- A key asked for unplanned ----

  /** The first build to begin after the take of an unplanned key is its own. */
  lemma AskedStartsNext(limit: nat, trace: seq<Event>, k: Key, more: seq<Event>, w: nat, j: Key)
    requires Possible(limit, trace + [Ask(k)] + more + [Start(w, j)]) && NoStart(more, |more|) && !Wanted(trace, k)
    ensures j == k
  {
    var asked := trace + [Ask(k)] + more;
    var all := asked + [Start(w, j)];
    assert all[..|all| - 1] == asked && all[|all| - 1] == Start(w, j);
    UnplannedStartsFirst(limit, trace, k, more);
    WantedIsUsed(limit, trace, k);
  }
}
