/**
 * The answer keys of the determinism tool: one driver plans and takes cold
 * builds, worker threads make them, and at most `limit` analyses live at once.
 * Each critical section is one step.
 */
module BuildQueue {
  import opened Options

  /** A cold build's key, and the snapshot a build ends in. */
  type Key(==, !new)
  type Snap(==, !new)

  datatype Built = Made(snap: Snap) | Failed(reason: string)

  datatype Keys = Keys(
    queued: seq<Key>, building: set<Key>, builds: nat, built: map<Key, Built>, uses: map<Key, nat>, closed: bool)

  const Empty: Keys := Keys([], {}, 0, map[], map[], false)

  function Uses(s: Keys, k: Key): nat {
    if k in s.uses then s.uses[k] else 0
  }

  // ---- The critical sections on values ----

  function PlanKey(s: Keys, k: Key): Keys {
    var counted := s.(uses := s.uses[k := Uses(s, k) + 1]);
    if Uses(s, k) == 0 then counted.(queued := s.queued + [k]) else counted
  }

  function PlanKeys(s: Keys, keys: seq<Key>): Keys {
    if keys == [] then s else PlanKey(PlanKeys(s, keys[..|keys| - 1]), keys[|keys| - 1])
  }

  function Asked(s: Keys, k: Key): Keys {
    if k in s.uses || k in s.building || k in s.built then s else s.(queued := [k] + s.queued)
  }

  function Received(s: Keys, k: Key): Keys {
    if Uses(s, k) <= 1 then s.(built := s.built - {k},
        uses := s.uses - {k}) else s.(uses := s.uses[k := Uses(s, k) - 1])
  }

  function Started(s: Keys): Keys
    requires s.queued != []
  {
    s.(queued := s.queued[1..], builds := s.builds + 1, building := s.building + {s.queued[0]})
  }

  function Finished(s: Keys, k: Key, b: Built): Keys
    requires s.builds > 0
  {
    s.(builds := s.builds - 1, building := s.building - {k}, built := s.built[k := b])
  }

  /** The shared state and its critical sections; waiting for a section to be open is the caller's. */
  class AnswerKeys {
    const limit: nat
    var queued: seq<Key>
    var building: set<Key>
    var builds: nat
    var built: map<Key, Built>
    var uses: map<Key, nat>
    var closed: bool

    ghost function State(): Keys
      reads this
    {
      Keys(queued, building, builds, built, uses, closed)
    }

    constructor (limit: nat)
      ensures this.limit == limit && State() == Empty
    {
      this.limit := limit;
      queued, building, builds, built, uses, closed := [], {}, 0, map[], map[], false;
    }

    method Plan(keys: seq<Key>)
      modifies this
      ensures State() == PlanKeys(old(State()), keys)
    {
      for i := 0 to |keys|
        invariant State() == PlanKeys(old(State()), keys[..i])
      {
        var k := keys[i];
        assert keys[..i + 1][..i] == keys[..i];
        uses := uses[k := (if k in uses then uses[k] else 0) + 1];
        if uses[k] == 1 {
          queued := queued + [k];
        }
      }
      assert keys[..|keys|] == keys;
    }

    /** One look of a waiting build outside the workers at the limit. */
    method Admit() returns (admitted: bool)
      modifies this
      ensures admitted == (old(builds) < limit)
      ensures State() == if admitted then old(State()).(builds := old(builds) + 1) else old(State())
    {
      admitted := builds < limit;
      if admitted {
        builds := builds + 1;
      }
    }

    method Release()
      requires builds > 0
      modifies this
      ensures State() == old(State()).(builds := old(builds) - 1)
    {
      builds := builds - 1;
    }

    /** One look of a worker at the queue. */
    method Start() returns (key: Option<Key>)
      modifies this
      ensures key.None? <==> old(builds) >= limit || old(queued) == []
      ensures key.None? ==> State() == old(State())
      ensures key.Some? ==> old(queued) == [key.value] + queued && builds == old(builds) + 1
      ensures key.Some? ==> building == old(building) + {key.value} && built == old(built) && uses == old(uses)
                            && closed == old(closed)
    {
      if builds < limit && queued != [] {
        key := Some(queued[0]);
        queued := queued[1..];
        builds := builds + 1;
        building := building + {key.value};
      } else {
        key := None;
      }
    }

    /** The slot is given back, the key is no longer being built, and the build is kept until its last use. */
    method Finish(key: Key, b: Built)
      requires builds > 0
      modifies this
      ensures builds == old(builds) - 1 && key !in building && Lookup(built, key) == Some(b)
      ensures forall k | k != key ::
              (k in building <==> k in old(building)) && Lookup(built, k) == Lookup(old(built), k)
      ensures queued == old(queued) && uses == old(uses) && closed == old(closed)
    {
      builds := builds - 1;
      building := building - {key};
      built := built[key := b];
    }

    /** A key neither planned nor anywhere in work goes to the head of the queue; nothing else changes. */
    method Ask(key: Key)
      modifies this
      ensures queued != old(queued) <==> key !in uses && key !in building && key !in built
      ensures queued != old(queued) ==> queued == [key] + old(queued)
      ensures building == old(building) && builds == old(builds) && built == old(built) && uses == old(uses)
        && closed == old(closed)
    {
      var planned := key in uses;
      if !planned && key !in building && key !in built {
        queued := [key] + queued;
      }
    }

    /** One look of a waiting `take`; no use count underflows. */
    method Receive(key: Key) returns (b: Option<Built>)
      requires forall k | k in uses :: uses[k] > 0
      modifies this
      ensures b == Lookup(old(built), key)
      ensures b.None? ==> State() == old(State())
      ensures b.Some? ==> Lookup(uses, key) == if Uses(old(State()), key) > 1 then Some(old(uses)[key] - 1) else None
      ensures b.Some? ==> (key in built <==> key in uses) && forall k | k != key || key in built ::
                            Lookup(built, k) == Lookup(old(built), k)
      ensures (forall k | k != key :: Lookup(uses, k) == Lookup(old(uses), k)) && queued == old(queued)
        && building == old(building) && builds == old(builds) && closed == old(closed)
    {
      if key !in built {
        return None;
      }
      b := Some(built[key]);
      var left := 0;
      if key in uses {
        left := uses[key] - 1;
        uses := uses[key := left];
      }
      if left == 0 {
        built := built - {key};
        uses := uses - {key};
      }
    }

    method Close()
      modifies this
      ensures State() == old(State()).(closed := true, queued := [])
    {
      closed := true;
      queued := [];
    }
  }

  // ---- The protocol ----

  /** What the driver is in: nothing, waiting for or running a build of its own, `take`, a panic, or past the close. */
  datatype Driver = Ready | Keeping(base: bool) | Running(base: bool) | Taking(key: Key) | Failing | Gone

  datatype Worker = Resting | Busy(key: Key) | Left

  /** `kept` counts the analyses kept alive: bases, and what a panicking build never gave back. */
  datatype System = System(keys: Keys, driver: Driver, workers: seq<Worker>, kept: nat)

  datatype Event =
    | Plan(keys: seq<Key>)
    | Enter(base: bool)
    | Admit
    | Ran
    | Panicked
    | Ask(key: Key)
    | Receive(key: Key, built: Built, planned: bool)
    | Close
    | Start(worker: nat, key: Key)
    | Finish(worker: nat, key: Key, built: Built)
    | Leave(worker: nat)

  predicate ByWorker(e: Event) {
    e.Start? || e.Finish? || e.Leave?
  }

  predicate Enabled(limit: nat, s: System, e: Event) {
    match e
    case Plan(_) => s.driver == Ready
    case Enter(_) => s.driver == Ready
    case Admit => s.driver.Keeping? && s.keys.builds < limit
    case Ran => s.driver.Running? && s.keys.builds > 0
    case Panicked => s.driver.Running?
    case Ask(_) => s.driver == Ready
    case Receive(k, b, planned) =>
      s.driver == Taking(k) && Lookup(s.keys.built, k) == Some(b) && planned == (k in s.keys.uses)
    case Close => s.driver == Ready || s.driver == Failing
    case Start(w, k) =>
      && w < |s.workers| && s.workers[w] == Resting && s.keys.builds < limit
      && s.keys.queued != [] && s.keys.queued[0] == k
    case Finish(w, k, _) => w < |s.workers| && s.workers[w] == Busy(k) && s.keys.builds > 0
    case Leave(w) => w < |s.workers| && s.workers[w] == Resting && s.keys.closed && s.keys.queued == []
  }

  function Next(limit: nat, s: System, e: Event): System
    requires Enabled(limit, s, e)
  {
    match e
    case Plan(keys) => s.(keys := PlanKeys(s.keys, keys))
    case Enter(base) => s.(driver := Keeping(base))
    case Admit => s.(keys := s.keys.(builds := s.keys.builds + 1), driver := Running(s.driver.base))
    case Ran =>
      if s.driver.base then s.(driver := Ready, kept := s.kept + 1)
      else s.(driver := Ready, keys := s.keys.(builds := s.keys.builds - 1))
    case Panicked => s.(driver := Failing, kept := s.kept + 1)
    case Ask(k) => s.(driver := Taking(k), keys := Asked(s.keys, k))
    case Receive(k, b, _) => s.(driver := if b.Made? then Ready else Failing, keys := Received(s.keys, k))
    case Close => s.(driver := Gone, keys := s.keys.(closed := true, queued := []))
    case Start(w, k) => s.(workers := s.workers[w := Busy(k)], keys := Started(s.keys))
    case Finish(w, k, b) => s.(workers := s.workers[w := Resting], keys := Finished(s.keys, k, b))
    case Leave(w) => s.(workers := s.workers[w := Left])
  }

  function Initial(limit: nat): System {
    System(Empty, Ready, seq(limit, _ => Resting), 0)
  }

  /** The runs: traces whose every event was enabled where it happened. */
  predicate Possible(limit: nat, trace: seq<Event>)
    decreases |trace|, 0
  {
    trace == [] ||
    var before := trace[..|trace| - 1];
    Possible(limit, before) && Enabled(limit, After(limit, before), trace[|trace| - 1])
  }

  function After(limit: nat, trace: seq<Event>): System
    requires Possible(limit, trace)
    decreases |trace|, 1
  {
    if trace == [] then Initial(limit)
    else Next(limit, After(limit, trace[..|trace| - 1]), trace[|trace| - 1])
  }

  // ---- The invariant of every run ----

  function BusyKeys(ws: seq<Worker>): set<Key> {
    set w | 0 <= w < |ws| && ws[w].Busy? :: ws[w].key
  }

  predicate OneEach(ws: seq<Worker>) {
    forall v, w | 0 <= v < w < |ws| && ws[v].Busy? && ws[w].Busy? :: ws[v].key != ws[w].key
  }

  predicate Distinct(s: seq<Key>) {
    forall i, j | 0 <= i < j < |s| :: s[i] != s[j]
  }

  /** No key is in two places, and every use count is of a use to come. */
  predicate Apart(s: Keys) {
    && Distinct(s.queued)
    && (forall k | k in s.queued :: k !in s.building && k !in s.built)
    && (forall k | k in s.building :: k !in s.built)
    && (forall k | k in s.uses :: s.uses[k] > 0)
  }

  predicate Present(s: Keys, k: Key) {
    k in s.queued || k in s.building || k in s.built
  }

  /** Every key with uses to come is somewhere until the close, and nothing else is but the key the driver waits for. */
  ghost predicate Tracked(s: System) {
    && (forall k | k in s.keys.uses && !s.keys.closed :: Present(s.keys, k))
    && (forall k | Present(s.keys, k) :: k in s.keys.uses || s.driver == Taking(k))
    && (s.driver.Taking? ==> Present(s.keys, s.driver.key))
  }

  predicate Staffed(limit: nat, s: System) {
    && |s.workers| == limit
    && s.keys.building == BusyKeys(s.workers)
    && OneEach(s.workers)
    && (forall w | 0 <= w < |s.workers| :: s.workers[w] == Left ==> s.keys.closed)
    && (s.keys.closed <==> s.driver == Gone)
    && (s.keys.closed ==> s.keys.queued == [])
  }

  function Own(d: Driver): nat {
    if d.Running? then 1 else 0
  }

  predicate Counted(limit: nat, s: System) {
    s.keys.builds == |s.keys.building| + s.kept + Own(s.driver) <= limit
  }

  ghost predicate Inv(limit: nat, s: System) {
    Apart(s.keys) && Tracked(s) && Staffed(limit, s) && Counted(limit, s)
  }

  lemma PlanKeyCounts(s: Keys, k: Key)
    requires forall j | j in s.uses :: s.uses[j] > 0
    ensures var t := PlanKey(s, k);
            && t == s.(queued := t.queued, uses := t.uses)
            && t.queued == (if k in s.uses then s.queued else s.queued + [k])
            && (forall j | j in t.uses :: t.uses[j] > 0)
            && (forall j :: Uses(t, j) == Uses(s, j) + if j == k then 1 else 0)
  {
  }

  /** The keys without a use to come, each at its first place among `keys`. */
  function FirstUses(used: set<Key>, keys: seq<Key>): seq<Key>
    decreases |keys|
  {
    if keys == [] then []
    else
      var n := |keys| - 1;
      FirstUses(used, keys[..n]) + if keys[n] in used || keys[n] in keys[..n] then [] else [keys[n]]
  }

  /** Planning adds the keys nobody planned before behind the queue, each at its first use. */
  lemma {:induction false} PlanningKeepsOrder(s: Keys, keys: seq<Key>)
    requires forall k | k in s.uses :: s.uses[k] > 0
    ensures PlanKeys(s, keys).queued == s.queued + FirstUses(s.uses.Keys, keys)
    decreases |keys|
  {
    if keys != [] {
      var n := |keys| - 1;
      var front, k := keys[..n], keys[n];
      PlanningKeepsOrder(s, front);
      UsedAfter(s, front, k);
      var m := PlanKeys(s, front);
      assert PlanKeys(s, keys) == PlanKey(m, k);
      hide PlanKeys;
      PlanKeyCounts(m, k);
    }
  }

  lemma UsedAfter(s: Keys, keys: seq<Key>, k: Key)
    requires forall j | j in s.uses :: s.uses[j] > 0
    ensures var t := PlanKeys(s, keys);
            (forall j | j in t.uses :: t.uses[j] > 0) && (k in t.uses <==> k in s.uses || k in keys)
  {
    PlanningCounts(s, keys);
    hide PlanKeys;
    var t := PlanKeys(s, keys);
    assert Uses(t, k) == Uses(s, k) + multiset(keys)[k];
  }

  /**
   * `t` is `s` with `keys` planned: every use counted, and queued behind the rest, once, exactly
   * the keys that had none.
   */
  ghost predicate IsPlanned(s: Keys, keys: seq<Key>, t: Keys) {
    && t == s.(queued := t.queued, uses := t.uses)
    && (forall k :: Uses(t, k) == Uses(s, k) + multiset(keys)[k])
    && (forall k | k in t.uses :: t.uses[k] > 0)
    && s.queued <= t.queued
    && (forall k :: k in t.queued[|s.queued|..] <==> k in keys && k !in s.uses)
    && Distinct(t.queued[|s.queued|..])
  }

  /** Planning counts every use and queues behind the rest, once, exactly the keys that had none. */
  lemma {:induction false} PlanningCounts(s: Keys, keys: seq<Key>)
    requires forall k | k in s.uses :: s.uses[k] > 0
    ensures IsPlanned(s, keys, PlanKeys(s, keys))
  {
    if keys == [] {
      assert multiset(keys) == multiset{};
    } else {
      var n := |keys| - 1;
      var front, k := keys[..n], keys[n];
      PlanningCounts(s, front);
      hide IsPlanned;
      var m := PlanKeys(s, front);
      assert PlanKeys(s, keys) == PlanKey(m, k);
      assert keys == front + [k];
      hide PlanKeys;
      PlannedNext(s, m, front, k);
    }
  }

  lemma CountNext(keys: seq<Key>, k: Key, j: Key)
    ensures multiset(keys + [k])[j] == multiset(keys)[j] + if j == k then 1 else 0
    ensures j in keys <==> multiset(keys)[j] > 0
  {
  }

  lemma PlannedNext(s: Keys, m: Keys, front: seq<Key>, k: Key)
    requires (forall j | j in s.uses :: s.uses[j] > 0) && IsPlanned(s, front, m)
    ensures IsPlanned(s, front + [k], PlanKey(m, k))
  {
    var t := PlanKey(m, k);
    PlanKeyCounts(m, k);
    InUses(m, k);
    InUses(s, k);
    CountNext(front, k, k);
    assert k in m.uses <==> k in s.uses || k in front;
    forall j ensures Uses(t, j) == Uses(s, j) + multiset(front + [k])[j] {
      CountNext(front, k, j);
    }
    hide Uses, PlanKey;
    PlannedQueue(s.queued, m.queued, front, k, s.uses.Keys, k in m.uses);
  }

  /** A key planned for the first time joins the end of the queue. */
  lemma PlannedQueue(before: seq<Key>, queued: seq<Key>, front: seq<Key>, k: Key, used: set<Key>, has: bool)
    requires before <= queued && Distinct(queued[|before|..]) && (has <==> k in used || k in front)
    requires forall j :: j in queued[|before|..] <==> j in front && j !in used
    ensures var now := if has then queued else queued + [k];
      && before <= now && Distinct(now[|before|..])
      && forall j :: j in now[|before|..] <==> j in front + [k] && j !in used
  {
    var added := queued[|before|..];
    if !has {
      assert (queued + [k])[|before|..] == added + [k];
      DistinctJoin(added, [k]);
    }
  }

  lemma DistinctJoin(a: seq<Key>, b: seq<Key>)
    requires Distinct(a) && Distinct(b) && forall k | k in b :: k !in a
    ensures Distinct(a + b)
  {
    forall i, j | 0 <= i < j < |a + b| ensures (a + b)[i] != (a + b)[j] {
      if i < |a| <= j {
        assert (a + b)[j] in b;
      }
    }
  }

  lemma PresentPlanned(s: Keys, t: Keys, more: seq<Key>, k: Key)
    requires t.queued == s.queued + more && t.building == s.building && t.built == s.built
    ensures Present(t, k) <==> Present(s, k) || k in more
  {
  }

  lemma InUses(s: Keys, k: Key)
    requires forall j | j in s.uses :: s.uses[j] > 0
    ensures k in s.uses <==> Uses(s, k) > 0
  {
  }

  lemma PlanKeepsApart(s: Keys, keys: seq<Key>)
    requires Apart(s) && forall k :: Present(s, k) <==> k in s.uses
    ensures var t := PlanKeys(s, keys);
            Apart(t) && forall k :: Present(t, k) <==> k in t.uses
  {
    hide PlanKeys, Distinct, Uses, Present;
    PlanningCounts(s, keys);
    var t := PlanKeys(s, keys);
    var more := t.queued[|s.queued|..];
    assert t.queued == s.queued + more;
    forall k ensures Present(t, k) <==> Present(s, k) || k in more {
      PresentPlanned(s, t, more, k);
    }
    forall k ensures Present(t, k) <==> k in t.uses {
      InUses(t, k);
      InUses(s, k);
      assert Uses(t, k) == Uses(s, k) + multiset(keys)[k];
    }
    QueuedApart(s, more);
    DistinctJoin(s.queued, more);
  }

  lemma QueuedApart(s: Keys, more: seq<Key>)
    requires Apart(s) && forall k | k in more :: !Present(s, k)
    ensures forall k | k in more :: k !in s.queued && k !in s.building && k !in s.built
  {
  }

  lemma PlanKeeps(limit: nat, s: System, keys: seq<Key>)
    requires Inv(limit, s) && s.driver == Ready
    ensures Inv(limit, Next(limit, s, Plan(keys)))
  {
    hide PlanKeys, Present, Apart;
    PlanKeepsApart(s.keys, keys);
    assert forall k | k in s.keys.uses :: s.keys.uses[k] > 0 by {
      hide *;
      UsesPositive(s.keys);
    }
    PlanningCounts(s.keys, keys);
  }

  lemma UsesPositive(s: Keys)
    requires Apart(s)
    ensures forall k | k in s.uses :: s.uses[k] > 0
  {
  }

  /**
   * After a take is asked for, its key is queued, building or built, in one place only, and queued
   * first when it was nowhere.
   */
  lemma AskKeeps(limit: nat, s: System, k: Key)
    requires Inv(limit, s) && s.driver == Ready
    ensures var t := Next(limit, s, Ask(k)).keys;
      Present(t, k) && Apart(t) && (!Present(s.keys, k) ==> t.queued == [k] + s.keys.queued)
    ensures Inv(limit, Next(limit, s, Ask(k)))
  {
    var t := Asked(s.keys, k);
    forall j ensures Present(t, j) <==> Present(s.keys, j) || j == k {
      if k in s.keys.uses {
        assert Present(s.keys, k);
      }
    }
    if k !in s.keys.uses {
      assert !Present(s.keys, k);
    }
  }

  lemma ReceiveKeeps(limit: nat, s: System, e: Event)
    requires Inv(limit, s) && e.Receive? && Enabled(limit, s, e)
    ensures Inv(limit, Next(limit, s, e))
  {
    var k := e.key;
    var t := Received(s.keys, k);
    forall j | j != k ensures Present(t, j) <==> Present(s.keys, j) {
    }
    assert Present(s.keys, k);
    assert Uses(s.keys, k) <= 1 ==> !Present(t, k);
    forall j | j in t.uses ensures Present(t, j) {
      assert Present(s.keys, j);
    }
  }

  lemma CloseKeeps(limit: nat, s: System)
    requires Inv(limit, s) && Enabled(limit, s, Close)
    ensures Inv(limit, Next(limit, s, Close))
  {
    var t := Next(limit, s, Close);
    forall k | Present(t.keys, k) ensures k in t.keys.uses {
      assert Present(s.keys, k);
    }
  }

  lemma OneMoreBusy(ws: seq<Worker>, w: nat, k: Key)
    requires w < |ws| && ws[w] == Resting && OneEach(ws) && k !in BusyKeys(ws)
    ensures BusyKeys(ws[w := Busy(k)]) == BusyKeys(ws) + {k} && OneEach(ws[w := Busy(k)])
  {
    var now := ws[w := Busy(k)];
    assert now[w] == Busy(k);
    forall j ensures j in BusyKeys(now) <==> j in BusyKeys(ws) || j == k {
      if j in BusyKeys(ws) {
        var v :| 0 <= v < |ws| && ws[v] == Busy(j);
        assert now[v] == Busy(j);
      }
    }
    forall v | 0 <= v < |ws| && ws[v].Busy? ensures ws[v].key != k {
      assert ws[v].key in BusyKeys(ws);
    }
  }

  lemma StartKeepsApart(s: Keys)
    requires Apart(s) && s.queued != []
    ensures Apart(Started(s)) && s.queued[0] !in s.building && forall j :: Present(Started(s), j) <==> Present(s, j)
  {
    var k, t := s.queued[0], Started(s);
    assert s.queued == [k] + t.queued;
    assert k in s.queued;
    forall i, j | 0 <= i < j < |t.queued| ensures t.queued[i] != t.queued[j] {
      assert s.queued[i + 1] != s.queued[j + 1];
    }
    forall j | j in t.queued ensures j != k {
      var i :| 0 <= i < |t.queued| && t.queued[i] == j;
      assert s.queued[0] != s.queued[i + 1];
    }
  }

  lemma StartKeeps(limit: nat, s: System, w: nat, k: Key)
    requires Inv(limit, s) && Enabled(limit, s, Start(w, k))
    ensures Inv(limit, Next(limit, s, Start(w, k)))
  {
    StartKeepsApart(s.keys);
    OneMoreBusy(s.workers, w, k);
    hide BusyKeys, OneEach, Apart, Present;
  }

  /** A finished build frees its slot and its worker, and its key moves from the keys building to the keys built. */
  lemma FinishKeeps(limit: nat, s: System, w: nat, k: Key, b: Built)
    requires Inv(limit, s) && Enabled(limit, s, Finish(w, k, b))
    ensures var t := Next(limit, s, Finish(w, k, b)).keys;
      && k in s.keys.building && k !in s.keys.built && k in t.built && k !in t.building
      && t.builds < s.keys.builds <= limit
    ensures Inv(limit, Next(limit, s, Finish(w, k, b)))
  {
    var t := Next(limit, s, Finish(w, k, b));
    assert s.workers[w].key in BusyKeys(s.workers);
    forall j ensures Present(t.keys, j) <==> Present(s.keys, j) {
    }
    forall j ensures j in BusyKeys(t.workers) <==> j in BusyKeys(s.workers) && j != k {
      if j in BusyKeys(s.workers) && j != k {
        var v :| 0 <= v < |s.workers| && s.workers[v] == Busy(j);
        assert t.workers[v] == Busy(j);
      }
    }
  }

  lemma LeaveKeeps(limit: nat, s: System, w: nat)
    requires Inv(limit, s) && Enabled(limit, s, Leave(w))
    ensures Inv(limit, Next(limit, s, Leave(w)))
  {
    var t := Next(limit, s, Leave(w));
    forall j ensures j in BusyKeys(t.workers) <==> j in BusyKeys(s.workers) {
      if j in BusyKeys(s.workers) {
        var v :| 0 <= v < |s.workers| && s.workers[v] == Busy(j);
        assert t.workers[v] == Busy(j);
      }
    }
  }

  lemma StepKeeps(limit: nat, s: System, e: Event)
    requires Inv(limit, s) && Enabled(limit, s, e)
    ensures Inv(limit, Next(limit, s, e))
  {
    match e
    case Plan(keys) => PlanKeeps(limit, s, keys);
    case Ask(k) => AskKeeps(limit, s, k);
    case Receive(_, _, _) => ReceiveKeeps(limit, s, e);
    case Close => CloseKeeps(limit, s);
    case Start(w, k) => StartKeeps(limit, s, w, k);
    case Finish(w, k, b) => FinishKeeps(limit, s, w, k, b);
    case Leave(w) => LeaveKeeps(limit, s, w);
    case _ =>
  }

  /** Safety over whole runs: the limit holds, counts are exact, and no key is ever in two places. */
  lemma {:induction false} EveryRunIsSafe(limit: nat, trace: seq<Event>)
    requires Possible(limit, trace)
    ensures Inv(limit, After(limit, trace))
  {
    if trace != [] {
      var before := trace[..|trace| - 1];
      EveryRunIsSafe(limit, before);
      StepKeeps(limit, After(limit, before), trace[|trace| - 1]);
    }
  }

  // ---- What each take hands over ----

  /** How often `trace` planned `k`. */
  function Planned(trace: seq<Event>, k: Key): nat {
    if trace == [] then 0
    else
      var e := trace[|trace| - 1];
      Planned(trace[..|trace| - 1], k) + if e.Plan? then multiset(e.keys)[k] else 0
  }

  /** How many of `trace`'s events are of the kind `p` picks. */
  function Times(trace: seq<Event>, p: Event -> bool): nat {
    if trace == [] then 0
    else Times(trace[..|trace| - 1], p) + if p(trace[|trace| - 1]) then 1 else 0
  }

  /** A planned use of `k` handed over; a build of `k` begun; one done. */
  function UseOf(k: Key): Event -> bool {
    (e: Event) => e.Receive? && e.key == k && e.planned
  }

  function BuildOf(k: Key): Event -> bool {
    (e: Event) => e.Start? && e.key == k
  }

  function EndOf(k: Key): Event -> bool {
    (e: Event) => e.Finish? && e.key == k
  }

  /** What the last finished build of `k` in `trace` ended in. */
  function LastBuild(trace: seq<Event>, k: Key): Option<Built> {
    if trace == [] then None
    else
      var e := trace[|trace| - 1];
      if e.Finish? && e.key == k then Some(e.built) else LastBuild(trace[..|trace| - 1], k)
  }

  /**
   * Uses are conserved: planned are handed over or to come; every build begun is under way or
   * done; what is kept is the last build.
   */
  lemma {:induction false} EveryUseIsAccounted(limit: nat, trace: seq<Event>, k: Key)
    requires Possible(limit, trace)
    ensures var s := After(limit, trace).keys;
            && Planned(trace, k) == Times(trace, UseOf(k)) + Uses(s, k)
            && Times(trace, BuildOf(k)) == Times(trace, EndOf(k)) + (if k in s.building then 1 else 0)
            && (k in s.built ==> LastBuild(trace, k) == Some(s.built[k]))
  {
    if trace != [] {
      var before, e := trace[..|trace| - 1], trace[|trace| - 1];
      EveryUseIsAccounted(limit, before, k);
      EveryRunIsSafe(limit, before);
      EveryRunIsSafe(limit, trace);
      AccountStep(limit, After(limit, before), e, k);
    }
  }

  lemma AccountStep(limit: nat, s: System, e: Event, k: Key)
    requires Inv(limit, s) && Enabled(limit, s, e)
    ensures var t := Next(limit, s, e).keys;
            && Uses(t, k) + (if UseOf(k)(e) then 1 else 0)
                == Uses(s.keys, k) + (if e.Plan? then multiset(e.keys)[k] else 0)
            && (if k in t.building then 1 else 0) + (if EndOf(k)(e) then 1 else 0)
               == (if k in s.keys.building then 1 else 0) + (if BuildOf(k)(e) then 1 else 0)
            && (k in t.built && EndOf(k)(e) ==> t.built[k] == e.built)
            && (k in t.built && !EndOf(k)(e) ==> k in s.keys.built && t.built[k] == s.keys.built[k])
  {
    if e.Plan? {
      PlanningCounts(s.keys, e.keys);
    } else if e.Finish? {
      assert s.workers[e.worker].key in BusyKeys(s.workers);
    } else if e.Start? {
      assert s.keys.queued[0] in s.keys.queued;
    }
  }

  /** A take hands over the last build of its own key, and lets it go exactly when no planned use is left. */
  lemma TakeHandsOverItsOwnBuild(limit: nat, trace: seq<Event>, k: Key, b: Built, planned: bool)
    requires Possible(limit, trace + [Receive(k, b, planned)])
    ensures LastBuild(trace, k) == Some(b)
    ensures var all := trace + [Receive(k, b, planned)];
            var t := After(limit, all).keys;
            && (k in t.built <==> Planned(all, k) > Times(all, UseOf(k)))
            && (planned <==> Planned(trace, k) > Times(trace, UseOf(k)))
  {
    var all := trace + [Receive(k, b, planned)];
    assert all[..|all| - 1] == trace;
    EveryUseIsAccounted(limit, trace, k);
    EveryUseIsAccounted(limit, all, k);
    EveryRunIsSafe(limit, trace);
    EveryRunIsSafe(limit, all);
  }

  // ---- Progress ----

  predicate Blocked(limit: nat, s: System) {
    || (s.driver.Keeping? && s.keys.builds >= limit)
    || (s.driver.Taking? && s.driver.key !in s.keys.built)
  }

  ghost predicate WorkersStuck(limit: nat, s: System) {
    forall e | ByWorker(e) :: !Enabled(limit, s, e)
  }

  lemma FrontBusy(ws: seq<Worker>)
    requires ws != [] && ws[|ws| - 1].Busy? && OneEach(ws)
    ensures var front, k := ws[..|ws| - 1], ws[|ws| - 1].key;
      BusyKeys(ws) == BusyKeys(front) + {k} && k !in BusyKeys(front) && OneEach(front)
  {
    var n := |ws| - 1;
    var front := ws[..n];
    assert forall v | 0 <= v < n :: front[v] == ws[v];
    forall k ensures k in BusyKeys(ws) <==> k in BusyKeys(front) || k == ws[n].key {
      if k in BusyKeys(front) {
        var v :| 0 <= v < n && front[v] == Busy(k);
        assert ws[v] == Busy(k);
      }
      if k in BusyKeys(ws) && k != ws[n].key {
        var v :| 0 <= v < |ws| && ws[v] == Busy(k);
        assert front[v] == Busy(k);
      }
    }
  }

  /** As many busy workers as keys being built; some worker rests while fewer are. */
  lemma {:induction false} SomeoneRests(ws: seq<Worker>)
    requires |BusyKeys(ws)| < |ws| && forall w | 0 <= w < |ws| :: ws[w] != Left
    requires OneEach(ws)
    ensures exists w | 0 <= w < |ws| :: ws[w] == Resting
  {
    var n := |ws| - 1;
    if ws[n] != Resting {
      var front := ws[..n];
      FrontBusy(ws);
      hide BusyKeys, OneEach;
      SomeoneRests(front);
      var w :| 0 <= w < |front| && front[w] == Resting;
      assert ws[w] == Resting;
    }
  }

  /** A blocked driver waits for ever exactly when kept analyses alone fill the limit and nothing is being built. */
  lemma BlockedForEver(limit: nat, s: System)
    requires Inv(limit, s) && Blocked(limit, s)
    ensures WorkersStuck(limit, s) <==> s.kept >= limit && s.keys.building == {}
  {
    assert forall w | 0 <= w < |s.workers| && s.workers[w].Busy? :: s.workers[w].key in BusyKeys(s.workers);
    if s.keys.building != {} {
      var k :| k in s.keys.building;
      var w :| 0 <= w < |s.workers| && s.workers[w] == Busy(k);
      assert Enabled(limit, s, Finish(w, k, Failed("")));
      assert ByWorker(Finish(w, k, Failed("")));
    } else if s.kept < limit {
      assert Present(s.keys, s.driver.key);
      SomeoneRests(s.workers);
      var w :| 0 <= w < |s.workers| && s.workers[w] == Resting;
      assert Enabled(limit, s, Start(w, s.keys.queued[0]));
      assert ByWorker(Start(w, s.keys.queued[0]));
    } else {
      assert WorkersStuck(limit, s);
    }
  }

  function Employed(ws: seq<Worker>): nat {
    if ws == [] then 0 else Employed(ws[..|ws| - 1]) + if ws[|ws| - 1] == Left then 0 else 1
  }

  lemma {:induction false} EmployedAfter(ws: seq<Worker>, w: nat, now: Worker)
    requires w < |ws| && ws[w] != Left
    ensures Employed(ws[w := now]) == Employed(ws) - if now == Left then 1 else 0
  {
    var n := |ws| - 1;
    if w == n {
      assert ws[w := now][..n] == ws[..n];
    } else {
      assert ws[w := now][..n] == ws[..n][w := now];
      EmployedAfter(ws[..n], w, now);
    }
  }

  /** The steps to all builds: every queued key is two away, a key being built one. */
  function Waiting(s: System): nat {
    2 * |s.keys.queued| + |s.keys.building|
  }

  /** What the workers have left to do: the builds, and every worker leaves once. */
  function Remaining(s: System): nat {
    Waiting(s) + Employed(s.workers)
  }

  /** Every worker step is one step less to do, and is none of the driver's business. */
  lemma WorkerStepCounts(limit: nat, s: System, e: Event)
    requires Inv(limit, s) && ByWorker(e) && Enabled(limit, s, e)
    ensures var t := Next(limit, s, e);
            && Remaining(t) == Remaining(s) - 1 && t.driver == s.driver && t.kept == s.kept
            && (!s.keys.closed ==> Waiting(t) == Waiting(s) - 1)
  {
    var t := Next(limit, s, e);
    EmployedAfter(s.workers, e.worker, t.workers[e.worker]);
    if e.Start? {
      assert s.keys.queued[0] in s.keys.queued;
    } else if e.Finish? {
      assert s.workers[e.worker].key in BusyKeys(s.workers);
    }
  }

  ghost predicate AllByWorkers(more: seq<Event>) {
    forall i | 0 <= i < |more| :: ByWorker(more[i])
  }

  lemma {:induction false} WorkersRun(limit: nat, trace: seq<Event>, more: seq<Event>)
    requires Possible(limit, trace + more) && AllByWorkers(more)
    ensures Possible(limit, trace)
    ensures var s, t := After(limit, trace), After(limit, trace + more);
            && t.driver == s.driver && t.kept == s.kept && Remaining(t) == Remaining(s) - |more|
            && (!s.keys.closed ==> Waiting(t) == Waiting(s) - |more|)
  {
    if more == [] {
      assert trace + more == trace;
    } else {
      var front, e := more[..|more| - 1], more[|more| - 1];
      assert (trace + more)[..|trace + more| - 1] == trace + front;
      assert more == front + [e];
      WorkersRun(limit, trace, front);
      EveryRunIsSafe(limit, trace);
      EveryRunIsSafe(limit, trace + front);
      WorkerStepCounts(limit, After(limit, trace + front), e);
    }
  }

  /**
   * However the workers are scheduled, a driver waiting in `take` or for a
   * build of its own goes on: no run of worker steps is longer than the work
   * queued, and where no worker step is left the driver is no longer blocked.
   */
  lemma DriverGoesOn(limit: nat, trace: seq<Event>, more: seq<Event>)
    requires Possible(limit, trace + more) && AllByWorkers(more)
    requires Possible(limit, trace)
    requires After(limit, trace).kept < limit && Blocked(limit, After(limit, trace))
    ensures |more| <= Waiting(After(limit, trace))
    ensures WorkersStuck(limit, After(limit, trace + more)) ==> !Blocked(limit, After(limit, trace + more))
  {
    WorkersRun(limit, trace, more);
    EveryRunIsSafe(limit, trace);
    EveryRunIsSafe(limit, trace + more);
    var t := After(limit, trace + more);
    if Blocked(limit, t) {
      BlockedForEver(limit, t);
    }
  }

  /** The bases the driver asked to keep. */
  function Bases(trace: seq<Event>): nat {
    Times(trace, (e: Event) => e == Enter(true))
  }

  lemma {:induction false} KeptAreBases(limit: nat, trace: seq<Event>)
    requires Possible(limit, trace)
    ensures var s := After(limit, trace);
            s.driver == Failing || s.driver == Gone
            || s.kept + (if (s.driver.Keeping? || s.driver.Running?) && s.driver.base then 1 else 0) == Bases(trace)
  {
    if trace != [] {
      KeptAreBases(limit, trace[..|trace| - 1]);
    }
  }

  /** With two slots or more and one kept base, a waiting driver always goes on. */
  lemma OneBaseNeverBlocksTwoSlots(limit: nat, trace: seq<Event>, more: seq<Event>)
    requires limit >= 2 && Bases(trace) <= 1
    requires Possible(limit, trace) && Possible(limit, trace + more) && AllByWorkers(more)
    requires Blocked(limit, After(limit, trace))
    ensures |more| <= Waiting(After(limit, trace))
    ensures WorkersStuck(limit, After(limit, trace + more)) ==> !Blocked(limit, After(limit, trace + more))
  {
    KeptAreBases(limit, trace);
    DriverGoesOn(limit, trace, more);
  }

  /**
   * After the close every worker leaves, whatever the order: no longer run than the work at hand,
   * and none stays behind.
   */
  lemma WorkersLeave(limit: nat, trace: seq<Event>, more: seq<Event>)
    requires Possible(limit, trace + more) && AllByWorkers(more)
    requires Possible(limit, trace) && After(limit, trace).driver == Gone
    ensures |more| <= |After(limit, trace).keys.building| + Employed(After(limit, trace).workers)
    ensures var t := After(limit, trace + more);
            WorkersStuck(limit, t) <==> forall w | 0 <= w < |t.workers| :: t.workers[w] == Left
  {
    WorkersRun(limit, trace, more);
    EveryRunIsSafe(limit, trace);
    EveryRunIsSafe(limit, trace + more);
    var t := After(limit, trace + more);
    hide Possible, After, Next;
    StuckWhenLeft(limit, t);
  }

  /** Past the close workers are stuck exactly when all have left. */
  lemma StuckWhenLeft(limit: nat, t: System)
    requires Inv(limit, t) && t.driver == Gone
    ensures WorkersStuck(limit, t) <==> forall w | 0 <= w < |t.workers| :: t.workers[w] == Left
  {
    if w :| 0 <= w < |t.workers| && t.workers[w] != Left {
      var e := if t.workers[w] == Resting then Leave(w) else Finish(w, t.workers[w].key, Failed(""));
      if t.workers[w].Busy? {
        assert t.workers[w].key in BusyKeys(t.workers);
      }
      assert ByWorker(e) && Enabled(limit, t, e);
    }
  }

  /** No build begins among the first `n` events. */
  predicate NoStart(more: seq<Event>, n: nat)
    requires n <= |more|
  {
    forall i | 0 <= i < n :: !more[i].Start?
  }

  /**
   * An unplanned key goes before all that is planned and stays there, its take waiting, until a
   * build begins.
   */
  lemma {:induction false} UnplannedStartsFirst(limit: nat, trace: seq<Event>, k: Key, more: seq<Event>)
    requires Possible(limit, trace + [Ask(k)] + more) && NoStart(more, |more|)
    ensures Possible(limit, trace) && Possible(limit, trace + [Ask(k)])
    ensures var was, now := After(limit, trace).keys, After(limit, trace + [Ask(k)] + more);
      k !in was.uses ==> now.keys.queued == [k] + was.queued && now.driver == Taking(k) && !now.keys.closed
                         && k !in now.keys.building && k !in now.keys.built
    decreases |more|
  {
    var asked := trace + [Ask(k)];
    if more == [] {
      assert asked + more == asked;
      assert asked[..|asked| - 1] == trace;
      EveryRunIsSafe(limit, trace);
      assert Present(After(limit, trace).keys, k) ==> k in After(limit, trace).keys.uses;
    } else {
      var front := more[..|more| - 1];
      assert (asked + more)[..|asked + more| - 1] == asked + front;
      UnplannedStartsFirst(limit, trace, k, front);
      EveryRunIsSafe(limit, asked + front);
      var s, e := After(limit, asked + front), more[|more| - 1];
      assert (asked + more)[|asked + more| - 1] == e;
      assert After(limit, asked + more) == Next(limit, s, e);
      hide After, Possible, Next, Inv, Enabled;
      if k !in After(limit, trace).keys.uses {
        StaysAhead(limit, s, e, k);
      }
    }
  }

  lemma StaysAhead(limit: nat, s: System, e: Event, k: Key)
    requires Inv(limit, s) && Enabled(limit, s, e) && !e.Start?
    requires s.driver == Taking(k) && !s.keys.closed && k !in s.keys.building && k !in s.keys.built
    ensures var t := Next(limit, s, e);
      t.keys.queued == s.keys.queued && t.driver == s.driver && !t.keys.closed && k !in t.keys.building
      && k !in t.keys.built
  {
    if e.Finish? {
      assert s.workers[e.worker].key in BusyKeys(s.workers);
    }
  }

  /** Keeping a base, `n` times over. */
  function Keeps(n: nat): seq<Event> {
    if n == 0 then [] else Keeps(n - 1) + [Enter(true), Admit, Ran]
  }

  lemma {:induction false} KeepsRun(limit: nat, n: nat)
    requires n <= limit
    ensures Possible(limit, Keeps(n))
    ensures After(limit, Keeps(n)) == Kept(limit, n)
  {
    if n > 0 {
      KeepsRun(limit, n - 1);
      var t := Keeps(n - 1);
      var t1, t2 := t + [Enter(true)], t + [Enter(true)] + [Admit];
      assert Keeps(n) == t2 + [Ran];
      hide Keeps, Possible, After, Enabled, Next;
      KeepSteps(limit, n - 1);
      OneStep(limit, t, Enter(true));
      OneStep(limit, t1, Admit);
      OneStep(limit, t2, Ran);
    }
  }

  /** `n` bases kept and nothing else done. */
  function Kept(limit: nat, n: nat): System {
    Initial(limit).(kept := n, keys := Empty.(builds := n))
  }

  lemma KeepSteps(limit: nat, n: nat)
    requires n < limit
    ensures var s := Kept(limit, n);
      && Enabled(limit, s, Enter(true)) && Enabled(limit, Next(limit, s, Enter(true)), Admit)
      && Enabled(limit, Next(limit, Next(limit, s, Enter(true)), Admit), Ran)
      && Next(limit, Next(limit, Next(limit, s, Enter(true)), Admit), Ran) == Kept(limit, n + 1)
  {
  }

  lemma OneStep(limit: nat, trace: seq<Event>, e: Event)
    requires Possible(limit, trace) && Enabled(limit, After(limit, trace), e)
    ensures Possible(limit, trace + [e]) && After(limit, trace + [e]) == Next(limit, After(limit, trace), e)
  {
    assert (trace + [e])[..|trace|] == trace;
  }

  /** With as many kept bases as slots, the first take of anything waits for ever. */
  lemma FullOfBasesDeadlocks(limit: nat, k: Key)
    ensures var trace := Keeps(limit) + [Ask(k)];
            && Possible(limit, trace)
            && Blocked(limit, After(limit, trace)) && WorkersStuck(limit, After(limit, trace))
  {
    KeepsRun(limit, limit);
    var trace := Keeps(limit) + [Ask(k)];
    assert trace[..|trace| - 1] == Keeps(limit);
    EveryRunIsSafe(limit, trace);
    BlockedForEver(limit, After(limit, trace));
  }

  lemma SameFinish(s: Keys, t: Keys, k: Key, b: Built)
    requires s.builds > 0 && t.builds == s.builds - 1 && k !in t.building && Lookup(t.built, k) == Some(b)
    requires forall j | j != k :: (j in t.building <==> j in s.building) && Lookup(t.built, j) == Lookup(s.built, j)
    requires t.queued == s.queued && t.uses == s.uses && t.closed == s.closed
    ensures t == Finished(s, k, b)
  {
    assert t.building == s.building - {k};
    PutLookup(s.built, k, Some(b));
    SameLookups(t.built, s.built[k := b]);
  }

  lemma SameReceived(s: Keys, t: Keys, k: Key)
    requires k in s.built && forall j | j in s.uses :: s.uses[j] > 0
    requires Lookup(t.uses, k) == if Uses(s, k) > 1 then Some(s.uses[k] - 1) else None
    requires k in t.built <==> k in t.uses
    requires forall j | j != k || k in t.built :: Lookup(t.built, j) == Lookup(s.built, j)
    requires (forall j | j != k :: Lookup(t.uses, j) == Lookup(s.uses, j)) && t.queued == s.queued
      && t.building == s.building && t.builds == s.builds && t.closed == s.closed
    ensures t == Received(s, k)
  {
    var r := Received(s, k);
    SameLookups(t.uses, r.uses);
    SameLookups(t.built, r.built);
  }

  /** One event of a run carried out by the object's own methods, which see what the event says. */
  method Perform(keys: AnswerKeys, s: System, e: Event)
    requires Inv(keys.limit, s) && keys.State() == s.keys && Enabled(keys.limit, s, e)
    modifies keys
    ensures keys.State() == Next(keys.limit, s, e).keys
  {
    match e
    case Plan(ks) => keys.Plan(ks);
    case Admit =>
      var admitted := keys.Admit();
      assert admitted;
    case Ran =>
      if !s.driver.base {
        keys.Release();
      }
    case Ask(k) =>
      keys.Ask(k);
      assert keys.State() == Asked(s.keys, k);
    case Receive(k, b, _) =>
      var got := keys.Receive(k);
      assert got == Some(b);
      SameReceived(s.keys, keys.State(), k);
    case Close => keys.Close();
    case Start(_, k) =>
      var got := keys.Start();
      assert got == Some(k);
      assert keys.State() == Started(s.keys);
    case Finish(_, k, b) =>
      keys.Finish(k, b);
      SameFinish(s.keys, keys.State(), k, b);
    case _ =>
  }

  /** Every run of the protocol, carried out by the object, leaves it as the run says. */
  method Execute(limit: nat, trace: seq<Event>) returns (keys: AnswerKeys)
    requires Possible(limit, trace)
    ensures fresh(keys) && keys.limit == limit && keys.State() == After(limit, trace).keys
    decreases |trace|
  {
    if trace == [] {
      keys := new AnswerKeys(limit);
    } else {
      var before := trace[..|trace| - 1];
      keys := Execute(limit, before);
      EveryRunIsSafe(limit, before);
      Perform(keys, After(limit, before), trace[|trace| - 1]);
    }
  }
}
