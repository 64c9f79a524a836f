/** Pairing deletions with creations of the same text: which events of a batch are moves. */
module FileMoves {
  import opened Options
  import opened FileEvents

  datatype Move = Move(from: Uri, to: Uri, text: Text)

  /** What staging sees of the files: the id of every path a file has, and each id's newest text. */
  datatype Files = Files(ids: map<Uri, Id>, latest: map<Id, Option<Text>>)

  /** The text an event creates a file with, at a path no file has. */
  function Creates(v: Files, e: Event): Option<Text> {
    if e.uri in v.ids then None else e.text
  }

  /** The newest text of the file an event deletes. */
  function Deletes(v: Files, e: Event): Option<Text> {
    if e.text.Some? || e.uri !in v.ids || v.ids[e.uri] !in v.latest then None else v.latest[v.ids[e.uri]]
  }

  /** Where `events` create a file of text `t`, first one first. */
  function Creations(v: Files, events: seq<Event>, t: Text): seq<nat>
    decreases |events|
  {
    if events == [] then []
    else
      var n := |events| - 1;
      Creations(v, events[..n], t) + if Creates(v, events[n]) == Some(t) then [n] else []
  }

  /** How many files of text `t` the events delete. */
  function Deletions(v: Files, events: seq<Event>, t: Text): nat
    decreases |events|
  {
    if events == [] then 0
    else
      var n := |events| - 1;
      Deletions(v, events[..n], t) + if Deletes(v, events[n]) == Some(t) then 1 else 0
  }

  /** The creation a deletion pairs with: the `k`-th deletion of a text, the `k`-th creation of that text. */
  function Target(v: Files, events: seq<Event>, at: nat): Option<nat>
    requires at < |events|
  {
    match Deletes(v, events[at])
    case None => None
    case Some(t) =>
      var k, all := Deletions(v, events[..at], t), Creations(v, events, t);
      if k < |all| then Some(all[k]) else None
  }

  lemma {:induction false} CreationsAre(v: Files, events: seq<Event>, t: Text)
    ensures var all := Creations(v, events, t);
            && (forall k | 0 <= k < |all| :: all[k] < |events|)
            && (forall k | 0 <= k < |all| :: Creates(v, events[all[k]]) == Some(t))
            && (forall j, k | 0 <= j < k < |all| :: all[j] < all[k])
            && (forall i | 0 <= i < |events| && Creates(v, events[i]) == Some(t) :: i in all)
    decreases |events|
  {
    if events != [] {
      var n := |events| - 1;
      CreationsAre(v, events[..n], t);
      var front, all := Creations(v, events[..n], t), Creations(v, events, t);
      forall i | 0 <= i < |events| && Creates(v, events[i]) == Some(t) ensures i in all {
        if i < n {
          assert Creates(v, events[..n][i]) == Some(t);
          assert i in front;
        }
      }
    }
  }

  lemma {:induction false} DeletionsGrow(v: Files, events: seq<Event>, i: nat, j: nat, t: Text)
    requires i < j <= |events|
    ensures Deletions(v, events[..j], t) >= Deletions(v, events[..i], t) + if Deletes(v, events[i]) == Some(t) then 1
        else 0
    decreases j
  {
    assert events[..j][..j - 1] == events[..j - 1];
    if i < j - 1 {
      DeletionsGrow(v, events, i, j - 1, t);
    }
  }

  /** A later deletion of the same text pairs with a later creation. */
  lemma LaterTarget(v: Files, events: seq<Event>, i: nat, j: nat, t: Text)
    requires i < j < |events| && Deletes(v, events[i]) == Some(t) && Deletes(v, events[j]) == Some(t)
    requires Target(v, events, i).Some? && Target(v, events, j).Some?
    ensures Target(v, events, i).value < Target(v, events, j).value
  {
    CreationsAre(v, events, t);
    DeletionsGrow(v, events, i, j, t);
    hide Creations, Deletions;
  }

  lemma TargetCreates(v: Files, events: seq<Event>, i: nat)
    requires i < |events| && Target(v, events, i).Some?
    ensures var c := Target(v, events, i).value;
            c < |events| && Deletes(v, events[i]).Some? && Creates(v, events[c]) == Deletes(v, events[i])
  {
    var t := Deletes(v, events[i]).value;
    CreationAt(v, events, t, Deletions(v, events[..i], t));
    hide Creations, Deletions, Creates;
  }

  lemma {:induction false} CreationAt(v: Files, events: seq<Event>, t: Text, k: nat)
    requires k < |Creations(v, events, t)|
    ensures Creations(v, events, t)[k] < |events| && Creates(v, events[Creations(v, events, t)[k]]) == Some(t)
    decreases |events|
  {
    if events != [] {
      var front := Creations(v, events[..|events| - 1], t);
      if k < |front| {
        CreationAt(v, events[..|events| - 1], t, k);
      }
    }
  }

  /** A pair is of one text, and two pairs have different creations. */
  lemma TargetsAreApart(v: Files, events: seq<Event>, i: nat, j: nat)
    requires i < |events| && j < |events| && Target(v, events, i).Some?
    ensures var c := Target(v, events, i).value;
            c < |events| && Creates(v, events[c]) == Deletes(v, events[i]) && Deletes(v, events[i]).Some? && Target(v,
                events, c).None?
    ensures i != j ==> Target(v, events, j) != Target(v, events, i)
  {
    TargetCreates(v, events, i);
    if i != j && Target(v, events, j).Some? {
      TargetCreates(v, events, j);
      hide Target, Creates;
      var t, u := Deletes(v, events[i]).value, Deletes(v, events[j]).value;
      hide Deletes;
      if t == u && i < j {
        LaterTarget(v, events, i, j, t);
      } else if t == u {
        LaterTarget(v, events, j, i, t);
      }
    }
  }

  function Flat<T>(s: seq<Option<T>>): seq<T>
    decreases |s|
  {
    if s == [] then []
    else Flat(s[..|s| - 1]) + match s[|s| - 1] case Some(x) => [x] case None => []
  }

  lemma OneMore<T>(a: seq<T>, b: seq<T>, x: T, tail: seq<T>)
    requires multiset(a) == multiset(b) + multiset{x}
    ensures multiset(a + tail) == multiset(b + tail) + multiset{x}
  {
  }

  lemma {:induction false} TakeOne<T>(s: seq<Option<T>>, i: nat)
    requires i < |s| && s[i].Some?
    ensures multiset(Flat(s)) == multiset(Flat(s[i := None])) + multiset{s[i].value}
    decreases |s|
  {
    var n := |s| - 1;
    var front, taken := s[..n], s[i := None];
    var tail := match s[n] case Some(x) => [x] case None => [];
    assert Flat(s) == Flat(front) + tail;
    if i == n {
      assert taken[..n] == front;
      assert Flat(taken) == Flat(front) + [];
    } else {
      assert taken[..n] == front[i := None] && taken[n] == s[n];
      assert Flat(taken) == Flat(front[i := None]) + tail;
      hide Flat;
      TakeOne(front, i);
      OneMore(Flat(front), Flat(front[i := None]), s[i].value, tail);
    }
  }

  /** The events a list of moves stands for. */
  function Halves(moves: seq<Move>): seq<Event>
    decreases |moves|
  {
    if moves == [] then []
    else
      var m := moves[|moves| - 1];
      Halves(moves[..|moves| - 1]) + [Event(m.from, None), Event(m.to, Some(m.text))]
  }

  lemma HalvesNext(moves: seq<Move>, m: Move)
    ensures multiset(Halves(moves + [m])) == multiset(Halves(moves)) + multiset{Event(m.from,
        None)} + multiset{Event(m.to, Some(m.text))}
  {
    assert (moves + [m])[..|moves|] == moves;
  }

  /** A move joins the deletion of a file and the creation of its text where no file is. */
  predicate Sound(v: Files, m: Move) {
    m.from in v.ids && Lookup(v.latest, v.ids[m.from]) == Some(Some(m.text)) && m.to !in v.ids
  }

  lemma CreationsNext(v: Files, events: seq<Event>, at: nat, t: Text)
    requires at < |events|
    ensures Creations(v, events[..at + 1], t)
         == Creations(v, events[..at], t) + if Creates(v, events[at]) == Some(t) then [at] else []
  {
    assert events[..at + 1][..at] == events[..at];
  }

  /** The creations of every text, queued in order. */
  method QueueCreations(v: Files, events: seq<Event>) returns (creations: map<Text, seq<nat>>)
    ensures forall t :: Creations(v, events, t) == if t in creations then creations[t] else []
  {
    creations := map[];
    assert forall t :: Creations(v, events[..0], t) == [];
    hide Creations;
    for at := 0 to |events|
      invariant forall t :: Creations(v, events[..at], t) == if t in creations then creations[t] else []
    {
      forall t ensures Creations(v, events[..at + 1], t)
          == Creations(v, events[..at], t) + if Creates(v, events[at]) == Some(t) then [at] else [] {
        CreationsNext(v, events, at, t);
      }
      match events[at].text
      case Some(text) =>
        if events[at].uri !in v.ids {
          creations := creations[text := (if text in creations then creations[text] else []) + [at]];
        }
      case None =>
    }
    assert events[..|events|] == events;
  }

  method Pair(v: Files, events: seq<Event>) returns (movedTo: seq<Option<nat>>)
    ensures |movedTo| == |events| && forall i | 0 <= i < |events| :: movedTo[i] == Target(v, events, i)
  {
    var creations := QueueCreations(v, events);
    assert Queued(v, events, 0, creations) by {
      forall t ensures Waiting(v, events, 0, t) == QueueOf(creations, t) {
        WaitingAll(v, events, t);
      }
    }
    hide Queued, Target;
    movedTo := [];
    for at := 0 to |events|
      invariant |movedTo| == at && forall i | 0 <= i < at :: movedTo[i] == Target(v, events, i)
      invariant Queued(v, events, at, creations)
    {
      PopNext(v, events, at, creations);
      var found := None;
      match Deletes(v, events[at]) {
        case Some(t) =>
          if t in creations && creations[t] != [] {
            found := Some(creations[t][0]);
            creations := creations[t := creations[t][1..]];
          }
        case None =>
      }
      movedTo := movedTo + [found];
    }
  }

  function QueueOf(creations: map<Text, seq<nat>>, t: Text): seq<nat> {
    if t in creations then creations[t] else []
  }

  /** Every text's queue holds the creations the deletions before `at` leave. */
  ghost predicate Queued(v: Files, events: seq<Event>, at: nat, creations: map<Text, seq<nat>>)
    requires at <= |events|
  {
    forall t :: Waiting(v, events, at, t) == QueueOf(creations, t)
  }

  lemma PopNext(v: Files, events: seq<Event>, at: nat, creations: map<Text, seq<nat>>)
    requires at < |events| && Queued(v, events, at, creations)
    ensures match Deletes(v, events[at])
            case None => Target(v, events, at) == None && Queued(v, events, at + 1, creations)
            case Some(t) =>
              if t in creations && creations[t] != []
              then Target(v, events, at) == Some(creations[t][0]) && Queued(v, events, at + 1,
                  creations[t := creations[t][1..]])
              else Target(v, events, at) == None && Queued(v, events, at + 1, creations)
  {
    WaitingFirst(v, events, at);
    forall t
      ensures var w := Waiting(v, events, at, t);
              Waiting(v, events, at + 1, t) == if Deletes(v, events[at]) == Some(t) && w != [] then w[1..] else w
    {
      WaitingNext(v, events, at, t);
    }
    hide Waiting, Target;
  }

  /** The creations of `t` the deletions before `at` leave. */
  function Waiting(v: Files, events: seq<Event>, at: nat, t: Text): seq<nat>
    requires at <= |events|
  {
    var k, all := Deletions(v, events[..at], t), Creations(v, events, t);
    if k < |all| then all[k..] else []
  }

  lemma WaitingNext(v: Files, events: seq<Event>, at: nat, t: Text)
    requires at < |events|
    ensures var w := Waiting(v, events, at, t);
            Waiting(v, events, at + 1, t) == if Deletes(v, events[at]) == Some(t) && w != [] then w[1..] else w
  {
    assert events[..at + 1][..at] == events[..at];
  }

  lemma WaitingFirst(v: Files, events: seq<Event>, at: nat)
    requires at < |events|
    ensures Target(v, events, at) == match Deletes(v, events[at])
                                     case None => None
                                     case Some(t) => var w := Waiting(v, events, at,
                                         t); if w == [] then None else Some(w[0])
  {
  }

  lemma WaitingAll(v: Files, events: seq<Event>, t: Text)
    ensures Waiting(v, events, 0, t) == Creations(v, events, t)
  {
  }

  /** Whether `i` is in a pair of one of the first `at` events. */
  ghost predicate Taken(v: Files, events: seq<Event>, at: nat, i: nat)
    requires at <= |events| && i < |events|
  {
    (i < at && Target(v, events, i).Some?) || exists j: nat | j < at :: Target(v, events, j) == Some(i)
  }

  lemma NotTakenYet(v: Files, events: seq<Event>, at: nat)
    requires at < |events| && Target(v, events, at).Some?
    ensures var c := Target(v, events, at).value;
            && c < |events| && c != at && !Taken(v, events, at, at) && !Taken(v, events, at, c)
            && events[at].text.None? && Sound(v, Move(events[at].uri, events[c].uri, Deletes(v, events[at]).value))
            && events[c].text == Deletes(v, events[at])
            && (forall i: nat | i < |events| ::
                  Taken(v, events, at + 1, i) <==> Taken(v, events, at, i) || i == at || i == c)
  {
    var c := Target(v, events, at).value;
    TargetsAreApart(v, events, at, at);
    forall j: nat | j < at ensures Target(v, events, j) != Some(at) && Target(v, events, j) != Some(c) {
      TargetsAreApart(v, events, at, j);
      if Target(v, events, j).Some? {
        TargetsAreApart(v, events, j, j);
      }
    }
    hide Target;
    forall i: nat | i < |events| ensures Taken(v, events, at + 1, i) <==> Taken(v, events, at, i) || i == at || i == c {
      if i == c {
        assert Target(v, events, at) == Some(c);
      } else if Taken(v, events, at + 1, i) && i != at && !(i < at && Target(v, events, i).Some?) {
        var j: nat :| j < at + 1 && Target(v, events, j) == Some(i);
        assert j < at;
      }
    }
  }

  lemma NothingTaken(v: Files, events: seq<Event>, at: nat)
    requires at < |events| && Target(v, events, at).None?
    ensures forall i: nat | i < |events| :: Taken(v, events, at + 1, i) <==> Taken(v, events, at, i)
  {
    hide Target;
  }

  lemma {:induction false} FlatMember<T>(s: seq<Option<T>>, x: T)
    ensures x in Flat(s) <==> Some(x) in s
    decreases |s|
  {
    if s != [] {
      FlatMember(s[..|s| - 1], x);
      assert s == s[..|s| - 1] + [s[|s| - 1]];
    }
  }

  lemma {:induction false} FlatWhole<T>(s: seq<T>, o: seq<Option<T>>)
    requires |o| == |s| && forall i | 0 <= i < |s| :: o[i] == Some(s[i])
    ensures Flat(o) == s
    decreases |s|
  {
    if s != [] {
      FlatWhole(s[..|s| - 1], o[..|s| - 1]);
    }
  }

  lemma {:induction false} NthDeletion(v: Files, events: seq<Event>, at: nat, t: Text, m: nat) returns (j: nat)
    requires at <= |events| && m < Deletions(v, events[..at], t)
    ensures j < at && Deletes(v, events[j]) == Some(t) && Deletions(v, events[..j], t) == m
    decreases at
  {
    assert events[..at][..at - 1] == events[..at - 1];
    if m < Deletions(v, events[..at - 1], t) {
      j := NthDeletion(v, events, at - 1, t, m);
    } else {
      j := at - 1;
    }
  }

  /** What is left unpaired is not two halves of a move. */
  lemma NoPairLeft(v: Files, events: seq<Event>, i: nat, c: nat)
    requires i < |events| && c < |events| && Deletes(v, events[i]).Some?
      && Creates(v, events[c]) == Deletes(v, events[i])
    ensures Taken(v, events, |events|, i) || Taken(v, events, |events|, c)
  {
    var t := Deletes(v, events[i]).value;
    if Target(v, events, i).None? {
      CreationsAre(v, events, t);
      var all := Creations(v, events, t);
      var m :| 0 <= m < |all| && all[m] == c;
      var j := NthDeletion(v, events, i, t, m);
      assert Target(v, events, j) == Some(c);
    }
  }

  lemma TakeTwo(left: seq<Option<Event>>, at: nat, c: nat, m: Move, moves: seq<Move>, events: seq<Event>)
    requires at < |left| && c < |left| && at != c
    requires left[at] == Some(Event(m.from, None)) && left[c] == Some(Event(m.to, Some(m.text)))
    requires multiset(events) == multiset(Flat(left)) + multiset(Halves(moves))
    ensures multiset(events) == multiset(Flat(left[at := None][c := None])) + multiset(Halves(moves + [m]))
  {
    hide *;
    TakeOne(left, at);
    TakeOne(left[at := None], c);
    HalvesNext(moves, m);
  }

  /** The moves the first `at` events are paired in. */
  function Moves(v: Files, events: seq<Event>, at: nat): seq<Move>
    requires at <= |events|
  {
    if at == 0 then []
    else
      match Target(v, events, at - 1)
      case None => Moves(v, events, at - 1)
      case Some(c) =>
        TargetCreates(v, events, at - 1);
        Moves(v, events, at - 1) + [Move(events[at - 1].uri, events[c].uri, events[c].text.value)]
  }

  lemma MovesNext(v: Files, events: seq<Event>, at: nat)
    requires at < |events|
    ensures Target(v, events, at).None? ==> Moves(v, events, at + 1) == Moves(v, events, at)
    ensures Target(v, events, at).Some? ==>
              var c := Target(v, events, at).value;
              && c < |events| && events[c].text.Some?
              && Moves(v, events, at + 1)
                  == Moves(v, events, at) + [Move(events[at].uri, events[c].uri, events[c].text.value)]
  {
    if Target(v, events, at).Some? {
      TargetCreates(v, events, at);
    }
    hide Target;
  }

  /** The events with those taken out that one of the first `at` is paired with. */
  ghost function LeftOver(v: Files, events: seq<Event>, at: nat): (left: seq<Option<Event>>)
    requires at <= |events|
    ensures |left| == |events|
    ensures forall i: nat | i < |events| :: left[i] == if Taken(v, events, at, i) then None else Some(events[i])
  {
    seq(|events|, i requires 0 <= i < |events| => if Taken(v, events, at, i) then None else Some(events[i]))
  }

  /** The events in no pair, in order. */
  ghost function Unpaired(v: Files, events: seq<Event>): seq<Event> {
    Flat(LeftOver(v, events, |events|))
  }

  lemma LeftAll(v: Files, events: seq<Event>, left: seq<Option<Event>>)
    requires |left| == |events| && forall i | 0 <= i < |events| :: left[i] == Some(events[i])
    ensures left == LeftOver(v, events, 0)
  {
    hide Target;
  }

  lemma LeftNext(v: Files, events: seq<Event>, at: nat)
    requires at < |events|
    ensures Target(v, events, at).None? ==> LeftOver(v, events, at + 1) == LeftOver(v, events, at)
    ensures Target(v, events, at).Some? ==>
              var c := Target(v, events, at).value;
              c < |events| && LeftOver(v, events, at + 1) == LeftOver(v, events, at)[at := None][c := None]
  {
    if Target(v, events, at).Some? {
      NotTakenYet(v, events, at);
    } else {
      NothingTaken(v, events, at);
    }
    hide Taken, Target;
  }

  /** The first `at` events' moves and what is left hold every event once, and every move is sound. */
  ghost predicate PairedTo(v: Files, events: seq<Event>, at: nat)
    requires at <= |events|
  {
    && multiset(events) == multiset(Flat(LeftOver(v, events, at))) + multiset(Halves(Moves(v, events, at)))
    && (forall m | m in Moves(v, events, at) :: Sound(v, m))
  }

  lemma {:induction false} Paired(v: Files, events: seq<Event>, at: nat)
    requires at <= |events|
    ensures PairedTo(v, events, at)
    decreases at
  {
    hide *;
    if at == 0 {
      PairedNone(v, events);
    } else {
      Paired(v, events, at - 1);
      PairedNext(v, events, at - 1);
    }
  }

  lemma PairedNone(v: Files, events: seq<Event>)
    ensures PairedTo(v, events, 0)
  {
    var all := seq(|events|, i requires 0 <= i < |events| => Some(events[i]));
    LeftAll(v, events, all);
    FlatWhole(events, all);
    hide LeftOver, Taken, Flat, Sound;
    assert Halves([]) == [];
  }

  lemma PairedNext(v: Files, events: seq<Event>, at: nat)
    requires at < |events| && PairedTo(v, events, at)
    ensures PairedTo(v, events, at + 1)
  {
    MovesNext(v, events, at);
    LeftNext(v, events, at);
    hide Moves, LeftOver, Flat, Halves, Taken, Target, Sound, Creates, Deletes;
    if Target(v, events, at).Some? {
      var c := Target(v, events, at).value;
      NotTakenYet(v, events, at);
      TakeTwo(LeftOver(v, events, at), at, c, Move(events[at].uri, events[c].uri, events[c].text.value),
          Moves(v, events, at), events);
    }
  }

  /** `d` deletes a file whose newest text `c` creates at a path no file has. */
  ghost predicate AreAMove(v: Files, d: Event, c: Event) {
    && d.text == None && d.uri in v.ids && c.text.Some? && c.uri !in v.ids
    && v.ids[d.uri] in v.latest && v.latest[v.ids[d.uri]] == c.text
  }

  lemma MovesAre(v: Files, d: Event, c: Event)
    ensures AreAMove(v, d, c) <==> Deletes(v, d).Some? && Creates(v, c) == Deletes(v, d)
  {
  }

  /** The moves among the events and the rest: every event is in one of them, and no two halves of a move are left. */
  method PairMoves(v: Files, events: seq<Event>) returns (moves: seq<Move>, rest: seq<Event>)
    ensures moves == Moves(v, events, |events|) && rest == Unpaired(v, events)
    ensures multiset(events) == multiset(rest) + multiset(Halves(moves))
    ensures forall m | m in moves :: Sound(v, m)
    ensures forall d, c | d in rest && c in rest :: !AreAMove(v, d, c)
  {
    hide Target, Taken, Flat, Halves, Sound, Deletes, Creates, LeftOver;
    var movedTo := Pair(v, events);
    var left := seq(|events|, i requires 0 <= i < |events| => Some(events[i]));
    LeftAll(v, events, left);
    moves := [];
    for at := 0 to |events|
      invariant left == LeftOver(v, events, at) && moves == Moves(v, events, at)
    {
      LeftNext(v, events, at);
      MovesNext(v, events, at);
      match movedTo[at]
      case Some(created) =>
        moves := moves + [Move(events[at].uri, events[created].uri, events[created].text.value)];
        left := left[at := None][created := None];
      case None =>
    }
    rest := Flat(left);
    Paired(v, events, |events|);
    NoneLeft(v, events, left);
    hide AreAMove;
    forall d, c | d in rest && c in rest ensures !AreAMove(v, d, c) {
      MovesAre(v, d, c);
    }
  }

  lemma NoneLeft(v: Files, events: seq<Event>, left: seq<Option<Event>>)
    requires |left| == |events|
    requires forall i: nat | i < |events| :: left[i] == if Taken(v, events, |events|, i) then None else Some(events[i])
    ensures forall d, c | d in Flat(left) && c in Flat(left) && Deletes(v, d).Some? :: Creates(v, c) != Deletes(v, d)
  {
    hide Taken, Deletes, Creates, Flat;
    forall d, c | d in Flat(left) && c in Flat(left) && Deletes(v, d).Some? ensures Creates(v, c) != Deletes(v, d) {
      FlatMember(left, d);
      FlatMember(left, c);
      var i: nat :| i < |left| && left[i] == Some(d);
      var k: nat :| k < |left| && left[k] == Some(c);
      if Creates(v, c) == Deletes(v, d) {
        NoPairLeft(v, events, i, k);
      }
    }
  }
}
