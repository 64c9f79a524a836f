/** Staging a batch into moves and writes, and exactly when that means what the batch says. */
module FileStaging {
  import opened Options
  import opened StableSort
  import opened FileEvents
  import opened FileMoves

  /** Every path's text, staged or taken. */
  function TextsOf(v: Files): map<Uri, Text> {
    map u | u in v.ids && v.ids[u] in v.latest && v.latest[v.ids[u]].Some? :: v.latest[v.ids[u]].value
  }

  /** Every id is of one path and has a text or a staged deletion. */
  ghost predicate Filed(v: Files, next: Id) {
    && (forall u | u in v.ids :: v.ids[u] in v.latest && v.ids[u] < next)
    && (forall u, w | u in v.ids && w in v.ids && v.ids[u] == v.ids[w] :: u == w)
  }

  lemma StagedText(v: Files, next: Id, u: Uri, id: Id, text: Option<Text>)
    requires Filed(v, next) && (Lookup(v.ids, u) == Some(id) || (u !in v.ids && id == next))
    ensures var w := Files(v.ids[u := id], v.latest[id := text]);
            Filed(w, if id == next then next + 1 else next) && TextsOf(w) == Put(TextsOf(v), u, text)
  {
    var w := Files(v.ids[u := id], v.latest[id := text]);
    assert Filed(w, if id == next then next + 1 else next);
    PutLookup(TextsOf(v), u, text);
    forall j ensures Lookup(TextsOf(w), j) == if j == u then text else Lookup(TextsOf(v), j) {
      StagedLookup(v, next, u, id, text, j);
    }
    hide TextsOf, Filed, Put, Lookup;
    SameLookups(TextsOf(w), Put(TextsOf(v), u, text));
  }

  lemma StagedLookup(v: Files, next: Id, u: Uri, id: Id, text: Option<Text>, j: Uri)
    requires Filed(v, next) && (Lookup(v.ids, u) == Some(id) || (u !in v.ids && id == next))
    ensures Lookup(TextsOf(Files(v.ids[u := id], v.latest[id := text])), j) == if j == u then text
        else Lookup(TextsOf(v), j)
  {
  }

  lemma LeftPath(v: Files, next: Id, u: Uri)
    requires Filed(v, next) && u in v.ids
    ensures var w := Files(v.ids - {u}, v.latest);
            Filed(w, next) && TextsOf(w) == Put(TextsOf(v), u, None)
  {
  }

  lemma MovedText(v: Files, next: Id, m: Move)
    requires Filed(v, next) && m.from in v.ids && m.to !in v.ids
    ensures var id := v.ids[m.from];
            var w := Files((v.ids - {m.from})[m.to := id], v.latest[id := Some(m.text)]);
            Filed(w, next) && TextsOf(w) == Put(Put(TextsOf(v), m.from, None), m.to, Some(m.text))
  {
    var id := v.ids[m.from];
    var w := Files((v.ids - {m.from})[m.to := id], v.latest[id := Some(m.text)]);
    assert Filed(w, next);
    LeftPath(v, next, m.from);
    var left := Put(TextsOf(v), m.from, None);
    forall j ensures Lookup(TextsOf(w), j) == Lookup(Put(left, m.to, Some(m.text)), j) {
      PutLookup(TextsOf(v), m.from, None);
      PutLookup(left, m.to, Some(m.text));
    }
    SameLookups(TextsOf(w), Put(left, m.to, Some(m.text)));
  }

  /** A file moved under its id, unless there is none or another is in the way. */
  function MoveOne(v: Files, m: Move): Files {
    if m.from !in v.ids || m.to in v.ids then v
    else Files((v.ids - {m.from})[m.to := v.ids[m.from]], v.latest[v.ids[m.from] := Some(m.text)])
  }

  /** The first `n` moves, one after another. */
  function MoveAll(v: Files, moves: seq<Move>, n: nat): Files
    requires n <= |moves|
  {
    if n == 0 then v else MoveOne(MoveAll(v, moves, n - 1), moves[n - 1])
  }

  lemma NoTextThere(v: Files, u: Uri)
    requires u !in v.ids
    ensures TextsOf(v) == Put(TextsOf(v), u, None)
  {
  }

  /** The paths the first `n` moves name. */
  function Named(moves: seq<Move>, n: nat): set<Uri>
    requires n <= |moves|
  {
    if n == 0 then {} else Named(moves, n - 1) + {moves[n - 1].from, moves[n - 1].to}
  }

  lemma {:induction false} NamedHas(moves: seq<Move>, n: nat, k: nat)
    requires k < n <= |moves|
    ensures moves[k].from in Named(moves, n) && moves[k].to in Named(moves, n)
    decreases n
  {
    if k < n - 1 {
      NamedHas(moves, n - 1, k);
    }
  }

  lemma {:induction false} NamedIn(moves: seq<Move>, n: nat, u: Uri) returns (k: nat)
    requires n <= |moves| && u in Named(moves, n)
    ensures k < n && (u == moves[k].from || u == moves[k].to)
    decreases n
  {
    if u == moves[n - 1].from || u == moves[n - 1].to {
      k := n - 1;
    } else {
      k := NamedIn(moves, n - 1, u);
    }
  }

  /** The moves name every path once. */
  ghost predicate EachOnce(moves: seq<Move>) {
    forall k | 0 <= k < |moves|
        :: moves[k].from != moves[k].to && moves[k].from !in Named(moves, k) && moves[k].to !in Named(moves, k)
  }

  /** The file `id` of a move left its old path and is alone at the new one. */
  predicate Rehomed(before: map<Uri, Id>, now: map<Uri, Id>, m: Move, id: Id) {
    && Lookup(before, m.from) == Some(id) && Lookup(now, m.from) == None
    && Lookup(before, m.to) == None && Lookup(now, m.to) == Some(id)
  }

  /** The files of the first `n` moves are at their new paths under their ids; nothing else moved. */
  ghost predicate Moved(before: map<Uri, Id>, now: map<Uri, Id>, moves: seq<Move>, n: nat, changed: seq<Id>) {
    && |changed| == n <= |moves|
    && (forall k | 0 <= k < n :: Rehomed(before, now, moves[k], changed[k]))
    && (forall u | u !in Named(moves, n) :: Lookup(now, u) == Lookup(before, u))
  }

  lemma StaysRehomed(before: map<Uri, Id>, now: map<Uri, Id>, later: map<Uri, Id>, m: Move, id: Id)
    requires Rehomed(before, now, m, id) && Lookup(later, m.from) == Lookup(now, m.from)
      && Lookup(later, m.to) == Lookup(now, m.to)
    ensures Rehomed(before, later, m, id)
  {
  }

  /** A move of paths named once leaves the moves before it as they are. */
  lemma EarlierMovesStay(before: map<Uri, Id>, now: map<Uri, Id>, later: map<Uri, Id>, moves: seq<Move>, i: nat,
                         changed: seq<Id>, k: nat)
    requires k < i < |moves| && EachOnce(moves) && Moved(before, now, moves, i, changed)
    requires forall u | u != moves[i].from && u != moves[i].to :: Lookup(later, u) == Lookup(now, u)
    ensures Rehomed(before, later, moves[k], changed[k])
  {
    NamedHas(moves, i, k);
    var a, b := moves[k], moves[i];
    assert a.from != b.from && a.from != b.to && a.to != b.from && a.to != b.to;
    hide Named, EachOnce;
    assert Rehomed(before, now, a, changed[k]);
    StaysRehomed(before, now, later, a, changed[k]);
  }

  lemma MovedNext(before: map<Uri, Id>, now: map<Uri, Id>, later: map<Uri, Id>, moves: seq<Move>, i: nat,
                  changed: seq<Id>, id: Id)
    requires i < |moves| && EachOnce(moves) && Moved(before, now, moves, i, changed)
    requires Lookup(before, moves[i].from) == Some(id) && Lookup(before, moves[i].to) == None
    requires forall u ::
            Lookup(later, u)
              == if u == moves[i].to then Some(id) else if u == moves[i].from then None else Lookup(now, u)
    ensures Moved(before, later, moves, i + 1, changed + [id])
  {
    hide *;
    var all := changed + [id];
    assert |changed| == i by {
      MovedCount(before, now, moves, i, changed);
    }
    forall k | 0 <= k < i + 1 ensures Rehomed(before, later, moves[k], all[k]) {
      if k < i {
        EarlierMovesStay(before, now, later, moves, i, changed, k);
      } else {
        MovedNow(before, later, moves, i, id);
      }
    }
    OthersUnmoved(before, now, later, moves, i, changed);
    MovedWhole(before, later, moves, i + 1, all);
  }

  lemma MovedCount(before: map<Uri, Id>, now: map<Uri, Id>, moves: seq<Move>, n: nat, changed: seq<Id>)
    requires Moved(before, now, moves, n, changed)
    ensures |changed| == n
  {
  }

  lemma MovedNow(before: map<Uri, Id>, later: map<Uri, Id>, moves: seq<Move>, i: nat, id: Id)
    requires i < |moves| && EachOnce(moves)
    requires Lookup(before, moves[i].from) == Some(id) && Lookup(before, moves[i].to) == None
    requires Lookup(later, moves[i].to) == Some(id)
      && (moves[i].from != moves[i].to ==> Lookup(later, moves[i].from) == None)
    ensures Rehomed(before, later, moves[i], id)
  {
    hide Lookup, Named;
  }

  lemma OthersUnmoved(before: map<Uri, Id>, now: map<Uri, Id>, later: map<Uri, Id>, moves: seq<Move>, i: nat,
                      changed: seq<Id>)
    requires i < |moves| && Moved(before, now, moves, i, changed)
    requires forall u | u != moves[i].from && u != moves[i].to :: Lookup(later, u) == Lookup(now, u)
    ensures forall u | u !in Named(moves, i + 1) :: Lookup(later, u) == Lookup(before, u)
  {
    hide Lookup, Rehomed;
    assert Named(moves, i + 1) == Named(moves, i) + {moves[i].from, moves[i].to};
    hide Named;
  }

  lemma MovedWhole(before: map<Uri, Id>, now: map<Uri, Id>, moves: seq<Move>, n: nat, changed: seq<Id>)
    requires |changed| == n <= |moves| && (forall k | 0 <= k < n :: Rehomed(before, now, moves[k], changed[k]))
    requires forall u | u !in Named(moves, n) :: Lookup(now, u) == Lookup(before, u)
    ensures Moved(before, now, moves, n, changed)
  {
  }

  lemma StillToMove(before: map<Uri, Id>, now: map<Uri, Id>, moves: seq<Move>, i: nat, changed: seq<Id>)
    requires i < |moves| && EachOnce(moves) && Moved(before, now, moves, i, changed)
    requires moves[i].from in before && moves[i].to !in before
    ensures Lookup(now, moves[i].from) == Lookup(before, moves[i].from) && moves[i].to !in now
  {
    hide Named;
    assert Lookup(now, moves[i].to) == Lookup(before, moves[i].to);
  }

  ghost predicate AllSound(v: Files, moves: seq<Move>) {
    forall k | 0 <= k < |moves| :: Sound(v, moves[k])
  }

  lemma SoundAll(v: Files, moves: seq<Move>)
    requires forall m | m in moves :: Sound(v, m)
    ensures AllSound(v, moves)
  {
  }

  lemma NothingMoved(before: map<Uri, Id>, moves: seq<Move>)
    ensures Moved(before, before, moves, 0, [])
  {
  }

  /** The next of moves that name every path once is not refused. */
  lemma MovedOne(before: Files, now: map<Uri, Id>, later: map<Uri, Id>, moves: seq<Move>, i: nat, changed: seq<Id>,
                 id: Option<Id>)
    requires i < |moves| && EachOnce(moves) && AllSound(before, moves) && Moved(before.ids, now, moves, i, changed)
    requires id.None? <==> moves[i].from !in now || moves[i].to in now
    requires id.Some? ==> id.value == now[moves[i].from] && later == (now - {moves[i].from})[moves[i].to := id.value]
    ensures id.Some? && Moved(before.ids, later, moves, i + 1, changed + [id.value])
  {
    assert Sound(before, moves[i]);
    StillToMove(before.ids, now, moves, i, changed);
    hide Moved, EachOnce, AllSound;
    MovedNext(before.ids, now, later, moves, i, changed, id.value);
  }

  class Vfs {
    var ids: map<Uri, Id>
    var latest: map<Id, Option<Text>>
    var next: Id

    function Seen(): Files
      reads this
    {
      Files(ids, latest)
    }

    ghost predicate Valid()
      reads this
    {
      Filed(Seen(), next)
    }

    ghost function Texts(): map<Uri, Text>
      reads this
    {
      TextsOf(Seen())
    }

    constructor ()
      ensures Valid() && Texts() == map[]
    {
      ids, latest, next := map[], map[], 0;
    }

    /** Moves the id along; refused when nothing is at `from` or something is at `to`. */
    method MoveFile(from: Uri, to: Uri, text: Text) returns (id: Option<Id>)
      requires Valid()
      modifies this
      ensures Valid() && next == old(next) && Seen() == MoveOne(old(Seen()), Move(from, to, text))
      ensures id.None? <==> from !in old(ids) || to in old(ids)
      ensures id.Some? ==> id.value == old(ids)[from] && ids == (old(ids) - {from})[to := id.value]
      ensures id.Some? ==> Texts() == Put(Put(old(Texts()), from, None), to, Some(text))
    {
      hide TextsOf, Filed;
      if from !in ids || to in ids {
        return None;
      }
      MovedText(Seen(), next, Move(from, to, text));
      id := Some(ids[from]);
      ids := ids - {from};
      ids := ids[to := id.value];
      latest := latest[id.value := Some(text)];
    }

    method SetFileContent(uri: Uri, text: Option<Text>) returns (id: Id)
      requires Valid()
      modifies this
      ensures Valid() && Texts() == Put(old(Texts()), uri, text)
      ensures ids == old(ids)[uri := id] && (uri in old(ids) ==> id == old(ids)[uri])
    {
      id := if uri in ids then ids[uri] else next;
      StagedText(Seen(), next, uri, id, text);
      if uri !in ids {
        next := next + 1;
      }
      ids := ids[uri := id];
      latest := latest[id := text];
    }

    method DeleteFileContent(uri: Uri) returns (id: Option<Id>)
      requires Valid()
      modifies this
      ensures Valid() && Texts() == Put(old(Texts()), uri, None)
      ensures ids == old(ids) && id == Lookup(ids, uri)
    {
      hide TextsOf, Filed;
      if uri !in ids {
        NoTextThere(Seen(), uri);
        return None;
      }
      var fid := SetFileContent(uri, None);
      id := Some(fid);
    }

    /** Moves that name every path once and are sound are none refused, and each file keeps its id. */
    method ApplyMoves(moves: seq<Move>) returns (changed: seq<Id>)
      requires Valid()
      modifies this
      ensures Valid() && next == old(next) && Seen() == MoveAll(old(Seen()), moves, |moves|)
      ensures EachOnce(moves) && AllSound(old(Seen()), moves) ==> Moved(old(ids), ids, moves, |moves|, changed)
    {
      changed := [];
      ghost var before := Seen();
      ghost var good := EachOnce(moves) && AllSound(before, moves);
      NothingMoved(before.ids, moves);
      hide TextsOf, Filed, Moved, EachOnce, AllSound, MoveOne;
      for i := 0 to |moves|
        invariant Valid() && next == old(next) && Seen() == MoveAll(before, moves, i)
        invariant good ==> Moved(before.ids, ids, moves, i, changed)
      {
        ghost var now := ids;
        var id := MoveFile(moves[i].from, moves[i].to, moves[i].text);
        if good {
          MovedOne(before, now, ids, moves, i, changed, id);
        }
        changed := changed + (match id case Some(fid) => [fid] case None => []);
      }
    }

    /** The events that are not moves, one after another. */
    method ApplyRest(rest: seq<Event>) returns (changed: seq<Id>)
      requires Valid()
      modifies this
      ensures Valid() && Texts() == ApplyAll(old(Texts()), rest)
      ensures Wrote(old(ids), ids, rest, changed)
    {
      changed := [];
      ghost var before := Seen();
      hide TextsOf, Filed;
      for i := 0 to |rest|
        invariant Valid() && Texts() == ApplyAll(TextsOf(before), rest[..i])
        invariant Wrote(before.ids, ids, rest[..i], changed)
      {
        assert rest[..i + 1][..i] == rest[..i];
        ghost var now := ids;
        var id: Option<Id>;
        match rest[i].text {
          case Some(text) =>
            var fid := SetFileContent(rest[i].uri, Some(text));
            id := Some(fid);
          case None =>
            id := DeleteFileContent(rest[i].uri);
        }
        WroteNext(before.ids, now, ids, rest, i, changed, id);
        changed := changed + (match id case Some(fid) => [fid] case None => []);
      }
      assert rest[..|rest|] == rest;
    }

    /**
     * Staging a batch leaves the texts of the moves and the rest; where order
     * keys tell the batch's paths apart, those of the batch applied event by
     * event, and exactly the files at paths that are due are reported.
     */
    method StageFileSystemChanges(order: Uri -> int, indexed: set<Id>, files: seq<Event>) returns (changed: seq<Id>)
      requires Valid()
      modifies this
      ensures Valid() && Texts() == StagedTexts(order, old(Seen()), indexed, files)
      ensures TellsApart(order, files) ==> Texts() == ApplyAll(old(Texts()), files)
      ensures TellsApart(order, files) ==>
                forall u | Lookup(Texts(), u) != Lookup(old(Texts()), u) :: Reported(old(ids), ids, changed, u)
      ensures TellsApart(order, files) ==>
                forall id :: id in changed <==>
                  exists u :: Due(old(Seen()), indexed, files, u) && FileAt(old(ids), ids, u, id)
    {
      hide TextsOf, Filed, ApplyAll, Last, Halves, Named, EachOnce, Moved, Wrote, OnePerUri, SameLast, Ascending;
      hide Pending, Held, Sound, AllSound, Deletes, Creates, Reported, TellsApart, Newest, MoveAll, Moves, Unpaired;
      hide FileAt, Due, AreAMove;
      var latest := Latest(order, files);
      var pending := Pending(Seen(), indexed, latest);
      ghost var before, apart := Seen(), TellsApart(order, files);
      var moves, rest := PairMoves(Seen(), pending);
      SoundAll(before, moves);
      if apart {
        BatchMeaning(order, before, indexed, files, latest, moves, rest);
        MovesMean(before, next, moves);
      }
      changed := ApplyMoves(moves);
      ghost var between := ids;
      var more := ApplyRest(rest);
      if apart {
        AllReported(before.ids, between, ids, moves, changed, rest, more);
        ExactlyReported(before.ids, between, ids, moves, changed, rest, more);
        forall u ensures Last(Halves(moves) + rest, u).Some? <==> Due(before, indexed, files, u) {
          StagedAreDue(order, before, indexed, files, latest, moves, rest, u);
        }
        forall u | Lookup(Texts(), u) != Lookup(TextsOf(before), u)
            ensures Reported(before.ids, ids, changed + more, u) {
          LastWins(TextsOf(before), Halves(moves) + rest, u);
        }
      }
      changed := changed + more;
    }
  }

  /** The texts staging leaves: the newest events, less those already held, as moves and then the rest. */
  ghost function StagedTexts(order: Uri -> int, v: Files, indexed: set<Id>, files: seq<Event>): map<Uri, Text> {
    var pending := Pending(v, indexed, Newest(order, files));
    var moves := Moves(v, pending, |pending|);
    ApplyAll(TextsOf(MoveAll(v, moves, |moves|)), Unpaired(v, pending))
  }

  /** Moves that name every path once and are sound leave the texts of their halves. */
  lemma MovesMean(v: Files, next: Id, moves: seq<Move>)
    requires Filed(v, next) && EachOnce(moves) && AllSound(v, moves)
    ensures TextsOf(MoveAll(v, moves, |moves|)) == ApplyAll(TextsOf(v), Halves(moves))
  {
    var changed := MovedSoFar(v, next, moves, |moves|);
    assert moves[..|moves|] == moves;
  }

  lemma {:induction false} MovedSoFar(v: Files, next: Id, moves: seq<Move>, n: nat) returns (changed: seq<Id>)
    requires Filed(v, next) && EachOnce(moves) && AllSound(v, moves) && n <= |moves|
    ensures var w := MoveAll(v, moves, n);
      Filed(w, next) && TextsOf(w) == ApplyAll(TextsOf(v), Halves(moves[..n])) && Moved(v.ids, w.ids, moves, n, changed)
    decreases n
  {
    if n == 0 {
      changed := [];
      NothingMoved(v.ids, moves);
      assert moves[..0] == [];
    } else {
      changed := MovedSoFar(v, next, moves, n - 1);
      var w, m := MoveAll(v, moves, n - 1), moves[n - 1];
      assert Sound(v, m);
      StillToMove(v.ids, w.ids, moves, n - 1, changed);
      hide Filed, TextsOf, ApplyAll, Halves, Moved, EachOnce, AllSound, Sound;
      MovedText(w, next, m);
      NextMove(moves, n - 1, TextsOf(v));
      MovedOne(v, w.ids, MoveOne(w, m).ids, moves, n - 1, changed, Some(w.ids[m.from]));
      changed := changed + [w.ids[m.from]];
    }
  }

  /** Whether a path's files, before and now, are among the reported ones. */
  ghost predicate Reported(before: map<Uri, Id>, now: map<Uri, Id>, changed: seq<Id>, u: Uri) {
    (u in before ==> before[u] in changed) && (u in now ==> now[u] in changed)
  }

  /** Writing events keeps every file's id and reports the file of every path written, and no other. */
  ghost predicate Wrote(before: map<Uri, Id>, now: map<Uri, Id>, rest: seq<Event>, changed: seq<Id>) {
    && (forall u | u in before :: Lookup(now, u) == Lookup(before, u))
    && (forall u | Last(rest, u).None? :: Lookup(now, u) == Lookup(before, u))
    && (forall u | Last(rest, u).Some? && u in now :: now[u] in changed)
    && (forall id | id in changed :: exists u :: Last(rest, u).Some? && Lookup(now, u) == Some(id))
  }

  lemma WroteNext(before: map<Uri, Id>, now: map<Uri, Id>, later: map<Uri, Id>, rest: seq<Event>, i: nat,
                  changed: seq<Id>, id: Option<Id>)
    requires i < |rest| && Wrote(before, now, rest[..i], changed)
    requires Lookup(later, rest[i].uri) == id && (rest[i].uri in now ==> id == Some(now[rest[i].uri]))
    requires forall u | u != rest[i].uri :: Lookup(later, u) == Lookup(now, u)
    ensures Wrote(before, later, rest[..i + 1], changed + (match id case Some(fid) => [fid] case None => []))
  {
    assert rest[..i + 1][..i] == rest[..i];
    var all := changed + (match id case Some(fid) => [fid] case None => []);
    forall u | Last(rest[..i + 1], u).Some? && u in later ensures later[u] in all {
      if u != rest[i].uri {
        assert Lookup(later, u) == Lookup(now, u);
        assert now[u] in changed;
      }
    }
    forall fid | fid in all ensures exists u :: Last(rest[..i + 1], u).Some? && Lookup(later, u) == Some(fid) {
      if fid in changed {
        var u :| Last(rest[..i], u).Some? && Lookup(now, u) == Some(fid);
        assert Last(rest[..i + 1], u).Some? && Lookup(later, u) == Some(fid);
      } else {
        assert Last(rest[..i + 1], rest[i].uri).Some? && Lookup(later, rest[i].uri) == Some(fid);
      }
    }
  }

  lemma {:induction false} LastJoin(a: seq<Event>, b: seq<Event>, u: Uri)
    ensures Last(a + b, u) == if Last(b, u).Some? then Last(b, u) else Last(a, u)
    decreases |b|
  {
    if b == [] {
      assert a + b == a;
    } else {
      assert (a + b)[..|a + b| - 1] == a + b[..|b| - 1];
      LastJoin(a, b[..|b| - 1], u);
    }
  }

  lemma {:induction false} ApplyJoin(texts: map<Uri, Text>, a: seq<Event>, b: seq<Event>)
    ensures ApplyAll(texts, a + b) == ApplyAll(ApplyAll(texts, a), b)
    decreases |b|
  {
    if b == [] {
      assert a + b == a;
    } else {
      assert (a + b)[..|a + b| - 1] == a + b[..|b| - 1];
      ApplyJoin(texts, a, b[..|b| - 1]);
    }
  }

  lemma {:induction false} HalvesName(moves: seq<Move>, u: Uri)
    requires Last(Halves(moves), u).Some?
    ensures exists k | 0 <= k < |moves| :: u == moves[k].from || u == moves[k].to
    decreases |moves|
  {
    if moves != [] {
      var n, m := |moves| - 1, moves[|moves| - 1];
      if u != m.from && u != m.to {
        var all, front := Halves(moves), Halves(moves[..n]);
        assert all[..|all| - 1][..|all| - 2] == front;
        HalvesName(moves[..n], u);
        var k :| 0 <= k < n && (u == moves[..n][k].from || u == moves[..n][k].to);
        assert u == moves[k].from || u == moves[k].to;
      }
    }
  }

  lemma {:induction false} NamedByHalves(moves: seq<Move>, u: Uri)
    requires u in Named(moves, |moves|)
    ensures Last(Halves(moves), u).Some?
  {
    var k := NamedIn(moves, |moves|, u);
    HalvesAt(moves, k);
    LastIsAmong(Halves(moves), u);
    var halves := Halves(moves);
    assert halves[2 * k] in halves && halves[2 * k + 1] in halves;
  }

  /** `id` is the file at path `u`, before or now. */
  ghost predicate FileAt(before: map<Uri, Id>, now: map<Uri, Id>, u: Uri, id: Id) {
    Lookup(before, u) == Some(id) || Lookup(now, u) == Some(id)
  }

  /** The files reported are at paths the events name. */
  lemma {:induction false} OnlyReported(before: map<Uri, Id>, between: map<Uri, Id>, now: map<Uri, Id>,
                                        moves: seq<Move>, moved: seq<Id>, rest: seq<Event>, written: seq<Id>, id: Id)
    requires Moved(before, between, moves, |moves|, moved) && Wrote(between, now, rest, written)
    requires id in moved + written
    ensures exists u :: Last(Halves(moves) + rest, u).Some? && FileAt(before, now, u, id)
  {
    if id in moved {
      var k :| 0 <= k < |moved| && moved[k] == id;
      var u := moves[k].from;
      assert Rehomed(before, between, moves[k], id);
      NamedHas(moves, |moves|, k);
      NamedByHalves(moves, u);
      LastJoin(Halves(moves), rest, u);
      assert FileAt(before, now, u, id);
    } else {
      var u :| Last(rest, u).Some? && Lookup(now, u) == Some(id);
      LastJoin(Halves(moves), rest, u);
      assert FileAt(before, now, u, id);
    }
  }

  /** Exactly the files at paths the events name, before or now, are reported. */
  lemma {:induction false} ExactlyReported(before: map<Uri, Id>, between: map<Uri, Id>, now: map<Uri, Id>,
                                           moves: seq<Move>, moved: seq<Id>, rest: seq<Event>, written: seq<Id>)
    requires OnePerUri(Halves(moves) + rest)
    requires Moved(before, between, moves, |moves|, moved) && Wrote(between, now, rest, written)
    ensures forall id :: id in moved + written <==>
              exists u :: Last(Halves(moves) + rest, u).Some? && FileAt(before, now, u, id)
  {
    AllReported(before, between, now, moves, moved, rest, written);
    hide Last, Halves, Moved, Wrote, OnePerUri;
    forall id ensures id in moved + written <==>
        exists u :: Last(Halves(moves) + rest, u).Some? && FileAt(before, now, u, id) {
      if id in moved + written {
        OnlyReported(before, between, now, moves, moved, rest, written, id);
      }
      if u :| Last(Halves(moves) + rest, u).Some? && FileAt(before, now, u, id) {
        assert Reported(before, now, moved + written, u);
      }
    }
  }

  /** Path `u` has an event, and the last one says other than the text an indexed file already has there. */
  ghost predicate Due(v: Files, indexed: set<Id>, files: seq<Event>, u: Uri) {
    && Last(files, u).Some?
    && !(u in v.ids && v.ids[u] in indexed && v.ids[u] in v.latest && v.latest[v.ids[u]].Some?
         && Last(files, u) == Some(v.latest[v.ids[u]]))
  }

  /** The events left are those of the paths that are due. */
  lemma {:induction false} PendingAreDue(order: Uri -> int, v: Files, indexed: set<Id>, events: seq<Event>, u: Uri)
    requires Ascending(order, events)
    ensures Last(Pending(v, indexed, events), u).Some? <==> Due(v, indexed, events, u)
    decreases |events|
  {
    if events != [] {
      var front, e := events[..|events| - 1], events[|events| - 1];
      PendingAreDue(order, v, indexed, front, u);
      var kept := Pending(v, indexed, front);
      assert (kept + [e])[..|kept|] == kept && kept + [] == kept;
      if u == e.uri {
        NoEventOf(order, events);
      }
    }
  }

  lemma {:induction false} SameEventsSamePaths(a: seq<Event>, b: seq<Event>, u: Uri)
    requires multiset(a) == multiset(b)
    ensures Last(a, u).Some? <==> Last(b, u).Some?
  {
    LastIsAmong(a, u);
    LastIsAmong(b, u);
    assert forall e :: e in a <==> e in multiset(a);
    assert forall e :: e in b <==> e in multiset(b);
    hide Last;
  }

  /** So the events staged name exactly the paths that are due. */
  lemma {:induction false} StagedAreDue(order: Uri -> int, v: Files, indexed: set<Id>, files: seq<Event>,
                                        latest: seq<Event>, moves: seq<Move>, rest: seq<Event>, u: Uri)
    requires Ascending(order, latest) && SameLast(latest, files)
    requires multiset(Pending(v, indexed, latest)) == multiset(rest) + multiset(Halves(moves))
    ensures Last(Halves(moves) + rest, u).Some? <==> Due(v, indexed, files, u)
  {
    PendingAreDue(order, v, indexed, latest, u);
    assert multiset(Halves(moves) + rest) == multiset(Pending(v, indexed, latest));
    SameEventsSamePaths(Halves(moves) + rest, Pending(v, indexed, latest), u);
    assert Last(latest, u) == Last(files, u);
    hide Pending, Halves, Last;
  }

  /** Every path an event of the batch names is reported, and no other path's file changed. */
  lemma {:induction false} AllReported(before: map<Uri, Id>, between: map<Uri, Id>, now: map<Uri, Id>,
                                       moves: seq<Move>, moved: seq<Id>, rest: seq<Event>, written: seq<Id>)
    requires OnePerUri(Halves(moves) + rest)
    requires Moved(before, between, moves, |moves|, moved) && Wrote(between, now, rest, written)
    ensures forall u | Last(Halves(moves) + rest, u).Some? :: Reported(before, now, moved + written, u)
  {
    forall u | Last(Halves(moves) + rest, u).Some? ensures Reported(before, now, moved + written, u) {
      LastJoin(Halves(moves), rest, u);
      if Last(rest, u).Some? {
        HalfOrRest(moves, rest, u);
        assert Lookup(between, u) == Lookup(before, u);
      } else {
        HalvesName(moves, u);
        var k :| 0 <= k < |moves| && (u == moves[k].from || u == moves[k].to);
        assert Lookup(now, u) == Lookup(between, u);
        assert moved[k] in moved;
      }
    }
  }

  lemma {:induction false} HalfOrRest(moves: seq<Move>, rest: seq<Event>, u: Uri)
    requires OnePerUri(Halves(moves) + rest) && Last(rest, u).Some?
    ensures u !in Named(moves, |moves|)
  {
    LastIsAmong(rest, u);
    if u in Named(moves, |moves|) {
      NamedByHalves(moves, u);
      var halves := Halves(moves);
      LastIsAmong(halves, u);
      var i :| 0 <= i < |halves| && halves[i] == Event(u, Last(halves, u).value);
      var j :| 0 <= j < |rest| && rest[j] == Event(u, Last(rest, u).value);
      InOneOnly(halves, rest, i, j);
    }
  }

  lemma InOneOnly(a: seq<Event>, b: seq<Event>, i: nat, j: nat)
    requires OnePerUri(a + b) && i < |a| && j < |b|
    ensures a[i].uri != b[j].uri
  {
    assert (a + b)[i] == a[i] && (a + b)[|a| + j] == b[j];
  }

  /** The events whose text is not what an indexed file already holds. */
  function Pending(v: Files, indexed: set<Id>, events: seq<Event>): seq<Event>
    decreases |events|
  {
    if events == [] then []
    else
      var e := events[|events| - 1];
      Pending(v, indexed, events[..|events| - 1]) + if Held(v, indexed, e) then [] else [e]
  }

  predicate Held(v: Files, indexed: set<Id>, e: Event) {
    e.text.Some? && e.uri in v.ids && Lookup(v.latest, v.ids[e.uri]) == Some(e.text) && v.ids[e.uri] in indexed
  }

  lemma {:induction false} PendingIsSame(order: Uri -> int, v: Files, indexed: set<Id>, events: seq<Event>)
    requires Ascending(order, events)
    ensures ApplyAll(TextsOf(v), Pending(v, indexed, events)) == ApplyAll(TextsOf(v), events)
    decreases |events|
  {
    if events != [] {
      var front, e := events[..|events| - 1], events[|events| - 1];
      PendingIsSame(order, v, indexed, front);
      var kept, texts := Pending(v, indexed, front), TextsOf(v);
      if Held(v, indexed, e) {
        NoEventOf(order, events);
        LastWins(texts, front, e.uri);
        assert Lookup(texts, e.uri) == e.text;
        assert kept + [] == kept;
        PutSame(ApplyAll(texts, front), e.uri, e.text);
      } else {
        assert (kept + [e])[..|kept|] == kept;
      }
    }
  }

  lemma NoEventOf(order: Uri -> int, events: seq<Event>)
    requires Ascending(order, events) && events != []
    ensures Last(events[..|events| - 1], events[|events| - 1].uri).None?
  {
    LastIsAmong(events[..|events| - 1], events[|events| - 1].uri);
  }

  lemma PutSame(texts: map<Uri, Text>, u: Uri, text: Option<Text>)
    requires Lookup(texts, u) == text
    ensures Put(texts, u, text) == texts
  {
  }

  lemma {:induction false} PendingAscends(order: Uri -> int, v: Files, indexed: set<Id>, events: seq<Event>)
    requires Ascending(order, events)
    ensures Ascending(order, Pending(v, indexed, events)) && forall e | e in Pending(v, indexed, events) :: e in events
    decreases |events|
  {
    if events != [] {
      var front, e := events[..|events| - 1], events[|events| - 1];
      PendingAscends(order, v, indexed, front);
      var kept := Pending(v, indexed, front);
      forall i | 0 <= i < |kept| ensures order(kept[i].uri) < order(e.uri) {
        assert kept[i] in front;
      }
    }
  }

  /** The moves and the rest together mean what the batch does. */
  lemma {:induction false} BatchMeaning(order: Uri -> int, v: Files, indexed: set<Id>, files: seq<Event>,
                                        latest: seq<Event>, moves: seq<Move>, rest: seq<Event>)
    requires Ascending(order, latest) && SameLast(latest, files)
    requires multiset(Pending(v, indexed, latest)) == multiset(rest) + multiset(Halves(moves))
    ensures EachOnce(moves) && OnePerUri(Halves(moves) + rest)
    ensures ApplyAll(ApplyAll(TextsOf(v), Halves(moves)), rest) == ApplyAll(TextsOf(v),
        Halves(moves) + rest) == ApplyAll(TextsOf(v), files)
  {
    var pending, texts := Pending(v, indexed, latest), TextsOf(v);
    PendingIsSame(order, v, indexed, latest);
    PendingAscends(order, v, indexed, latest);
    OnePerUriWhenAscending(order, pending);
    var all := Halves(moves) + rest;
    assert multiset(all) == multiset(pending);
    SameEventsSameMeaning(texts, pending, all);
    ApplyJoin(texts, Halves(moves), rest);
    FrontOnePerUri(Halves(moves), rest);
    HalvesNameOnce(moves);
    SameLastSameMeaning(texts, latest, files);
  }

  lemma OnePerUriWhenAscending(order: Uri -> int, events: seq<Event>)
    requires Ascending(order, events)
    ensures OnePerUri(events)
  {
  }

  lemma FrontOnePerUri(a: seq<Event>, b: seq<Event>)
    requires OnePerUri(a + b)
    ensures OnePerUri(a)
  {
    assert a == (a + b)[..|a|];
  }

  lemma SameLastSameMeaning(texts: map<Uri, Text>, a: seq<Event>, b: seq<Event>)
    requires SameLast(a, b)
    ensures ApplyAll(texts, a) == ApplyAll(texts, b)
  {
    forall u ensures Lookup(ApplyAll(texts, a), u) == Lookup(ApplyAll(texts, b), u) {
      LastWins(texts, a, u);
      LastWins(texts, b, u);
    }
    SameLookups(ApplyAll(texts, a), ApplyAll(texts, b));
  }

  /** A move's two halves are the next two events. */
  lemma NextMove(moves: seq<Move>, i: nat, texts: map<Uri, Text>)
    requires i < |moves|
    ensures var m := moves[i];
            ApplyAll(texts, Halves(moves[..i + 1])) == Put(Put(ApplyAll(texts, Halves(moves[..i])), m.from, None),
                m.to, Some(m.text))
  {
    var m := moves[i];
    var done, next := Halves(moves[..i]), Halves(moves[..i + 1]);
    assert moves[..i + 1][..i] == moves[..i];
    var mid := done + [Event(m.from, None)];
    assert next == mid + [Event(m.to, Some(m.text))];
    assert next[..|next| - 1] == mid;
    assert mid[..|mid| - 1] == done;
  }

  /** Halves of different paths are of moves that name every path once. */
  lemma HalvesNameOnce(moves: seq<Move>)
    requires OnePerUri(Halves(moves))
    ensures EachOnce(moves)
  {
    forall k | 0 <= k < |moves|
        ensures moves[k].from != moves[k].to && moves[k].from !in Named(moves, k) && moves[k].to !in Named(moves, k) {
      HalvesAt(moves, k);
      if moves[k].from in Named(moves, k) {
        var j := NamedIn(moves, k, moves[k].from);
        NamedApart(moves, j, k);
      }
      if moves[k].to in Named(moves, k) {
        var j := NamedIn(moves, k, moves[k].to);
        NamedApart(moves, j, k);
      }
    }
  }

  lemma {:induction false} NamedApart(moves: seq<Move>, j: nat, k: nat)
    requires OnePerUri(Halves(moves)) && j < k < |moves|
    ensures moves[j].from != moves[k].from && moves[j].from != moves[k].to && moves[j].to != moves[k].from
      && moves[j].to != moves[k].to
  {
    HalvesAt(moves, j);
    HalvesAt(moves, k);
  }

  lemma {:induction false} HalvesAt(moves: seq<Move>, k: nat)
    requires k < |moves|
    ensures |Halves(moves)| == 2 * |moves| && Halves(moves)[..2 * k] == Halves(moves[..k])
    ensures Halves(moves)[2 * k] == Event(moves[k].from, None)
      && Halves(moves)[2 * k + 1] == Event(moves[k].to, Some(moves[k].text))
    decreases |moves|
  {
    var n := |moves| - 1;
    if k < n {
      HalvesAt(moves[..n], k);
      assert moves[..n][..k] == moves[..k];
    } else {
      HalvesSize(moves[..n]);
    }
  }

  lemma {:induction false} HalvesSize(moves: seq<Move>)
    ensures |Halves(moves)| == 2 * |moves|
    decreases |moves|
  {
    if moves != [] {
      HalvesSize(moves[..|moves| - 1]);
    }
  }

  // ---- Exactly when staging means the batch ----

  /** Staging means the batch wherever order keys tell the batch's paths apart. */
  lemma StagingMeansBatch(order: Uri -> int, v: Files, next: Id, indexed: set<Id>, files: seq<Event>)
    requires Filed(v, next) && TellsApart(order, files)
    ensures StagedTexts(order, v, indexed, files) == ApplyAll(TextsOf(v), files)
  {
    var latest := Newest(order, files);
    var pending := Pending(v, indexed, latest);
    var moves, rest := Moves(v, pending, |pending|), Unpaired(v, pending);
    NewestIsLast(order, files);
    Paired(v, pending, |pending|);
    hide Newest, Pending, Moves, TellsApart, SameLast, Ascending, Filed, Sound, Halves, LeftOver;
    SoundAll(v, moves);
    BatchMeaning(order, v, indexed, files, latest, moves, rest);
    MovesMean(v, next, moves);
  }

  /**
   * Three events of two paths that share a key: the first path's text changed and changed back
   * around the other's deletion.
   */
  function ThereAndBack(u: Uri, w: Uri, x: Text, t: Text): seq<Event> {
    [Event(u, Some(x))] + [Event(w, None)] + [Event(u, Some(t))]
  }

  /** One indexed file with a text. */
  function OneFile(u: Uri, t: Text): Files {
    Files(map[u := 0], map[0 := Some(t)])
  }

  lemma SortOfShared(order: Uri -> int, u: Uri, w: Uri, x: Text, t: Text)
    requires order(u) == order(w)
    ensures Sort(ByOrder(order), ThereAndBack(u, w, x, t)) == ThereAndBack(u, w, x, t)
  {
    var a, b, c := Event(u, Some(x)), Event(w, None), Event(u, Some(t));
    var key := ByOrder(order);
    assert key(a) == key(b) == key(c);
    SortNext(key, [], a);
    SortNext(key, [a], b);
    SortNext(key, [a] + [b], c);
    hide Sort, ByOrder;
    assert [] + [a] == [a];
  }

  lemma CollapseOfShared(u: Uri, w: Uri, x: Text, t: Text)
    requires u != w
    ensures Collapse(ThereAndBack(u, w, x, t)) == ThereAndBack(u, w, x, t)
  {
    var a, b, c := Event(u, Some(x)), Event(w, None), Event(u, Some(t));
    CollapseNext([], a);
    CollapseNext([a], b);
    CollapseNext([a] + [b], c);
    hide Collapse;
    assert [] + [a] == [a];
  }

  lemma NewestOfShared(order: Uri -> int, u: Uri, w: Uri, x: Text, t: Text)
    requires u != w && order(u) == order(w)
    ensures Newest(order, ThereAndBack(u, w, x, t)) == ThereAndBack(u, w, x, t)
  {
    SortOfShared(order, u, w, x, t);
    CollapseOfShared(u, w, x, t);
    hide Sort, Collapse, ThereAndBack;
  }

  lemma SortNext<T>(key: T -> int, s: seq<T>, x: T)
    ensures Sort(key, s + [x]) == Insert(key, Sort(key, s), x) && Sort(key, []) == []
  {
    assert (s + [x])[..|s|] == s;
  }

  lemma CollapseNext(s: seq<Event>, e: Event)
    ensures Collapse(s + [e]) == Collapsed(Collapse(s), e) && Collapse([]) == []
  {
    assert (s + [e])[..|s|] == s;
  }

  lemma PendingNext(v: Files, indexed: set<Id>, front: seq<Event>, e: Event)
    ensures Pending(v, indexed, front + [e]) == Pending(v, indexed, front) + if Held(v, indexed, e) then [] else [e]
    ensures Pending(v, indexed, []) == []
  {
    assert (front + [e])[..|front|] == front;
  }

  lemma LastNext(front: seq<Event>, e: Event, u: Uri)
    ensures Last(front + [e], u) == if e.uri == u then Some(e.text) else Last(front, u)
  {
    assert (front + [e])[..|front|] == front;
  }

  lemma PendingOfShared(u: Uri, w: Uri, x: Text, t: Text)
    requires u != w && x != t
    ensures Pending(OneFile(u, t), {0}, ThereAndBack(u, w, x, t)) == [Event(u, Some(x)), Event(w, None)]
  {
    var a, b, c := Event(u, Some(x)), Event(w, None), Event(u, Some(t));
    var v := OneFile(u, t);
    assert !Held(v, {0}, a) && !Held(v, {0}, b) && Held(v, {0}, c);
    hide Pending, Held, OneFile;
    PendingNext(v, {0}, [], a);
    PendingNext(v, {0}, [a], b);
    PendingNext(v, {0}, [a] + [b], c);
    assert [] + [a] == [a];
    assert [a] + [b] + [] == [a, b];
  }

  /** Without a file deleted nothing is paired. */
  lemma NothingPaired(v: Files, events: seq<Event>)
    requires forall i | 0 <= i < |events| :: Deletes(v, events[i]).None?
    ensures Moves(v, events, |events|) == [] && Unpaired(v, events) == events
  {
    NoMoves(v, events, |events|);
    assert forall i: nat | i < |events| :: Target(v, events, i) == None;
    hide Target;
    var left := LeftOver(v, events, |events|);
    FlatWhole(events, left);
  }

  lemma {:induction false} NoMoves(v: Files, events: seq<Event>, n: nat)
    requires n <= |events| && forall i | 0 <= i < |events| :: Deletes(v, events[i]).None?
    ensures Moves(v, events, n) == []
    decreases n
  {
    if n > 0 {
      NoMoves(v, events, n - 1);
    }
  }

  /** Where two paths share an order key, a batch is staged to another text than it says. */
  lemma SharedKeyStagesAnother(order: Uri -> int, u: Uri, w: Uri, x: Text, t: Text)
    requires u != w && order(u) == order(w) && x != t
    ensures Filed(OneFile(u, t), 1)
    ensures Lookup(StagedTexts(order, OneFile(u, t), {0}, ThereAndBack(u, w, x, t)), u) == Some(x)
    ensures Lookup(ApplyAll(TextsOf(OneFile(u, t)), ThereAndBack(u, w, x, t)), u) == Some(t)
  {
    OneFileIsFiled(u, t);
    hide StagedTexts, Last, ApplyAll, TextsOf, ThereAndBack, OneFile, Filed;
    StagedOfShared(order, u, w, x, t);
    LastOfShared(u, w, x, t);
    LastWins(TextsOf(OneFile(u, t)), [Event(u, Some(x)), Event(w, None)], u);
    LastWins(TextsOf(OneFile(u, t)), ThereAndBack(u, w, x, t), u);
  }

  lemma OneFileIsFiled(u: Uri, t: Text)
    ensures Filed(OneFile(u, t), 1)
  {
  }

  lemma LastOfShared(u: Uri, w: Uri, x: Text, t: Text)
    requires u != w
    ensures Last([Event(u, Some(x)), Event(w, None)], u) == Some(Some(x))
    ensures Last(ThereAndBack(u, w, x, t), u) == Some(Some(t))
  {
    hide Last;
    var a, b, c := Event(u, Some(x)), Event(w, None), Event(u, Some(t));
    LastNext([], a, u);
    LastNext([a], b, u);
    LastNext([a] + [b], c, u);
    assert [] + [a] == [a] && [a, b] == [a] + [b];
  }

  lemma StagedOfShared(order: Uri -> int, u: Uri, w: Uri, x: Text, t: Text)
    requires u != w && order(u) == order(w) && x != t
    ensures StagedTexts(order, OneFile(u, t), {0}, ThereAndBack(u, w, x, t)) == ApplyAll(TextsOf(OneFile(u, t)),
        [Event(u, Some(x)), Event(w, None)])
  {
    NewestOfShared(order, u, w, x, t);
    PendingOfShared(u, w, x, t);
    NothingPaired(OneFile(u, t), [Event(u, Some(x)), Event(w, None)]);
    hide Newest, Pending, Moves, Unpaired, TextsOf, ApplyAll, ThereAndBack;
  }

  ghost predicate Over(files: seq<Event>, uris: set<Uri>) {
    forall i | 0 <= i < |files| :: files[i].uri in uris
  }

  /** No two of the paths share an order key. */
  ghost predicate KeysApart(order: Uri -> int, uris: set<Uri>) {
    forall u, w | u in uris && w in uris && order(u) == order(w) :: u == w
  }

  /** Staging means the batch in this state. */
  ghost predicate Means(order: Uri -> int, v: Files, indexed: set<Id>, files: seq<Event>) {
    StagedTexts(order, v, indexed, files) == ApplyAll(TextsOf(v), files)
  }

  /**
   * Staging means the batch, for every state of the files and every batch over some paths, exactly
   * when no two of them share an order key.
   */
  lemma StagingMeansEveryBatch(order: Uri -> int, uris: set<Uri>)
    ensures (forall v, next, indexed, files | Filed(v, next) && Over(files, uris) :: Means(order, v, indexed, files))
       <==> KeysApart(order, uris)
  {
    hide StagedTexts, ApplyAll, TextsOf, Filed, TellsApart, Over, ThereAndBack, OneFile;
    if KeysApart(order, uris) {
      forall v, next, indexed, files | Filed(v, next) && Over(files, uris) ensures Means(order, v, indexed, files) {
        OverApart(order, uris, files);
        StagingMeansBatch(order, v, next, indexed, files);
      }
    } else {
      var u, w :| u in uris && w in uris && order(u) == order(w) && u != w;
      SharedKeyStagesAnother(order, u, w, "a", "");
      BackIsOver(u, w, uris);
      assert !Means(order, OneFile(u, ""), {0}, ThereAndBack(u, w, "a", ""));
    }
  }

  lemma OverApart(order: Uri -> int, uris: set<Uri>, files: seq<Event>)
    requires KeysApart(order, uris) && Over(files, uris)
    ensures TellsApart(order, files)
  {
  }

  lemma BackIsOver(u: Uri, w: Uri, uris: set<Uri>)
    requires u in uris && w in uris
    ensures Over(ThereAndBack(u, w, "a", ""), uris)
  {
  }
}
