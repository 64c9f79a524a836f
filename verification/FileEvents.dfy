/**
 * What a batch of file events says: for each path, whatever its last event
 * says. Sorting and collapsing a batch keep that meaning.
 */
module FileEvents {
  import opened Options
  import opened StableSort

  type Uri(==, !new)
  type Text = string
  type Id = nat

  datatype Event = Event(uri: Uri, text: Option<Text>)

  // ---- What a batch means ----

  /** The texts after the events, one after another. */
  function ApplyAll(texts: map<Uri, Text>, events: seq<Event>): map<Uri, Text>
    decreases |events|
  {
    if events == [] then texts
    else
      var e := events[|events| - 1];
      Put(ApplyAll(texts, events[..|events| - 1]), e.uri, e.text)
  }

  /** What the last event of `u` says, if there is one. */
  function Last(events: seq<Event>, u: Uri): Option<Option<Text>>
    decreases |events|
  {
    if events == [] then None
    else if events[|events| - 1].uri == u then Some(events[|events| - 1].text)
    else Last(events[..|events| - 1], u)
  }

  predicate OnePerUri(events: seq<Event>) {
    forall i, j | 0 <= i < j < |events| :: events[i].uri != events[j].uri
  }

  lemma {:induction false} LastWins(texts: map<Uri, Text>, events: seq<Event>, u: Uri)
    ensures Lookup(ApplyAll(texts, events), u) ==
        match Last(events, u) case Some(text) => text case None => Lookup(texts, u)
    decreases |events|
  {
    if events != [] {
      LastWins(texts, events[..|events| - 1], u);
    }
  }

  lemma {:induction false} LastIsAmong(events: seq<Event>, u: Uri)
    ensures Last(events, u).Some? ==> Event(u, Last(events, u).value) in events
    ensures Last(events, u).None? ==> forall e | e in events :: e.uri != u
    decreases |events|
  {
    if events != [] {
      LastIsAmong(events[..|events| - 1], u);
      assert events == events[..|events| - 1] + [events[|events| - 1]];
    }
  }

  /** Batches with one event per path and the same events mean the same, whatever their order. */
  lemma SameEventsSameMeaning(texts: map<Uri, Text>, a: seq<Event>, b: seq<Event>)
    requires multiset(a) == multiset(b) && OnePerUri(a)
    ensures ApplyAll(texts, a) == ApplyAll(texts, b) && OnePerUri(b)
  {
    OnlyOneAmong(a, b);
    forall u ensures Lookup(ApplyAll(texts, a), u) == Lookup(ApplyAll(texts, b), u) {
      LastWins(texts, a, u);
      LastWins(texts, b, u);
      LastIsAmong(a, u);
      LastIsAmong(b, u);
      forall e ensures e in a <==> e in b {
        assert e in multiset(a) <==> e in multiset(b);
      }
    }
    SameLookups(ApplyAll(texts, a), ApplyAll(texts, b));
  }

  lemma OnlyOneAmong(a: seq<Event>, b: seq<Event>)
    requires multiset(a) == multiset(b) && OnePerUri(a)
    ensures OnePerUri(b)
    ensures forall e, d | e in a && d in a && e.uri == d.uri :: e == d
  {
    forall i, j | 0 <= i < j < |b| ensures b[i].uri != b[j].uri {
      assert b[i] in multiset(b) && b[j] in multiset(b);
      assert b[i] in a && b[j] in a;
      if b[i] == b[j] {
        TwiceCounts(b, i, j);
        OnceCounts(a, b[i]);
      }
    }
  }

  lemma TwiceCounts<T>(s: seq<T>, i: nat, j: nat)
    requires i < j < |s| && s[i] == s[j]
    ensures multiset(s)[s[i]] >= 2
  {
    assert s == s[..j] + [s[j]] + s[j + 1..];
    assert s[i] in s[..j];
  }

  lemma {:induction false} OnceCounts(s: seq<Event>, e: Event)
    requires OnePerUri(s)
    ensures multiset(s)[e] <= 1
    decreases |s|
  {
    if s != [] {
      var n := |s| - 1;
      OnceCounts(s[..n], e);
      assert s == s[..n] + [s[n]];
      if e == s[n] {
        assert e !in s[..n];
      }
    }
  }

  // ---- Sorting and keeping the last event of each path ----

  function ByOrder(order: Uri -> int): Event -> int {
    (e: Event) => order(e.uri)
  }

  /** Different paths of the batch have different order keys. */
  predicate TellsApart(order: Uri -> int, files: seq<Event>) {
    forall d, e | d in files && e in files && order(d.uri) == order(e.uri) :: d.uri == e.uri
  }

  lemma {:induction false} LastWith(order: Uri -> int, events: seq<Event>, u: Uri)
    ensures Last(events, u) == Last(With(ByOrder(order), events, order(u)), u)
    decreases |events|
  {
    if events != [] {
      LastWith(order, events[..|events| - 1], u);
      var e := events[|events| - 1];
      var front := With(ByOrder(order), events[..|events| - 1], order(u));
      assert (front + [e])[..|front|] == front;
      assert ByOrder(order)(e) == order(e.uri);
    }
  }

  lemma SortingKeepsLast(order: Uri -> int, events: seq<Event>, u: Uri)
    ensures Last(Sort(ByOrder(order), events), u) == Last(events, u)
  {
    LastWith(order, events, u);
    LastWith(order, Sort(ByOrder(order), events), u);
    SortsStably(ByOrder(order), events, order(u));
  }

  predicate Ascending(order: Uri -> int, events: seq<Event>) {
    forall i, j | 0 <= i < j < |events| :: order(events[i].uri) < order(events[j].uri)
  }

  ghost predicate SameLast(a: seq<Event>, b: seq<Event>) {
    forall u :: Last(a, u) == Last(b, u)
  }

  lemma InOrder(order: Uri -> int, sorted: seq<Event>, i: nat, j: nat)
    requires Ordered(ByOrder(order), sorted) && i < j < |sorted|
    ensures order(sorted[i].uri) <= order(sorted[j].uri)
    ensures TellsApart(order, sorted) && sorted[i].uri != sorted[j].uri ==> order(sorted[i].uri) < order(sorted[j].uri)
  {
    assert sorted[i] in sorted && sorted[j] in sorted;
    assert ByOrder(order)(sorted[i]) <= ByOrder(order)(sorted[j]);
  }

  lemma SortedTellsApart(order: Uri -> int, files: seq<Event>, sorted: seq<Event>)
    requires multiset(sorted) == multiset(files)
    ensures TellsApart(order, sorted) <==> TellsApart(order, files)
  {
    forall e ensures e in sorted <==> e in files {
      assert e in multiset(sorted) <==> e in multiset(files);
    }
  }

  /** Neighbours of one path become the later of them. */
  function Collapse(sorted: seq<Event>): seq<Event>
    decreases |sorted|
  {
    if sorted == [] then []
    else Collapsed(Collapse(sorted[..|sorted| - 1]), sorted[|sorted| - 1])
  }

  function Collapsed(latest: seq<Event>, e: Event): seq<Event> {
    if latest != [] && latest[|latest| - 1].uri == e.uri then latest[..|latest| - 1] + [e] else latest + [e]
  }

  lemma CollapsedLast(latest: seq<Event>, e: Event, u: Uri)
    ensures Last(Collapsed(latest, e), u) == if e.uri == u then Some(e.text) else Last(latest, u)
  {
    assert (latest + [e])[..|latest|] == latest;
    if latest != [] {
      var front := latest[..|latest| - 1];
      assert (front + [e])[..|front|] == front;
    }
  }

  /** Collapsing keeps what every path's last event says. */
  lemma {:induction false} CollapseKeepsLast(sorted: seq<Event>, u: Uri)
    ensures Last(Collapse(sorted), u) == Last(sorted, u)
    decreases |sorted|
  {
    if sorted != [] {
      var n := |sorted| - 1;
      CollapseKeepsLast(sorted[..n], u);
      CollapsedLast(Collapse(sorted[..n]), sorted[n], u);
    }
  }

  lemma FrontOrdered(order: Uri -> int, sorted: seq<Event>, n: nat)
    requires n <= |sorted| && Ordered(ByOrder(order), sorted) && TellsApart(order, sorted)
    ensures Ordered(ByOrder(order), sorted[..n]) && TellsApart(order, sorted[..n])
  {
    assert forall e | e in sorted[..n] :: e in sorted;
    hide ByOrder;
    assert forall i | 0 <= i < n :: sorted[..n][i] == sorted[i];
  }

  lemma AscendingNext(order: Uri -> int, latest: seq<Event>, e: Event)
    requires Ascending(order, latest) && latest != []
    requires latest[|latest| - 1].uri == e.uri || order(latest[|latest| - 1].uri) < order(e.uri)
    ensures Ascending(order, Collapsed(latest, e))
  {
  }

  /** Events sorted by keys that tell their paths apart collapse to one per path. */
  lemma {:induction false} CollapseAscends(order: Uri -> int, sorted: seq<Event>)
    requires Ordered(ByOrder(order), sorted) && TellsApart(order, sorted)
    ensures Ascending(order, Collapse(sorted))
    ensures sorted != [] ==> Collapse(sorted) != [] && Collapse(sorted)[|Collapse(sorted)| - 1] == sorted[|sorted| - 1]
    decreases |sorted|
  {
    if sorted != [] {
      var n := |sorted| - 1;
      FrontOrdered(order, sorted, n);
      CollapseAscends(order, sorted[..n]);
      if n > 0 {
        InOrder(order, sorted, n - 1, n);
        hide TellsApart, Ordered, ByOrder;
        AscendingNext(order, Collapse(sorted[..n]), sorted[n]);
      }
    }
  }

  /** A batch sorted and collapsed. */
  function Newest(order: Uri -> int, files: seq<Event>): seq<Event> {
    Collapse(Sort(ByOrder(order), files))
  }

  /** It says of every path what the batch says last, once when order keys tell the batch's paths apart. */
  lemma NewestIsLast(order: Uri -> int, files: seq<Event>)
    ensures SameLast(Newest(order, files), files)
    ensures TellsApart(order, files) ==> Ascending(order, Newest(order, files))
  {
    var sorted := Sort(ByOrder(order), files);
    forall u ensures Last(Newest(order, files), u) == Last(files, u) {
      CollapseKeepsLast(sorted, u);
      SortingKeepsLast(order, files, u);
    }
    Sorts(ByOrder(order), files);
    SortedTellsApart(order, files, sorted);
    if TellsApart(order, files) {
      CollapseAscends(order, sorted);
    }
  }

  /** The last event of every path, in order. */
  method Latest(order: Uri -> int, files: seq<Event>) returns (latest: seq<Event>)
    ensures latest == Newest(order, files) && SameLast(latest, files)
    ensures TellsApart(order, files) ==> Ascending(order, latest)
  {
    NewestIsLast(order, files);
    var sorted := Sort(ByOrder(order), files);
    hide Sort, ByOrder, SameLast, TellsApart, Ascending;
    latest := [];
    for i := 0 to |sorted|
      invariant latest == Collapse(sorted[..i])
    {
      assert sorted[..i + 1][..i] == sorted[..i];
      var e := sorted[i];
      if latest != [] && latest[|latest| - 1].uri == e.uri {
        latest := latest[..|latest| - 1] + [e];
      } else {
        latest := latest + [e];
      }
    }
    assert sorted[..|sorted|] == sorted;
  }
}
