/**
 * The net facts a file holds for its calls and its helpers, the count it keeps
 * for every other file they point into, and the way back from such a file.
 */
module NetSites {
  import opened Options

  type FileId = nat
  datatype Range = Range(start: nat, end: nat)
  datatype Kind = Call | Helper

  /** A stored fact: one allocation, and the files whose positions it names. */
  datatype Fact = Fact(id: nat, names: set<FileId>)

  /** What `fact` names, the holder itself apart. */
  function NamedFiles(fact: Fact, own: FileId): set<FileId> {
    fact.names - {own}
  }

  datatype FileNetSites = FileNetSites(calls: map<Range, Fact>, helpers: map<Range, Fact>, named: map<FileId, nat>) {
    function Table(kind: Kind): map<Range, Fact> {
      if kind.Call? then calls else helpers
    }

    function WithTable(kind: Kind, table: map<Range, Fact>): FileNetSites {
      if kind.Call? then this.(calls := table) else this.(helpers := table)
    }

    predicate IsEmpty() {
      calls == map[] && helpers == map[]
    }
  }

  const NO_SITES := FileNetSites(map[], map[], map[])

  // ----- what the counts mean

  /** The sites of a table that name `f`; a holder does not count for itself. */
  ghost function Namers(table: map<Range, Fact>, own: FileId, f: FileId): set<Range> {
    set r | r in table && f in table[r].names && f != own
  }

  ghost function Count(sites: FileNetSites, own: FileId, f: FileId): nat {
    |Namers(sites.calls, own, f)| + |Namers(sites.helpers, own, f)|
  }

  /** Some site of `sites` names `f`. */
  ghost predicate NamesFile(sites: FileNetSites, own: FileId, f: FileId) {
    f != own
    && ((exists r | r in sites.calls :: f in sites.calls[r].names)
        || exists r | r in sites.helpers :: f in sites.helpers[r].names)
  }

  lemma CountedWhenNamed(sites: FileNetSites, own: FileId, f: FileId)
    ensures Count(sites, own, f) > 0 <==> NamesFile(sites, own, f)
  {
    if r :| r in sites.calls && f in sites.calls[r].names && f != own {
      assert r in Namers(sites.calls, own, f);
    }
    if r :| r in sites.helpers && f in sites.helpers[r].names && f != own {
      assert r in Namers(sites.helpers, own, f);
    }
    if Namers(sites.calls, own, f) != {} {
      var r :| r in Namers(sites.calls, own, f);
    }
    if Namers(sites.helpers, own, f) != {} {
      var r :| r in Namers(sites.helpers, own, f);
    }
  }

  /** Each file is counted as often as sites name it; no zero is kept. */
  ghost predicate Counted(sites: FileNetSites, own: FileId) {
    forall f :: Lookup(sites.named, f) == Tally(Count(sites, own, f))
  }

  function Tally(n: nat): Option<nat> {
    if n > 0 then Some(n) else None
  }

  function Bit(b: bool): nat {
    if b then 1 else 0
  }

  /** Filing a fact under a range, in place of the one there. */
  lemma NamersPut(table: map<Range, Fact>, own: FileId, range: Range, fact: Fact, f: FileId)
    ensures |Namers(table[range := fact], own, f)| + Bit(range in table && f in NamedFiles(table[range], own))
         == |Namers(table, own, f)| + Bit(f in NamedFiles(fact, own))
  {
    var rest := Namers(table, own, f) - {range};
    assert Namers(table[range := fact], own, f) == if f in NamedFiles(fact, own) then rest + {range} else rest;
    assert Namers(table, own, f) == if range in Namers(table, own, f) then rest + {range} else rest;
  }

  lemma NamersDropped(table: map<Range, Fact>, own: FileId, range: Range, f: FileId)
    requires range in table
    ensures |Namers(table - {range}, own, f)| + Bit(f in NamedFiles(table[range], own)) == |Namers(table, own, f)|
  {
    assert Namers(table - {range}, own, f) == Namers(table, own, f) - {range};
    assert f in NamedFiles(table[range], own) <==> range in Namers(table, own, f);
  }

  lemma CountPut(sites: FileNetSites, own: FileId, kind: Kind, range: Range, fact: Fact, f: FileId)
    ensures Count(sites.WithTable(kind, sites.Table(kind)[range := fact]), own, f)
          + Bit(range in sites.Table(kind) && f in NamedFiles(sites.Table(kind)[range], own))
         == Count(sites, own, f) + Bit(f in NamedFiles(fact, own))
    ensures Bit(range in sites.Table(kind) && f in NamedFiles(sites.Table(kind)[range], own)) <= Count(sites, own, f)
  {
    NamersPut(sites.Table(kind), own, range, fact, f);
    if range in sites.Table(kind) {
      NamersDropped(sites.Table(kind), own, range, f);
    }
  }

  lemma CountDropped(sites: FileNetSites, own: FileId, kind: Kind, range: Range, f: FileId)
    requires range in sites.Table(kind)
    ensures Count(sites.WithTable(kind, sites.Table(kind) - {range}), own,
        f) + Bit(f in NamedFiles(sites.Table(kind)[range], own))
         == Count(sites, own, f)
  {
    NamersDropped(sites.Table(kind), own, range, f);
  }

  lemma CountsArePositive(sites: FileNetSites, own: FileId)
    requires Counted(sites, own)
    ensures forall f | f in sites.named :: sites.named[f] == Count(sites, own, f) > 0
    ensures forall f | f !in sites.named :: Count(sites, own, f) == 0
  {
    forall f
      ensures f in sites.named ==> sites.named[f] == Count(sites, own, f) > 0
      ensures f !in sites.named ==> Count(sites, own, f) == 0
    {
      assert Lookup(sites.named, f) == Tally(Count(sites, own, f));
    }
  }

  // ----- filing and dropping sites

  /** Takes a fact's names off the counts. Returns those whose count this brings to nothing. */
  method Unname(named: map<FileId, nat>, names: set<FileId>) returns (left: map<FileId, nat>, unlinked: set<FileId>)
    requires forall f | f in named :: named[f] > 0
    requires forall f | f in names :: f in named
    ensures forall f :: Lookup(left, f) == if f in names then Tally(named[f] - 1) else Lookup(named, f)
    ensures unlinked == set f | f in names && named[f] == 1
  {
    left, unlinked := named, {};
    var rest := names;
    while rest != {}
      invariant rest <= names
      invariant forall f ::
              Lookup(left, f) == if f in names && f !in rest then Tally(named[f] - 1) else Lookup(named, f)
      invariant unlinked == set f | f in names && f !in rest && named[f] == 1
    {
      var f :| f in rest;
      rest := rest - {f};
      assert Lookup(left, f) == Lookup(named, f);
      if f in left {
        var count := left[f] - 1;
        if count == 0 {
          left := left - {f};
          unlinked := unlinked + {f};
        } else {
          left := left[f := count];
        }
      }
    }
  }

  /** Adds a fact's names to the counts. Returns those not counted before. */
  method NameAll(named: map<FileId, nat>, names: set<FileId>) returns (left: map<FileId, nat>, linked: set<FileId>)
    requires forall f | f in named :: named[f] > 0
    ensures forall f ::
            Lookup(left, f) == if f in names then Some((if f in named then named[f] else 0) + 1) else Lookup(named, f)
    ensures linked == names - named.Keys
  {
    left, linked := named, {};
    var rest := names;
    while rest != {}
      invariant rest <= names
      invariant forall f ::
              Lookup(left, f)
                == if f in names && f !in rest then Some((if f in named then named[f] else 0) + 1) else Lookup(named, f)
      invariant linked == names - rest - named.Keys
    {
      var f :| f in rest;
      rest := rest - {f};
      assert Lookup(left, f) == Lookup(named, f);
      var count := (if f in left then left[f] else 0) + 1;
      left := left[f := count];
      if count == 1 {
        linked := linked + {f};
      }
    }
  }

  /** Puts `fact` at `range`, over the fact there. Returns the files newly counted and those no longer counted. */
  method InsertSite(sites: FileNetSites, own: FileId, kind: Kind, range: Range, fact: Fact)
    returns (filed: FileNetSites, linked: set<FileId>, unlinked: set<FileId>)
    requires Counted(sites, own)
    ensures Counted(filed, own)
    ensures filed == sites.WithTable(kind, sites.Table(kind)[range := fact]).(named := filed.named)
    ensures forall f :: f in linked <==> f !in sites.named && f in filed.named
    ensures forall f :: f in unlinked <==> f in sites.named && f !in filed.named
  {
    hide Count, Tally, Bit, NamedFiles, Counted;
    CountsArePositive(sites, own);
    var table := sites.Table(kind);
    var counted;
    counted, linked := NameAll(sites.named, NamedFiles(fact, own));
    var previous := if range in table then NamedFiles(table[range], own) else {};
    CountedAlso(sites, own, kind, range, fact, counted, previous);
    var named;
    named, unlinked := Unname(counted, previous);
    filed := sites.WithTable(kind, table[range := fact]).(named := named);
    InsertedCounts(sites, own, kind, range, fact, counted, filed, previous);
  }

  /** The count of `f` once the new fact's names are in. */
  lemma CountedAt(sites: FileNetSites, own: FileId, kind: Kind, range: Range, fact: Fact, f: FileId)
    requires Counted(sites, own)
    ensures range in sites.Table(kind) && f in NamedFiles(sites.Table(kind)[range], own) ==> f in sites.named
    ensures Tally(Count(sites, own, f) + Bit(f in NamedFiles(fact, own)))
      == if f in NamedFiles(fact, own) then Some((if f in sites.named then sites.named[f] else 0) + 1)
         else Lookup(sites.named, f)
  {
    CountPut(sites, own, kind, range, fact, f);
  }

  /** The counts once the new fact's names are in. */
  lemma CountedAlso(sites: FileNetSites, own: FileId, kind: Kind, range: Range, fact: Fact, counted: map<FileId, nat>,
                    previous: set<FileId>)
    requires Counted(sites, own)
    requires forall f ::
            Lookup(counted, f) == if f in NamedFiles(fact, own)
                then Some((if f in sites.named then sites.named[f] else 0) + 1) else Lookup(sites.named, f)
    requires previous == if range in sites.Table(kind) then NamedFiles(sites.Table(kind)[range], own) else {}
    ensures forall f :: Lookup(counted, f) == Tally(Count(sites, own, f) + Bit(f in NamedFiles(fact, own)))
    ensures (forall f | f in counted :: counted[f] > 0) && forall f | f in previous :: f in counted
  {
    hide Count, Counted, NamedFiles;
    forall f ensures Lookup(counted, f) == Tally(Count(sites, own, f) + Bit(f in NamedFiles(fact, own)))
        && (f in previous ==> f in counted) {
      CountedAt(sites, own, kind, range, fact, f);
    }
    forall f | f in counted ensures counted[f] > 0 {
      assert Lookup(counted, f).Some?;
    }
  }

  lemma InsertedCounts(sites: FileNetSites, own: FileId, kind: Kind, range: Range, fact: Fact,
                       counted: map<FileId, nat>, filed: FileNetSites,
                       previous: set<FileId>)
    requires Counted(sites, own)
      && forall f :: Lookup(counted, f) == Tally(Count(sites, own, f) + Bit(f in NamedFiles(fact, own)))
    requires previous == if range in sites.Table(kind) then NamedFiles(sites.Table(kind)[range], own) else {}
    requires filed == sites.WithTable(kind, sites.Table(kind)[range := fact]).(named := filed.named)
    requires forall f | f in previous :: f in counted && counted[f] > 0
    requires forall f :: Lookup(filed.named, f) == if f in previous then Tally(counted[f] - 1) else Lookup(counted, f)
    ensures Counted(filed, own)
    ensures forall f :: (f in NamedFiles(fact, own) && f !in sites.named) <==> f !in sites.named && f in filed.named
    ensures forall f :: (f in previous && counted[f] == 1) <==> f in sites.named && f !in filed.named
  {
    SameTables(filed, sites.WithTable(kind, sites.Table(kind)[range := fact]), own);
    hide Count, NamedFiles;
    forall f
      ensures Lookup(filed.named, f) == Tally(Count(filed, own, f))
      ensures (f in NamedFiles(fact, own) && f !in sites.named) <==> f !in sites.named && f in filed.named
      ensures (f in previous && counted[f] == 1) <==> f in sites.named && f !in filed.named
    {
      CountPut(sites, own, kind, range, fact, f);
      InsertedAt(Lookup(sites.named, f), Lookup(counted, f), Lookup(filed.named, f), Count(sites, own, f),
          Count(filed, own, f),
                 f in NamedFiles(fact, own), f in previous);
    }
  }

  /** One file's count through an insert: named by the new fact or not, and by the one it replaces or not. */
  lemma InsertedAt(before: Option<nat>, counted: Option<nat>, left: Option<nat>, was: nat, will: nat, added: bool,
                   gone: bool)
    requires before == Tally(was) && counted == Tally(was + Bit(added)) && will + Bit(gone) == was + Bit(added)
      && (gone ==> was > 0)
    requires left == if gone && counted.Some? then Tally(counted.value - 1) else counted
    ensures left == Tally(will)
    ensures (added && before.None?) <==> before.None? && left.Some?
    ensures (gone && counted == Some(1)) <==> before.Some? && left.None?
  {
  }

  lemma SameTables(a: FileNetSites, b: FileNetSites, own: FileId)
    requires a.calls == b.calls && a.helpers == b.helpers
    ensures forall f :: Count(a, own, f) == Count(b, own, f)
  {
  }

  /** Takes the fact at `range` away, if there is one. Returns the files no longer counted. */
  method RemoveSite(sites: FileNetSites, own: FileId, kind: Kind, range: Range)
    returns (left: FileNetSites, unlinked: set<FileId>, found: bool)
    requires Counted(sites, own)
    ensures Counted(left, own) && found == (range in sites.Table(kind))
    ensures left == sites.WithTable(kind, sites.Table(kind) - {range}).(named := left.named)
    ensures forall f :: f in unlinked <==> f in sites.named && f !in left.named
    ensures left.named.Keys <= sites.named.Keys
  {
    CountsArePositive(sites, own);
    if range !in sites.Table(kind) {
      assert sites.Table(kind) - {range} == sites.Table(kind);
      return sites, {}, false;
    }
    found := true;
    ghost var before := sites.WithTable(kind, sites.Table(kind) - {range});
    var previous := sites.Table(kind)[range];
    forall f ensures Count(before, own, f) + Bit(f in NamedFiles(previous, own)) == Count(sites, own, f) {
      CountDropped(sites, own, kind, range, f);
    }
    hide Count;
    var named;
    named, unlinked := Unname(sites.named, NamedFiles(previous, own));
    left := sites.WithTable(kind, sites.Table(kind) - {range}).(named := named);
    SameTables(left, before, own);
    forall f ensures f in left.named <==> Count(left, own, f) > 0 {
      assert Lookup(left.named, f) == Tally(Count(left, own, f));
    }
  }

  // ----- the index over all files

  type Refs = map<FileId, set<FileId>>

  ghost predicate Refers(refs: Refs, f: FileId, h: FileId) {
    f in refs && h in refs[f]
  }

  /** `refs` with `holder` filed under `f`. */
  function Link(refs: Refs, f: FileId, holder: FileId): Refs {
    refs[f := (if f in refs then refs[f] else {}) + {holder}]
  }

  /** `refs` with `holder` no longer filed under `f`, and no empty set kept. */
  function Unlink(refs: Refs, f: FileId, holder: FileId): Refs {
    if f !in refs then refs
    else if refs[f] - {holder} == {} then refs - {f}
    else refs[f := refs[f] - {holder}]
  }

  ghost predicate NoneEmpty(refs: Refs) {
    forall f | f in refs :: refs[f] != {}
  }

  /** `now` files `holder` under `more` besides, or no longer under `gone`. */
  ghost predicate LinkedTo(was: Refs, now: Refs, holder: FileId, more: set<FileId>) {
    NoneEmpty(now) && forall f, h :: Refers(now, f, h) <==> Refers(was, f, h) || (h == holder && f in more)
  }

  ghost predicate UnlinkedFrom(was: Refs, now: Refs, holder: FileId, gone: set<FileId>) {
    NoneEmpty(now) && forall f, h :: Refers(now, f, h) <==> Refers(was, f, h) && !(h == holder && f in gone)
  }

  lemma LinkOne(was: Refs, now: Refs, holder: FileId, more: set<FileId>, f: FileId)
    requires LinkedTo(was, now, holder, more)
    ensures LinkedTo(was, Link(now, f, holder), holder, more + {f})
  {
    forall g, h ensures Refers(Link(now, f, holder), g, h) <==> Refers(was, g, h) || (h == holder && g in more + {f}) {
      assert Refers(now, g, h) <==> Refers(was, g, h) || (h == holder && g in more);
    }
  }

  lemma UnlinkNone(refs: Refs, holder: FileId)
    requires NoneEmpty(refs)
    ensures UnlinkedFrom(refs, refs, holder, {})
  {
  }

  lemma UnlinkAll(was: Refs, now: Refs, holder: FileId, unlinked: set<FileId>)
    requires UnlinkedFrom(was, now, holder, unlinked - {})
    ensures forall f, h :: Refers(now, f, h) <==> Refers(was, f, h) && !(h == holder && f in unlinked)
    ensures LinkedTo(now, now, holder, {})
  {
  }

  lemma LinkAll(was: Refs, now: Refs, holder: FileId, linked: set<FileId>)
    requires LinkedTo(was, now, holder, linked - {})
    ensures NoneEmpty(now) && forall f, h :: Refers(now, f, h) <==> Refers(was, f, h) || (h == holder && f in linked)
  {
  }

  lemma UnlinkOne(was: Refs, now: Refs, holder: FileId, gone: set<FileId>, f: FileId)
    requires UnlinkedFrom(was, now, holder, gone)
    ensures UnlinkedFrom(was, Unlink(now, f, holder), holder, gone + {f})
  {
    forall g, h
      ensures Refers(Unlink(now, f, holder), g, h) <==> Refers(was, g, h) && !(h == holder && g in gone + {f})
    {
      assert Refers(now, g, h) <==> Refers(was, g, h) && !(h == holder && g in gone);
      if f in now && g == f {
        assert h in now[f] - {holder} <==> h in now[f] && h != holder;
      }
    }
  }

  /** `refs` files every holder under exactly the files its sites name, and keeps no empty set. */
  ghost predicate Inverse(sites: map<FileId, FileNetSites>, refs: Refs) {
    && (forall f, h :: Refers(refs, f, h) <==> h in sites && f in sites[h].named)
    && (forall f | f in refs :: refs[f] != {})
  }

  /** No file without sites is kept, and every file's counts are exact. */
  ghost predicate Kept(sites: map<FileId, FileNetSites>) {
    forall h | h in sites :: Counted(sites[h], h) && !sites[h].IsEmpty()
  }

  ghost predicate IndexValid(sites: map<FileId, FileNetSites>, refs: Refs) {
    Kept(sites) && Inverse(sites, refs)
  }

  /** The stored facts alone. */
  function Bare(sites: FileNetSites): FileNetSites {
    sites.(named := map[])
  }

  function Facts(sites: map<FileId, FileNetSites>): map<FileId, FileNetSites> {
    map h | h in sites :: Bare(sites[h])
  }

  function SitesIn(facts: map<FileId, FileNetSites>, h: FileId): FileNetSites {
    if h in facts then facts[h] else NO_SITES
  }

  /** Everything else in a valid index follows from the stored facts. */
  lemma FactsDetermineIndex(sites: map<FileId, FileNetSites>, refs: Refs, sites': map<FileId, FileNetSites>,
                            refs': Refs)
    requires IndexValid(sites, refs) && IndexValid(sites', refs') && Facts(sites) == Facts(sites')
    ensures sites == sites' && refs == refs'
  {
    assert sites.Keys == Facts(sites).Keys == Facts(sites').Keys == sites'.Keys;
    forall h | h in sites ensures sites[h] == sites'[h] {
      assert Facts(sites)[h] == Facts(sites')[h];
      SameTables(sites[h], sites'[h], h);
      forall f ensures Lookup(sites[h].named, f) == Lookup(sites'[h].named, f) {
      }
      SameLookups(sites[h].named, sites'[h].named);
    }
    InverseIsUnique(sites, refs, refs');
  }

  lemma InverseIsUnique(sites: map<FileId, FileNetSites>, refs: Refs, refs': Refs)
    requires Inverse(sites, refs) && Inverse(sites, refs')
    ensures refs == refs'
  {
    forall f ensures Lookup(refs, f) == Lookup(refs', f) {
      forall h ensures Refers(refs, f, h) <==> Refers(refs', f, h) {
      }
      if f in refs {
        var h :| h in refs[f];
        assert Refers(refs', f, h);
        assert forall h :: h in refs[f] <==> Refers(refs, f, h);
        assert forall h :: h in refs'[f] <==> Refers(refs', f, h);
        assert refs[f] == refs'[f];
      } else if f in refs' {
        var h :| h in refs'[f];
        assert Refers(refs', f, h);
      }
    }
    SameLookups(refs, refs');
  }

  /** Holders are filed under the files some site of theirs names. */
  lemma HoldersNameTheFile(sites: map<FileId, FileNetSites>, refs: Refs, f: FileId, h: FileId)
    requires IndexValid(sites, refs)
    ensures Refers(refs, f, h) <==> h in sites && NamesFile(sites[h], h, f)
  {
    if h in sites {
      CountsArePositive(sites[h], h);
      CountedWhenNamed(sites[h], h, f);
    }
  }

  ghost function NamedBy(sites: map<FileId, FileNetSites>, h: FileId): set<FileId> {
    if h in sites then sites[h].named.Keys else {}
  }

  /** The inverse stays one when a holder is listed where it is newly counted and struck where it is not. */
  lemma Refiled(sites: map<FileId, FileNetSites>, refs: Refs, sites': map<FileId, FileNetSites>, refs': Refs,
                holder: FileId, linked: set<FileId>, unlinked: set<FileId>)
    requires Inverse(sites, refs) && forall f | f in refs' :: refs'[f] != {}
    requires forall h | h != holder :: Lookup(sites', h) == Lookup(sites, h)
    requires forall f :: f in linked ==> f in NamedBy(sites', holder)
    requires forall f :: f in NamedBy(sites', holder) ==> f in linked || f in NamedBy(sites, holder)
    requires forall f | f in NamedBy(sites, holder) :: f in unlinked <==> f !in NamedBy(sites', holder)
    requires forall f, h :: Refers(refs', f, h) <==>
        if h == holder then (Refers(refs, f, h) && f !in unlinked) || f in linked else Refers(refs, f, h)
    ensures Inverse(sites', refs')
  {
    forall f, h ensures Refers(refs', f, h) <==> h in sites' && f in sites'[h].named {
      assert Refers(refs, f, h) <==> f in NamedBy(sites, h);
      if h != holder {
        assert Lookup(sites', h) == Lookup(sites, h);
      }
    }
  }

  class NetIndex {
    var sites: map<FileId, FileNetSites>
    var refs: Refs

    ghost predicate Valid()
      reads this
    {
      IndexValid(sites, refs)
    }

    constructor ()
      ensures Valid() && sites == map[]
    {
      sites, refs := map[], map[];
    }

    /** Lists `holder` for the files in `linked` and strikes it for those in `unlinked`. */
    method Relink(holder: FileId, linked: set<FileId>, unlinked: set<FileId>)
      requires forall f | f in refs :: refs[f] != {}
      modifies this`refs
      ensures forall f | f in refs :: refs[f] != {}
      ensures forall f, h :: Refers(refs, f, h) <==>
        if h == holder then (Refers(old(refs), f, h) && f !in unlinked) || f in linked else Refers(old(refs), f, h)
    {
      hide LinkedTo, UnlinkedFrom;
      var rest := unlinked;
      ghost var was := refs;
      UnlinkNone(refs, holder);
      assert unlinked - unlinked == {} && linked - linked == {};
      while rest != {}
        invariant rest <= unlinked && UnlinkedFrom(was, refs, holder, unlinked - rest)
      {
        var f :| f in rest;
        UnlinkOne(was, refs, holder, unlinked - rest, f);
        assert unlinked - (rest - {f}) == unlinked - rest + {f};
        rest := rest - {f};
        refs := Unlink(refs, f, holder);
      }
      ghost var between := refs;
      rest := linked;
      UnlinkAll(was, between, holder, unlinked);
      while rest != {}
        invariant rest <= linked && LinkedTo(between, refs, holder, linked - rest)
      {
        var f :| f in rest;
        LinkOne(between, refs, holder, linked - rest, f);
        assert linked - (rest - {f}) == linked - rest + {f};
        rest := rest - {f};
        refs := Link(refs, f, holder);
      }
      LinkAll(between, refs, holder, linked);
    }

    /** Stores a fact as the net site of `kind` at `range` of `file`. */
    method Store(kind: Kind, file: FileId, range: Range, fact: Fact)
      requires Valid()
      modifies this
      ensures Valid() && Facts(sites) == StoredFacts(old(Facts(sites)), kind, file, range, fact)
    {
      NothingCounted(file);
      var before := SitesIn(sites, file);
      var filed, linked, unlinked := InsertSite(before, file, kind, range, fact);
      assert range in filed.Table(kind);
      FactsStored(sites, kind, file, range, fact, filed);
      sites := sites[file := filed];
      Relink(file, linked, unlinked);
      hide Inverse, Refers, Counted, Facts, StoredFacts;
      Refiled(old(sites), old(refs), sites, refs, file, linked, unlinked);
    }

    /** Drops the net site of `kind` at `range` of `file`. */
    method Reset(kind: Kind, file: FileId, range: Range)
      requires Valid()
      modifies this
      ensures Valid() && Facts(sites) == ResetFacts(old(Facts(sites)), kind, file, range)
    {
      if file !in sites || range !in sites[file].Table(kind) {
        UnfiledReset(Facts(sites), kind, file, range);
        return;
      }
      var left, unlinked, _ := RemoveSite(sites[file], file, kind, range);
      FactsReset(sites, kind, file, range, left);
      if left.IsEmpty() {
        NoSitesNameNothing(left, file);
        sites := sites - {file};
      } else {
        sites := sites[file := left];
      }
      hide Inverse, Refers, Counted, Facts, ResetFacts;
      Relink(file, {}, unlinked);
      Refiled(old(sites), old(refs), sites, refs, file, {}, unlinked);
    }

    /** Stores the moved facts of one table of `holder`. */
    method RemapTable(holder: FileId, kind: Kind, remap: Remapping)
      requires Valid() && holder in sites
      modifies this
      ensures Valid() && holder in sites
      ensures Facts(sites) == var facts := old(Facts(sites));
        facts[holder := facts[holder].WithTable(kind, CarriedTable(remap, facts[holder].Table(kind)))]
    {
      ghost var facts := Facts(sites);
      var table := sites[holder].Table(kind);
      var moved := set r | r in table && remap(table[r]).Moved?;
      var rest := moved;
      CarryNone(facts, holder, kind, remap, table, moved);
      hide IndexValid, PartlyCarried, CarriedTable, Facts, StoredFacts;
      while rest != {}
        invariant Valid() && rest <= moved
        invariant Facts(sites) == facts[holder := facts[holder].WithTable(kind, PartlyCarried(remap, table, rest))]
      {
        var r :| r in rest;
        CarryOne(facts, holder, kind, remap, table, rest, r);
        Store(kind, holder, r, remap(table[r]).fact);
        rest := rest - {r};
      }
      FactsKeys(sites);
    }

    /** Stores every moved fact of `holder`. */
    method RemapHolder(holder: FileId, remap: Remapping)
      requires Valid() && holder in sites
      modifies this
      ensures Valid()
        && Facts(sites) == var facts := old(Facts(sites)); facts[holder := CarriedSites(remap, facts[holder])]
    {
      RemapTable(holder, Call, remap);
      RemapTable(holder, Helper, remap);
    }

    /**
     * An edit of `file`: every fact that names it, held elsewhere, is replaced by its remapped form.
     * Facts that have none are left alone and their sites returned.
     */
    method RemapSites(file: FileId, remap: Remapping) returns (lost: set<(FileId, Kind, Range)>)
      requires Valid() && RemapsOnly(remap, file)
      modifies this
      ensures Valid() && Facts(sites) == CarriedFacts(remap, old(Facts(sites)), old(sites).Keys - {file})
      ensures forall h, kind, r :: (h, kind, r) in lost <==> h != file && IsLost(remap, old(Facts(sites)), h, kind, r)
    {
      hide Facts, CarriedFacts, IsLost, AllLost, Parts, IndexValid, LostOf, RemapsOnly, CarriedSites;
      ghost var facts := Facts(sites);
      var holders := if file in refs then refs[file] else {};
      HoldersAreAffected(sites, refs, file, remap, holders);
      FactsKeys(sites);
      lost := {};
      var rest := holders;
      ghost var done := {};
      CarriedNone(remap, facts);
      PartsNone(holders);
      NoneLost(remap, facts);
      while rest != {}
        invariant Valid() && Parts(holders, done, rest)
        invariant Facts(sites) == CarriedFacts(remap, facts, done)
        invariant AllLost(remap, facts, done, lost)
        decreases |rest|
      {
        var h :| h in rest;
        PartsNext(holders, done, rest, h);
        rest := rest - {h};
        CarriedNext(remap, facts, done, h);
        FactsKeys(sites);
        LostIs(remap, facts, h, sites[h]);
        AllLostNext(remap, facts, done, lost, h, LostOf(remap, sites[h], h));
        lost := lost + LostOf(remap, sites[h], h);
        RemapHolder(h, remap);
        done := done + {h};
      }
      PartsDone(holders, done);
      AllLostDone(remap, facts, done, lost, file);
    }

    /** Forgets `file` as a holder. */
    method RemoveFile(file: FileId)
      requires Valid()
      modifies this
      ensures Valid() && Facts(sites) == old(Facts(sites)) - {file}
    {
      if file in sites {
        var named := sites[file].named.Keys;
        sites := sites - {file};
        Relink(file, {}, named);
      }
    }
  }

  /** `whole` in two parts that share nothing. */
  ghost predicate Parts(whole: set<FileId>, done: set<FileId>, rest: set<FileId>) {
    done + rest == whole && done !! rest
  }

  lemma PartsNone(whole: set<FileId>)
    ensures Parts(whole, {}, whole)
  {
  }

  lemma PartsNext(whole: set<FileId>, done: set<FileId>, rest: set<FileId>, h: FileId)
    requires Parts(whole, done, rest) && h in rest
    ensures Parts(whole, done + {h}, rest - {h}) && h in whole && h !in done && |rest - {h}| < |rest|
  {
  }

  lemma PartsDone(whole: set<FileId>, done: set<FileId>)
    requires Parts(whole, done, {})
    ensures done == whole
  {
  }

  /** What an edit makes of a fact: nothing, a fact with its positions moved, or a fact that did not survive. */
  datatype Remap = Unrelated | Moved(fact: Fact) | Lost

  type Remapping = Fact -> Remap

  function Carried(remap: Remapping, fact: Fact): Fact {
    if remap(fact).Moved? then remap(fact).fact else fact
  }

  function CarriedTable(remap: Remapping, table: map<Range, Fact>): map<Range, Fact> {
    map r | r in table :: Carried(remap, table[r])
  }

  function CarriedSites(remap: Remapping, sites: FileNetSites): FileNetSites {
    FileNetSites(CarriedTable(remap, sites.calls), CarriedTable(remap, sites.helpers), sites.named)
  }

  /** The table once every moved fact but those of `rest` is stored. */
  ghost function PartlyCarried(remap: Remapping, table: map<Range, Fact>, rest: set<Range>): map<Range, Fact> {
    map r | r in table :: if r in rest then table[r] else Carried(remap, table[r])
  }

  lemma CarryOne(facts: map<FileId, FileNetSites>, holder: FileId, kind: Kind, remap: Remapping,
                 table: map<Range, Fact>, rest: set<Range>, r: Range)
    requires holder in facts && r in rest && r in table && remap(table[r]).Moved?
    ensures StoredFacts(facts[holder := facts[holder].WithTable(kind, PartlyCarried(remap, table, rest))], kind,
        holder, r, remap(table[r]).fact)
         == facts[holder := facts[holder].WithTable(kind, PartlyCarried(remap, table, rest - {r}))]
  {
    assert PartlyCarried(remap, table, rest)[r := remap(table[r]).fact] == PartlyCarried(remap, table, rest - {r});
  }

  lemma CarryNone(facts: map<FileId, FileNetSites>, holder: FileId, kind: Kind, remap: Remapping,
                  table: map<Range, Fact>, moved: set<Range>)
    requires holder in facts && table == facts[holder].Table(kind) && moved == set r | r in table
      && remap(table[r]).Moved?
    ensures facts[holder := facts[holder].WithTable(kind, PartlyCarried(remap, table, moved))] == facts
    ensures PartlyCarried(remap, table, {}) == CarriedTable(remap, table)
  {
    assert PartlyCarried(remap, table, moved) == table;
  }

  lemma FactsKeys(sites: map<FileId, FileNetSites>)
    ensures Facts(sites).Keys == sites.Keys && forall h | h in sites :: Facts(sites)[h] == Bare(sites[h])
  {
  }

  /** The facts once those of the files `done` are carried. */
  ghost function CarriedFacts(remap: Remapping, facts: map<FileId, FileNetSites>,
                              done: set<FileId>): map<FileId, FileNetSites> {
    map h | h in facts :: if h in done then CarriedSites(remap, facts[h]) else facts[h]
  }

  lemma CarriedNone(remap: Remapping, facts: map<FileId, FileNetSites>)
    ensures CarriedFacts(remap, facts, {}) == facts
  {
  }

  lemma CarriedNext(remap: Remapping, facts: map<FileId, FileNetSites>, done: set<FileId>, h: FileId)
    requires h in facts && h !in done
    ensures h in CarriedFacts(remap, facts, done) && CarriedFacts(remap, facts, done)[h] == facts[h]
    ensures CarriedFacts(remap, facts, done)[h := CarriedSites(remap, facts[h])] == CarriedFacts(remap, facts,
        done + {h})
  {
  }

  /** The fact at a site after an edit of `file`: its moved form where it has one and another file holds it. */
  lemma CarriedReads(remap: Remapping, facts: map<FileId, FileNetSites>, file: FileId, h: FileId, r: Range)
    ensures var now := CarriedFacts(remap, facts, facts.Keys - {file});
      && (h in now <==> h in facts)
      && (h in facts && h == file ==> now[h] == facts[h])
      && (h in facts && h != file ==>
            && now[h].named == facts[h].named
            && Lookup(now[h].calls, r) == MovedSite(remap, Lookup(facts[h].calls, r))
            && Lookup(now[h].helpers, r) == MovedSite(remap, Lookup(facts[h].helpers, r)))
  {
  }

  function MovedSite(remap: Remapping, site: Option<Fact>): Option<Fact> {
    match site
    case None => None
    case Some(fact) => match remap(fact) case Moved(moved) => Some(moved) case Unrelated => site case Lost => site
  }

  /** The edit destroyed a position the site names. */
  ghost predicate IsLost(remap: Remapping, facts: map<FileId, FileNetSites>, h: FileId, kind: Kind, r: Range) {
    h in facts && r in facts[h].Table(kind) && remap(facts[h].Table(kind)[r]).Lost?
  }

  function LostOf(remap: Remapping, sites: FileNetSites, h: FileId): set<(FileId, Kind, Range)> {
    (set r | r in sites.calls && remap(sites.calls[r]).Lost? :: (h, Call, r))
    + (set r | r in sites.helpers && remap(sites.helpers[r]).Lost? :: (h, Helper, r))
  }

  lemma LostIs(remap: Remapping, facts: map<FileId, FileNetSites>, h: FileId, sites: FileNetSites)
    requires h in facts && facts[h] == Bare(sites)
    ensures forall o, kind, r :: (o, kind, r) in LostOf(remap, sites, h) <==> o == h && IsLost(remap, facts, o, kind, r)
  {
  }

  ghost predicate AllLost(remap: Remapping, facts: map<FileId, FileNetSites>, done: set<FileId>,
                          lost: set<(FileId, Kind, Range)>) {
    forall h, kind, r :: (h, kind, r) in lost <==> h in done && IsLost(remap, facts, h, kind, r)
  }

  lemma NoneLost(remap: Remapping, facts: map<FileId, FileNetSites>)
    ensures AllLost(remap, facts, {}, {})
  {
  }

  lemma AllLostNext(remap: Remapping, facts: map<FileId, FileNetSites>, done: set<FileId>,
                    lost: set<(FileId, Kind, Range)>, h: FileId, more: set<(FileId, Kind, Range)>)
    requires AllLost(remap, facts, done, lost)
    requires forall o, kind, r :: (o, kind, r) in more <==> o == h && IsLost(remap, facts, o, kind, r)
    ensures AllLost(remap, facts, done + {h}, lost + more)
  {
  }

  lemma AllLostDone(remap: Remapping, facts: map<FileId, FileNetSites>, done: set<FileId>,
                    lost: set<(FileId, Kind, Range)>, file: FileId)
    requires AllLost(remap, facts, done, lost) && file !in done
    requires forall h, kind, r | IsLost(remap, facts, h, kind, r) && h != file :: h in done
    ensures forall h, kind, r :: (h, kind, r) in lost <==> h != file && IsLost(remap, facts, h, kind, r)
  {
  }

  /** Carrying holders the edit leaves alone is carrying nothing. */
  lemma SameCarried(remap: Remapping, facts: map<FileId, FileNetSites>, some: set<FileId>, all: set<FileId>)
    requires some <= all && forall h | h in facts && h in all && h !in some :: CarriedSites(remap, facts[h]) == facts[h]
    ensures CarriedFacts(remap, facts, some) == CarriedFacts(remap, facts, all)
  {
    hide CarriedSites;
  }

  /** The files an edit carries or loses facts of are the holders filed under the edited file. */
  lemma HoldersAreAffected(sites: map<FileId, FileNetSites>, refs: Refs, file: FileId, remap: Remapping,
                           holders: set<FileId>)
    requires IndexValid(sites, refs) && RemapsOnly(remap, file) && holders == if file in refs then refs[file] else {}
    ensures forall h | h in holders :: h in sites && h != file
    ensures CarriedFacts(remap, Facts(sites), holders) == CarriedFacts(remap, Facts(sites), sites.Keys - {file})
    ensures forall h, kind, r | IsLost(remap, Facts(sites), h, kind, r) && h != file :: h in holders
  {
    assert forall h :: h in holders <==> Refers(refs, file, h);
    FactsKeys(sites);
    hide IndexValid, Facts, CarriedSites, CarriedFacts, RemapsOnly, Refers;
    forall h | h in holders ensures h in sites && h != file {
      HoldersNameTheFile(sites, refs, file, h);
    }
    forall h | h in sites && h != file && h !in holders
      ensures CarriedSites(remap, Facts(sites)[h]) == Facts(sites)[h]
      ensures forall kind, r :: !IsLost(remap, Facts(sites), h, kind, r)
    {
      Unaffected(sites, refs, file, remap, h);
    }
    SameCarried(remap, Facts(sites), holders, sites.Keys - {file});
  }

  lemma Unaffected(sites: map<FileId, FileNetSites>, refs: Refs, file: FileId, remap: Remapping, h: FileId)
    requires IndexValid(sites, refs) && RemapsOnly(remap, file) && h in sites && h != file && !Refers(refs, file, h)
    ensures CarriedSites(remap, Facts(sites)[h]) == Facts(sites)[h]
    ensures forall kind, r :: !IsLost(remap, Facts(sites), h, kind, r)
  {
    HoldersNameTheFile(sites, refs, file, h);
    assert !NamesFile(Bare(sites[h]), h, file);
    NothingCarried(remap, file, Bare(sites[h]), h);
  }

  /** An edit of `file` leaves alone every fact that does not name it. */
  ghost predicate RemapsOnly(remap: Remapping, file: FileId) {
    forall fact :: remap(fact).Unrelated? || file in fact.names
  }

  /** A file whose sites do not name the edited file has nothing to carry and nothing lost. */
  lemma NothingCarried(remap: Remapping, file: FileId, sites: FileNetSites, own: FileId)
    requires RemapsOnly(remap, file) && own != file && !NamesFile(sites, own, file)
    ensures CarriedSites(remap, sites) == sites
    ensures forall kind, r | r in sites.Table(kind) :: !remap(sites.Table(kind)[r]).Lost?
  {
    forall kind, r | r in sites.Table(kind) ensures remap(sites.Table(kind)[r]).Unrelated? {
      assert file !in NamedFiles(sites.Table(kind)[r], own);
    }
    assert forall r | r in sites.calls
        :: r in sites.Table(Call) && Carried(remap, sites.Table(Call)[r]) == sites.calls[r];
    assert forall r | r in sites.helpers
        :: r in sites.Table(Helper) && Carried(remap, sites.Table(Helper)[r]) == sites.helpers[r];
  }

  /** `facts` with one more fact filed. */
  function StoredFacts(facts: map<FileId, FileNetSites>, kind: Kind, file: FileId, range: Range,
                       fact: Fact): map<FileId, FileNetSites> {
    var now := SitesIn(facts, file);
    facts[file := now.WithTable(kind, now.Table(kind)[range := fact])]
  }

  /** `facts` with one fact dropped; a file left with none is dropped too. */
  function ResetFacts(facts: map<FileId, FileNetSites>, kind: Kind, file: FileId,
                      range: Range): map<FileId, FileNetSites> {
    var now := SitesIn(facts, file);
    var left := now.WithTable(kind, now.Table(kind) - {range});
    if left.IsEmpty() then facts - {file} else facts[file := left]
  }

  lemma FactsStored(sites: map<FileId, FileNetSites>, kind: Kind, file: FileId, range: Range, fact: Fact,
                    filed: FileNetSites)
    requires var now := SitesIn(sites, file); filed == now.WithTable(kind,
        now.Table(kind)[range := fact]).(named := filed.named)
    ensures Facts(sites[file := filed]) == StoredFacts(Facts(sites), kind, file, range, fact)
  {
  }

  lemma FactsReset(sites: map<FileId, FileNetSites>, kind: Kind, file: FileId, range: Range, left: FileNetSites)
    requires file in sites
      && left == sites[file].WithTable(kind, sites[file].Table(kind) - {range}).(named := left.named)
    ensures Facts(if left.IsEmpty() then sites - {file} else sites[file := left]) == ResetFacts(Facts(sites), kind,
        file, range)
  {
    assert Bare(left) == Facts(sites)[file].WithTable(kind, Facts(sites)[file].Table(kind) - {range});
  }

  lemma NothingCounted(own: FileId)
    ensures Counted(NO_SITES, own)
  {
    forall f ensures Count(NO_SITES, own, f) == 0 {
      assert Namers(NO_SITES.calls, own, f) == {};
      assert Namers(NO_SITES.helpers, own, f) == {};
    }
  }

  lemma NoSitesNameNothing(sites: FileNetSites, own: FileId)
    requires Counted(sites, own) && sites.IsEmpty()
    ensures sites.named == map[]
  {
    NothingCounted(own);
    SameTables(sites, NO_SITES, own);
    forall f ensures Lookup(sites.named, f) == Lookup(map[], f) {
    }
    SameLookups(sites.named, map[]);
  }

  lemma UnfiledReset(facts: map<FileId, FileNetSites>, kind: Kind, file: FileId, range: Range)
    requires forall h | h in facts :: !facts[h].IsEmpty()
    requires range !in SitesIn(facts, file).Table(kind)
    ensures ResetFacts(facts, kind, file, range) == facts
  {
    var now := SitesIn(facts, file);
    assert now.Table(kind) - {range} == now.Table(kind);
    assert now.WithTable(kind, now.Table(kind)) == now;
    if file !in facts {
      assert facts - {file} == facts;
    }
  }
}
