/**
 * A domain of several fields over the copy-on-write store, one memory per
 * field: the store's own installs, by rows or by columns and of the writers
 * alone, leave the domain and the reports its superstep is specified by.
 */
module StoredDomains {
  import opened Options
  import opened ThreeWay
  import opened ArcWorld
  import opened InstallSpec
  import opened CowFrames
  import opened CowMemory
  import opened StoredColumns
  import Supersteps

  type Column = Supersteps.Column
  type Kind = Supersteps.Kind
  type FieldName = Supersteps.Name

  // ----- a domain's memories

  /** Maps that hold field `f` of a domain, the first `n` forks installed and gone. */
  ghost predicate TakenIn(family: Family, c: Column, f: nat, self: Name, frozen: Name, forks: seq<Name>, n: nat)
    requires Supersteps.Formed(c) && f < |c.now| && |forks| == |c.forks| && n <= |forks|
  {
    && self in family && family[self] == Supersteps.FieldAfter(c, f, n)
    && frozen in family && family[frozen] == c.frozen[f]
    && forall i | n <= i < |forks| :: forks[i] in family && family[forks[i]] == c.forks[i][f]
  }

  /** A memory that holds them, its other forks still to install. */
  ghost predicate Taken(m: Memory, c: Column, f: nat, self: Name, frozen: Name, forks: seq<Name>, n: nat)
    reads m
  {
    && Supersteps.Formed(c) && f < |c.now| && |forks| == |c.forks| && n <= |forks|
    && m.Valid() && NoHands(m.world) && Installable(m.world, self, frozen, forks[n..])
    && TakenIn(m.Reads(), c, f, self, frozen, forks, n)
  }

  ghost predicate Apart(memories: seq<Memory>) {
    forall f, g | 0 <= f < g < |memories| :: memories[f] != memories[g]
  }

  /** Different memories hold the domain's fields and every fork of them. */
  ghost predicate Holding(memories: seq<Memory>, c: Column, self: Name, frozen: Name, forks: seq<Name>)
    reads memories
  {
    && Supersteps.Formed(c) && |memories| == |c.now| && |forks| == |c.forks| && Apart(memories)
    && forall f | 0 <= f < |memories| :: Taken(memories[f], c, f, self, frozen, forks, 0)
  }

  /** The memory holds what the superstep makes of field `f`. */
  ghost predicate Done(m: Memory, c: Column, f: nat, self: Name)
    reads m
  {
    && Supersteps.Formed(c) && f < |c.now| && m.Valid() && NoHands(m.world)
    && self in m.Reads() && m.Reads()[self] == Supersteps.FieldAfter(c, f, |c.forks|)
  }

  lemma TakenHolds(m: Memory, c: Column, f: nat, self: Name, frozen: Name, forks: seq<Name>)
    requires Supersteps.Formed(c) && f < |c.now| && |forks| == |c.forks| && Taken(m, c, f, self, frozen, forks, 0)
    ensures m.Valid() && NoHands(m.world) && Installable(m.world, self, frozen, forks)
    ensures Holds(m.Reads(), c, f, self, frozen, forks)
  {
    assert forks[0..] == forks;
  }

  // ----- by columns

  method InstallField(m: Memory, ghost c: Column, ghost f: nat, merge: Option<Merge<Value>>, self: Name, frozen: Name,
                      forks: seq<Name>, places: seq<nat>)
    returns (clashes: seq<nat>)
    requires Supersteps.Formed(c) && f < |c.now| && |forks| == |c.forks| && merge == c.kind.merges[f]
    requires Taken(m, c, f, self, frozen, forks, 0) && |places| == |forks| && Ascending(places)
    modifies m
    ensures Done(m, c, f, self) && clashes == Supersteps.Clashing(c, f, places, |c.forks|)
  {
    TakenHolds(m, c, f, self, frozen, forks);
    hide Taken, Holds, Installable, ArcWorld.Valid, FamilyOf, NoHands, Supersteps.FieldAfter, Supersteps.Clashing;
    clashes := InstallColumn(m, c, f, merge, self, frozen, forks, places);
  }

  method InstallFields(memories: seq<Memory>, kind: Kind, ghost c: Column, self: Name, frozen: Name, forks: seq<Name>,
                       places: seq<nat>)
    returns (reported: seq<seq<nat>>)
    requires Holding(memories, c, self, frozen, forks) && c.kind == kind && |places| == |forks| && Ascending(places)
    modifies memories
    ensures forall f | 0 <= f < |memories| :: Done(memories[f], c, f, self)
    ensures |reported| == |memories|
      && forall f | 0 <= f < |memories| :: reported[f] == Supersteps.Clashing(c, f, places, |c.forks|)
  {
    reported := [];
    hide Taken, Done, Supersteps.Clashing;
    for f := 0 to |memories|
      invariant |reported| == f
      invariant forall g | 0 <= g < f :: Done(memories[g], c, g, self)
      invariant forall g | f <= g < |memories| :: Taken(memories[g], c, g, self, frozen, forks, 0)
      invariant forall g | 0 <= g < f :: reported[g] == Supersteps.Clashing(c, g, places, |c.forks|)
    {
      var clashes := InstallField(memories[f], c, f, kind.merges[f], self, frozen, forks, places);
      reported := reported + [clashes];
    }
  }

  method InstallByColumns(memories: seq<Memory>, kind: Kind, ghost c: Column, self: Name, frozen: Name,
                          forks: seq<Name>, places: seq<nat>, count: nat)
    returns (reports: seq<seq<FieldName>>)
    requires Holding(memories, c, self, frozen, forks) && c.kind == kind && |places| == |forks| && Ascending(places)
    requires Supersteps.Placed(places, count)
    modifies memories
    ensures forall f | 0 <= f < |memories| :: Done(memories[f], c, f, self)
    ensures |reports| == count && Supersteps.Reported(c, places, |c.forks|, |c.now|, reports)
  {
    var reported := InstallFields(memories, kind, c, self, frozen, forks, places);
    reports := Supersteps.TellFields(c, kind, places, count, reported);
  }

  // ----- by rows

  /** One fork into one field of the store. */
  method InstallOne(m: Memory, ghost c: Column, ghost f: nat, merge: Option<Merge<Value>>, self: Name, frozen: Name,
                    forks: seq<Name>, i: nat)
    returns (clash: bool)
    requires Supersteps.Formed(c) && f < |c.now| && |forks| == |c.forks| && i < |forks| && merge == c.kind.merges[f]
    requires Taken(m, c, f, self, frozen, forks, i)
    modifies m
    ensures Taken(m, c, f, self, frozen, forks, i + 1) && clash == Supersteps.Clash(c, f, i)
  {
    ghost var family, rest := m.Reads(), forks[i..];
    OthersToCome(m.world, self, frozen, forks, i);
    hide *;
    clash := InstallNext(m, self, frozen, forks, i, merge);
    TakenNext(family, c, f, self, frozen, forks, i);
  }

  /** The next fork into the store, with the later ones still to install. */
  method InstallNext(m: Memory, self: Name, frozen: Name, forks: seq<Name>, i: nat, merge: Option<Merge<Value>>)
    returns (clash: bool)
    requires m.Valid() && NoHands(m.world) && i < |forks| && Installable(m.world, self, frozen, forks[i..])
    requires InFamily(m.Reads(), self, frozen, [forks[i]])
    modifies m
    ensures m.Valid() && NoHands(m.world) && Installable(m.world, self, frozen, forks[i + 1..])
    ensures var family, fork := old(m.Reads()), forks[i];
      && m.Reads() == (family - {fork})[self := MergeMaps(merge, family[self], family[frozen], family[fork])]
      && (clash <==> MapsConflict(merge, family[self], family[frozen], family[fork]))
  {
    ghost var rest, w := forks[i..], m.world;
    assert rest[0] == forks[i] && rest[1..] == forks[i + 1..];
    hide *;
    RemainingNone(w, self, frozen, rest);
    RemainingNext(w, w, self, frozen, rest, 0);
    clash := m.InstallWith(self, frozen, forks[i], merge);
    RemainingAfter(w, w, m.world, self, frozen, rest, 0);
    StillInstallable(w, m.world, self, frozen, rest);
  }

  lemma OthersToCome(w: World, self: Name, frozen: Name, forks: seq<Name>, i: nat)
    requires i < |forks| && Installable(w, self, frozen, forks[i..])
    ensures self != frozen && self != forks[i] && frozen != forks[i]
    ensures forall j | i < j < |forks| :: forks[j] != forks[i] && forks[j] != self
  {
    var rest := forks[i..];
    assert rest[0] == forks[i] && forall j | i <= j < |forks| :: rest[j - i] == forks[j];
  }

  lemma TakenNext(family: Family, c: Column, f: nat, self: Name, frozen: Name, forks: seq<Name>, i: nat)
    requires Supersteps.Formed(c) && f < |c.now| && |forks| == |c.forks| && i < |forks|
    requires TakenIn(family, c, f, self, frozen, forks, i)
    requires self != frozen && self != forks[i] && frozen != forks[i]
    requires forall j | i < j < |forks| :: forks[j] != forks[i] && forks[j] != self
    ensures InFamily(family, self, frozen, [forks[i]])
    ensures var fork, merge := forks[i], c.kind.merges[f];
      var merged := MergeMaps(merge, family[self], family[frozen], family[fork]);
      && TakenIn((family - {fork})[self := merged], c, f, self, frozen, forks, i + 1)
      && (MapsConflict(merge, family[self], family[frozen], family[fork]) <==> Supersteps.Clash(c, f, i))
  {
    hide MergeMaps, MapsConflict;
  }

  lemma StillInstallable(w: World, w': World, self: Name, frozen: Name, forks: seq<Name>)
    requires forks != [] && Installable(w, self, frozen, forks) && Remaining(w, w', self, frozen, forks, 1)
    ensures Installable(w', self, frozen, forks[1..])
  {
    forall i | 1 <= i < |forks| ensures forks[i] in w'.maps && ForkOf(w', frozen, forks[i]) {
      assert forks[i] !in forks[..1];
      ForkOfKept(w, w', frozen, forks[i]);
    }
  }

  lemma OthersApart(memories: seq<Memory>)
    requires Apart(memories)
    ensures forall f, g | 0 <= f < |memories| && 0 <= g < |memories| && f != g :: memories[f] != memories[g]
  {
  }

  lemma RowStart(c: Column, i: nat)
    requires Supersteps.Formed(c) && i < |c.forks|
    ensures Supersteps.Report(c, i, 0) == [] && |c.kind.names| == |c.kind.merges| == |c.now|
  {
    Supersteps.FormedNames(c);
  }

  lemma HoldingFacts(memories: seq<Memory>, c: Column, self: Name, frozen: Name, forks: seq<Name>)
    requires Holding(memories, c, self, frozen, forks)
    ensures Supersteps.Formed(c) && |memories| == |c.now| && |forks| == |c.forks| && Apart(memories)
    ensures forall f | 0 <= f < |memories| :: Taken(memories[f], c, f, self, frozen, forks, 0)
  {
    hide Taken;
  }

  /** One fork into every field, one after another; the names of those that conflict. */
  method InstallRow(memories: seq<Memory>, kind: Kind, ghost c: Column, self: Name, frozen: Name, forks: seq<Name>,
                    i: nat)
    returns (conflicts: seq<FieldName>)
    requires Supersteps.Formed(c) && |memories| == |c.now| && |forks| == |c.forks| && Apart(memories) && c.kind == kind
    requires i < |forks| && forall f | 0 <= f < |memories| :: Taken(memories[f], c, f, self, frozen, forks, i)
    modifies memories
    ensures forall f | 0 <= f < |memories| :: Taken(memories[f], c, f, self, frozen, forks, i + 1)
    ensures conflicts == Supersteps.Report(c, i, |c.now|)
  {
    hide *;
    conflicts := [];
    RowStart(c, i);
    OthersApart(memories);
    for f := 0 to |memories|
      invariant forall g | 0 <= g < f :: Taken(memories[g], c, g, self, frozen, forks, i + 1)
      invariant forall g | f <= g < |memories| :: Taken(memories[g], c, g, self, frozen, forks, i)
      invariant conflicts == Supersteps.Report(c, i, f)
    {
      Supersteps.ReportStep(c, i, f);
      var clash := InstallOne(memories[f], c, f, kind.merges[f], self, frozen, forks, i);
      if clash {
        conflicts := conflicts + [kind.names[f]];
      }
    }
  }

  method InstallByRows(memories: seq<Memory>, kind: Kind, ghost c: Column, self: Name, frozen: Name,
                       forks: seq<Name>, places: seq<nat>, count: nat)
    returns (reports: seq<seq<FieldName>>)
    requires Holding(memories, c, self, frozen, forks) && c.kind == kind && |places| == |forks|
    requires Supersteps.Placed(places, count)
    modifies memories
    ensures forall f | 0 <= f < |memories| :: Done(memories[f], c, f, self)
    ensures |reports| == count && Supersteps.Reported(c, places, |c.forks|, |c.now|, reports)
  {
    hide *;
    HoldingFacts(memories, c, self, frozen, forks);
    reports := seq(count, _ => []);
    Supersteps.NothingReported(c, places, reports);
    for i := 0 to |forks|
      invariant forall f | 0 <= f < |memories| :: Taken(memories[f], c, f, self, frozen, forks, i)
      invariant |reports| == count && Supersteps.Reported(c, places, i, |c.now|, reports)
    {
      var conflicts := InstallRow(memories, kind, c, self, frozen, forks, i);
      Supersteps.ReportPlaced(c, places, i, reports);
      reports := reports[places[i] := reports[places[i]] + conflicts];
    }
    forall f | 0 <= f < |memories| ensures Done(memories[f], c, f, self) {
      TakenAll(memories[f], c, f, self, frozen, forks);
    }
  }

  lemma TakenAll(m: Memory, c: Column, f: nat, self: Name, frozen: Name, forks: seq<Name>)
    requires Supersteps.Formed(c) && f < |c.now| && |forks| == |c.forks|
    requires Taken(m, c, f, self, frozen, forks, |forks|)
    ensures Done(m, c, f, self)
  {
    hide NoHands, ArcWorld.Valid, Installable;
  }

  // ----- the writers alone

  /** The forks that wrote some field, by their pointers: the others read the domain as frozen. */
  method Wrote(memories: seq<Memory>, ghost c: Column, self: Name, frozen: Name, forks: seq<Name>)
    returns (wrote: seq<bool>)
    requires Holding(memories, c, self, frozen, forks)
    ensures |wrote| == |forks| && Supersteps.Honest(c, wrote)
  {
    wrote := seq(|forks|, _ => false);
    hide Taken;
    for f := 0 to |memories|
      invariant |wrote| == |forks|
      invariant forall i, g | 0 <= i < |forks| && !wrote[i] && 0 <= g < f :: c.forks[i][g] == c.frozen[g]
    {
      var more := WroteField(memories[f], c, f, self, frozen, forks);
      wrote := seq(|forks|, i requires 0 <= i < |forks| => wrote[i] || more[i]);
    }
    forall i | 0 <= i < |forks| && !wrote[i] ensures c.forks[i] == c.frozen {
      assert |c.forks[i]| == |c.frozen| == |memories|;
    }
  }

  method WroteField(m: Memory, ghost c: Column, ghost f: nat, self: Name, frozen: Name, forks: seq<Name>)
    returns (wrote: seq<bool>)
    requires Supersteps.Formed(c) && f < |c.now| && |forks| == |c.forks| && Taken(m, c, f, self, frozen, forks, 0)
    ensures |wrote| == |forks| && forall i | 0 <= i < |forks| && !wrote[i] :: c.forks[i][f] == c.frozen[f]
  {
    assert forks[0..] == forks;
    wrote := WroteFlags(m, frozen, forks);
  }

  /** A memory that holds a field's forks holds some of them. */
  lemma TakenOnly(m: Memory, c: Column, f: nat, self: Name, frozen: Name, forks: seq<Name>, ws: seq<nat>,
                  some: seq<Name>)
    requires Supersteps.Formed(c) && f < |c.now| && |forks| == |c.forks| && Taken(m, c, f, self, frozen, forks, 0)
    requires Ascending(ws) && (forall j | 0 <= j < |ws| :: ws[j] < |forks|) && |some| == |ws|
      && forall j | 0 <= j < |ws| :: some[j] == forks[ws[j]]
    ensures Supersteps.Formed(Supersteps.Only(c, ws)) && Taken(m, Supersteps.Only(c, ws), f, self, frozen, some, 0)
  {
    var only := Supersteps.Only(c, ws);
    Supersteps.OnlyIsFormed(c, ws);
    assert forks[0..] == forks && some[0..] == some;
    hide ArcWorld.Valid, NoHands, FamilyOf, ForkOf;
    assert Installable(m.world, self, frozen, some);
    assert Supersteps.FieldAfter(only, f, 0) == only.now[f] == c.now[f] == Supersteps.FieldAfter(c, f, 0);
  }

  /**
   * A domain's superstep over the store: its writers found by their pointers and installed by rows or
   * by columns leave every field's superstep over all forks, and every fork's report.
   */
  method InstallDomain(memories: seq<Memory>, kind: Kind, ghost c: Column, self: Name, frozen: Name, forks: seq<Name>)
    returns (reports: seq<seq<FieldName>>)
    requires Holding(memories, c, self, frozen, forks) && c.kind == kind
    modifies memories
    ensures forall f | 0 <= f < |memories| :: Done(memories[f], c, f, self)
    ensures |reports| == |forks| && forall i | 0 <= i < |forks| :: reports[i] == Supersteps.Report(c, i, |c.now|)
  {
    var wrote := Wrote(memories, c, self, frozen, forks);
    var ws := Supersteps.Writers(wrote, |wrote|);
    Supersteps.WritersAre(wrote, |wrote|);
    Supersteps.AllWriters(c, wrote, ws);
    Supersteps.OnlyKeeps(c, ws);
    var some := seq(|ws|, j requires 0 <= j < |ws| => forks[ws[j]]);
    ghost var only := Supersteps.Only(c, ws);
    forall f | 0 <= f < |memories| ensures Taken(memories[f], only, f, self, frozen, some, 0) {
      TakenOnly(memories[f], c, f, self, frozen, forks, ws, some);
    }
    hide Taken, Done, Supersteps.Writers, Supersteps.Only, Supersteps.Report, Supersteps.Reported, Supersteps.Honest;
    hide Supersteps.FieldAfter;
    if ws == [] {
      reports := seq(|forks|, _ => []);
      Supersteps.NothingReported(only, ws, reports);
      forall f | 0 <= f < |memories| ensures Done(memories[f], only, f, self) {
        TakenAll(memories[f], only, f, self, frozen, some);
      }
    } else if kind.byField {
      reports := InstallByColumns(memories, kind, only, self, frozen, some, ws, |forks|);
    } else {
      reports := InstallByRows(memories, kind, only, self, frozen, some, ws, |forks|);
    }
    Supersteps.ReportsOfAll(c, wrote, ws, reports);
    forall f | 0 <= f < |memories| ensures Done(memories[f], c, f, self) {
      DoneAlike(memories[f], only, c, f, self);
    }
  }

  lemma DoneAlike(m: Memory, only: Column, c: Column, f: nat, self: Name)
    requires Supersteps.Formed(c) && Supersteps.Formed(only) && only.now == c.now && f < |c.now|
    requires Supersteps.After(only, |only.forks|) == Supersteps.After(c, |c.forks|) && Done(m, only, f, self)
    ensures Done(m, c, f, self)
  {
    assert Supersteps.After(only, |only.forks|)[f] == Supersteps.After(c, |c.forks|)[f];
  }

  // ----- the whole index

  datatype StoredDomain = StoredDomain(memories: seq<Memory>, kind: Kind)

  ghost predicate HoldingDomain(d: StoredDomain, c: Column, self: Name, frozen: Name, forks: seq<Name>)
    reads d.memories
  {
    Holding(d.memories, c, self, frozen, forks) && c.kind == d.kind
  }

  ghost predicate DoneDomain(d: StoredDomain, c: Column, self: Name)
    reads d.memories
  {
    |d.memories| == |c.now| && forall f | 0 <= f < |d.memories| :: Done(d.memories[f], c, f, self)
  }

  ghost predicate Disjoint(a: StoredDomain, b: StoredDomain) {
    forall m | m in a.memories :: m !in b.memories
  }

  /** No memory is in two domains. */
  ghost predicate DomainsApart(ds: seq<StoredDomain>) {
    forall d, e | 0 <= d < |ds| && 0 <= e < |ds| && d != e :: Disjoint(ds[d], ds[e])
  }

  ghost predicate AllFormed(cs: seq<Column>, forks: nat) {
    forall d | 0 <= d < |cs| :: Supersteps.Formed(cs[d]) && |cs[d].forks| == forks
  }

  /** Fork `i`'s conflicts in the first `n` domains, in domain order. */
  ghost function Joined(cs: seq<Column>, forks: nat, i: nat, n: nat): seq<FieldName>
    requires AllFormed(cs, forks) && i < forks && n <= |cs|
  {
    if n == 0 then [] else Joined(cs, forks, i, n - 1) + Supersteps.Report(cs[n - 1], i, |cs[n - 1].now|)
  }

  /** They are the conflicts the barrier reports of those domains, whatever each fork says it wrote. */
  lemma {:induction false} JoinedIsReports(ds: seq<Supersteps.Domain>, cs: seq<Column>, forks: nat, i: nat, n: nat)
    requires |ds| == |cs| && (forall d | 0 <= d < |ds| :: Supersteps.Sound(ds[d], forks) && ds[d].column == cs[d])
    requires AllFormed(cs, forks) && i < forks && n <= |cs|
    ensures Joined(cs, forks, i, n) == Supersteps.Reports(ds, forks, i, n)
  {
    hide Supersteps.Sound, AllFormed, Supersteps.Report;
    if n > 0 {
      JoinedIsReports(ds, cs, forks, i, n - 1);
    }
  }

  /** One domain, as a whole. */
  method InstallStored(d: StoredDomain, ghost c: Column, self: Name, frozen: Name, forks: seq<Name>)
    returns (reports: seq<seq<FieldName>>)
    requires HoldingDomain(d, c, self, frozen, forks)
    modifies d.memories
    ensures DoneDomain(d, c, self) && |reports| == |forks| == |c.forks| && Supersteps.Formed(c)
    ensures forall i | 0 <= i < |forks| :: reports[i] == Supersteps.Report(c, i, |c.now|)
  {
    reports := InstallDomain(d.memories, d.kind, c, self, frozen, forks);
  }

  /** Different domains whose memories are all in `repr`. */
  ghost predicate Within(ds: seq<StoredDomain>, repr: set<Memory>) {
    DomainsApart(ds) && forall d, m | 0 <= d < |ds| && m in ds[d].memories :: m in repr
  }

  lemma InRepr(ds: seq<StoredDomain>, repr: set<Memory>, d: nat)
    requires d < |ds| && Within(ds, repr)
    ensures forall f | 0 <= f < |ds[d].memories| :: ds[d].memories[f] in repr
    ensures forall e, f | 0 <= e < |ds| && e != d && 0 <= f < |ds[e].memories| :: ds[e].memories[f] !in ds[d].memories
  {
    forall e, f | 0 <= e < |ds| && e != d && 0 <= f < |ds[e].memories| ensures ds[e].memories[f] !in ds[d].memories {
      assert Disjoint(ds[e], ds[d]);
    }
  }

  /** The first `n` domains installed, the others still to install. */
  ghost predicate Upto(ds: seq<StoredDomain>, repr: set<Memory>, cs: seq<Column>, self: Name, frozen: Name,
                       forks: seq<Name>, n: nat)
    reads repr
  {
    && |cs| == |ds| && Within(ds, repr)
    && (forall d | 0 <= d < |ds| && d < n :: DoneDomain(ds[d], cs[d], self))
    && (forall d | 0 <= d < |ds| && d >= n :: HoldingDomain(ds[d], cs[d], self, frozen, forks))
  }

  method InstallNextDomain(ds: seq<StoredDomain>, ghost repr: set<Memory>, ghost cs: seq<Column>, self: Name,
                           frozen: Name, forks: seq<Name>, d: nat)
    returns (reports: seq<seq<FieldName>>)
    requires d < |ds| && Upto(ds, repr, cs, self, frozen, forks, d)
    modifies repr
    ensures Upto(ds, repr, cs, self, frozen, forks, d + 1)
    ensures |cs| == |ds| && Supersteps.Formed(cs[d]) && |reports| == |forks| == |cs[d].forks|
    ensures forall i | 0 <= i < |forks| :: reports[i] == Supersteps.Report(cs[d], i, |cs[d].now|)
  {
    InRepr(ds, repr, d);
    hide Taken, Done, Within, DomainsApart, Disjoint, Apart, Supersteps.Formed, Supersteps.Report;
    reports := InstallStored(ds[d], cs[d], self, frozen, forks);
    forall e | 0 <= e < |ds| && e < d ensures DoneDomain(ds[e], cs[e], self) {
      assert old(DoneDomain(ds[e], cs[e], self));
    }
    forall e | 0 <= e < |ds| && e > d ensures HoldingDomain(ds[e], cs[e], self, frozen, forks) {
      assert old(HoldingDomain(ds[e], cs[e], self, frozen, forks));
    }
  }

  lemma JoinedNext(cs: seq<Column>, forks: nat, n: nat, before: seq<seq<FieldName>>, reports: seq<seq<FieldName>>,
                   after: seq<seq<FieldName>>)
    requires AllFormed(cs, forks) && n < |cs| && |before| == |reports| == |after| == forks
    requires forall i | 0 <= i < forks :: before[i] == Joined(cs, forks, i, n)
    requires Supersteps.Formed(cs[n]) && |cs[n].forks| == forks
      && forall i | 0 <= i < forks :: reports[i] == Supersteps.Report(cs[n], i, |cs[n].now|)
    requires forall i | 0 <= i < forks :: after[i] == before[i] + reports[i]
    ensures forall i | 0 <= i < forks :: after[i] == Joined(cs, forks, i, n + 1)
  {
    hide Supersteps.Report, Supersteps.Formed;
  }

  lemma HoldingIsFormed(ds: seq<StoredDomain>, repr: set<Memory>, cs: seq<Column>, self: Name, frozen: Name,
                        forks: seq<Name>)
    requires Upto(ds, repr, cs, self, frozen, forks, 0)
    ensures |cs| == |ds| && AllFormed(cs, |forks|) && forall i | 0 <= i < |forks| :: Joined(cs, |forks|, i, 0) == []
  {
    hide Taken, Supersteps.Formed;
    forall d | 0 <= d < |cs| ensures Supersteps.Formed(cs[d]) && |cs[d].forks| == |forks| {
      assert HoldingDomain(ds[d], cs[d], self, frozen, forks);
    }
  }

  /** Every domain's superstep, and the reports joined in domain order. */
  method InstallDomains(ds: seq<StoredDomain>, ghost repr: set<Memory>, ghost cs: seq<Column>, self: Name,
                        frozen: Name, forks: seq<Name>)
    returns (conflicts: seq<seq<FieldName>>)
    requires Upto(ds, repr, cs, self, frozen, forks, 0)
    modifies repr
    ensures Upto(ds, repr, cs, self, frozen, forks, |ds|)
    ensures |cs| == |ds| && AllFormed(cs, |forks|) && |conflicts| == |forks|
    ensures forall i | 0 <= i < |forks| :: conflicts[i] == Joined(cs, |forks|, i, |cs|)
  {
    hide *;
    HoldingIsFormed(ds, repr, cs, self, frozen, forks);
    conflicts := seq(|forks|, _ => []);
    for d := 0 to |ds|
      invariant Upto(ds, repr, cs, self, frozen, forks, d)
      invariant |conflicts| == |forks|
      invariant forall i | 0 <= i < |forks| :: conflicts[i] == Joined(cs, |forks|, i, d)
    {
      var reports := InstallNextDomain(ds, repr, cs, self, frozen, forks, d);
      var before := conflicts;
      conflicts := seq(|forks|, i requires 0 <= i < |forks| => before[i] + reports[i]);
      JoinedNext(cs, |forks|, d, before, reports, conflicts);
    }
  }

  /** The index's own fields, by rows; each fork's conflicts behind those it has. */
  method InstallOwn(own: StoredDomain, ghost c: Column, self: Name, frozen: Name, forks: seq<Name>,
                    before: seq<seq<FieldName>>)
    returns (conflicts: seq<seq<FieldName>>)
    requires HoldingDomain(own, c, self, frozen, forks) && |before| == |forks|
    modifies own.memories
    ensures DoneDomain(own, c, self) && Supersteps.Formed(c) && |c.forks| == |forks| == |conflicts|
    ensures forall i | 0 <= i < |forks| :: conflicts[i] == before[i] + Supersteps.Report(c, i, |c.now|)
  {
    hide *;
    OwnFacts(own, c, self, frozen, forks);
    HoldingFacts(own.memories, c, self, frozen, forks);
    conflicts := before;
    for i := 0 to |forks|
      invariant forall f | 0 <= f < |own.memories| :: Taken(own.memories[f], c, f, self, frozen, forks, i)
      invariant |conflicts| == |forks| && forall j | i <= j < |forks| :: conflicts[j] == before[j]
      invariant forall j | 0 <= j < i :: conflicts[j] == before[j] + Supersteps.Report(c, j, |c.now|)
    {
      var more := InstallRow(own.memories, own.kind, c, self, frozen, forks, i);
      conflicts := conflicts[i := conflicts[i] + more];
    }
    OwnDone(own, c, self, frozen, forks);
  }

  lemma OwnFacts(own: StoredDomain, c: Column, self: Name, frozen: Name, forks: seq<Name>)
    requires HoldingDomain(own, c, self, frozen, forks)
    ensures Holding(own.memories, c, self, frozen, forks) && c.kind == own.kind
  {
    hide Holding;
  }

  lemma OwnDone(own: StoredDomain, c: Column, self: Name, frozen: Name, forks: seq<Name>)
    requires Supersteps.Formed(c) && |own.memories| == |c.now| && |forks| == |c.forks|
    requires forall f | 0 <= f < |own.memories| :: Taken(own.memories[f], c, f, self, frozen, forks, |forks|)
    ensures DoneDomain(own, c, self)
  {
    hide Taken, Done;
    forall f | 0 <= f < |own.memories| ensures Done(own.memories[f], c, f, self) {
      TakenAll(own.memories[f], c, f, self, frozen, forks);
    }
  }

  /**
   * The barrier over the store: every domain installs its writers, in its own way, then the index's
   * own fields follow. Every field is left its superstep and every fork its conflicts, in order.
   */
  method InstallTasks(ds: seq<StoredDomain>, ghost repr: set<Memory>, ghost cs: seq<Column>, own: StoredDomain,
                      ghost c: Column, self: Name, frozen: Name, forks: seq<Name>)
    returns (conflicts: seq<seq<FieldName>>)
    requires Upto(ds, repr, cs, self, frozen, forks, 0) && HoldingDomain(own, c, self, frozen, forks)
    requires forall m | m in own.memories :: m !in repr
    modifies repr, own.memories
    ensures Upto(ds, repr, cs, self, frozen, forks, |ds|) && DoneDomain(own, c, self)
    ensures |cs| == |ds| && AllFormed(cs, |forks|) && Supersteps.Formed(c) && |c.forks| == |forks| == |conflicts|
    ensures forall i | 0 <= i < |forks| ::
              conflicts[i] == Joined(cs, |forks|, i, |cs|) + Supersteps.Report(c, i, |c.now|)
  {
    hide *;
    var reported := InstallDomains(ds, repr, cs, self, frozen, forks);
    conflicts := InstallOwn(own, c, self, frozen, forks, reported);
  }
}
