/**
 * Installing tasks that file net sites of different files: the plain install
 * of the sites and the set-merging install of their inverse agree again, and
 * leave what running the tasks one after another leaves.
 */
module NetSitesInstall {
  import opened Options
  import opened ThreeWay
  import opened MergeAlgebra
  import Pruning
  import opened LocalTasks
  import opened NetSites

  type Sites = map<FileId, FileNetSites>

  // ----- the index survives the merge

  ghost predicate ValidForks(frozen: Sites, refs: Refs, sites: seq<Sites>, links: seq<Refs>) {
    && IndexValid(frozen, refs) && |sites| == |links|
    && (forall i | 0 <= i < |sites| :: IndexValid(sites[i], links[i]))
    && DisjointWriters(frozen, sites)
  }

  lemma HoldsHolder(sites: Sites, refs: Refs, f: FileId, h: FileId)
    requires IndexValid(sites, refs)
    ensures h in Elements(Lookup(refs, f)) <==> f in NamedBy(sites, h)
  {
    assert Refers(refs, f, h) <==> f in NamedBy(sites, h);
  }

  /** A holder names a file after the merge exactly when the merged holder set of the file has it. */
  lemma MergedRefers(frozen: Sites, refs: Refs, sites: seq<Sites>, links: seq<Refs>, f: FileId, h: FileId)
    requires ValidForks(frozen, refs, sites, links)
    ensures var merged, linked := FoldMaps(None, frozen, frozen, sites), FoldMaps(SetMerge(), refs, refs, links);
      Refers(linked, f, h) <==> f in NamedBy(merged, h)
  {
    var column, holders := Column(sites, h), Column(links, f);
    hide IndexValid, FoldMaps, FoldKey, SetMerge, OneWriter;
    FoldMapsByKey(None, frozen, frozen, sites, h);
    FoldMapsByKey(SetMerge(), refs, refs, links, f);
    assert OneWriter(Lookup(frozen, h), column);
    OneWriterFold(Lookup(frozen, h), column);
    HoldsHolder(frozen, refs, f, h);
    forall i | 0 <= i < |sites| ensures h in Elements(holders[i]) <==> f in NamedBy(sites[i], h) {
      HoldsHolder(sites[i], links[i], f, h);
    }
    var w := Writer(Lookup(frozen, h), column);
    OneWriterOthers(Lookup(frozen, h), column);
    forall i | 0 <= i < |sites| && i != w ensures h in Elements(holders[i]) <==> h in Elements(Lookup(refs, f)) {
      assert column[i] == Lookup(frozen, h);
    }
    OneWriterElement(Lookup(refs, f), holders, h, w);
  }

  /** Merged sites and merged holder sets are again a valid index, and no fork conflicts. */
  lemma MergedIndexIsValid(frozen: Sites, refs: Refs, sites: seq<Sites>, links: seq<Refs>)
    requires ValidForks(frozen, refs, sites, links)
    ensures IndexValid(FoldMaps(None, frozen, frozen, sites), FoldMaps(SetMerge(), refs, refs, links))
    ensures forall i: nat | i < |sites| ::
            !ForkConflicts(None, frozen, frozen, sites, i) && !ForkConflicts(SetMerge(), refs, refs, links, i)
  {
    var merged, linked := FoldMaps(None, frozen, frozen, sites), FoldMaps(SetMerge(), refs, refs, links);
    forall h | h in merged ensures Counted(merged[h], h) && !merged[h].IsEmpty() {
      FoldMapsByKey(None, frozen, frozen, sites, h);
      OneWriterFold(Lookup(frozen, h), Column(sites, h));
    }
    forall f, h ensures Refers(linked, f, h) <==> h in merged && f in merged[h].named {
      MergedRefers(frozen, refs, sites, links, f, h);
    }
    forall f | f in linked ensures linked[f] != {} {
      FoldMapsByKey(SetMerge(), refs, refs, links, f);
      SetFold(Lookup(refs, f), Lookup(refs, f), Column(links, f));
    }
    DisjointNeverConflict(frozen, sites);
    Pruning.TotalNeverConflicts(SetMerge<FileId>().value, refs, refs, links);
  }

  // ----- the same as one task after another

  datatype NetOp =
    | Store(kind: Kind, file: FileId, range: Range, fact: Fact)
    | Reset(kind: Kind, file: FileId, range: Range)
    | RemoveFile(file: FileId)

  /** What an operation makes of the facts of the file it names. */
  function Change(op: NetOp, was: Option<FileNetSites>): Option<FileNetSites> {
    var now := if was.Some? then was.value else NO_SITES;
    match op
    case Store(kind, _, range, fact) => Some(now.WithTable(kind, now.Table(kind)[range := fact]))
    case Reset(kind, _, range) =>
      var left := now.WithTable(kind, now.Table(kind) - {range});
      if left.IsEmpty() then None else Some(left)
    case RemoveFile(_) => None
  }

  function Local(op: NetOp): LocalOp<FileId, FileNetSites> {
    LocalOp(op.file, was => Change(op, was))
  }

  function LocalOps(ops: seq<NetOp>): (local: seq<LocalOp<FileId, FileNetSites>>)
    ensures |local| == |ops|
  {
    seq(|ops|, i requires 0 <= i < |ops| => Local(ops[i]))
  }

  /** An operation on one holder, or an edit of `file` that moves the positions other holders' facts name. */
  datatype NetUpdate = Own(op: NetOp) | Edit(file: FileId, remap: Remapping)

  ghost function Updated(facts: Sites, update: NetUpdate): Sites {
    match update
    case Own(op) => ApplyOp(facts, Local(op))
    case Edit(file, remap) => CarriedFacts(remap, facts, facts.Keys - {file})
  }

  /** The facts after every update, whatever the index keeps beside them. */
  ghost function Run(facts: Sites, updates: seq<NetUpdate>): Sites
    decreases |updates|
  {
    if updates == [] then facts else Updated(Run(facts, updates[..|updates| - 1]), updates[|updates| - 1])
  }

  lemma RunNext(facts: Sites, updates: seq<NetUpdate>, i: nat)
    requires i < |updates|
    ensures Run(facts, updates[..i + 1]) == Updated(Run(facts, updates[..i]), updates[i])
  {
    assert updates[..i + 1][..i] == updates[..i];
  }

  /** What an update loses: the sites of other holders whose position the edit destroyed. */
  ghost predicate Loses(facts: Sites, update: NetUpdate, h: FileId, kind: Kind, r: Range) {
    update.Edit? && h != update.file && IsLost(update.remap, facts, h, kind, r)
  }

  type Lost = set<(FileId, Kind, Range)>

  ghost predicate LosesExactly(facts: Sites, update: NetUpdate, lost: Lost) {
    forall h: FileId, kind: Kind, r: Range :: (h, kind, r) in lost <==> Loses(facts, update, h, kind, r)
  }

  /** What each of the first updates lost of the facts it found. */
  ghost predicate LostBy(facts: Sites, updates: seq<NetUpdate>, lost: seq<Lost>) {
    |lost| <= |updates| && forall i | 0 <= i < |lost| :: LosesExactly(Run(facts, updates[..i]), updates[i], lost[i])
  }

  lemma LostNext(facts: Sites, updates: seq<NetUpdate>, lost: seq<Lost>, gone: Lost)
    requires LostBy(facts, updates, lost) && |lost| < |updates|
    requires LosesExactly(Run(facts, updates[..|lost|]), updates[|lost|], gone)
    ensures LostBy(facts, updates, lost + [gone])
  {
    hide LosesExactly, Run;
  }

  method Apply(index: NetIndex, update: NetUpdate) returns (lost: Lost)
    requires index.Valid() && (update.Edit? ==> RemapsOnly(update.remap, update.file))
    modifies index
    ensures index.Valid() && Facts(index.sites) == Updated(old(Facts(index.sites)), update)
    ensures LosesExactly(old(Facts(index.sites)), update, lost)
  {
    FactsKeys(index.sites);
    hide IndexValid, Facts, CarriedFacts, IsLost, RemapsOnly;
    lost := {};
    match update {
      case Own(Store(kind, file, range, fact)) => index.Store(kind, file, range, fact);
      case Own(Reset(kind, file, range)) => index.Reset(kind, file, range);
      case Own(RemoveFile(file)) => index.RemoveFile(file);
      case Edit(file, remap) => lost := index.RemapSites(file, remap);
    }
  }

  /** Runs the updates on an index: it stays valid with the run's facts, and every edit reports what it lost. */
  method Execute(index: NetIndex, updates: seq<NetUpdate>) returns (lost: seq<Lost>)
    requires index.Valid() && forall u | u in updates && u.Edit? :: RemapsOnly(u.remap, u.file)
    modifies index
    ensures index.Valid() && Facts(index.sites) == Run(old(Facts(index.sites)), updates)
    ensures |lost| == |updates| && LostBy(old(Facts(index.sites)), updates, lost)
  {
    ghost var facts := Facts(index.sites);
    assert Run(facts, updates[..0]) == facts;
    lost := [];
    assert LostBy(facts, updates, lost);
    hide IndexValid, Facts, Run, Updated, LostBy, LosesExactly, RemapsOnly;
    for i := 0 to |updates|
      invariant index.Valid() && Facts(index.sites) == Run(facts, updates[..i])
      invariant |lost| == i && LostBy(facts, updates, lost)
    {
      RunNext(facts, updates, i);
      var gone := Apply(index, updates[i]);
      LostNext(facts, updates, lost, gone);
      lost := lost + [gone];
    }
    assert updates[..|updates|] == updates;
  }

  /** A run on holders' own facts is the run of a task. */
  lemma {:induction false} OwnRun(facts: Sites, ops: seq<NetOp>, updates: seq<NetUpdate>)
    requires |updates| == |ops| && forall i | 0 <= i < |ops| :: updates[i] == Own(ops[i])
    ensures Run(facts, updates) == RunOps(facts, LocalOps(ops))
    decreases |ops|
  {
    if ops != [] {
      var n := |ops| - 1;
      OwnRun(facts, ops[..n], updates[..n]);
      assert LocalOps(ops)[..n] == LocalOps(ops[..n]);
      hide RunOps, Run;
      RunNext(facts, updates, n);
      assert updates[..n + 1] == updates;
      RunOpsLast(facts, LocalOps(ops));
    }
  }

  lemma RunOpsLast(facts: Sites, local: seq<LocalOp<FileId, FileNetSites>>)
    requires local != []
    ensures RunOps(facts, local) == ApplyOp(RunOps(facts, local[..|local| - 1]), local[|local| - 1])
  {
  }

  ghost function FactsOf(sites: seq<Sites>): (facts: seq<Sites>)
    ensures |facts| == |sites|
  {
    seq(|sites|, i requires 0 <= i < |sites| => Facts(sites[i]))
  }

  /** Valid indexes agree on a file's sites exactly when they agree on its facts. */
  lemma FactsDetermineSites(a: Sites, b: Sites, h: FileId)
    requires Kept(a) && Kept(b)
    ensures Lookup(a, h) == Lookup(b, h) <==> Lookup(Facts(a), h) == Lookup(Facts(b), h)
  {
    FactsKeys(a);
    FactsKeys(b);
    if h in a && h in b && Bare(a[h]) == Bare(b[h]) {
      SameTables(a[h], b[h], h);
      SameLookups(a[h].named, b[h].named);
    }
  }

  /**
   * A superstep of tasks that file net sites of different files: no fork
   * conflicts, the merged index is valid, and it is the one that running
   * the tasks one after another leaves.
   */
  lemma NetSuperstep(frozen: Sites, refs: Refs, sites: seq<Sites>, links: seq<Refs>, tasks: seq<seq<LocalOp<FileId,
                     FileNetSites>>>)
    requires IndexValid(frozen, refs) && |sites| == |links| == |tasks| && DisjointTasks(tasks)
    requires forall i | 0 <= i < |sites| ::
            IndexValid(sites[i], links[i]) && Facts(sites[i]) == RunOps(Facts(frozen), tasks[i])
    ensures var merged, linked := FoldMaps(None, frozen, frozen, sites), FoldMaps(SetMerge(), refs, refs, links);
      IndexValid(merged, linked) && Facts(merged) == RunOps(Facts(frozen), Concat(tasks))
    ensures forall i: nat | i < |sites| ::
            !ForkConflicts(None, frozen, frozen, sites, i) && !ForkConflicts(SetMerge(), refs, refs, links, i)
  {
    var facts := Facts(frozen);
    assert FactsOf(sites) == Forked(facts, tasks);
    MergedIsSequential(facts, tasks);
    forall h ensures OneWriter(Lookup(frozen, h), Column(sites, h)) {
      SitesWritten(frozen, sites, h);
      assert OneWriter(Lookup(facts, h), Column(FactsOf(sites), h));
    }
    MergedIndexIsValid(frozen, refs, sites, links);
    var merged := FoldMaps(None, frozen, frozen, sites);
    hide FoldMaps, RunOps, FoldKey;
    forall h ensures Lookup(Facts(merged), h) == Lookup(RunOps(facts, Concat(tasks)), h) {
      FactsOfMerged(frozen, sites, h);
      FoldMapsByKey(None, facts, facts, FactsOf(sites), h);
    }
    SameLookups(Facts(merged), RunOps(facts, Concat(tasks)));
  }

  lemma SitesWritten(frozen: Sites, sites: seq<Sites>, h: FileId)
    requires Kept(frozen) && forall i | 0 <= i < |sites| :: Kept(sites[i])
    ensures forall i | 0 <= i < |sites| ::
            Column(sites, h)[i] == Lookup(frozen, h) <==> Column(FactsOf(sites), h)[i] == Lookup(Facts(frozen), h)
  {
    forall i | 0 <= i < |sites|
      ensures Column(sites, h)[i] == Lookup(frozen, h) <==> Column(FactsOf(sites), h)[i] == Lookup(Facts(frozen), h)
    {
      FactsDetermineSites(sites[i], frozen, h);
    }
  }

  lemma FactsOfMerged(frozen: Sites, sites: seq<Sites>, h: FileId)
    requires Kept(frozen) && (forall i | 0 <= i < |sites| :: Kept(sites[i]))
      && OneWriter(Lookup(frozen, h), Column(sites, h))
    ensures Lookup(Facts(FoldMaps(None, frozen, frozen, sites)), h)
         == FoldKey(None, Lookup(Facts(frozen), h), Lookup(Facts(frozen), h), Column(FactsOf(sites), h))
  {
    SitesWritten(frozen, sites, h);
    hide Facts, Kept, FoldMaps, FoldKey, BareOf;
    FoldMapsByKey(None, frozen, frozen, sites, h);
    OneWriterFold(Lookup(frozen, h), Column(sites, h));
    OneWriterFold(Lookup(Facts(frozen), h), Column(FactsOf(sites), h));
    LookupFacts(FoldMaps(None, frozen, frozen, sites), h);
    LookupFacts(frozen, h);
    forall i | 0 <= i < |sites| ensures Column(FactsOf(sites), h)[i] == BareOf(Column(sites, h)[i]) {
      LookupFacts(sites[i], h);
    }
    OneWriterOthers(Lookup(frozen, h), Column(sites, h));
  }

  function BareOf(sites: Option<FileNetSites>): Option<FileNetSites> {
    match sites case Some(s) => Some(Bare(s)) case None => None
  }

  lemma LookupFacts(sites: Sites, h: FileId)
    ensures Lookup(Facts(sites), h) == BareOf(Lookup(sites, h))
  {
    FactsKeys(sites);
  }
}
