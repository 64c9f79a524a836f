/**
 * Numeric ranges files populate global tables with, kept by file, and by
 * global in one order over all files.
 */
module Populations {
  import opened Options

  type FileId = nat

  /** Files are ordered by `place`, not by id; `detail` stands for what no operation reads. */
  datatype Population = Population(tableGlobal: string, file: FileId, place: int, callStart: nat, start: int,
      detail: nat)

  /** Whether `a` may stand before `b` in a global's list. */
  predicate Le(a: Population, b: Population) {
    a.place < b.place
    || (a.place == b.place && (a.callStart < b.callStart || (a.callStart == b.callStart && a.start <= b.start)))
  }

  /** By place, then by call, then by range start. */
  ghost predicate InOrder(a: Population, b: Population) {
    && a.place <= b.place
    && (a.place == b.place ==> a.callStart <= b.callStart)
    && (a.place == b.place && a.callStart == b.callStart ==> a.start <= b.start)
  }

  ghost predicate Sorted(ps: seq<Population>) {
    forall i, j | 0 <= i < j < |ps| :: InOrder(ps[i], ps[j])
  }

  type ByFile = map<FileId, seq<Population>>
  type ByGlobal = map<string, seq<Population>>

  function Of<K>(m: map<K, seq<Population>>, k: K): seq<Population> {
    if k in m then m[k] else []
  }

  /** How often `p` is in the list of its own file, when it is a population of `g`. */
  ghost function Times(byFile: ByFile, g: string, p: Population): nat {
    if p.tableGlobal == g then multiset(Of(byFile, p.file))[p] else 0
  }

  /** A global lists exactly the populations of it that files hold, in order. */
  ghost predicate Lists(byFile: ByFile, g: string, ps: seq<Population>) {
    Sorted(ps) && forall p :: multiset(ps)[p] == Times(byFile, g, p)
  }

  ghost predicate FilesValid(byFile: ByFile) {
    forall f | f in byFile :: byFile[f] != [] && forall p | p in byFile[f] :: p.file == f
  }

  ghost predicate IndexValid(byFile: ByFile, byGlobal: ByGlobal) {
    && FilesValid(byFile)
    && (forall g :: Lists(byFile, g, Of(byGlobal, g)))
    && (forall g | g in byGlobal :: byGlobal[g] != [])
  }

  // ----- sorted lists

  /** The number of entries that sort no later than `p`. */
  method PartitionPoint(ps: seq<Population>, p: Population) returns (at: nat)
    requires Sorted(ps)
    ensures at <= |ps| && (forall i | 0 <= i < at :: Le(ps[i], p)) && forall i | at <= i < |ps| :: !Le(ps[i], p)
  {
    var low, high := 0, |ps|;
    while low < high
      invariant 0 <= low <= high <= |ps|
      invariant (forall i | 0 <= i < low :: Le(ps[i], p)) && forall i | high <= i < |ps| :: !Le(ps[i], p)
    {
      var mid := (low + high) / 2;
      if Le(ps[mid], p) {
        low := mid + 1;
      } else {
        high := mid;
      }
    }
    at := low;
  }

  function Without(ps: seq<Population>, file: FileId): (r: seq<Population>)
    ensures forall p | p in r :: p in ps && p.file != file
  {
    if ps == [] then []
    else (if ps[0].file != file then [ps[0]] else []) + Without(ps[1..], file)
  }

  lemma {:induction false} WithoutCounts(ps: seq<Population>, file: FileId, p: Population)
    ensures multiset(Without(ps, file))[p] == if p.file == file then 0 else multiset(ps)[p]
  {
    if ps != [] {
      var first, rest := ps[0], ps[1..];
      var kept := Without(rest, file);
      assert ps == [first] + rest;
      assert Without(ps, file) == (if first.file != file then [first] else []) + kept;
      hide Without;
      WithoutCounts(rest, file, p);
      CountCons(first, rest, p);
      CountCons(first, kept, p);
      assert [] + kept == kept;
    }
  }

  lemma CountCons<T>(x: T, rest: seq<T>, p: T)
    ensures multiset([x] + rest)[p] == multiset(rest)[p] + if x == p then 1 else 0
  {
  }

  lemma {:induction false} WithoutSorted(ps: seq<Population>, file: FileId)
    requires Sorted(ps)
    ensures Sorted(Without(ps, file))
  {
    if ps != [] {
      WithoutSorted(ps[1..], file);
      var rest := Without(ps[1..], file);
      forall i | 0 <= i < |rest| ensures Le(ps[0], rest[i]) {
        assert rest[i] in ps[1..];
      }
    }
  }

  lemma {:induction false} WithoutNone(ps: seq<Population>, file: FileId)
    requires forall p | p in ps :: p.file != file
    ensures Without(ps, file) == ps
  {
    if ps != [] {
      WithoutNone(ps[1..], file);
    }
  }

  /** A global's list less the entries of a file is its list once the file is gone. */
  lemma RemovedLists(byFile: ByFile, file: FileId, g: string, ps: seq<Population>)
    requires Lists(byFile, g, ps)
    ensures Lists(byFile - {file}, g, Without(ps, file))
  {
    WithoutSorted(ps, file);
    forall p ensures multiset(Without(ps, file))[p] == Times(byFile - {file}, g, p) {
      WithoutCounts(ps, file, p);
    }
  }

  /** A global the file does not populate keeps its list. */
  lemma UnpopulatedLists(byFile: ByFile, file: FileId, g: string, ps: seq<Population>)
    requires Lists(byFile, g, ps) && forall p | p in Of(byFile, file) :: p.tableGlobal != g
    ensures Lists(byFile - {file}, g, ps)
  {
    forall p ensures multiset(ps)[p] == Times(byFile - {file}, g, p) {
      if p.file == file && p.tableGlobal == g {
        assert p !in Of(byFile, file);
        assert multiset(Of(byFile, file))[p] == 0;
      }
    }
  }

  /** `p` put after the entries that sort no later keeps a list sorted. */
  lemma InsertedSorted(ps: seq<Population>, p: Population, at: nat)
    requires Sorted(ps) && at <= |ps|
    requires (forall i | 0 <= i < at :: Le(ps[i], p)) && forall i | at <= i < |ps| :: !Le(ps[i], p)
    ensures Sorted(ps[..at] + [p] + ps[at..])
    ensures multiset(ps[..at] + [p] + ps[at..]) == multiset(ps) + multiset{p}
  {
    assert ps == ps[..at] + ps[at..];
    var all := ps[..at] + [p] + ps[at..];
    forall i, j | 0 <= i < j < |all| ensures InOrder(all[i], all[j]) {
      var a, b := if i <= at then i else i - 1, if j <= at then j else j - 1;
      assert i != at ==> all[i] == ps[a];
      assert j != at ==> all[j] == ps[b];
      if i == at {
        assert !Le(ps[b], p);
      } else if j == at {
        assert Le(ps[a], p);
      } else {
        assert InOrder(ps[a], ps[b]);
      }
    }
  }

  /** Populations the order does not tell apart are the same. */
  ghost predicate OrderTellsApart(ps: seq<Population>) {
    forall p, q | p in ps && q in ps && Le(p, q) && Le(q, p) :: p == q
  }

  /** A sorted list is determined by its entries when the order tells them apart. */
  lemma {:induction false} SortedIsUnique(a: seq<Population>, b: seq<Population>)
    requires Sorted(a) && Sorted(b) && multiset(a) == multiset(b) && OrderTellsApart(a)
    ensures a == b
    decreases |a|
  {
    assert |a| == |multiset(a)| == |multiset(b)| == |b|;
    if a != [] {
      SameHead(a, b);
      SameRest(a, b);
      hide Sorted, OrderTellsApart, Le;
      SortedIsUnique(a[1..], b[1..]);
      assert a == [a[0]] + a[1..] && b == [b[0]] + b[1..];
    }
  }

  lemma SameRest(a: seq<Population>, b: seq<Population>)
    requires a != [] && b != [] && a[0] == b[0] && multiset(a) == multiset(b) && OrderTellsApart(a)
    ensures multiset(a[1..]) == multiset(b[1..]) && OrderTellsApart(a[1..])
  {
    var x, rest, others := a[0], a[1..], b[1..];
    assert a == [x] + rest && b == [x] + others;
    assert multiset(rest) == multiset(a) - multiset{x} && multiset(others) == multiset(b) - multiset{x};
    assert forall p | p in rest :: p in a;
  }

  lemma SameHead(a: seq<Population>, b: seq<Population>)
    requires Sorted(a) && Sorted(b) && multiset(a) == multiset(b) && OrderTellsApart(a) && a != [] && b != []
    ensures a[0] == b[0] && Sorted(a[1..]) && Sorted(b[1..])
  {
    assert a[0] in multiset(b) && b[0] in multiset(a);
    assert a[0] in b && b[0] in a;
    assert Le(a[0], b[0]) && Le(b[0], a[0]);
  }

  /** The globals' lists follow from the files', whatever order files were set in. */
  lemma FilesDetermineGlobals(byFile: ByFile, byGlobal: ByGlobal, byGlobal': ByGlobal)
    requires IndexValid(byFile, byGlobal) && IndexValid(byFile, byGlobal')
    requires forall g | g in byGlobal :: OrderTellsApart(byGlobal[g])
    ensures byGlobal == byGlobal'
  {
    forall g ensures Lookup(byGlobal, g) == Lookup(byGlobal', g) {
      var a, b := Of(byGlobal, g), Of(byGlobal', g);
      assert Lists(byFile, g, a) && Lists(byFile, g, b);
      assert multiset(a) == multiset(b);
      SortedIsUnique(a, b);
    }
    SameLookups(byGlobal, byGlobal');
  }

  class PopulationIndex {
    var byFile: ByFile
    var byGlobal: ByGlobal

    ghost predicate Valid()
      reads this
    {
      IndexValid(byFile, byGlobal)
    }

    constructor ()
      ensures Valid() && byFile == map[]
    {
      byFile, byGlobal := map[], map[];
    }

    /** Drops what `file` populates. */
    method Remove(file: FileId)
      requires Valid()
      modifies this
      ensures Valid() && byFile == old(byFile) - {file}
    {
      if file !in byFile {
        assert byFile - {file} == byFile;
        return;
      }
      var ps := byFile[file];
      byFile := byFile - {file};
      hide Without, Populates;
      assert !exists g :: Populates(ps[..0], g) by { NothingPopulated(ps); }
      for i := 0 to |ps|
        invariant byFile == old(byFile) - {file} && forall g | g in byGlobal :: byGlobal[g] != []
        invariant forall g ::
                Of(byGlobal, g) == if Populates(ps[..i], g) then Without(Of(old(byGlobal), g), file)
                    else Of(old(byGlobal), g)
      {
        var g := ps[i].tableGlobal;
        WithoutNone(Without(Of(old(byGlobal), g), file), file);
        PopulatesNext(ps, i);
        Retain(g, file);
      }
      assert ps[..|ps|] == ps;
      forall g ensures Lists(byFile, g, Of(byGlobal, g)) {
        assert Lists(old(byFile), g, Of(old(byGlobal), g));
        if Populates(ps, g) {
          RemovedLists(old(byFile), file, g, Of(old(byGlobal), g));
        } else {
          NotPopulated(ps, g);
          UnpopulatedLists(old(byFile), file, g, Of(old(byGlobal), g));
        }
      }
    }

    /** Drops the entries of `file` from a global's list, and the list when none is left. */
    method Retain(g: string, file: FileId)
      requires forall o | o in byGlobal :: byGlobal[o] != []
      modifies this`byGlobal
      ensures forall o | o in byGlobal :: byGlobal[o] != []
      ensures Of(byGlobal, g) == Without(Of(old(byGlobal), g), file)
        && forall o | o != g :: Of(byGlobal, o) == Of(old(byGlobal), o)
    {
      if g in byGlobal {
        var entries := Without(byGlobal[g], file);
        byGlobal := if entries == [] then byGlobal - {g} else byGlobal[g := entries];
      }
    }

    /** Files one population under its global. */
    method File(p: Population)
      requires Sorted(Of(byGlobal, p.tableGlobal)) && forall g | g in byGlobal :: byGlobal[g] != []
      modifies this`byGlobal
      ensures Sorted(Of(byGlobal, p.tableGlobal)) && forall g | g in byGlobal :: byGlobal[g] != []
      ensures multiset(Of(byGlobal, p.tableGlobal)) == multiset(Of(old(byGlobal), p.tableGlobal)) + multiset{p}
      ensures forall g | g != p.tableGlobal :: Of(byGlobal, g) == Of(old(byGlobal), g)
    {
      var entries := Of(byGlobal, p.tableGlobal);
      var at := PartitionPoint(entries, p);
      InsertedSorted(entries, p, at);
      byGlobal := byGlobal[p.tableGlobal := entries[..at] + [p] + entries[at..]];
    }

    /** Files each population under its global. */
    method FileAll(ps: seq<Population>)
      requires (forall g :: Sorted(Of(byGlobal, g))) && forall g | g in byGlobal :: byGlobal[g] != []
      modifies this`byGlobal
      ensures (forall g :: Sorted(Of(byGlobal, g))) && forall g | g in byGlobal :: byGlobal[g] != []
      ensures forall g :: Extends(Of(old(byGlobal), g), Of(byGlobal, g), ps, g)
    {
      hide *;
      forall g ensures Extends(Of(byGlobal, g), Of(byGlobal, g), ps[..0], g) {
        ExtendsNone(Of(byGlobal, g), ps, g);
      }
      for i := 0 to |ps|
        invariant (forall g :: Sorted(Of(byGlobal, g))) && forall g | g in byGlobal :: byGlobal[g] != []
        invariant forall g :: Extends(Of(old(byGlobal), g), Of(byGlobal, g), ps[..i], g)
      {
        label Before:
        File(ps[i]);
        forall g ensures Extends(Of(old(byGlobal), g), Of(byGlobal, g), ps[..i + 1], g) {
          ExtendsNext(Of(old(byGlobal), g), Of(old@Before(byGlobal), g), Of(byGlobal, g), ps, i, g);
        }
      }
      assert ps[..|ps|] == ps;
    }

    /** What `file` populates becomes `ps`. */
    method SetFile(file: FileId, ps: seq<Population>)
      requires Valid() && forall p | p in ps :: p.file == file
      modifies this
      ensures Valid() && byFile == if ps == [] then old(byFile) - {file} else old(byFile)[file := ps]
    {
      Remove(file);
      label Removed:
      hide Sorted, Extends;
      forall g ensures Sorted(Of(byGlobal, g)) {
        assert Lists(byFile, g, Of(byGlobal, g));
      }
      FileAll(ps);
      if ps != [] {
        byFile := byFile[file := ps];
      }
      FilesSet(old(byFile), file, ps);
      hide FilesValid, Lists;
      forall g ensures Lists(byFile, g, Of(byGlobal, g)) {
        SetLists(old(byFile) - {file}, byFile, file, ps, g, Of(old@Removed(byGlobal), g), Of(byGlobal, g));
      }
    }
  }

  /** `after` is `before` with the populations of `g` among `ps` added. */
  ghost predicate Extends(before: seq<Population>, after: seq<Population>, ps: seq<Population>, g: string) {
    forall p :: multiset(after)[p] == multiset(before)[p] + if p.tableGlobal == g then multiset(ps)[p] else 0
  }

  lemma ExtendsNone(before: seq<Population>, ps: seq<Population>, g: string)
    ensures Extends(before, before, ps[..0], g)
  {
  }

  lemma FilesSet(byFile: ByFile, file: FileId, ps: seq<Population>)
    requires FilesValid(byFile) && forall p | p in ps :: p.file == file
    ensures FilesValid(if ps == [] then byFile - {file} else byFile[file := ps])
  {
  }

  lemma ExtendsNext(before: seq<Population>, mid: seq<Population>, after: seq<Population>, ps: seq<Population>,
                    i: nat, g: string)
    requires i < |ps| && Extends(before, mid, ps[..i], g)
    requires multiset(after) == if ps[i].tableGlobal == g then multiset(mid) + multiset{ps[i]} else multiset(mid)
    ensures Extends(before, after, ps[..i + 1], g)
  {
    assert ps[..i + 1] == ps[..i] + [ps[i]];
    forall p ensures multiset(ps[..i + 1])[p] == multiset(ps[..i])[p] + if p == ps[i] then 1 else 0 {
    }
  }

  lemma SetLists(byFile: ByFile, byFile': ByFile, file: FileId, ps: seq<Population>, g: string,
                 before: seq<Population>, after: seq<Population>)
    requires file !in byFile && byFile' == (if ps == [] then byFile else byFile[file := ps])
      && forall p | p in ps :: p.file == file
    requires Lists(byFile, g, before) && Sorted(after) && Extends(before, after, ps, g)
    ensures Lists(byFile', g, after)
  {
    forall p ensures multiset(after)[p] == Times(byFile', g, p) {
      assert multiset(ps)[p] > 0 ==> p in ps;
    }
  }

  lemma NothingPopulated(ps: seq<Population>)
    ensures forall g :: !Populates(ps[..0], g)
  {
  }

  lemma NotPopulated(ps: seq<Population>, g: string)
    requires !Populates(ps, g)
    ensures forall p | p in ps :: p.tableGlobal != g
  {
  }

  ghost predicate Populates(ps: seq<Population>, g: string) {
    exists p | p in ps :: p.tableGlobal == g
  }

  lemma PopulatesNext(ps: seq<Population>, i: nat)
    requires i < |ps|
    ensures forall g :: Populates(ps[..i + 1], g) <==> Populates(ps[..i], g) || g == ps[i].tableGlobal
  {
    assert ps[..i + 1] == ps[..i] + [ps[i]];
  }
}
