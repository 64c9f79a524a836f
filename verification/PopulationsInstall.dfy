/**
 * Installing tasks that set the populations of different files: the plain
 * install of the files' lists and the sorted-list merge of the globals' agree
 * again, and leave what running the tasks one after another leaves, exactly
 * when no list of several tasks loses a repeated population.
 */
module PopulationsInstall {
  import opened Options
  import opened ThreeWay
  import Pruning
  import opened LocalTasks
  import opened Populations
  import opened SortedLists

  // ----- the index through the merge

  ghost predicate ValidForks(frozen: ByFile, globals: ByGlobal, files: seq<ByFile>, lists: seq<ByGlobal>) {
    && IndexValid(frozen, globals) && |files| == |lists|
    && (forall i | 0 <= i < |files| :: IndexValid(files[i], lists[i]))
    && DisjointWriters(frozen, files)
  }

  lemma GlobalCounts(byFile: ByFile, byGlobal: ByGlobal, g: string)
    requires IndexValid(byFile, byGlobal)
    ensures Neat(Lookup(byGlobal, g)) && ListOf(Lookup(byGlobal, g)) == Of(byGlobal, g)
    ensures forall p :: Count(Lookup(byGlobal, g), p) == Times(byFile, g, p)
  {
    assert Lists(byFile, g, Of(byGlobal, g));
  }

  /** The task that set the populations of a file, one past the last when none did. */
  ghost function Setter(frozen: ByFile, files: seq<ByFile>, f: FileId): nat {
    Writer(Lookup(frozen, f), Column(files, f))
  }

  /** A file's list after the merge is its setter's, or what it was. */
  lemma MergedFile(frozen: ByFile, files: seq<ByFile>, f: FileId)
    requires DisjointWriters(frozen, files)
    ensures var w := Setter(frozen, files, f);
      && w <= |files|
          && Lookup(FoldMaps(None, frozen, frozen, files), f) == Lookup(if w < |files| then files[w] else frozen, f)
      && forall i | 0 <= i < |files| && i != w :: Lookup(files[i], f) == Lookup(frozen, f)
  {
    hide FoldMaps, FoldKey;
    var column := Column(files, f);
    FoldMapsByKey(None, frozen, frozen, files, f);
    assert OneWriter(Lookup(frozen, f), column);
    OneWriterFold(Lookup(frozen, f), column);
    OneWriterOthers(Lookup(frozen, f), column);
    assert forall i | 0 <= i < |files| :: column[i] == Lookup(files[i], f);
  }

  lemma TimesOf(a: ByFile, b: ByFile, g: string, p: Population)
    requires Lookup(a, p.file) == Lookup(b, p.file)
    ensures Times(a, g, p) == Times(b, g, p)
  {
  }

  /** Tasks that set different files change different populations of a global. */
  lemma GlobalsApart(frozen: ByFile, globals: ByGlobal, files: seq<ByFile>, lists: seq<ByGlobal>, g: string)
    requires ValidForks(frozen, globals, files, lists)
    ensures var before, values := Lookup(globals, g), Column(lists, g);
      && Neat(before) && (forall i | 0 <= i < |values| :: Neat(values[i])) && Apart(before, values)
      && (forall i, p | 0 <= i < |values| :: Count(values[i], p) == Times(files[i], g, p))
  {
    var before, values := Lookup(globals, g), Column(lists, g);
    GlobalCounts(frozen, globals, g);
    forall i | 0 <= i < |values| ensures Neat(values[i]) && forall p :: Count(values[i], p) == Times(files[i], g, p) {
      GlobalCounts(files[i], lists[i], g);
    }
    hide IndexValid, Neat, Count;
    forall i, j, p | 0 <= i < j < |values|
        ensures Count(values[i], p) == Count(before, p) || Count(values[j], p) == Count(before, p) {
      MergedFile(frozen, files, p.file);
      var w := Setter(frozen, files, p.file);
      if i != w {
        TimesOf(files[i], frozen, g, p);
      } else {
        TimesOf(files[j], frozen, g, p);
      }
    }
  }

  /**
   * How often a global lists a population after the merge: which repetitions survive depends on
   * who is first to change its list.
   */
  lemma MergedTimes(frozen: ByFile, globals: ByGlobal, files: seq<ByFile>, lists: seq<ByGlobal>, g: string,
                    p: Population)
    requires ValidForks(frozen, globals, files, lists)
    ensures var listed := FoldMaps(SortedMerge(), globals, globals, lists);
      && Neat(Lookup(listed, g)) && Setter(frozen, files, p.file) <= |lists|
      && Count(Lookup(listed, g), p) == Left(Lookup(globals, g), Column(lists, g), Setter(frozen, files, p.file), p)
  {
    var before, values, w := Lookup(globals, g), Column(lists, g), Setter(frozen, files, p.file);
    GlobalsApart(frozen, globals, files, lists, g);
    GlobalCounts(frozen, globals, g);
    MergedFile(frozen, files, p.file);
    hide IndexValid, FoldMaps, FoldKey, SortedMerge, Neat, Apart, Count, Left, Setter;
    forall i | 0 <= i < |values| && i != w ensures Count(values[i], p) == Count(before, p) {
      TimesOf(files[i], frozen, g, p);
    }
    FoldMapsByKey(SortedMerge(), globals, globals, lists, g);
    StillFound(before, values);
    CountFold(before, values, p, w);
  }

  /**
   * The task that set a population's file was first to change the global's
   * list, or lists the population not at all, as often as before, or once for
   * the first time.
   */
  ghost predicate Survives(frozen: ByFile, globals: ByGlobal, files: seq<ByFile>, lists: seq<ByGlobal>, g: string,
                           p: Population)
    requires |files| == |lists|
  {
    var w := Setter(frozen, files, p.file);
    w < |files| && !First(Lookup(globals, g), Column(lists, g), w) ==>
      var b, v := Times(frozen, g, p), Times(files[w], g, p);
      v == 0 || v == if b > 0 then b else 1
  }

  /** A population is listed as often as its merged file holds it exactly when it survives. */
  lemma ListedExactly(frozen: ByFile, globals: ByGlobal, files: seq<ByFile>, lists: seq<ByGlobal>, g: string,
                      p: Population)
    requires ValidForks(frozen, globals, files, lists)
    ensures Count(Lookup(FoldMaps(SortedMerge(), globals, globals, lists), g), p)
        == Times(FoldMaps(None, frozen, frozen, files), g, p)
       <==> Survives(frozen, globals, files, lists, g, p)
  {
    var merged, w := FoldMaps(None, frozen, frozen, files), Setter(frozen, files, p.file);
    MergedTimes(frozen, globals, files, lists, g, p);
    GlobalsApart(frozen, globals, files, lists, g);
    GlobalCounts(frozen, globals, g);
    MergedFile(frozen, files, p.file);
    TimesOf(merged, if w < |files| then files[w] else frozen, g, p);
    hide IndexValid, FoldMaps, SortedMerge, Neat, Apart, Count, Setter, Times, First;
  }

  /**
   * Merged files and merged globals are again a valid index exactly when every population
   * survives, and no fork conflicts.
   */
  lemma MergedIndexIsValid(frozen: ByFile, globals: ByGlobal, files: seq<ByFile>, lists: seq<ByGlobal>)
    requires ValidForks(frozen, globals, files, lists)
    ensures IndexValid(FoldMaps(None, frozen, frozen, files), FoldMaps(SortedMerge(), globals, globals, lists))
       <==> forall g, p :: Survives(frozen, globals, files, lists, g, p)
    ensures forall i: nat | i < |files| ::
            !ForkConflicts(None, frozen, frozen, files, i) && !ForkConflicts(SortedMerge(), globals, globals, lists, i)
  {
    var merged, listed := FoldMaps(None, frozen, frozen, files), FoldMaps(SortedMerge(), globals, globals, lists);
    DisjointNeverConflict(frozen, files);
    Pruning.TotalNeverConflicts(SortedMerge().value, globals, globals, lists);
    MergedFilesValid(frozen, globals, files, lists);
    forall g ensures Neat(Lookup(listed, g)) {
      MergedTimes(frozen, globals, files, lists, g, Population(g, 0, 0, 0, 0, 0));
    }
    forall g, p
        ensures Count(Lookup(listed, g), p) == Times(merged, g, p) <==> Survives(frozen, globals, files, lists, g, p) {
      ListedExactly(frozen, globals, files, lists, g, p);
    }
    hide FoldMaps, SortedMerge, ValidForks, ForkConflicts, Survives;
    ValidByCounts(merged, listed);
  }

  lemma MergedFilesValid(frozen: ByFile, globals: ByGlobal, files: seq<ByFile>, lists: seq<ByGlobal>)
    requires ValidForks(frozen, globals, files, lists)
    ensures FilesValid(FoldMaps(None, frozen, frozen, files))
  {
    var merged := FoldMaps(None, frozen, frozen, files);
    forall f | f in merged ensures merged[f] != [] && forall p: Population | p in merged[f] :: p.file == f {
      MergedFile(frozen, files, f);
    }
  }

  lemma ValidByCounts(byFile: ByFile, byGlobal: ByGlobal)
    requires FilesValid(byFile) && forall g :: Neat(Lookup(byGlobal, g))
    ensures IndexValid(byFile, byGlobal) <==> forall g, p :: Count(Lookup(byGlobal, g), p) == Times(byFile, g, p)
  {
    assert forall g :: ListOf(Lookup(byGlobal, g)) == Of(byGlobal, g);
    if forall g, p :: Count(Lookup(byGlobal, g), p) == Times(byFile, g, p) {
      forall g ensures Lists(byFile, g, Of(byGlobal, g)) && (g in byGlobal ==> byGlobal[g] != []) {
        assert Neat(Lookup(byGlobal, g));
        forall p ensures multiset(Of(byGlobal, g))[p] == Times(byFile, g, p) {
          assert Count(Lookup(byGlobal, g), p) == Times(byFile, g, p);
        }
      }
    }
    if IndexValid(byFile, byGlobal) {
      forall g, p ensures Count(Lookup(byGlobal, g), p) == Times(byFile, g, p) {
        GlobalCounts(byFile, byGlobal, g);
      }
    }
  }

  // ----- without repetitions

  /** A valid index in which no file lists a population twice. */
  ghost predicate TidyIndex(byFile: ByFile, byGlobal: ByGlobal) {
    IndexValid(byFile, byGlobal) && TidyFiles(byFile)
  }

  ghost predicate TidyFiles(byFile: ByFile) {
    forall f | f in byFile :: NoDup(byFile[f])
  }

  lemma TidyTimes(byFile: ByFile, g: string, p: Population)
    requires TidyFiles(byFile)
    ensures Times(byFile, g, p) <= 1
  {
    NoDupCounts(Of(byFile, p.file), p);
  }

  /** Where no file lists a population twice, every population survives, and the merged index is tidy again. */
  lemma TidyMerges(frozen: ByFile, globals: ByGlobal, files: seq<ByFile>, lists: seq<ByGlobal>)
    requires ValidForks(frozen, globals, files, lists) && TidyFiles(frozen)
      && forall i | 0 <= i < |files| :: TidyFiles(files[i])
    ensures TidyIndex(FoldMaps(None, frozen, frozen, files), FoldMaps(SortedMerge(), globals, globals, lists))
  {
    forall g, p ensures Survives(frozen, globals, files, lists, g, p) {
      TidyTimes(frozen, g, p);
      var w := Setter(frozen, files, p.file);
      if w < |files| {
        TidyTimes(files[w], g, p);
      }
    }
    MergedIndexIsValid(frozen, globals, files, lists);
    var merged := FoldMaps(None, frozen, frozen, files);
    forall f | f in merged ensures NoDup(merged[f]) {
      MergedFile(frozen, files, f);
    }
  }

  const NoFiles: ByFile := map[]
  const NoGlobals: ByGlobal := map[]

  /** Two tasks over an empty index: one files `q`, the other `p` twice. */
  function TwoFiles(p: Population, q: Population): seq<ByFile> {
    [map[q.file := [q]], map[p.file := [p, p]]]
  }

  function TwoLists(p: Population, q: Population): seq<ByGlobal> {
    [map[q.tableGlobal := [q]], map[p.tableGlobal := [p, p]]]
  }

  lemma TwoTasks(p: Population, q: Population)
    requires p.file != q.file
    ensures ValidForks(NoFiles, NoGlobals, TwoFiles(p, q), TwoLists(p, q))
    ensures Setter(NoFiles, TwoFiles(p, q), p.file) == 1
  {
    OneFile(q.file, [q], q.tableGlobal);
    OneFile(p.file, [p, p], p.tableGlobal);
    var files := TwoFiles(p, q);
    assert IndexValid(NoFiles, NoGlobals);
    hide IndexValid;
    forall f ensures OneWriter(Lookup(NoFiles, f), Column(files, f)) {
    }
    assert Column(files, p.file)[0] == None && Column(files, p.file)[1] == Some([p, p]);
  }

  /**
   * A population listed twice by a task that is not first to change its global is left once: the
   * merged index is not valid.
   */
  lemma RepetitionIsLost(p: Population, q: Population)
    requires p.tableGlobal == q.tableGlobal && p.file != q.file
    ensures ValidForks(NoFiles, NoGlobals, TwoFiles(p, q), TwoLists(p, q))
    ensures var merged, listed := FoldMaps(None, NoFiles, NoFiles, TwoFiles(p, q)), FoldMaps(SortedMerge(), NoGlobals,
        NoGlobals, TwoLists(p, q));
      !IndexValid(merged, listed) && Times(merged, p.tableGlobal, p) == 2
          && Count(Lookup(listed, p.tableGlobal), p) == 1
  {
    var g, files, lists := p.tableGlobal, TwoFiles(p, q), TwoLists(p, q);
    TwoTasks(p, q);
    hide IndexValid, FoldMaps, SortedMerge, Setter, ValidForks;
    MergedFile(NoFiles, files, p.file);
    MergedTimes(NoFiles, NoGlobals, files, lists, g, p);
    MergedIndexIsValid(NoFiles, NoGlobals, files, lists);
    assert Column(lists, g)[0] == Some([q]) && Column(lists, g)[1] == Some([p, p]);
    assert !First(Lookup(NoGlobals, g), Column(lists, g), 1);
    assert Times(files[1], g, p) == 2;
    assert !Survives(NoFiles, NoGlobals, files, lists, g, p);
  }

  lemma OneFile(f: FileId, ps: seq<Population>, g: string)
    requires ps != [] && Sorted(ps) && forall p | p in ps :: p.file == f && p.tableGlobal == g
    ensures IndexValid(map[f := ps], map[g := ps])
  {
  }

  // ----- the same as one task after another

  datatype PopulationOp = SetFile(file: FileId, ps: seq<Population>) | Remove(file: FileId)

  function Local(op: PopulationOp): LocalOp<FileId, seq<Population>> {
    LocalOp(op.file, _ => if op.SetFile? then PrunedList(op.ps) else None)
  }

  function LocalOps(ops: seq<PopulationOp>): (local: seq<LocalOp<FileId, seq<Population>>>)
    ensures |local| == |ops|
  {
    seq(|ops|, i requires 0 <= i < |ops| => Local(ops[i]))
  }

  /** The lists set are the file's own. */
  ghost predicate OwnLists(ops: seq<PopulationOp>) {
    forall i | 0 <= i < |ops| && ops[i].SetFile? :: forall p | p in ops[i].ps :: p.file == ops[i].file
  }

  /** No list set holds a population twice. */
  ghost predicate TidyOps(ops: seq<PopulationOp>) {
    forall i | 0 <= i < |ops| && ops[i].SetFile? :: NoDup(ops[i].ps)
  }

  lemma {:induction false} RunStaysTidy(files: ByFile, ops: seq<PopulationOp>, n: nat)
    requires TidyFiles(files) && TidyOps(ops) && n <= |ops|
    ensures TidyFiles(RunOps(files, LocalOps(ops)[..n]))
    decreases n
  {
    if n > 0 {
      RunStaysTidy(files, ops, n - 1);
      var local := LocalOps(ops);
      assert local[..n][..n - 1] == local[..n - 1] && local[..n][n - 1] == Local(ops[n - 1]);
    }
  }

  /** Runs the operations on an index; lists without repetitions keep it without. */
  method Execute(index: PopulationIndex, ops: seq<PopulationOp>)
    requires index.Valid() && OwnLists(ops)
    modifies index
    ensures index.Valid() && index.byFile == RunOps(old(index.byFile), LocalOps(ops))
    ensures TidyIndex(old(index.byFile), old(index.byGlobal)) && TidyOps(ops) ==> TidyIndex(index.byFile,
        index.byGlobal)
  {
    ghost var files := index.byFile;
    ghost var local := LocalOps(ops);
    if TidyFiles(files) && TidyOps(ops) {
      RunStaysTidy(files, ops, |ops|);
    }
    hide IndexValid;
    for i := 0 to |ops|
      invariant index.Valid() && index.byFile == RunOps(files, local[..i])
    {
      assert local[..i + 1][..i] == local[..i] && local[..i + 1][i] == Local(ops[i]);
      match ops[i] {
        case SetFile(file, ps) => index.SetFile(file, ps);
        case Remove(file) => index.Remove(file);
      }
    }
    assert local[..|ops|] == local;
  }

  /** Forks of a valid index, each run by a task, and no two tasks of the same file. */
  ghost predicate TaskForks(frozen: ByFile, globals: ByGlobal, files: seq<ByFile>, lists: seq<ByGlobal>,
                            tasks: seq<seq<PopulationOp>>) {
    && IndexValid(frozen, globals) && |files| == |lists| == |tasks| && DisjointTasks(Locals(tasks))
    && (forall i | 0 <= i < |files| :: IndexValid(files[i], lists[i]) && files[i] == RunOps(frozen, LocalOps(tasks[i])))
  }

  ghost function Locals(tasks: seq<seq<PopulationOp>>): (locals: seq<seq<LocalOp<FileId, seq<Population>>>>)
    ensures |locals| == |tasks|
  {
    seq(|tasks|, i requires 0 <= i < |tasks| => LocalOps(tasks[i]))
  }

  /**
   * A superstep of tasks that set the populations of different files: no fork
   * conflicts, the merged files are those running the tasks one after another
   * leaves, and the index is valid exactly when every population survives.
   */
  lemma PopulationSuperstep(frozen: ByFile, globals: ByGlobal, files: seq<ByFile>, lists: seq<ByGlobal>,
                            tasks: seq<seq<PopulationOp>>)
    requires TaskForks(frozen, globals, files, lists, tasks)
    ensures var merged, listed := FoldMaps(None, frozen, frozen, files), FoldMaps(SortedMerge(), globals, globals,
        lists);
      && merged == RunOps(frozen, Concat(Locals(tasks)))
      && (IndexValid(merged, listed) <==> forall g, p :: Survives(frozen, globals, files, lists, g, p))
    ensures forall i: nat | i < |files| ::
            !ForkConflicts(None, frozen, frozen, files, i) && !ForkConflicts(SortedMerge(), globals, globals, lists, i)
  {
    TasksAreForks(frozen, globals, files, lists, tasks);
    MergedIndexIsValid(frozen, globals, files, lists);
  }

  lemma TasksAreForks(frozen: ByFile, globals: ByGlobal, files: seq<ByFile>, lists: seq<ByGlobal>,
                      tasks: seq<seq<PopulationOp>>)
    requires TaskForks(frozen, globals, files, lists, tasks)
    ensures ValidForks(frozen, globals, files, lists)
    ensures FoldMaps(None, frozen, frozen, files) == RunOps(frozen, Concat(Locals(tasks)))
  {
    assert files == Forked(frozen, Locals(tasks));
    MergedIsSequential(frozen, Locals(tasks));
  }

  /**
   * Tasks whose lists repeat nothing, over an index that repeats nothing, merge to a valid index
   * that repeats nothing.
   */
  lemma TidySuperstep(frozen: ByFile, globals: ByGlobal, files: seq<ByFile>, lists: seq<ByGlobal>,
                      tasks: seq<seq<PopulationOp>>)
    requires TaskForks(frozen, globals, files, lists, tasks) && TidyFiles(frozen)
      && forall i | 0 <= i < |tasks| :: TidyOps(tasks[i])
    ensures TidyIndex(FoldMaps(None, frozen, frozen, files), FoldMaps(SortedMerge(), globals, globals, lists))
    ensures forall g, p :: Survives(frozen, globals, files, lists, g, p)
  {
    hide FoldMaps, Survives, TidyFiles, IndexValid, ForkConflicts, ValidForks, RunOps, TidyOps;
    PopulationSuperstep(frozen, globals, files, lists, tasks);
    TasksAreForks(frozen, globals, files, lists, tasks);
    forall i | 0 <= i < |files| ensures TidyFiles(files[i]) {
      RunStaysTidy(frozen, tasks[i], |tasks[i]|);
      assert LocalOps(tasks[i])[..|tasks[i]|] == LocalOps(tasks[i]);
    }
    TidyMerges(frozen, globals, files, lists);
  }

  /**
   * Where the order tells populations apart, the merge is the very index that sequence leaves
   * exactly when every population survives.
   */
  lemma PopulationSuperstepIsSequential(frozen: ByFile, globals: ByGlobal, files: seq<ByFile>, lists: seq<ByGlobal>,
                                        tasks: seq<seq<PopulationOp>>, byGlobal: ByGlobal)
    requires TaskForks(frozen, globals, files, lists, tasks)
    requires IndexValid(RunOps(frozen, Concat(Locals(tasks))), byGlobal)
      && forall g | g in byGlobal :: OrderTellsApart(byGlobal[g])
    ensures byGlobal == FoldMaps(SortedMerge(), globals, globals, lists) <==> forall g, p :: Survives(frozen, globals,
        files, lists, g, p)
  {
    PopulationSuperstep(frozen, globals, files, lists, tasks);
    if forall g, p :: Survives(frozen, globals, files, lists, g, p) {
      FilesDetermineGlobals(RunOps(frozen, Concat(Locals(tasks))), byGlobal,
          FoldMaps(SortedMerge(), globals, globals, lists));
    }
  }
}
