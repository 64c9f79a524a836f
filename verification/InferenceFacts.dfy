/**
 * Publishing inferred facts: whatever order the updates come in and however
 * often one is repeated, the same facts are written and the same files change.
 */
module InferenceFacts {
  import opened Options
  import opened StableSort

  type Decl(==, !new)
  type OtherOwner(==, !new)
  type Assignment(==, !new)
  type Param(==, !new)
  type Fact(==, !new)
  type FileId(==, !new)

  datatype Owner = OfDecl(decl: Decl) | OfOther(other: OtherOwner)

  datatype Node =
    | TypeOwner(owner: Owner)
    | Declaration(decl: Decl)
    | Assigned(assignment: Assignment)
    | SignatureParam(param: Param)

  datatype Update = Update(node: Node, fact: Fact)

  /** The facts of type owners, of assignments and of parameters; the last are never published. */
  datatype Facts = Facts(owners: map<Owner, Fact>, assignments: map<Assignment, Fact>, params: map<Param, Fact>)

  /**
   * The order of nodes, the file of each, and the form an owner's fact is kept
   * in. Declarations share their fact with their type owner.
   */
  datatype Schema = Schema(rank: Node -> int, fileOf: Node -> FileId, kept: (Owner, Fact) -> Fact)

  ghost predicate Ranks(schema: Schema) {
    forall m, n :: schema.rank(m) == schema.rank(n) ==> m == n
  }

  function Get(facts: Facts, node: Node): Option<Fact> {
    match node
    case TypeOwner(owner) => Lookup(facts.owners, owner)
    case Declaration(decl) => Lookup(facts.owners, OfDecl(decl))
    case Assigned(a) => Lookup(facts.assignments, a)
    case SignatureParam(p) => Lookup(facts.params, p)
  }

  /** Facts and the files changed so far. */
  datatype Written = Written(facts: Facts, changed: set<FileId>)

  function Write(schema: Schema, w: Written, u: Update): Written {
    if Get(w.facts, u.node) == Some(u.fact) then w
    else
      match u.node
      case TypeOwner(owner) =>
        Written(w.facts.(owners := w.facts.owners[owner := schema.kept(owner, u.fact)]),
            w.changed + {schema.fileOf(u.node)})
      case Declaration(decl) =>
        Written(w.facts.(owners := w.facts.owners[OfDecl(decl) := schema.kept(OfDecl(decl), u.fact)]),
            w.changed + {schema.fileOf(u.node)})
      case Assigned(a) =>
        Written(w.facts.(assignments := w.facts.assignments[a := u.fact]), w.changed + {schema.fileOf(u.node)})
      case SignatureParam(_) => w
  }

  function WriteAll(schema: Schema, w: Written, us: seq<Update>): Written
    decreases |us|
  {
    if us == [] then w else Write(schema, WriteAll(schema, w, us[..|us| - 1]), us[|us| - 1])
  }

  // ---- What is published ----

  /** A node two different facts are given for. */
  predicate Disputed(us: seq<Update>, node: Node) {
    exists u, v | u in us && v in us :: u.node == node && v.node == node && u.fact != v.fact
  }

  /** Ascending in rank, so without repetition. */
  predicate Ascending(schema: Schema, us: seq<Update>) {
    forall i, j | 0 <= i < j < |us| :: schema.rank(us[i].node) < schema.rank(us[j].node)
  }

  /** The undisputed updates, each once, in order. */
  ghost predicate Settles(schema: Schema, us: seq<Update>, settled: seq<Update>) {
    Ascending(schema, settled) && forall u :: u in settled <==> u in us && !Disputed(us, u.node)
  }

  lemma {:induction false} AscendingUnique(schema: Schema, a: seq<Update>, b: seq<Update>)
    requires Ascending(schema, a) && Ascending(schema, b) && forall u :: u in a <==> u in b
    ensures a == b
    decreases |a|
  {
    hide Ascending;
    assert (a != [] ==> a[0] in b) && (b != [] ==> b[0] in a);
    if a != [] && b != [] {
      LastIsGreatest(schema, a, b);
      var fa, fb := a[..|a| - 1], b[..|b| - 1];
      forall u ensures u in fa <==> u in fb {
        FrontOf(schema, a, u);
        FrontOf(schema, b, u);
      }
      FrontAscends(schema, a);
      FrontAscends(schema, b);
      AscendingUnique(schema, fa, fb);
      assert a == fa + [a[|a| - 1]] && b == fb + [b[|b| - 1]];
    }
  }

  lemma FrontAscends(schema: Schema, a: seq<Update>)
    requires Ascending(schema, a) && a != []
    ensures Ascending(schema, a[..|a| - 1])
  {
  }

  lemma FrontOf(schema: Schema, a: seq<Update>, u: Update)
    requires Ascending(schema, a) && a != []
    ensures u in a[..|a| - 1] <==> u in a && u != a[|a| - 1]
  {
    assert a == a[..|a| - 1] + [a[|a| - 1]];
    if u in a[..|a| - 1] {
      var i :| 0 <= i < |a| - 1 && a[i] == u;
      assert schema.rank(a[i].node) < schema.rank(a[|a| - 1].node);
    }
  }

  lemma LastIsGreatest(schema: Schema, a: seq<Update>, b: seq<Update>)
    requires Ascending(schema, a) && Ascending(schema, b) && a != [] && b != [] && forall u :: u in a <==> u in b
    ensures a[|a| - 1] == b[|b| - 1]
  {
    var x, y := a[|a| - 1], b[|b| - 1];
    assert x in b && y in a;
    var i :| 0 <= i < |b| && b[i] == x;
    var j :| 0 <= j < |a| && a[j] == y;
    assert schema.rank(y.node) <= schema.rank(x.node);
  }

  /** The same updates, in any order and any number, settle alike. */
  lemma OrderAndRepetitionDecideNothing(schema: Schema, us: seq<Update>, vs: seq<Update>, a: seq<Update>,
                                        b: seq<Update>)
    requires forall u :: u in us <==> u in vs
    requires Settles(schema, us, a) && Settles(schema, vs, b)
    ensures a == b && forall w :: WriteAll(schema, w, a) == WriteAll(schema, w, b)
  {
    forall u ensures u in a <==> u in b {
      assert Disputed(us, u.node) <==> Disputed(vs, u.node);
    }
    AscendingUnique(schema, a, b);
  }

  // ---- What the published facts read ----

  predicate Touches(node: Node, owner: Owner) {
    (node.TypeOwner? && node.owner == owner) || (node.Declaration? && OfDecl(node.decl) == owner)
  }

  /** A fact no published node names is left alone; a file changes only for a node published in it. */
  lemma {:induction false} NothingElseIsWritten(schema: Schema, w: Written, us: seq<Update>)
    ensures var t := WriteAll(schema, w, us);
            && t.facts.params == w.facts.params
            && (forall o | (forall u | u in us :: !Touches(u.node, o))
                :: Lookup(t.facts.owners, o) == Lookup(w.facts.owners, o))
            && (forall a | (forall u | u in us :: u.node != Assigned(a))
                :: Lookup(t.facts.assignments, a) == Lookup(w.facts.assignments, a))
            && (forall f | f in t.changed && f !in w.changed ::
                  exists u | u in us :: !u.node.SignatureParam? && schema.fileOf(u.node) == f)
    decreases |us|
  {
    if us != [] {
      var front, u := us[..|us| - 1], us[|us| - 1];
      NothingElseIsWritten(schema, w, front);
      assert us == front + [u];
      hide WriteAll;
      assert u in us;
      assert forall v | v in front :: v in us;
    }
  }

  // ---- Publishing ----

  function ByRank(schema: Schema): Update -> int {
    (u: Update) => schema.rank(u.node)
  }

  /** Sorted by rank: equal nodes are neighbours. */
  predicate Sorted(schema: Schema, us: seq<Update>) {
    forall i, j | 0 <= i < j < |us| :: schema.rank(us[i].node) <= schema.rank(us[j].node)
  }

  lemma SortSorts(schema: Schema, us: seq<Update>)
    ensures Sorted(schema, Sort(ByRank(schema), us))
    ensures forall u :: u in Sort(ByRank(schema), us) <==> u in us
  {
    Sorts(ByRank(schema), us);
    var sorted := Sort(ByRank(schema), us);
    forall u ensures u in sorted <==> u in us {
      assert u in multiset(sorted) <==> u in multiset(us);
    }
    forall i, j | 0 <= i < j < |sorted| ensures schema.rank(sorted[i].node) <= schema.rank(sorted[j].node) {
      assert ByRank(schema)(sorted[i]) <= ByRank(schema)(sorted[j]);
    }
  }

  /** Neighbours that give one node two facts. */
  predicate Clash(us: seq<Update>, i: nat) {
    i + 1 < |us| && us[i].node == us[i + 1].node && us[i].fact != us[i + 1].fact
  }

  /** A dispute shows between neighbours. */
  lemma {:induction false} DisputeShows(schema: Schema, us: seq<Update>, i: nat, j: nat) returns (k: nat)
    requires Ranks(schema) && Sorted(schema, us) && i < j < |us| && us[i].node == us[j].node && us[i].fact != us[j].fact
    ensures Clash(us, k) && us[k].node == us[i].node
    decreases j - i
  {
    assert schema.rank(us[i].node) <= schema.rank(us[i + 1].node) <= schema.rank(us[j].node);
    assert us[i + 1].node == us[i].node;
    if us[i + 1].fact != us[i].fact {
      k := i;
    } else {
      k := DisputeShows(schema, us, i + 1, j);
    }
  }

  /** Sorted neighbours clash over exactly the disputed nodes. */
  method Disputes(schema: Schema, us: seq<Update>) returns (nodes: set<Node>)
    requires Ranks(schema) && Sorted(schema, us)
    ensures forall n :: n in nodes <==> Disputed(us, n)
  {
    nodes := {};
    for i := 0 to if us == [] then 0 else |us| - 1
      invariant forall n :: n in nodes <==> exists k: nat | k < i :: Clash(us, k) && us[k].node == n
    {
      if us[i].node == us[i + 1].node && us[i].fact != us[i + 1].fact {
        assert Clash(us, i);
        nodes := nodes + {us[i].node};
      }
    }
    forall n ensures n in nodes <==> Disputed(us, n) {
      ClashesAreDisputes(schema, us, n);
    }
  }

  lemma ClashesAreDisputes(schema: Schema, us: seq<Update>, n: Node)
    requires Ranks(schema) && Sorted(schema, us)
    ensures Disputed(us, n)
       <==> exists k: nat | k < (if us == [] then 0 else |us| - 1) :: Clash(us, k) && us[k].node == n
  {
    if Disputed(us, n) {
      var u, v :| u in us && v in us && u.node == n && v.node == n && u.fact != v.fact;
      var i :| 0 <= i < |us| && us[i] == u;
      var j :| 0 <= j < |us| && us[j] == v;
      var k: nat;
      if i < j {
        k := DisputeShows(schema, us, i, j);
      } else {
        k := DisputeShows(schema, us, j, i);
      }
    }
    if k: nat :| k < |us| && Clash(us, k) && us[k].node == n {
      assert us[k] in us && us[k + 1] in us;
    }
  }

  /** The undisputed updates among the first of a sorted list, each once. */
  ghost predicate SettlesTo(schema: Schema, us: seq<Update>, disputed: set<Node>, i: nat, settled: seq<Update>)
    requires i <= |us|
  {
    && Ascending(schema, settled)
    && (forall u :: u in settled <==> u in us[..i] && u.node !in disputed)
  }

  lemma SettleNext(schema: Schema, us: seq<Update>, disputed: set<Node>, i: nat, settled: seq<Update>)
    requires i < |us| && Ranks(schema) && Sorted(schema, us) && (forall n :: n in disputed <==> Disputed(us, n))
    requires SettlesTo(schema, us, disputed, i, settled)
    ensures var u := us[i];
            if u.node in disputed || (settled != [] && settled[|settled| - 1].node == u.node)
            then SettlesTo(schema, us, disputed, i + 1, settled)
            else SettlesTo(schema, us, disputed, i + 1, settled + [u])
  {
    var u := us[i];
    assert us[..i + 1] == us[..i] + [u];
    assert u in us;
    forall v | v in settled
      ensures v in us && schema.rank(v.node) <= schema.rank(u.node) && (v.node == u.node ==> v == u)
    {
      assert v in us[..i];
      var j :| 0 <= j < i && us[j] == v;
      assert v.node !in disputed && !Disputed(us, v.node);
    }
    if u in settled {
      assert settled[|settled| - 1] in settled;
      var j :| 0 <= j < |settled| && settled[j] == u;
      assert schema.rank(settled[j].node) <= schema.rank(settled[|settled| - 1].node);
    }
  }

  class Index {
    const schema: Schema
    var facts: Facts
    /** Moves on whenever facts are written. */
    var revision: nat

    constructor (schema: Schema, facts: Facts)
      ensures this.schema == schema && this.facts == facts && revision == 0
    {
      this.schema, this.facts, this.revision := schema, facts, 0;
    }

    /** Writes one fact unless it already reads so, and reports its file. */
    method Publish(u: Update, before: set<FileId>) returns (changed: set<FileId>)
      modifies this
      ensures Written(facts, changed) == Write(schema, Written(old(facts), before), u) && revision == old(revision)
    {
      changed := before;
      if Get(facts, u.node) != Some(u.fact) {
        match u.node {
          case TypeOwner(owner) =>
            facts := facts.(owners := facts.owners[owner := schema.kept(owner, u.fact)]);
            changed := changed + {schema.fileOf(u.node)};
          case Declaration(decl) =>
            facts := facts.(owners := facts.owners[OfDecl(decl) := schema.kept(OfDecl(decl), u.fact)]);
            changed := changed + {schema.fileOf(u.node)};
          case Assigned(a) =>
            facts := facts.(assignments := facts.assignments[a := u.fact]);
            changed := changed + {schema.fileOf(u.node)};
          case SignatureParam(_) =>
        }
      }
    }

    /** Publishes the undisputed updates, once each, in the nodes' order; disputed nodes are not written. */
    method PublishInferenceFacts(updates: seq<Update>) returns (changed: set<FileId>, ghost settled: seq<Update>)
      requires Ranks(schema)
      modifies this
      ensures Settles(schema, updates, settled)
      ensures Written(facts, changed) == WriteAll(schema, Written(old(facts), {}), settled)
      ensures forall f :: f in changed <==>
                exists i: nat :: Changes(schema, old(facts), settled, i) && schema.fileOf(settled[i].node) == f
      ensures changed == {} <==> revision == old(revision)
      ensures changed == {} ==> facts == old(facts)
    {
      hide WriteAll, Disputed, Sort, Write, Get, SettlesTo, Settles, Ranks, Sorted, ByRank, Changes, Ascending;
      var sorted := Sort(ByRank(schema), updates);
      SortSorts(schema, updates);
      var disputed := Disputes(schema, sorted);
      changed, settled := {}, [];
      ghost var before := facts;
      var previous: Option<Node> := None;
      Nothing(schema, sorted, disputed, Written(before, {}));
      for i := 0 to |sorted|
        invariant SettlesTo(schema, sorted, disputed, i, settled)
        invariant Written(facts, changed) == WriteAll(schema, Written(before, {}), settled)
        invariant previous == if settled == [] then None else Some(settled[|settled| - 1].node)
        invariant revision == old(revision)
      {
        SettleNext(schema, sorted, disputed, i, settled);
        var u := sorted[i];
        if u.node !in disputed && previous != Some(u.node) {
          previous := Some(u.node);
          WriteNext(schema, Written(before, {}), settled, u);
          settled := settled + [u];
          changed := Publish(u, changed);
        }
      }
      SettledAll(schema, updates, sorted, disputed, settled);
      NoFilesNoWrites(schema, Written(before, {}), settled);
      SettledAscend(schema, updates, settled);
      ChangedFiles(schema, before, settled);
      if changed != {} {
        revision := revision + 1;
      }
    }
  }

  lemma SettledAscend(schema: Schema, us: seq<Update>, settled: seq<Update>)
    requires Settles(schema, us, settled)
    ensures Ascending(schema, settled)
  {
  }

  lemma Nothing(schema: Schema, us: seq<Update>, disputed: set<Node>, w: Written)
    ensures SettlesTo(schema, us, disputed, 0, []) && WriteAll(schema, w, []) == w
  {
  }

  lemma WriteNext(schema: Schema, w: Written, us: seq<Update>, u: Update)
    ensures WriteAll(schema, w, us + [u]) == Write(schema, WriteAll(schema, w, us), u)
  {
    assert (us + [u])[..|us|] == us;
  }

  lemma SettledAll(schema: Schema, us: seq<Update>, sorted: seq<Update>, disputed: set<Node>, settled: seq<Update>)
    requires (forall u :: u in sorted <==> u in us) && (forall n :: n in disputed <==> Disputed(sorted, n))
    requires SettlesTo(schema, sorted, disputed, |sorted|, settled)
    ensures Settles(schema, us, settled)
  {
    assert sorted[..|sorted|] == sorted;
    forall n ensures Disputed(sorted, n) <==> Disputed(us, n) {
    }
  }

  /** Facts change only in files that are reported. */
  lemma {:induction false} NoFilesNoWrites(schema: Schema, w: Written, us: seq<Update>)
    ensures w.changed <= WriteAll(schema, w, us).changed
    ensures WriteAll(schema, w, us).changed == {} ==> WriteAll(schema, w, us).facts == w.facts
    decreases |us|
  {
    if us != [] {
      NoFilesNoWrites(schema, w, us[..|us| - 1]);
    }
  }

  /** Nodes that read one fact: equal ones, and a declaration and its type owner. */
  predicate SameFact(m: Node, n: Node) {
    m == n || (m.TypeOwner? && Touches(n, m.owner)) || (m.Declaration? && Touches(n, OfDecl(m.decl)))
  }

  /**
   * What a published node reads, unless a later node of the same fact was published too: its fact
   * where it found it, else the form its fact is kept in.
   */
  lemma {:induction false} PublishedReads(schema: Schema, w: Written, us: seq<Update>, i: nat)
    requires i < |us| && !us[i].node.SignatureParam?
    requires forall j | i < j < |us| :: !SameFact(us[i].node, us[j].node)
    ensures var u, found := us[i], Get(WriteAll(schema, w, us[..i]).facts, us[i].node);
      Get(WriteAll(schema, w, us).facts, u.node) == if found == Some(u.fact) then found else Some(Kept(schema, u))
    decreases |us|
  {
    if i < |us| - 1 {
      PublishedReads(schema, w, us[..|us| - 1], i);
      assert us[..|us| - 1][..i] == us[..i];
      OthersStay(schema, WriteAll(schema, w, us[..|us| - 1]), us[|us| - 1], us[i].node);
    } else {
      assert us[..|us| - 1] == us[..i];
      SharerReads(schema, WriteAll(schema, w, us[..i]), us[i], us[i].node);
    }
  }

  lemma OthersStay(schema: Schema, w: Written, u: Update, n: Node)
    requires !SameFact(n, u.node)
    ensures Get(Write(schema, w, u).facts, n) == Get(w.facts, n)
  {
  }

  // ---- Disputed nodes ----

  /** The form a published fact is kept in. */
  function Kept(schema: Schema, u: Update): Fact {
    match u.node
    case TypeOwner(owner) => schema.kept(owner, u.fact)
    case Declaration(decl) => schema.kept(OfDecl(decl), u.fact)
    case _ => u.fact
  }

  lemma SharersReadAlike(facts: Facts, m: Node, n: Node)
    requires SameFact(m, n)
    ensures Get(facts, m) == Get(facts, n)
  {
  }

  lemma SharerReads(schema: Schema, w: Written, u: Update, n: Node)
    requires SameFact(n, u.node) && !u.node.SignatureParam?
    ensures Get(Write(schema, w, u).facts, n) == if Get(w.facts, n) == Some(u.fact) then Get(w.facts, n)
        else Some(Kept(schema, u))
  {
    SharersReadAlike(w.facts, n, u.node);
    SharersReadAlike(Write(schema, w, u).facts, n, u.node);
  }

  /** A node shares its fact with one other at most. */
  lemma OneSharer(n: Node, a: Node, b: Node)
    requires SameFact(n, a) && SameFact(n, b) && a != n && b != n
    ensures a == b && !a.SignatureParam?
  {
  }

  /**
   * What a node that is not published reads: its old fact, or what the one node it shares the fact
   * with was published with.
   */
  lemma {:induction false} UnpublishedReads(schema: Schema, w: Written, us: seq<Update>, n: Node)
    requires Ascending(schema, us) && forall u | u in us :: u.node != n
    ensures var read := Get(WriteAll(schema, w, us).facts, n);
      && (forall u | u in us && SameFact(n, u.node)
          :: read == if Get(w.facts, n) == Some(u.fact) then Get(w.facts, n) else Some(Kept(schema, u)))
      && ((forall u | u in us :: !SameFact(n, u.node)) ==> read == Get(w.facts, n))
    decreases |us|
  {
    if us != [] {
      var front, last := us[..|us| - 1], us[|us| - 1];
      assert us == front + [last];
      assert forall u | u in front :: u in us;
      UnpublishedReads(schema, w, front, n);
      if SameFact(n, last.node) {
        forall u | u in front ensures !SameFact(n, u.node) {
          FrontOf(schema, us, u);
          SharedOnce(schema, us, u, last, n);
        }
        assert last in us;
        OneSharer(n, last.node, last.node);
        SharerReads(schema, WriteAll(schema, w, front), last, n);
      } else {
        OthersStay(schema, WriteAll(schema, w, front), last, n);
      }
    }
  }

  // ---- The files reported ----

  /** What update `i` finds its node to read: what the facts say, or what an earlier sharer of its fact left. */
  ghost predicate Finds(schema: Schema, facts: Facts, us: seq<Update>, i: nat, read: Option<Fact>)
    requires i < |us|
  {
    var n := us[i].node;
    && (forall j | 0 <= j < i && SameFact(n, us[j].node) ::
          read == if Get(facts, n) == Some(us[j].fact) then Get(facts, n) else Some(Kept(schema, us[j])))
    && ((forall j | 0 <= j < i :: !SameFact(n, us[j].node)) ==> read == Get(facts, n))
  }

  /** Update `i` finds its node reading something other than its fact. */
  ghost predicate Changes(schema: Schema, facts: Facts, us: seq<Update>, i: nat) {
    && i < |us| && !us[i].node.SignatureParam?
    && exists read :: Finds(schema, facts, us, i, read) && read != Some(us[i].fact)
  }

  /** At its turn an update finds exactly that. */
  lemma TurnReads(schema: Schema, facts: Facts, us: seq<Update>, i: nat)
    requires Ascending(schema, us) && i < |us|
    ensures forall read :: Finds(schema, facts, us, i, read)
                      <==> read == Get(WriteAll(schema, Written(facts, {}), us[..i]).facts, us[i].node)
  {
    var front, n := us[..i], us[i].node;
    EarlierNodes(schema, us, i);
    UnpublishedReads(schema, Written(facts, {}), front, n);
    var now := Get(WriteAll(schema, Written(facts, {}), front).facts, n);
    hide WriteAll, Get, Ascending, SameFact, Kept;
    if j :| 0 <= j < i && SameFact(n, us[j].node) {
      assert us[j] in front;
    }
  }

  lemma EarlierNodes(schema: Schema, us: seq<Update>, i: nat)
    requires Ascending(schema, us) && i < |us|
    ensures Ascending(schema, us[..i]) && forall u | u in us[..i] :: u.node != us[i].node
    ensures forall j | 0 <= j < i :: us[j] in us[..i]
  {
    forall u | u in us[..i] ensures u.node != us[i].node {
      var j :| 0 <= j < i && us[j] == u;
    }
  }

  /** A file is reported exactly when an update of it changed what its node read. */
  lemma {:induction false} ChangedFiles(schema: Schema, facts: Facts, us: seq<Update>)
    requires Ascending(schema, us)
    ensures forall f :: f in WriteAll(schema, Written(facts, {}), us).changed
                   <==> exists i: nat :: Changes(schema, facts, us, i) && schema.fileOf(us[i].node) == f
    decreases |us|
  {
    if us != [] {
      var n := |us| - 1;
      var front, u := us[..n], us[n];
      ChangedFiles(schema, facts, front);
      ChangesAtTurn(schema, facts, us, n);
      var w := WriteAll(schema, Written(facts, {}), front);
      WriteReports(schema, w, u);
      forall i: nat | i < n ensures Changes(schema, facts, us, i) <==> Changes(schema, facts, front, i) {
        ChangesEarlier(schema, facts, us, i);
      }
      var t := WriteAll(schema, Written(facts, {}), us);
      assert t == Write(schema, w, u);
      hide WriteAll, Write, Get, Changes, Ascending;
      forall f ensures f in t.changed
          <==> exists i: nat :: Changes(schema, facts, us, i) && schema.fileOf(us[i].node) == f {
        if i: nat :| Changes(schema, facts, us, i) && schema.fileOf(us[i].node) == f {
          ChangesInside(schema, facts, us, i);
          assert i == n || (i < n && Changes(schema, facts, front, i));
        }
        if i: nat :| Changes(schema, facts, front, i) && schema.fileOf(front[i].node) == f {
          ChangesInside(schema, facts, front, i);
          assert Changes(schema, facts, us, i) && us[i] == front[i];
        }
      }
    }
  }

  lemma ChangesAtTurn(schema: Schema, facts: Facts, us: seq<Update>, i: nat)
    requires Ascending(schema, us) && i < |us|
    ensures var read := Get(WriteAll(schema, Written(facts, {}), us[..i]).facts, us[i].node);
      Changes(schema, facts, us, i) <==> !us[i].node.SignatureParam? && read != Some(us[i].fact)
  {
    TurnReads(schema, facts, us, i);
    hide WriteAll, Get, Finds;
    assert Finds(schema, facts, us, i, Get(WriteAll(schema, Written(facts, {}), us[..i]).facts, us[i].node));
  }

  lemma ChangesInside(schema: Schema, facts: Facts, us: seq<Update>, i: nat)
    requires Changes(schema, facts, us, i)
    ensures i < |us|
  {
  }

  lemma ChangesEarlier(schema: Schema, facts: Facts, us: seq<Update>, i: nat)
    requires i + 1 < |us|
    ensures Changes(schema, facts, us, i) <==> Changes(schema, facts, us[..|us| - 1], i)
  {
    var front := us[..|us| - 1];
    hide Get, SameFact;
    forall read ensures Finds(schema, facts, us, i, read) <==> Finds(schema, facts, front, i, read) {
      assert forall j | 0 <= j <= i :: front[j] == us[j];
    }
  }

  lemma WriteReports(schema: Schema, w: Written, u: Update)
    ensures var changes := !u.node.SignatureParam? && Get(w.facts, u.node) != Some(u.fact);
      forall f :: f in Write(schema, w, u).changed <==> f in w.changed || (changes && schema.fileOf(u.node) == f)
  {
  }

  lemma SharedOnce(schema: Schema, us: seq<Update>, u: Update, v: Update, n: Node)
    requires Ascending(schema, us) && u in us && v in us && u != v && u.node != n && v.node != n && SameFact(n, v.node)
    ensures !SameFact(n, u.node)
  {
    NodesApart(schema, us, u, v);
    if SameFact(n, u.node) {
      OneSharer(n, u.node, v.node);
    }
  }

  lemma NodesApart(schema: Schema, us: seq<Update>, u: Update, v: Update)
    requires Ascending(schema, us) && u in us && v in us && u != v
    ensures u.node != v.node
  {
    var i :| 0 <= i < |us| && us[i] == u;
    var j :| 0 <= j < |us| && us[j] == v;
  }

  /** A disputed node reads as before exactly when no published node that shares its fact is kept with another. */
  lemma DisputedReads(schema: Schema, w: Written, us: seq<Update>, settled: seq<Update>, n: Node)
    requires Settles(schema, us, settled) && Disputed(us, n)
    ensures Get(WriteAll(schema, w, settled).facts, n) == Get(w.facts, n)
       <==> forall u | u in settled && SameFact(n, u.node)
           :: Get(w.facts, n) == Some(u.fact) || Get(w.facts, n) == Some(Kept(schema, u))
  {
    UnpublishedReads(schema, w, settled, n);
    hide WriteAll, Disputed;
  }

  /**
   * A declaration two facts are given for, beside its type owner, which one is given for: it changes
   * with the owner exactly when it held neither that fact nor what is kept for it.
   */
  lemma DisputedChangesWithItsOwner(schema: Schema, facts: Facts, d: Decl, f: Fact, g: Fact, h: Fact)
    requires f != g
    ensures var us := [Update(Declaration(d), f), Update(Declaration(d), g), Update(TypeOwner(OfDecl(d)), h)];
            var settled := [Update(TypeOwner(OfDecl(d)), h)];
            var held, kept := Get(facts, Declaration(d)), Some(schema.kept(OfDecl(d), h));
            var left := Get(WriteAll(schema, Written(facts, {}), settled).facts, Declaration(d));
      && Disputed(us, Declaration(d)) && Settles(schema, us, settled)
      && (left != held <==> held != Some(h) && held != kept)
      && (held != Some(h) ==> left == kept)
  {
    var a, b, c := Update(Declaration(d), f), Update(Declaration(d), g), Update(TypeOwner(OfDecl(d)), h);
    var us, settled := [a, b, c], [c];
    assert a in us && b in us && a.node == b.node == Declaration(d);
    forall u ensures u in settled <==> u in us && !Disputed(us, u.node) {
      assert u in us <==> u == a || u == b || u == c;
    }
    WriteNext(schema, Written(facts, {}), [], c);
    assert [] + [c] == [c];
  }
}
