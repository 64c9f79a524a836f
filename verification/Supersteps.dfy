/**
 * The barrier of a superstep. A domain installs the forks with writes to it,
 * by rows or by columns; the index's own fields are installed by rows.
 * Whichever way, the index and each fork's conflicts are those of installing
 * whole forks in order.
 */
module Supersteps {
  import opened Options
  import opened ThreeWay
  import Sharding
  import ArcWorld

  type Name(==, !new)
  type Store = map<Sharding.Key, ArcWorld.Value>

  /** A domain's declaration: its fields' names and merges, and whether it installs field by field. */
  datatype Kind = Kind(names: seq<Name>, merges: seq<Option<Merge<ArcWorld.Value>>>, byField: bool)

  ghost predicate Fits(kind: Kind, fields: seq<Store>) {
    |kind.names| == |kind.merges| == |fields|
  }

  /** A domain before its superstep, what it was frozen as, and what each fork made of it. */
  datatype Column = Column(kind: Kind, now: seq<Store>, frozen: seq<Store>, forks: seq<seq<Store>>)

  ghost predicate Formed(c: Column) {
    Fits(c.kind, c.now) && Fits(c.kind, c.frozen) && forall i | 0 <= i < |c.forks| :: Fits(c.kind, c.forks[i])
  }

  // ---- The meaning: forks in order, one field at a time ----

  /** Field `f` once the first `n` forks are in. */
  ghost function FieldAfter(c: Column, f: nat, n: nat): Store
    requires Formed(c) && f < |c.now| && n <= |c.forks|
  {
    if n == 0 then c.now[f] else MergeMaps(c.kind.merges[f], FieldAfter(c, f, n - 1), c.frozen[f], c.forks[n - 1][f])
  }

  ghost predicate Clash(c: Column, f: nat, i: nat)
    requires Formed(c) && f < |c.now| && i < |c.forks|
  {
    MapsConflict(c.kind.merges[f], FieldAfter(c, f, i), c.frozen[f], c.forks[i][f])
  }

  /** The fields among the first `n` that fork `i` conflicts in, in field order. */
  ghost function Report(c: Column, i: nat, n: nat): seq<Name>
    requires Formed(c) && i < |c.forks| && n <= |c.now|
  {
    if n == 0 then [] else Report(c, i, n - 1) + if Clash(c, n - 1, i) then [c.kind.names[n - 1]] else []
  }

  /** A fork's report names the fields it clashes in, all of them, by the order of the fields. */
  lemma {:induction false} ReportLists(c: Column, i: nat, n: nat) returns (at: seq<nat>)
    requires Formed(c) && i < |c.forks| && n <= |c.now|
    ensures forall j, k | 0 <= j < k < |at| :: at[j] < at[k]
    ensures forall f: nat :: f in at <==> f < n && f < |c.now| && Clash(c, f, i)
    ensures |Report(c, i, n)| == |at| && forall j | 0 <= j < |at| ::
              at[j] < |c.kind.names| && Report(c, i, n)[j] == c.kind.names[at[j]]
    decreases n
  {
    hide Clash, FieldAfter;
    at := [];
    if n > 0 {
      at := ReportLists(c, i, n - 1);
      FormedNames(c);
      hide Formed;
      assert forall j | 0 <= j < |at| :: at[j] in at;
      if Clash(c, n - 1, i) {
        at := at + [n - 1];
      }
    }
  }

  /** The domain with the first `n` forks in. */
  ghost function After(c: Column, n: nat): (fields: seq<Store>)
    requires Formed(c) && n <= |c.forks|
    ensures Fits(c.kind, fields)
  {
    seq(|c.now|, f requires 0 <= f < |c.now| => FieldAfter(c, f, n))
  }

  /** A field's superstep is the fold its maps install by. */
  lemma {:induction false} FieldAfterIsFold(c: Column, f: nat, n: nat)
    requires Formed(c) && f < |c.now| && n <= |c.forks|
    ensures FieldAfter(c, f, n) == FoldMaps(c.kind.merges[f], c.frozen[f], c.now[f],
        seq(n, i requires 0 <= i < n => c.forks[i][f]))
  {
    if n > 0 {
      FieldAfterIsFold(c, f, n - 1);
      var all := seq(n, i requires 0 <= i < n => c.forks[i][f]);
      assert all[..n - 1] == seq(n - 1, i requires 0 <= i < n - 1 => c.forks[i][f]);
    }
  }

  // ---- Installing a domain ----

  /** The domain while fork `i` goes in: the first `f` fields have it. */
  ghost predicate Midway(c: Column, i: nat, f: nat, fields: seq<Store>)
    requires Formed(c) && i < |c.forks|
  {
    |fields| == |c.now| && forall g | 0 <= g < |fields| :: fields[g] == FieldAfter(c, g, if g < f then i + 1 else i)
  }

  lemma FieldStep(c: Column, i: nat, f: nat, fields: seq<Store>, merged: Store)
    requires Formed(c) && i < |c.forks| && f < |c.now| && Midway(c, i, f, fields)
    requires merged == MergeMaps(c.kind.merges[f], fields[f], c.frozen[f], c.forks[i][f])
    ensures fields[f] == FieldAfter(c, f, i) && Midway(c, i, f + 1, fields[f := merged])
  {
    hide MergeMaps;
  }

  lemma ReportStep(c: Column, i: nat, f: nat)
    requires Formed(c) && i < |c.forks| && f < |c.now|
    ensures Report(c, i, f + 1) == Report(c, i, f) + if Clash(c, f, i) then [c.kind.names[f]] else []
  {
    hide Clash;
  }

  lemma ClashIs(c: Column, f: nat, i: nat)
    requires Formed(c) && f < |c.now| && i < |c.forks|
    ensures Clash(c, f, i) <==> MapsConflict(c.kind.merges[f], FieldAfter(c, f, i), c.frozen[f], c.forks[i][f])
  {
  }

  lemma WholeFork(c: Column, i: nat, fields: seq<Store>)
    requires Formed(c) && i < |c.forks|
    ensures fields == After(c, i) ==> Midway(c, i, 0, fields)
    ensures Midway(c, i, |c.now|, fields) ==> fields == After(c, i + 1)
  {
    hide FieldAfter;
  }

  /** One fork's fields, one after another; the names of those that conflict. */
  method InstallTask(c: Column, i: nat, current: seq<Store>) returns (fields: seq<Store>, conflicts: seq<Name>)
    requires Formed(c) && i < |c.forks| && current == After(c, i)
    ensures fields == After(c, i + 1) && conflicts == Report(c, i, |c.now|)
  {
    hide Midway, FieldAfter, MergeMaps, MapsConflict, After, Clash;
    WholeFork(c, i, current);
    assert Report(c, i, 0) == [];
    hide Report;
    fields, conflicts := current, [];
    for f := 0 to |c.now|
      invariant |fields| == |c.now| && Midway(c, i, f, fields)
      invariant conflicts == Report(c, i, f)
    {
      var merged, clash := MergeShard(c.kind.merges[f], fields[f], c.frozen[f], c.forks[i][f]);
      FieldStep(c, i, f, fields, merged);
      ReportStep(c, i, f);
      ClashIs(c, f, i);
      fields := fields[f := merged];
      if clash {
        conflicts := conflicts + [c.kind.names[f]];
      }
    }
    WholeFork(c, i, fields);
  }

  /** Where the forks' reports go. */
  ghost predicate Placed(places: seq<nat>, count: nat) {
    && (forall j | 0 <= j < |places| :: places[j] < count)
    && (forall j, k | 0 <= j < k < |places| :: places[j] != places[k])
  }

  /** Every fork's report at its place, for the first `n` fields, and nothing elsewhere. */
  ghost predicate Reported(c: Column, places: seq<nat>, forks: nat, n: nat, reports: seq<seq<Name>>)
    requires Formed(c) && |places| == |c.forks| && forks <= |c.forks| && n <= |c.now|
  {
    && Placed(places, |reports|)
    && (forall j | 0 <= j < forks :: reports[places[j]] == Report(c, j, n))
    && (forall p | 0 <= p < |reports| && p !in places[..forks] :: reports[p] == [])
  }

  lemma ReportPlaced(c: Column, places: seq<nat>, i: nat, reports: seq<seq<Name>>)
    requires Formed(c) && |places| == |c.forks| && i < |c.forks| && Reported(c, places, i, |c.now|, reports)
    ensures places[i] < |reports|
    ensures Reported(c, places, i + 1, |c.now|, reports[places[i] := reports[places[i]] + Report(c, i, |c.now|)])
  {
    hide Report, Formed;
    NotEarlier(places, i);
    assert reports[places[i]] == [];
    assert [] + Report(c, i, |c.now|) == Report(c, i, |c.now|);
    assert places[..i + 1] == places[..i] + [places[i]];
  }

  lemma NothingReported(c: Column, places: seq<nat>, reports: seq<seq<Name>>)
    requires Formed(c) && |places| == |c.forks| && Placed(places, |reports|)
      && forall p | 0 <= p < |reports| :: reports[p] == []
    ensures Reported(c, places, 0, |c.now|, reports) && Reported(c, places, |c.forks|, 0, reports)
  {
  }

  method InstallRows(c: Column, places: seq<nat>, count: nat) returns (fields: seq<Store>, reports: seq<seq<Name>>)
    requires Formed(c) && |places| == |c.forks| && Placed(places, count)
    ensures fields == After(c, |c.forks|) && |reports| == count
    ensures Reported(c, places, |c.forks|, |c.now|, reports)
  {
    hide After, Reported, Report, Placed, FieldAfter, Formed, Fits;
    fields, reports := c.now, seq(count, _ => []);
    NoForks(c);
    NothingReported(c, places, reports);
    for i := 0 to |c.forks|
      invariant fields == After(c, i) && |reports| == count
      invariant Reported(c, places, i, |c.now|, reports)
    {
      var conflicts: seq<Name>;
      fields, conflicts := InstallTask(c, i, fields);
      ReportPlaced(c, places, i, reports);
      reports := reports[places[i] := reports[places[i]] + conflicts];
    }
  }

  /** One column: a field of every fork, and where it conflicts. */
  method InstallColumn(c: Column, f: nat, places: seq<nat>) returns (store: Store, clashes: seq<nat>)
    requires Formed(c) && f < |c.now| && |places| == |c.forks|
    ensures store == FieldAfter(c, f, |c.forks|)
    ensures clashes == Clashing(c, f, places, |c.forks|)
  {
    store, clashes := c.now[f], [];
    for i := 0 to |c.forks|
      invariant store == FieldAfter(c, f, i) && clashes == Clashing(c, f, places, i)
    {
      var clash: bool;
      store, clash := MergeShard(c.kind.merges[f], store, c.frozen[f], c.forks[i][f]);
      if clash {
        clashes := clashes + [places[i]];
      }
    }
  }

  /** The places of the first `n` forks that conflict in field `f`. */
  ghost function Clashing(c: Column, f: nat, places: seq<nat>, n: nat): seq<nat>
    requires Formed(c) && f < |c.now| && |places| == |c.forks| && n <= |places|
  {
    if n == 0 then [] else Clashing(c, f, places, n - 1) + if Clash(c, f, n - 1) then [places[n - 1]] else []
  }

  lemma {:induction false} ClashingAre(c: Column, f: nat, places: seq<nat>, n: nat)
    requires Formed(c) && f < |c.now| && |places| == |c.forks| && n <= |places|
    requires forall j, k | 0 <= j < k < |places| :: places[j] != places[k]
    ensures forall p | p in Clashing(c, f, places, n) :: p in places[..n]
    ensures forall j | 0 <= j < n :: places[j] in Clashing(c, f, places, n) <==> Clash(c, f, j)
  {
    hide Clash, Formed, FieldAfter;
    if n > 0 {
      ClashingAre(c, f, places, n - 1);
      NotEarlier(places, n - 1);
      var front, last := Clashing(c, f, places, n - 1), places[n - 1];
      assert places[..n] == places[..n - 1] + [last];
      assert last !in front;
      forall j | 0 <= j < n - 1 ensures places[j] != last {
        assert places[j] in places[..n - 1];
      }
    }
  }

  lemma {:induction false} ClashingOnce(c: Column, f: nat, places: seq<nat>, n: nat)
    requires Formed(c) && f < |c.now| && |places| == |c.forks| && n <= |places|
    requires forall j, k | 0 <= j < k < |places| :: places[j] != places[k]
    ensures Once(Clashing(c, f, places, n))
  {
    hide Clash, Formed, FieldAfter;
    if n > 0 {
      ClashingOnce(c, f, places, n - 1);
      hide Once;
      ClashingAre(c, f, places, n - 1);
      var s, p := Clashing(c, f, places, n - 1), places[n - 1];
      NotEarlier(places, n - 1);
      if Clash(c, f, n - 1) {
        assert p !in s;
        OneMore(s, p);
      } else {
        assert s + [] == s;
      }
    } else {
      assert Once([]);
    }
  }

  lemma NotEarlier(places: seq<nat>, n: nat)
    requires n < |places| && forall j, k | 0 <= j < k < |places| :: places[j] != places[k]
    ensures places[n] !in places[..n]
  {
  }

  lemma OneMore(s: seq<nat>, p: nat)
    requires Once(s) && p !in s
    ensures Once(s + [p])
  {
  }

  ghost predicate Once(s: seq<nat>) {
    forall j, k | 0 <= j < k < |s| :: s[j] != s[k]
  }

  /** The reports while field `f`'s clashes are told: the first `t` have been. */
  ghost predicate Telling(c: Column, places: seq<nat>, f: nat, clashes: seq<nat>, t: nat, reports: seq<seq<Name>>)
    requires Formed(c) && |places| == |c.forks| && f < |c.now| && t <= |clashes|
  {
    && Placed(places, |reports|)
    && (forall j | 0 <= j < |places| ::
          reports[places[j]] == Report(c, j, f) + if places[j] in clashes[..t] then [c.kind.names[f]] else [])
    && (forall p | 0 <= p < |reports| && p !in places :: reports[p] == [])
  }

  lemma TellFirst(c: Column, places: seq<nat>, f: nat, clashes: seq<nat>, reports: seq<seq<Name>>)
    requires Formed(c) && |places| == |c.forks| && f < |c.now| && Reported(c, places, |c.forks|, f, reports)
    ensures Telling(c, places, f, clashes, 0, reports)
  {
    hide Report;
    assert places[..|places|] == places;
  }

  lemma TellNext(c: Column, places: seq<nat>, f: nat, clashes: seq<nat>, t: nat, reports: seq<seq<Name>>)
    requires Formed(c) && |places| == |c.forks| && f < |c.now| && t < |clashes| && Once(clashes)
    requires clashes[t] in places && Telling(c, places, f, clashes, t, reports)
    ensures clashes[t] < |reports|
    ensures Telling(c, places, f, clashes, t + 1, reports[clashes[t] := reports[clashes[t]] + [c.kind.names[f]]])
  {
    hide Report;
    assert clashes[..t + 1] == clashes[..t] + [clashes[t]];
    assert clashes[t] !in clashes[..t];
  }

  lemma TellLast(c: Column, places: seq<nat>, f: nat, clashes: seq<nat>, reports: seq<seq<Name>>)
    requires Formed(c) && |places| == |c.forks| && f < |c.now| && clashes == Clashing(c, f, places, |places|)
    requires Telling(c, places, f, clashes, |clashes|, reports)
    ensures Reported(c, places, |c.forks|, f + 1, reports)
  {
    ClashingAre(c, f, places, |places|);
    hide Clashing;
    assert clashes[..|clashes|] == clashes;
    assert places[..|places|] == places;
    forall j | 0 <= j < |places| ensures reports[places[j]] == Report(c, j, f + 1) {
      ReportStep(c, j, f);
    }
  }

  /** Every field takes its column by itself, and keeps its clashes. */
  method InstallEachField(c: Column, places: seq<nat>) returns (fields: seq<Store>, reported: seq<seq<nat>>)
    requires Formed(c) && |places| == |c.forks|
    ensures fields == After(c, |c.forks|)
    ensures |reported| == |c.now| && forall g | 0 <= g < |c.now| :: reported[g] == Clashing(c, g, places, |c.forks|)
  {
    fields, reported := [], [];
    hide FieldAfter, Clashing;
    for f := 0 to |c.now|
      invariant |fields| == |reported| == f
      invariant forall g | 0 <= g < f :: fields[g] == FieldAfter(c, g, |c.forks|)
      invariant forall g | 0 <= g < f :: reported[g] == Clashing(c, g, places, |c.forks|)
    {
      var store, clashes := InstallColumn(c, f, places);
      fields := fields + [store];
      reported := reported + [clashes];
    }
  }

  /** Adds a field's name to the reports of the forks that clash in it. */
  method TellField(ghost c: Column, name: Name, ghost places: seq<nat>, ghost f: nat, clashes: seq<nat>,
                   before: seq<seq<Name>>) returns (reports: seq<seq<Name>>)
    requires Formed(c) && |places| == |c.forks| && f < |c.now| && clashes == Clashing(c, f, places, |places|)
    requires name == c.kind.names[f]
    requires Reported(c, places, |c.forks|, f, before)
    ensures |reports| == |before| && Reported(c, places, |c.forks|, f + 1, reports)
  {
    ClashingOnce(c, f, places, |places|);
    ClashingAre(c, f, places, |places|);
    assert places[..|places|] == places;
    TellFirst(c, places, f, clashes, before);
    hide Clashing, Reported, Report, Telling, Once;
    reports := before;
    for t := 0 to |clashes|
      invariant |reports| == |before| && Telling(c, places, f, clashes, t, reports)
    {
      TellNext(c, places, f, clashes, t, reports);
      reports := reports[clashes[t] := reports[clashes[t]] + [name]];
    }
    TellLast(c, places, f, clashes, reports);
  }

  lemma FormedNames(c: Column)
    requires Formed(c)
    ensures |c.kind.names| == |c.kind.merges| == |c.now|
  {
  }

  /** Every field's clashes told in field order. */
  method TellFields(ghost c: Column, kind: Kind, ghost places: seq<nat>, count: nat, reported: seq<seq<nat>>)
    returns (reports: seq<seq<Name>>)
    requires Formed(c) && |places| == |c.forks| && Placed(places, count) && kind == c.kind
    requires |reported| == |c.now| && forall f | 0 <= f < |c.now| :: reported[f] == Clashing(c, f, places, |c.forks|)
    ensures |reports| == count && Reported(c, places, |c.forks|, |c.now|, reports)
  {
    hide *;
    FormedNames(c);
    reports := seq(count, _ => []);
    NothingReported(c, places, reports);
    for f := 0 to |reported|
      invariant |reports| == count && Reported(c, places, |c.forks|, f, reports)
    {
      reports := TellField(c, kind.names[f], places, f, reported[f], reports);
    }
  }

  /** Field by field: the columns first, then the clashes told in field order. */
  method InstallColumns(c: Column, places: seq<nat>, count: nat) returns (fields: seq<Store>, reports: seq<seq<Name>>)
    requires Formed(c) && |places| == |c.forks| && Placed(places, count)
    ensures fields == After(c, |c.forks|) && |reports| == count
    ensures Reported(c, places, |c.forks|, |c.now|, reports)
  {
    hide After, Clashing, Reported, Placed, Formed;
    var reported: seq<seq<nat>>;
    fields, reported := InstallEachField(c, places);
    reports := TellFields(c, c.kind, places, count, reported);
  }

  // ---- Forks that did not write a domain ----

  /** The forks among the first `n` that wrote. */
  function Writers(wrote: seq<bool>, n: nat): seq<nat>
    requires n <= |wrote|
  {
    if n == 0 then [] else Writers(wrote, n - 1) + if wrote[n - 1] then [n - 1] else []
  }

  lemma {:induction false} WritersAre(wrote: seq<bool>, n: nat)
    requires n <= |wrote|
    ensures var ws := Writers(wrote, n);
            && |ws| <= n
            && (forall j | 0 <= j < |ws| :: ws[j] < n && wrote[ws[j]] && |Writers(wrote, ws[j])| == j)
            && (forall j, k | 0 <= j < k < |ws| :: ws[j] < ws[k])
            && (forall i | 0 <= i < n && wrote[i] :: i in ws)
  {
    if n > 0 {
      WritersAre(wrote, n - 1);
    }
  }

  lemma {:induction false} WritersGrow(wrote: seq<bool>, m: nat, n: nat)
    requires m <= n <= |wrote|
    ensures Writers(wrote, m) <= Writers(wrote, n)
    decreases n
  {
    if m < n {
      WritersGrow(wrote, m, n - 1);
    }
  }

  /** The domain with only some of its forks. */
  ghost function Only(c: Column, forks: seq<nat>): Column
    requires forall j | 0 <= j < |forks| :: forks[j] < |c.forks|
  {
    c.(forks := seq(|forks|, j requires 0 <= j < |forks| => c.forks[forks[j]]))
  }

  lemma OnlyIsFormed(c: Column, forks: seq<nat>)
    requires Formed(c) && forall j | 0 <= j < |forks| :: forks[j] < |c.forks|
    ensures Formed(Only(c, forks)) && |Only(c, forks).forks| == |forks|
  {
  }

  /** A fork that did not write a domain reads it as it was frozen. */
  ghost predicate Honest(c: Column, wrote: seq<bool>) {
    |wrote| == |c.forks| && forall i | 0 <= i < |wrote| && !wrote[i] :: c.forks[i] == c.frozen
  }

  /** Leaving out the forks that did not write loses nothing. */
  lemma {:induction false} WritersSuffice(c: Column, wrote: seq<bool>, f: nat, n: nat, forks: seq<nat>)
    requires Formed(c) && Honest(c, wrote) && f < |c.now| && n <= |wrote|
    requires Writers(wrote, n) <= forks && forall j | 0 <= j < |forks| :: forks[j] < |c.forks|
    ensures Formed(Only(c, forks)) && FieldAfter(Only(c, forks), f, |Writers(wrote, n)|) == FieldAfter(c, f, n)
    decreases n
  {
    hide FieldAfter;
    OnlyIsFormed(c, forks);
    OnlyKeeps(c, forks);
    var only := Only(c, forks);
    if n == 0 {
      FieldStart(only, f);
      FieldStart(c, f);
    } else {
      var ws := Writers(wrote, n - 1);
      WritersNext(wrote, n);
      WritersSuffice(c, wrote, f, n - 1, forks);
      if wrote[n - 1] {
        assert forks[|ws|] == n - 1;
        assert only.forks[|ws|] == c.forks[n - 1];
        hide *;
        FieldNext(c, f, n);
        FieldNext(only, f, |ws| + 1);
      } else {
        hide *;
        UnwrittenStep(c, wrote, f, n);
      }
    }
  }

  lemma WritersNext(wrote: seq<bool>, n: nat)
    requires 0 < n <= |wrote|
    ensures Writers(wrote, n) == Writers(wrote, n - 1) + if wrote[n - 1] then [n - 1] else []
  {
  }

  lemma FieldStart(c: Column, f: nat)
    requires Formed(c) && f < |c.now|
    ensures FieldAfter(c, f, 0) == c.now[f]
  {
  }

  lemma FieldNext(c: Column, f: nat, n: nat)
    requires Formed(c) && f < |c.now| && 0 < n <= |c.forks|
    ensures f < |c.kind.merges| && f < |c.frozen| && f < |c.forks[n - 1]|
    ensures FieldAfter(c, f, n) == MergeMaps(c.kind.merges[f], FieldAfter(c, f, n - 1), c.frozen[f], c.forks[n - 1][f])
  {
  }

  /** A fork that did not write leaves a field as it is. */
  lemma UnwrittenStep(c: Column, wrote: seq<bool>, f: nat, n: nat)
    requires Formed(c) && Honest(c, wrote) && f < |c.now| && 0 < n <= |wrote| && !wrote[n - 1]
    ensures FieldAfter(c, f, n) == FieldAfter(c, f, n - 1) && !Clash(c, f, n - 1)
  {
    UnwrittenForkIsIdentity(c.kind.merges[f], FieldAfter(c, f, n - 1), c.frozen[f]);
  }

  lemma {:induction false} UnwrittenReportsNothing(c: Column, wrote: seq<bool>, i: nat, n: nat)
    requires Formed(c) && Honest(c, wrote) && i < |wrote| && !wrote[i] && n <= |c.now|
    ensures Report(c, i, n) == []
    decreases n
  {
    hide Clash, FieldAfter, Formed;
    if n > 0 {
      UnwrittenReportsNothing(c, wrote, i, n - 1);
      hide Report, Honest;
      ReportStep(c, i, n - 1);
      UnwrittenStep(c, wrote, n - 1, i + 1);
    }
  }

  lemma {:induction false} WriterReportsSame(c: Column, wrote: seq<bool>, j: nat, n: nat)
    requires Formed(c) && Honest(c, wrote) && n <= |c.now| && j < |Writers(wrote, |wrote|)|
    requires forall k | 0 <= k < |Writers(wrote, |wrote|)| :: Writers(wrote, |wrote|)[k] < |c.forks|
    ensures var ws := Writers(wrote, |wrote|);
            Formed(Only(c, ws)) && Report(Only(c, ws), j, n) == Report(c, ws[j], n)
    decreases n
  {
    var ws := Writers(wrote, |wrote|);
    OnlyIsFormed(c, ws);
    if n > 0 {
      WriterReportsSame(c, wrote, j, n - 1);
      WritersAre(wrote, |wrote|);
      WritersGrow(wrote, ws[j], |wrote|);
      WritersSuffice(c, wrote, n - 1, ws[j], ws);
    }
  }

  lemma AllWriters(c: Column, wrote: seq<bool>, ws: seq<nat>)
    requires Formed(c) && Honest(c, wrote) && ws == Writers(wrote, |wrote|)
    ensures Placed(ws, |c.forks|)
    ensures Formed(Only(c, ws)) && |Only(c, ws).forks| == |ws| && After(Only(c, ws), |ws|) == After(c, |c.forks|)
  {
    WritersAre(wrote, |wrote|);
    OnlyIsFormed(c, ws);
    forall f | 0 <= f < |c.now| ensures FieldAfter(Only(c, ws), f, |ws|) == FieldAfter(c, f, |c.forks|) {
      WritersSuffice(c, wrote, f, |wrote|, ws);
    }
    hide FieldAfter, Only;
    assert |Only(c, ws).now| == |c.now| by {
      OnlyKeeps(c, ws);
    }
  }

  lemma OnlyKeeps(c: Column, forks: seq<nat>)
    requires forall j | 0 <= j < |forks| :: forks[j] < |c.forks|
    ensures Only(c, forks).kind == c.kind && Only(c, forks).now == c.now && Only(c, forks).frozen == c.frozen
  {
  }

  lemma ReportsOfAll(c: Column, wrote: seq<bool>, ws: seq<nat>, reports: seq<seq<Name>>)
    requires Formed(c) && Honest(c, wrote) && ws == Writers(wrote, |wrote|) && |reports| == |c.forks|
    requires forall j | 0 <= j < |ws| :: ws[j] < |c.forks|
    requires Formed(Only(c, ws)) && |Only(c, ws).forks| == |ws| && Only(c, ws).now == c.now
    requires Reported(Only(c, ws), ws, |ws|, |c.now|, reports)
    ensures forall i | 0 <= i < |c.forks| :: reports[i] == Report(c, i, |c.now|)
  {
    WritersAre(wrote, |wrote|);
    assert ws[..|ws|] == ws;
    forall i | 0 <= i < |c.forks| ensures reports[i] == Report(c, i, |c.now|) {
      if wrote[i] {
        assert i in ws;
        var j :| 0 <= j < |ws| && ws[j] == i;
        WriterReportsSame(c, wrote, j, |c.now|);
      } else {
        UnwrittenReportsNothing(c, wrote, i, |c.now|);
        hide Report;
        assert i !in ws;
      }
    }
  }

  /** A domain's superstep: only its writers, by rows or by columns. */
  method InstallDomain(c: Column, wrote: seq<bool>) returns (fields: seq<Store>, reports: seq<seq<Name>>)
    requires Formed(c) && Honest(c, wrote)
    ensures fields == After(c, |c.forks|)
    ensures |reports| == |c.forks| && forall i | 0 <= i < |c.forks| :: reports[i] == Report(c, i, |c.now|)
  {
    var ws := Writers(wrote, |wrote|);
    AllWriters(c, wrote, ws);
    var only := Column(c.kind, c.now, c.frozen, seq(|ws|, j requires 0 <= j < |ws| => c.forks[ws[j]]));
    assert only == Only(c, ws);
    hide Report, Reported, Writers, Only, FieldAfter, Honest;
    if ws == [] {
      fields, reports := c.now, seq(|c.forks|, _ => []);
      NothingReported(only, ws, reports);
      NoForks(only);
    } else if c.kind.byField {
      fields, reports := InstallColumns(only, ws, |c.forks|);
    } else {
      fields, reports := InstallRows(only, ws, |c.forks|);
    }
    ReportsOfAll(c, wrote, ws, reports);
  }

  lemma NoForks(c: Column)
    requires Formed(c)
    ensures After(c, 0) == c.now
  {
  }

  // ---- The whole index ----

  /** A domain, and for each fork whether it wrote each of the domain's fields. */
  datatype Domain = Domain(column: Column, wrote: seq<seq<bool>>)

  function WroteAny(flags: seq<bool>): (any: bool)
    ensures any <==> exists f | 0 <= f < |flags| :: flags[f]
  {
    true in flags
  }

  /** A fork reads what it did not write as it was frozen. */
  ghost predicate Sound(d: Domain, forks: nat) {
    && Formed(d.column) && |d.column.forks| == |d.wrote| == forks
    && (forall i | 0 <= i < forks :: |d.wrote[i]| == |d.column.now|)
    && (forall i, f | 0 <= i < forks && 0 <= f < |d.column.now| && !d.wrote[i][f] ::
          d.column.forks[i][f] == d.column.frozen[f])
  }

  lemma UnwrittenIsFrozen(d: Domain, forks: nat, wrote: seq<bool>)
    requires Sound(d, forks) && |wrote| == forks && forall i | 0 <= i < forks :: wrote[i] == WroteAny(d.wrote[i])
    ensures Honest(d.column, wrote)
  {
    forall i | 0 <= i < forks && !wrote[i] ensures d.column.forks[i] == d.column.frozen {
      forall f | 0 <= f < |d.column.now| ensures d.column.forks[i][f] == d.column.frozen[f] {
        assert !d.wrote[i][f];
      }
    }
  }

  /** Domains and the index's own fields, all with the same forks. */
  ghost predicate Superstep(ds: seq<Domain>, own: Column, forks: nat) {
    (forall d | 0 <= d < |ds| :: Sound(ds[d], forks)) && Formed(own) && |own.forks| == forks
  }

  /** Fork `i`'s conflicts in the first `n` domains, in domain order. */
  ghost function Reports(ds: seq<Domain>, forks: nat, i: nat, n: nat): seq<Name>
    requires n <= |ds| && i < forks && forall d | 0 <= d < |ds| :: Sound(ds[d], forks)
  {
    if n == 0 then [] else Reports(ds, forks, i, n - 1) + Report(ds[n - 1].column, i, |ds[n - 1].column.now|)
  }

  /** Fork `i`'s reports one after another, from the first domain on. */
  ghost function Flat(cs: seq<Column>, i: nat): seq<Name>
    requires forall d | 0 <= d < |cs| :: Formed(cs[d]) && i < |cs[d].forks|
  {
    if cs == [] then [] else Report(cs[0], i, |cs[0].now|) + Flat(cs[1..], i)
  }

  lemma {:induction false} FlatNext(cs: seq<Column>, i: nat, c: Column)
    requires (forall d | 0 <= d < |cs| :: Formed(cs[d]) && i < |cs[d].forks|) && Formed(c) && i < |c.forks|
    ensures forall d | 0 <= d < |cs + [c]| :: Formed((cs + [c])[d]) && i < |(cs + [c])[d].forks|
    ensures Flat(cs + [c], i) == Flat(cs, i) + Report(c, i, |c.now|)
    decreases |cs|
  {
    hide Report, Formed;
    if cs == [] {
      assert cs + [c] == [c] && [c][1..] == [];
    } else {
      assert (cs + [c])[1..] == cs[1..] + [c];
      FlatNext(cs[1..], i, c);
    }
  }

  ghost function Columns(ds: seq<Domain>, n: nat): seq<Column>
    requires n <= |ds|
  {
    seq(n, d requires 0 <= d < n => ds[d].column)
  }

  /** The reports of the domains are joined in the domains' order. */
  lemma {:induction false} ReportsAreFlat(ds: seq<Domain>, forks: nat, i: nat, n: nat)
    requires n <= |ds| && i < forks && forall d | 0 <= d < |ds| :: Sound(ds[d], forks)
    ensures forall d | 0 <= d < n :: Formed(Columns(ds, n)[d]) && i < |Columns(ds, n)[d].forks|
    ensures Reports(ds, forks, i, n) == Flat(Columns(ds, n), i)
  {
    hide Report;
    if n > 0 {
      ReportsAreFlat(ds, forks, i, n - 1);
      SoundFacts(ds[n - 1], forks);
      assert Columns(ds, n) == Columns(ds, n - 1) + [ds[n - 1].column];
      hide *;
      ReportsStep(ds, forks, i, n - 1);
      FlatNext(Columns(ds, n - 1), i, ds[n - 1].column);
    }
  }

  /** Every fork's conflicts in every domain and then in the index's own fields. */
  ghost predicate AllReported(ds: seq<Domain>, own: Column, forks: nat, conflicts: seq<seq<Name>>)
    requires Superstep(ds, own, forks)
  {
    Told(ds, own, forks, forks, conflicts)
  }

  ghost predicate Told(ds: seq<Domain>, own: Column, forks: nat, m: nat, conflicts: seq<seq<Name>>)
    requires Superstep(ds, own, forks) && m <= forks
  {
    |conflicts| == m && forall i | 0 <= i < m :: conflicts[i] == Reports(ds, forks, i, |ds|) + Report(own, i, |own.now|)
  }

  lemma ToldNext(ds: seq<Domain>, own: Column, forks: nat, m: nat, conflicts: seq<seq<Name>>)
    requires Superstep(ds, own, forks) && m < forks && Told(ds, own, forks, m, conflicts)
    ensures Told(ds, own, forks, m + 1, conflicts + [Reports(ds, forks, m, |ds|) + Report(own, m, |own.now|)])
  {
    hide Report, Reports;
  }

  /** The first `n` domains with the first `m` forks in, the others without. */
  ghost predicate Installed(ds: seq<Domain>, forks: nat, stores: seq<seq<Store>>, n: nat, m: nat, other: nat)
    requires (forall d | 0 <= d < |ds| :: Sound(ds[d], forks)) && m <= forks && other <= forks
  {
    |stores| == |ds| && forall d | 0 <= d < |ds| && Sound(ds[d], forks) :: stores[d] == After(ds[d].column,
        if d < n then m else other)
  }

  lemma ReportsStep(ds: seq<Domain>, forks: nat, i: nat, n: nat)
    requires n < |ds| && i < forks && forall d | 0 <= d < |ds| :: Sound(ds[d], forks)
    ensures Reports(ds, forks, i, n + 1) == Reports(ds, forks, i, n) + Report(ds[n].column, i, |ds[n].column.now|)
  {
  }

  /**
   * The barrier: every domain takes the forks that wrote it, in its own way;
   * the domains' reports are joined, and the index's own fields follow.
   */
  method InstallTasks(ds: seq<Domain>, own: Column, forks: nat)
    returns (stores: seq<seq<Store>>, fields: seq<Store>, conflicts: seq<seq<Name>>)
    requires Superstep(ds, own, forks)
    ensures Installed(ds, forks, stores, |ds|, forks, 0) && fields == After(own, forks)
    ensures AllReported(ds, own, forks, conflicts)
  {
    hide Report, Reports, After, WroteAny;
    stores, conflicts := [], seq(forks, _ => []);
    assert forall i | 0 <= i < forks :: Reports(ds, forks, i, 0) == [] by {
      NoReports(ds, forks);
    }
    for d := 0 to |ds|
      invariant |stores| == d && forall e | 0 <= e < d :: stores[e] == After(ds[e].column, forks)
      invariant |conflicts| == forks && forall i | 0 <= i < forks :: conflicts[i] == Reports(ds, forks, i, d)
    {
      SoundFacts(ds[d], forks);
      var wrote := seq(forks, i requires 0 <= i < forks => WroteAny(ds[d].wrote[i]));
      UnwrittenIsFrozen(ds[d], forks, wrote);
      var installed, reports := InstallDomain(ds[d].column, wrote);
      stores := stores + [installed];
      conflicts := Extend(ds, forks, d, conflicts, reports);
    }
    fields := own.now;
    NoForks(own);
    for i := 0 to forks
      invariant fields == After(own, i) && |conflicts| == forks
      invariant forall j | 0 <= j < forks ::
              conflicts[j] == Reports(ds, forks, j, |ds|) + if j < i then Report(own, j, |own.now|) else []
    {
      var more: seq<Name>;
      fields, more := InstallTask(own, i, fields);
      conflicts := conflicts[i := conflicts[i] + more];
    }
  }

  lemma SoundFacts(d: Domain, forks: nat)
    requires Sound(d, forks)
    ensures Formed(d.column) && |d.column.forks| == |d.wrote| == forks
  {
  }

  lemma NoReports(ds: seq<Domain>, forks: nat)
    requires forall d | 0 <= d < |ds| :: Sound(ds[d], forks)
    ensures forall i | 0 <= i < forks :: Reports(ds, forks, i, 0) == []
  {
  }

  method Extend(ds: seq<Domain>, forks: nat, d: nat, before: seq<seq<Name>>,
                reports: seq<seq<Name>>) returns (conflicts: seq<seq<Name>>)
    requires d < |ds| && (forall e | 0 <= e < |ds| :: Sound(ds[e], forks)) && Sound(ds[d], forks)
      && |before| == |reports| == forks
    requires forall i | 0 <= i < forks :: before[i] == Reports(ds, forks, i, d)
    requires forall i | 0 <= i < forks :: reports[i] == Report(ds[d].column, i, |ds[d].column.now|)
    ensures |conflicts| == forks && forall i | 0 <= i < forks :: conflicts[i] == Reports(ds, forks, i, d + 1)
  {
    hide Report, Reports;
    conflicts := before;
    for at := 0 to forks
      invariant |conflicts| == forks
      invariant forall i | 0 <= i < forks :: conflicts[i] == Reports(ds, forks, i, if i < at then d + 1 else d)
    {
      ReportsStep(ds, forks, at, d);
      conflicts := conflicts[at := conflicts[at] + reports[at]];
    }
  }

  /** Whole forks in order: fork by fork, every domain and then the index's own fields. */
  method InstallInOrder(ds: seq<Domain>, own: Column, forks: nat)
    returns (stores: seq<seq<Store>>, fields: seq<Store>, conflicts: seq<seq<Name>>)
    requires Superstep(ds, own, forks)
    ensures Installed(ds, forks, stores, |ds|, forks, 0) && fields == After(own, forks)
    ensures AllReported(ds, own, forks, conflicts)
  {
    stores := seq(|ds|, d requires 0 <= d < |ds| => ds[d].column.now);
    fields, conflicts := own.now, [];
    NoneInstalled(ds, forks, stores);
    NoForks(own);
    assert Told(ds, own, forks, 0, conflicts);
    hide Report, Reports, After, Installed, Told;
    for i := 0 to forks
      invariant Installed(ds, forks, stores, 0, i, i) && fields == After(own, i)
      invariant Told(ds, own, forks, i, conflicts)
    {
      ToldNext(ds, own, forks, i, conflicts);
      var names, more: seq<Name>;
      stores, names := InstallFork(ds, forks, i, stores);
      fields, more := InstallTask(own, i, fields);
      conflicts := conflicts + [names + more];
    }
    AllInstalled(ds, forks, stores);
  }

  lemma NoneInstalled(ds: seq<Domain>, forks: nat, stores: seq<seq<Store>>)
    requires (forall d | 0 <= d < |ds| :: Sound(ds[d], forks)) && |stores| == |ds|
    requires forall d | 0 <= d < |ds| :: stores[d] == ds[d].column.now
    ensures Installed(ds, forks, stores, 0, 0, 0)
  {
    forall d | 0 <= d < |ds| && Sound(ds[d], forks) ensures stores[d] == After(ds[d].column, 0) {
      NoForks(ds[d].column);
    }
  }

  lemma AllInstalled(ds: seq<Domain>, forks: nat, stores: seq<seq<Store>>)
    requires (forall d | 0 <= d < |ds| :: Sound(ds[d], forks)) && Installed(ds, forks, stores, 0, forks, forks)
    ensures Installed(ds, forks, stores, |ds|, forks, 0)
  {
    hide After;
  }

  /** One whole fork into every domain. */
  method InstallFork(ds: seq<Domain>, forks: nat, i: nat, before: seq<seq<Store>>) returns (stores: seq<seq<Store>>,
                     names: seq<Name>)
    requires i < forks && (forall d | 0 <= d < |ds| :: Sound(ds[d], forks)) && Installed(ds, forks, before, 0, i, i)
    ensures Installed(ds, forks, stores, 0, i + 1, i + 1) && names == Reports(ds, forks, i, |ds|)
  {
    hide Report, Reports, After;
    stores, names := before, [];
    NoReports(ds, forks);
    for d := 0 to |ds|
      invariant Installed(ds, forks, stores, d, i + 1, i) && names == Reports(ds, forks, i, d)
    {
      SoundFacts(ds[d], forks);
      var installed, more := InstallTask(ds[d].column, i, stores[d]);
      ReportsStep(ds, forks, i, d);
      stores := stores[d := installed];
      names := names + more;
    }
  }
}
