/** How far a change of configuration reaches, by the listed paths of what differs. */
module ConfigChange {
  import opened Options

  datatype Reach = Unchanged | Editor | Diagnostics | Analysis | Workspace

  function Rank(r: Reach): nat {
    match r
    case Unchanged => 0
    case Editor => 1
    case Diagnostics => 2
    case Analysis => 3
    case Workspace => 4
  }

  predicate Le(a: Reach, b: Reach) {
    Rank(a) <= Rank(b)
  }

  /** Each reach stands before those that take more work. */
  const Order: seq<Reach> := [Unchanged, Editor, Diagnostics, Analysis, Workspace]

  lemma OrderIsRank(i: nat, j: nat)
    requires i < |Order| && j < |Order|
    ensures Le(Order[i], Order[j]) <==> i <= j
  {
  }

  /** The widest of some reaches, `Unchanged` of none. */
  function Widest(s: set<Reach>): (r: Reach)
    ensures forall x | x in s :: Le(x, r)
    ensures s == {} ==> r == Unchanged
    ensures s != {} ==> r in s
  {
    if Workspace in s then Workspace
    else if Analysis in s then Analysis
    else if Diagnostics in s then Diagnostics
    else if Editor in s then Editor
    else
      assert forall x | x in s :: x == Unchanged;
      Unchanged
  }

  /** A serialized value: an object, or anything else, told apart by its text. */
  datatype Value = Plain(text: string) | Object(fields: map<string, Value>)

  /** What each listed path reaches. */
  type Table = map<string, Reach>

  // ---- The listed path nearest to a path ----

  /** `p` is `path` or a path it lies under. */
  predicate Above(p: string, path: string) {
    p == path || p + "." <= path
  }

  predicate HasListedDescendant(table: Table, path: string) {
    exists listed | listed in table :: path + "." <= listed
  }

  /** Where the last dot of `path` is. */
  function LastDot(path: string): (d: Option<nat>)
    ensures d.Some? ==> d.value < |path| && path[d.value] == '.'
    ensures forall i | (if d.Some? then d.value + 1 else 0) <= i < |path| :: path[i] != '.'
    decreases |path|
  {
    if path == [] then None
    else if path[|path| - 1] == '.' then Some(|path| - 1)
    else LastDot(path[..|path| - 1])
  }

  /** The entry of the closest listed path above `path`, `Analysis` without one. */
  function Nearest(table: Table, path: string): Reach
    decreases |path|
  {
    if path in table then table[path]
    else
      match LastDot(path)
      case Some(d) => Nearest(table, path[..d])
      case None => Analysis
  }

  method ListedChange(table: Table, path: string) returns (r: Reach)
    ensures r == Nearest(table, path)
  {
    var current := path;
    while true
      invariant Nearest(table, current) == Nearest(table, path)
      decreases |current|
    {
      if current in table {
        return table[current];
      }
      match LastDot(current)
      case Some(d) => current := current[..d];
      case None => return Analysis;
    }
  }

  /** The parent of a path under `p` is `p` or still under it. */
  lemma ParentUnder(p: string, path: string)
    requires p + "." <= path
    ensures LastDot(path).Some? && Above(p, path[..LastDot(path).value])
  {
    assert path[|p|] == (p + ".")[|p|] == '.';
    var d := LastDot(path).value;
    assert d >= |p|;
    assert p == path[..|p|] by {
      assert p == (p + ".")[..|p|] == path[..|p|];
    }
    if d > |p| {
      assert p + "." == path[..|p| + 1] == path[..d][..|p| + 1];
    }
  }

  /** Of all listed paths above `path`, the nearest is the longest; without one it is `Analysis`. */
  lemma {:induction false} NearestIsLongest(table: Table, path: string)
    ensures (exists p | p in table && Above(p, path)
        :: table[p] == Nearest(table, path) && forall q | q in table && Above(q, path) :: |q| <= |p|)
         || (Nearest(table, path) == Analysis && forall q | q in table :: !Above(q, path))
    decreases |path|
  {
    if path in table {
      assert Above(path, path);
    } else {
      forall q | q in table && Above(q, path) ensures LastDot(path).Some? && Above(q, path[..LastDot(path).value]) {
        ParentUnder(q, path);
      }
      if LastDot(path).Some? {
        var parent := path[..LastDot(path).value];
        NearestIsLongest(table, parent);
        forall q | q in table && Above(q, parent) ensures Above(q, path) {
          AboveParent(q, path);
        }
      }
    }
  }

  lemma AboveParent(q: string, path: string)
    requires LastDot(path).Some? && Above(q, path[..LastDot(path).value])
    ensures Above(q, path)
  {
    var d := LastDot(path).value;
    if q == path[..d] {
      assert q + "." == path[..d + 1];
    } else {
      assert q + "." == path[..d][..|q| + 1] == path[..|q| + 1];
    }
  }

  /** Under a path with nothing listed below it, nothing reaches elsewhere than it does. */
  lemma {:induction false} NearestUnder(table: Table, p: string, path: string)
    requires Above(p, path) && !HasListedDescendant(table, p)
    ensures Nearest(table, path) == Nearest(table, p)
    decreases |path|
  {
    if path != p {
      ParentUnder(p, path);
      NearestUnder(table, p, path[..LastDot(path).value]);
    }
  }

  /** `path` and everything listed below it reach at most `bound`. */
  ghost predicate Bounded(table: Table, path: string, bound: Reach) {
    Le(Nearest(table, path), bound) && forall q | q in table && path + "." <= q :: Le(table[q], bound)
  }

  lemma {:induction false} BoundedUnder(table: Table, p: string, path: string, bound: Reach)
    requires Above(p, path) && Bounded(table, p, bound)
    ensures Bounded(table, path, bound)
    decreases |path|
  {
    if path != p {
      ParentUnder(p, path);
      BoundedUnder(table, p, path[..LastDot(path).value], bound);
      forall q | q in table && path + "." <= q ensures p + "." <= q {
        assert p + "." == path[..|p| + 1] == (path + ".")[..|p| + 1] == q[..|p| + 1];
      }
    }
  }

  // ---- The change ----

  function Join(prefix: string, key: string): string {
    if prefix == "" then key else prefix + "." + key
  }

  predicate IsObject(v: Option<Value>) {
    v.Some? && v.value.Object?
  }

  function ValueChange(table: Table, path: string, was: Option<Value>, now: Option<Value>): Reach
    decreases if was.Some? then 1 else 0, if was.Some? then was.value else Plain(""), 1
  {
    if was == now then Unchanged
    else if IsObject(was) && IsObject(now) && HasListedDescendant(table, path) then ObjectChange(table, path,
        was.value, now.value)
    else Nearest(table, path)
  }

  function ObjectChange(table: Table, prefix: string, was: Value, now: Value): Reach
    requires was.Object? && now.Object?
    decreases 1, was, 0
  {
    Widest(set key | key in was.fields.Keys + now.fields.Keys ::
      ValueChange(table, Join(prefix, key), Lookup(was.fields, key), Lookup(now.fields, key)))
  }

  /** A configuration serializes to an object; anything else collects the workspace again. */
  function ChangeTo(table: Table, was: Value, now: Value): Reach {
    if was.Object? && now.Object? then ObjectChange(table, "", was, now) else Workspace
  }

  // ---- What differs, leaf by leaf ----

  /** The leaves of a value at `path`; an empty object is one. */
  function Leaves(path: string, v: Value): set<string>
    decreases v
  {
    match v
    case Plain(_) => {path}
    case Object(fields) =>
      if fields == map[] then {path} else set k, l | k in fields && l in Leaves(path + "." + k, fields[k]) :: l
  }

  function LeavesOf(path: string, v: Option<Value>): set<string> {
    match v case None => {} case Some(x) => Leaves(path, x)
  }

  /** The leaves that are on one side only, or differ. */
  function Differing(path: string, was: Option<Value>, now: Option<Value>): set<string>
    decreases if was.Some? then 1 else 0, if was.Some? then was.value else Plain(""), 1
  {
    if was == now then {}
    else if IsObject(was) && IsObject(now) then DifferingFields(path + ".", was.value, now.value)
    else LeavesOf(path, was) + LeavesOf(path, now)
  }

  function DifferingFields(prefix: string, was: Value, now: Value): set<string>
    requires was.Object? && now.Object?
    decreases 1, was, 0
  {
    set k, l | k in was.fields.Keys + now.fields.Keys && l in Differing(prefix + k, Lookup(was.fields, k),
        Lookup(now.fields, k)) :: l
  }

  /** The reaches of some leaves. */
  function Reaches(table: Table, leaves: set<string>): set<Reach> {
    set l | l in leaves :: Nearest(table, l)
  }

  /** Where a value differs and a path is listed below, both sides are objects. */
  ghost predicate Regular(table: Table, path: string, was: Option<Value>, now: Option<Value>)
    decreases if was.Some? then 1 else 0, if was.Some? then was.value else Plain(""), 1
  {
    was != now && HasListedDescendant(table, path) ==>
      IsObject(was) && IsObject(now) && RegularFields(table, path + ".", was.value, now.value)
  }

  ghost predicate RegularFields(table: Table, prefix: string, was: Value, now: Value)
    requires was.Object? && now.Object?
    decreases 1, was, 0
  {
    forall k | k in was.fields.Keys + now.fields.Keys :: Regular(table, prefix + k, Lookup(was.fields, k),
        Lookup(now.fields, k))
  }

  lemma UnderChild(path: string, k: string, l: string)
    requires Above(path + "." + k, l)
    ensures Above(path, l)
  {
    if l == path + "." + k {
      assert path + "." == l[..|path| + 1];
    } else {
      assert path + "." == (path + "." + k)[..|path| + 1] == l[..|path| + 1];
    }
  }

  lemma {:induction false} LeavesUnder(path: string, v: Value)
    ensures Leaves(path, v) != {} && forall l | l in Leaves(path, v) :: Above(path, l)
    decreases v
  {
    if v.Object? && v.fields != map[] {
      forall k, l | k in v.fields && l in Leaves(path + "." + k, v.fields[k]) ensures Above(path, l) {
        LeavesUnder(path + "." + k, v.fields[k]);
        UnderChild(path, k, l);
      }
      var k :| k in v.fields;
      LeavesUnder(path + "." + k, v.fields[k]);
      var l :| l in Leaves(path + "." + k, v.fields[k]);
      assert l in Leaves(path, v);
    }
  }

  lemma {:induction false} DifferingUnder(path: string, was: Option<Value>, now: Option<Value>)
    ensures was != now ==> Differing(path, was, now) != {}
    ensures forall l | l in Differing(path, was, now) :: Above(path, l)
    decreases if was.Some? then 1 else 0, if was.Some? then was.value else Plain("")
  {
    if was != now {
      if IsObject(was) && IsObject(now) {
        var f, g := was.value.fields, now.value.fields;
        forall k | k in f.Keys + g.Keys
          ensures Lookup(f, k) != Lookup(g, k) ==> Differing(path + "." + k, Lookup(f, k), Lookup(g, k)) != {}
          ensures forall l | l in Differing(path + "." + k, Lookup(f, k), Lookup(g, k)) :: Above(path, l)
        {
          DifferingUnder(path + "." + k, Lookup(f, k), Lookup(g, k));
          forall l | l in Differing(path + "." + k, Lookup(f, k), Lookup(g, k)) ensures Above(path, l) {
            UnderChild(path, k, l);
          }
        }
        var k := SomeKeyDiffers(f, g);
        var l :| l in Differing(path + "." + k, Lookup(f, k), Lookup(g, k));
        assert l in DifferingFields(path + ".", was.value, now.value);
      } else {
        if was.Some? {
          LeavesUnder(path, was.value);
        }
        if now.Some? {
          LeavesUnder(path, now.value);
        }
      }
    }
  }

  lemma SomeKeyDiffers(f: map<string, Value>, g: map<string, Value>) returns (k: string)
    requires f != g
    ensures k in f.Keys + g.Keys && Lookup(f, k) != Lookup(g, k)
  {
    if forall j :: Lookup(f, j) == Lookup(g, j) {
      SameLookups(f, g);
    }
    k :| Lookup(f, k) != Lookup(g, k);
  }

  lemma LeBothWays(a: Reach, b: Reach)
    requires Le(a, b) && Le(b, a)
    ensures a == b
  {
  }

  /** No listed path begins with a dot, so no path is listed below the empty one. */
  predicate Rooted(table: Table) {
    forall p | p in table :: !("." <= p)
  }

  /** A value's change reaches as far as the widest of the leaves that differ. */
  lemma {:induction false} ValueChangeIsWidestLeaf(table: Table, path: string, was: Option<Value>, now: Option<Value>)
    requires Rooted(table) && Regular(table, path, was, now)
    ensures ValueChange(table, path, was, now) == Widest(Reaches(table, Differing(path, was, now)))
    decreases if was.Some? then 1 else 0, if was.Some? then was.value else Plain(""), 1
  {
    if was == now {
      assert Reaches(table, {}) == {};
    } else if HasListedDescendant(table, path) {
      assert path != "" by {
        assert "" + "." == ".";
      }
      assert forall k :: Join(path, k) == path + "." + k;
      FieldsAreWidestLeaf(table, path, path + ".", was.value, now.value);
    } else {
      DifferingUnder(path, was, now);
      var leaves := Differing(path, was, now);
      var l :| l in leaves;
      forall l | l in leaves ensures Nearest(table, l) == Nearest(table, path) {
        NearestUnder(table, path, l);
      }
      assert Nearest(table, l) in Reaches(table, leaves);
    }
  }

  /** The change at a field and the leaves that differ under it. */
  function ChangeAt(table: Table, prefix: string, was: Value, now: Value): string -> Reach
    requires was.Object? && now.Object?
  {
    (k: string) => ValueChange(table, prefix + k, Lookup(was.fields, k), Lookup(now.fields, k))
  }

  function DifferingAt(prefix: string, was: Value, now: Value): string -> set<string>
    requires was.Object? && now.Object?
  {
    (k: string) => Differing(prefix + k, Lookup(was.fields, k), Lookup(now.fields, k))
  }

  lemma ObjectChangeByKey(table: Table, path: string, prefix: string, was: Value, now: Value)
    requires was.Object? && now.Object? && forall k :: Join(path, k) == prefix + k
    ensures ObjectChange(table, path, was, now)
        == Widest(set k | k in was.fields.Keys + now.fields.Keys :: ChangeAt(table, prefix, was, now)(k))
  {
    hide ValueChange, Widest, Join;
    var keys := was.fields.Keys + now.fields.Keys;
    var change := ChangeAt(table, prefix, was, now);
    assert (set k | k in keys :: change(k))
      == set k | k in keys :: ValueChange(table, Join(path, k), Lookup(was.fields, k), Lookup(now.fields, k));
  }

  lemma DifferingByKey(prefix: string, was: Value, now: Value)
    requires was.Object? && now.Object?
    ensures DifferingFields(prefix, was, now) == Joined(was.fields.Keys + now.fields.Keys,
        DifferingAt(prefix, was, now))
  {
    hide Differing;
    var keys, leaves := was.fields.Keys + now.fields.Keys, DifferingAt(prefix, was, now);
    assert forall k :: leaves(k) == Differing(prefix + k, Lookup(was.fields, k), Lookup(now.fields, k));
    forall l ensures l in DifferingFields(prefix, was, now) <==> l in Joined(keys, leaves) {
      if l in DifferingFields(prefix, was, now) {
        var k :| k in keys && l in Differing(prefix + k, Lookup(was.fields, k), Lookup(now.fields, k));
        assert l in leaves(k);
      }
      if l in Joined(keys, leaves) {
        var k :| k in keys && l in leaves(k);
        assert l in Differing(prefix + k, Lookup(was.fields, k), Lookup(now.fields, k));
      }
    }
  }

  lemma {:induction false} FieldsAreWidestLeaf(table: Table, path: string, prefix: string, was: Value, now: Value)
    requires Rooted(table) && was.Object? && now.Object? && RegularFields(table, prefix, was, now)
    requires forall k :: Join(path, k) == prefix + k
    ensures ObjectChange(table, path, was, now) == Widest(Reaches(table, DifferingFields(prefix, was, now)))
    decreases 1, was, 0
  {
    hide Nearest, ValueChange, Differing, HasListedDescendant, Widest, Reaches, Joined, DifferingFields;
    hide ObjectChange, Join;
    var change, leaves := ChangeAt(table, prefix, was, now), DifferingAt(prefix, was, now);
    forall k | k in was.fields.Keys + now.fields.Keys ensures change(k) == Widest(Reaches(table, leaves(k))) {
      ValueChangeIsWidestLeaf(table, prefix + k, Lookup(was.fields, k), Lookup(now.fields, k));
    }
    WidestOfWidest(table, was.fields.Keys + now.fields.Keys, change, leaves);
    ObjectChangeByKey(table, path, prefix, was, now);
    DifferingByKey(prefix, was, now);
  }

  function Joined(keys: set<string>, leaves: string -> set<string>): set<string> {
    set k, l | k in keys && l in leaves(k) :: l
  }

  /** The widest reach of all leaves is the widest of each key's widest. */
  lemma WidestOfWidest(table: Table, keys: set<string>, change: string -> Reach, leaves: string -> set<string>)
    requires forall k | k in keys :: change(k) == Widest(Reaches(table, leaves(k)))
    ensures Widest(set k | k in keys :: change(k)) == Widest(Reaches(table, Joined(keys, leaves)))
  {
    hide Nearest, Widest;
    var changes, all := set k | k in keys :: change(k), Joined(keys, leaves);
    var wide, leafy := Widest(changes), Widest(Reaches(table, all));
    assert Le(wide, leafy) by {
      if wide != Unchanged {
        var k :| k in keys && wide == change(k);
        assert wide in Reaches(table, leaves(k));
        var l :| l in leaves(k) && wide == Nearest(table, l);
        assert l in all;
      }
    }
    assert Le(leafy, wide) by {
      if leafy != Unchanged {
        var l :| l in all && leafy == Nearest(table, l);
        var k :| k in keys && l in leaves(k);
        assert leafy in Reaches(table, leaves(k));
        assert change(k) in changes;
      }
    }
    LeBothWays(wide, leafy);
  }

  /** Moving between configurations reaches as far as the widest listed ancestor of a leaf that differs. */
  lemma ChangeIsWidestLeaf(table: Table, was: Value, now: Value)
    requires Rooted(table) && was.Object? && now.Object? && RegularFields(table, "", was, now)
    ensures ChangeTo(table, was, now) == Widest(Reaches(table, DifferingFields("", was, now)))
  {
    assert forall k: string :: "" + k == k;
    FieldsAreWidestLeaf(table, "", "", was, now);
  }

  // ---- Direction and intermediate configurations ----

  lemma {:induction false} ValueChangeIsSymmetric(table: Table, path: string, was: Option<Value>, now: Option<Value>)
    ensures ValueChange(table, path, was, now) == ValueChange(table, path, now, was)
    decreases if was.Some? then 1 else 0, if was.Some? then was.value else Plain(""), 1
  {
    if IsObject(was) && IsObject(now) {
      ObjectChangeIsSymmetric(table, path, was.value, now.value);
    }
  }

  lemma {:induction false} ObjectChangeIsSymmetric(table: Table, prefix: string, was: Value, now: Value)
    requires was.Object? && now.Object?
    ensures ObjectChange(table, prefix, was, now) == ObjectChange(table, prefix, now, was)
    decreases 1, was, 0
  {
    forall k | k in was.fields.Keys + now.fields.Keys
      ensures ValueChange(table, Join(prefix, k), Lookup(was.fields, k), Lookup(now.fields, k))
           == ValueChange(table, Join(prefix, k), Lookup(now.fields, k), Lookup(was.fields, k))
    {
      ValueChangeIsSymmetric(table, Join(prefix, k), Lookup(was.fields, k), Lookup(now.fields, k));
    }
    hide ValueChange, Join;
    assert was.fields.Keys + now.fields.Keys == now.fields.Keys + was.fields.Keys;
    assert (set key | key in was.fields.Keys + now.fields.Keys :: ValueChange(table, Join(prefix, key),
        Lookup(was.fields, key), Lookup(now.fields, key)))
      == set key | key in now.fields.Keys + was.fields.Keys :: ValueChange(table, Join(prefix, key),
          Lookup(now.fields, key), Lookup(was.fields, key));
  }

  /** Undoing a change reaches as far as making it. */
  lemma ChangeIsSymmetric(table: Table, was: Value, now: Value)
    ensures ChangeTo(table, was, now) == ChangeTo(table, now, was)
  {
    if was.Object? && now.Object? {
      ObjectChangeIsSymmetric(table, "", was, now);
    }
  }

  /** A value is an object wherever something listed below reaches further than its own path. */
  ghost predicate Shaped(table: Table, path: string, v: Option<Value>)
    decreases if v.Some? then 1 else 0, if v.Some? then v.value else Plain(""), 1
  {
    HasListedDescendant(table, path) ==>
      if IsObject(v) then ShapedFields(table, path, v.value) else Bounded(table, path, Nearest(table, path))
  }

  ghost predicate ShapedFields(table: Table, prefix: string, v: Value)
    requires v.Object?
    decreases 1, v, 0
  {
    forall k :: Shaped(table, Join(prefix, k), Lookup(v.fields, k))
  }

  function Wider(a: Reach, b: Reach): Reach {
    if Le(a, b) then b else a
  }

  /** No change at a path reaches past what bounds the path. */
  lemma {:induction false} BoundedChange(table: Table, path: string, was: Option<Value>, now: Option<Value>,
                                         bound: Reach)
    requires Rooted(table) && Bounded(table, path, bound)
    ensures Le(ValueChange(table, path, was, now), bound)
    decreases if was.Some? then 1 else 0, if was.Some? then was.value else Plain(""), 1
  {
    if was != now && IsObject(was) && IsObject(now) && HasListedDescendant(table, path) {
      assert path != "" by {
        assert "" + "." == ".";
      }
      var f, g := was.value.fields, now.value.fields;
      forall k | k in f.Keys + g.Keys ensures Le(ValueChange(table, Join(path, k), Lookup(f, k), Lookup(g, k)), bound) {
        assert path + "." == Join(path, k)[..|path| + 1];
        BoundedUnder(table, path, Join(path, k), bound);
        BoundedChange(table, Join(path, k), Lookup(f, k), Lookup(g, k), bound);
      }
    }
  }

  lemma {:induction false} ValueTriangle(table: Table, path: string, a: Option<Value>, b: Option<Value>,
                                         c: Option<Value>)
    requires Rooted(table) && Shaped(table, path, b)
    ensures Le(ValueChange(table, path, a, c), Wider(ValueChange(table, path, a, b), ValueChange(table, path, b, c)))
    decreases if b.Some? then 1 else 0, if b.Some? then b.value else Plain(""), 1
  {
    if HasListedDescendant(table, path) {
      if !IsObject(b) {
        BoundedChange(table, path, a, c, Nearest(table, path));
      } else if IsObject(a) && IsObject(c) {
        ObjectTriangle(table, path, a.value, b.value, c.value);
        EqualIsUnchanged(table, path, a.value);
        EqualIsUnchanged(table, path, b.value);
      }
    }
  }

  lemma EqualIsUnchanged(table: Table, prefix: string, v: Value)
    requires v.Object?
    ensures ObjectChange(table, prefix, v, v) == Unchanged
  {
  }

  lemma {:induction false} ObjectTriangle(table: Table, prefix: string, a: Value, b: Value, c: Value)
    requires Rooted(table) && a.Object? && b.Object? && c.Object? && ShapedFields(table, prefix, b)
    ensures Le(ObjectChange(table, prefix, a, c),
        Wider(ObjectChange(table, prefix, a, b), ObjectChange(table, prefix, b, c)))
    decreases 1, b, 0
  {
    var wide := Wider(ObjectChange(table, prefix, a, b), ObjectChange(table, prefix, b, c));
    forall k | k in a.fields.Keys + c.fields.Keys
      ensures Le(ValueChange(table, Join(prefix, k), Lookup(a.fields, k), Lookup(c.fields, k)), wide)
    {
      var path := Join(prefix, k);
      ValueTriangle(table, path, Lookup(a.fields, k), Lookup(b.fields, k), Lookup(c.fields, k));
      KeyWithin(table, prefix, a, b, k);
      KeyWithin(table, prefix, b, c, k);
    }
  }

  lemma KeyWithin(table: Table, prefix: string, was: Value, now: Value, k: string)
    requires was.Object? && now.Object?
    ensures Le(ValueChange(table, Join(prefix, k), Lookup(was.fields, k), Lookup(now.fields, k)),
        ObjectChange(table, prefix, was, now))
  {
  }

  /** A direct change reaches no further than the wider of two steps through a configuration of the right shape. */
  lemma ChangeTriangle(table: Table, a: Value, b: Value, c: Value)
    requires Rooted(table) && (b.Object? ==> ShapedFields(table, "", b))
    ensures Le(ChangeTo(table, a, c), Wider(ChangeTo(table, a, b), ChangeTo(table, b, c)))
  {
    if a.Object? && b.Object? && c.Object? {
      ObjectTriangle(table, "", a, b, c);
    }
  }
}
