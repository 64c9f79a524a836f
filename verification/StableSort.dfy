/** A stable sort by an integer key. */
module StableSort {
  function Insert<T>(key: T -> int, s: seq<T>, x: T): seq<T>
    decreases |s|
  {
    if s == [] || key(s[|s| - 1]) <= key(x) then s + [x]
    else Insert(key, s[..|s| - 1], x) + [s[|s| - 1]]
  }

  function Sort<T>(key: T -> int, s: seq<T>): seq<T>
    decreases |s|
  {
    if s == [] then [] else Insert(key, Sort(key, s[..|s| - 1]), s[|s| - 1])
  }

  predicate Ordered<T>(key: T -> int, s: seq<T>) {
    forall i, j | 0 <= i < j < |s| :: key(s[i]) <= key(s[j])
  }

  /** The elements of `s` with key `k`, in their order. */
  function With<T>(key: T -> int, s: seq<T>, k: int): seq<T>
    decreases |s|
  {
    if s == [] then []
    else
      var front := With(key, s[..|s| - 1], k);
      if key(s[|s| - 1]) == k then front + [s[|s| - 1]] else front
  }

  lemma {:induction false} WithJoin<T>(key: T -> int, a: seq<T>, x: T, k: int)
    ensures With(key, a + [x], k) == With(key, a, k) + if key(x) == k then [x] else []
  {
    assert (a + [x])[..|a|] == a;
  }

  lemma OrderedSnoc<T>(key: T -> int, a: seq<T>, x: T)
    requires Ordered(key, a) && forall y | y in a :: key(y) <= key(x)
    ensures Ordered(key, a + [x])
  {
  }

  lemma OrderedEnds<T>(key: T -> int, s: seq<T>)
    requires Ordered(key, s) && s != []
    ensures Ordered(key, s[..|s| - 1]) && forall y | y in s :: key(y) <= key(s[|s| - 1])
  {
  }

  lemma {:induction false} InsertKeepsOrder<T>(key: T -> int, s: seq<T>, x: T)
    requires Ordered(key, s)
    ensures Ordered(key, Insert(key, s, x))
    ensures multiset(Insert(key, s, x)) == multiset(s) + multiset{x}
    decreases |s|
  {
    hide Ordered;
    if s == [] {
      OrderedSnoc(key, s, x);
    } else {
      var front, last := s[..|s| - 1], s[|s| - 1];
      OrderedEnds(key, s);
      assert s == front + [last];
      if key(last) <= key(x) {
        OrderedSnoc(key, s, x);
      } else {
        InsertKeepsOrder(key, front, x);
        var into := Insert(key, front, x);
        forall y | y in into ensures key(y) <= key(last) {
          assert y in multiset(into);
          assert y in front || y == x;
        }
        OrderedSnoc(key, into, last);
      }
    }
  }

  /** Inserting goes behind the equal keys. */
  lemma {:induction false} InsertIsStable<T>(key: T -> int, s: seq<T>, x: T, k: int)
    ensures With(key, Insert(key, s, x), k) == With(key, s + [x], k)
    decreases |s|
  {
    if s != [] && key(s[|s| - 1]) > key(x) {
      var front, last := s[..|s| - 1], s[|s| - 1];
      InsertIsStable(key, front, x, k);
      assert s == front + [last];
      WithJoin(key, Insert(key, front, x), last, k);
      WithJoin(key, front, x, k);
      WithJoin(key, front, last, k);
      WithJoin(key, s, x, k);
    }
  }

  lemma {:induction false} Sorts<T>(key: T -> int, s: seq<T>)
    ensures Ordered(key, Sort(key, s))
    ensures multiset(Sort(key, s)) == multiset(s)
    decreases |s|
  {
    if s != [] {
      var front, last := s[..|s| - 1], s[|s| - 1];
      Sorts(key, front);
      InsertKeepsOrder(key, Sort(key, front), last);
      assert s == front + [last];
    }
  }

  lemma {:induction false} SortsStably<T>(key: T -> int, s: seq<T>, k: int)
    ensures With(key, Sort(key, s), k) == With(key, s, k)
    decreases |s|
  {
    if s != [] {
      var front, last := s[..|s| - 1], s[|s| - 1];
      SortsStably(key, front, k);
      InsertIsStable(key, Sort(key, front), last, k);
      assert s == front + [last];
      WithJoin(key, Sort(key, front), last, k);
      WithJoin(key, front, last, k);
    }
  }
}
