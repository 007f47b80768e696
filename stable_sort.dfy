/**
  `Stream.sorted(comparator)` on a sequential stream: a stable sort. It is
  modelled as insertion sort over `le`, the comparator's "may come first"
  relation (`compare(a, b) <= 0`).
 */
module StableSort {

  /** A comparator consistent with its contract: total and transitive. */
  ghost predicate IsTotalPreorder<T(!new)>(le: (T, T) -> bool) {
    && (forall a, b :: le(a, b) || le(b, a))
    && (forall a, b, c :: le(a, b) && le(b, c) ==> le(a, c))
  }

  predicate Sorted<T>(le: (T, T) -> bool, s: seq<T>) {
    forall i, j :: 0 <= i < j < |s| ==> le(s[i], s[j])
  }

  /** Places `x` before the first element it may come before. */
  function Insert<T(==)>(le: (T, T) -> bool, x: T, s: seq<T>): (r: seq<T>)
    ensures multiset(r) == multiset(s) + multiset{x}
    ensures |r| == |s| + 1
    decreases |s|
  {
    if s == [] || le(x, s[0]) then [x] + s
    else
      assert s == [s[0]] + s[1..];
      [s[0]] + Insert(le, x, s[1..])
  }

  function Sort<T(==)>(le: (T, T) -> bool, s: seq<T>): (r: seq<T>)
    ensures multiset(r) == multiset(s)
    ensures |r| == |s|
    decreases |s|
  {
    if s == [] then []
    else
      assert s == [s[0]] + s[1..];
      Insert(le, s[0], Sort(le, s[1..]))
  }

  lemma {:induction false} InsertKeepsSorted<T(!new)>(le: (T, T) -> bool, x: T, s: seq<T>)
    requires IsTotalPreorder(le) && Sorted(le, s)
    ensures Sorted(le, Insert(le, x, s))
    decreases |s|
  {
    var r := Insert(le, x, s);
    if s == [] || le(x, s[0]) {
      forall j | 0 < j < |r| ensures le(x, r[j]) {
        assert r[j] == s[j - 1];
      }
    } else {
      InsertKeepsSorted(le, x, s[1..]);
      var tail := Insert(le, x, s[1..]);
      assert r == [s[0]] + tail;
      forall j | 0 <= j < |tail| ensures le(s[0], tail[j]) {
        assert tail[j] in multiset(s[1..]) + multiset{x};
        if tail[j] != x {
          assert tail[j] in s[1..];
        }
      }
    }
  }

  lemma {:induction false} SortIsSorted<T(!new)>(le: (T, T) -> bool, s: seq<T>)
    requires IsTotalPreorder(le)
    ensures Sorted(le, Sort(le, s))
    decreases |s|
  {
    if s != [] {
      SortIsSorted(le, s[1..]);
      InsertKeepsSorted(le, s[0], Sort(le, s[1..]));
    }
  }

  /** `compare(a, b) == 0` */
  predicate Tied<T>(le: (T, T) -> bool, a: T, b: T) {
    le(a, b) && le(b, a)
  }

  /** The elements of `s` tied with `e`, in their order in `s`. */
  function TiedWith<T>(le: (T, T) -> bool, s: seq<T>, e: T): seq<T>
    decreases |s|
  {
    if s == [] then [] else (if Tied(le, s[0], e) then [s[0]] else []) + TiedWith(le, s[1..], e)
  }

  lemma TiedWithCons<T>(le: (T, T) -> bool, a: T, t: seq<T>, e: T)
    ensures TiedWith(le, [a] + t, e) == (if Tied(le, a, e) then [a] else []) + TiedWith(le, t, e)
  {
    assert ([a] + t)[1..] == t;
  }

  lemma {:induction false} InsertIsStable<T(!new)>(le: (T, T) -> bool, x: T, s: seq<T>, e: T)
    requires IsTotalPreorder(le)
    ensures TiedWith(le, Insert(le, x, s), e) == (if Tied(le, x, e) then [x] else []) + TiedWith(le, s, e)
    decreases |s|
  {
    if s == [] || le(x, s[0]) {
      TiedWithCons(le, x, s, e);
    } else {
      var tail := Insert(le, x, s[1..]);
      assert s == [s[0]] + s[1..];
      TiedWithCons(le, s[0], tail, e);
      TiedWithCons(le, s[0], s[1..], e);
      InsertIsStable(le, x, s[1..], e);
      // Two elements tied with `e` may each come first, so `x` would have gone before `s[0]`.
      assert !(Tied(le, x, e) && Tied(le, s[0], e));
    }
  }

  /** Elements the comparator ties keep their input order: the sort is stable. */
  lemma {:induction false} SortIsStable<T(!new)>(le: (T, T) -> bool, s: seq<T>, e: T)
    requires IsTotalPreorder(le)
    ensures TiedWith(le, Sort(le, s), e) == TiedWith(le, s, e)
    decreases |s|
  {
    if s != [] {
      SortIsStable(le, s[1..], e);
      InsertIsStable(le, s[0], Sort(le, s[1..]), e);
      TiedWithCons(le, s[0], s[1..], e);
      assert s == [s[0]] + s[1..];
    }
  }
}
