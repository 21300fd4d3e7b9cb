/**
 * The list operations the page performs with `Array.prototype.filter`,
 * `Array.prototype.sort` (a stable sort since ECMAScript 2019, driven only by
 * the sign of the comparator) and `new Set(list)` (first occurrences, in order).
 * `lt(a, b)` stands for "the comparator returns a negative number for (a, b)".
 */
module Sorting {

  ghost predicate StrictOrder<T(!new)>(lt: (T, T) -> bool)
  {
    && (forall a :: !lt(a, a))
    && (forall a, b, c :: lt(a, b) && lt(b, c) ==> lt(a, c))
  }

  /** No element is required to come before an element to its left. */
  predicate SortedBy<T>(lt: (T, T) -> bool, s: seq<T>)
  {
    forall i, j :: 0 <= i < j < |s| ==> !lt(s[j], s[i])
  }

  /** Places `x` before the first element it must precede, after every element it ties with. */
  function Insert<T>(lt: (T, T) -> bool, x: T, s: seq<T>): (r: seq<T>)
    ensures multiset(r) == multiset(s) + multiset{x}
    ensures |r| == |s| + 1
    ensures (forall k :: 0 <= k < |s| ==> !lt(x, s[k])) ==> r == s + [x]
  {
    if s == [] then [x]
    else if lt(x, s[0]) then [x] + s
    else
      assert s == [s[0]] + s[1..];
      [s[0]] + Insert(lt, x, s[1..])
  }

  /** The result of a stable sort with comparator sign `lt`: insertion sort. */
  function StableSort<T>(lt: (T, T) -> bool, s: seq<T>): (r: seq<T>)
    ensures multiset(r) == multiset(s)
    ensures |r| == |s|
  {
    if s == [] then []
    else
      assert s == s[..|s| - 1] + [s[|s| - 1]];
      Insert(lt, s[|s| - 1], StableSort(lt, s[..|s| - 1]))
  }

  lemma {:induction false} InsertSorted<T(!new)>(lt: (T, T) -> bool, x: T, s: seq<T>)
    requires StrictOrder(lt) && SortedBy(lt, s)
    ensures SortedBy(lt, Insert(lt, x, s))
  {
    if s == [] {
    } else if lt(x, s[0]) {
      var r := [x] + s;
      forall i, j | 0 <= i < j < |r| ensures !lt(r[j], r[i]) {
        if i == 0 {
          assert r[j] == s[j - 1];
        } else {
          assert r[i] == s[i - 1] && r[j] == s[j - 1];
        }
      }
    } else {
      var tail := Insert(lt, x, s[1..]);
      InsertSorted(lt, x, s[1..]);
      var r := [s[0]] + tail;
      forall i, j | 0 <= i < j < |r| ensures !lt(r[j], r[i]) {
        if i == 0 {
          assert r[j] in multiset(tail);
          assert r[j] in multiset(s[1..]) || r[j] == x;
          if r[j] != x {
            var k :| 0 <= k < |s[1..]| && s[1..][k] == r[j];
            assert s[k + 1] == r[j];
          }
        } else {
          assert r[i] == tail[i - 1] && r[j] == tail[j - 1];
        }
      }
    }
  }

  /** A stable sort with a strict order yields a sorted list. */
  lemma {:induction false} StableSortSorted<T(!new)>(lt: (T, T) -> bool, s: seq<T>)
    requires StrictOrder(lt)
    ensures SortedBy(lt, StableSort(lt, s))
  {
    if s != [] {
      StableSortSorted(lt, s[..|s| - 1]);
      InsertSorted(lt, s[|s| - 1], StableSort(lt, s[..|s| - 1]));
    }
  }

  /** A list that is already in order is left exactly as it is (stability). */
  lemma {:induction false} SortedIsFixpoint<T>(lt: (T, T) -> bool, s: seq<T>)
    requires SortedBy(lt, s)
    ensures StableSort(lt, s) == s
  {
    if s != [] {
      var init, last := s[..|s| - 1], s[|s| - 1];
      assert SortedBy(lt, init) by {
        forall i, j | 0 <= i < j < |init| ensures !lt(init[j], init[i]) {
          assert init[i] == s[i] && init[j] == s[j];
        }
      }
      SortedIsFixpoint(lt, init);
      forall k | 0 <= k < |init| ensures !lt(last, init[k]) {
        assert init[k] == s[k];
      }
      assert init + [last] == s;
    }
  }

  /** Sorting twice by the same comparator gives the order of sorting once. */
  lemma StableSortIdempotent<T(!new)>(lt: (T, T) -> bool, s: seq<T>)
    requires StrictOrder(lt)
    ensures StableSort(lt, StableSort(lt, s)) == StableSort(lt, s)
  {
    StableSortSorted(lt, s);
    SortedIsFixpoint(lt, StableSort(lt, s));
  }

  /** A comparator that always returns zero leaves the list unchanged. */
  lemma NoPrecedenceKeepsOrder<T>(lt: (T, T) -> bool, s: seq<T>)
    requires forall a, b :: !lt(a, b)
    ensures StableSort(lt, s) == s
  {
    SortedIsFixpoint(lt, s);
  }

  /** `r` lists some of the elements of `s`, in the order `s` has them. */
  predicate IsSubsequence<T(==)>(r: seq<T>, s: seq<T>)
    decreases |s|
  {
    if r == [] then true
    else if s == [] then false
    else if r[0] == s[0] then IsSubsequence(r[1..], s[1..])
    else IsSubsequence(r, s[1..])
  }

  lemma {:induction false} SubsequenceMembers<T>(r: seq<T>, s: seq<T>)
    requires IsSubsequence(r, s)
    ensures forall x :: x in r ==> x in s
    decreases |s|
  {
    if r != [] && s != [] {
      if r[0] == s[0] {
        SubsequenceMembers(r[1..], s[1..]);
        assert forall x :: x in r ==> x == r[0] || x in r[1..];
      } else {
        SubsequenceMembers(r, s[1..]);
      }
    }
  }

  /** A relation that holds between every earlier and later element of `s` holds in any subsequence of it. */
  lemma {:induction false} SubsequenceKeepsRelation<T>(rel: (T, T) -> bool, r: seq<T>, s: seq<T>)
    requires IsSubsequence(r, s)
    requires forall i, j :: 0 <= i < j < |s| ==> rel(s[i], s[j])
    ensures forall i, j :: 0 <= i < j < |r| ==> rel(r[i], r[j])
    decreases |s|
  {
    if r != [] && s != [] {
      assert forall i, j :: 0 <= i < j < |s| - 1 ==> s[1..][i] == s[i + 1] && s[1..][j] == s[j + 1];
      if r[0] == s[0] {
        SubsequenceKeepsRelation(rel, r[1..], s[1..]);
        SubsequenceMembers(r[1..], s[1..]);
        forall i, j | 0 <= i < j < |r| ensures rel(r[i], r[j]) {
          if i == 0 {
            assert r[j] == r[1..][j - 1] && r[1..][j - 1] in r[1..];
            var k :| 0 <= k < |s[1..]| && s[1..][k] == r[j];
            assert rel(s[0], s[k + 1]);
          } else {
            assert r[i] == r[1..][i - 1] && r[j] == r[1..][j - 1];
          }
        }
      } else {
        SubsequenceKeepsRelation(rel, r, s[1..]);
      }
    }
  }

  /** `Array.prototype.filter`. */
  function Filter<T(==,!new)>(p: T -> bool, s: seq<T>): (r: seq<T>)
    ensures forall x :: multiset(r)[x] == if p(x) then multiset(s)[x] else 0
    ensures forall i :: 0 <= i < |r| ==> p(r[i])
    ensures multiset(r) <= multiset(s)
    ensures IsSubsequence(r, s)
    ensures |r| <= |s|
  {
    if s == [] then []
    else
      assert s == [s[0]] + s[1..];
      var rest := Filter(p, s[1..]);
      if p(s[0]) then
        assert ([s[0]] + rest)[1..] == rest;
        [s[0]] + rest
      else
        assert rest != [] ==> rest[0] != s[0];
        rest
  }

  lemma {:induction false} FilterAll<T(!new)>(p: T -> bool, s: seq<T>)
    requires forall i :: 0 <= i < |s| ==> p(s[i])
    ensures Filter(p, s) == s
  {
    if s != [] {
      FilterAll(p, s[1..]);
      assert s == [s[0]] + s[1..];
    }
  }

  /** `[...new Set(s)]`: the first occurrence of every element, in order. */
  function Distinct<T(==,!new)>(s: seq<T>): (r: seq<T>)
    ensures forall x :: x in r <==> x in s
    ensures forall i, j :: 0 <= i < j < |r| ==> r[i] != r[j]
  {
    if s == [] then []
    else
      var d := Distinct(s[..|s| - 1]);
      assert s == s[..|s| - 1] + [s[|s| - 1]];
      if s[|s| - 1] in d then d else d + [s[|s| - 1]]
  }

  /** Removing repetitions from a sorted list keeps it sorted. */
  lemma {:induction false} DistinctSorted<T(!new)>(lt: (T, T) -> bool, s: seq<T>)
    requires SortedBy(lt, s)
    ensures SortedBy(lt, Distinct(s))
  {
    if s != [] {
      var init := s[..|s| - 1];
      assert SortedBy(lt, init);
      DistinctSorted(lt, init);
      var d := Distinct(init);
      var x := s[|s| - 1];
      if x !in d {
        var r := d + [x];
        forall i, j | 0 <= i < j < |r| ensures !lt(r[j], r[i]) {
          if j == |r| - 1 {
            assert r[i] in init;
            var k :| 0 <= k < |init| && init[k] == r[i];
            assert s[k] == r[i];
          }
        }
      }
    }
  }

  // ---------------------------------------------------------------------------
  // Stability
  // ---------------------------------------------------------------------------

  /**
   * A strict order whose "neither comes first" is an equivalence: whenever
   * `a` comes before `c`, any `b` comes after `a` or before `c`.
   */
  ghost predicate StrictWeakOrder<T(!new)>(lt: (T, T) -> bool)
  {
    && StrictOrder(lt)
    && (forall a, b, c :: lt(a, c) ==> lt(a, b) || lt(b, c))
  }

  /** The elements the comparator cannot tell apart from `x`. */
  function TiesWith<T>(lt: (T, T) -> bool, x: T): T -> bool
  {
    (e: T) => !lt(e, x) && !lt(x, e)
  }

  /** `e` when it is tied with `x`, else nothing. */
  function Tie<T>(lt: (T, T) -> bool, x: T, e: T): seq<T>
  {
    if TiesWith(lt, x)(e) then [e] else []
  }

  /** The elements of `s` tied with `x`, in their order. */
  function Ties<T>(lt: (T, T) -> bool, x: T, s: seq<T>): seq<T>
  {
    if s == [] then []
    else Tie(lt, x, s[0]) + Ties(lt, x, s[1..])
  }

  lemma {:induction false} TiesIsFilter<T(!new)>(lt: (T, T) -> bool, x: T, s: seq<T>)
    ensures Ties(lt, x, s) == Filter(TiesWith(lt, x), s)
  {
    if s != [] {
      var p := TiesWith(lt, x);
      var rest := Filter(p, s[1..]);
      assert Ties(lt, x, s[1..]) == rest by {
        TiesIsFilter(lt, x, s[1..]);
      }
      assert Filter(p, s) == Tie(lt, x, s[0]) + rest;
    }
  }

  lemma Ties1<T>(lt: (T, T) -> bool, x: T, a: T, s: seq<T>)
    ensures Ties(lt, x, [a] + s) == Tie(lt, x, a) + Ties(lt, x, s)
  {
    assert ([a] + s)[0] == a && ([a] + s)[1..] == s;
  }

  lemma {:induction false} TiesAppend<T>(lt: (T, T) -> bool, x: T, s: seq<T>, y: T)
    ensures Ties(lt, x, s + [y]) == Ties(lt, x, s) + Tie(lt, x, y)
  {
    if s == [] {
      Ties1(lt, x, y, []);
      assert [y] + [] == s + [y];
    } else {
      assert s + [y] == [s[0]] + (s[1..] + [y]);
      assert s == [s[0]] + s[1..];
      Ties1(lt, x, s[0], s[1..] + [y]);
      Ties1(lt, x, s[0], s[1..]);
      TiesAppend(lt, x, s[1..], y);
    }
  }

  /** What `y` must precede, and whatever does not precede that, is not tied with `y`'s ties. */
  lemma NotTied<T(!new)>(lt: (T, T) -> bool, x: T, y: T, a: T, b: T)
    requires StrictWeakOrder(lt) && lt(y, a) && !lt(b, a) && TiesWith(lt, x)(y)
    ensures !TiesWith(lt, x)(b)
  {
    assert lt(y, b) || lt(b, a);
    assert lt(y, x) || lt(x, b);
  }

  /** Nothing after an element that `y` must precede is tied with `y`'s ties. */
  lemma NoTiesAfter<T(!new)>(lt: (T, T) -> bool, x: T, y: T, t: seq<T>)
    requires StrictWeakOrder(lt) && SortedBy(lt, t)
    requires t != [] && lt(y, t[0]) && TiesWith(lt, x)(y)
    ensures Ties(lt, x, t) == []
  {
    forall i | 0 <= i < |t| ensures !TiesWith(lt, x)(t[i]) {
      NotTied(lt, x, y, t[0], t[i]);
    }
    NoneTied(lt, x, t);
  }

  lemma {:induction false} NoneTied<T(!new)>(lt: (T, T) -> bool, x: T, t: seq<T>)
    requires forall i :: 0 <= i < |t| ==> !TiesWith(lt, x)(t[i])
    ensures Ties(lt, x, t) == []
  {
    if t != [] {
      NoneTied(lt, x, t[1..]);
    }
  }

  /** `y` goes to the front: it is tied with nothing it precedes. */
  lemma InsertFrontKeepsTies<T(!new)>(lt: (T, T) -> bool, x: T, y: T, t: seq<T>)
    requires StrictWeakOrder(lt) && SortedBy(lt, t) && t != [] && lt(y, t[0])
    ensures Ties(lt, x, Insert(lt, y, t)) == Ties(lt, x, t) + Tie(lt, x, y)
  {
    assert Insert(lt, y, t) == [y] + t;
    Ties1(lt, x, y, t);
    if TiesWith(lt, x)(y) {
      NoTiesAfter(lt, x, y, t);
    }
  }

  lemma SortedTail<T>(lt: (T, T) -> bool, t: seq<T>)
    requires SortedBy(lt, t) && t != []
    ensures SortedBy(lt, t[1..])
  {
    forall i, j | 0 <= i < j < |t[1..]| ensures !lt(t[1..][j], t[1..][i]) {
      assert t[1..][j] == t[j + 1] && t[1..][i] == t[i + 1];
    }
  }

  /** Keeping a first element in front of both sides leaves an equation on ties intact. */
  lemma ConsKeepsTies<T>(lt: (T, T) -> bool, x: T, a: T, u: seq<T>, v: seq<T>, w: seq<T>)
    requires Ties(lt, x, v) == Ties(lt, x, u) + w
    ensures Ties(lt, x, [a] + v) == Ties(lt, x, [a] + u) + w
  {
    var h := Tie(lt, x, a);
    calc {
      Ties(lt, x, [a] + v);
      { Ties1(lt, x, a, v); }
      h + Ties(lt, x, v);
      h + (Ties(lt, x, u) + w);
      (h + Ties(lt, x, u)) + w;
      { Ties1(lt, x, a, u); }
      Ties(lt, x, [a] + u) + w;
    }
  }

  /** Inserting `y` into a sorted list puts it after every element it ties with. */
  lemma {:induction false} InsertKeepsTies<T(!new)>(lt: (T, T) -> bool, x: T, y: T, t: seq<T>)
    requires StrictWeakOrder(lt) && SortedBy(lt, t)
    ensures Ties(lt, x, Insert(lt, y, t)) == Ties(lt, x, t) + Tie(lt, x, y)
  {
    if t == [] {
      assert Insert(lt, y, t) == [y] + [];
      Ties1(lt, x, y, []);
    } else if lt(y, t[0]) {
      InsertFrontKeepsTies(lt, x, y, t);
    } else {
      var a, u := t[0], t[1..];
      assert Insert(lt, y, t) == [a] + Insert(lt, y, u);
      assert t == [a] + u;
      SortedTail(lt, t);
      InsertKeepsTies(lt, x, y, u);
      ConsKeepsTies(lt, x, a, u, Insert(lt, y, u), Tie(lt, x, y));
    }
  }

  lemma {:induction false} SortKeepsTies<T(!new)>(lt: (T, T) -> bool, x: T, s: seq<T>)
    requires StrictWeakOrder(lt)
    ensures Ties(lt, x, StableSort(lt, s)) == Ties(lt, x, s)
  {
    if s != [] {
      var init := s[..|s| - 1];
      var last := s[|s| - 1];
      assert s == init + [last];
      SortKeepsTies(lt, x, init);
      StableSortSorted(lt, init);
      InsertKeepsTies(lt, x, last, StableSort(lt, init));
      TiesAppend(lt, x, init, last);
    }
  }

  /**
   * The sort is stable: the elements tied with any `x` come out in the
   * order they went in.
   */
  lemma StableSortKeepsTies<T(!new)>(lt: (T, T) -> bool, x: T, s: seq<T>)
    requires StrictWeakOrder(lt)
    ensures Filter(TiesWith(lt, x), StableSort(lt, s)) == Filter(TiesWith(lt, x), s)
  {
    SortKeepsTies(lt, x, s);
    TiesIsFilter(lt, x, s);
    TiesIsFilter(lt, x, StableSort(lt, s));
  }
}
