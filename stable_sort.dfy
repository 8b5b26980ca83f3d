/**
 * Python's `sorted(xs, key=k, reverse=True)` and `xs.sort(key=k, reverse=True)`: a
 * stable sort. `before(x, y)` says that `x` goes strictly ahead of `y` (for a
 * descending sort by key, `k(x) > k(y)`); it must be a strict weak order.
 * Modelled as an insertion sort, whose result is the same for a stable sort.
 */
module StableSort {

  /** Asymmetric and negatively transitive: what a comparison of keys yields. */
  ghost predicate StrictWeakOrder<T(!new)>(before: (T, T) -> bool) {
    && (forall x, y :: before(x, y) ==> !before(y, x))
    && (forall x, y, z :: !before(x, y) && !before(y, z) ==> !before(x, z))
  }

  /** No element is strictly ahead of an element listed before it. */
  ghost predicate Sorted<T>(s: seq<T>, before: (T, T) -> bool) {
    forall i, j :: 0 <= i < j < |s| ==> !before(s[j], s[i])
  }

  /** Neither of the two goes ahead of the other: their keys are equal. */
  predicate Tied<T>(x: T, y: T, before: (T, T) -> bool) {
    !before(x, y) && !before(y, x)
  }

  /** The elements of `s` tied with `y`, in their order in `s`. */
  function TiedWith<T>(s: seq<T>, y: T, before: (T, T) -> bool): seq<T> {
    if s == [] then []
    else (if Tied(s[0], y, before) then [s[0]] else []) + TiedWith(s[1..], y, before)
  }

  /** Insert `x` ahead of the first element that does not go strictly ahead of it. */
  function Insert<T>(x: T, s: seq<T>, before: (T, T) -> bool): (r: seq<T>)
    ensures |r| == |s| + 1
  {
    if s == [] || !before(s[0], x) then [x] + s else [s[0]] + Insert(x, s[1..], before)
  }

  function Sort<T>(s: seq<T>, before: (T, T) -> bool): (r: seq<T>)
    ensures |r| == |s|
  {
    if s == [] then [] else Insert(s[0], Sort(s[1..], before), before)
  }

  lemma {:induction false} InsertPermutes<T>(x: T, s: seq<T>, before: (T, T) -> bool)
    ensures multiset(Insert(x, s, before)) == multiset{x} + multiset(s)
  {
    if s != [] && before(s[0], x) {
      InsertPermutes(x, s[1..], before);
      assert s == [s[0]] + s[1..];
    }
  }

  /** The result is a permutation of the input. */
  lemma {:induction false} SortPermutes<T>(s: seq<T>, before: (T, T) -> bool)
    ensures multiset(Sort(s, before)) == multiset(s)
  {
    if s != [] {
      SortPermutes(s[1..], before);
      InsertPermutes(s[0], Sort(s[1..], before), before);
      assert s == [s[0]] + s[1..];
    }
  }

  lemma {:induction false} InsertSorted<T(!new)>(x: T, s: seq<T>, before: (T, T) -> bool)
    requires StrictWeakOrder(before) && Sorted(s, before)
    ensures Sorted(Insert(x, s, before), before)
  {
    if s == [] || !before(s[0], x) {
      var r := [x] + s;
      forall i, j | 0 <= i < j < |r| ensures !before(r[j], r[i]) {
        if i == 0 {
          assert r[j] == s[j - 1];
          if j > 1 {
            assert !before(s[j - 1], s[0]);
          }
        }
      }
    } else {
      InsertSorted(x, s[1..], before);
      var t := Insert(x, s[1..], before);
      var r := [s[0]] + t;
      InsertPermutes(x, s[1..], before);
      forall j | 0 < j < |r| ensures !before(r[j], s[0]) {
        assert r[j] in multiset(t);
        assert r[j] == x || r[j] in multiset(s[1..]);
        if r[j] != x {
          var m :| 0 <= m < |s[1..]| && s[1..][m] == r[j];
          assert s[m + 1] == r[j];
        }
      }
    }
  }

  /** The result is in order. */
  lemma {:induction false} SortSorted<T(!new)>(s: seq<T>, before: (T, T) -> bool)
    requires StrictWeakOrder(before)
    ensures Sorted(Sort(s, before), before)
  {
    if s != [] {
      SortSorted(s[1..], before);
      InsertSorted(s[0], Sort(s[1..], before), before);
    }
  }

  lemma {:induction false} InsertKeepsTies<T(!new)>(x: T, s: seq<T>, y: T, before: (T, T) -> bool)
    requires StrictWeakOrder(before)
    ensures TiedWith(Insert(x, s, before), y, before)
         == (if Tied(x, y, before) then [x] else []) + TiedWith(s, y, before)
  {
    if s == [] || !before(s[0], x) {
      assert Insert(x, s, before) == [x] + s;
      assert ([x] + s)[1..] == s;
    } else {
      var t := Insert(x, s[1..], before);
      InsertKeepsTies(x, s[1..], y, before);
      assert Insert(x, s, before) == [s[0]] + t;
      assert ([s[0]] + t)[1..] == t;
      assert TiedWith(s, y, before) == (if Tied(s[0], y, before) then [s[0]] else []) + TiedWith(s[1..], y, before);
      if Tied(x, y, before) {
        // s[0] goes strictly ahead of x, which is tied with y: so s[0] is not tied with y
        NotTiedAhead(s[0], x, y, before);
      }
    }
  }

  /** What goes strictly ahead of an element is not tied with anything tied with that element. */
  lemma NotTiedAhead<T(!new)>(z: T, x: T, y: T, before: (T, T) -> bool)
    requires StrictWeakOrder(before) && before(z, x) && Tied(x, y, before)
    ensures !Tied(z, y, before)
  {
  }

  /**
   * Stability: for every key, the elements with that key appear in the result in
   * the same relative order as in the input.
   */
  lemma {:induction false} SortStable<T(!new)>(s: seq<T>, y: T, before: (T, T) -> bool)
    requires StrictWeakOrder(before)
    ensures TiedWith(Sort(s, before), y, before) == TiedWith(s, y, before)
  {
    if s != [] {
      SortStable(s[1..], y, before);
      InsertKeepsTies(s[0], Sort(s[1..], before), y, before);
    }
  }

  lemma {:induction false} TiedWithMembers<T>(s: seq<T>, y: T, before: (T, T) -> bool)
    ensures forall z :: z in TiedWith(s, y, before) <==> z in s && Tied(z, y, before)
  {
    if s != [] {
      TiedWithMembers(s[1..], y, before);
      assert s == [s[0]] + s[1..];
    }
  }

  /** Tied with `y` and placed first among the elements of `s` tied with `y`. */
  lemma {:induction false} FirstTied<T>(s: seq<T>, y: T, before: (T, T) -> bool)
    requires TiedWith(s, y, before) != []
    ensures exists k :: 0 <= k < |s| && s[k] == TiedWith(s, y, before)[0] && Tied(s[k], y, before)
                   && forall j :: 0 <= j < k ==> !Tied(s[j], y, before)
  {
    if !Tied(s[0], y, before) {
      FirstTied(s[1..], y, before);
      var k :| 0 <= k < |s[1..]| && s[1..][k] == TiedWith(s[1..], y, before)[0] && Tied(s[1..][k], y, before)
             && forall j :: 0 <= j < k ==> !Tied(s[1..][j], y, before);
      assert s[k + 1] == s[1..][k];
      forall j | 0 <= j < k + 1 ensures !Tied(s[j], y, before) {
        if j > 0 { assert s[j] == s[1..][j - 1]; }
      }
    }
  }

  /** Nothing in the input goes strictly ahead of the head of the result. */
  lemma SortHeadAhead<T(!new)>(s: seq<T>, before: (T, T) -> bool)
    requires StrictWeakOrder(before) && s != []
    ensures forall j :: 0 <= j < |s| ==> !before(s[j], Sort(s, before)[0])
  {
    var r := Sort(s, before);
    SortSorted(s, before);
    SortPermutes(s, before);
    forall j | 0 <= j < |s| ensures !before(s[j], r[0]) {
      assert s[j] in multiset(r);
      var m :| 0 <= m < |r| && r[m] == s[j];
      if m > 0 { assert !before(r[m], r[0]); }
    }
  }

  /** The head of the result is also the first element of the input tied with it. */
  lemma SortHeadFirstTied<T(!new)>(s: seq<T>, before: (T, T) -> bool)
    requires StrictWeakOrder(before) && s != []
    ensures TiedWith(s, Sort(s, before)[0], before) != []
    ensures TiedWith(s, Sort(s, before)[0], before)[0] == Sort(s, before)[0]
  {
    var r := Sort(s, before);
    var h := r[0];
    SortStable(s, h, before);
    assert r == [h] + r[1..];
  }

  /**
   * The head of the result is the first element of the input that nothing goes
   * strictly ahead of (for a descending sort: the first of the largest keys).
   */
  lemma SortHeadIsFirstMaximal<T(!new)>(s: seq<T>, before: (T, T) -> bool)
    requires StrictWeakOrder(before) && s != []
    ensures exists k :: 0 <= k < |s| && s[k] == Sort(s, before)[0]
                   && (forall j :: 0 <= j < |s| ==> !before(s[j], s[k]))
                   && (forall j :: 0 <= j < k ==> before(s[k], s[j]))
  {
    var h := Sort(s, before)[0];
    SortHeadAhead(s, before);
    SortHeadFirstTied(s, before);
    FirstTied(s, h, before);
    var k :| 0 <= k < |s| && s[k] == TiedWith(s, h, before)[0] && Tied(s[k], h, before)
           && forall j :: 0 <= j < k ==> !Tied(s[j], h, before);
    assert s[k] == h;
    forall j | 0 <= j < k ensures before(s[k], s[j]) {
      assert !Tied(s[j], h, before) && !before(s[j], h);
    }
  }
}
