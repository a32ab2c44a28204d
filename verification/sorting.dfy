/** Array.prototype.sort with a comparator of the form `(a, b) => key(a) - key(b)`,
    or its negation for a descending sort, as the pipeline page and the funnel use it.
    Keys are integers or +Infinity (a missing date). Infinity - Infinity is NaN, which
    the sort reads as +0, so two +Infinity keys compare equal. The sort is stable. */
module Sorting {
  import opened Common

  datatype Key = Fin(n: int) | PosInf

  datatype Direction = Asc | Desc

  predicate KeyLe(a: Key, b: Key) {
    b.PosInf? || (a.Fin? && a.n <= b.n)
  }

  /** An element with key `a` may stand before one with key `b`: the comparator does
      not put `b` first. */
  predicate Before(a: Key, b: Key, dir: Direction) {
    if dir == Asc then KeyLe(a, b) else KeyLe(b, a)
  }

  predicate SortedBy<T>(s: seq<T>, key: T -> Key, dir: Direction) {
    forall i, j :: 0 <= i < j < |s| ==> Before(key(s[i]), key(s[j]), dir)
  }

  /** Insert `x` in front of the first element it may stand before. */
  function Insert<T>(x: T, t: seq<T>, key: T -> Key, dir: Direction): (r: seq<T>)
    ensures |r| == |t| + 1
    decreases |t|
  {
    if |t| == 0 || Before(key(x), key(t[0]), dir) then [x] + t
    else [t[0]] + Insert(x, t[1..], key, dir)
  }

  /** Insertion adds `x` and loses nothing. */
  lemma {:induction false} InsertPerm<T>(x: T, t: seq<T>, key: T -> Key, dir: Direction)
    ensures multiset(Insert(x, t, key, dir)) == multiset(t) + multiset{x}
    decreases |t|
  {
    if |t| > 0 && !Before(key(x), key(t[0]), dir) {
      InsertPerm(x, t[1..], key, dir);
      assert t == [t[0]] + t[1..];
    }
  }

  /** The stable sort: the first element goes in front of every later element with an
      equal key. */
  function Sort<T>(s: seq<T>, key: T -> Key, dir: Direction): (r: seq<T>)
    ensures |r| == |s|
    ensures multiset(r) == multiset(s)
    decreases |s|
  {
    if |s| == 0 then []
    else
      assert s == [s[0]] + s[1..];
      InsertPerm(s[0], Sort(s[1..], key, dir), key, dir);
      Insert(s[0], Sort(s[1..], key, dir), key, dir)
  }

  lemma BeforeTotal(a: Key, b: Key, dir: Direction)
    ensures Before(a, b, dir) || Before(b, a, dir)
  {
  }

  lemma BeforeTrans(a: Key, b: Key, c: Key, dir: Direction)
    requires Before(a, b, dir) && Before(b, c, dir)
    ensures Before(a, c, dir)
  {
  }

  /** Inserting into a sorted sequence keeps it sorted. */
  lemma {:induction false} InsertSorted<T>(x: T, t: seq<T>, key: T -> Key, dir: Direction)
    requires SortedBy(t, key, dir)
    ensures SortedBy(Insert(x, t, key, dir), key, dir)
    decreases |t|
  {
    var r := Insert(x, t, key, dir);
    if |t| == 0 {
    } else if Before(key(x), key(t[0]), dir) {
      forall i, j | 0 <= i < j < |r| ensures Before(key(r[i]), key(r[j]), dir) {
        if i == 0 {
          if j > 1 { BeforeTrans(key(x), key(t[0]), key(t[j - 1]), dir); }
        } else {
          assert r[i] == t[i - 1] && r[j] == t[j - 1];
        }
      }
    } else {
      var tail := t[1..];
      assert SortedBy(tail, key, dir) by {
        forall i, j | 0 <= i < j < |tail| ensures Before(key(tail[i]), key(tail[j]), dir) {
          assert tail[i] == t[i + 1] && tail[j] == t[j + 1];
        }
      }
      InsertSorted(x, tail, key, dir);
      var rest := Insert(x, tail, key, dir);
      BeforeTotal(key(x), key(t[0]), dir);
      InsertAbove(x, tail, key(t[0]), key, dir);
      forall i, j | 0 <= i < j < |r| ensures Before(key(r[i]), key(r[j]), dir) {
        if i == 0 {
          assert r[j] == rest[j - 1];
        } else {
          assert r[i] == rest[i - 1] && r[j] == rest[j - 1];
        }
      }
    }
  }

  /** A bound below `x` and every element of `t` is below every element after the insertion. */
  lemma {:induction false} InsertAbove<T>(x: T, t: seq<T>, b: Key, key: T -> Key, dir: Direction)
    requires Before(b, key(x), dir)
    requires forall q :: 0 <= q < |t| ==> Before(b, key(t[q]), dir)
    ensures forall q :: 0 <= q < |t| + 1 ==> Before(b, key(Insert(x, t, key, dir)[q]), dir)
    decreases |t|
  {
    if |t| > 0 && !Before(key(x), key(t[0]), dir) {
      var tail := t[1..];
      forall q | 0 <= q < |tail| ensures Before(b, key(tail[q]), dir) {
        assert tail[q] == t[q + 1];
      }
      InsertAbove(x, tail, b, key, dir);
      var r := Insert(x, t, key, dir);
      forall q | 0 <= q < |t| + 1 ensures Before(b, key(r[q]), dir) {
        if q > 0 {
          assert r[q] == Insert(x, tail, key, dir)[q - 1];
        }
      }
    }
  }

  /** The stable sort orders by key in the chosen direction. */
  lemma {:induction false} SortSorted<T>(s: seq<T>, key: T -> Key, dir: Direction)
    ensures SortedBy(Sort(s, key, dir), key, dir)
    decreases |s|
  {
    if |s| > 0 {
      SortSorted(s[1..], key, dir);
      InsertSorted(s[0], Sort(s[1..], key, dir), key, dir);
    }
  }

  /** A prefix of a sorted sequence is part of it, and each of its elements may stand
      before each element left out. */
  lemma SortedPrefix<T>(s: seq<T>, n: nat, key: T -> Key, dir: Direction)
    requires n <= |s| && SortedBy(s, key, dir)
    ensures multiset(s[..n]) <= multiset(s)
    ensures forall d, e :: d in s[..n] && e in multiset(s) - multiset(s[..n]) ==> Before(key(d), key(e), dir)
  {
    PrefixRest(s, n);
    PrefixBeforeRest(s, n, key, dir);
  }

  /** What a prefix leaves out of the multiset is the rest. */
  lemma PrefixRest<T>(s: seq<T>, n: nat)
    requires n <= |s|
    ensures multiset(s[..n]) <= multiset(s)
    ensures multiset(s) - multiset(s[..n]) == multiset(s[n..])
  {
    assert s == s[..n] + s[n..];
    assert multiset(s) == multiset(s[..n]) + multiset(s[n..]);
  }

  lemma PrefixBeforeRest<T>(s: seq<T>, n: nat, key: T -> Key, dir: Direction)
    requires n <= |s| && SortedBy(s, key, dir)
    ensures forall d, e :: d in s[..n] && e in s[n..] ==> Before(key(d), key(e), dir)
  {
    forall d, e | d in s[..n] && e in s[n..] ensures Before(key(d), key(e), dir) {
      var a :| 0 <= a < n && s[..n][a] == d;
      var b :| 0 <= b < |s| - n && s[n..][b] == e;
      assert s[a] == d;
      assert s[n + b] == e;
    }
  }

  /** The elements with any one key leave the insertion in their input order. */
  lemma {:induction false} InsertStable<T>(x: T, t: seq<T>, key: T -> Key, dir: Direction, k: Key)
    ensures Filter(Insert(x, t, key, dir), (y: T) => key(y) == k)
         == (if key(x) == k then [x] else []) + Filter(t, (y: T) => key(y) == k)
    decreases |t|
  {
    var p := (y: T) => key(y) == k;
    if |t| == 0 || Before(key(x), key(t[0]), dir) {
      assert ([x] + t)[1..] == t;
    } else {
      var rest := Insert(x, t[1..], key, dir);
      assert ([t[0]] + rest)[1..] == rest;
      InsertStable(x, t[1..], key, dir, k);
      assert key(t[0]) != key(x);
    }
  }

  /** The sort is stable: for every key, the elements with that key keep their input
      order. Together with SortSorted and the multiset ensures this fixes the result. */
  lemma {:induction false} SortStable<T>(s: seq<T>, key: T -> Key, dir: Direction, k: Key)
    ensures Filter(Sort(s, key, dir), (y: T) => key(y) == k) == Filter(s, (y: T) => key(y) == k)
    decreases |s|
  {
    if |s| > 0 {
      SortStable(s[1..], key, dir, k);
      InsertStable(s[0], Sort(s[1..], key, dir), key, dir, k);
    }
  }

  /** Insert places `x` at the first position whose element it may stand before. */
  lemma {:induction false} InsertAt<T>(x: T, t: seq<T>, m: nat, key: T -> Key, dir: Direction)
    requires m <= |t|
    requires forall q :: 0 <= q < m ==> !Before(key(x), key(t[q]), dir)
    requires m == |t| || Before(key(x), key(t[m]), dir)
    ensures Insert(x, t, key, dir) == t[..m] + [x] + t[m..]
    decreases m
  {
    if m == 0 {
      assert Insert(x, t, key, dir) == [x] + t;
      assert t[..0] == [] && t[0..] == t;
    } else {
      var tail := t[1..];
      assert !Before(key(x), key(t[0]), dir);
      assert Insert(x, t, key, dir) == [t[0]] + Insert(x, tail, key, dir);
      forall q | 0 <= q < m - 1
        ensures !Before(key(x), key(tail[q]), dir)
      {
        assert tail[q] == t[q + 1];
      }
      if m < |t| {
        assert tail[m - 1] == t[m];
      }
      InsertAt(x, tail, m - 1, key, dir);
      ConsSplit(x, t, m);
    }
  }

  /** Putting the head back in front of a split tail splits the whole sequence one further on. */
  lemma ConsSplit<T>(x: T, t: seq<T>, m: nat)
    requires 0 < m <= |t|
    ensures [t[0]] + (t[1..][..m - 1] + [x] + t[1..][m - 1..]) == t[..m] + [x] + t[m..]
  {
    assert t[..m] == [t[0]] + t[1..][..m - 1];
    assert t[m..] == t[1..][m - 1..];
  }

  /** One step of the insertion sort: slide `a[i]` right past the elements of the
      sorted suffix that must come before it. */
  method InsertStep<T>(a: array<T>, i: nat, key: T -> Key, dir: Direction)
    requires i < a.Length
    modifies a
    ensures a[..i] == old(a[..i])
    ensures a[i..] == Insert(old(a[i]), old(a[i + 1..]), key, dir)
  {
    var x := a[i];
    ghost var before := a[..];
    ghost var t := a[i + 1..];
    var j := SlideLeft(a, i, x, key, dir);
    a[j - 1] := x;
    forall q | 0 <= q < j - 1 - i
      ensures !Before(key(x), key(t[q]), dir)
    {
      assert t[q] == before[i + 1 + q];
    }
    if j < a.Length {
      assert t[j - 1 - i] == before[j];
    }
    InsertAt(x, t, j - 1 - i, key, dir);
    SlideResult(a[..], before, i, j - 1 - i, x);
  }

  /** The loop of the step: move the elements that must come before `x` one place to
      the left, stopping at the first one `x` may stand before. */
  method SlideLeft<T>(a: array<T>, i: nat, x: T, key: T -> Key, dir: Direction) returns (j: nat)
    requires i < a.Length
    modifies a
    ensures i + 1 <= j <= a.Length
    ensures forall q :: 0 <= q < i ==> a[q] == old(a[q])
    ensures forall q :: i <= q < j - 1 ==> a[q] == old(a[q + 1])
    ensures forall q :: j <= q < a.Length ==> a[q] == old(a[q])
    ensures forall q :: i + 1 <= q < j ==> !Before(key(x), key(old(a[q])), dir)
    ensures j < a.Length ==> Before(key(x), key(a[j]), dir)
  {
    j := i + 1;
    while j < a.Length && !Before(key(x), key(a[j]), dir)
      invariant i + 1 <= j <= a.Length
      invariant forall q :: 0 <= q < i ==> a[q] == old(a[q])
      invariant forall q :: i <= q < j - 1 ==> a[q] == old(a[q + 1])
      invariant forall q :: j <= q < a.Length ==> a[q] == old(a[q])
      invariant forall q :: i + 1 <= q < j ==> !Before(key(x), key(old(a[q])), dir)
    {
      a[j - 1] := a[j];
      j := j + 1;
    }
  }

  /** The array after a slide, read back as slices. */
  lemma SlideResult<T>(after: seq<T>, before: seq<T>, i: nat, m: nat, x: T)
    requires |after| == |before| && i + m < |after|
    requires forall q :: 0 <= q < i ==> after[q] == before[q]
    requires forall q :: i <= q < i + m ==> after[q] == before[q + 1]
    requires after[i + m] == x
    requires forall q :: i + m < q < |after| ==> after[q] == before[q]
    ensures after[..i] == before[..i]
    ensures after[i..] == before[i + 1..][..m] + [x] + before[i + 1..][m..]
  {
    var t := before[i + 1..];
    var want := t[..m] + [x] + t[m..];
    assert |after[i..]| == |want|;
    forall k | 0 <= k < |want|
      ensures after[i..][k] == want[k]
    {
      if k < m {
        assert want[k] == t[k];
      } else if k == m {
        assert want[k] == x;
      } else {
        assert want[k] == t[k - 1];
      }
    }
  }

  /** `array.sort(comparator)` in place: an insertion sort from the right. */
  method SortInPlace<T>(a: array<T>, key: T -> Key, dir: Direction)
    modifies a
    ensures a[..] == Sort(old(a[..]), key, dir)
  {
    ghost var s := a[..];
    var i := a.Length;
    while i > 0
      invariant 0 <= i <= a.Length
      invariant a[..i] == s[..i]
      invariant a[i..] == Sort(s[i..], key, dir)
    {
      i := i - 1;
      assert a[i] == s[i];
      assert s[i..][1..] == s[i + 1..];
      InsertStep(a, i, key, dir);
      assert s[..i + 1][..i] == s[..i];
    }
    assert s[0..] == s;
    assert a[0..] == a[..];
  }

  /** `[...xs].sort(comparator)`: sort a copy, leaving the input alone. */
  method SortedCopy<T>(xs: seq<T>, key: T -> Key, dir: Direction) returns (r: seq<T>)
    ensures r == Sort(xs, key, dir)
    ensures SortedBy(r, key, dir) && multiset(r) == multiset(xs)
  {
    var a := new T[|xs|](k requires 0 <= k < |xs| => xs[k]);
    assert a[..] == xs;
    SortInPlace(a, key, dir);
    r := a[..];
    SortSorted(xs, key, dir);
  }
}
