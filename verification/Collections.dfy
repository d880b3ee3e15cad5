/** Ordered views of maps and sequences: what `std::map` iteration and `std::sort` provide. */
module Collections {
  import opened Wrappers

  // ------------------------------------------------------------ ordered map keys

  /** A non-empty set of naturals has a least element. */
  lemma {:induction false} LeastExists(s: set<nat>)
    requires s != {}
    ensures exists k :: IsLeast(k, s)
    decreases |s|
  {
    var x :| x in s;
    assert forall j | j in s :: j == x || j in s - {x};
    if s - {x} == {} {
      assert IsLeast(x, s);
    } else {
      LeastExists(s - {x});
      var k :| IsLeast(k, s - {x});
      assert IsLeast(if x < k then x else k, s);
    }
  }

  ghost predicate IsLeast(k: nat, s: set<nat>) {
    k in s && forall j | j in s :: k <= j
  }

  function Least(s: set<nat>): (k: nat)
    requires s != {}
    ensures k in s && forall j | j in s :: k <= j
  {
    LeastExists(s);
    var k :| k in s && forall j | j in s :: k <= j;
    k
  }

  ghost predicate IsLowerBound<V>(m: map<nat, V>, p: nat, r: Option<nat>) {
    match r
    case Some(k) => k in m && p <= k && forall j | j in m && p <= j :: k <= j
    case None => forall j | j in m :: j < p
  }

  /** `std::map::lower_bound`: the least key that is not below `p`. */
  method LowerBound<V>(m: map<nat, V>, p: nat) returns (r: Option<nat>)
    ensures IsLowerBound(m, p, r)
  {
    var above := set k | k in m && p <= k;
    assert forall j | j in m && p <= j :: j in above;
    r := if above == {} then None else Some(Least(above));
  }

  ghost predicate Ascending(s: seq<nat>) {
    forall i, j | 0 <= i < j < |s| :: s[i] < s[j]
  }

  lemma {:induction false} AscendingMore(s: seq<nat>, next: nat)
    requires Ascending(s) && forall k | k in s :: k < next
    ensures Ascending(s + [next])
  {
    assert forall i | 0 <= i < |s| :: s[i] in s;
  }

  /** The keys in iteration order. */
  function SortedKeys(s: set<nat>): (r: seq<nat>)
    ensures Ascending(r)
    ensures forall k :: k in r <==> k in s
    ensures |r| == |s|
    decreases |s|
  {
    if s == {} then []
    else
      var k := Least(s);
      [k] + SortedKeys(s - {k})
  }

  /** An ascending sequence is determined by its elements. */
  lemma {:induction false} AscendingUnique(a: seq<nat>, b: seq<nat>)
    requires Ascending(a) && Ascending(b)
    requires forall k :: k in a <==> k in b
    ensures a == b
    decreases |a|
  {
    assert b != [] ==> b[0] in b;
    if a != [] {
      assert a[0] in a;
      assert a[0] == b[0];
      forall k ensures k in a[1..] <==> k in b[1..] {
        assert k in a <==> k == a[0] || k in a[1..];
        assert k in b <==> k == b[0] || k in b[1..];
      }
      AscendingUnique(a[1..], b[1..]);
      assert a == [a[0]] + a[1..] && b == [b[0]] + b[1..];
    }
  }

  // --------------------------------------------------------------------- sorting

  ghost predicate SortedBy<T>(s: seq<T>, key: T -> int) {
    |s| < 2 || (key(s[0]) <= key(s[1]) && SortedBy(s[1..], key))
  }

  lemma {:induction false} SortedByAt<T>(s: seq<T>, key: T -> int, i: nat, j: nat)
    requires SortedBy(s, key) && i <= j < |s|
    ensures key(s[i]) <= key(s[j])
    decreases j
  {
    if i > 0 {
      SortedByAt(s[1..], key, i - 1, j - 1);
    } else if j > 0 {
      SortedByAt(s[1..], key, 0, j - 1);
    }
  }

  lemma {:induction false} NoneSorted<T>(key: T -> int)
    ensures SortedBy([], key)
  {
  }

  function InsertBy<T>(s: seq<T>, x: T, key: T -> int): seq<T> {
    if s == [] || key(x) < key(s[0]) then [x] + s else [s[0]] + InsertBy(s[1..], x, key)
  }

  lemma {:induction false} InsertBySorted<T>(s: seq<T>, x: T, key: T -> int)
    requires SortedBy(s, key)
    ensures SortedBy(InsertBy(s, x, key), key)
    decreases |s|
  {
    if s != [] && key(s[0]) <= key(x) {
      InsertBySorted(s[1..], x, key);
      assert InsertBy(s, x, key)[1..] == InsertBy(s[1..], x, key);
    } else {
      assert ([x] + s)[1..] == s;
    }
  }

  lemma {:induction false} InsertByContents<T>(s: seq<T>, x: T, key: T -> int)
    ensures multiset(InsertBy(s, x, key)) == multiset(s) + multiset{x}
    decreases |s|
  {
    if s != [] && key(s[0]) <= key(x) {
      InsertByContents(s[1..], x, key);
      assert s == [s[0]] + s[1..];
    }
  }

  /** `std::sort` by an integer key: sorted, and the same elements. */
  method SortBy<T>(s: seq<T>, key: T -> int) returns (r: seq<T>)
    ensures SortedBy(r, key)
    ensures multiset(r) == multiset(s)
  {
    hide SortedBy;
    hide InsertBy;
    r := [];
    assert SortedBy(r, key) by { NoneSorted(key); }
    for i := 0 to |s|
      invariant SortedBy(r, key)
      invariant multiset(r) == multiset(s[..i])
    {
      InsertBySorted(r, s[i], key);
      InsertByContents(r, s[i], key);
      assert s[..i + 1] == s[..i] + [s[i]];
      r := InsertBy(r, s[i], key);
    }
    assert s[..|s|] == s;
  }

  // ------------------------------------------------------------------ repeated elements

  lemma {:induction false} Twice<T>(s: seq<T>, i: nat, j: nat)
    requires i < j < |s| && s[i] == s[j]
    ensures multiset(s)[s[i]] > 1
  {
    var front, back := s[..j], s[j..];
    assert s == front + back;
    assert front[i] == s[i] && back[0] == s[i];
    assert multiset(s) == multiset(front) + multiset(back);
    assert s[i] in multiset(front) && s[i] in multiset(back);
  }

  lemma {:induction false} TwicePlaces<T>(s: seq<T>, x: T)
    requires multiset(s)[x] > 1
    ensures exists i, j :: 0 <= i < j < |s| && s[i] == x && s[j] == x
    decreases |s|
  {
    var n := |s| - 1;
    assert s == s[..n] + [s[n]];
    if s[n] == x {
      assert x in multiset(s[..n]);
      var i :| 0 <= i < n && s[..n][i] == x;
      assert s[i] == x;
    } else {
      TwicePlaces(s[..n], x);
    }
  }

  /** Leaving out one place leaves out one element. */
  lemma {:induction false} LeftOut<T>(s: seq<T>, j: nat)
    requires j < |s|
    ensures multiset(s) == multiset(s[..j] + s[j + 1..]) + multiset{s[j]}
  {
    assert s == s[..j] + [s[j]] + s[j + 1..];
  }

  /** The first element of one order, found and left out in another one. */
  lemma {:induction false} FirstElsewhere<T>(a: seq<T>, b: seq<T>) returns (j: nat)
    requires multiset(a) == multiset(b) && a != []
    ensures j < |b| && b[j] == a[0] && multiset(a[1..]) == multiset(b[..j] + b[j + 1..])
  {
    assert a[0] in multiset(b);
    j :| 0 <= j < |b| && b[j] == a[0];
    LeftOut(b, j);
    assert a == [a[0]] + a[1..];
    assert multiset(a[1..]) == multiset(a) - multiset{a[0]};
  }

  /** What goes with the elements is reordered as they are. */
  lemma {:induction false} ImagesReordered<S, T>(a: seq<S>, b: seq<S>, c: seq<T>, d: seq<T>)
    requires multiset(a) == multiset(b) && |a| == |c| && |b| == |d|
    requires forall i, j | 0 <= i < |a| && 0 <= j < |b| && a[i] == b[j] :: c[i] == d[j]
    ensures multiset(c) == multiset(d)
    decreases |a|
  {
    if a == [] {
      assert |b| == |multiset(b)| == |multiset(a)| == 0;
    } else {
      var j := FirstElsewhere(a, b);
      ImagesReordered(a[1..], b[..j] + b[j + 1..], c[1..], d[..j] + d[j + 1..]);
      LeftOut(d, j);
      assert c == [c[0]] + c[1..];
    }
  }

  lemma {:induction false} SameFront<T>(a: seq<T>, b: seq<T>, rest: seq<T>)
    ensures a + rest == b + rest ==> a == b
  {
    if a + rest == b + rest {
      assert |a| == |b|;
      assert a == (a + rest)[..|a|] && b == (b + rest)[..|b|];
    }
  }

  // ------------------------------------------------------------------ sorted permutations

  ghost predicate NonDecreasing(s: seq<nat>) {
    forall i, j | 0 <= i < j < |s| :: s[i] <= s[j]
  }

  lemma {:induction false} Cancel<T>(x: multiset<T>, y: multiset<T>, e: T)
    requires x + multiset{e} == y + multiset{e}
    ensures x == y
  {
    forall k ensures x[k] == y[k] {
      assert (x + multiset{e})[k] == (y + multiset{e})[k];
    }
  }

  lemma {:induction false} SortedLast(a: seq<nat>, b: seq<nat>)
    requires NonDecreasing(a) && multiset(a) == multiset(b) && a != [] && b != []
    ensures b[|b| - 1] <= a[|a| - 1]
  {
    assert b[|b| - 1] in multiset(a);
    assert b[|b| - 1] in a;
  }

  /** There is one way to sort. */
  lemma {:induction false} SortedUnique(a: seq<nat>, b: seq<nat>)
    requires NonDecreasing(a) && NonDecreasing(b) && multiset(a) == multiset(b)
    ensures a == b
    decreases |a|
  {
    assert |a| == |multiset(a)| == |multiset(b)| == |b|;
    if a != [] {
      var n := |a| - 1;
      SortedLast(a, b);
      SortedLast(b, a);
      hide NonDecreasing;
      assert a == a[..n] + [a[n]] && b == b[..n] + [b[n]];
      Cancel(multiset(a[..n]), multiset(b[..n]), a[n]);
      SortedShorter(a);
      SortedShorter(b);
      SortedUnique(a[..n], b[..n]);
    }
  }

  lemma {:induction false} SortedShorter(a: seq<nat>)
    requires NonDecreasing(a) && a != []
    ensures NonDecreasing(a[..|a| - 1])
  {
  }
}
