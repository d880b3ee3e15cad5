/**
 The joining interval map in which the region allocator keeps its free ranges: a sorted
 sequence of right-open segments, each with the number of times it was added. Adding a range
 raises the count of every covered point by one, and touching segments of equal count are
 merged.
*/
module IntervalMap {
  datatype Seg = Seg(lo: nat, hi: nat, count: nat)
  {
    ghost predicate Contains(p: int) { lo <= p < hi }
    function Length(): int { hi - lo }
  }

  /** Non-empty segments in ascending order, none overlapping the next. */
  ghost predicate Ordered(s: seq<Seg>) {
    s == [] || (
      && s[0].lo < s[0].hi
      && s[0].count > 0
      && (|s| > 1 ==> s[0].hi <= s[1].lo)
      && Ordered(s[1..]))
  }

  /** No two neighbours could be merged. */
  ghost predicate Joined(s: seq<Seg>) {
    |s| < 2 || (
      && !(s[0].hi == s[1].lo && s[0].count == s[1].count)
      && Joined(s[1..]))
  }

  ghost predicate Canonical(s: seq<Seg>) {
    Ordered(s) && Joined(s)
  }

  /** Every covered point was added once. */
  ghost predicate Single(s: seq<Seg>) {
    forall i | 0 <= i < |s| :: s[i].count == 1
  }

  /** How many times the point `p` was added: the meaning of the map. */
  ghost function CountAt(s: seq<Seg>, p: int): nat {
    if s == [] then 0 else (if s[0].Contains(p) then s[0].count else 0) + CountAt(s[1..], p)
  }

  /** Bytes covered by the segments. */
  ghost function Total(s: seq<Seg>): int {
    if s == [] then 0 else s[0].Length() + Total(s[1..])
  }

  /** Splits segments at the ends of [lo, hi) and raises the counts inside it. */
  function Raise(s: seq<Seg>, lo: nat, hi: nat): seq<Seg>
    decreases |s|, if s == [] || lo == s[0].lo then 0 else 1, hi - lo
  {
    if hi <= lo then s
    else if s == [] then [Seg(lo, hi, 1)]
    else
      var h := s[0];
      if h.hi <= lo then [h] + Raise(s[1..], lo, hi)
      else if hi <= h.lo then [Seg(lo, hi, 1)] + s
      else if lo < h.lo then [Seg(lo, h.lo, 1)] + Raise(s, h.lo, hi)
      else if h.lo < lo then [Seg(h.lo, lo, h.count)] + Raise([Seg(lo, h.hi, h.count)] + s[1..], lo, hi)
      else if hi < h.hi then [Seg(lo, hi, h.count + 1), Seg(hi, h.hi, h.count)] + s[1..]
      else [Seg(lo, h.hi, h.count + 1)] + Raise(s[1..], h.hi, hi)
  }

  /** Merges touching neighbours of equal count. */
  function Join(s: seq<Seg>): seq<Seg>
    decreases |s|
  {
    if |s| < 2 then s
    else if s[0].hi == s[1].lo && s[0].count == s[1].count then
      Join([Seg(s[0].lo, s[1].hi, s[0].count)] + s[2..])
    else [s[0]] + Join(s[1..])
  }

  /** The map after adding the range [lo, hi) one more time. */
  function Add(s: seq<Seg>, lo: nat, hi: nat): seq<Seg> {
    Join(Raise(s, lo, hi))
  }

  // ---------------------------------------------------------------- ordering

  lemma {:induction false} ConsTail<T>(h: T, t: seq<T>)
    ensures ([h] + t)[1..] == t
  {
  }

  lemma {:induction false} OrderedCons(h: Seg, t: seq<Seg>)
    requires h.lo < h.hi && h.count > 0
    requires Ordered(t) && (t != [] ==> h.hi <= t[0].lo)
    ensures Ordered([h] + t)
  {
    ConsTail(h, t);
  }

  lemma {:induction false} RaiseOrdered(s: seq<Seg>, lo: nat, hi: nat)
    requires Ordered(s)
    ensures Ordered(Raise(s, lo, hi))
    ensures lo < hi ==> Raise(s, lo, hi) != []
    ensures lo < hi ==> Raise(s, lo, hi)[0].lo == if s != [] && s[0].lo < lo then s[0].lo else lo
    decreases |s|, if s == [] || lo == s[0].lo then 0 else 1, hi - lo
  {
    if lo < hi && s != [] {
      var h := s[0];
      if h.hi <= lo {
        RaiseOrdered(s[1..], lo, hi);
        OrderedCons(h, Raise(s[1..], lo, hi));
      } else if hi <= h.lo {
        OrderedCons(Seg(lo, hi, 1), s);
      } else if lo < h.lo {
        RaiseOrdered(s, h.lo, hi);
        OrderedCons(Seg(lo, h.lo, 1), Raise(s, h.lo, hi));
      } else if h.lo < lo {
        var t := [Seg(lo, h.hi, h.count)] + s[1..];
        OrderedCons(t[0], s[1..]);
        RaiseOrdered(t, lo, hi);
        OrderedCons(Seg(h.lo, lo, h.count), Raise(t, lo, hi));
      } else if hi < h.hi {
        OrderedCons(Seg(hi, h.hi, h.count), s[1..]);
        OrderedCons(Seg(lo, hi, h.count + 1), [Seg(hi, h.hi, h.count)] + s[1..]);
        assert [Seg(lo, hi, h.count + 1)] + ([Seg(hi, h.hi, h.count)] + s[1..]) == Raise(s, lo, hi);
      } else {
        RaiseOrdered(s[1..], h.hi, hi);
        OrderedCons(Seg(lo, h.hi, h.count + 1), Raise(s[1..], h.hi, hi));
      }
    }
  }

  lemma {:induction false} JoinCanonical(s: seq<Seg>)
    requires Ordered(s)
    ensures Canonical(Join(s))
    ensures s != [] ==> Join(s) != [] && Join(s)[0].lo == s[0].lo && Join(s)[0].count == s[0].count
    decreases |s|
  {
    if |s| >= 2 {
      if s[0].hi == s[1].lo && s[0].count == s[1].count {
        assert s[1..][1..] == s[2..];
        OrderedCons(Seg(s[0].lo, s[1].hi, s[0].count), s[2..]);
        JoinCanonical([Seg(s[0].lo, s[1].hi, s[0].count)] + s[2..]);
      } else {
        JoinCanonical(s[1..]);
        OrderedCons(s[0], Join(s[1..]));
        ConsTail(s[0], Join(s[1..]));
      }
    }
  }

  // ----------------------------------------------------------------- counting

  lemma {:induction false} CountAtCons(h: Seg, t: seq<Seg>, p: int)
    ensures CountAt([], p) == 0
    ensures CountAt([h] + t, p) == (if h.Contains(p) then h.count else 0) + CountAt(t, p)
  {
    ConsTail(h, t);
  }

  lemma {:induction false} RaiseCount(s: seq<Seg>, lo: nat, hi: nat, p: int)
    requires Ordered(s)
    ensures CountAt(Raise(s, lo, hi), p) == CountAt(s, p) + if lo <= p < hi then 1 else 0
    decreases |s|, if s == [] || lo == s[0].lo then 0 else 1, hi - lo
  {
    hide CountAt;
    CountAtCons(Seg(lo, hi, 1), [], p);
    if s == [] && lo < hi {
      assert [Seg(lo, hi, 1)] + [] == [Seg(lo, hi, 1)];
    }
    if lo < hi && s != [] {
      var h := s[0];
      assert s == [h] + s[1..];
      CountAtCons(h, s[1..], p);
      if h.hi <= lo {
        RaiseCount(s[1..], lo, hi, p);
        CountAtCons(h, Raise(s[1..], lo, hi), p);
      } else if hi <= h.lo {
        CountAtCons(Seg(lo, hi, 1), s, p);
      } else if lo < h.lo {
        RaiseCount(s, h.lo, hi, p);
        CountAtCons(Seg(lo, h.lo, 1), Raise(s, h.lo, hi), p);
      } else if h.lo < lo {
        var t := [Seg(lo, h.hi, h.count)] + s[1..];
        OrderedCons(t[0], s[1..]);
        RaiseCount(t, lo, hi, p);
        CountAtCons(t[0], s[1..], p);
        CountAtCons(Seg(h.lo, lo, h.count), Raise(t, lo, hi), p);
      } else if hi < h.hi {
        var t := [Seg(hi, h.hi, h.count)] + s[1..];
        CountAtCons(t[0], s[1..], p);
        CountAtCons(Seg(lo, hi, h.count + 1), t, p);
        assert [Seg(lo, hi, h.count + 1)] + t == Raise(s, lo, hi);
      } else {
        RaiseCount(s[1..], h.hi, hi, p);
        CountAtCons(Seg(lo, h.hi, h.count + 1), Raise(s[1..], h.hi, hi), p);
      }
    }
  }

  lemma {:induction false} JoinCount(s: seq<Seg>, p: int)
    requires Ordered(s)
    ensures CountAt(Join(s), p) == CountAt(s, p)
    decreases |s|
  {
    if |s| >= 2 {
      if s[0].hi == s[1].lo && s[0].count == s[1].count {
        var m := Seg(s[0].lo, s[1].hi, s[0].count);
        assert s[1..][1..] == s[2..];
        OrderedCons(m, s[2..]);
        CountAtCons(m, s[2..], p);
        JoinCount([m] + s[2..], p);
      } else {
        JoinCount(s[1..], p);
        CountAtCons(s[0], Join(s[1..]), p);
      }
    }
  }

  /** Adding a range is exactly: one more count for each of its points, and canonical again. */
  lemma {:induction false} AddMeaning(s: seq<Seg>, lo: nat, hi: nat)
    requires Ordered(s)
    ensures Canonical(Add(s, lo, hi))
    ensures forall p: int :: CountAt(Add(s, lo, hi), p) == CountAt(s, p) + if lo <= p < hi then 1 else 0
  {
    RaiseOrdered(s, lo, hi);
    JoinCanonical(Raise(s, lo, hi));
    forall p: int
      ensures CountAt(Add(s, lo, hi), p) == CountAt(s, p) + if lo <= p < hi then 1 else 0
    {
      RaiseCount(s, lo, hi, p);
      JoinCount(Raise(s, lo, hi), p);
    }
  }

  /** Nothing is counted before the first segment, and its own points count at least its count. */
  lemma {:induction false} CountBefore(s: seq<Seg>, p: int)
    requires Ordered(s)
    requires s != [] ==> p < s[0].lo
    ensures CountAt(s, p) == 0
    decreases |s|
  {
    if s != [] { CountBefore(s[1..], p); }
  }

  /** In an ordered map a point of segment `i` has that segment's count. */
  lemma {:induction false} CountInside(s: seq<Seg>, i: nat, p: int)
    requires Ordered(s) && i < |s| && s[i].Contains(p)
    ensures CountAt(s, p) == s[i].count > 0
    ensures s[0].lo <= p
    decreases i
  {
    if i == 0 {
      CountBefore(s[1..], p);
    } else {
      CountInside(s[1..], i - 1, p);
    }
  }

  /** A counted point lies in one of the segments. */
  lemma {:induction false} FindSegment(s: seq<Seg>, p: int) returns (i: nat)
    requires CountAt(s, p) > 0
    ensures i < |s| && s[i].Contains(p)
  {
    if s[0].Contains(p) {
      i := 0;
    } else {
      i := FindSegment(s[1..], p);
      i := i + 1;
    }
  }

  /**
   A canonical map is determined by its counts, so the order in which ranges are added, and
   the way they are batched, cannot be seen in the result.
  */
  lemma {:induction false} CanonicalUnique(a: seq<Seg>, b: seq<Seg>)
    requires Canonical(a) && Canonical(b)
    requires forall p: int :: CountAt(a, p) == CountAt(b, p)
    ensures a == b
    decreases |a|
  {
    var first := if a != [] then a[0].lo else if b != [] then b[0].lo else 0;
    assert CountAt(a, first) == CountAt(b, first);
    if a != [] && b != [] {
      FirstLo(a, b);
      FirstLo(b, a);
      CountInside(a, 0, a[0].lo);
      CountInside(b, 0, a[0].lo);
      assert CountAt(a, a[0].lo) == CountAt(b, a[0].lo);
      FirstHi(a, b);
      FirstHi(b, a);
      forall p: int ensures CountAt(a[1..], p) == CountAt(b[1..], p) {
        assert CountAt(a, p) == CountAt(b, p);
      }
      CanonicalUnique(a[1..], b[1..]);
    }
  }

  lemma {:induction false} FirstLo(a: seq<Seg>, b: seq<Seg>)
    requires Ordered(a) && Ordered(b) && a != [] && b != []
    requires forall p: int :: CountAt(a, p) == CountAt(b, p)
    ensures a[0].lo <= b[0].lo
  {
    if b[0].lo < a[0].lo {
      assert CountAt(a, b[0].lo) == CountAt(b, b[0].lo);
      CountInside(b, 0, b[0].lo);
      CountBefore(a, b[0].lo);
    }
  }

  lemma {:induction false} FirstHi(a: seq<Seg>, b: seq<Seg>)
    requires Canonical(a) && Canonical(b) && a != [] && b != []
    requires a[0].lo == b[0].lo && a[0].count == b[0].count
    requires forall p: int :: CountAt(a, p) == CountAt(b, p)
    ensures b[0].hi <= a[0].hi
  {
    var p := a[0].hi;
    if p < b[0].hi {
      CountInside(b, 0, p);
      assert CountAt(a, p) == CountAt(b, p);
      if |a| > 1 && a[1].lo == p {
        assert Ordered(a[1..]) && a[1..][0].lo < a[1..][0].hi;
        CountInside(a, 1, p);
      } else {
        CountBefore(a[1..], p);
      }
    }
  }

  // ------------------------------------------------------ ranges added only once

  /** Segment order by index. */
  lemma {:induction false} OrderedAt(s: seq<Seg>, i: nat, j: nat)
    requires Ordered(s) && i < j < |s|
    ensures s[i].lo < s[i].hi <= s[j].lo < s[j].hi
    decreases j
  {
    if i > 0 {
      OrderedAt(s[1..], i - 1, j - 1);
    } else if j == 1 {
      assert Ordered(s[1..]);
    } else {
      OrderedAt(s[1..], 0, j - 1);
      assert s[1..][0] == s[1];
    }
  }

  lemma {:induction false} OrderedSegment(s: seq<Seg>, i: nat)
    requires Ordered(s) && i < |s|
    ensures s[i].lo < s[i].hi && s[i].count > 0
    decreases i
  {
    if i > 0 { OrderedSegment(s[1..], i - 1); }
  }

  lemma {:induction false} SingleFromCounts(s: seq<Seg>)
    requires Ordered(s)
    requires forall p: int :: CountAt(s, p) <= 1
    ensures Single(s)
  {
    forall i | 0 <= i < |s| ensures s[i].count == 1 {
      OrderedSegment(s, i);
      CountInside(s, i, s[i].lo);
      assert CountAt(s, s[i].lo) <= 1;
    }
  }

  lemma {:induction false} TotalCons(h: Seg, t: seq<Seg>)
    ensures Total([h] + t) == h.Length() + Total(t)
  {
    ConsTail(h, t);
  }

  lemma {:induction false} RaiseTotal(s: seq<Seg>, lo: nat, hi: nat)
    requires Ordered(s) && lo <= hi
    requires forall p: int | lo <= p < hi :: CountAt(s, p) == 0
    ensures Total(Raise(s, lo, hi)) == Total(s) + hi - lo
    decreases |s|
  {
    if lo < hi && s != [] {
      var h := s[0];
      var q := if lo < h.lo then h.lo else lo;
      assert q < hi ==> CountAt(s, q) == 0;
      if h.hi <= lo {
        forall p: int | lo <= p < hi ensures CountAt(s[1..], p) == 0 {
          assert CountAt(s, p) == 0;
        }
        RaiseTotal(s[1..], lo, hi);
        TotalCons(h, Raise(s[1..], lo, hi));
      } else if hi <= h.lo {
        TotalCons(Seg(lo, hi, 1), s);
      }
    }
  }

  lemma {:induction false} JoinTotal(s: seq<Seg>)
    ensures Total(Join(s)) == Total(s)
    decreases |s|
  {
    if |s| >= 2 {
      if s[0].hi == s[1].lo && s[0].count == s[1].count {
        var m := Seg(s[0].lo, s[1].hi, s[0].count);
        assert s[1..][1..] == s[2..];
        TotalCons(m, s[2..]);
        JoinTotal([m] + s[2..]);
      } else {
        JoinTotal(s[1..]);
        TotalCons(s[0], Join(s[1..]));
      }
    }
  }

  /** A range disjoint from everything held adds exactly its own length. */
  lemma {:induction false} AddTotal(s: seq<Seg>, lo: nat, hi: nat)
    requires Ordered(s) && lo <= hi
    requires forall p: int | lo <= p < hi :: CountAt(s, p) == 0
    ensures Total(Add(s, lo, hi)) == Total(s) + hi - lo
  {
    RaiseTotal(s, lo, hi);
    JoinTotal(Raise(s, lo, hi));
  }

  /** A run of points added once lies inside a single segment: neighbours have been merged. */
  lemma {:induction false} RunInOneSegment(s: seq<Seg>, lo: nat, hi: nat) returns (i: nat)
    requires Canonical(s) && Single(s) && lo < hi
    requires forall p: int | lo <= p < hi :: CountAt(s, p) > 0
    ensures i < |s| && s[i].lo <= lo && hi <= s[i].hi
  {
    assert CountAt(s, lo) > 0;
    i := FindSegment(s, lo);
    var e := s[i].hi;
    if e < hi {
      assert CountAt(s, e) > 0;
      var j := FindSegment(s, e);
      NextSegment(s, i, j);
    }
  }

  /** In a canonical map no segment contains the end of another that has the same count. */
  lemma {:induction false} NextSegment(s: seq<Seg>, i: nat, j: nat)
    requires Canonical(s) && i < |s| && j < |s| && s[j].Contains(s[i].hi)
    ensures s[i].count != s[j].count
    decreases |s|
  {
    OrderedSegment(s, i);
    if j < i {
      OrderedAt(s, j, i);
    } else if i < j {
      OrderedAt(s, i, j);
      if i > 0 {
        NextSegment(s[1..], i - 1, j - 1);
      } else if j > 1 {
        OrderedAt(s, 0, 1);
        OrderedAt(s, 1, j);
      }
    }
  }

  // -------------------------------------------------------------------- removal

  function Remove(s: seq<Seg>, i: nat): seq<Seg>
    requires i < |s|
  {
    s[..i] + s[i + 1..]
  }

  /** Erasing one segment takes away exactly its points. */
  lemma {:induction false} RemoveMeaning(s: seq<Seg>, i: nat)
    requires Canonical(s) && i < |s|
    ensures Canonical(Remove(s, i))
    ensures Remove(s, i) != [] ==> Remove(s, i)[0].lo >= s[0].lo
    ensures Total(Remove(s, i)) == Total(s) - s[i].Length()
    ensures forall p: int :: CountAt(Remove(s, i), p) == if s[i].Contains(p) then 0 else CountAt(s, p)
    decreases |s|
  {
    if i == 0 {
      assert Remove(s, 0) == s[1..];
      if |s| > 1 { OrderedAt(s, 0, 1); }
      forall p: int ensures CountAt(s[1..], p) == if s[0].Contains(p) then 0 else CountAt(s, p) {
        if s[0].Contains(p) { CountBefore(s[1..], p); }
      }
    } else {
      var t := Remove(s[1..], i - 1);
      RemoveMeaning(s[1..], i - 1);
      assert Remove(s, i) == [s[0]] + t;
      RemoveKeepsOrder(s, i);
      forall p: int
        ensures CountAt(Remove(s, i), p) == if s[i].Contains(p) then 0 else CountAt(s, p)
      {
        CountAtCons(s[0], t, p);
        OrderedAt(s, 0, i);
        assert CountAt(t, p) == if s[1..][i - 1].Contains(p) then 0 else CountAt(s[1..], p);
      }
      TotalCons(s[0], t);
    }
  }

  lemma {:induction false} RemoveKeepsOrder(s: seq<Seg>, i: nat)
    requires Canonical(s) && 0 < i < |s|
    requires Canonical(Remove(s[1..], i - 1))
    ensures Canonical(Remove(s, i))
  {
    var t := Remove(s[1..], i - 1);
    assert Remove(s, i) == [s[0]] + t;
    ConsTail(s[0], t);
    if t != [] {
      if i == 1 {
        assert t[0] == s[2];
        OrderedAt(s, 0, 1);
        OrderedAt(s, 1, 2);
      } else {
        assert t[0] == s[1];
      }
    }
  }
}
