/**
 The address-space side of the region allocator, as a value: the working extent, the free
 ranges and the live blocks of one segment, and what it means that they share it out exactly.
*/
module RegionSpace {
  import opened IntervalMap

  datatype AllocStrategy = FindLongest | FindFirst

  datatype Block = Block(lo: nat, hi: nat)
  {
    ghost predicate Contains(p: int) { lo <= p < hi }
  }

  /** `live` holds the blocks handed out; [start, start + length) is the working extent. */
  datatype Space = Space(base: nat, size: nat, start: nat, length: nat, ranges: seq<Seg>, live: set<Block>)

  /** Non-empty blocks, no two of which overlap. */
  ghost predicate Apart(live: set<Block>) {
    && (forall b {:trigger b in live} | b in live :: b.lo < b.hi)
    && (forall b, c {:trigger b in live, c in live} | b in live && c in live && b != c :: b.hi <= c.lo || c.hi <= b.lo)
  }

  ghost predicate LiveAt(live: set<Block>, p: int) {
    exists b :: b in live && b.Contains(p)
  }

  ghost function One(c: bool): int { if c then 1 else 0 }

  /** How many of the three parts claim the point `p`. */
  ghost function Claims(x: Space, p: int): int {
    CountAt(x.ranges, p) + One(x.start <= p < x.start + x.length) + One(LiveAt(x.live, p))
  }

  /**
   Every address of the segment is in exactly one place - a live block, the extent or a free
   range - and nothing lies outside. The addresses in [lo, hi) are the exception: they are in
   the hands of a caller.
  */
  ghost predicate PartitionBut(x: Space, lo: int, hi: int) {
    && Canonical(x.ranges)
    && Apart(x.live)
    && (forall p: int :: Claims(x, p) == One(x.base <= p < x.base + x.size && !(lo <= p < hi)))
  }

  ghost predicate Partition(x: Space) {
    PartitionBut(x, 0, 0)
  }

  /** [q, q + k) lies in the segment and no live block reaches into it. */
  ghost predicate FreeRun(x: Space, q: int, k: int) {
    && x.base <= q && q + k <= x.base + x.size
    && forall p: int | q <= p < q + k :: !LiveAt(x.live, p)
  }

  ghost predicate HasRun(x: Space, k: int) {
    exists q: int :: FreeRun(x, q, k)
  }

  // ------------------------------------------------------------------ alignment

  ghost predicate MultipleOf(n: nat, align: nat)
    requires align > 0
  {
    n == 0 || (n >= align && MultipleOf(n - align, align))
  }

  function AlignUp(size: nat, align: nat): (r: nat)
    requires align > 0
    ensures MultipleOf(r, align)
    ensures size <= r < size + align
  {
    AlignUpFacts(size, align);
    (size + align - 1) / align * align
  }

  lemma {:induction false} AlignUpFacts(size: nat, align: nat)
    requires align > 0
    ensures MultipleOf((size + align - 1) / align * align, align)
    ensures size <= (size + align - 1) / align * align < size + align
  {
    var n := size + align - 1;
    assert n == n / align * align + n % align;
    ProductIsMultiple(n / align, align);
  }

  lemma {:induction false} ProductIsMultiple(k: nat, align: nat)
    requires align > 0
    ensures MultipleOf(k * align, align)
    decreases k
  {
    if k > 0 {
      assert k * align - align == (k - 1) * align;
      assert k * align >= align;
      ProductIsMultiple(k - 1, align);
    }
  }

  lemma {:induction false} SumAligned(a: nat, b: nat, align: nat)
    requires align > 0 && MultipleOf(a, align) && MultipleOf(b, align)
    ensures MultipleOf(a + b, align)
    decreases a
  {
    if a > 0 { SumAligned(a - align, b, align); }
  }

  lemma {:induction false} DifferenceAligned(a: nat, b: nat, align: nat)
    requires align > 0 && MultipleOf(a, align) && MultipleOf(b, align) && b <= a
    ensures MultipleOf(a - b, align)
    decreases b
  {
    if b > 0 { DifferenceAligned(a - align, b - align, align); }
  }

  ghost predicate Aligned(s: seq<Seg>, align: nat)
    requires align > 0
  {
    forall i | 0 <= i < |s| :: MultipleOf(s[i].lo, align) && MultipleOf(s[i].hi, align)
  }

  lemma {:induction false} RaiseAligned(s: seq<Seg>, lo: nat, hi: nat, align: nat)
    requires align > 0 && Aligned(s, align) && MultipleOf(lo, align) && MultipleOf(hi, align)
    ensures Aligned(Raise(s, lo, hi), align)
    decreases |s|, if s == [] || lo == s[0].lo then 0 else 1, hi - lo
  {
    if lo < hi && s != [] {
      var h := s[0];
      if h.hi <= lo {
        RaiseAligned(s[1..], lo, hi, align);
      } else if lo < h.lo < hi {
        RaiseAligned(s, h.lo, hi, align);
      } else if h.lo < lo {
        RaiseAligned([Seg(lo, h.hi, h.count)] + s[1..], lo, hi, align);
      } else if h.hi <= hi {
        RaiseAligned(s[1..], h.hi, hi, align);
      }
    }
  }

  lemma {:induction false} JoinAligned(s: seq<Seg>, align: nat)
    requires align > 0 && Aligned(s, align)
    ensures Aligned(Join(s), align)
    decreases |s|
  {
    if |s| >= 2 {
      if s[0].hi == s[1].lo && s[0].count == s[1].count {
        JoinAligned([Seg(s[0].lo, s[1].hi, s[0].count)] + s[2..], align);
      } else {
        JoinAligned(s[1..], align);
      }
    }
  }

  lemma {:induction false} AddAligned(s: seq<Seg>, lo: nat, hi: nat, align: nat)
    requires align > 0 && Aligned(s, align) && MultipleOf(lo, align) && MultipleOf(hi, align)
    ensures Aligned(Add(s, lo, hi), align)
  {
    RaiseAligned(s, lo, hi, align);
    JoinAligned(Raise(s, lo, hi), align);
  }

  /** All boundaries lie on the alignment grid. */
  ghost predicate OnGrid(x: Space, align: nat)
    requires align > 0
  {
    && Aligned(x.ranges, align)
    && MultipleOf(x.start, align) && MultipleOf(x.length, align)
    && (forall b {:trigger b in x.live} | b in x.live :: MultipleOf(b.lo, align) && MultipleOf(b.hi, align))
  }

  // ------------------------------------------------------- moving space between parts

  lemma {:induction false} SingleRanges(x: Space, lo: int, hi: int)
    requires PartitionBut(x, lo, hi)
    ensures Single(x.ranges)
    ensures forall i | 0 <= i < |x.ranges| :: x.base <= x.ranges[i].lo && x.ranges[i].hi <= x.base + x.size
  {
    forall p: int ensures CountAt(x.ranges, p) <= 1 {
      assert Claims(x, p) <= 1;
    }
    SingleFromCounts(x.ranges);
    forall i | 0 <= i < |x.ranges|
      ensures x.base <= x.ranges[i].lo && x.ranges[i].hi <= x.base + x.size
    {
      var r := x.ranges[i];
      OrderedSegment(x.ranges, i);
      CountInside(x.ranges, i, r.lo);
      CountInside(x.ranges, i, r.hi - 1);
      assert Claims(x, r.lo) >= 1 && Claims(x, r.hi - 1) >= 1;
    }
  }

  lemma {:induction false} ExtentInSegment(x: Space)
    requires Partition(x) && x.length > 0
    ensures x.base <= x.start && x.start + x.length <= x.base + x.size
  {
    assert Claims(x, x.start) >= 1;
    assert Claims(x, x.start + x.length - 1) >= 1;
  }

  lemma {:induction false} BlockInSegment(x: Space, b: Block)
    requires Partition(x) && b in x.live
    ensures x.base <= b.lo && b.hi <= x.base + x.size
  {
    assert b.Contains(b.lo) && b.Contains(b.hi - 1);
    assert LiveAt(x.live, b.lo) && LiveAt(x.live, b.hi - 1);
    assert Claims(x, b.lo) >= 1 && Claims(x, b.hi - 1) >= 1;
  }

  /** The front of the extent becomes a live block. */
  lemma {:induction false} CarveBlock(x: Space, n: nat, start: nat) returns (y: Space)
    requires Partition(x) && 0 < n <= x.length
    requires x.length == n || start == x.start + n
    ensures y == x.(start := start, length := x.length - n, live := x.live + {Block(x.start, x.start + n)})
    ensures Partition(y)
    ensures Block(x.start, x.start + n) !in x.live
    ensures FreeRun(x, x.start, n)
  {
    var b := Block(x.start, x.start + n);
    y := x.(start := start, length := x.length - n, live := x.live + {b});
    ExtentInSegment(x);
    forall p: int | b.Contains(p) ensures !LiveAt(x.live, p) && CountAt(x.ranges, p) == 0 {
      assert Claims(x, p) == 1;
    }
    forall c | c in x.live ensures c.hi <= b.lo || b.hi <= c.lo {
      var p := if c.lo < b.lo then b.lo else c.lo;
      assert b.Contains(p) ==> !LiveAt(x.live, p);
      assert c.Contains(p) ==> LiveAt(x.live, p);
    }
    forall p: int ensures Claims(y, p) == One(y.base <= p < y.base + y.size) {
      assert Claims(x, p) == One(x.base <= p < x.base + x.size);
      assert b in y.live;
      assert LiveAt(y.live, p) == (LiveAt(x.live, p) || b.Contains(p));
    }
  }

  /** Giving up the extent leaves its addresses with the caller. */
  lemma {:induction false} DropExtent(x: Space)
    requires Partition(x)
    ensures PartitionBut(x.(start := 0, length := 0), x.start, x.start + x.length)
  {
    var y := x.(start := 0, length := 0);
    if x.length > 0 { ExtentInSegment(x); }
    forall p: int
      ensures Claims(y, p) == One(y.base <= p < y.base + y.size && !(x.start <= p < x.start + x.length))
    {
      assert Claims(x, p) == One(x.base <= p < x.base + x.size);
    }
  }

  /** So does ending the life of some blocks that are one run of addresses. */
  lemma {:induction false} DropBlock(x: Space, b: Block)
    requires Partition(x) && b in x.live
    ensures PartitionBut(x.(live := x.live - {b}), b.lo, b.hi)
    ensures x.base <= b.lo && b.hi <= x.base + x.size
  {
    var y := x.(live := x.live - {b});
    BlockInSegment(x, b);
    forall p: int ensures Claims(y, p) == One(y.base <= p < y.base + y.size && !b.Contains(p)) {
      assert Claims(x, p) == One(x.base <= p < x.base + x.size);
      assert b.Contains(p) ==> LiveAt(x.live, p);
      if LiveAt(x.live, p) && !b.Contains(p) {
        var c :| c in x.live && c.Contains(p);
        assert c in y.live;
      }
    }
  }

  /** Addresses in the caller's hands become free again. */
  lemma {:induction false} ReturnRange(x: Space, lo: nat, hi: nat)
    requires PartitionBut(x, lo, hi) && lo <= hi
    requires lo < hi ==> x.base <= lo && hi <= x.base + x.size
    ensures Partition(x.(ranges := Add(x.ranges, lo, hi)))
    ensures Total(Add(x.ranges, lo, hi)) == Total(x.ranges) + hi - lo
  {
    var y := x.(ranges := Add(x.ranges, lo, hi));
    AddMeaning(x.ranges, lo, hi);
    forall p: int ensures Claims(y, p) == One(y.base <= p < y.base + y.size && !(0 <= p < 0)) {
      assert Claims(x, p) == One(x.base <= p < x.base + x.size && !(lo <= p < hi));
    }
    forall p: int | lo <= p < hi ensures CountAt(x.ranges, p) == 0 {
      assert Claims(x, p) == 0;
    }
    AddTotal(x.ranges, lo, hi);
  }

  /** A free range becomes the extent. */
  lemma {:induction false} TakeRange(x: Space, i: nat) returns (y: Space)
    requires Partition(x) && x.length == 0 && i < |x.ranges|
    ensures x.ranges[i].lo < x.ranges[i].hi
    ensures y == x.(start := x.ranges[i].lo, length := x.ranges[i].hi - x.ranges[i].lo,
                    ranges := Remove(x.ranges, i))
    ensures Partition(y)
    ensures y.length + Total(y.ranges) == Total(x.ranges)
  {
    SingleRanges(x, 0, 0);
    OrderedSegment(x.ranges, i);
    RemoveMeaning(x.ranges, i);
    y := x.(start := x.ranges[i].lo, length := x.ranges[i].hi - x.ranges[i].lo,
            ranges := Remove(x.ranges, i));
    forall p: int ensures Claims(y, p) == One(y.base <= p < y.base + y.size) {
      assert Claims(x, p) == One(x.base <= p < x.base + x.size);
      if x.ranges[i].Contains(p) { CountInside(x.ranges, i, p); }
      assert CountAt(Remove(x.ranges, i), p) == if x.ranges[i].Contains(p) then 0 else CountAt(x.ranges, p);
    }
  }

  // ------------------------------------------------------------- several ranges at once

  /** The map after adding each of the given ranges once. */
  ghost function AddAll(s: seq<Seg>, more: seq<Seg>): seq<Seg>
    decreases |more|
  {
    if more == [] then s else AddAll(Add(s, more[0].lo, more[0].hi), more[1..])
  }

  lemma {:induction false} AddAllMeaning(s: seq<Seg>, more: seq<Seg>)
    requires Canonical(s) && Ordered(more) && Single(more)
    requires forall p: int :: CountAt(s, p) + CountAt(more, p) <= 1
    ensures Canonical(AddAll(s, more))
    ensures forall p: int :: CountAt(AddAll(s, more), p) == CountAt(s, p) + CountAt(more, p)
    ensures Total(AddAll(s, more)) == Total(s) + Total(more)
    decreases |more|
  {
    if more != [] {
      var m := more[0];
      var t := Add(s, m.lo, m.hi);
      AddMeaning(s, m.lo, m.hi);
      assert Single(more[1..]) by {
        assert forall i | 0 <= i < |more[1..]| :: more[1..][i] == more[i + 1];
      }
      forall p: int | m.lo <= p < m.hi ensures CountAt(s, p) == 0 {
        assert CountAt(s, p) + CountAt(more, p) <= 1;
      }
      AddTotal(s, m.lo, m.hi);
      forall p: int ensures CountAt(t, p) + CountAt(more[1..], p) == CountAt(s, p) + CountAt(more, p) <= 1 {
        assert CountAt(t, p) == CountAt(s, p) + if m.lo <= p < m.hi then 1 else 0;
      }
      AddAllMeaning(t, more[1..]);
    }
  }

  lemma {:induction false} AddAllAligned(s: seq<Seg>, more: seq<Seg>, align: nat)
    requires align > 0 && Aligned(s, align) && Aligned(more, align)
    ensures Aligned(AddAll(s, more), align)
    decreases |more|
  {
    if more != [] {
      AddAligned(s, more[0].lo, more[0].hi, align);
      AddAllAligned(Add(s, more[0].lo, more[0].hi), more[1..], align);
    }
  }

  /** Blocks that are live and apart are counted apart. */
  lemma {:induction false} DisjointUnion(live: set<Block>, done: set<Block>, b: Block)
    requires Apart(live)
    requires done <= live && b in live && b !in done
    ensures forall p: int :: One(LiveAt(done + {b}, p)) == One(LiveAt(done, p)) + One(b.Contains(p))
  {
    forall p: int
      ensures One(LiveAt(done + {b}, p)) == One(LiveAt(done, p)) + One(b.Contains(p))
    {
      assert b in done + {b};
      assert LiveAt(done, p) ==> LiveAt(done + {b}, p);
    }
  }

  /** The merged regions of some live blocks go back in one step. */
  lemma {:induction false} MergedReturn(x: Space, merged: seq<Seg>, gone: set<Block>)
    requires Partition(x) && gone <= x.live
    requires Canonical(merged)
    requires forall p: int :: CountAt(merged, p) == One(LiveAt(gone, p))
    ensures Partition(x.(ranges := AddAll(x.ranges, merged), live := x.live - gone))
    ensures Total(AddAll(x.ranges, merged)) == Total(x.ranges) + Total(merged)
  {
    SingleFromCounts(merged);
    forall p: int ensures CountAt(x.ranges, p) + CountAt(merged, p) <= 1 {
      assert Claims(x, p) <= 1;
      assert LiveAt(gone, p) ==> LiveAt(x.live, p);
      assert CountAt(merged, p) == One(LiveAt(gone, p));
    }
    AddAllMeaning(x.ranges, merged);
    var y := x.(ranges := AddAll(x.ranges, merged), live := x.live - gone);
    forall p: int ensures Claims(y, p) == One(y.base <= p < y.base + y.size) {
      assert Claims(x, p) == One(x.base <= p < x.base + x.size);
      assert CountAt(y.ranges, p) == CountAt(x.ranges, p) + CountAt(merged, p);
      assert CountAt(merged, p) == One(LiveAt(gone, p));
      LiveSplits(x.live, gone, p);
    }
  }

  lemma {:induction false} LiveSplits(live: set<Block>, gone: set<Block>, p: int)
    requires Apart(live)
    requires gone <= live
    ensures One(LiveAt(live, p)) == One(LiveAt(live - gone, p)) + One(LiveAt(gone, p))
  {
    if LiveAt(live, p) {
      var b :| b in live && b.Contains(p);
      assert b in gone || b in live - gone;
    }
  }

  // --------------------------------------------------------- what allocation can find

  /** With no extent set aside, a run of non-live addresses lies inside one free range. */
  lemma {:induction false} RunInRange(x: Space, q: int, k: int) returns (i: nat)
    requires Partition(x) && x.length == 0 && k > 0 && FreeRun(x, q, k)
    ensures i < |x.ranges| && x.ranges[i].lo <= q && q + k <= x.ranges[i].hi
  {
    SingleRanges(x, 0, 0);
    forall p: int | q <= p < q + k ensures CountAt(x.ranges, p) > 0 {
      assert Claims(x, p) == 1;
    }
    i := RunInOneSegment(x.ranges, q, q + k);
  }

  /** Conversely each free range is such a run, and cannot be extended on either side. */
  lemma {:induction false} RangeIsRun(x: Space, i: nat)
    requires Partition(x) && x.length == 0 && i < |x.ranges|
    ensures FreeRun(x, x.ranges[i].lo, x.ranges[i].Length())
    ensures !FreeRun(x, x.ranges[i].lo, x.ranges[i].Length() + 1)
  {
    var r := x.ranges[i];
    SingleRanges(x, 0, 0);
    OrderedSegment(x.ranges, i);
    forall p: int | r.Contains(p) ensures !LiveAt(x.live, p) {
      CountInside(x.ranges, i, p);
      assert Claims(x, p) == 1;
    }
    if FreeRun(x, r.lo, r.Length() + 1) {
      var j := RunInRange(x, r.lo, r.Length() + 1);
      if i < j { OrderedAt(x.ranges, i, j); } else if j < i { OrderedAt(x.ranges, j, i); }
    }
  }

  /**
   With the leftover extent merged back, some free range has `n` bytes exactly when the segment
   has `n` consecutive bytes outside live blocks.
  */
  lemma {:induction false} FitsExactlyWhenRunExists(x: Space, n: nat)
    requires Partition(x) && x.length == 0 && n > 0
    ensures (exists i :: 0 <= i < |x.ranges| && x.ranges[i].Length() >= n) <==> HasRun(x, n)
  {
    if i :| 0 <= i < |x.ranges| && x.ranges[i].Length() >= n {
      RangeIsRun(x, i);
      assert FreeRun(x, x.ranges[i].lo, n);
    }
    if q: int :| FreeRun(x, q, n) {
      var i := RunInRange(x, q, n);
      assert x.ranges[i].Length() >= n;
    }
  }

  /** Every free run that starts at `r` is matched by one as long that starts at `q`. */
  ghost predicate NoShorter(x: Space, q: int, r: int) {
    forall k: int | k > 0 && FreeRun(x, r, k) :: FreeRun(x, q, k)
  }

  /** Which run each strategy settles on when the leftover extent was too short. */
  ghost predicate Preferred(strategy: AllocStrategy, x: Space, q: int, n: int) {
    match strategy
    case FindFirst => forall r: int | r < q :: !FreeRun(x, r, n)
    case FindLongest =>
      && (forall r: int :: NoShorter(x, q, r))
      && (forall r: int | r < q :: !NoShorter(x, r, q))
  }

  /** Where an allocation of `n` bytes may go: a free run, the extent's front if that is long enough. */
  ghost predicate Chosen(strategy: AllocStrategy, x: Space, q: int, n: int) {
    && FreeRun(x, q, n)
    && (x.length >= n ==> q == x.start)
    && (x.length < n ==> Preferred(strategy, x, q, n))
  }

  lemma {:induction false} SameShorter(x: Space, y: Space, q: int, r: int)
    requires forall q: int, k: int :: FreeRun(x, q, k) == FreeRun(y, q, k)
    requires NoShorter(x, q, r)
    ensures NoShorter(y, q, r)
  {
    forall k: int | k > 0 && FreeRun(y, r, k) ensures FreeRun(y, q, k) {
      assert FreeRun(x, r, k);
      assert FreeRun(x, q, k);
    }
  }

  /** Runs and preferences depend on the live blocks only. */
  lemma {:induction false} SameRuns(x: Space, y: Space)
    requires x.base == y.base && x.size == y.size && x.live == y.live
    ensures forall q: int, k: int :: FreeRun(x, q, k) == FreeRun(y, q, k)
    ensures forall s: AllocStrategy, q: int, n: int :: Preferred(s, x, q, n) == Preferred(s, y, q, n)
  {
    forall q: int, k: int ensures FreeRun(x, q, k) == FreeRun(y, q, k) {
    }
    forall q: int, r: int ensures NoShorter(x, q, r) == NoShorter(y, q, r) {
      if NoShorter(x, q, r) { SameShorter(x, y, q, r); }
      if NoShorter(y, q, r) { SameShorter(y, x, q, r); }
    }
    forall q: int, n: int ensures Preferred(FindFirst, x, q, n) == Preferred(FindFirst, y, q, n) {
      assert forall r: int :: FreeRun(x, r, n) == FreeRun(y, r, n);
    }
  }

  lemma {:induction false} FirstIsPreferred(x: Space, i: nat, n: nat)
    requires Partition(x) && x.length == 0 && n > 0
    requires i < |x.ranges| && x.ranges[i].Length() >= n
    requires forall j | 0 <= j < i :: x.ranges[j].Length() < n
    ensures Preferred(FindFirst, x, x.ranges[i].lo, n)
  {
    forall r: int | r < x.ranges[i].lo ensures !FreeRun(x, r, n) {
      if FreeRun(x, r, n) {
        var j := RunInRange(x, r, n);
        if j > i { OrderedAt(x.ranges, i, j); }
      }
    }
  }

  lemma {:induction false} LongestIsPreferred(x: Space, i: nat, n: nat)
    requires Partition(x) && x.length == 0
    requires i < |x.ranges|
    requires forall j | 0 <= j < |x.ranges| :: x.ranges[j].Length() <= x.ranges[i].Length()
    requires forall j | 0 <= j < i :: x.ranges[j].Length() < x.ranges[i].Length()
    ensures Preferred(FindLongest, x, x.ranges[i].lo, n)
  {
    var q, len := x.ranges[i].lo, x.ranges[i].Length();
    OrderedSegment(x.ranges, i);
    RangeIsRun(x, i);
    forall r: int ensures NoShorter(x, q, r) {
      forall k: int | k > 0 && FreeRun(x, r, k) ensures FreeRun(x, q, k) {
        var j := RunInRange(x, r, k);
      }
    }
    forall r: int | r < q ensures !NoShorter(x, r, q) {
      assert FreeRun(x, q, len);
      if FreeRun(x, r, len) {
        var j := RunInRange(x, r, len);
        if j > i { OrderedAt(x.ranges, i, j); }
      }
    }
  }

  // ------------------------------------------------------------------- conservation

  ghost predicate Between(lo: int, p: int, hi: int) { lo <= p < hi }

  ghost function Points(lo: int, hi: int): set<int> {
    set p: int | lo <= p < hi && Between(lo, p, hi)
  }

  lemma {:induction false} PointsCount(lo: int, hi: int)
    requires lo <= hi
    ensures |Points(lo, hi)| == hi - lo
    decreases hi - lo
  {
    if lo < hi {
      PointsCount(lo, hi - 1);
      assert Points(lo, hi) == Points(lo, hi - 1) + {hi - 1};
    }
  }

  ghost function CountedPoints(s: seq<Seg>, lo: int, hi: int): set<int> {
    set p: int | lo <= p < hi && CountAt(s, p) > 0
  }

  lemma {:induction false} CountedPointsTotal(s: seq<Seg>, lo: int, hi: int)
    requires Ordered(s)
    requires forall i | 0 <= i < |s| :: lo <= s[i].lo && s[i].hi <= hi
    ensures |CountedPoints(s, lo, hi)| == Total(s)
    decreases |s|
  {
    if s == [] {
      assert CountedPoints(s, lo, hi) == {};
    } else {
      CountedPointsTotal(s[1..], lo, hi);
      PointsCount(s[0].lo, s[0].hi);
      CountedPointsSplit(s, lo, hi);
    }
  }

  lemma {:induction false} CountedPointsSplit(s: seq<Seg>, lo: int, hi: int)
    requires Ordered(s) && s != []
    requires lo <= s[0].lo && s[0].hi <= hi
    ensures CountedPoints(s, lo, hi) == Points(s[0].lo, s[0].hi) + CountedPoints(s[1..], lo, hi)
    ensures Points(s[0].lo, s[0].hi) !! CountedPoints(s[1..], lo, hi)
  {
    forall p: int | s[0].Contains(p) ensures CountAt(s[1..], p) == 0 {
      CountBefore(s[1..], p);
    }
  }

  ghost function UnusedPoints(x: Space): set<int> {
    set p: int | x.base <= p < x.base + x.size && !LiveAt(x.live, p)
  }

  /** The extent and the free ranges together hold exactly the bytes outside live blocks. */
  lemma {:induction false} FreeSpaceIsUnusedSpace(x: Space)
    requires Partition(x)
    ensures x.length + Total(x.ranges) == |UnusedPoints(x)|
  {
    SingleRanges(x, 0, 0);
    if x.length > 0 { ExtentInSegment(x); }
    PointsCount(x.start, x.start + x.length);
    CountedPointsTotal(x.ranges, x.base, x.base + x.size);
    var e, f := Points(x.start, x.start + x.length), CountedPoints(x.ranges, x.base, x.base + x.size);
    forall p: int ensures p in UnusedPoints(x) <==> p in e || p in f {
      assert Claims(x, p) == One(x.base <= p < x.base + x.size);
    }
    forall p: int ensures !(p in e && p in f) {
      assert Claims(x, p) <= 1;
    }
    assert UnusedPoints(x) == e + f;
    assert e !! f;
  }

  /** The live blocks and the extent determine the free ranges: their history leaves no trace. */
  lemma {:induction false} FreeRangesDetermined(x: Space, y: Space)
    requires Partition(x) && Partition(y)
    requires x.(ranges := []) == y.(ranges := [])
    ensures x.ranges == y.ranges
  {
    forall p: int ensures CountAt(x.ranges, p) == CountAt(y.ranges, p) {
      assert Claims(x, p) == Claims(y, p);
    }
    CanonicalUnique(x.ranges, y.ranges);
  }
}
