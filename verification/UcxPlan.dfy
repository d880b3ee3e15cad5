/**
 The transfer plan of a sub-time-frame: its scattered buffers, sorted by address, are covered
 by transactions, each inside one registered memory region.
*/
module UcxPlan {
  import opened Wrappers
  import opened Collections

  const U64: nat := 0x1_0000_0000_0000_0000

  /** The largest gap that may be bridged, 16 MiB. */
  const MAX_GAP: nat := 0x100_0000

  /** A data part in the sender's memory. */
  datatype Buffer = Buffer(start: nat, len: nat)

  /** A data part: its place in the original order, where it lies, and its transaction. */
  datatype UcxData = UcxData(idx: nat, start: nat, len: nat, txg: nat)
  {
    function End(): nat { start + len }
  }

  datatype Txg = Txg(txg: nat, start: nat, len: nat, dataParts: nat, region: nat)
  {
    function End(): nat { start + len }
  }

  datatype RegionInfo = RegionInfo(ptr: nat, size: nat, rkey: nat)
  {
    predicate Contains(start: nat, len: nat) {
      ptr <= start && start + len <= ptr + size
    }

    /** The address arithmetic on the region does not wrap, nor does a backward gap look small. */
    predicate Addressable() {
      ptr + size < U64 && size < U64 - MAX_GAP
    }
  }

  datatype Region = Region(region: nat, info: RegionInfo)

  // ----------------------------------------------------------------------- region lookup

  /** The first region that holds the buffer. */
  function Lookup(infos: seq<RegionInfo>, start: nat, len: nat): Option<RegionInfo> {
    if infos == [] then None
    else if infos[0].Contains(start, len) then Some(infos[0])
    else Lookup(infos[1..], start, len)
  }

  lemma {:induction false} LookupFinds(infos: seq<RegionInfo>, start: nat, len: nat)
    ensures var r := Lookup(infos, start, len);
      && (r.Some? ==> r.value in infos && r.value.Contains(start, len))
      && (r.None? ==> forall i | i in infos :: !i.Contains(start, len))
    decreases |infos|
  {
    if infos != [] { LookupFinds(infos[1..], start, len); }
  }

  /** Sorting key: larger regions come first. */
  function BySize(r: RegionInfo): int { 0 - r.size }

  /** With larger regions first, two buffers in regions of the same address are in the same region. */
  lemma {:induction false} SamePointerSameRegion(infos: seq<RegionInfo>, s: nat, l: nat, t: nat, m: nat)
    requires SortedBy(infos, BySize)
    requires Lookup(infos, s, l).Some? && Lookup(infos, t, m).Some?
    requires Lookup(infos, s, l).value.ptr == Lookup(infos, t, m).value.ptr
    ensures Lookup(infos, s, l) == Lookup(infos, t, m)
    decreases |infos|
  {
    var first := infos[0];
    LookupFinds(infos, s, l);
    LookupFinds(infos, t, m);
    var a, b := Lookup(infos, s, l).value, Lookup(infos, t, m).value;
    var i :| 0 <= i < |infos| && infos[i] == a;
    var j :| 0 <= j < |infos| && infos[j] == b;
    SortedByAt(infos, BySize, 0, i);
    SortedByAt(infos, BySize, 0, j);
    if !first.Contains(s, l) && !first.Contains(t, m) {
      SamePointerSameRegion(infos[1..], s, l, t, m);
    }
  }

  // ------------------------------------------------------------------ what a plan is

  ghost predicate InTxg(d: UcxData, txgs: seq<Txg>) {
    d.txg < |txgs| && txgs[d.txg].start <= d.start && d.End() <= txgs[d.txg].End()
  }

  ghost predicate AllInTxgs(data: seq<UcxData>, txgs: seq<Txg>) {
    forall d | d in data :: InTxg(d, txgs)
  }

  ghost predicate InRegion(t: Txg, i: nat, regions: seq<Region>) {
    t.txg == i && t.region < |regions| && regions[t.region].info.Contains(t.start, t.len)
  }

  ghost predicate AllInRegions(txgs: seq<Txg>, regions: seq<Region>) {
    forall i | 0 <= i < |txgs| :: InRegion(txgs[i], i, regions)
  }

  ghost predicate Numbered(regions: seq<Region>) {
    forall r | 0 <= r < |regions| :: regions[r].region == r
  }

  ghost function CountIn(data: seq<UcxData>, t: nat): nat {
    if data == [] then 0
    else
      var n := |data| - 1;
      CountIn(data[..n], t) + if data[n].txg == t then 1 else 0
  }

  ghost predicate PartsCounted(data: seq<UcxData>, txgs: seq<Txg>) {
    forall t | 0 <= t < |txgs| :: txgs[t].dataParts == CountIn(data, t)
  }

  ghost function DataSum(data: seq<UcxData>): nat {
    if data == [] then 0 else DataSum(data[..|data| - 1]) + data[|data| - 1].len
  }

  ghost function TxgSum(txgs: seq<Txg>): nat {
    if txgs == [] then 0 else TxgSum(txgs[..|txgs| - 1]) + txgs[|txgs| - 1].len
  }

  /** `b` follows `a` in the same region, without overlap and at most `gap` bytes later. */
  ghost predicate Joins(a: UcxData, b: UcxData, infos: seq<RegionInfo>, gap: nat) {
    Lookup(infos, a.start, a.len) == Lookup(infos, b.start, b.len) && a.End() <= b.start <= a.End() + gap
  }

  /** Transactions are numbered in order, and a new one starts exactly where parts do not join. */
  ghost predicate SplitsOnlyWhereNeeded(data: seq<UcxData>, infos: seq<RegionInfo>, gap: nat) {
    if |data| == 0 then true
    else if |data| == 1 then data[0].txg == 0
    else
      var n := |data| - 1;
      && SplitsOnlyWhereNeeded(data[..n], infos, gap)
      && data[n].txg == data[n - 1].txg + if Joins(data[n - 1], data[n], infos, gap) then 0 else 1
  }

  /** The transaction and the region that the planner is filling. */
  ghost predicate AtEnd(data: seq<UcxData>, txgs: seq<Txg>, regions: seq<Region>, infos: seq<RegionInfo>) {
    && data != [] && txgs != [] && regions != []
    && var d, t := data[|data| - 1], txgs[|txgs| - 1];
       && d.txg == |txgs| - 1 && t.End() == d.End() && t.region == |regions| - 1
       && Lookup(infos, d.start, d.len) == Some(regions[|regions| - 1].info)
  }

  /** No other part of the same transaction follows. */
  ghost predicate LastOfTxg(data: seq<UcxData>, i: nat) {
    i < |data| && (i + 1 == |data| || data[i + 1].txg != data[i].txg)
  }

  /** A transaction ends where its last part ends. */
  ghost predicate LastOnesEnd(data: seq<UcxData>, txgs: seq<Txg>) {
    forall i: nat | LastOfTxg(data, i) :: data[i].txg < |txgs| && txgs[data[i].txg].End() == data[i].End()
  }

  ghost predicate Plan(data: seq<UcxData>, txgs: seq<Txg>, regions: seq<Region>, totalGap: nat,
                       infos: seq<RegionInfo>, gap: nat)
  {
    && AllInTxgs(data, txgs) && AllInRegions(txgs, regions) && Numbered(regions)
    && PartsCounted(data, txgs) && TxgSum(txgs) == DataSum(data) + totalGap
    && SplitsOnlyWhereNeeded(data, infos, gap) && LastOnesEnd(data, txgs)
  }

  // --------------------------------------------------------------- the planner's two moves

  ghost function Extended(txgs: seq<Txg>, gap: nat, len: nat): seq<Txg>
    requires txgs != []
  {
    var n := |txgs| - 1;
    txgs[..n] + [txgs[n].(len := txgs[n].len + gap + len, dataParts := txgs[n].dataParts + 1)]
  }

  lemma {:induction false} ExtendCounts(data: seq<UcxData>, d: UcxData, txgs: seq<Txg>, gap: nat)
    requires txgs != [] && d.txg == |txgs| - 1 && PartsCounted(data, txgs)
    ensures PartsCounted(data + [d], Extended(txgs, gap, d.len))
  {
    assert (data + [d])[..|data|] == data;
  }

  lemma {:induction false} ExtendSums(data: seq<UcxData>, d: UcxData, txgs: seq<Txg>, gap: nat, total: nat)
    requires txgs != [] && TxgSum(txgs) == DataSum(data) + total
    ensures TxgSum(Extended(txgs, gap, d.len)) == DataSum(data + [d]) + total + gap
  {
    var n := |txgs| - 1;
    assert (data + [d])[..|data|] == data;
    assert Extended(txgs, gap, d.len)[..n] == txgs[..n];
  }

  lemma {:induction false} ExtendLast(data: seq<UcxData>, d: UcxData, txgs: seq<Txg>, regions: seq<Region>,
                   infos: seq<RegionInfo>, maxGap: nat, gap: nat)
    requires SplitsOnlyWhereNeeded(data, infos, maxGap) && LastOnesEnd(data, txgs) && AtEnd(data, txgs, regions, infos)
    requires d.txg == |txgs| - 1 && d.start == txgs[|txgs| - 1].End() + gap
    ensures LastOnesEnd(data + [d], Extended(txgs, gap, d.len))
  {
    hide Lookup;
    hide SplitsOnlyWhereNeeded;
    var more, n := data + [d], |data|;
    assert more[n - 1].txg == more[n].txg;
    forall i: nat | LastOfTxg(more, i)
      ensures more[i].txg < |txgs| && Extended(txgs, gap, d.len)[more[i].txg].End() == more[i].End()
    {
      if i + 1 < n {
        assert more[i] == data[i] && more[i + 1] == data[i + 1] && LastOfTxg(data, i);
        TxgsAscend(data, infos, maxGap, i, i + 1);
        TxgsAscend(data, infos, maxGap, i + 1, |data| - 1);
      }
    }
  }

  lemma {:induction false} TxgsAscend(data: seq<UcxData>, infos: seq<RegionInfo>, gap: nat, i: nat, j: nat)
    requires SplitsOnlyWhereNeeded(data, infos, gap) && i <= j < |data|
    ensures data[i].txg <= data[j].txg
    decreases j
  {
    hide SplitsOnlyWhereNeeded;
    hide Joins;
    if i < j {
      SplitsAt(data, infos, gap, j);
      TxgsAscend(data, infos, gap, i, j - 1);
    }
  }

  lemma {:induction false} NewLast(data: seq<UcxData>, d: UcxData, txgs: seq<Txg>, region: nat)
    requires AllInTxgs(data, txgs) && LastOnesEnd(data, txgs) && d.txg == |txgs|
    requires data != [] ==> data[|data| - 1].txg == |txgs| - 1
    ensures LastOnesEnd(data + [d], NewTxg(d, txgs, region))
  {
    var more := data + [d];
    forall i: nat | LastOfTxg(more, i)
      ensures more[i].txg <= |txgs| && NewTxg(d, txgs, region)[more[i].txg].End() == more[i].End()
    {
      if i < |data| { assert LastOfTxg(data, i); }
    }
  }

  lemma {:induction false} ExtendPlan(data: seq<UcxData>, d: UcxData, txgs: seq<Txg>, regions: seq<Region>, total: nat,
                   infos: seq<RegionInfo>, maxGap: nat, gap: nat)
    requires Plan(data, txgs, regions, total, infos, maxGap) && AtEnd(data, txgs, regions, infos)
    requires d.txg == |txgs| - 1 && d.start == txgs[|txgs| - 1].End() + gap && gap <= maxGap
    requires Lookup(infos, d.start, d.len) == Some(regions[|regions| - 1].info)
    ensures Plan(data + [d], Extended(txgs, gap, d.len), regions, total + gap, infos, maxGap)
    ensures AtEnd(data + [d], Extended(txgs, gap, d.len), regions, infos)
  {
    ExtendCounts(data, d, txgs, gap);
    ExtendSums(data, d, txgs, gap, total);
    ExtendLast(data, d, txgs, regions, infos, maxGap, gap);
    hide LastOnesEnd;
    hide CountIn;
    hide TxgSum;
    hide DataSum;
    hide PartsCounted;
    LookupFinds(infos, d.start, d.len);
    hide Lookup;
    var more := Extended(txgs, gap, d.len);
    assert (data + [d])[..|data|] == data;
    forall e | e in data + [d] ensures InTxg(e, more) {
      if e in data { assert InTxg(e, txgs); }
    }
    forall i | 0 <= i < |more| ensures InRegion(more[i], i, regions) {
      assert InRegion(txgs[i], i, regions);
    }
  }

  ghost function NewTxg(d: UcxData, txgs: seq<Txg>, region: nat): seq<Txg> {
    txgs + [Txg(|txgs|, d.start, d.len, 1, region)]
  }

  lemma {:induction false} NoneIn(data: seq<UcxData>, txgs: seq<Txg>, t: nat)
    requires AllInTxgs(data, txgs) && |txgs| <= t
    ensures CountIn(data, t) == 0
    decreases |data|
  {
    if data != [] {
      var n := |data| - 1;
      assert data[n] in data && InTxg(data[n], txgs);
      NoneIn(data[..n], txgs, t);
    }
  }

  lemma {:induction false} NewCounts(data: seq<UcxData>, d: UcxData, txgs: seq<Txg>, region: nat)
    requires AllInTxgs(data, txgs) && d.txg == |txgs| && PartsCounted(data, txgs)
    ensures PartsCounted(data + [d], NewTxg(d, txgs, region))
  {
    assert (data + [d])[..|data|] == data;
    NoneIn(data, txgs, |txgs|);
  }

  lemma {:induction false} NewSums(data: seq<UcxData>, d: UcxData, txgs: seq<Txg>, region: nat, total: nat)
    requires TxgSum(txgs) == DataSum(data) + total
    ensures TxgSum(NewTxg(d, txgs, region)) == DataSum(data + [d]) + total
  {
    assert (data + [d])[..|data|] == data;
    assert NewTxg(d, txgs, region)[..|txgs|] == txgs;
  }

  lemma {:induction false} NewInTxgs(data: seq<UcxData>, d: UcxData, txgs: seq<Txg>, region: nat)
    requires AllInTxgs(data, txgs) && d.txg == |txgs|
    ensures AllInTxgs(data + [d], NewTxg(d, txgs, region))
  {
    forall e | e in data + [d] ensures InTxg(e, NewTxg(d, txgs, region)) {
      if e in data { assert InTxg(e, txgs); }
    }
  }

  lemma {:induction false} NewInRegions(d: UcxData, txgs: seq<Txg>, regions: seq<Region>, more: seq<Region>)
    requires AllInRegions(txgs, regions) && regions <= more && more != []
    requires more[|more| - 1].info.Contains(d.start, d.len)
    ensures AllInRegions(NewTxg(d, txgs, |more| - 1), more)
  {
    var grown := NewTxg(d, txgs, |more| - 1);
    forall i | 0 <= i < |grown| ensures InRegion(grown[i], i, more) {
      if i < |txgs| { assert InRegion(txgs[i], i, regions); }
    }
  }

  lemma {:induction false} NewSplits(data: seq<UcxData>, d: UcxData, txgs: seq<Txg>, regions: seq<Region>,
                  infos: seq<RegionInfo>, maxGap: nat)
    requires SplitsOnlyWhereNeeded(data, infos, maxGap)
    requires data != [] ==> AtEnd(data, txgs, regions, infos) && !Joins(data[|data| - 1], d, infos, maxGap)
    requires data == [] ==> txgs == []
    requires d.txg == |txgs|
    ensures SplitsOnlyWhereNeeded(data + [d], infos, maxGap)
  {
    hide Lookup;
    hide Joins;
    assert (data + [d])[..|data|] == data;
  }

  lemma {:induction false} NewAtEnd(data: seq<UcxData>, d: UcxData, txgs: seq<Txg>, more: seq<Region>, infos: seq<RegionInfo>)
    requires more != [] && d.txg == |txgs| && Lookup(infos, d.start, d.len) == Some(more[|more| - 1].info)
    ensures AtEnd(data + [d], NewTxg(d, txgs, |more| - 1), more, infos)
  {
    hide Lookup;
  }

  /** A part that opens a transaction, in the last of the possibly grown list of regions. */
  lemma {:induction false} NewPlan(data: seq<UcxData>, d: UcxData, txgs: seq<Txg>, regions: seq<Region>, more: seq<Region>, total: nat,
                infos: seq<RegionInfo>, maxGap: nat)
    requires Plan(data, txgs, regions, total, infos, maxGap)
    requires data != [] ==> AtEnd(data, txgs, regions, infos) && !Joins(data[|data| - 1], d, infos, maxGap)
    requires data == [] ==> txgs == []
    requires regions <= more && more != [] && Numbered(more)
    requires d.txg == |txgs| && Lookup(infos, d.start, d.len) == Some(more[|more| - 1].info)
    ensures Plan(data + [d], NewTxg(d, txgs, |more| - 1), more, total, infos, maxGap)
    ensures AtEnd(data + [d], NewTxg(d, txgs, |more| - 1), more, infos)
  {
    hide CountIn;
    hide TxgSum;
    hide DataSum;
    hide Lookup;
    hide Joins;
    NewCounts(data, d, txgs, |more| - 1);
    NewSums(data, d, txgs, |more| - 1, total);
    NewInTxgs(data, d, txgs, |more| - 1);
    LookupFinds(infos, d.start, d.len);
    NewInRegions(d, txgs, regions, more);
    NewSplits(data, d, txgs, regions, infos, maxGap);
    NewLast(data, d, txgs, |more| - 1);
    NewAtEnd(data, d, txgs, more, infos);
  }

  // ------------------------------------------------------------------- reading a plan

  /** Two parts next to each other share a transaction exactly when they join. */
  lemma {:induction false} SplitsAt(data: seq<UcxData>, infos: seq<RegionInfo>, gap: nat, i: nat)
    requires SplitsOnlyWhereNeeded(data, infos, gap) && 0 < i < |data|
    ensures data[i].txg == data[i - 1].txg <==> Joins(data[i - 1], data[i], infos, gap)
    ensures data[i].txg == data[i - 1].txg || data[i].txg == data[i - 1].txg + 1
    decreases |data|
  {
    if i < |data| - 1 { SplitsAt(data[..|data| - 1], infos, gap, i); }
  }

  /** The part does not begin where its transaction ends, as the receiver asserts. */
  ghost predicate BeginsInside(d: UcxData, txgs: seq<Txg>) {
    d.txg < |txgs| && d.start < txgs[d.txg].End()
  }

  // ------------------------------------------------------------ when the receiver's assertion holds

  /** The part after every empty one joins it. */
  ghost predicate EmptyOnesJoined(data: seq<UcxData>, infos: seq<RegionInfo>, gap: nat) {
    forall i | 0 <= i < |data| && data[i].len == 0 :: i + 1 < |data| && Joins(data[i], data[i + 1], infos, gap)
  }

  /** An empty part that the next one does not join lies at the end of its transaction. */
  lemma {:induction false} LonelyAtEnd(data: seq<UcxData>, txgs: seq<Txg>, infos: seq<RegionInfo>, gap: nat, i: nat)
    requires SplitsOnlyWhereNeeded(data, infos, gap) && LastOnesEnd(data, txgs)
    requires i < |data| && data[i].len == 0
    requires i + 1 < |data| ==> !Joins(data[i], data[i + 1], infos, gap)
    ensures !BeginsInside(data[i], txgs)
  {
    if i + 1 < |data| { SplitsAt(data, infos, gap, i + 1); }
    assert LastOfTxg(data, i);
  }

  /** An empty part that is joined begins before something of its transaction. */
  lemma {:induction false} JoinedInside(data: seq<UcxData>, txgs: seq<Txg>, infos: seq<RegionInfo>, gap: nat, i: nat)
    requires SplitsOnlyWhereNeeded(data, infos, gap) && AllInTxgs(data, txgs) && EmptyOnesJoined(data, infos, gap)
    requires i < |data|
    ensures BeginsInside(data[i], txgs)
    decreases |data| - i
  {
    assert InTxg(data[i], txgs);
    if data[i].len == 0 {
      SplitsAt(data, infos, gap, i + 1);
      assert InTxg(data[i + 1], txgs);
      JoinedInside(data, txgs, infos, gap, i + 1);
    }
  }

  /**
   Every part begins inside its transaction exactly when every empty part is joined by the part
   that is next in the order of the plan.
  */
  lemma {:induction false} AllBeginInside(data: seq<UcxData>, txgs: seq<Txg>, regions: seq<Region>, totalGap: nat,
                                          infos: seq<RegionInfo>, gap: nat)
    requires Plan(data, txgs, regions, totalGap, infos, gap)
    ensures (forall d | d in data :: BeginsInside(d, txgs)) <==> EmptyOnesJoined(data, infos, gap)
    ensures AllInTxgs(data, txgs) && AllInRegions(txgs, regions)
  {
    hide BeginsInside;
    hide SplitsOnlyWhereNeeded;
    hide Joins;
    if EmptyOnesJoined(data, infos, gap) {
      forall i | 0 <= i < |data| ensures BeginsInside(data[i], txgs) { JoinedInside(data, txgs, infos, gap, i); }
    } else {
      var i :| 0 <= i < |data| && data[i].len == 0 && !(i + 1 < |data| && Joins(data[i], data[i + 1], infos, gap));
      LonelyAtEnd(data, txgs, infos, gap, i);
      assert data[i] in data;
    }
  }

  // ------------------------------------------------------------- the same, seen from the buffers

  /** A numbered entry for every buffer. */
  ghost function EntriesOf(bs: seq<Buffer>): seq<UcxData> {
    seq(|bs|, i requires 0 <= i < |bs| => UcxData(i, bs[i].start, bs[i].len, 0))
  }

  /** Only empty buffers share an address. */
  ghost predicate OnlyEmptyOnesTie(bs: seq<Buffer>) {
    forall i, j | 0 <= i < j < |bs| && bs[i].start == bs[j].start :: bs[i].len == 0 && bs[j].len == 0
  }

  /** No buffer lies in two different regions of the same size. */
  ghost predicate SizesTell(registered: seq<RegionInfo>, bs: seq<Buffer>) {
    forall b, q, r | b in bs && q in registered && r in registered
      && q.Contains(b.start, b.len) && r.Contains(b.start, b.len) && q.size == r.size :: q == r
  }

  /** The largest region that holds the buffer. */
  ghost predicate Serves(r: RegionInfo, registered: seq<RegionInfo>, b: Buffer) {
    && r in registered && r.Contains(b.start, b.len)
    && forall q | q in registered && q.Contains(b.start, b.len) :: q.size <= r.size
  }

  /** `c` is next to `b` in address order, in the same region and at most `gap` bytes away. */
  ghost predicate Bridged(b: Buffer, c: Buffer, bs: seq<Buffer>, registered: seq<RegionInfo>, gap: nat) {
    && c in bs && b.start < c.start <= b.start + gap
    && (forall d | d in bs :: d.start <= b.start || c.start <= d.start)
    && exists r :: Serves(r, registered, b) && Serves(r, registered, c)
  }

  ghost predicate EmptyOnesBridged(bs: seq<Buffer>, registered: seq<RegionInfo>, gap: nat) {
    forall b | b in bs && b.len == 0 :: exists c :: Bridged(b, c, bs, registered, gap)
  }

  lemma {:induction false} LookupLargest(infos: seq<RegionInfo>, start: nat, len: nat)
    requires SortedBy(infos, BySize) && Lookup(infos, start, len).Some?
    ensures forall q | q in infos && q.Contains(start, len) :: q.size <= Lookup(infos, start, len).value.size
    decreases |infos|
  {
    if infos[0].Contains(start, len) {
      forall q | q in infos ensures q.size <= infos[0].size {
        var i :| 0 <= i < |infos| && infos[i] == q;
        SortedByAt(infos, BySize, 0, i);
      }
    } else {
      LookupLargest(infos[1..], start, len);
    }
  }

  /** Whatever the order of regions of the same size, a buffer finds the region that serves it. */
  lemma {:induction false} LookupServes(infos: seq<RegionInfo>, registered: seq<RegionInfo>, bs: seq<Buffer>, b: Buffer, r: RegionInfo)
    requires SortedBy(infos, BySize) && multiset(infos) == multiset(registered)
    requires SizesTell(registered, bs) && b in bs && Lookup(infos, b.start, b.len).Some?
    ensures Serves(r, registered, b) <==> Lookup(infos, b.start, b.len) == Some(r)
  {
    assert forall q :: q in infos <==> q in multiset(infos);
    assert forall q :: q in registered <==> q in multiset(registered);
    LookupFinds(infos, b.start, b.len);
    LookupLargest(infos, b.start, b.len);
  }

  lemma {:induction false} EntriesTie(bs: seq<Buffer>, sorted: seq<UcxData>, i: nat, j: nat)
    requires OnlyEmptyOnesTie(bs) && multiset(sorted) == multiset(EntriesOf(bs))
    requires i < j < |sorted| && sorted[i].start == sorted[j].start
    ensures sorted[i].len == 0 && sorted[j].len == 0
  {
    EntryAt(bs, sorted, i);
    EntryAt(bs, sorted, j);
    if sorted[i].idx == sorted[j].idx {
      Twice(sorted, i, j);
      TwicePlaces(EntriesOf(bs), sorted[i]);
      assert false;
    }
  }

  /** The last entry with the same address. */
  ghost predicate LastOfAddress(sorted: seq<UcxData>, i: nat) {
    i < |sorted| && (i + 1 < |sorted| ==> sorted[i].start < sorted[i + 1].start)
  }

  lemma {:induction false} LastExists(sorted: seq<UcxData>, i: nat) returns (j: nat)
    requires SortedBy(sorted, (d: UcxData) => d.start) && i < |sorted|
    ensures i <= j && LastOfAddress(sorted, j) && sorted[j].start == sorted[i].start
    decreases |sorted| - i
  {
    hide SortedBy;
    j := i;
    if i + 1 < |sorted| {
      SortedByAt(sorted, (d: UcxData) => d.start, i, i + 1);
      if sorted[i].start == sorted[i + 1].start { j := LastExists(sorted, i + 1); }
    }
  }

  lemma {:induction false} EntryAt(bs: seq<Buffer>, sorted: seq<UcxData>, i: nat)
    requires multiset(sorted) == multiset(EntriesOf(bs)) && i < |sorted|
    ensures sorted[i].idx < |bs| && sorted[i] == UcxData(sorted[i].idx, bs[sorted[i].idx].start, bs[sorted[i].idx].len, 0)
  {
    assert sorted[i] in multiset(EntriesOf(bs));
    var k :| 0 <= k < |bs| && EntriesOf(bs)[k] == sorted[i];
  }

  lemma {:induction false} EntryOf(bs: seq<Buffer>, sorted: seq<UcxData>, b: Buffer)
    requires multiset(sorted) == multiset(EntriesOf(bs)) && b in bs
    ensures exists i :: 0 <= i < |sorted| && sorted[i].start == b.start && sorted[i].len == b.len
  {
    var k :| 0 <= k < |bs| && bs[k] == b;
    assert EntriesOf(bs)[k] in multiset(sorted);
  }

  /** The last empty one of an address is joined in the plan's order when it is bridged in the memory. */
  lemma {:induction false} JoinedIsBridged(bs: seq<Buffer>, sorted: seq<UcxData>, infos: seq<RegionInfo>, registered: seq<RegionInfo>,
                                           gap: nat, i: nat)
    requires OnlyEmptyOnesTie(bs) && multiset(sorted) == multiset(EntriesOf(bs)) && SortedBy(sorted, (d: UcxData) => d.start)
    requires SortedBy(infos, BySize) && multiset(infos) == multiset(registered) && SizesTell(registered, bs)
    requires forall d | d in sorted :: Lookup(infos, d.start, d.len).Some?
    requires LastOfAddress(sorted, i) && sorted[i].len == 0
    ensures (i + 1 < |sorted| && Joins(sorted[i], sorted[i + 1], infos, gap))
       <==> exists c :: Bridged(Buffer(sorted[i].start, 0), c, bs, registered, gap)
  {
    hide SortedBy;
    hide SizesTell;
    hide OnlyEmptyOnesTie;
    hide Lookup;
    hide Serves;
    hide EntriesOf;
    var byStart := (d: UcxData) => d.start;
    var b := Buffer(sorted[i].start, 0);
    EntryAt(bs, sorted, i);
    if i + 1 < |sorted| && Joins(sorted[i], sorted[i + 1], infos, gap) {
      var c := Buffer(sorted[i + 1].start, sorted[i + 1].len);
      EntryAt(bs, sorted, i + 1);
      forall d | d in bs ensures d.start <= b.start || c.start <= d.start {
        EntryOf(bs, sorted, d);
        var j :| 0 <= j < |sorted| && sorted[j].start == d.start && sorted[j].len == d.len;
        if j <= i { SortedByAt(sorted, byStart, j, i); } else { SortedByAt(sorted, byStart, i + 1, j); }
      }
      var r := Lookup(infos, b.start, b.len).value;
      LookupServes(infos, registered, bs, b, r);
      LookupServes(infos, registered, bs, c, r);
      assert Bridged(b, c, bs, registered, gap);
    }
    if c :| Bridged(b, c, bs, registered, gap) {
      EntryOf(bs, sorted, c);
      var j :| 0 <= j < |sorted| && sorted[j].start == c.start && sorted[j].len == c.len;
      if j < i { SortedByAt(sorted, byStart, j, i); }
      EntryAt(bs, sorted, i + 1);
      SortedByAt(sorted, byStart, i + 1, j);
      if i + 1 < j { EntriesTie(bs, sorted, i + 1, j); }
      var r :| Serves(r, registered, b) && Serves(r, registered, c);
      LookupServes(infos, registered, bs, b, r);
      LookupServes(infos, registered, bs, c, r);
    }
  }

  /**
   When only empty buffers share an address, and sizes tell regions apart, the condition is one on
   the buffers: every empty one has the next address in use close behind it, in the same region.
  */
  lemma {:induction false} JoinedExactlyBridged(bs: seq<Buffer>, sorted: seq<UcxData>, infos: seq<RegionInfo>, registered: seq<RegionInfo>,
                                                gap: nat)
    requires OnlyEmptyOnesTie(bs) && multiset(sorted) == multiset(EntriesOf(bs)) && SortedBy(sorted, (d: UcxData) => d.start)
    requires SortedBy(infos, BySize) && multiset(infos) == multiset(registered) && SizesTell(registered, bs)
    requires forall d | d in sorted :: Lookup(infos, d.start, d.len).Some?
    ensures EmptyOnesJoined(sorted, infos, gap) <==> EmptyOnesBridged(bs, registered, gap)
  {
    hide SortedBy;
    hide SizesTell;
    hide OnlyEmptyOnesTie;
    hide Lookup;
    hide Bridged;
    hide EntriesOf;
    if EmptyOnesJoined(sorted, infos, gap) {
      forall b | b in bs && b.len == 0 ensures exists c :: Bridged(b, c, bs, registered, gap) {
        EntryOf(bs, sorted, b);
        var i :| 0 <= i < |sorted| && sorted[i].start == b.start && sorted[i].len == b.len;
        var j := LastExists(sorted, i);
        if i < j { EntriesTie(bs, sorted, i, j); }
        JoinedIsBridged(bs, sorted, infos, registered, gap, j);
      }
    }
    if EmptyOnesBridged(bs, registered, gap) {
      forall i | 0 <= i < |sorted| && sorted[i].len == 0
        ensures i + 1 < |sorted| && Joins(sorted[i], sorted[i + 1], infos, gap)
      {
        EntryAt(bs, sorted, i);
        assert Buffer(sorted[i].start, 0) in bs;
        if LastOfAddress(sorted, i) {
          JoinedIsBridged(bs, sorted, infos, registered, gap, i);
        } else {
          SortedByAt(sorted, (d: UcxData) => d.start, i, i + 1);
          EntriesTie(bs, sorted, i, i + 1);
        }
      }
    }
  }

  /** An empty and a non-empty buffer at one address: whether the empty one is joined depends on the sort. */
  lemma {:induction false} TieDependsOnSort(gap: nat)
    ensures
      var bs, infos := [Buffer(5, 0), Buffer(5, 1)], [RegionInfo(0, 10, 0)];
      var one := EntriesOf(bs);
      var other := [one[1], one[0]];
      && multiset(other) == multiset(one)
      && SortedBy(one, (d: UcxData) => d.start) && SortedBy(other, (d: UcxData) => d.start)
      && EmptyOnesJoined(one, infos, gap) && !EmptyOnesJoined(other, infos, gap)
  {
    var bs, infos := [Buffer(5, 0), Buffer(5, 1)], [RegionInfo(0, 10, 0)];
    var one := EntriesOf(bs);
    var other := [one[1], one[0]];
    assert one == [one[0], one[1]];
    assert Joins(one[0], one[1], infos, gap);
    assert other[1].len == 0;
  }
}
