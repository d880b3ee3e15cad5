/**
 Moving a sub-time-frame by remote memory access: the sender describes its buffers and the
 transactions that cover them, the receiver fetches the transactions and cuts the parts out.
*/
module UcxTransfer {
  import opened Wrappers
  import opened Collections
  import opened StfModel
  import opened StfStreams
  import opened SubTimeFrames
  import opened IovTransport
  import opened UcxPlan

  /** A message whose parts lie in the sender's memory. */
  datatype PlacedMessage = PlacedMessage(hdr: DataHeader, buffers: seq<Buffer>)

  type PlacedData = map<Equipment, seq<PlacedMessage>>

  type Memory = int -> bv8

  function Bytes(mem: Memory, start: int, len: nat): (r: seq<bv8>)
    ensures |r| == len
  {
    seq(len, i => mem(start + i))
  }

  function PartsAt(mem: Memory, bs: seq<Buffer>): seq<Part> {
    seq(|bs|, i requires 0 <= i < |bs| => Bytes(mem, bs[i].start, bs[i].len))
  }

  function MessagesAt(mem: Memory, ms: seq<PlacedMessage>): seq<Message> {
    seq(|ms|, i requires 0 <= i < |ms| => Message(ms[i].hdr, PartsAt(mem, ms[i].buffers)))
  }

  ghost function BuffersOf(ms: seq<PlacedMessage>): seq<Buffer> {
    if ms == [] then [] else BuffersOf(ms[..|ms| - 1]) + ms[|ms| - 1].buffers
  }

  /** All buffers, in the order of the visit. */
  ghost function BuffersIn(placed: PlacedData, order: seq<Equipment>): seq<Buffer> {
    if order == [] then []
    else
      var e := order[|order| - 1];
      BuffersIn(placed, order[..|order| - 1]) + if e in placed then BuffersOf(placed[e]) else []
  }

  /** What the placed sub-time-frame contains. */
  ghost function DataAt(mem: Memory, placed: PlacedData): StfData {
    map e | e in placed :: MessagesAt(mem, placed[e])
  }

  /** The meta message. */
  datatype UcxHeader = UcxHeader(meta: IovHeader, data: seq<UcxData>, txgs: seq<Txg>, regions: seq<Region>)

  // ----------------------------------------------------------------------------- describing

  /** Part `k` of the stream is described by the entry with this index. */
  ghost predicate Describes(mem: Memory, d: UcxData, parts: seq<Part>) {
    d.idx < |parts| && Bytes(mem, d.start, d.len) == parts[d.idx]
  }

  ghost predicate DescribesAll(mem: Memory, data: seq<UcxData>, parts: seq<Part>) {
    |data| == |parts| && forall k | 0 <= k < |data| :: data[k].idx == k && Describes(mem, data[k], parts)
  }

  ghost predicate Held(registered: seq<RegionInfo>, start: nat, len: nat) {
    exists r :: r in registered && r.ptr <= start && start + len <= r.ptr + r.size
  }

  ghost predicate HeldData(registered: seq<RegionInfo>, data: seq<UcxData>) {
    forall d | d in data :: Held(registered, d.start, d.len)
  }

  ghost predicate HeldBuffers(registered: seq<RegionInfo>, bs: seq<Buffer>) {
    forall b | b in bs :: Held(registered, b.start, b.len)
  }

  ghost predicate HeldMessages(registered: seq<RegionInfo>, ms: seq<PlacedMessage>) {
    forall m | m in ms :: HeldBuffers(registered, m.buffers)
  }

  /** Every buffer lies in a registered region. */
  ghost predicate HeldAll(registered: seq<RegionInfo>, placed: PlacedData) {
    forall e | e in placed :: HeldMessages(registered, placed[e])
  }

  /** Headers in the order of the visit, and a numbered entry per data part. */
  method Describe(placed: PlacedData, order: seq<Equipment>, ghost mem: Memory, ghost registered: seq<RegionInfo>)
    returns (hdrs: seq<HdrMeta>, data: seq<UcxData>)
    requires Enumerates(order, DataAt(mem, placed))
    ensures var ms := Flat(DataAt(mem, placed), order);
      && hdrs == HdrsOf(ms) && DescribesAll(mem, data, PartsOf(ms))
    ensures data == EntriesOf(BuffersIn(placed, order))
    ensures HeldData(registered, data) <==> HeldAll(registered, placed)
  {
    hide HeldData;
    hide HeldMessages;
    hdrs, data := [], [];
    ghost var all := DataAt(mem, placed);
    NothingHeld(registered, mem);
    NothingFlat(all);
    hide EntriesOf;
    hide BuffersOf;
    hide Flat;
    hide HdrsOf;
    hide PartsOf;
    hide DescribesAll;
    assert order[..0] == [];
    for i := 0 to |order|
      invariant hdrs == HdrsOf(Flat(all, order[..i]))
      invariant DescribesAll(mem, data, PartsOf(Flat(all, order[..i])))
      invariant data == EntriesOf(BuffersIn(placed, order[..i]))
      invariant HeldData(registered, data) <==> forall e | e in order[..i] :: e in placed && HeldMessages(registered, placed[e])
    {
      assert order[i] in order;
      assert order[..i + 1] == order[..i] + [order[i]] && order[..i + 1][..i] == order[..i];
      FlatSnoc(all, order[..i], order[i]);
      hdrs, data := DescribeMessages(placed[order[i]], hdrs, data, mem, Flat(all, order[..i]), BuffersIn(placed, order[..i]), registered);
    }
    assert order[..|order|] == order;
  }

  lemma {:induction false} NothingHeld(registered: seq<RegionInfo>, mem: Memory)
    ensures HeldData(registered, [])
    ensures DescribesAll(mem, [], []) && EntriesOf([]) == []
  {
  }

  method DescribeMessages(ms: seq<PlacedMessage>, hdrs: seq<HdrMeta>, data: seq<UcxData>,
                          ghost mem: Memory, ghost before: seq<Message>, ghost bufs: seq<Buffer>, ghost registered: seq<RegionInfo>)
    returns (h: seq<HdrMeta>, d: seq<UcxData>)
    requires hdrs == HdrsOf(before) && DescribesAll(mem, data, PartsOf(before)) && data == EntriesOf(bufs)
    ensures h == HdrsOf(before + MessagesAt(mem, ms)) && DescribesAll(mem, d, PartsOf(before + MessagesAt(mem, ms)))
    ensures d == EntriesOf(bufs + BuffersOf(ms))
    ensures HeldData(registered, d) <==> HeldData(registered, data) && HeldMessages(registered, ms)
  {
    hide *;
    h, d := hdrs, data;
    ghost var all := MessagesAt(mem, ms);
    MessageStep(mem, ms, 0, registered);
    assert ms[..0] == [] && before + all[..0] == before && bufs + BuffersOf(ms[..0]) == bufs;
    for i := 0 to |ms|
      invariant h == HdrsOf(before + all[..i]) && DescribesAll(mem, d, PartsOf(before + all[..i]))
      invariant d == EntriesOf(bufs + BuffersOf(ms[..i]))
      invariant HeldData(registered, d) <==> HeldData(registered, data) && HeldMessages(registered, ms[..i])
    {
      MessageStep(mem, ms, i, registered);
      ghost var so, far := before + all[..i], bufs + BuffersOf(ms[..i]);
      assert before + all[..i + 1] == so + [all[i]];
      SideBySideSnoc(so, all[i]);
      h := h + [HdrMeta(ms[i].hdr, |ms[i].buffers|)];
      d := DescribeParts(ms[i].buffers, d, mem, PartsOf(so), far, registered);
      assert far + ms[i].buffers == bufs + BuffersOf(ms[..i + 1]);
    }
    assert all[..|ms|] == all && ms[..|ms|] == ms;
  }

  lemma {:induction false} MessageStep(mem: Memory, ms: seq<PlacedMessage>, i: nat, registered: seq<RegionInfo>)
    requires i <= |ms|
    ensures |MessagesAt(mem, ms)| == |ms| && BuffersOf([]) == [] && HeldMessages(registered, [])
    ensures i < |ms| ==>
      && MessagesAt(mem, ms)[i] == Message(ms[i].hdr, PartsAt(mem, ms[i].buffers))
      && |PartsAt(mem, ms[i].buffers)| == |ms[i].buffers|
      && BuffersOf(ms[..i + 1]) == BuffersOf(ms[..i]) + ms[i].buffers
      && (HeldMessages(registered, ms[..i + 1]) <==> HeldMessages(registered, ms[..i]) && HeldBuffers(registered, ms[i].buffers))
  {
    hide HeldBuffers;
    assert i < |ms| ==> ms[..i + 1] == ms[..i] + [ms[i]] && ms[..i + 1][..i] == ms[..i];
  }

  method DescribeParts(bs: seq<Buffer>, data: seq<UcxData>, ghost mem: Memory, ghost before: seq<Part>,
                       ghost bufs: seq<Buffer>, ghost registered: seq<RegionInfo>)
    returns (d: seq<UcxData>)
    requires DescribesAll(mem, data, before) && data == EntriesOf(bufs)
    ensures d == EntriesOf(bufs + bs)
    ensures DescribesAll(mem, d, before + PartsAt(mem, bs))
    ensures HeldData(registered, d) <==> HeldData(registered, data) && HeldBuffers(registered, bs)
  {
    hide Held;
    hide HeldData;
    hide HeldBuffers;
    hide EntriesOf;
    hide DescribesAll;
    hide PartsAt;
    d := data;
    ghost var all := PartsAt(mem, bs);
    NoBuffers(mem, bs, registered);
    assert before + all[..0] == before && bufs + bs[..0] == bufs;
    for i := 0 to |bs|
      invariant d == EntriesOf(bufs + bs[..i])
      invariant DescribesAll(mem, d, before + all[..i])
      invariant HeldData(registered, d) <==> HeldData(registered, data) && HeldBuffers(registered, bs[..i])
    {
      assert before + all[..i + 1] == (before + all[..i]) + [all[i]];
      assert bs[..i + 1] == bs[..i] + [bs[i]] && bufs + bs[..i + 1] == (bufs + bs[..i]) + [bs[i]];
      ghost var was := d;
      OneMoreEntry(mem, was, before + all[..i], bufs + bs[..i], bs[i]);
      d := d + [UcxData(|d|, bs[i].start, bs[i].len, 0)];
      HeldOneMore(registered, was, d[|was|], bs[..i], bs[i]);
    }
    assert all[..|bs|] == all && bs[..|bs|] == bs;
  }

  lemma {:induction false} NoBuffers(mem: Memory, bs: seq<Buffer>, registered: seq<RegionInfo>)
    ensures |PartsAt(mem, bs)| == |bs| && HeldBuffers(registered, bs[..0])
    ensures forall i | 0 <= i < |bs| :: PartsAt(mem, bs)[i] == Bytes(mem, bs[i].start, bs[i].len)
  {
  }

  lemma {:induction false} OneMoreEntry(mem: Memory, data: seq<UcxData>, parts: seq<Part>, bufs: seq<Buffer>, b: Buffer)
    requires DescribesAll(mem, data, parts) && data == EntriesOf(bufs)
    ensures DescribesAll(mem, data + [UcxData(|data|, b.start, b.len, 0)], parts + [Bytes(mem, b.start, b.len)])
    ensures data + [UcxData(|data|, b.start, b.len, 0)] == EntriesOf(bufs + [b])
  {
    var more, all := data + [UcxData(|data|, b.start, b.len, 0)], parts + [Bytes(mem, b.start, b.len)];
    forall k | 0 <= k < |more| ensures more[k].idx == k && Describes(mem, more[k], all) {
      if k < |data| { assert Describes(mem, data[k], parts); }
    }
  }

  lemma {:induction false} HeldOneMore(registered: seq<RegionInfo>, data: seq<UcxData>, d: UcxData, bs: seq<Buffer>, b: Buffer)
    requires d.start == b.start && d.len == b.len
    ensures HeldData(registered, data + [d]) <==> HeldData(registered, data) && Held(registered, b.start, b.len)
    ensures HeldBuffers(registered, bs + [b]) <==> HeldBuffers(registered, bs) && Held(registered, b.start, b.len)
  {
    hide Held;
    assert forall e :: e in data + [d] <==> e in data || e == d;
    assert forall e :: e in bs + [b] <==> e in bs || e == b;
  }

  // ------------------------------------------------------------------------------ planning

  /** Both sequences list the same parts; the second tells their transactions. */
  ghost predicate SameParts(a: seq<UcxData>, b: seq<UcxData>) {
    |a| == |b| && forall i | 0 <= i < |a| :: b[i] == a[i].(txg := b[i].txg)
  }

  function Wrapped(x: int): nat { x % U64 }

  /** The gap is computed on unsigned addresses: buffers that overlap look far apart. */
  lemma {:induction false} WrappedGap(start: nat, end: nat, len: nat, gap: nat)
    requires gap <= MAX_GAP && start < U64 && end < U64
    requires end - start <= len && len < U64 - MAX_GAP
    ensures Wrapped(start - end) <= gap <==> end <= start <= end + gap
    ensures Wrapped(start - end) <= gap ==> Wrapped(start - end) == start - end
  {
    if start < end {
      assert (start - end) % U64 == start - end + U64;
    } else {
      assert (start - end) % U64 == start - end;
    }
  }

  /**
   Transactions for the parts in this order. Fails when a part is in no region, where the
   source throws.
  */
  method MakePlan(sorted: seq<UcxData>, infos: seq<RegionInfo>, rmaGap: nat)
    returns (ok: bool, data: seq<UcxData>, txgs: seq<Txg>, regions: seq<Region>, totalGap: nat)
    requires rmaGap <= MAX_GAP
    requires SortedBy(infos, BySize) && forall r | r in infos :: r.Addressable()
    requires SortedBy(sorted, (d: UcxData) => d.start)
    ensures ok <==> forall d | d in sorted :: Lookup(infos, d.start, d.len).Some?
    ensures ok ==> SameParts(sorted, data) && Plan(data, txgs, regions, totalGap, infos, rmaGap)
    ensures ok && sorted != [] ==> AtEnd(data, txgs, regions, infos)
  {
    hide Plan;
    ok, data, txgs, regions, totalGap := true, [], [], [], 0;
    assert Plan(data, txgs, regions, totalGap, infos, rmaGap) by { EmptyPlan(infos, rmaGap); }
    for i := 0 to |sorted|
      invariant ok && SameParts(sorted[..i], data)
      invariant forall d | d in sorted[..i] :: Lookup(infos, d.start, d.len).Some?
      invariant Plan(data, txgs, regions, totalGap, infos, rmaGap)
      invariant if i == 0 then txgs == [] && regions == [] else AtEnd(data, txgs, regions, infos)
    {
      var d := sorted[i];
      assert d in sorted && sorted[..i + 1] == sorted[..i] + [d];
      var found := Lookup(infos, d.start, d.len);
      if found.None? {
        ok := false;
        return;
      }
      if i > 0 { SortedByAt(sorted, (e: UcxData) => e.start, i - 1, i); }
      data, txgs, regions, totalGap := PlaceNext(d, found.value, data, txgs, regions, totalGap, infos, rmaGap);
    }
    assert sorted[..|sorted|] == sorted;
  }

  lemma {:induction false} LastNumbers(data: seq<UcxData>, txgs: seq<Txg>, regions: seq<Region>, total: nat, infos: seq<RegionInfo>, gap: nat)
    requires Plan(data, txgs, regions, total, infos, gap)
    ensures Numbered(regions) && (txgs != [] ==> txgs[|txgs| - 1].txg == |txgs| - 1)
  {
    assert txgs != [] ==> InRegion(txgs[|txgs| - 1], |txgs| - 1, regions);
  }

  lemma {:induction false} EmptyPlan(infos: seq<RegionInfo>, gap: nat)
    ensures Plan([], [], [], 0, infos, gap)
  {
  }

  /** The next part extends the current transaction, or opens a new one, perhaps in a new region. */
  method PlaceNext(d: UcxData, info: RegionInfo, data: seq<UcxData>, txgs: seq<Txg>, regions: seq<Region>, total: nat,
                   infos: seq<RegionInfo>, rmaGap: nat)
    returns (data': seq<UcxData>, txgs': seq<Txg>, regions': seq<Region>, total': nat)
    requires rmaGap <= MAX_GAP
    requires SortedBy(infos, BySize) && forall r | r in infos :: r.Addressable()
    requires Plan(data, txgs, regions, total, infos, rmaGap)
    requires if data == [] then txgs == [] && regions == [] else AtEnd(data, txgs, regions, infos)
    requires data != [] ==> data[|data| - 1].start <= d.start
    requires Lookup(infos, d.start, d.len) == Some(info)
    ensures Plan(data', txgs', regions', total', infos, rmaGap) && AtEnd(data', txgs', regions', infos)
    ensures |data'| == |data| + 1 && data'[..|data|] == data && data'[|data|] == d.(txg := data'[|data|].txg)
  {
    hide Plan;
    hide SortedBy;
    LookupFinds(infos, d.start, d.len);
    LastNumbers(data, txgs, regions, total, infos, rmaGap);
    regions' := regions;
    if data == [] {
      regions' := [Region(0, info)];
    } else {
      var last, region, t := data[|data| - 1], regions[|regions| - 1], txgs[|txgs| - 1];
      LookupFinds(infos, last.start, last.len);
      if region.info.ptr == info.ptr {
        SamePointerSameRegion(infos, last.start, last.len, d.start, d.len);
        var gap := Wrapped(d.start - t.End());
        WrappedGap(d.start, t.End(), last.len, rmaGap);
        if gap <= rmaGap {
          ExtendPlan(data, d.(txg := t.txg), txgs, regions, total, infos, rmaGap, gap);
          txgs' := txgs[..|txgs| - 1] + [t.(len := t.len + gap + d.len, dataParts := t.dataParts + 1)];
          return data + [d.(txg := t.txg)], txgs', regions, total + gap;
        }
      } else {
        regions' := regions + [Region(|regions|, info)];
      }
    }
    NewPlan(data, d.(txg := |txgs|), txgs, regions, regions', total, infos, rmaGap);
    return data + [d.(txg := |txgs|)], txgs + [Txg(|txgs|, d.start, d.len, 1, |regions'| - 1)], regions', total;
  }

  // ----------------------------------------------------------------------------- receiving

  function Indices(data: seq<UcxData>): seq<nat> {
    seq(|data|, i requires 0 <= i < |data| => data[i].idx)
  }

  lemma {:induction false} IndicesWithout(b: seq<UcxData>, i: nat)
    requires i < |b|
    ensures multiset(b) == multiset(b[..i] + b[i + 1..]) + multiset{b[i]}
    ensures multiset(Indices(b)) == multiset(Indices(b[..i] + b[i + 1..])) + multiset{b[i].idx}
  {
    var front, back := b[..i], b[i + 1..];
    assert b == front + [b[i]] + back;
    assert Indices(b) == Indices(front) + [b[i].idx] + Indices(back);
    assert Indices(front + back) == Indices(front) + Indices(back);
  }

  lemma {:induction false} IndicesOfPermutation(a: seq<UcxData>, b: seq<UcxData>)
    requires multiset(a) == multiset(b)
    ensures multiset(Indices(a)) == multiset(Indices(b))
    decreases |a|
  {
    hide Indices;
    assert |a| == |multiset(a)| == |multiset(b)| == |b|;
    if a == [] {
      assert a == b;
    } else {
      assert a[0] in multiset(b);
      var i :| 0 <= i < |b| && b[i] == a[0];
      var c := b[..i] + b[i + 1..];
      IndicesWithout(b, i);
      IndicesWithout(a, 0);
      assert a[..0] + a[1..] == a[1..];
      Cancel(multiset(a[1..]), multiset(c), a[0]);
      IndicesOfPermutation(a[1..], c);
    }
  }

  /** Sorted by index again, the entries describe the parts one by one. */
  lemma {:induction false} BackInOrder(mem: Memory, described: seq<UcxData>, sorted: seq<UcxData>, planned: seq<UcxData>,
                    back: seq<UcxData>, parts: seq<Part>)
    requires DescribesAll(mem, described, parts)
    requires multiset(sorted) == multiset(described) && SameParts(sorted, planned)
    requires multiset(back) == multiset(planned) && SortedBy(back, (d: UcxData) => d.idx)
    ensures DescribesAll(mem, back, parts)
    ensures forall d | d in back :: d in planned
  {
    IndicesOfPermutation(sorted, described);
    IndicesOfPermutation(back, planned);
    assert Indices(sorted) == Indices(planned);
    forall i, j | 0 <= i < j < |back| ensures back[i].idx <= back[j].idx {
      SortedByAt(back, (d: UcxData) => d.idx, i, j);
    }
    assert NonDecreasing(Indices(back)) && NonDecreasing(Indices(described));
    SortedUnique(Indices(back), Indices(described));
    forall k | 0 <= k < |back|
      ensures back[k].idx == k && Describes(mem, back[k], parts) && back[k] in planned
    {
      assert Indices(back)[k] == Indices(described)[k] == k;
      assert back[k] in multiset(planned);
      var i :| 0 <= i < |planned| && planned[i] == back[k];
      assert sorted[i] in multiset(described);
      var j :| 0 <= j < |described| && described[j] == sorted[i];
      assert Describes(mem, described[j], parts);
    }
    assert |back| == |Indices(back)| == |described|;
  }

  /** One remote read, through the key of the region the transaction lies in. */
  method Fetch(mem: Memory, t: Txg, region: Region) returns (buffer: seq<bv8>)
    requires region.info.Contains(t.start, t.len)
    ensures buffer == Bytes(mem, t.start, t.len)
  {
    buffer := Bytes(mem, t.start, t.len);
  }

  method FetchAll(mem: Memory, txgs: seq<Txg>, regions: seq<Region>) returns (buffers: seq<seq<bv8>>)
    requires AllInRegions(txgs, regions)
    ensures |buffers| == |txgs|
    ensures forall t | 0 <= t < |txgs| :: buffers[t] == Bytes(mem, txgs[t].start, txgs[t].len)
  {
    buffers := [];
    for i := 0 to |txgs|
      invariant |buffers| == i
      invariant forall t | 0 <= t < i :: buffers[t] == Bytes(mem, txgs[t].start, txgs[t].len)
    {
      assert InRegion(txgs[i], i, regions);
      var buffer := Fetch(mem, txgs[i], regions[txgs[i].region]);
      buffers := buffers + [buffer];
    }
  }

  /**
   The parts are cut out of the fetched transactions in their original order. `asserted` tells
   whether the receiver's assertions held for every part.
  */
  method CutOut(back: seq<UcxData>, txgs: seq<Txg>, buffers: seq<seq<bv8>>, ghost mem: Memory, ghost parts: seq<Part>)
    returns (cut: seq<Part>, asserted: bool)
    requires AllInTxgs(back, txgs) && DescribesAll(mem, back, parts)
    requires |buffers| == |txgs|
    requires forall t | 0 <= t < |txgs| :: buffers[t] == Bytes(mem, txgs[t].start, txgs[t].len)
    ensures cut == parts
    ensures asserted <==> forall d | d in back :: BeginsInside(d, txgs)
  {
    cut, asserted := [], true;
    for k := 0 to |back|
      invariant cut == parts[..k]
      invariant asserted <==> forall d | d in back[..k] :: BeginsInside(d, txgs)
    {
      var d := back[k];
      assert d in back && InTxg(d, txgs) && Describes(mem, d, parts);
      assert back[..k + 1] == back[..k] + [d];
      var t := txgs[d.txg];
      var off := d.start - t.start;
      assert BeginsInside(d, txgs) <==> off < t.len;
      assert forall e :: e in back[..k + 1] <==> e in back[..k] || e == d;
      asserted := asserted && off >= 0 && off < t.len && off + d.len <= t.len;
      assert buffers[d.txg][off..off + d.len] == Bytes(mem, d.start, d.len);
      cut := cut + [buffers[d.txg][off..off + d.len]];
    }
    assert back[..|back|] == back;
  }

  // ------------------------------------------------------------------------ the whole way

  method SumOf(data: seq<UcxData>) returns (size: nat)
    ensures size == DataSum(data)
  {
    size := 0;
    for i := 0 to |data|
      invariant size == DataSum(data[..i])
    {
      assert data[..i + 1][..i] == data[..i];
      size := size + data[i].len;
    }
    assert data[..|data|] == data;
  }

  /** The entries of the buffers, sorted by address. */
  ghost predicate InAddressOrder(sorted: seq<UcxData>, bs: seq<Buffer>) {
    multiset(sorted) == multiset(EntriesOf(bs)) && SortedBy(sorted, (d: UcxData) => d.start)
  }

  /** The registered regions, larger ones first. */
  ghost predicate LargestFirst(infos: seq<RegionInfo>, registered: seq<RegionInfo>) {
    multiset(infos) == multiset(registered) && SortedBy(infos, BySize)
  }

  method Send(header: StfHeader, placed: PlacedData, order: seq<Equipment>, registered: seq<RegionInfo>,
              rmaGap: nat, ghost mem: Memory)
    returns (ok: bool, h: UcxHeader, ghost described: seq<UcxData>, ghost sorted: seq<UcxData>, ghost infos: seq<RegionInfo>, totalGap: nat)
    requires Enumerates(order, DataAt(mem, placed))
    requires rmaGap <= MAX_GAP && forall r | r in registered :: r.Addressable()
    ensures DescribesAll(mem, described, PartsOf(Flat(DataAt(mem, placed), order))) && described == EntriesOf(BuffersIn(placed, order))
    ensures InAddressOrder(sorted, BuffersIn(placed, order)) && LargestFirst(infos, registered)
    ensures ok <==> HeldAll(registered, placed)
    ensures ok <==> forall d | d in sorted :: Lookup(infos, d.start, d.len).Some?
    ensures ok ==>
      && h.meta.header == header && h.meta.stfId == header.id && h.meta.stfSize == DataSum(described)
      && h.meta.hdrs == HdrsOf(Flat(DataAt(mem, placed), order))
      && multiset(sorted) == multiset(described) && SameParts(sorted, h.data)
      && Plan(h.data, h.txgs, h.regions, totalGap, infos, rmaGap)
  {
    hide Plan;
    hide HeldAll;
    hide EntriesOf;
    hide BuffersIn;
    var hdrs, data := Describe(placed, order, mem, registered);
    described := data;
    var byStart := SortBy(data, (d: UcxData) => d.start);
    sorted := byStart;
    var bySize := SortBy(registered, BySize);
    infos := bySize;
    assert forall r :: r in infos <==> r in multiset(infos);
    assert forall r :: r in registered <==> r in multiset(registered);
    var planned, txgs, regions;
    ok, planned, txgs, regions, totalGap := MakePlan(byStart, bySize, rmaGap);
    assert forall d :: d in sorted <==> d in multiset(sorted);
    assert forall d :: d in described <==> d in multiset(described);
    forall d | d in described
      ensures Lookup(infos, d.start, d.len).Some? <==> Held(registered, d.start, d.len)
    {
      LookupFinds(infos, d.start, d.len);
    }
    var size := SumOf(data);
    h := UcxHeader(IovHeader(header.id, size, header, hdrs), planned, txgs, regions);
  }

  method Receive(h: UcxHeader, mem: Memory, stf: SubTimeFrame, ghost described: seq<UcxData>, ghost sorted: seq<UcxData>,
                 ghost ms: seq<Message>)
    returns (asserted: bool)
    requires AllInTxgs(h.data, h.txgs) && AllInRegions(h.txgs, h.regions)
    requires DescribesAll(mem, described, PartsOf(ms)) && HaveParts(ms) && h.meta.hdrs == HdrsOf(ms)
    requires multiset(sorted) == multiset(described) && SameParts(sorted, h.data)
    modifies stf
    ensures stf.header == h.meta.header
    ensures stf.data == PutAll(old(stf.data), ms)
    ensures asserted <==> forall d | d in h.data :: BeginsInside(d, h.txgs)
  {
    hide SortedBy;
    var buffers := FetchAll(mem, h.txgs, h.regions);
    var back := SortBy(h.data, (d: UcxData) => d.idx);
    BackInOrder(mem, described, sorted, h.data, back, PartsOf(ms));
    assert forall d :: d in back <==> d in multiset(back);
    assert forall d :: d in h.data <==> d in multiset(h.data);
    var parts;
    parts, asserted := CutOut(back, h.txgs, buffers, mem, PartsOf(ms));
    CutParts(ms);
    DeserializeInto(stf, h.meta, parts);
  }

  lemma {:induction false} PlacedIsFiled(mem: Memory, placed: PlacedData)
    requires forall e, m | e in placed && m in placed[e] :: m.hdr.Equip() == e && m.buffers != []
    requires forall e | e in placed :: placed[e] != []
    ensures Filed(DataAt(mem, placed)) && NoneEmpty(DataAt(mem, placed))
    ensures forall e, m | e in placed && m in DataAt(mem, placed)[e] :: m.parts != []
  {
    forall e, m | e in placed && m in DataAt(mem, placed)[e] ensures m.hdr.Equip() == e && m.parts != [] {
      var i :| 0 <= i < |placed[e]| && MessagesAt(mem, placed[e])[i] == m;
      assert placed[e][i] in placed[e];
      assert |m.parts| == |placed[e][i].buffers|;
    }
  }

  /**
   The transfer as a whole: it fails exactly when some buffer is in no registered region, and
   otherwise the builder gets the same messages per equipment, byte for byte and in order,
   whatever the order of the visit and however the buffers lie. The receiver's assertions hold
   exactly when every empty buffer is joined by the next one in the order `sorted`; unless an empty
   and a non-empty buffer have the same address, or sizes do not tell regions apart, that order
   does not matter: every empty buffer must have the next address in use close behind it.
  */
  method Transfer(header: StfHeader, placed: PlacedData, order: seq<Equipment>, registered: seq<RegionInfo>,
                  rmaGap: nat, mem: Memory, now: nat)
    returns (ok: bool, received: SubTimeFrame, asserted: bool, ghost sorted: seq<UcxData>, ghost infos: seq<RegionInfo>)
    requires Enumerates(order, DataAt(mem, placed))
    requires forall e, m | e in placed && m in placed[e] :: m.hdr.Equip() == e && m.buffers != []
    requires forall e | e in placed :: placed[e] != []
    requires rmaGap <= MAX_GAP && forall r | r in registered :: r.Addressable()
    ensures ok <==> HeldAll(registered, placed)
    ensures ok ==> received.header == header && received.data == DataAt(mem, placed)
    ensures InAddressOrder(sorted, BuffersIn(placed, order)) && LargestFirst(infos, registered)
    ensures ok ==> (asserted <==> EmptyOnesJoined(sorted, infos, rmaGap))
    ensures ok && OnlyEmptyOnesTie(BuffersIn(placed, order)) && SizesTell(registered, BuffersIn(placed, order)) ==>
      (asserted <==> EmptyOnesBridged(BuffersIn(placed, order), registered, rmaGap))
    ensures ok && NoEmptyPart(placed) ==> asserted
  {
    hide Plan;
    hide HeldAll;
    hide EmptyOnesJoined;
    hide EmptyOnesBridged;
    hide OnlyEmptyOnesTie;
    hide SizesTell;
    hide BuffersIn;
    hide EntriesOf;
    PlacedIsFiled(mem, placed);
    ghost var data := DataAt(mem, placed);
    received := new SubTimeFrame(header.id, now);
    received.UpdateStf();
    assert received.data == map[];
    var h;
    ghost var described;
    var gap;
    ok, h, described, sorted, infos, gap := Send(header, placed, order, registered, rmaGap, mem);
    asserted := true;
    if ok {
      ghost var ms := Flat(data, order);
      forall m | m in ms ensures m.parts != [] {
        FlatMembers(data, order, m);
      }
      CollectFlat(data, order);
      AllBeginInside(h.data, h.txgs, h.regions, gap, infos, rmaGap);
      SameJoined(sorted, h.data, infos, rmaGap);
      ghost var bs := BuffersIn(placed, order);
      if OnlyEmptyOnesTie(bs) && SizesTell(registered, bs) {
        JoinedExactlyBridged(bs, sorted, infos, registered, rmaGap);
      }
      if NoEmptyPart(placed) { FullOnesJoined(placed, order, sorted, infos, rmaGap); }
      asserted := Receive(h, mem, received, described, sorted, ms);
    }
  }

  lemma {:induction false} SameJoined(a: seq<UcxData>, b: seq<UcxData>, infos: seq<RegionInfo>, gap: nat)
    requires SameParts(a, b)
    ensures EmptyOnesJoined(a, infos, gap) <==> EmptyOnesJoined(b, infos, gap)
  {
    hide Lookup;
    forall i | 0 <= i && i + 1 < |a|
      ensures Joins(a[i], a[i + 1], infos, gap) <==> Joins(b[i], b[i + 1], infos, gap)
    {
      assert b[i] == a[i].(txg := b[i].txg) && b[i + 1] == a[i + 1].(txg := b[i + 1].txg);
    }
  }

  ghost predicate NoEmptyPart(placed: PlacedData) {
    forall e, m, b | e in placed && m in placed[e] && b in m.buffers :: b.len > 0
  }

  lemma {:induction false} FullOnesJoined(placed: PlacedData, order: seq<Equipment>, sorted: seq<UcxData>, infos: seq<RegionInfo>, gap: nat)
    requires NoEmptyPart(placed) && InAddressOrder(sorted, BuffersIn(placed, order))
    ensures EmptyOnesJoined(sorted, infos, gap)
  {
    hide NoEmptyPart;
    forall i | 0 <= i < |sorted| ensures sorted[i].len > 0 {
      EntryAt(BuffersIn(placed, order), sorted, i);
      BufferIn(placed, order, BuffersIn(placed, order)[sorted[i].idx]);
    }
  }

  lemma {:induction false} BufferIn(placed: PlacedData, order: seq<Equipment>, b: Buffer)
    requires NoEmptyPart(placed) && b in BuffersIn(placed, order)
    ensures b.len > 0
    decreases |order|
  {
    var n := |order| - 1;
    if b in BuffersIn(placed, order[..n]) {
      BufferIn(placed, order[..n], b);
    } else {
      BufferOf(placed[order[n]], b);
      var m :| m in placed[order[n]] && b in m.buffers;
    }
  }

  lemma {:induction false} BufferOf(ms: seq<PlacedMessage>, b: Buffer)
    requires b in BuffersOf(ms)
    ensures exists m :: m in ms && b in m.buffers
    decreases |ms|
  {
    var n := |ms| - 1;
    assert ms[n] in ms;
    if b in BuffersOf(ms[..n]) {
      BufferOf(ms[..n], b);
      var m :| m in ms[..n] && b in m.buffers;
      assert m in ms;
    }
  }
}
