/**
 How sub-time-frames lie in a file: a meta record with the size of the whole, an index with one
 element per equipment, and then a header and a payload for every data part.
*/
module StfFileFormat {
  import opened Wrappers
  import opened StfModel
  import opened StfStreams
  import opened EquipmentOrder

  const META_SIZE: nat := 24
  const ELEM_SIZE: nat := 48

  const META_DESC: nat := 0x41_5445_4D5F_4654_535F_454C_4946
  const INDEX_DESC: nat := 0x5845_444E_495F_4654_535F_454C_4946
  const FLP_ORIGIN: nat := 0x0050_4C46
  const ANY_ORIGIN: nat := 0x0059_4E41

  datatype FileMeta = FileMeta(stfSize: nat, writeTimeMs: nat)

  datatype IndexElem = IndexElem(equip: Equipment, blockCnt: nat, offset: nat, size: nat)

  /**
   How records are laid out in bytes. A data header occupies `hdrSize` bytes, of which the first
   `baseSize` tell its own size and whether another header is stacked behind it. `fits` holds of
   the headers whose fields fit their widths.
  */
  datatype Layout = Layout(hdrSize: nat, baseSize: nat,
                           encHdr: DataHeader -> seq<bv8>, decHdr: seq<bv8> -> Option<DataHeader>,
                           ownSize: seq<bv8> -> nat, hasNext: seq<bv8> -> bool, fits: DataHeader -> bool,
                           encMeta: FileMeta -> seq<bv8>, decMeta: seq<bv8> -> FileMeta,
                           encElem: IndexElem -> seq<bv8>)
  {
    ghost predicate HdrOk(h: DataHeader) {
      && baseSize <= hdrSize == |encHdr(h)| && decHdr(encHdr(h)) == Some(h)
      && ownSize(encHdr(h)[..baseSize]) == hdrSize && !hasNext(encHdr(h)[..baseSize])
    }

    ghost predicate MetaOk(m: FileMeta) {
      decMeta(encMeta(m)) == m
    }

    ghost predicate Valid() {
      && 0 < baseSize <= hdrSize
      && (forall h | fits(h) :: HdrOk(h))
      && (forall m :: |encMeta(m)| == META_SIZE)
      && (forall e :: |encElem(e)| == ELEM_SIZE)
    }
  }

  // ------------------------------------------------------------------------------- blocks

  /** A data header and its payload. */
  datatype Block = Block(hdr: DataHeader, payload: Part)

  /** The header that is written before part `i`. */
  function WrittenHdr(m: Message, i: nat): DataHeader
    requires i < |m.parts|
  {
    m.hdr.(payloadSize := |m.parts[i]|, splitIndex := i, rest := [])
  }

  function BlocksUpTo(m: Message, n: nat): seq<Block>
    requires n <= |m.parts|
  {
    if n == 0 then [] else BlocksUpTo(m, n - 1) + [Block(WrittenHdr(m, n - 1), m.parts[n - 1])]
  }

  function Blocks(ms: seq<Message>): seq<Block> {
    if ms == [] then []
    else
      var m := ms[|ms| - 1];
      Blocks(ms[..|ms| - 1]) + BlocksUpTo(m, |m.parts|)
  }

  function BlockBytes(l: Layout, bs: seq<Block>): seq<bv8> {
    if bs == [] then []
    else
      var b := bs[|bs| - 1];
      BlockBytes(l, bs[..|bs| - 1]) + l.encHdr(b.hdr) + b.payload
  }

  /** The bytes that a sequence of messages takes in the file. */
  function SizeInFile(l: Layout, ms: seq<Message>): nat {
    if ms == [] then 0
    else
      var m := ms[|ms| - 1];
      SizeInFile(l, ms[..|ms| - 1]) + |m.parts| * l.hdrSize + PartsSize(m.parts)
  }

  ghost predicate FitsAll(l: Layout, bs: seq<Block>) {
    forall b | b in bs :: l.fits(b.hdr)
  }

  lemma {:induction false} BlocksMore(ms: seq<Message>, m: Message)
    ensures Blocks([]) == [] && Blocks(ms + [m]) == Blocks(ms) + BlocksUpTo(m, |m.parts|)
  {
    assert (ms + [m])[..|ms|] == ms;
  }

  /** The block of part `k` has a header of its own that says so; all else is as in the message. */
  ghost predicate TellsBlock(b: Block, m: Message, k: nat) {
    && k < |m.parts| && b.payload == m.parts[k] && b.hdr.payloadSize == |m.parts[k]| && b.hdr.splitIndex == k && b.hdr.rest == []
    && b.hdr.desc == m.hdr.desc && b.hdr.origin == m.hdr.origin && b.hdr.subSpec == m.hdr.subSpec
    && b.hdr.splitParts == m.hdr.splitParts && b.hdr.tfCounter == m.hdr.tfCounter && b.hdr.runNumber == m.hdr.runNumber
    && b.hdr.firstOrbit == m.hdr.firstOrbit
  }

  lemma {:induction false} BlockUpToAt(m: Message, n: nat, k: nat)
    requires k <= n <= |m.parts|
    ensures |BlocksUpTo(m, n)| == n && (k < n ==> TellsBlock(BlocksUpTo(m, n)[k], m, k))
    decreases n
  {
    if n > 0 { BlockUpToAt(m, n - 1, if k < n then k else 0); }
    if 0 < n && k == n - 1 { BlockUpToAt(m, n - 1, 0); }
  }

  /** Each part of each message is one block, in order. */
  lemma {:induction false} BlocksTell(ms: seq<Message>, i: nat, k: nat)
    requires i < |ms| && k < |ms[i].parts|
    ensures PartsBefore(ms, i) + k < |Blocks(ms)| == PartsBefore(ms, |ms|)
    ensures TellsBlock(Blocks(ms)[PartsBefore(ms, i) + k], ms[i], k)
    decreases |ms|
  {
    hide TellsBlock;
    hide PartsBefore;
    var n := |ms| - 1;
    var front, m := ms[..n], ms[n];
    assert ms == front + [m];
    PartsBeforeMore(front, m, i);
    BlocksCount(front);
    BlockUpToAt(m, |m.parts|, 0);
    if i < n {
      BlocksTell(front, i, k);
    } else {
      BlockUpToAt(m, |m.parts|, k);
    }
  }

  lemma {:induction false} BlocksCount(ms: seq<Message>)
    ensures |Blocks(ms)| == PartsBefore(ms, |ms|)
    decreases |ms|
  {
    hide TellsBlock;
    if ms != [] {
      var n := |ms| - 1;
      assert ms == ms[..n] + [ms[n]];
      BlocksCount(ms[..n]);
      PartsBeforeMore(ms[..n], ms[n], n);
      BlockUpToAt(ms[n], |ms[n].parts|, 0);
    }
  }

  lemma {:induction false} BlocksConcat(a: seq<Message>, b: seq<Message>)
    ensures Blocks(a + b) == Blocks(a) + Blocks(b)
    decreases |b|
  {
    hide BlocksUpTo;
    hide Blocks;
    if b == [] {
      assert a + b == a;
      BlocksMore([], Message(MetaHdr(), []));
    } else {
      var n := |b| - 1;
      BlocksConcat(a, b[..n]);
      BlocksMore(a + b[..n], b[n]);
      BlocksMore(b[..n], b[n]);
      assert a + b == (a + b[..n]) + [b[n]] && b == b[..n] + [b[n]];
    }
  }

  lemma {:induction false} SizeConcat(l: Layout, a: seq<Message>, b: seq<Message>)
    ensures SizeInFile(l, a + b) == SizeInFile(l, a) + SizeInFile(l, b)
    decreases |b|
  {
    if b == [] {
      assert a + b == a;
    } else {
      var n := |b| - 1;
      assert (a + b)[..|a| + n] == a + b[..n];
      SizeConcat(l, a, b[..n]);
    }
  }

  lemma {:induction false} BlockBytesConcat(l: Layout, a: seq<Block>, b: seq<Block>)
    ensures BlockBytes(l, a + b) == BlockBytes(l, a) + BlockBytes(l, b)
    decreases |b|
  {
    if b == [] {
      assert a + b == a;
    } else {
      var n := |b| - 1;
      assert (a + b)[..|a| + n] == a + b[..n];
      BlockBytesConcat(l, a, b[..n]);
    }
  }

  lemma {:induction false} UpToSize(l: Layout, m: Message, n: nat)
    requires l.Valid() && n <= |m.parts| && FitsAll(l, BlocksUpTo(m, n))
    ensures |BlockBytes(l, BlocksUpTo(m, n))| == n * l.hdrSize + PartsSize(m.parts[..n])
    decreases n
  {
    hide FitsAll;
    hide Layout.Valid;
    hide WrittenHdr;
    NoBytes(l);
    hide BlockBytes;
    if n > 0 {
      var bs, b := BlocksUpTo(m, n), Block(WrittenHdr(m, n - 1), m.parts[n - 1]);
      assert bs == BlocksUpTo(m, n - 1) + [b];
      FitsMore(l, BlocksUpTo(m, n - 1), b);
      UpToSize(l, m, n - 1);
      BytesSnoc(l, BlocksUpTo(m, n - 1), b);
      assert m.parts[..n][..n - 1] == m.parts[..n - 1];
      OneMore(n, l.hdrSize);
    }
  }

  lemma {:induction false} NoBytes(l: Layout)
    ensures BlockBytes(l, []) == []
  {
  }

  lemma {:induction false} OneMore(n: nat, h: nat)
    requires n > 0
    ensures n * h == (n - 1) * h + h
  {
  }

  lemma {:induction false} FitsMore(l: Layout, bs: seq<Block>, b: Block)
    ensures FitsAll(l, bs + [b]) <==> FitsAll(l, bs) && l.fits(b.hdr)
  {
    assert forall x :: x in bs + [b] <==> x in bs || x == b;
  }

  lemma {:induction false} BytesSnoc(l: Layout, bs: seq<Block>, b: Block)
    requires l.Valid() && l.fits(b.hdr)
    ensures BlockBytes(l, bs + [b]) == BlockBytes(l, bs) + l.encHdr(b.hdr) + b.payload
    ensures |BlockBytes(l, bs + [b])| == |BlockBytes(l, bs)| + l.hdrSize + |b.payload|
  {
    assert (bs + [b])[..|bs|] == bs;
    assert l.HdrOk(b.hdr);
  }

  /** The predicted size of the data is the number of bytes written for it. */
  lemma {:induction false} SizeIsWritten(l: Layout, ms: seq<Message>)
    requires l.Valid() && FitsAll(l, Blocks(ms))
    ensures |BlockBytes(l, Blocks(ms))| == SizeInFile(l, ms)
    decreases |ms|
  {
    if ms != [] {
      var n, m := |ms| - 1, ms[|ms| - 1];
      assert forall b | b in Blocks(ms[..n]) :: b in Blocks(ms);
      assert forall b | b in BlocksUpTo(m, |m.parts|) :: b in Blocks(ms);
      SizeIsWritten(l, ms[..n]);
      UpToSize(l, m, |m.parts|);
      assert m.parts[..|m.parts|] == m.parts;
      BlockBytesConcat(l, Blocks(ms[..n]), BlocksUpTo(m, |m.parts|));
    }
  }

  // -------------------------------------------------------------------------------- the file

  function MetaHdr(): DataHeader {
    DataHeader(META_DESC, FLP_ORIGIN, 0, 0, 1, META_SIZE, 0, 0, 0, [])
  }

  function IndexHdr(n: nat): DataHeader {
    DataHeader(INDEX_DESC, ANY_ORIGIN, 0, 0, 1, n * ELEM_SIZE, 0, 0, 0, [])
  }

  function IndexBytes(l: Layout, index: seq<IndexElem>): seq<bv8> {
    if index == [] then [] else IndexBytes(l, index[..|index| - 1]) + l.encElem(index[|index| - 1])
  }

  lemma {:induction false} IndexSize(l: Layout, index: seq<IndexElem>)
    requires l.Valid()
    ensures |IndexBytes(l, index)| == |index| * ELEM_SIZE
    decreases |index|
  {
    if index != [] { IndexSize(l, index[..|index| - 1]); }
  }

  /** One sub-time-frame as it is written. */
  datatype Record = Record(meta: FileMeta, index: seq<IndexElem>, ms: seq<Message>)
  {
    function Bytes(l: Layout): seq<bv8> {
      l.encHdr(MetaHdr()) + l.encMeta(meta) + l.encHdr(IndexHdr(|index|)) + IndexBytes(l, index) + BlockBytes(l, Blocks(ms))
    }

    function Size(l: Layout): nat {
      (l.hdrSize + META_SIZE) + (l.hdrSize + |index| * ELEM_SIZE) + SizeInFile(l, ms)
    }

    /** The meta record tells the size, and every header fits. */
    ghost predicate Valid(l: Layout) {
      && l.Valid() && meta.stfSize == Size(l) && l.MetaOk(meta)
      && l.fits(MetaHdr()) && l.fits(IndexHdr(|index|)) && FitsAll(l, Blocks(ms))
    }
  }

  /** The size in the meta record is the number of bytes of the whole. */
  lemma {:induction false} RecordSize(l: Layout, r: Record)
    requires r.Valid(l)
    ensures |r.Bytes(l)| == r.meta.stfSize
  {
    assert l.HdrOk(MetaHdr()) && l.HdrOk(IndexHdr(|r.index|));
    IndexSize(l, r.index);
    SizeIsWritten(l, r.ms);
  }

  // -------------------------------------------------------------------------------- the index

  /** The index of the messages, equipment by equipment. */
  ghost function IndexOf(l: Layout, data: StfData, order: seq<Equipment>): seq<IndexElem> {
    if order == [] then []
    else
      var n := |order| - 1;
      var ms := MessagesOf(data, order[n]);
      IndexOf(l, data, order[..n])
      + [IndexElem(order[n], |Blocks(ms)|, SizeInFile(l, Flat(data, order[..n])), SizeInFile(l, ms))]
  }

  lemma {:induction false} IndexOfAt(l: Layout, data: StfData, order: seq<Equipment>, k: nat)
    requires k < |order|
    ensures |IndexOf(l, data, order)| == |order|
    ensures
      var ms := MessagesOf(data, order[k]);
      IndexOf(l, data, order)[k]
      == IndexElem(order[k], |Blocks(ms)|, SizeInFile(l, Flat(data, order[..k])), SizeInFile(l, ms))
    decreases |order|
  {
    hide SizeInFile;
    hide Blocks;
    hide Flat;
    var n := |order| - 1;
    IndexLength(l, data, order[..n]);
    if k < n {
      IndexOfAt(l, data, order[..n], k);
      assert order[..n][..k] == order[..k];
    }
  }

  lemma {:induction false} IndexLength(l: Layout, data: StfData, order: seq<Equipment>)
    ensures |IndexOf(l, data, order)| == |order|
    decreases |order|
  {
    if order != [] { IndexLength(l, data, order[..|order| - 1]); }
  }

  /** The elements follow each other without a gap, from offset zero to the end of the data. */
  lemma {:induction false} IndexCovers(l: Layout, data: StfData, order: seq<Equipment>, k: nat)
    requires k < |order|
    ensures |IndexOf(l, data, order)| == |order|
    ensures var index := IndexOf(l, data, order);
      && index[0].offset == 0
      && (k + 1 < |order| ==> index[k].offset + index[k].size == index[k + 1].offset)
      && (k + 1 == |order| ==> index[k].offset + index[k].size == SizeInFile(l, Flat(data, order)))
  {
    hide IndexOf;
    hide Blocks;
    IndexOfAt(l, data, order, 0);
    IndexOfAt(l, data, order, k);
    assert order[..k + 1][..k] == order[..k];
    SizeConcat(l, Flat(data, order[..k]), MessagesOf(data, order[k]));
    assert Flat(data, order[..k + 1]) == Flat(data, order[..k]) + MessagesOf(data, order[k]);
    assert order[..0] == [] && SizeInFile(l, Flat(data, [])) == 0;
    hide SizeInFile;
    hide Flat;
    if k + 1 < |order| { IndexOfAt(l, data, order, k + 1); } else { assert order[..k + 1] == order; }
  }

  /**
   The byte range of an element holds exactly the blocks of its equipment, as many as it says,
   and all of them are headed by that equipment.
  */
  lemma {:induction false} IndexAgrees(l: Layout, data: StfData, order: seq<Equipment>, k: nat)
    requires l.Valid() && Enumerates(order, data) && Filed(data) && k < |order|
    requires FitsAll(l, Blocks(Flat(data, order)))
    ensures |IndexOf(l, data, order)| == |order|
    ensures
      var x, bytes, blocks := IndexOf(l, data, order)[k], BlockBytes(l, Blocks(Flat(data, order))), Blocks(data[order[k]]);
      && x.equip == order[k] && x.blockCnt == |blocks|
      && x.offset + x.size <= |bytes| && bytes[x.offset..x.offset + x.size] == BlockBytes(l, blocks)
      && forall b | b in blocks :: b.hdr.Equip() == x.equip
  {
    hide IndexOf;
    hide SizeInFile;
    hide Blocks;
    hide BlockBytes;
    hide Flat;
    hide FitsAll;
    var e := order[k];
    assert e in data && FiledUnder(data[e], e);
    IndexOfAt(l, data, order, k);
    FlatSplit(data, order, k);
    var before, own, after := Flat(data, order[..k]), data[e], Flat(data, order[k + 1..]);
    BlocksConcat(before, own + after);
    BlocksConcat(own, after);
    var a, b, c := Blocks(before), Blocks(own), Blocks(after);
    FitsParts(l, a, b, c);
    SizeIsWritten(l, before);
    SizeIsWritten(l, own);
    BlockBytesConcat(l, a, b + c);
    BlockBytesConcat(l, b, c);
    var x, y, z := BlockBytes(l, a), BlockBytes(l, b), BlockBytes(l, c);
    assert (x + (y + z))[|x|..|x| + |y|] == y;
    BlocksOfOne(own, e);
  }

  lemma {:induction false} FitsParts(l: Layout, a: seq<Block>, b: seq<Block>, c: seq<Block>)
    requires FitsAll(l, a + (b + c))
    ensures FitsAll(l, a) && FitsAll(l, b)
  {
    assert forall x | x in a || x in b :: x in a + (b + c);
  }

  lemma {:induction false} FlatSplit(data: StfData, order: seq<Equipment>, k: nat)
    requires k < |order|
    ensures Flat(data, order) == Flat(data, order[..k]) + (MessagesOf(data, order[k]) + Flat(data, order[k + 1..]))
    decreases |order|
  {
    hide MessagesOf;
    var n := |order| - 1;
    if k == n {
      assert order[k + 1..] == [];
    } else {
      FlatSplit(data, order[..n], k);
      var tail := order[k + 1..];
      assert order[..n][..k] == order[..k] && order[..n][k + 1..] == tail[..|tail| - 1] && tail[|tail| - 1] == order[n];
    }
  }

  lemma {:induction false} BlocksOfOne(ms: seq<Message>, e: Equipment)
    requires FiledUnder(ms, e)
    ensures forall b | b in Blocks(ms) :: b.hdr.Equip() == e
    decreases |ms|
  {
    if ms != [] {
      var n, m := |ms| - 1, ms[|ms| - 1];
      assert ms == ms[..n] + [m];
      BlocksOfOne(ms[..n], e);
      BlocksOfMessage(m, |m.parts|);
    }
  }

  lemma {:induction false} BlocksOfMessage(m: Message, n: nat)
    requires n <= |m.parts|
    ensures |BlocksUpTo(m, n)| == n
    ensures forall b | b in BlocksUpTo(m, n) :: b.hdr.Equip() == m.hdr.Equip()
    decreases n
  {
    if n > 0 { BlocksOfMessage(m, n - 1); }
  }

  // --------------------------------------------------------------------- grouping, on reading

  /** A block as the reader holds it: continuations have lost their header. */
  datatype Item = Item(hdr: Option<DataHeader>, payload: Part)

  /** Only the first block of a split payload, or a single one, keeps its header. */
  predicate Opens(h: DataHeader) {
    h.splitIndex == 0 || h.splitParts <= 1
  }

  function ItemOf(b: Block, stacked: seq<bv8>): Item {
    Item(if Opens(b.hdr) then Some(b.hdr.(rest := b.hdr.rest + stacked)) else None, b.payload)
  }

  function ItemsOf(bs: seq<Block>, stacked: seq<bv8>): seq<Item> {
    seq(|bs|, i requires 0 <= i < |bs| => ItemOf(bs[i], stacked))
  }

  /** Continuations are appended to the message before them. */
  function Group(items: seq<Item>): seq<Message> {
    if items == [] then []
    else
      var n := |items| - 1;
      var before, x := Group(items[..n]), items[n];
      match x.hdr
      case Some(h) => before + [Message(h, [x.payload])]
      case None =>
        if before == [] then []
        else
          var k := |before| - 1;
          before[..k] + [before[k].(parts := before[k].parts + [x.payload])]
  }

  /** The message as it comes back: the header of its first part, restacked. */
  function Restored(m: Message, stacked: seq<bv8>): Message {
    if m.parts == [] then m
    else m.(hdr := m.hdr.(payloadSize := |m.parts[0]|, splitIndex := 0, rest := stacked))
  }

  function RestoredAll(ms: seq<Message>, stacked: seq<bv8>): seq<Message> {
    seq(|ms|, i requires 0 <= i < |ms| => Restored(ms[i], stacked))
  }

  /** The header announces a split payload when there is one. */
  ghost predicate Announced(m: Message) {
    m.parts != [] && (|m.parts| > 1 ==> m.hdr.splitParts > 1)
  }

  ghost predicate AllAnnounced(ms: seq<Message>) {
    forall m | m in ms :: Announced(m)
  }

  /** A block has a header for the sub-time-frame when it is the first of its message, by its index or its count. */
  lemma {:induction false} ItemsTell(bs: seq<Block>, stacked: seq<bv8>, i: nat)
    requires i < |bs|
    ensures
      var x, h := ItemsOf(bs, stacked)[i], bs[i].hdr;
      && x.payload == bs[i].payload && (x.hdr.Some? <==> h.splitIndex == 0 || h.splitParts <= 1)
      && (x.hdr.Some? ==> x.hdr.value == h.(rest := h.rest + stacked))
  {
  }

  lemma {:induction false} GroupOpens(items: seq<Item>, h: DataHeader, p: Part)
    ensures Group(items + [Item(Some(h), p)]) == Group(items) + [Message(h, [p])]
  {
    assert (items + [Item(Some(h), p)])[..|items|] == items;
  }

  lemma {:induction false} GroupContinues(items: seq<Item>, ms: seq<Message>, m: Message, p: Part)
    requires Group(items) == ms + [m]
    ensures Group(items + [Item(None, p)]) == ms + [m.(parts := m.parts + [p])]
  {
    assert (items + [Item(None, p)])[..|items|] == items;
    assert (ms + [m])[..|ms|] == ms;
  }

  /** The items of a message: only the first has a header. */
  lemma {:induction false} ItemsSnoc(m: Message, n: nat, stacked: seq<bv8>)
    requires Announced(m) && 0 < n <= |m.parts|
    ensures ItemsOf(BlocksUpTo(m, n), stacked)
         == ItemsOf(BlocksUpTo(m, n - 1), stacked)
            + [Item(if n == 1 then Some(Restored(m, stacked).hdr) else None, m.parts[n - 1])]
    ensures ItemsOf(BlocksUpTo(m, 0), stacked) == []
  {
    assert [] + stacked == stacked;
  }

  lemma {:induction false} GroupStep(before: seq<Item>, items: seq<Item>, ms: seq<Message>, h: DataHeader,
                                     parts: seq<Part>, p: Part)
    requires Group(before + items) == ms + [Message(h, parts)]
    ensures Group(before + (items + [Item(None, p)])) == ms + [Message(h, parts + [p])]
  {
    assert before + (items + [Item(None, p)]) == (before + items) + [Item(None, p)];
    GroupContinues(before + items, ms, Message(h, parts), p);
  }

  function FirstParts(m: Message, n: nat): seq<Part>
    requires n <= |m.parts|
  {
    if n == 0 then [] else FirstParts(m, n - 1) + [m.parts[n - 1]]
  }

  lemma {:induction false} AllParts(m: Message, n: nat)
    requires n <= |m.parts|
    ensures FirstParts(m, n) == m.parts[..n]
    decreases n
  {
    if n > 0 { AllParts(m, n - 1); }
  }

  lemma {:induction false} GroupMessage(before: seq<Item>, m: Message, n: nat, stacked: seq<bv8>)
    requires Announced(m) && 0 < n <= |m.parts|
    ensures Group(before + ItemsOf(BlocksUpTo(m, n), stacked))
         == Group(before) + [Message(Restored(m, stacked).hdr, FirstParts(m, n))]
    decreases n
  {
    ItemsSnoc(m, n, stacked);
    var h, p := Restored(m, stacked).hdr, m.parts[n - 1];
    if n == 1 {
      hide Group;
      assert before + ([] + [Item(Some(h), p)]) == before + [Item(Some(h), p)];
      GroupOpens(before, h, p);
      assert FirstParts(m, 1) == [p];
    } else {
      GroupMessage(before, m, n - 1, stacked);
      assert FirstParts(m, n) == FirstParts(m, n - 1) + [p];
      hide *;
      GroupStep(before, ItemsOf(BlocksUpTo(m, n - 1), stacked), Group(before), h, FirstParts(m, n - 1), p);
    }
  }

  lemma {:induction false} NothingGrouped(stacked: seq<bv8>)
    ensures Group(ItemsOf([], stacked)) == []
  {
  }

  /** Reading the blocks of any messages back groups the parts as they were. */
  lemma {:induction false} GroupBlocks(ms: seq<Message>, stacked: seq<bv8>)
    requires AllAnnounced(ms)
    ensures Group(ItemsOf(Blocks(ms), stacked)) == RestoredAll(ms, stacked)
    decreases |ms|
  {
    hide Group;
    hide ItemOf;
    hide BlocksUpTo;
    hide FirstParts;
    NothingGrouped(stacked);
    if ms != [] {
      var n, m := |ms| - 1, ms[|ms| - 1];
      assert ms == ms[..n] + [m];
      GroupBlocks(ms[..n], stacked);
      assert ItemsOf(Blocks(ms), stacked) == ItemsOf(Blocks(ms[..n]), stacked) + ItemsOf(BlocksUpTo(m, |m.parts|), stacked);
      GroupMessage(ItemsOf(Blocks(ms[..n]), stacked), m, |m.parts|, stacked);
      AllParts(m, |m.parts|);
      assert m.parts[..|m.parts|] == m.parts;
      assert RestoredAll(ms, stacked) == RestoredAll(ms[..n], stacked) + [Restored(m, stacked)];
    }
  }

  // ------------------------------------------------------------------ finding a block again

  /** The header tells the size of the payload. */
  ghost predicate Sized(bs: seq<Block>) {
    forall b | b in bs :: b.hdr.payloadSize == |b.payload|
  }

  lemma {:induction false} UpToSized(m: Message, n: nat)
    requires n <= |m.parts|
    ensures Sized(BlocksUpTo(m, n))
    decreases n
  {
    if n > 0 { UpToSized(m, n - 1); }
  }

  lemma {:induction false} BlocksSized(ms: seq<Message>)
    ensures Sized(Blocks(ms))
    decreases |ms|
  {
    if ms != [] {
      BlocksSized(ms[..|ms| - 1]);
      UpToSized(ms[|ms| - 1], |ms[|ms| - 1].parts|);
    }
  }

  /** These bytes lie at this position of the file. */
  ghost predicate At(file: seq<bv8>, p: nat, bytes: seq<bv8>) {
    p + |bytes| <= |file| && file[p..p + |bytes|] == bytes
  }

  lemma {:induction false} AtConcat(file: seq<bv8>, p: nat, a: seq<bv8>, b: seq<bv8>)
    ensures At(file, p, a + b) <==> At(file, p, a) && At(file, p + |a|, b)
  {
    if At(file, p, a + b) {
      assert forall k | 0 <= k < |a| :: file[p..p + |a + b|][k] == (a + b)[k] == a[k];
      assert forall k | 0 <= k < |b| :: file[p..p + |a + b|][|a| + k] == (a + b)[|a| + k] == b[k];
    }
    if At(file, p, a) && At(file, p + |a|, b) {
      assert file[p..p + |a + b|] == file[p..p + |a|] + file[p + |a|..p + |a| + |b|];
    }
  }

  lemma {:induction false} RecordSizes(l: Layout, r: Record)
    requires r.Valid(l)
    ensures l.Valid() && l.fits(MetaHdr()) && l.fits(IndexHdr(|r.index|)) && l.MetaOk(r.meta)
    ensures l.hdrSize > 0 && l.HdrOk(MetaHdr()) && l.HdrOk(IndexHdr(|r.index|)) && |l.encMeta(r.meta)| == META_SIZE
    ensures |IndexBytes(l, r.index)| == |r.index| * ELEM_SIZE
    ensures r.meta.stfSize == |r.Bytes(l)| == l.hdrSize + META_SIZE + l.hdrSize + |r.index| * ELEM_SIZE + |BlockBytes(l, Blocks(r.ms))|
    ensures r.Bytes(l) == l.encHdr(MetaHdr()) + l.encMeta(r.meta) + l.encHdr(IndexHdr(|r.index|))
                          + IndexBytes(l, r.index) + BlockBytes(l, Blocks(r.ms))
  {
    RecordSize(l, r);
    assert l.HdrOk(MetaHdr()) && l.HdrOk(IndexHdr(|r.index|));
    IndexSize(l, r.index);
    SizeIsWritten(l, r.ms);
  }

  /** Where the four parts of a record lie. */
  lemma {:induction false} RecordAt(l: Layout, r: Record, file: seq<bv8>, p: nat)
    requires r.Valid(l) && At(file, p, r.Bytes(l))
    ensures
      var h, n, data := l.hdrSize, |r.index| * ELEM_SIZE, BlockBytes(l, Blocks(r.ms));
      && l.Valid() && l.fits(MetaHdr()) && l.fits(IndexHdr(|r.index|)) && l.MetaOk(r.meta)
      && h > 0 && l.HdrOk(MetaHdr()) && l.HdrOk(IndexHdr(|r.index|)) && |l.encMeta(r.meta)| == META_SIZE
      && r.meta.stfSize == h + META_SIZE + h + n + |data| && p + r.meta.stfSize <= |file|
      && At(file, p, l.encHdr(MetaHdr())) && At(file, p + h, l.encMeta(r.meta))
      && At(file, p + h + META_SIZE, l.encHdr(IndexHdr(|r.index|)))
      && At(file, p + h + META_SIZE + h + n, data)
  {
    hide At;
    hide Blocks;
    hide BlockBytes;
    hide IndexBytes;
    hide FitsAll;
    hide Record.Valid;
    hide Record.Bytes;
    hide Layout.Valid;
    hide MetaHdr;
    hide IndexHdr;
    RecordSizes(l, r);
    assert |l.encHdr(MetaHdr())| == l.hdrSize && |l.encHdr(IndexHdr(|r.index|))| == l.hdrSize;
    AtFive(file, p, l.encHdr(MetaHdr()), l.encMeta(r.meta), l.encHdr(IndexHdr(|r.index|)),
           IndexBytes(l, r.index), BlockBytes(l, Blocks(r.ms)));
  }

  lemma {:induction false} AtFive(file: seq<bv8>, p: nat, a: seq<bv8>, b: seq<bv8>, c: seq<bv8>, d: seq<bv8>, e: seq<bv8>)
    requires At(file, p, a + b + c + d + e)
    ensures p + |a| + |b| + |c| + |d| + |e| <= |file|
    ensures At(file, p, a) && At(file, p + |a|, b) && At(file, p + |a| + |b|, c)
    ensures At(file, p + |a| + |b| + |c| + |d|, e)
  {
    assert p + |a + b + c + d + e| <= |file|;
    hide At;
    AtConcat(file, p, a + b + c + d, e);
    AtConcat(file, p, a + b + c, d);
    AtConcat(file, p, a + b, c);
    AtConcat(file, p, a, b);
  }

  lemma {:induction false} FirstOpens(ms: seq<Message>)
    requires AllAnnounced(ms)
    ensures Blocks(ms) != [] ==> Opens(Blocks(ms)[0].hdr)
    decreases |ms|
  {
    if ms != [] {
      var n, m := |ms| - 1, ms[|ms| - 1];
      assert ms == ms[..n] + [m];
      FirstOpens(ms[..n]);
      assert m in ms && Announced(m);
      FirstOfMessage(m, |m.parts|);
    }
  }

  lemma {:induction false} FirstOfMessage(m: Message, n: nat)
    requires 0 < n <= |m.parts|
    ensures |BlocksUpTo(m, n)| == n && BlocksUpTo(m, n)[0].hdr.splitIndex == 0
    decreases n
  {
    if n > 1 { FirstOfMessage(m, n - 1); }
  }

  /** Where block `k` of the data lies, and that its header tells its size. */
  lemma {:induction false} BlockLies(l: Layout, bs: seq<Block>, k: nat, file: seq<bv8>, p: nat)
    requires l.Valid() && FitsAll(l, bs) && Sized(bs) && k < |bs| && At(file, p, BlockBytes(l, bs))
    ensures
      var q := p + |BlockBytes(l, bs[..k])|;
      && l.fits(bs[k].hdr) && l.HdrOk(bs[k].hdr) && l.hdrSize > 0 && bs[k].hdr.payloadSize == |bs[k].payload|
      && At(file, q, l.encHdr(bs[k].hdr)) && At(file, q + l.hdrSize, bs[k].payload)
      && |BlockBytes(l, bs[..k + 1])| == |BlockBytes(l, bs[..k])| + l.hdrSize + |bs[k].payload|
      && |BlockBytes(l, bs[..k + 1])| <= |BlockBytes(l, bs)|
  {
    hide BlockBytes;
    hide FitsAll;
    hide At;
    BlockSplit(l, bs, k);
    assert bs[k] in bs;
    AtMiddle(file, p, BlockBytes(l, bs[..k]), l.encHdr(bs[k].hdr), bs[k].payload, BlockBytes(l, bs[k + 1..]));
  }

  lemma {:induction false} BlockSplit(l: Layout, bs: seq<Block>, k: nat)
    requires l.Valid() && FitsAll(l, bs) && k < |bs|
    ensures l.fits(bs[k].hdr) && l.HdrOk(bs[k].hdr)
    ensures BlockBytes(l, bs)
         == BlockBytes(l, bs[..k]) + l.encHdr(bs[k].hdr) + bs[k].payload + BlockBytes(l, bs[k + 1..])
    ensures |BlockBytes(l, bs[..k + 1])| == |BlockBytes(l, bs[..k])| + l.hdrSize + |bs[k].payload|
  {
    assert bs[k] in bs && l.HdrOk(bs[k].hdr);
    assert bs[..k + 1] == bs[..k] + [bs[k]];
    assert bs == bs[..k + 1] + bs[k + 1..];
    BytesSnoc(l, bs[..k], bs[k]);
    BlockBytesConcat(l, bs[..k + 1], bs[k + 1..]);
    hide BlockBytes;
  }

  lemma {:induction false} AtMiddle(file: seq<bv8>, p: nat, a: seq<bv8>, b: seq<bv8>, c: seq<bv8>, d: seq<bv8>)
    requires At(file, p, a + b + c + d)
    ensures At(file, p + |a|, b) && At(file, p + |a| + |b|, c)
  {
    hide At;
    AtConcat(file, p, a + b + c, d);
    AtConcat(file, p, a + b, c);
    AtConcat(file, p, a, b);
  }

  // ------------------------------------------------------------- the record of a sub-time-frame

  /** What is written of a sub-time-frame with this data. */
  ghost function RecordOf(l: Layout, data: StfData, now: nat): Record {
    var r := Record(FileMeta(0, now), IndexOf(l, data, InOrder(data)), Flat(data, InOrder(data)));
    r.(meta := FileMeta(r.Size(l), now))
  }

  ghost predicate MessagesFit(l: Layout, ms: seq<Message>) {
    forall m, i: nat | m in ms && i < |m.parts| :: l.fits(WrittenHdr(m, i))
  }

  lemma {:induction false} ElemAt(l: Layout, index: seq<IndexElem>, k: nat)
    requires l.Valid() && k < |index|
    ensures At(IndexBytes(l, index), k * ELEM_SIZE, l.encElem(index[k]))
    decreases |index|
  {
    hide At;
    var n := |index| - 1;
    assert index == index[..n] + [index[n]];
    IndexSize(l, index[..n]);
    AtWhole(IndexBytes(l, index[..n]));
    if k < n {
      ElemAt(l, index[..n], k);
      AtInFront(IndexBytes(l, index[..n]), l.encElem(index[n]), k * ELEM_SIZE, l.encElem(index[k]));
    } else {
      AtWhole(IndexBytes(l, index));
      AtConcat(IndexBytes(l, index), 0, IndexBytes(l, index[..n]), l.encElem(index[n]));
    }
  }

  lemma {:induction false} AtWhole(bytes: seq<bv8>)
    ensures At(bytes, 0, bytes)
  {
  }

  lemma {:induction false} AtInFront(a: seq<bv8>, b: seq<bv8>, p: nat, bytes: seq<bv8>)
    requires At(a, p, bytes)
    ensures At(a + b, p, bytes)
  {
  }

  lemma {:induction false} AtShifted(file: seq<bv8>, p: nat, bytes: seq<bv8>, q: nat, part: seq<bv8>)
    requires At(file, p, bytes) && At(bytes, q, part)
    ensures At(file, p + q, part)
  {
    assert bytes == bytes[..q] + (part + bytes[q + |part|..]);
    AtConcat(file, p, bytes[..q], part + bytes[q + |part|..]);
    AtConcat(file, p + q, part, bytes[q + |part|..]);
  }

  /** The header of a single payload that is not data. */
  ghost predicate IsPlain(h: DataHeader, desc: nat, origin: nat, size: nat) {
    && h.desc == desc && h.origin == origin && h.subSpec == 0 && h.splitIndex == 0 && h.splitParts == 1 && h.payloadSize == size
    && h.tfCounter == h.runNumber == h.firstOrbit == 0 && h.rest == []
  }

  /** Where everything is in a record: the meta data, the index with its elements, and the blocks. */
  lemma {:induction false} RecordLaidOut(l: Layout, data: StfData, now: nat)
    requires RecordOf(l, data, now).Valid(l)
    ensures
      var bytes, order := RecordOf(l, data, now).Bytes(l), InOrder(data);
      var elems := 2 * l.hdrSize + META_SIZE;
      && At(bytes, 0, l.encHdr(MetaHdr())) && At(bytes, l.hdrSize, l.encMeta(FileMeta(|bytes|, now)))
      && At(bytes, l.hdrSize + META_SIZE, l.encHdr(IndexHdr(|order|)))
      && IsPlain(MetaHdr(), META_DESC, FLP_ORIGIN, 24) && IsPlain(IndexHdr(|order|), INDEX_DESC, ANY_ORIGIN, 48 * |order|)
      && |IndexOf(l, data, order)| == |order|
      && (forall k | 0 <= k < |order| :: At(bytes, elems + k * ELEM_SIZE, l.encElem(IndexOf(l, data, order)[k])))
      && At(bytes, elems + |order| * ELEM_SIZE, BlockBytes(l, Blocks(Flat(data, order))))
  {
    hide At;
    hide IndexBytes;
    hide BlockBytes;
    hide Blocks;
    hide Flat;
    hide IndexOf;
    hide SizeInFile;
    hide InOrder;
    var r, order := RecordOf(l, data, now), InOrder(data);
    var bytes, index := r.Bytes(l), r.index;
    RecordSize(l, r);
    IndexLength(l, data, order);
    IndexSize(l, index);
    assert l.HdrOk(MetaHdr()) && l.HdrOk(IndexHdr(|r.index|));
    var mh, m, ih, i, b := l.encHdr(MetaHdr()), l.encMeta(r.meta), l.encHdr(IndexHdr(|index|)), IndexBytes(l, index), BlockBytes(l, Blocks(r.ms));
    AtWhole(bytes);
    assert bytes == mh + m + ih + i + b;
    AtConcat(bytes, 0, mh + m + ih + i, b);
    AtConcat(bytes, 0, mh + m + ih, i);
    AtConcat(bytes, 0, mh + m, ih);
    AtConcat(bytes, 0, mh, m);
    forall k | 0 <= k < |order| ensures At(bytes, 2 * l.hdrSize + META_SIZE + k * ELEM_SIZE, l.encElem(index[k])) {
      ElemAt(l, index, k);
      AtShifted(bytes, |mh + m + ih|, i, k * ELEM_SIZE, l.encElem(index[k]));
    }
  }

  /** The layout has room for the headers of this data, for its index and for its size. */
  ghost predicate FitsLayout(l: Layout, data: StfData, now: nat) {
    && (forall e | e in data :: MessagesFit(l, data[e]))
    && l.fits(MetaHdr()) && l.fits(IndexHdr(|data|)) && l.MetaOk(RecordOf(l, data, now).meta)
  }

  ghost predicate DataAnnounced(data: StfData) {
    forall e | e in data :: AllAnnounced(data[e])
  }

  /** A file takes this data and gives it back. */
  ghost predicate Storable(l: Layout, data: StfData, now: nat) {
    Filed(data) && NoneEmpty(data) && DataAnnounced(data) && FitsLayout(l, data, now)
  }

  lemma {:induction false} BlockOf(ms: seq<Message>, b: Block)
    requires b in Blocks(ms)
    ensures exists m, i: nat :: m in ms && i < |m.parts| && b == Block(WrittenHdr(m, i), m.parts[i])
    decreases |ms|
  {
    var n, m := |ms| - 1, ms[|ms| - 1];
    assert ms == ms[..n] + [m];
    if b in Blocks(ms[..n]) {
      BlockOf(ms[..n], b);
      var k, i: nat :| k in ms[..n] && i < |k.parts| && b == Block(WrittenHdr(k, i), k.parts[i]);
      assert k in ms;
    } else {
      BlockUpTo(m, |m.parts|, b);
    }
  }

  lemma {:induction false} BlockUpTo(m: Message, n: nat, b: Block)
    requires n <= |m.parts| && b in BlocksUpTo(m, n)
    ensures exists i: nat :: i < |m.parts| && b == Block(WrittenHdr(m, i), m.parts[i])
    decreases n
  {
    if b in BlocksUpTo(m, n - 1) { BlockUpTo(m, n - 1, b); }
  }

  /** The record of storable data can be read back. */
  lemma {:induction false} StorableIsReadable(l: Layout, data: StfData, now: nat)
    requires l.Valid() && Storable(l, data, now)
    ensures RecordOf(l, data, now).Valid(l) && AllAnnounced(RecordOf(l, data, now).ms)
  {
    var r, order := RecordOf(l, data, now), InOrder(data);
    IndexLength(l, data, order);
    forall m | m in r.ms ensures Announced(m) && MessagesFit(l, [m]) {
      FlatMembers(data, order, m);
      var e :| e in order && m in MessagesOf(data, e);
      assert AllAnnounced(data[e]) && MessagesFit(l, data[e]);
    }
    forall b | b in Blocks(r.ms) ensures l.fits(b.hdr) {
      BlockOf(r.ms, b);
      var m, i: nat :| m in r.ms && i < |m.parts| && b == Block(WrittenHdr(m, i), m.parts[i]);
      assert MessagesFit(l, [m]) && m in [m];
    }
  }

  /** Headers that were just brought up to date announce what they have. */
  lemma {:induction false} RefreshedIsAnnounced(data: StfData, h: StfHeader)
    requires forall e | e in data :: HaveParts(data[e])
    ensures DataAnnounced(Refreshed(data, h))
  {
    forall e | e in data ensures AllAnnounced(RefreshAll(data[e], h)) {
      forall m | m in RefreshAll(data[e], h) ensures Announced(m) {
        var i :| 0 <= i < |data[e]| && RefreshAll(data[e], h)[i] == m;
        assert data[e][i] in data[e] && data[e][i].parts != [];
      }
    }
  }

  // ------------------------------------------------------------------------- whole files

  /** The records, one behind the other. */
  function RecordsBytes(l: Layout, rs: seq<Record>): seq<bv8> {
    if rs == [] then [] else rs[0].Bytes(l) + RecordsBytes(l, rs[1..])
  }

  lemma {:induction false} RecordsSnoc(l: Layout, rs: seq<Record>, r: Record)
    ensures RecordsBytes(l, rs + [r]) == RecordsBytes(l, rs) + r.Bytes(l)
    decreases |rs|
  {
    hide Record.Bytes;
    if rs == [] {
      assert rs + [r] == [r] && [r][1..] == [];
    } else {
      assert (rs + [r])[1..] == rs[1..] + [r];
      RecordsSnoc(l, rs[1..], r);
    }
  }

  ghost function RestoredData(data: StfData, stacked: seq<bv8>): StfData {
    map e | e in data :: RestoredAll(data[e], stacked)
  }

  lemma {:induction false} FlatRestored(data: StfData, order: seq<Equipment>, stacked: seq<bv8>)
    ensures Flat(RestoredData(data, stacked), order) == RestoredAll(Flat(data, order), stacked)
    decreases |order|
  {
    if order != [] {
      var n := |order| - 1;
      FlatRestored(data, order[..n], stacked);
      var a, b := Flat(data, order[..n]), MessagesOf(data, order[n]);
      assert RestoredAll(a + b, stacked) == RestoredAll(a, stacked) + RestoredAll(b, stacked);
      assert MessagesOf(RestoredData(data, stacked), order[n]) == RestoredAll(b, stacked);
    }
  }

  /** Taken apart, restored and filed again: the same equipment with its messages in order. */
  lemma {:induction false} RestoredRoundTrip(data: StfData, order: seq<Equipment>, stacked: seq<bv8>)
    requires Filed(data) && NoneEmpty(data) && Enumerates(order, data)
    ensures Collect(RestoredAll(Flat(data, order), stacked)) == RestoredData(data, stacked)
  {
    var restored := RestoredData(data, stacked);
    forall e | e in data ensures FiledUnder(restored[e], e) && |restored[e]| == |data[e]| {
      forall m: Message | m in restored[e] ensures m.hdr.Equip() == e {
        var i :| 0 <= i < |data[e]| && restored[e][i] == m;
        assert data[e][i] in data[e] && FiledUnder(data[e], e);
      }
    }
    FlatRestored(data, order, stacked);
    CollectFlat(restored, order);
  }

  ghost predicate Readable(l: Layout, rs: seq<Record>) {
    forall r | r in rs :: r.Valid(l) && AllAnnounced(r.ms)
  }

  /** What was loaded of a sub-time-frame. */
  datatype Loaded = Loaded(header: StfHeader, data: StfData)

  /** What a record is read as: the messages of the record, in order. */
  ghost predicate ReadAs(stf: Loaded, r: Record, stacked: seq<bv8>) {
    stf.data == Collect(RestoredAll(r.ms, stacked)) && stf.header.creationTimeMs == r.meta.writeTimeMs
  }

  /** One by one, with ids from `id` on. */
  ghost predicate AllReadAs(stfs: seq<Loaded>, rs: seq<Record>, id: nat, stacked: nat -> seq<bv8>) {
    && |stfs| == |rs|
    && (stfs == []
        || (var n := |stfs| - 1;
            AllReadAs(stfs[..n], rs[..n], id, stacked) && ReadAs(stfs[n], rs[n], stacked(id + n))))
  }

  lemma {:induction false} AllReadMore(stfs: seq<Loaded>, rs: seq<Record>, id: nat, stacked: nat -> seq<bv8>, stf: Loaded, k: nat)
    requires k < |rs| && AllReadAs(stfs, rs[..k], id, stacked) && ReadAs(stf, rs[k], stacked(id + k))
    ensures AllReadAs(stfs + [stf], rs[..k + 1], id, stacked)
  {
    assert (stfs + [stf])[..k] == stfs && rs[..k + 1][..k] == rs[..k];
  }

  lemma {:induction false} AllReadAt(stfs: seq<Loaded>, rs: seq<Record>, id: nat, stacked: nat -> seq<bv8>, i: nat)
    requires AllReadAs(stfs, rs, id, stacked) && i < |rs|
    ensures |stfs| == |rs| && ReadAs(stfs[i], rs[i], stacked(id + i))
    decreases |rs|
  {
    if i < |rs| - 1 { AllReadAt(stfs[..|rs| - 1], rs[..|rs| - 1], id, stacked, i); }
  }

  lemma {:induction false} NextRecord(l: Layout, rs: seq<Record>, k: nat, file: seq<bv8>, p: nat)
    requires k < |rs| && Readable(l, rs) && At(file, p, RecordsBytes(l, rs[k..]))
    ensures rs[k].Valid(l) && AllAnnounced(rs[k].ms) && At(file, p, rs[k].Bytes(l))
    ensures rs[k].meta.stfSize == |rs[k].Bytes(l)| > 0
    ensures At(file, p + rs[k].meta.stfSize, RecordsBytes(l, rs[k + 1..]))
    ensures |RecordsBytes(l, rs[k..])| == rs[k].meta.stfSize + |RecordsBytes(l, rs[k + 1..])|
  {
    hide At;
    hide Record.Bytes;
    hide AllAnnounced;
    hide FitsAll;
    hide Blocks;
    assert rs[k] in rs && rs[k..][0] == rs[k] && rs[k..][1..] == rs[k + 1..];
    RecordSizes(l, rs[k]);
    AtConcat(file, p, rs[k].Bytes(l), RecordsBytes(l, rs[k + 1..]));
  }
}
