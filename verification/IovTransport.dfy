/** The header and data streams in which a sub-time-frame travels between processes. */
module IovTransport {
  import opened StfModel
  import opened StfStreams
  import opened SubTimeFrames

  /** The meta message: header of the sub-time-frame, and a header with its part count per message. */
  datatype IovHeader = IovHeader(stfId: nat, stfSize: nat, header: StfHeader, hdrs: seq<HdrMeta>)

  /** What a freshly constructed header holds. */
  const BLANK := StfHeader(NO_ID, NO_ORBIT, 0, Invalid, NO_ID)

  /** The part count that the header itself carries. */
  function Announced(h: DataHeader): nat {
    if h.splitParts > 1 then h.splitParts else 1
  }

  ghost predicate Counted(m: Message) {
    m.parts != [] && |m.parts| == (if m.hdr.splitParts > 1 then m.hdr.splitParts else 1)
  }

  ghost predicate AllCounted(data: StfData) {
    forall e, m | e in data && m in data[e] :: Counted(m)
  }

  /** After the counters were refreshed, every header announces its parts. */
  lemma {:induction false} RefreshedIsCounted(data: StfData, h: StfHeader)
    requires forall e, m | e in data && m in data[e] :: m.parts != []
    ensures AllCounted(Refreshed(data, h))
  {
    forall e, m | e in Refreshed(data, h) && m in Refreshed(data, h)[e] ensures Counted(m) {
      var i :| 0 <= i < |data[e]| && RefreshAll(data[e], h)[i] == m;
      assert data[e][i] in data[e];
    }
  }

  /** Takes the sub-time-frame apart; it is left blank. */
  method Serialize(stf: SubTimeFrame) returns (meta: IovHeader, parts: seq<Part>, ghost order: seq<Equipment>)
    requires AllCounted(stf.Outgoing())
    modifies stf
    ensures stf.data == map[]
    ensures stf.header == StfHeader(0xFFFF_FFFF_FFFF_FFFF, 0xFFFF_FFFF, 0, Invalid, 0xFFFF_FFFF_FFFF_FFFF)
    ensures meta.stfSize == if old(stf.dataUpdated) then old(stf.dataSize) else TotalSize(old(stf.data))
    ensures meta.stfId == old(stf.header.id) && meta.header == old(stf.header)
    ensures Enumerates(order, old(stf.Outgoing()))
    ensures var ms := Flat(old(stf.Outgoing()), order);
      HaveParts(ms) && meta.hdrs == HdrsOf(ms) && parts == PartsOf(ms)
  {
    hide AllCounted;
    hide HaveParts;
    hide TotalSize;
    hide AllBroughtUpToDate;
    var size := stf.GetDataSize();
    var visit := stf.GetEquipmentIdentifiers();
    order := visit;
    var hdrs;
    hdrs, parts := SerializeAll(stf.data, visit);
    meta := IovHeader(stf.header.id, size, stf.header, hdrs);
    stf.data, stf.header := map[], BLANK;
  }

  method SerializeAll(data: StfData, order: seq<Equipment>) returns (hdrs: seq<HdrMeta>, parts: seq<Part>)
    requires AllCounted(data) && Enumerates(order, data)
    ensures var ms := Flat(data, order);
      HaveParts(ms) && hdrs == HdrsOf(ms) && parts == PartsOf(ms)
  {
    hide Counted;
    NothingFlat(data);
    hide Flat;
    hide HdrsOf;
    hide PartsOf;
    hide HaveParts;
    assert order[..0] == [];
    hdrs, parts := [], [];
    for i := 0 to |order|
      invariant var ms := Flat(data, order[..i]);
        HaveParts(ms) && hdrs == HdrsOf(ms) && parts == PartsOf(ms)
    {
      assert order[..i + 1] == order[..i] + [order[i]];
      FlatSnoc(data, order[..i], order[i]);
      assert order[i] in order;
      hdrs, parts := SerializeMessages(data[order[i]], Flat(data, order[..i]), hdrs, parts);
    }
    assert order[..|order|] == order;
  }

  method SerializeMessages(msgs: seq<Message>, ghost before: seq<Message>, hdrs: seq<HdrMeta>, parts: seq<Part>)
    returns (h: seq<HdrMeta>, p: seq<Part>)
    requires forall m | m in msgs :: Counted(m)
    requires HaveParts(before) && hdrs == HdrsOf(before) && parts == PartsOf(before)
    ensures HaveParts(before + msgs) && h == HdrsOf(before + msgs) && p == PartsOf(before + msgs)
  {
    h, p := hdrs, parts;
    assert before + msgs[..0] == before;
    for i := 0 to |msgs|
      invariant h == HdrsOf(before + msgs[..i]) && p == PartsOf(before + msgs[..i])
    {
      assert (before + msgs[..i + 1])[..|before| + i] == before + msgs[..i];
      assert msgs[i] in msgs;
      h := h + [HdrMeta(msgs[i].hdr, Announced(msgs[i].hdr))];
      p := p + msgs[i].parts;
    }
    assert msgs[..|msgs|] == msgs;
  }

  /** Files the messages again: the parts are handed out to the headers, front to back. */
  method DeserializeInto(stf: SubTimeFrame, meta: IovHeader, parts: seq<Part>)
    requires CountParts(meta.hdrs) == |parts|
    modifies stf
    ensures stf.header == meta.header
    ensures stf.data == PutAll(old(stf.data), Cut(meta.hdrs, parts))
  {
    hide *;
    NothingCut(stf.data);
    stf.header := meta.header;
    var k := 0;
    assert meta.hdrs[..0] == [] && parts[..0] == [];
    assert meta.hdrs[..|meta.hdrs|] == meta.hdrs && parts[..|parts|] == parts;
    for i := 0 to |meta.hdrs|
      invariant k == CountParts(meta.hdrs[..i]) <= |parts|
      invariant stf.header == meta.header
      invariant stf.data == PutAll(old(stf.data), Cut(meta.hdrs[..i], parts[..k]))
    {
      CutMore(meta.hdrs, parts, i);
      var next := FileMessage(stf, meta.hdrs[i], parts, k);
      PutAllSnoc(old(stf.data), Cut(meta.hdrs[..i], parts[..k]), Message(meta.hdrs[i].hdr, parts[k..next]));
      k := next;
    }
  }

  /** One header takes its parts, from position `k` on. */
  method FileMessage(stf: SubTimeFrame, h: HdrMeta, parts: seq<Part>, k: nat) returns (next: nat)
    requires k + Taken(h) <= |parts|
    modifies stf
    ensures next == k + Taken(h)
    ensures stf.header == old(stf.header)
    ensures stf.data == Put(old(stf.data), Message(h.hdr, parts[k..next]))
  {
    ghost var filed := stf.data;
    var at := stf.AddStfDataStart(h.hdr.Equip(), h.hdr, parts[k]);
    AddedIsPut(filed, stf.data, Message(h.hdr, [parts[k]]));
    assert parts[k..k + 1] == [parts[k]];
    next := k + 1;
    while next < k + h.numParts
      invariant k < next <= k + Taken(h)
      invariant stf.header == old(stf.header)
      invariant stf.data == Put(filed, Message(h.hdr, parts[k..next]))
    {
      PutGrows(filed, h.hdr, parts[k..next], parts[next]);
      assert parts[k..next + 1] == parts[k..next] + [parts[next]];
      ghost var was := stf.data;
      stf.AddStfDataAppend(at, parts[next]);
      GrownDetermines(was, stf.data, at.equip, at.index, parts[next]);
      next := next + 1;
    }
  }

  /**
   The round trip: what arrives has the same header, and for every equipment the same messages
   with the same parts, whatever order the sender's map was visited in.
  */
  method SendAndReceive(stf: SubTimeFrame, now: nat) returns (received: SubTimeFrame)
    requires Filed(stf.data) && NoneEmpty(stf.data)
    requires forall e, m | e in stf.data && m in stf.data[e] :: m.parts != []
    requires stf.dataUpdated ==> AllCounted(stf.data)
    modifies stf
    ensures fresh(received)
    ensures received.header == old(stf.header)
    ensures received.data == old(stf.Outgoing())
  {
    ghost var data := stf.Outgoing();
    RefreshedIsCounted(stf.data, stf.header);
    RefreshedIsFiled(stf.data, stf.header);
    var meta, parts;
    ghost var order;
    meta, parts, order := Serialize(stf);
    CutParts(Flat(data, order));
    CollectFlat(data, order);
    received := new SubTimeFrame(meta.stfId, now);
    received.UpdateStf();
    assert Refreshed(map[], received.header) == map[];
    DeserializeInto(received, meta, parts);
  }
}
