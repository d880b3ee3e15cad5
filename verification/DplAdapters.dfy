/** Sending a sub-time-frame to the data processing layer, and receiving one. */
module DplAdapters {
  import opened Wrappers
  import opened EquipmentOrder
  import opened StfModel
  import opened StfStreams
  import opened SubTimeFrames
  import opened DplStreams

  // ------------------------------------------------------------------------------- sending

  ghost predicate PartsEverywhere(data: StfData) {
    forall e, m | e in data && m in data[e] :: m.parts != []
  }

  class StfToDplAdapter {
    const reducedHdr: bool
    const layout: Layout
    var messages: seq<Frame>

    constructor (reducedHdr: bool, layout: Layout)
      ensures this.reducedHdr == reducedHdr && this.layout == layout && messages == []
    {
      this.reducedHdr, this.layout, messages := reducedHdr, layout, [];
    }

    /** The stream of the sub-time-frame; it is left without data. */
    method Visit(stf: SubTimeFrame) returns (ghost order: seq<Equipment>)
      requires PartsEverywhere(stf.data)
      modifies this`messages, stf
      ensures stf.data == map[] && stf.header == old(stf.header)
      ensures
        var data := old(stf.Outgoing());
        && Enumerates(order, data) && Ascending(order)
        && messages == old(messages) + Stream(layout, stf.header, Flat(data, order), reducedHdr)
      ensures
        var ms, sent := Flat(old(stf.Outgoing()), order), messages[|old(messages)|..];
        && Begins(sent, layout, stf.header)
        && (if reducedHdr then ReducedStream(sent[2..], ms) else FullStream(sent[2..], ms))
        && (old(!stf.dataUpdated) ==> AllStamped(ms))
    {
      RefreshKeepsParts(stf.data, stf.header);
      stf.UpdateStf();
      var h := stf.header;
      var bytes := layout.encode(h);
      var ids := stf.GetEquipmentIdentifiers();
      var sorted := SortEquipment(ids);
      AscendingEnumerates(sorted, stf.data);
      order := sorted;
      var frames := AllFrames(stf.data, sorted);
      messages := messages + [Hdr(MetaHeader(h, |bytes|)), Data(bytes)] + frames;
      assert messages == old(messages) + ([Hdr(MetaHeader(h, |bytes|)), Data(bytes)] + frames);
      StreamTells(layout, h, Flat(stf.data, order), reducedHdr);
      assert messages[|old(messages)|..] == Stream(layout, h, Flat(stf.data, order), reducedHdr);
      if old(!stf.dataUpdated) { OutgoingStamped(stf.data, order); }
      stf.Clear();
    }

    method AllFrames(data: StfData, order: seq<Equipment>) returns (frames: seq<Frame>)
      requires PartsEverywhere(data) && forall e | e in order :: e in data
      ensures frames == FramesOfAll(Flat(data, order), reducedHdr)
    {
      hide FramesOfAll;
      frames := [];
      assert order[..0] == [] && FramesOfAll(Flat(data, []), reducedHdr) == [] by { NoFrames(data, reducedHdr); }
      for i := 0 to |order|
        invariant frames == FramesOfAll(Flat(data, order[..i]), reducedHdr)
      {
        assert order[i] in order;
        assert order[..i + 1] == order[..i] + [order[i]];
        FlatSnoc(data, order[..i], order[i]);
        var more := VectorFrames(data[order[i]]);
        FramesConcat(Flat(data, order[..i]), data[order[i]], reducedHdr);
        frames := frames + more;
      }
      assert order[..|order|] == order;
    }

    method VectorFrames(ms: seq<Message>) returns (frames: seq<Frame>)
      requires forall m | m in ms :: m.parts != []
      ensures frames == FramesOfAll(ms, reducedHdr)
    {
      hide FramesOf;
      frames := [];
      for k := 0 to |ms|
        invariant frames == FramesOfAll(ms[..k], reducedHdr)
      {
        assert ms[..k + 1] == ms[..k] + [ms[k]];
        FramesSnoc(ms[..k], ms[k], reducedHdr);
        assert ms[k] in ms;
        var own := MessageFrames(ms[k]);
        frames := frames + own;
      }
      assert ms[..|ms|] == ms;
    }

    method MessageFrames(m: Message) returns (frames: seq<Frame>)
      requires m.parts != []
      ensures frames == FramesOf(m, reducedHdr)
    {
      if reducedHdr {
        frames := [Hdr(m.hdr)] + DataFrames(m.parts);
      } else if |m.parts| == 1 {
        frames := [Hdr(m.hdr.(splitIndex := 0, splitParts := 1, payloadSize := |m.parts[0]|)), Data(m.parts[0])];
        assert FullUpTo(m, 0) == [] && frames == [] + frames;
      } else {
        frames := [];
        var hdr, n := m.hdr, |m.parts|;
        for i := 0 to n - 1
          invariant frames == FullUpTo(m, i)
          invariant hdr == if i == 0 then m.hdr else PartHdr(m, i - 1)
        {
          hdr := hdr.(splitIndex := i, splitParts := n, payloadSize := |m.parts[i]|);
          frames := frames + [Hdr(hdr), Data(m.parts[i])];
        }
        hdr := hdr.(splitIndex := n - 1, splitParts := n, payloadSize := |m.parts[n - 1]|);
        frames := frames + [Hdr(hdr), Data(m.parts[n - 1])];
      }
    }
  }

  lemma {:induction false} OutgoingStamped(data: StfData, order: seq<Equipment>)
    requires forall e, m | e in data && m in data[e] :: Stamped(m)
    requires forall e | e in order :: e in data
    ensures AllStamped(Flat(data, order))
  {
    hide Stamped;
    forall m | m in Flat(data, order) ensures Stamped(m) { FlatMembers(data, order, m); }
  }

  lemma {:induction false} RefreshKeepsParts(data: StfData, h: StfHeader)
    requires PartsEverywhere(data)
    ensures PartsEverywhere(Refreshed(data, h))
    ensures forall e, m | e in Refreshed(data, h) && m in Refreshed(data, h)[e] :: Stamped(m)
  {
    forall e, m | e in data && m in RefreshAll(data[e], h) ensures m.parts != [] && Stamped(m) {
      var i :| 0 <= i < |data[e]| && RefreshAll(data[e], h)[i] == m;
      assert data[e][i] in data[e];
    }
  }

  // ------------------------------------------------------------------------------ receiving

  /** Parses the messages into the sub-time-frame. */
  method Receive(stf: SubTimeFrame, frames: seq<Frame>, layout: Layout) returns (failure: Option<Error>)
    modifies stf
    ensures
      match Parse(frames, layout)
      case Bad(error) => failure == Some(error)
      case Parsed(ms, header) =>
        failure == None && header.Some? && stf.header == header.value && stf.data == PutAll(old(stf.data), ms)
        && (if ms == [] then stf.dataUpdated == old(stf.dataUpdated) else !stf.dataUpdated)
    ensures |frames| < 2 ==> failure == Some(TooFewMessages) && stf.data == map[] && stf.header == old(stf.header)
  {
    hide PutAll;
    hide Put;
    hide FullParts;
    hide ReducedParts;
    if |frames| < 2 {
      stf.Clear();
      return Some(TooFewMessages);
    }
    assert stf.data == PutAll(stf.data, []) by { NothingCut(stf.data); }
    var found, i := false, 0;
    ghost var ms: seq<Message>, header: Option<StfHeader> := [], None;
    while i < |frames|
      invariant 0 <= i <= |frames|
      invariant ParseFrom(frames, i, ms, header, layout) == Parse(frames, layout)
      invariant stf.data == PutAll(old(stf.data), ms)
      invariant if ms == [] then stf.dataUpdated == old(stf.dataUpdated) else !stf.dataUpdated
      invariant found == header.Some? && (found ==> stf.header == header.value)
    {
      if i + 1 == |frames| || !frames[i].Hdr? || !frames[i + 1].Data? {
        return Some(Malformed);
      }
      var h := frames[i].hdr;
      ghost var m := Message(h, [frames[i + 1].bytes]);
      if h.splitParts <= 1 {
        if h.desc == STF_DESC {
          stf.header := layout.decode(frames[i + 1].bytes);
          found, header := true, Some(stf.header);
        } else {
          PutAllSnoc(old(stf.data), ms, m);
          ghost var was := stf.data;
          var _ := stf.AddStfDataStart(h.Equip(), h, frames[i + 1].bytes);
          AddedIsPut(was, stf.data, m);
          ms := ms + [m];
        }
        i := i + 2;
      } else if h.splitIndex == 0 {
        var ok, next := AddFullSplitPayload(stf, frames, i, h.splitParts);
        if !ok { return Some(Malformed); }
        m := Message(h.(splitIndex := h.splitParts), [frames[i + 1].bytes] + FullParts(frames, i + 2, i + 2 * h.splitParts).value);
        PutAllSnoc(old(stf.data), ms, m);
        ms, i := ms + [m], next;
      } else if h.splitIndex == h.splitParts {
        var ok, next := AddReducedSplitPayload(stf, frames, i, h.splitParts);
        if !ok { return Some(Malformed); }
        m := Message(h, [frames[i + 1].bytes] + ReducedParts(frames, i + 2, i + 1 + h.splitParts).value);
        PutAllSnoc(old(stf.data), ms, m);
        ms, i := ms + [m], next;
      } else {
        return Some(Stuck);
      }
    }
    failure := if found then None else Some(MissingHeader);
  }

  method AddFullSplitPayload(stf: SubTimeFrame, frames: seq<Frame>, i: nat, count: nat) returns (ok: bool, next: nat)
    requires i + 1 < |frames| && frames[i].Hdr? && frames[i + 1].Data? && count > 1
    modifies stf
    ensures ok <==> FullParts(frames, i + 2, i + 2 * count).Some?
    ensures !stf.dataUpdated
    ensures ok ==> stf.header == old(stf.header) && next == (if i + 2 * count < |frames| then i + 2 * count else |frames|)
    ensures ok ==> stf.data == Put(old(stf.data),
      Message(frames[i].hdr.(splitIndex := frames[i].hdr.splitParts),
              [frames[i + 1].bytes] + FullParts(frames, i + 2, i + 2 * count).value))
  {
    ghost var filed := stf.data;
    var stop, hdr := i + 2 * count, frames[i].hdr.(splitIndex := frames[i].hdr.splitParts);
    var at := stf.AddStfDataStart(hdr.Equip(), hdr, frames[i + 1].bytes);
    AddedIsPut(filed, stf.data, Message(hdr, [frames[i + 1].bytes]));
    ghost var parts := [frames[i + 1].bytes];
    next := i + 2;
    while next < |frames| && next < stop
      invariant i + 2 <= next <= |frames| && next <= stop && (stop - next) % 2 == 0
      invariant stf.header == old(stf.header) && parts != [] && !stf.dataUpdated
      invariant stf.data == Put(filed, Message(hdr, parts))
      invariant FullParts(frames, i + 2, stop).Some? <==> FullParts(frames, next, stop).Some?
      invariant FullParts(frames, next, stop).Some? ==>
        parts + FullParts(frames, next, stop).value == [frames[i + 1].bytes] + FullParts(frames, i + 2, stop).value
    {
      if next + 1 == |frames| || !frames[next + 1].Data? {
        return false, next;
      }
      PutGrows(filed, hdr, parts, frames[next + 1].bytes);
      ghost var was := stf.data;
      stf.AddStfDataAppend(at, frames[next + 1].bytes);
      GrownDetermines(was, stf.data, at.equip, at.index, frames[next + 1].bytes);
      assert FullParts(frames, next + 2, stop).Some? ==>
        parts + ([frames[next + 1].bytes] + FullParts(frames, next + 2, stop).value)
        == (parts + [frames[next + 1].bytes]) + FullParts(frames, next + 2, stop).value;
      parts := parts + [frames[next + 1].bytes];
      next := next + 2;
    }
    assert parts + [] == parts;
    ok := true;
  }

  method AddReducedSplitPayload(stf: SubTimeFrame, frames: seq<Frame>, i: nat, count: nat) returns (ok: bool, next: nat)
    requires i + 1 < |frames| && frames[i].Hdr? && frames[i + 1].Data? && count > 1
    modifies stf
    ensures ok <==> ReducedParts(frames, i + 2, i + 1 + count).Some?
    ensures !stf.dataUpdated
    ensures ok ==> stf.header == old(stf.header) && next == (if i + 1 + count < |frames| then i + 1 + count else |frames|)
    ensures ok ==> stf.data == Put(old(stf.data),
      Message(frames[i].hdr, [frames[i + 1].bytes] + ReducedParts(frames, i + 2, i + 1 + count).value))
  {
    ghost var filed := stf.data;
    var stop, hdr := i + 1 + count, frames[i].hdr;
    var at := stf.AddStfDataStart(hdr.Equip(), hdr, frames[i + 1].bytes);
    AddedIsPut(filed, stf.data, Message(hdr, [frames[i + 1].bytes]));
    ghost var parts := [frames[i + 1].bytes];
    next := i + 2;
    while next < |frames| && next < stop
      invariant i + 2 <= next <= |frames| && next <= stop
      invariant stf.header == old(stf.header) && parts != [] && !stf.dataUpdated
      invariant stf.data == Put(filed, Message(hdr, parts))
      invariant ReducedParts(frames, i + 2, stop).Some? <==> ReducedParts(frames, next, stop).Some?
      invariant ReducedParts(frames, next, stop).Some? ==>
        parts + ReducedParts(frames, next, stop).value == [frames[i + 1].bytes] + ReducedParts(frames, i + 2, stop).value
    {
      if !frames[next].Data? {
        return false, next;
      }
      PutGrows(filed, hdr, parts, frames[next].bytes);
      ghost var was := stf.data;
      stf.AddStfDataAppend(at, frames[next].bytes);
      GrownDetermines(was, stf.data, at.equip, at.index, frames[next].bytes);
      assert ReducedParts(frames, next + 1, stop).Some? ==>
        parts + ([frames[next].bytes] + ReducedParts(frames, next + 1, stop).value)
        == (parts + [frames[next].bytes]) + ReducedParts(frames, next + 1, stop).value;
      parts := parts + [frames[next].bytes];
      next := next + 1;
    }
    assert parts + [] == parts;
    ok := true;
  }

  /**
   Both kinds of stream carry the sub-time-frame over: its header, and per equipment the same
   messages in order with the same parts. Only the payload size in full headers is the stream's.
  */
  method SendAndReceive(adapter: StfToDplAdapter, stf: SubTimeFrame, now: nat) returns (received: SubTimeFrame)
    requires adapter.layout.Carries(stf.header) && adapter.messages == []
    requires Filed(stf.data) && NoneEmpty(stf.data) && PartsEverywhere(stf.data)
    requires forall e, m | e in stf.Outgoing() && m in stf.Outgoing()[e] :: Stamped(m) && !Swallowed(m)
    modifies adapter`messages, stf
    ensures received.header == old(stf.header)
    ensures received.dataUpdated && received.data == Refreshed(ArrivedData(old(stf.Outgoing()), adapter.reducedHdr), received.header)
    ensures Refreshed(old(stf.Outgoing()), old(stf.header)) == old(stf.Outgoing()) ==>
      received.data == ArrivedData(old(stf.Outgoing()), adapter.reducedHdr)
    ensures old(!stf.dataUpdated) ==> Refreshed(old(stf.Outgoing()), old(stf.header)) == old(stf.Outgoing())
  {
    hide Parse;
    hide Stream;
    hide FullStream;
    hide ReducedStream;
    hide Begins;
    hide AllStamped;
    hide Flat;
    hide ArrivedData;
    hide Filed;
    hide NoneEmpty;
    hide Swallowed;
    hide Stamped;
    hide Enumerates;
    hide Refreshed;
    hide AllBroughtUpToDate;
    hide PutAll;
    hide TotalSize;
    ghost var data, h := stf.Outgoing(), stf.header;
    RefreshedIsFiled(stf.data, h);
    RefreshTwice(stf.data, h);
    if Refreshed(data, h) == data { ArrivedIsFresh(data, h, adapter.reducedHdr); }
    ghost var order;
    order := adapter.Visit(stf);
    ghost var ms := Flat(data, order);
    forall m | m in ms ensures Stamped(m) { FlatMembers(data, order, m); }
    StreamRoundTrip(adapter.layout, h, data, order, adapter.reducedHdr);
    assert [] + Stream(adapter.layout, h, ms, adapter.reducedHdr) == Stream(adapter.layout, h, ms, adapter.reducedHdr);
    received := new SubTimeFrame(0, now);
    NothingRefreshed(received.header);
    received.UpdateStf();
    assert received.data == map[];
    var failure := Receive(received, adapter.messages, adapter.layout);
    NothingPut();
    NothingRefreshed(received.header);
    received.UpdateStf();
  }

  lemma {:induction false} NothingPut()
    ensures PutAll(map[], []) == map[]
  {
  }

  lemma {:induction false} NothingRefreshed(h: StfHeader)
    ensures Refreshed(map[], h) == map[]
  {
  }
}
