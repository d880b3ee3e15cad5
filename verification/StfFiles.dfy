/** Files of many sub-time-frames: whatever was written is read again. */
module StfFiles {
  import opened Wrappers
  import opened StfModel
  import opened StfStreams
  import opened SubTimeFrames
  import opened EquipmentOrder
  import opened StfFileFormat
  import opened StfFileReader
  import opened StfFileWriter

  /** The next sub-time-frame, which is that of the next record as long as there is one. */
  method ReadNext(reader: SubTimeFrameFileReader, now: nat, ghost rs: seq<Record>, ghost k: nat)
    returns (loaded: Option<Loaded>)
    requires reader.Valid()
    modifies reader
    ensures reader.Valid()
    ensures loaded.Some? ==> reader.size == old(reader.size) && reader.pos > old(reader.pos)
    ensures old(LeftToRead(reader, rs, k)) && k < |rs| ==>
      && loaded.Some? && LeftToRead(reader, rs, k + 1) && reader.nextId == old(reader.nextId) + 1
      && ReadAs(loaded.value, rs[k], reader.stacked(old(reader.nextId)))
    ensures old(LeftToRead(reader, rs, k)) && k == |rs| ==> loaded.None? && reader.pos == reader.size == |reader.file|
  {
    hide RecordsBytes;
    hide At;
    hide Record.Valid;
    hide Record.Bytes;
    hide AllAnnounced;
    hide RestoredAll;
    hide Collect;
    hide Readable;
    ghost var l, good := reader.layout, LeftToRead(reader, rs, k) && k < |rs|;
    if good {
      NextRecord(l, rs, k, reader.file, reader.pos);
    }
    NoRecords(l);
    assert k == |rs| ==> rs[k..] == [];
    var stf := reader.Read(now, if good then rs[k] else Record(FileMeta(0, 0), [], []));
    loaded := if stf.Some? then Some(Loaded(stf.value.header, stf.value.data)) else None;
  }

  /**
   Reads until the end of the file, or until something cannot be read. A file of readable
   records is read to its very end, one sub-time-frame per record.
  */
  method ReadAll(reader: SubTimeFrameFileReader, now: nat, ghost rs: seq<Record>) returns (stfs: seq<Loaded>)
    requires reader.Valid() && reader.isOpen && reader.pos == 0
    modifies reader
    ensures reader.file == RecordsBytes(reader.layout, rs) && Readable(reader.layout, rs) ==>
      reader.pos == reader.size == |reader.file| && |stfs| == |rs| && AllReadAs(stfs, rs, old(reader.nextId), reader.stacked)
  {
    stfs := [];
    ghost var id := reader.nextId;
    ghost var good := reader.file == RecordsBytes(reader.layout, rs) && Readable(reader.layout, rs);
    if good { WholeFile(reader, rs); }
    hide Progress;
    hide AllReadAs;
    while true
      invariant reader.Valid()
      invariant good ==> Progress(reader, rs, stfs, id)
      decreases reader.size - reader.pos
    {
      var stf := ReadMore(reader, now, rs, stfs, id);
      if stf.None? {
        return;
      }
      stfs := stfs + [stf.value];
    }
  }

  method ReadMore(reader: SubTimeFrameFileReader, now: nat, ghost rs: seq<Record>, ghost stfs: seq<Loaded>, ghost id: nat)
    returns (loaded: Option<Loaded>)
    requires reader.Valid()
    modifies reader
    ensures reader.Valid()
    ensures loaded.Some? ==> reader.size == old(reader.size) && reader.pos > old(reader.pos)
    ensures old(Progress(reader, rs, stfs, id)) && loaded.Some? ==> Progress(reader, rs, stfs + [loaded.value], id)
    ensures old(Progress(reader, rs, stfs, id)) && loaded.None? ==>
      |stfs| == |rs| && AllReadAs(stfs, rs, id, reader.stacked) && reader.pos == reader.size == |reader.file|
  {
    hide LeftToRead;
    hide AllReadAs;
    hide ReadAs;
    ghost var good := Progress(reader, rs, stfs, id);
    if good && |stfs| == |rs| { ReadUp(reader, rs, stfs, id); }
    loaded := ReadNext(reader, now, rs, |stfs|);
    if good && loaded.Some? { AllReadMore(stfs, rs, id, reader.stacked, loaded.value, |stfs|); }
  }

  // -------------------------------------------------------------------------------- writing

  /** The records of several sub-time-frames with these data, written at these times. */
  ghost function RecordsOf(l: Layout, datas: seq<StfData>, times: seq<nat>): (rs: seq<Record>)
    requires |datas| == |times|
    ensures |rs| == |datas| && forall i | 0 <= i < |rs| :: rs[i] == RecordOf(l, datas[i], times[i])
  {
    seq(|datas|, i requires 0 <= i < |datas| => RecordOf(l, datas[i], times[i]))
  }

  /** What is sent of each sub-time-frame. */
  ghost function OutgoingOf(stfs: seq<SubTimeFrame>): (datas: seq<StfData>)
    reads stfs
    ensures |datas| == |stfs| && forall i | 0 <= i < |stfs| :: datas[i] == stfs[i].Outgoing()
  {
    if stfs == [] then [] else OutgoingOf(stfs[..|stfs| - 1]) + [stfs[|stfs| - 1].Outgoing()]
  }

  /** Writes the sub-time-frames one after the other, each as its record. */
  method WriteAll(writer: SubTimeFrameFileWriter, stfs: seq<SubTimeFrame>, times: seq<nat>, ghost rs: seq<Record>)
    requires writer.Idle() && writer.file == [] && |rs| == |times| == |stfs|
    requires forall i, j | 0 <= i < j < |stfs| :: stfs[i] != stfs[j]
    requires forall i | 0 <= i < |stfs| :: rs[i] == RecordOf(writer.layout, stfs[i].Outgoing(), times[i])
    modifies writer, stfs
    ensures writer.Idle() && writer.file == RecordsBytes(writer.layout, rs)
  {
    hide *;
    NoRecords(writer.layout);
    for i := 0 to |stfs|
      invariant writer.Idle() && writer.file == RecordsBytes(writer.layout, rs[..i])
      invariant forall j | i <= j < |stfs| :: stfs[j].Outgoing() == old(stfs[j].Outgoing())
    {
      WriteOne(writer, stfs[i], times[i], rs, i);
    }
    assert rs[..|stfs|] == rs;
  }

  lemma {:induction false} NoRecords(l: Layout)
    ensures RecordsBytes(l, []) == []
  {
  }

  method WriteOne(writer: SubTimeFrameFileWriter, stf: SubTimeFrame, now: nat, ghost rs: seq<Record>, ghost i: nat)
    requires writer.Idle() && i < |rs| && rs[i] == RecordOf(writer.layout, stf.Outgoing(), now)
    requires writer.file == RecordsBytes(writer.layout, rs[..i])
    modifies writer, stf
    ensures writer.Idle() && writer.file == RecordsBytes(writer.layout, rs[..i + 1])
  {
    hide *;
    var _ := writer.Write(stf, now);
    RecordsSnoc(writer.layout, rs[..i], rs[i]);
    assert rs[..i + 1] == rs[..i] + [rs[i]];
  }

  // ---------------------------------------------------------------------------- the round trip

  /**
   The sub-time-frame can be stored: messages are filed under their own equipment and have parts,
   which their headers announce unless they are about to be brought up to date, and the layout
   has room for the headers, the index and the size.
  */
  ghost predicate Writable(l: Layout, stf: SubTimeFrame, now: nat)
    reads stf
  {
    && Filed(stf.data) && NoneEmpty(stf.data)
    && (if stf.dataUpdated then DataAnnounced(stf.data) else forall e | e in stf.data :: HaveParts(stf.data[e]))
    && FitsLayout(l, stf.Outgoing(), now)
  }

  lemma {:induction false} AllReadable(l: Layout, stfs: seq<SubTimeFrame>, times: seq<nat>)
    requires l.Valid() && |stfs| == |times|
    requires forall i | 0 <= i < |stfs| :: Writable(l, stfs[i], times[i])
    ensures 0 < l.baseSize && Readable(l, RecordsOf(l, OutgoingOf(stfs), times))
    ensures forall i | 0 <= i < |stfs| :: Filed(stfs[i].Outgoing()) && NoneEmpty(stfs[i].Outgoing())
  {
    hide FitsLayout;
    hide Refreshed;
    hide RecordOf;
    hide Record.Valid;
    hide AllAnnounced;
    forall i | 0 <= i < |stfs| ensures Storable(l, stfs[i].Outgoing(), times[i]) {
      assert Writable(l, stfs[i], times[i]);
      if !stfs[i].dataUpdated {
        RefreshedIsFiled(stfs[i].data, stfs[i].header);
        RefreshedIsAnnounced(stfs[i].data, stfs[i].header);
      }
    }
    forall r | r in RecordsOf(l, OutgoingOf(stfs), times) ensures r.Valid(l) && AllAnnounced(r.ms) {
      var i :| 0 <= i < |stfs| && r == RecordOf(l, stfs[i].Outgoing(), times[i]);
      StorableIsReadable(l, stfs[i].Outgoing(), times[i]);
    }
  }

  /** What is read of a record of the file is the data that was written, restacked. */
  lemma {:induction false} ReadIsWritten(loaded: seq<Loaded>, l: Layout, rs: seq<Record>, i: nat, data: StfData, now: nat, stacked: nat -> seq<bv8>)
    requires AllReadAs(loaded, rs, 0, stacked) && i < |loaded| == |rs|
    requires rs[i] == RecordOf(l, data, now) && Filed(data) && NoneEmpty(data)
    ensures loaded[i].data == RestoredData(data, stacked(i)) && loaded[i].header.creationTimeMs == now
  {
    hide AllReadAs;
    hide Flat;
    hide Collect;
    hide RestoredAll;
    hide RestoredData;
    hide Filed;
    hide NoneEmpty;
    AllReadAt(loaded, rs, 0, stacked, i);
    RestoredRoundTrip(data, InOrder(data), stacked(i));
  }

  /**
   Any sequence of sub-time-frames that can be stored comes back from the file: per equipment
   the same messages in order, each with the same parts, and the file is read to its very end.
  */
  method WriteAndRead(layout: Layout, stacked: nat -> seq<bv8>, stfs: seq<SubTimeFrame>, times: seq<nat>, now: nat)
    returns (loaded: seq<Loaded>, reader: SubTimeFrameFileReader)
    requires layout.Valid() && |times| == |stfs|
    requires forall i, j | 0 <= i < j < |stfs| :: stfs[i] != stfs[j]
    requires forall i | 0 <= i < |stfs| :: Writable(layout, stfs[i], times[i])
    modifies stfs
    ensures reader.pos == reader.size == |reader.file|
    ensures |loaded| == |stfs|
    ensures forall i | 0 <= i < |stfs| ::
      loaded[i].data == RestoredData(old(stfs[i].Outgoing()), stacked(i)) && loaded[i].header.creationTimeMs == times[i]
  {
    hide *;
    AllReadable(layout, stfs, times);
    ghost var datas := OutgoingOf(stfs);
    ghost var rs := RecordsOf(layout, datas, times);
    var writer := new SubTimeFrameFileWriter(layout);
    WriteAll(writer, stfs, times, rs);
    reader := new SubTimeFrameFileReader(layout, stacked, writer.file);
    loaded := ReadAll(reader, now, rs);
    forall i | 0 <= i < |stfs|
      ensures loaded[i].data == RestoredData(datas[i], stacked(i)) && loaded[i].header.creationTimeMs == times[i]
    {
      ReadIsWritten(loaded, layout, rs, i, datas[i], times[i], stacked);
    }
  }
}
