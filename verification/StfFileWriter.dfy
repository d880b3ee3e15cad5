/** Writing sub-time-frames to a file. */
module StfFileWriter {
  import opened EquipmentOrder
  import opened StfModel
  import opened StfStreams
  import opened SubTimeFrames
  import opened StfFileFormat

  const BUFF_SIZE: nat := 0x10_0000
  const CHUNK_SIZE: nat := 512

  class SubTimeFrameFileWriter {
    const layout: Layout
    var file: seq<bv8>
    var stfData: seq<Message>
    var dataIndex: seq<IndexElem>
    var stfSize: nat

    ghost predicate Idle()
      reads `dataIndex, `stfSize
    {
      dataIndex == [] && stfSize == 0
    }

    constructor (layout: Layout)
      ensures Idle() && file == [] && this.layout == layout
    {
      this.layout := layout;
      file, stfData, dataIndex, stfSize := [], [], [], 0;
    }

    /** Long writes go straight to the file, shorter ones in chunks. */
    method BufferedWrite(bytes: seq<bv8>)
      modifies this`file
      ensures file == old(file) + bytes
    {
      if |bytes| >= BUFF_SIZE {
        file := file + bytes;
      } else {
        var done := 0;
        while done < |bytes|
          invariant 0 <= done <= |bytes|
          invariant file == old(file) + bytes[..done]
        {
          var count := if |bytes| - done < CHUNK_SIZE then |bytes| - done else CHUNK_SIZE;
          assert bytes[..done + count] == bytes[..done] + bytes[done..done + count];
          file := file + bytes[done..done + count];
          done := done + count;
        }
        assert bytes[..|bytes|] == bytes;
      }
    }

    method Measure(ms: seq<Message>) returns (size: nat, blocks: nat)
      ensures size == SizeInFile(layout, ms) && blocks == |Blocks(ms)|
    {
      size, blocks := 0, 0;
      for i := 0 to |ms|
        invariant size == SizeInFile(layout, ms[..i]) && blocks == |Blocks(ms[..i])|
      {
        var m := ms[i];
        assert ms[..i + 1][..i] == ms[..i];
        ghost var size0, blocks0 := size, blocks;
        for k := 0 to |m.parts|
          invariant size == size0 + k * layout.hdrSize + PartsSize(m.parts[..k])
          invariant blocks == blocks0 + k
        {
          assert m.parts[..k + 1][..k] == m.parts[..k];
          OneMore(k + 1, layout.hdrSize);
          size, blocks := size + layout.hdrSize + |m.parts[k]|, blocks + 1;
        }
        assert m.parts[..|m.parts|] == m.parts;
        BlocksOfMessage(m, |m.parts|);
      }
      assert ms[..|ms|] == ms;
    }

    /** Collects the messages in ascending order of equipment, their size, and the index. */
    method Visit(stf: SubTimeFrame)
      requires Idle()
      modifies this`stfData, this`dataIndex, this`stfSize, stf
      ensures stf.data == old(stf.Outgoing()) && stf.header == old(stf.header)
      ensures stfData == Flat(stf.data, InOrder(stf.data))
      ensures dataIndex == IndexOf(layout, stf.data, InOrder(stf.data))
      ensures stfSize == SizeInFile(layout, stfData)
    {
      hide Flat;
      hide IndexOf;
      hide SizeInFile;
      hide Refreshed;
      hide TotalSize;
      hide Ascending;
      hide Enumerates;
      stf.UpdateStf();
      var ids := stf.GetEquipmentIdentifiers();
      var sorted := SortEquipment(ids);
      AscendingEnumerates(sorted, stf.data);
      AscendingUnique(sorted, InOrder(stf.data));
      stfData, stfSize, dataIndex := BuildIndex(stf.data, sorted);
    }

    method BuildIndex(data: StfData, order: seq<Equipment>)
      returns (messages: seq<Message>, total: nat, index: seq<IndexElem>)
      requires Enumerates(order, data)
      ensures messages == Flat(data, order)
      ensures total == SizeInFile(layout, messages)
      ensures index == IndexOf(layout, data, order)
    {
      hide SizeInFile;
      hide Blocks;
      NothingWritten(layout, data);
      messages, total, index := [], 0, [];
      assert order[..0] == [];
      for i := 0 to |order|
        invariant messages == Flat(data, order[..i])
        invariant total == SizeInFile(layout, messages)
        invariant index == IndexOf(layout, data, order[..i])
      {
        var e := order[i];
        assert e in order;
        assert order[..i + 1][..i] == order[..i];
        var size, blocks := Measure(data[e]);
        SizeConcat(layout, messages, data[e]);
        index := index + [IndexElem(e, blocks, total, size)];
        messages, total := messages + data[e], total + size;
      }
      assert order[..|order|] == order;
    }

    method GetSizeInFile() returns (size: nat)
      ensures size == (layout.hdrSize + META_SIZE) + (layout.hdrSize + |dataIndex| * ELEM_SIZE) + stfSize
      ensures size == 2 * layout.hdrSize + 24 + 48 * |dataIndex| + stfSize
    {
      size := (layout.hdrSize + META_SIZE) + (layout.hdrSize + |dataIndex| * ELEM_SIZE) + stfSize;
    }

    /**
     Appends one record for the sub-time-frame. What is returned is what the meta record says,
     provided all headers fit their fields.
    */
    method Write(stf: SubTimeFrame, now: nat) returns (written: nat)
      requires Idle()
      modifies this, stf
      ensures Idle() && stf.data == old(stf.Outgoing()) && stf.header == old(stf.header)
      ensures file == old(file) + RecordOf(layout, stf.data, now).Bytes(layout)
      ensures var r := RecordOf(layout, stf.data, now);
        written == |r.Bytes(layout)| && (r.Valid(layout) ==> written == r.meta.stfSize)
    {
      hide Blocks;
      hide BlockBytes;
      hide IndexBytes;
      hide IndexOf;
      hide Flat;
      hide SizeInFile;
      hide Record.Valid;
      hide Record.Bytes;
      var prevSize := |file|;
      Visit(stf);
      var size := GetSizeInFile();
      ghost var r := RecordOf(layout, stf.data, now);
      WriteParts(FileMeta(size, now));
      if r.Valid(layout) { RecordSize(layout, r); }
      written := |file| - prevSize;
      stfData, dataIndex, stfSize := [], [], 0;
    }

    method WriteParts(meta: FileMeta)
      modifies this`file
      ensures file == old(file) + Record(meta, dataIndex, stfData).Bytes(layout)
    {
      hide Blocks;
      hide BlockBytes;
      hide IndexBytes;
      ghost var was := file;
      file := file + layout.encHdr(MetaHdr()) + layout.encMeta(meta);
      file := file + layout.encHdr(IndexHdr(|dataIndex|)) + IndexBytes(layout, dataIndex);
      ghost var head := layout.encHdr(MetaHdr()) + layout.encMeta(meta) + layout.encHdr(IndexHdr(|dataIndex|)) + IndexBytes(layout, dataIndex);
      assert file == was + head;
      WriteBlocks(stfData);
      assert file == was + (head + BlockBytes(layout, Blocks(stfData)));
    }

    method WriteBlocks(ms: seq<Message>)
      modifies this`file
      ensures file == old(file) + BlockBytes(layout, Blocks(ms))
    {
      hide BlocksUpTo;
      for i := 0 to |ms|
        invariant file == old(file) + BlockBytes(layout, Blocks(ms[..i]))
      {
        assert ms[..i + 1][..i] == ms[..i];
        WriteMessage(ms[i]);
        BlockBytesConcat(layout, Blocks(ms[..i]), BlocksUpTo(ms[i], |ms[i].parts|));
      }
      assert ms[..|ms|] == ms;
    }

    method WriteMessage(m: Message)
      modifies this`file
      ensures file == old(file) + BlockBytes(layout, BlocksUpTo(m, |m.parts|))
    {
      hide BlockBytes;
      hide BlocksUpTo;
      NextBlock(layout, m, 0);
      var hdr := m.hdr.(rest := []);
      for k := 0 to |m.parts|
        invariant file == old(file) + BlockBytes(layout, BlocksUpTo(m, k))
        invariant hdr == if k == 0 then m.hdr.(rest := []) else WrittenHdr(m, k - 1)
      {
        var part := m.parts[k];
        hdr := hdr.(payloadSize := |part|, splitIndex := k);
        NextBlock(layout, m, k);
        BufferedWrite(layout.encHdr(hdr));
        BufferedWrite(part);
      }
    }
  }

  lemma {:induction false} NextBlock(l: Layout, m: Message, k: nat)
    requires k <= |m.parts|
    ensures BlockBytes(l, BlocksUpTo(m, 0)) == []
    ensures k < |m.parts| ==>
      BlockBytes(l, BlocksUpTo(m, k + 1)) == BlockBytes(l, BlocksUpTo(m, k)) + l.encHdr(WrittenHdr(m, k)) + m.parts[k]
  {
    if k < |m.parts| {
      var bs, b := BlocksUpTo(m, k), Block(WrittenHdr(m, k), m.parts[k]);
      assert (bs + [b])[..|bs|] == bs;
    }
  }

  lemma {:induction false} NothingWritten(l: Layout, data: StfData)
    ensures SizeInFile(l, []) == 0 && Blocks([]) == [] && Flat(data, []) == [] && IndexOf(l, data, []) == []
  {
  }
}
