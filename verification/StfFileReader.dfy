/** Reading sub-time-frames from a file. */
module StfFileReader {
  import opened Wrappers
  import opened StfModel
  import opened StfStreams
  import opened SubTimeFrames
  import opened StfFileFormat

  const MAX_HEADERS: nat := 16

  /** The size of the stack at `pos`, if it ends within the file and has at most `n` headers. */
  ghost function StackAt(l: Layout, file: seq<bv8>, pos: nat, n: nat): Option<nat>
    decreases n
  {
    if n == 0 || pos + l.baseSize > |file| then None
    else
      var base := file[pos..pos + l.baseSize];
      var own := l.ownSize(base);
      if pos + own > |file| then None
      else if !l.hasNext(base) then Some(own)
      else
        var rest := StackAt(l, file, pos + own, n - 1);
        if rest.Some? then Some(own + rest.value) else None
  }

  /** Headers of their own sizes; all but the last say that another one follows. */
  ghost predicate Heads(l: Layout, hs: seq<seq<bv8>>) {
    && hs != []
    && forall i | 0 <= i < |hs| ::
         && l.baseSize <= |hs[i]| == l.ownSize(hs[i][..l.baseSize])
         && (l.hasNext(hs[i][..l.baseSize]) <==> i + 1 < |hs|)
  }

  ghost function Joined(hs: seq<seq<bv8>>): seq<bv8> {
    if hs == [] then [] else hs[0] + Joined(hs[1..])
  }

  /** The first header decides whether and where the stack goes on. */
  lemma {:induction false} StackBegins(l: Layout, file: seq<bv8>, pos: nat, h: seq<bv8>, n: nat)
    requires At(file, pos, h) && l.baseSize <= |h| == l.ownSize(h[..l.baseSize])
    ensures n == 0 ==> StackAt(l, file, pos, n) == None
    ensures n > 0 ==>
      var rest := if l.hasNext(h[..l.baseSize]) then StackAt(l, file, pos + |h|, n - 1) else Some(0);
      StackAt(l, file, pos, n) == if rest.Some? then Some(|h| + rest.value) else None
  {
    assert file[pos..pos + |h|][..l.baseSize] == file[pos..pos + l.baseSize];
  }

  /** A stack begins with a header that is wholly there. */
  lemma {:induction false} FirstHead(l: Layout, file: seq<bv8>, pos: nat, n: nat) returns (h: seq<bv8>)
    requires forall b: seq<bv8> | |b| == l.baseSize :: l.baseSize <= l.ownSize(b)
    requires StackAt(l, file, pos, n).Some?
    ensures n > 0 && pos + |h| <= |file| && At(file, pos, h) && l.baseSize <= |h| == l.ownSize(h[..l.baseSize])
  {
    var base := file[pos..pos + l.baseSize];
    h := file[pos..pos + l.ownSize(base)];
    assert h[..l.baseSize] == base;
  }

  lemma {:induction false} HeadsMore(l: Layout, h: seq<bv8>, hs: seq<seq<bv8>>)
    ensures Joined([h] + hs) == h + Joined(hs)
    ensures Heads(l, [h] + hs) <==>
      && l.baseSize <= |h| == l.ownSize(h[..l.baseSize]) && (l.hasNext(h[..l.baseSize]) <==> hs != [])
      && (hs != [] ==> Heads(l, hs))
  {
    var all := [h] + hs;
    assert all[1..] == hs;
    if Heads(l, all) {
      forall i | 0 <= i < |hs|
        ensures l.baseSize <= |hs[i]| == l.ownSize(hs[i][..l.baseSize]) && (l.hasNext(hs[i][..l.baseSize]) <==> i + 1 < |hs|)
      {
        assert all[i + 1] == hs[i];
      }
    }
  }

  lemma {:induction false} StackMeasured(l: Layout, file: seq<bv8>, pos: nat, hs: seq<seq<bv8>>, n: nat)
    requires Heads(l, hs) && At(file, pos, Joined(hs))
    ensures StackAt(l, file, pos, n) == if |hs| <= n then Some(|Joined(hs)|) else None
    decreases |hs|
  {
    hide StackAt;
    hide Heads;
    hide Joined;
    hide At;
    assert hs != [] by { HeadsSome(l, hs); }
    var h, rest := hs[0], hs[1..];
    assert hs == [h] + rest;
    HeadsMore(l, h, rest);
    AtConcat(file, pos, h, Joined(rest));
    StackBegins(l, file, pos, h, n);
    if rest != [] && n > 0 { StackMeasured(l, file, pos + |h|, rest, n - 1); }
    if rest == [] { NothingJoined(); }
  }

  lemma {:induction false} NothingJoined()
    ensures Joined([]) == []
  {
  }

  lemma {:induction false} HeadsSome(l: Layout, hs: seq<seq<bv8>>)
    requires Heads(l, hs)
    ensures hs != []
  {
  }

  lemma {:induction false} StackSplit(l: Layout, file: seq<bv8>, pos: nat, n: nat) returns (hs: seq<seq<bv8>>)
    requires forall b: seq<bv8> | |b| == l.baseSize :: l.baseSize <= l.ownSize(b)
    requires StackAt(l, file, pos, n).Some?
    ensures Heads(l, hs) && |hs| <= n && At(file, pos, Joined(hs)) && |Joined(hs)| == StackAt(l, file, pos, n).value
    decreases n
  {
    hide StackAt;
    hide Heads;
    hide Joined;
    hide At;
    var h := FirstHead(l, file, pos, n);
    StackBegins(l, file, pos, h, n);
    hs := [];
    NothingJoined();
    if l.hasNext(h[..l.baseSize]) {
      hs := StackSplit(l, file, pos + |h|, n - 1);
      HeadsSome(l, hs);
    } else {
      NothingAt(file, pos + |h|);
    }
    AtConcat(file, pos, h, Joined(hs));
    HeadsMore(l, h, hs);
    hs := [h] + hs;
  }

  lemma {:induction false} NothingAt(file: seq<bv8>, pos: nat)
    requires pos <= |file|
    ensures At(file, pos, [])
  {
  }

  /**
   When no header claims to be smaller than the part common to all, a stack is found if and only
   if the bytes ahead are headers chained by their flags, no more than `n`; its size is theirs.
  */
  lemma {:induction false} StackFoundExactly(l: Layout, file: seq<bv8>, pos: nat, n: nat, size: nat)
    requires forall b: seq<bv8> | |b| == l.baseSize :: l.baseSize <= l.ownSize(b)
    ensures StackAt(l, file, pos, n) == Some(size)
       <==> exists hs :: Heads(l, hs) && |hs| <= n && At(file, pos, Joined(hs)) && |Joined(hs)| == size
  {
    hide StackAt;
    hide Heads;
    hide Joined;
    if StackAt(l, file, pos, n) == Some(size) { var hs := StackSplit(l, file, pos, n); }
    forall hs | Heads(l, hs) && |hs| <= n && At(file, pos, Joined(hs)) && |Joined(hs)| == size
      ensures StackAt(l, file, pos, n) == Some(size)
    {
      StackMeasured(l, file, pos, hs, n);
    }
  }

  /** A data header by itself is such a stack. */
  lemma {:induction false} OneHeader(l: Layout, file: seq<bv8>, pos: nat, h: DataHeader, n: nat)
    requires l.HdrOk(h) && At(file, pos, l.encHdr(h)) && n > 0
    ensures StackAt(l, file, pos, n) == Some(l.hdrSize)
  {
    StackBegins(l, file, pos, l.encHdr(h), n);
  }

  lemma {:induction false} NoHeaders(l: Layout, file: seq<bv8>, pos: nat)
    ensures StackAt(l, file, pos, 0) == None
  {
  }

  /** What one header tells about the stack it begins. */
  lemma {:induction false} StackStep(l: Layout, file: seq<bv8>, pos: nat, n: nat)
    ensures pos + l.baseSize > |file| ==> StackAt(l, file, pos, n) == None
    ensures pos + l.baseSize <= |file| ==>
      var base := file[pos..pos + l.baseSize];
      var own := l.ownSize(base);
      && (pos + own > |file| ==> StackAt(l, file, pos, n) == None)
      && (pos + own <= |file| && n > 0 ==>
            var rest := if l.hasNext(base) then StackAt(l, file, pos + own, n - 1) else Some(0);
            StackAt(l, file, pos, n) == if rest.Some? then Some(own + rest.value) else None)
  {
  }

  /** A stack of headers begins at `p`, long enough for one. */
  ghost predicate StackReadable(l: Layout, file: seq<bv8>, p: nat) {
    var k := StackAt(l, file, p, 15);
    k.Some? && l.baseSize <= k.value && p + k.value <= |file|
  }

  ghost function StackSize(l: Layout, file: seq<bv8>, p: nat): nat
    requires StackReadable(l, file, p)
  {
    StackAt(l, file, p, 15).value
  }

  /** The stack decodes to a header, and its payload is in the file. */
  ghost predicate BlockReadable(l: Layout, file: seq<bv8>, p: nat) {
    && StackReadable(l, file, p)
    && var k := StackSize(l, file, p);
       var h := l.decHdr(file[p..p + k]);
       h.Some? && p + k + h.value.payloadSize <= |file|
  }

  /** A meta record is there, it announces more than itself, and the file is long enough for that. */
  ghost predicate MetaReadable(l: Layout, file: seq<bv8>, p: nat) {
    && StackReadable(l, file, p)
    && var k := StackSize(l, file, p);
       var h := l.decHdr(file[p..p + k]);
       && p + k + 24 <= |file| && h.Some? && h.value.desc == META_DESC
       && var size := l.decMeta(file[p + k..p + k + 24]).stfSize;
          size != l.hdrSize + 24 && p + size <= |file|
  }

  lemma {:induction false} StackInFile(l: Layout, file: seq<bv8>, p: nat, n: nat)
    requires StackAt(l, file, p, n).Some?
    ensures p + StackAt(l, file, p, n).value <= |file|
    decreases n
  {
    var base := file[p..p + l.baseSize];
    if l.hasNext(base) { StackInFile(l, file, p + l.ownSize(base), n - 1); }
  }

  class SubTimeFrameFileReader {
    const layout: Layout
    /** The processing header stacked behind a data header, per id. */
    const stacked: nat -> seq<bv8>
    const file: seq<bv8>
    var isOpen: bool
    var pos: nat
    var size: nat
    var nextId: nat

    ghost predicate Valid()
      reads `isOpen, `pos, `size
    {
      && pos <= size
      && (if isOpen then size == |file| else pos == size == 0)
      && 0 < layout.baseSize
    }

    /** The bytes ahead begin with these. */
    ghost predicate Ahead(bytes: seq<bv8>)
      reads `isOpen, `pos, `size
    {
      isOpen && size == |file| && At(file, pos, bytes)
    }

    constructor (layout: Layout, stacked: nat -> seq<bv8>, file: seq<bv8>)
      requires 0 < layout.baseSize
      ensures Valid() && isOpen && pos == 0 && size == |file|
      ensures this.layout == layout && this.stacked == stacked && this.file == file && nextId == 0
    {
      this.layout, this.stacked, this.file := layout, stacked, file;
      isOpen, pos, size, nextId := true, 0, |file|, 0;
    }

    method Close()
      modifies this`isOpen, this`pos, this`size
      ensures !isOpen && pos == size == 0
    {
      isOpen, pos, size := false, 0, 0;
    }

    /** A read beyond the end closes the file. */
    method ReadAdvance(len: nat) returns (ok: bool, bytes: seq<bv8>)
      requires Valid()
      modifies this`isOpen, this`pos, this`size
      ensures Valid()
      ensures ok <==> old(isOpen && pos + len <= size)
      ensures ok ==> isOpen && pos == old(pos) + len && size == old(size) && bytes == file[old(pos)..pos]
      ensures !ok ==> !isOpen
    {
      if !isOpen {
        return false, [];
      }
      if size - pos < len {
        Close();
        return false, [];
      }
      bytes := file[pos..pos + len];
      pos := pos + len;
      ok := true;
    }

    method IgnoreNbytes(len: nat) returns (ok: bool)
      requires Valid() && isOpen
      modifies this`isOpen, this`pos, this`size
      ensures Valid()
      ensures ok <==> old(pos + len <= size)
      ensures ok ==> isOpen && pos == old(pos) + len && size == old(size)
      ensures !ok ==> !isOpen
    {
      if size - pos < len {
        Close();
        return false;
      }
      pos := pos + len;
      ok := true;
    }

    method SetPosition(p: nat)
      requires Valid() && p <= size
      modifies this`pos
      ensures pos == p && Valid()
    {
      pos := p;
    }

    /** The size of the stack of headers ahead, or zero; the position is kept when it is found. */
    method GetHeaderStackSize() returns (stackSize: nat)
      requires Valid() && isOpen
      modifies this`isOpen, this`pos, this`size
      ensures Valid()
      ensures stackSize > 0 ==> isOpen && pos == old(pos) && size == old(size)
      ensures isOpen ==> pos == old(pos) && size == old(size)
      ensures
        var found := StackAt(layout, file, old(pos), 15);
        stackSize == if found.Some? then found.value else 0
    {
      hide StackAt;
      var start, more, n := pos, true, 0;
      stackSize := 0;
      while more && n < MAX_HEADERS
        invariant Valid() && isOpen && size == old(size) && start == old(pos) <= size && n <= MAX_HEADERS
        invariant n == MAX_HEADERS ==> StackAt(layout, file, start, MAX_HEADERS - 1).None?
        invariant n < MAX_HEADERS ==>
          var rest := if more then StackAt(layout, file, pos, MAX_HEADERS - 1 - n) else Some(0);
          StackAt(layout, file, start, MAX_HEADERS - 1) == if rest.Some? then Some(stackSize + rest.value) else None
        decreases MAX_HEADERS - n
      {
        NoHeaders(layout, file, pos);
        StackStep(layout, file, pos, MAX_HEADERS - 1 - n);
        n := n + 1;
        var basePos := pos;
        var ok, base := ReadAdvance(layout.baseSize);
        if !ok {
          return 0;
        }
        SetPosition(basePos);
        ok := IgnoreNbytes(layout.ownSize(base));
        if !ok {
          return 0;
        }
        stackSize := stackSize + layout.ownSize(base);
        more := layout.hasNext(base);
      }
      SetPosition(start);
      if n >= MAX_HEADERS {
        return 0;
      }
    }

    /** The stack of headers ahead, decoded, and its size; zero if there is none. */
    method GetHeaderStack() returns (stackSize: nat, hdr: Option<DataHeader>)
      requires Valid() && isOpen
      modifies this`isOpen, this`pos, this`size
      ensures Valid()
      ensures stackSize > 0 ==> isOpen && size == old(size) && pos == old(pos) + stackSize
      ensures stackSize > 0 <==> StackReadable(layout, file, old(pos))
      ensures stackSize > 0 ==> stackSize == StackSize(layout, file, old(pos)) && hdr == layout.decHdr(file[old(pos)..pos])
      ensures forall h | layout.Valid() && layout.fits(h) && old(Ahead(layout.encHdr(h))) ::
                stackSize == layout.hdrSize && hdr == Some(h)
    {
      stackSize := GetHeaderStackSize();
      if StackAt(layout, file, old(pos), 15).Some? { StackInFile(layout, file, old(pos), 15); }
      forall h | layout.Valid() && layout.fits(h) && old(Ahead(layout.encHdr(h)))
        ensures layout.HdrOk(h) && layout.baseSize <= stackSize == layout.hdrSize
        ensures file[old(pos)..old(pos) + stackSize] == layout.encHdr(h) && old(pos) + stackSize <= old(size)
      {
        assert layout.HdrOk(h);
        OneHeader(layout, file, old(pos), h, MAX_HEADERS - 1);
      }
      if stackSize < layout.baseSize {
        return 0, None;
      }
      var start := pos;
      // the stack was measured within the file, so this does not fail
      var _ := IgnoreNbytes(stackSize);
      hdr := layout.decHdr(file[start..start + stackSize]);
    }

    /** This meta record is ahead, and as much data as it says. */
    ghost predicate MetaAhead(meta: FileMeta)
      reads `isOpen, `pos, `size
    {
      && layout.Valid() && layout.fits(MetaHdr()) && layout.MetaOk(meta)
      && Ahead(layout.encHdr(MetaHdr())) && At(file, pos + layout.hdrSize, layout.encMeta(meta))
      && meta.stfSize != layout.hdrSize + META_SIZE && pos + meta.stfSize <= size
    }

    /** The meta record, as long as the file holds as much as it says. */
    method ReadMeta(ghost expected: FileMeta) returns (ok: bool, meta: FileMeta, metaStack: nat)
      requires Valid() && isOpen
      modifies this`isOpen, this`pos, this`size
      ensures Valid()
      ensures ok ==> isOpen && size == old(size) && pos > old(pos)
      ensures ok <==> MetaReadable(layout, file, old(pos))
      ensures ok ==>
        && metaStack == StackSize(layout, file, old(pos)) && pos == old(pos) + metaStack + 24
        && meta == layout.decMeta(file[old(pos) + metaStack..pos])
      ensures !ok ==> !isOpen
      ensures old(MetaAhead(expected)) ==>
        ok && meta == expected && metaStack == layout.hdrSize && pos == old(pos) + layout.hdrSize + META_SIZE
    {
      hide StackAt;
      var start := pos;
      meta := FileMeta(0, 0);
      assert MetaAhead(expected) ==> layout.HdrOk(MetaHdr());
      var metaHdr;
      metaStack, metaHdr := GetHeaderStack();
      if metaStack == 0 {
        Close();
        return false, meta, metaStack;
      }
      var read, metaBytes := ReadAdvance(META_SIZE);
      if !read {
        return false, meta, metaStack;
      }
      meta := layout.decMeta(metaBytes);
      if metaHdr.None? || metaHdr.value.desc != META_DESC {
        Close();
        return false, meta, metaStack;
      }
      if meta.stfSize == layout.hdrSize + META_SIZE || start + meta.stfSize > size {
        Close();
        return false, meta, metaStack;
      }
      ok := true;
    }

    /** An index of `n` elements is ahead. */
    ghost predicate IndexAhead(n: nat)
      reads `isOpen, `pos, `size
    {
      && layout.Valid() && layout.fits(IndexHdr(n)) && Ahead(layout.encHdr(IndexHdr(n)))
      && pos + layout.hdrSize + n * ELEM_SIZE <= size
    }

    method SkipIndex(ghost n: nat) returns (ok: bool, skipped: nat)
      requires Valid() && isOpen
      modifies this`isOpen, this`pos, this`size
      ensures Valid()
      ensures ok ==> isOpen && size == old(size) && pos == old(pos) + skipped
      ensures ok <==> BlockReadable(layout, file, old(pos))
      ensures ok ==>
        var k := StackSize(layout, file, old(pos));
        skipped == k + layout.decHdr(file[old(pos)..old(pos) + k]).value.payloadSize
      ensures !ok ==> !isOpen || (StackReadable(layout, file, old(pos)) && layout.decHdr(file[old(pos)..old(pos) + StackSize(layout, file, old(pos))]).None?)
      ensures old(IndexAhead(n)) ==> ok && skipped == layout.hdrSize + n * ELEM_SIZE
    {
      hide StackAt;
      assert IndexAhead(n) ==> layout.HdrOk(IndexHdr(n));
      var stackSize, hdr := GetHeaderStack();
      if stackSize == 0 {
        Close();
        return false, 0;
      }
      if hdr.None? {
        return false, 0;
      }
      ok := IgnoreNbytes(hdr.value.payloadSize);
      skipped := stackSize + hdr.value.payloadSize;
    }

    /** This record is ahead. */
    ghost predicate RecordAhead(r: Record)
      reads `isOpen, `pos, `size
    {
      r.Valid(layout) && Ahead(r.Bytes(layout))
    }

    /** The pieces of a record, found from its beginning. */
    lemma {:induction false} AheadOfRecord(r: Record)
      requires RecordAhead(r)
      ensures MetaAhead(r.meta)
      ensures
        var h, data := layout.hdrSize, BlockBytes(layout, Blocks(r.ms));
        && layout.Valid() && layout.fits(IndexHdr(|r.index|)) && |layout.encHdr(IndexHdr(|r.index|))| == h
        && r.meta.stfSize == h + META_SIZE + h + |r.index| * ELEM_SIZE + |data| && pos + r.meta.stfSize <= size == |file|
        && At(file, pos + h + META_SIZE, layout.encHdr(IndexHdr(|r.index|)))
        && At(file, pos + h + META_SIZE + h + |r.index| * ELEM_SIZE, data)
    {
      RecordAt(layout, r, file, pos);
    }

    /** Meta record and index; `left` is the size of the data behind them. */
    method ReadHead(ghost r: Record) returns (ok: bool, meta: FileMeta, left: int)
      requires Valid() && isOpen
      modifies this`isOpen, this`pos, this`size
      ensures Valid()
      ensures ok ==> isOpen && size == old(size) && pos > old(pos)
      ensures old(RecordAhead(r)) ==>
        && ok && meta == r.meta && left == |BlockBytes(layout, Blocks(r.ms))|
        && pos == old(pos) + (r.meta.stfSize - left)
    {
      hide RecordAhead;
      hide MetaAhead;
      hide At;
      hide BlockBytes;
      hide Blocks;
      hide MetaHdr;
      hide Layout.Valid;
      left := 0;
      ghost var good := RecordAhead(r);
      if good { AheadOfRecord(r); }
      var metaStack, skipped;
      ok, meta, metaStack := ReadMeta(r.meta);
      if !ok {
        return;
      }
      assert good ==> IndexAhead(|r.index|);
      ok, skipped := SkipIndex(|r.index|);
      left := meta.stfSize - (metaStack + META_SIZE) - skipped;
    }

    /** These blocks are ahead. */
    ghost predicate BlocksAhead(bs: seq<Block>)
      reads `isOpen, `pos, `size
    {
      layout.Valid() && FitsAll(layout, bs) && Sized(bs) && Ahead(BlockBytes(layout, bs))
    }

    /** One header stack and its payload; `used` is what they take in the file. */
    method ReadBlock(stackedBehind: seq<bv8>, ghost b: Block) returns (ok: bool, item: Item, used: nat)
      requires Valid() && isOpen
      modifies this`isOpen, this`pos, this`size
      ensures Valid()
      ensures ok ==> isOpen && size == old(size) && used > 0 && pos == old(pos) + used
      ensures ok <==> BlockReadable(layout, file, old(pos))
      ensures ok ==>
        var k := StackSize(layout, file, old(pos));
        var h := layout.decHdr(file[old(pos)..old(pos) + k]).value;
        && used == k + h.payloadSize && item.payload == file[old(pos) + k..pos]
        && item.hdr == if h.splitIndex == 0 || h.splitParts <= 1 then Some(h.(rest := h.rest + stackedBehind)) else None
      ensures !ok ==> !isOpen
      ensures layout.Valid() && layout.fits(b.hdr) && layout.HdrOk(b.hdr) && b.hdr.payloadSize == |b.payload|
        && old(Ahead(layout.encHdr(b.hdr))) && old(At(file, pos + layout.hdrSize, b.payload))
        ==> ok && item == ItemOf(b, stackedBehind) && used == layout.hdrSize + |b.payload|
    {
      hide StackAt;
      item, used := Item(None, []), 0;
      var stackSize, hdr := GetHeaderStack();
      if stackSize == 0 {
        Close();
        return false, item, used;
      }
      if hdr.None? {
        Close();
        return false, item, used;
      }
      var h := hdr.value;
      var payload;
      ok, payload := ReadAdvance(h.payloadSize);
      if !ok {
        return;
      }
      item := Item(if Opens(h) then Some(h.(rest := h.rest + stackedBehind)) else None, payload);
      used := stackSize + h.payloadSize;
    }

    /** Reads as much data as is left of the record, and no more. */
    method ReadBlocks(size0: int, stackedBehind: seq<bv8>, ghost bs: seq<Block>) returns (ok: bool, items: seq<Item>)
      requires Valid() && isOpen
      modifies this`isOpen, this`pos, this`size
      ensures Valid()
      ensures ok ==> isOpen && size == old(size) && pos == old(pos) + (if size0 < 0 then 0 else size0) && size0 >= 0
      ensures old(BlocksAhead(bs)) && size0 == |BlockBytes(layout, bs)| ==> ok && items == ItemsOf(bs, stackedBehind)
    {
      hide BlockBytes;
      hide ItemsOf;
      hide ItemOf;
      hide FitsAll;
      hide Sized;
      hide At;
      hide Layout.Valid;
      hide Layout.HdrOk;
      items := [];
      var left := size0;
      ghost var good := BlocksAhead(bs) && size0 == |BlockBytes(layout, bs)|;
      ghost var k, start := 0, pos;
      NoBytes(layout);
      ItemsMore(bs, 0, stackedBehind);
      assert bs[..|bs|] == bs && bs[..0] == [];
      while left > 0
        invariant Valid() && isOpen && size == old(size)
        invariant pos == start + (size0 - left)
        invariant good ==> k <= |bs| && size0 - left == |BlockBytes(layout, bs[..k])| && items == ItemsOf(bs[..k], stackedBehind)
        invariant good <==> old(BlocksAhead(bs)) && size0 == |BlockBytes(layout, bs)|
        decreases left
      {
        if good {
          BlockLies(layout, bs, k, file, start);
          ItemsMore(bs, k, stackedBehind);
        }
        var item, used;
        ok, item, used := ReadBlock(stackedBehind, if good then bs[k] else Block(MetaHdr(), []));
        if !ok {
          return;
        }
        items := items + [item];
        left := left - used;
        k := k + 1;
      }
      if good {
        if k < |bs| { BlockLies(layout, bs, k, file, start); }
        assert bs[..k] == bs;
      }
      ok := left == 0;
    }

    /** Fills the sub-time-frame with what was read; continuations go to the last message. */
    method Build(stf: SubTimeFrame, items: seq<Item>)
      modifies stf
      ensures stf.header == old(stf.header)
      ensures stf.data == PutAll(old(stf.data), Group(items))
    {
      hide *;
      ghost var was := stf.data;
      var at: Option<Place> := None;
      assert items[..0] == [];
      assert items[..|items|] == items;
      NothingPlaced(was);
      for i := 0 to |items|
        invariant stf.header == old(stf.header)
        invariant stf.data == PutAll(was, Group(items[..i]))
        invariant LastPlaced(was, Group(items[..i]), at)
      {
        var x := items[i];
        assert items[..i + 1] == items[..i] + [x];
        match x.hdr {
          case Some(h) =>
            PlaceOpens(was, items[..i], h, x.payload);
            ghost var before := stf.data;
            var place := stf.AddStfDataStart(h.Equip(), h, x.payload);
            AddedDetermines(before, stf.data, h.Equip(), h, x.payload);
            at := Some(place);
          case None =>
            if at.Some? {
              PlaceContinues(was, items[..i], x.payload, at.value);
              ghost var before := stf.data;
              stf.AddStfDataAppend(at.value, x.payload);
              GrownDetermines(before, stf.data, at.value.equip, at.value.index, x.payload);
            } else {
              GroupNothing(was, items[..i], x);
            }
        }
      }
    }

    /** Head and data of a record. */
    method ReadRecord(stackedBehind: seq<bv8>, ghost r: Record) returns (ok: bool, meta: FileMeta, items: seq<Item>)
      requires Valid() && isOpen
      modifies this`isOpen, this`pos, this`size
      ensures Valid()
      ensures ok ==> isOpen && size == old(size) && pos > old(pos)
      ensures old(RecordAhead(r)) ==>
        ok && meta == r.meta && items == ItemsOf(Blocks(r.ms), stackedBehind) && pos == old(pos) + r.meta.stfSize
    {
      items := [];
      ghost var good, start := RecordAhead(r), pos;
      if good {
        AheadOfRecord(r);
        BlocksSized(r.ms);
      }
      hide RecordAhead;
      hide At;
      hide BlockBytes;
      hide Blocks;
      hide ItemsOf;
      hide Sized;
      hide FitsAll;
      hide Layout.Valid;
      hide MetaAhead;
      var left;
      ok, meta, left := ReadHead(r);
      if !ok {
        return;
      }
      assert good ==> BlocksAhead(Blocks(r.ms));
      ok, items := ReadBlocks(left, stackedBehind, Blocks(r.ms));
    }

    method Assemble(id: nat, now: nat, meta: FileMeta, items: seq<Item>) returns (stf: SubTimeFrame)
      ensures fresh(stf) && stf.data == Collect(Group(items))
      ensures stf.header.id == id && stf.header.creationTimeMs == meta.writeTimeMs
    {
      stf := new SubTimeFrame(id, now);
      stf.header := stf.header.(creationTimeMs := meta.writeTimeMs);
      stf.UpdateStf();
      assert stf.data == map[];
      Build(stf, items);
    }

    /**
     The next sub-time-frame of the file, if there is one. A record that was written is read
     back with the same messages and parts, and the position is then right behind it.
    */
    method Read(now: nat, ghost r: Record) returns (stf: Option<SubTimeFrame>)
      requires Valid()
      modifies this`isOpen, this`pos, this`size, this`nextId
      ensures Valid()
      ensures stf.Some? ==> fresh(stf.value) && isOpen && size == old(size) && pos > old(pos)
      ensures old(pos == size) ==> stf.None? && pos == size == old(size)
      ensures old(RecordAhead(r)) && old(pos < size) && AllAnnounced(r.ms) ==>
        && stf.Some? && pos == old(pos) + r.meta.stfSize
        && stf.value.data == Collect(RestoredAll(r.ms, stacked(old(nextId))))
        && stf.value.header.creationTimeMs == r.meta.writeTimeMs && stf.value.header.id == old(nextId)
        && nextId == old(nextId) + 1
    {
      if pos == size {
        return None;
      }
      if !isOpen {
        return None;
      }
      var id := nextId;
      nextId := nextId + 1;
      if AllAnnounced(r.ms) { GroupBlocks(r.ms, stacked(id)); }
      hide *;
      var ok, meta, items := ReadRecord(stacked(id), r);
      if !ok {
        return None;
      }
      var result := Assemble(id, now, meta, items);
      stf := Some(result);
    }
  }

  /** The records from number `k` on are what is left of the file. */
  ghost predicate LeftToRead(reader: SubTimeFrameFileReader, rs: seq<Record>, k: nat)
    reads reader
  {
    && k <= |rs| && reader.isOpen && Readable(reader.layout, rs)
    && At(reader.file, reader.pos, RecordsBytes(reader.layout, rs[k..]))
    && reader.pos + |RecordsBytes(reader.layout, rs[k..])| == reader.size == |reader.file|
  }

  /** The first records have been read, as these; the others are ahead. */
  ghost predicate Progress(reader: SubTimeFrameFileReader, rs: seq<Record>, stfs: seq<Loaded>, id: nat)
    reads reader
  {
    && |stfs| <= |rs| && LeftToRead(reader, rs, |stfs|) && reader.nextId == id + |stfs|
    && AllReadAs(stfs, rs[..|stfs|], id, reader.stacked)
  }

  lemma {:induction false} WholeFile(reader: SubTimeFrameFileReader, rs: seq<Record>)
    requires reader.Valid() && reader.isOpen && reader.pos == 0
    requires reader.file == RecordsBytes(reader.layout, rs) && Readable(reader.layout, rs)
    ensures Progress(reader, rs, [], reader.nextId)
  {
    assert rs[0..] == rs && rs[..0] == [];
  }

  lemma {:induction false} ReadUp(reader: SubTimeFrameFileReader, rs: seq<Record>, stfs: seq<Loaded>, id: nat)
    requires Progress(reader, rs, stfs, id) && |stfs| == |rs|
    ensures AllReadAs(stfs, rs, id, reader.stacked)
  {
    assert rs[..|rs|] == rs;
  }

  /** Where the last message is, if there is one. */
  ghost predicate LastPlaced(was: StfData, ms: seq<Message>, at: Option<Place>) {
    match at
    case None => ms == []
    case Some(place) =>
      && ms != []
      && var m := ms[|ms| - 1];
         && m.parts != []
         && place == Place(m.hdr.Equip(), |MessagesOf(PutAll(was, ms[..|ms| - 1]), m.hdr.Equip())|)
  }

  lemma {:induction false} NothingPlaced(was: StfData)
    ensures PutAll(was, Group([])) == was && LastPlaced(was, Group([]), None)
  {
  }

  lemma {:induction false} PlaceOpens(was: StfData, items: seq<Item>, h: DataHeader, p: Part)
    ensures
      var data, more := PutAll(was, Group(items)), Group(items + [Item(Some(h), p)]);
      && PutAll(was, more) == Started(data, h.Equip(), h, p)
      && LastPlaced(was, more, Some(Place(h.Equip(), |MessagesOf(data, h.Equip())|)))
  {
    GroupOpens(items, h, p);
    PutAllSnoc(was, Group(items), Message(h, [p]));
  }

  lemma {:induction false} PlaceContinues(was: StfData, items: seq<Item>, p: Part, at: Place)
    requires LastPlaced(was, Group(items), Some(at))
    ensures
      var data, more := PutAll(was, Group(items)), Group(items + [Item(None, p)]);
      && at.equip in data && at.index < |data[at.equip]| && data[at.equip][at.index].parts != []
      && PutAll(was, more) == Appended(data, at.equip, at.index, p)
      && LastPlaced(was, more, Some(at))
  {
    var ms := Group(items);
    var n := |ms| - 1;
    assert ms == ms[..n] + [ms[n]];
    GroupContinues(items, ms[..n], ms[n], p);
    PutGrows(PutAll(was, ms[..n]), ms[n].hdr, ms[n].parts, p);
    PutAllSnoc(was, ms[..n], Message(ms[n].hdr, ms[n].parts + [p]));
  }

  lemma {:induction false} GroupNothing(was: StfData, items: seq<Item>, x: Item)
    requires LastPlaced(was, Group(items), None) && x.hdr.None?
    ensures Group(items + [x]) == Group(items)
  {
    assert (items + [x])[..|items|] == items;
  }

  lemma {:induction false} ItemsMore(bs: seq<Block>, k: nat, stackedBehind: seq<bv8>)
    ensures ItemsOf([], stackedBehind) == []
    ensures k < |bs| ==> ItemsOf(bs[..k + 1], stackedBehind) == ItemsOf(bs[..k], stackedBehind) + [ItemOf(bs[k], stackedBehind)]
  {
  }
}
