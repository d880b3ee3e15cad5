/**
 The shared-memory region allocator: a working extent that allocations are carved from, a map
 of free ranges, and two ways to take blocks back - by exact region, or by counting the
 messages that were cut from each allocated block.
*/
module RegionAllocator {
  import opened Wrappers
  import opened Collections
  import opened IntervalMap
  import opened RegionSpace

  datatype FreeStrategy = ExactRegion | RefCount

  datatype AllocBlock = AllocBlock(start: nat, length: nat, refCnt: nat)
  {
    predicate InRange(ptr: nat, len: nat) {
      start <= ptr && ptr + len <= start + length
    }
  }

  datatype Message = Message(ptr: nat, size: nat)

  /** The blocks that a batch of exact regions gives back; empty messages own nothing. */
  ghost function Returned(batch: seq<Message>, align: nat): set<Block>
    requires align > 0
  {
    set k | 0 <= k < |batch| && batch[k].size > 0 :: Block(batch[k].ptr, batch[k].ptr + AlignUp(batch[k].size, align))
  }

  ghost function BlockOf(b: AllocBlock): Block {
    Block(b.start, b.start + b.length)
  }

  /** The table of reference-counted blocks, keyed by last byte, lists exactly the live blocks. */
  ghost predicate Describes(blocks: map<nat, AllocBlock>, live: set<Block>) {
    && (forall k | k in blocks :: blocks[k].length > 0 && k == blocks[k].start + blocks[k].length - 1)
    && live == set k | k in blocks :: BlockOf(blocks[k])
  }

  /** Each block is counted once for every message that was cut from it and is still out. */
  ghost predicate Counts(blocks: map<nat, AllocBlock>, messages: map<nat, multiset<Message>>) {
    && blocks.Keys == messages.Keys
    && (forall k | k in blocks :: blocks[k].refCnt == |messages[k]|)
    && (forall k, m | k in blocks && m in messages[k] :: m.size > 0 && blocks[k].InRange(m.ptr, m.size))
  }

  /** `m` is one of the messages that are out, cut from the block with key `k`. */
  ghost predicate Holds(messages: map<nat, multiset<Message>>, k: nat, m: Message) {
    k in messages && m in messages[k]
  }

  /** Whatever lies in a block is found by looking up the least key that is not below it. */
  lemma {:induction false} LowerBoundFindsBlock(live: set<Block>, blocks: map<nat, AllocBlock>, k: nat, ptr: nat, len: nat, r: Option<nat>)
    requires Apart(live) && Describes(blocks, live)
    requires k in blocks && len > 0 && blocks[k].InRange(ptr, len)
    requires IsLowerBound(blocks, ptr, r)
    ensures r == Some(k)
  {
    var j := r.value;
    assert BlockOf(blocks[k]) in live && BlockOf(blocks[j]) in live;
  }

  /** So no address range lies in two blocks. */
  lemma {:induction false} OneHolder(live: set<Block>, blocks: map<nat, AllocBlock>, j: nat, k: nat, ptr: nat, len: nat)
    requires Apart(live) && Describes(blocks, live)
    requires j in blocks && k in blocks && len > 0
    requires blocks[j].InRange(ptr, len) && blocks[k].InRange(ptr, len)
    ensures j == k
  {
    assert BlockOf(blocks[k]) in live && BlockOf(blocks[j]) in live;
  }

  lemma {:induction false} NewKey(live: set<Block>, blocks: map<nat, AllocBlock>, ptr: nat, n: nat)
    requires Describes(blocks, live) && n > 0 && !LiveAt(live, ptr + n - 1)
    ensures ptr + n - 1 !in blocks
    ensures Describes(blocks[ptr + n - 1 := AllocBlock(ptr, n, 0)], live + {Block(ptr, ptr + n)})
  {
    var k := ptr + n - 1;
    forall j | j in blocks ensures j != k {
      assert BlockOf(blocks[j]) in live && BlockOf(blocks[j]).Contains(j);
    }
    var more := blocks[k := AllocBlock(ptr, n, 0)];
    forall b | b in live ensures b in set j | j in more :: BlockOf(more[j]) {
      var j :| j in blocks && b == BlockOf(blocks[j]);
      assert more[j] == blocks[j];
    }
    assert BlockOf(more[k]) == Block(ptr, ptr + n);
  }

  /** Counting a message in or out changes no block's place. */
  lemma {:induction false} Recount(live: set<Block>, blocks: map<nat, AllocBlock>, key: nat, cnt: nat)
    requires Describes(blocks, live) && key in blocks
    ensures Describes(blocks[key := blocks[key].(refCnt := cnt)], live)
  {
    var more := blocks[key := blocks[key].(refCnt := cnt)];
    assert forall j | j in blocks :: j in more && BlockOf(more[j]) == BlockOf(blocks[j]);
    forall b | b in live ensures b in set j | j in more :: BlockOf(more[j]) {
      var j :| j in blocks && b == BlockOf(blocks[j]);
      assert j in more && b == BlockOf(more[j]);
    }
  }

  lemma {:induction false} CountNew(blocks: map<nat, AllocBlock>, messages: map<nat, multiset<Message>>, key: nat, b: AllocBlock)
    requires Counts(blocks, messages) && key !in blocks && b.refCnt == 0
    ensures Counts(blocks[key := b], messages[key := multiset{}])
  {
  }

  lemma {:induction false} CountIn(blocks: map<nat, AllocBlock>, messages: map<nat, multiset<Message>>, key: nat, m: Message)
    requires Counts(blocks, messages) && key in blocks && m.size > 0 && blocks[key].InRange(m.ptr, m.size)
    ensures Counts(blocks[key := blocks[key].(refCnt := blocks[key].refCnt + 1)], messages[key := messages[key] + multiset{m}])
  {
  }

  lemma {:induction false} CountOut(blocks: map<nat, AllocBlock>, messages: map<nat, multiset<Message>>, key: nat, m: Message)
    requires Counts(blocks, messages) && Holds(messages, key, m)
    ensures blocks[key].refCnt == |messages[key] - multiset{m}| + 1
    ensures Counts(blocks[key := blocks[key].(refCnt := blocks[key].refCnt - 1)], messages[key := messages[key] - multiset{m}])
    ensures Counts(blocks - {key}, messages - {key})
    ensures blocks[key].refCnt == 1 <==> messages[key] == multiset{m}
  {
    var left := messages[key] - multiset{m};
    assert messages[key] == left + multiset{m};
    if |left| == 0 {
      assert left == multiset{};
    }
  }

  lemma {:induction false} StillDescribes(live: set<Block>, blocks: map<nat, AllocBlock>, key: nat)
    requires Apart(live) && Describes(blocks, live) && key in blocks
    ensures Describes(blocks - {key}, live - {BlockOf(blocks[key])})
  {
    var less := blocks - {key};
    forall j | j in less ensures BlockOf(less[j]) != BlockOf(blocks[key]) {
      assert less[j] == blocks[j];
    }
    forall b | b in live - {BlockOf(blocks[key])} ensures b in set j | j in less :: BlockOf(less[j]) {
      var j :| j in blocks && b == BlockOf(blocks[j]);
      assert j in less && less[j] == blocks[j];
    }
  }

  lemma {:induction false} ReturnedStep(batch: seq<Message>, i: nat, align: nat)
    requires align > 0 && i < |batch|
    ensures Returned(batch[..i + 1], align) == Returned(batch[..i], align) +
      if batch[i].size == 0 then {} else {Block(batch[i].ptr, batch[i].ptr + AlignUp(batch[i].size, align))}
  {
    assert batch[..i + 1] == batch[..i] + [batch[i]];
    var more := if batch[i].size == 0 then {} else {Block(batch[i].ptr, batch[i].ptr + AlignUp(batch[i].size, align))};
    forall b | b in Returned(batch[..i], align) + more ensures b in Returned(batch[..i + 1], align) {
      if b in more {
        assert batch[..i + 1][i] == batch[i];
      } else {
        var k :| 0 <= k < i && batch[..i][k].size > 0
          && b == Block(batch[..i][k].ptr, batch[..i][k].ptr + AlignUp(batch[..i][k].size, align));
        assert batch[..i + 1][k] == batch[..i][k];
      }
    }
    forall b | b in Returned(batch[..i + 1], align) ensures b in Returned(batch[..i], align) + more {
      var k :| 0 <= k < i + 1 && batch[..i + 1][k].size > 0
        && b == Block(batch[..i + 1][k].ptr, batch[..i + 1][k].ptr + AlignUp(batch[..i + 1][k].size, align));
      if k < i { assert batch[..i + 1][k] == batch[..i][k]; }
    }
  }

  lemma {:induction false} OneMoreLeft<T>(s: seq<T>, i: nat)
    requires i < |s|
    ensures multiset(s[..i])[s[i]] < multiset(s)[s[i]]
  {
    assert s == s[..i] + [s[i]] + s[i + 1..];
  }

  /** Two blocks never hold the same message. */
  lemma {:induction false} OnlyHolder(live: set<Block>, blocks: map<nat, AllocBlock>, messages: map<nat, multiset<Message>>, k: nat, m: Message)
    requires Apart(live) && Describes(blocks, live) && Counts(blocks, messages)
    requires Holds(messages, k, m)
    ensures forall j | j in messages && j != k :: m !in messages[j]
  {
    forall j | j in messages && j != k ensures m !in messages[j] {
      if m in messages[j] { OneHolder(live, blocks, j, k, m.ptr, m.size); }
    }
  }

  /** What one more released message means for a block that holds it ... */
  lemma {:induction false} BackHere(held: multiset<Message>, done: multiset<Message>, m: Message)
    requires done[m] < held[m]
    ensures held <= done + multiset{m} <==> held - done == multiset{m}
    ensures held - (done + multiset{m}) == held - done - multiset{m}
    ensures !(held <= done)
  {
    if held <= done + multiset{m} {
      forall o: Message ensures (held - done)[o] == multiset{m}[o] {
        assert held[o] <= (done + multiset{m})[o];
      }
    }
    if held - done == multiset{m} {
      forall o: Message ensures held[o] <= (done + multiset{m})[o] {
        assert (held - done)[o] == multiset{m}[o];
      }
    }
  }

  /** ... and for one that does not. */
  lemma {:induction false} BackElsewhere(held: multiset<Message>, done: multiset<Message>, m: Message)
    requires m !in held
    ensures held <= done + multiset{m} <==> held <= done
    ensures held - (done + multiset{m}) == held - done
  {
    if held <= done + multiset{m} {
      forall o: Message ensures held[o] <= done[o] {
        assert held[o] <= (done + multiset{m})[o];
      }
    }
  }

  /**
   The table after one message of block `k` is back: one less out, and the entry is gone if it
   was the last.
  */
  ghost predicate OneBack(blocks: map<nat, AllocBlock>, messages: map<nat, multiset<Message>>, k: nat, m: Message,
                          blocks': map<nat, AllocBlock>, messages': map<nat, multiset<Message>>)
    requires k in blocks && k in messages
  {
    if messages[k] == multiset{m} then
      blocks' == blocks - {k} && messages' == messages - {k}
    else
      && messages' == messages[k := messages[k] - multiset{m}]
      && blocks' == blocks[k := blocks[k].(refCnt := |messages'[k]|)]
  }

  /**
   The table after the messages in `done` are back, in whatever order: a block that had
   messages is gone exactly when they are all back, and every other block stays in its place
   with the rest of its messages.
  */
  ghost predicate AllBack(blocks: map<nat, AllocBlock>, messages: map<nat, multiset<Message>>, done: multiset<Message>,
                          blocks': map<nat, AllocBlock>, messages': map<nat, multiset<Message>>)
  {
    forall k: nat :: BackAt(blocks, messages, done, blocks', messages', k)
  }

  ghost predicate BackAt(blocks: map<nat, AllocBlock>, messages: map<nat, multiset<Message>>, done: multiset<Message>,
                         blocks': map<nat, AllocBlock>, messages': map<nat, multiset<Message>>, k: nat)
  {
    if k in blocks && k in messages && (messages[k] == multiset{} || !(messages[k] <= done)) then
      && k in blocks' && k in messages'
      && messages'[k] == messages[k] - done
      && blocks'[k].start == blocks[k].start && blocks'[k].length == blocks[k].length
    else
      k !in blocks' && k !in messages'
  }

  lemma {:induction false} AllBackStep(blocks: map<nat, AllocBlock>, messages: map<nat, multiset<Message>>,
                    done: multiset<Message>, m: Message, k: nat,
                    b1: map<nat, AllocBlock>, m1: map<nat, multiset<Message>>,
                    b2: map<nat, AllocBlock>, m2: map<nat, multiset<Message>>)
    requires forall j | j in messages && j != k :: m !in messages[j]
    requires k in blocks && Holds(messages, k, m) && done[m] < messages[k][m]
    requires AllBack(blocks, messages, done, b1, m1)
    requires k in b1 && k in m1 && OneBack(b1, m1, k, m, b2, m2)
    ensures AllBack(blocks, messages, done + multiset{m}, b2, m2)
  {
    forall j: nat ensures BackAt(blocks, messages, done + multiset{m}, b2, m2, j) {
      assert BackAt(blocks, messages, done, b1, m1, j);
      if j == k {
        BackHere(messages[k], done, m);
      } else if j in messages {
        BackElsewhere(messages[j], done, m);
      }
    }
  }

  lemma {:induction false} NothingBack(blocks: map<nat, AllocBlock>, messages: map<nat, multiset<Message>>)
    requires blocks.Keys == messages.Keys
    ensures AllBack(blocks, messages, multiset{}, blocks, messages)
  {
    forall k: nat ensures BackAt(blocks, messages, multiset{}, blocks, messages, k) {
      if k in messages && messages[k] <= multiset{} { assert messages[k] == multiset{}; }
    }
  }

  lemma {:induction false} HeldInRange(live: set<Block>, blocks: map<nat, AllocBlock>, messages: map<nat, multiset<Message>>, k: nat, m: Message)
    requires Describes(blocks, live) && Counts(blocks, messages) && Holds(messages, k, m)
    ensures k in blocks && m.size > 0 && blocks[k].InRange(m.ptr, m.size)
    ensures blocks[k].length > 0 && BlockOf(blocks[k]) in live
  {
  }

  lemma {:induction false} StillOut(blocks: map<nat, AllocBlock>, messages: map<nat, multiset<Message>>, done: multiset<Message>,
                 m: Message, k: nat, b1: map<nat, AllocBlock>, m1: map<nat, multiset<Message>>)
    requires k in blocks && Holds(messages, k, m) && done[m] < messages[k][m]
    requires AllBack(blocks, messages, done, b1, m1)
    ensures k in b1 && Holds(m1, k, m)
  {
    assert BackAt(blocks, messages, done, b1, m1, k);
    BackHere(messages[k], done, m);
    assert (messages[k] - done)[m] > 0;
  }

  ghost predicate Inside(blocks: map<nat, AllocBlock>, m: Message) {
    exists k :: k in blocks && blocks[k].InRange(m.ptr, m.size)
  }

  lemma {:induction false} UpdateTwice<K, V>(m: map<K, V>, k: K, v: V, w: V)
    ensures m[k := v][k := w] == m[k := w]
  {
  }

  /** The messages of a batch that lie in a block. */
  ghost function Within(ms: seq<Message>, b: AllocBlock): multiset<Message> {
    if ms == [] then multiset{}
    else
      var m := ms[|ms| - 1];
      Within(ms[..|ms| - 1], b) + if b.InRange(m.ptr, m.size) then multiset{m} else multiset{}
  }

  ghost predicate CutAt(blocks: map<nat, AllocBlock>, messages: map<nat, multiset<Message>>, ms: seq<Message>,
                        blocks': map<nat, AllocBlock>, messages': map<nat, multiset<Message>>, k: nat)
  {
    if k in blocks && k in messages then
      && k in blocks' && k in messages'
      && messages'[k] == messages[k] + Within(ms, blocks[k])
      && blocks'[k].start == blocks[k].start && blocks'[k].length == blocks[k].length
    else
      k !in blocks' && k !in messages'
  }

  /** The table after the messages `ms` have been cut. */
  ghost predicate CutAll(blocks: map<nat, AllocBlock>, messages: map<nat, multiset<Message>>, ms: seq<Message>,
                         blocks': map<nat, AllocBlock>, messages': map<nat, multiset<Message>>)
  {
    forall k: nat :: CutAt(blocks, messages, ms, blocks', messages', k)
  }

  lemma {:induction false} NothingCut(blocks: map<nat, AllocBlock>, messages: map<nat, multiset<Message>>)
    requires blocks.Keys == messages.Keys
    ensures CutAll(blocks, messages, [], blocks, messages)
  {
    forall k: nat ensures CutAt(blocks, messages, [], blocks, messages, k) {}
  }

  lemma {:induction false} StillInside(blocks: map<nat, AllocBlock>, messages: map<nat, multiset<Message>>, ms: seq<Message>,
                    b1: map<nat, AllocBlock>, m1: map<nat, multiset<Message>>, a: Message)
    requires blocks.Keys == messages.Keys
    requires CutAll(blocks, messages, ms, b1, m1)
    requires Inside(blocks, a)
    ensures Inside(b1, a)
  {
    var k :| k in blocks && blocks[k].InRange(a.ptr, a.size);
    assert CutAt(blocks, messages, ms, b1, m1, k);
  }

  lemma {:induction false} CutStep(live: set<Block>, blocks: map<nat, AllocBlock>, messages: map<nat, multiset<Message>>,
                ms: seq<Message>, m: Message, k: nat,
                b1: map<nat, AllocBlock>, m1: map<nat, multiset<Message>>,
                b2: map<nat, AllocBlock>, m2: map<nat, multiset<Message>>)
    requires Apart(live) && Describes(b1, live)
    requires k in b1 && k in m1 && m.size > 0 && b1[k].InRange(m.ptr, m.size)
    requires CutAll(blocks, messages, ms, b1, m1)
    requires m2 == m1[k := m1[k] + multiset{m}]
    requires b2 == b1[k := b1[k].(refCnt := b1[k].refCnt + 1)]
    ensures CutAll(blocks, messages, ms + [m], b2, m2)
  {
    assert (ms + [m])[..|ms|] == ms;
    forall j: nat ensures CutAt(blocks, messages, ms + [m], b2, m2, j) {
      assert CutAt(blocks, messages, ms, b1, m1, j);
      if j in b1 && j != k && b1[j].InRange(m.ptr, m.size) {
        OneHolder(live, b1, j, k, m.ptr, m.size);
      }
    }
  }

  class Allocator {
    const align: nat
    const strategy: AllocStrategy
    const tracking: FreeStrategy
    const base: nat
    const size: nat

    var running: bool
    /** The working extent; a null start is 0. */
    var start: nat
    var length: nat
    /** Bytes that are not allocated. */
    var free: int
    var generation: nat
    var ranges: seq<Seg>
    /** Allocated blocks by the address of their last byte (reference counting only). */
    var blocks: map<nat, AllocBlock>

    /** The blocks handed out and not yet taken back. */
    ghost var live: set<Block>
    /** The messages cut from each block and not yet released (reference counting only). */
    ghost var messages: map<nat, multiset<Message>>

    ghost function Layout(): Space
      reads `start, `length, `ranges, `live
    {
      Space(base, size, start, length, ranges, live)
    }

    ghost predicate ValidLayout()
      reads `start, `length, `ranges, `live
    {
      && align > 0 && base > 0 && MultipleOf(base, align) && MultipleOf(size, align)
      && Partition(Layout())
      && OnGrid(Layout(), align)
    }

    ghost predicate ValidTable()
      reads `blocks, `messages, `live
    {
      tracking.RefCount? ==> Describes(blocks, live) && Counts(blocks, messages)
    }

    ghost predicate Valid()
      reads this
    {
      ValidLayout() && ValidTable() && free == length + Total(ranges)
    }

    lemma {:induction false} TableFacts()
      requires Valid() && tracking.RefCount?
      ensures Apart(live) && Describes(blocks, live) && Counts(blocks, messages) && blocks.Keys == messages.Keys
    {
    }

    /** Free bytes are exactly the bytes outside live blocks. */
    lemma {:induction false} FreeIsUnused()
      requires Valid()
      ensures free == |UnusedPoints(Layout())|
    {
      FreeSpaceIsUnusedSpace(Layout());
    }

    constructor (base: nat, requested: nat, align: nat, strategy: AllocStrategy, tracking: FreeStrategy)
      requires align > 0 && requested > 0
      requires base > 0 && MultipleOf(base, align)
      ensures Valid()
      ensures running && live == {} && messages == map[]
      ensures this.base == base && size == AlignUp(requested, align) && free == size
      ensures this.align == align && this.strategy == strategy && this.tracking == tracking
    {
      var segment := AlignUp(requested, align);
      this.align, this.strategy, this.tracking := align, strategy, tracking;
      this.base, this.size := base, segment;
      start, length, free := base, segment, segment;
      generation, running := 0, true;
      ranges, blocks, live, messages := [], map[], {}, map[];
    }

    method Stop()
      modifies this`running
      ensures !running
    {
      running := false;
    }

    /** Carves `n` bytes from the front of the extent, if it is long enough. */
    method TryAlloc(n: nat) returns (r: Option<nat>)
      requires ValidLayout() && n > 0 && MultipleOf(n, align)
      modifies this`start, this`length, this`live
      ensures ValidLayout()
      ensures r.Some? <==> old(length) >= n
      ensures r.None? ==> unchanged(this)
      ensures r.Some? ==>
        && r.value == old(start) && r.value > 0
        && length == old(length) - n
        && live == old(live) + {Block(r.value, r.value + n)}
        && Block(r.value, r.value + n) !in old(live)
        && FreeRun(old(Layout()), r.value, n)
    {
      hide Partition;
      hide PartitionBut;
      hide Aligned;
      hide MultipleOf;
      hide FreeRun;
      hide LiveAt;
      if length >= n {
        ghost var y := CarveBlock(Layout(), n, if length == n then 0 else start + n);
        ExtentInSegment(Layout());
        SumAligned(start, n, align);
        DifferenceAligned(length, n, align);
        r := Some(start);
        live := live + {Block(start, start + n)};
        start := start + n;
        length := length - n;
        if length == 0 {
          start := 0;
        }
      } else {
        r := None;
      }
    }

    /** Puts a range of addresses back into the free map. */
    method Reclaim(lo: nat, len: nat)
      modifies this`ranges
      ensures ranges == Add(old(ranges), lo, lo + len)
    {
      ranges := Add(ranges, lo, lo + len);
    }

    /** The index of the range the strategy looks at; the number of ranges if it finds none. */
    method FindRange(n: nat) returns (found: nat)
      requires ranges != []
      ensures found <= |ranges|
      ensures strategy.FindFirst? ==> forall j | 0 <= j < found :: ranges[j].Length() < n
      ensures strategy.FindFirst? && found < |ranges| ==> ranges[found].Length() >= n
      ensures strategy.FindLongest? ==>
        && found < |ranges|
        && (forall j | 0 <= j < |ranges| :: ranges[j].Length() <= ranges[found].Length())
        && (forall j | 0 <= j < found :: ranges[j].Length() < ranges[found].Length())
    {
      match strategy
      case FindFirst =>
        found := 0;
        while found < |ranges| && ranges[found].Length() < n
          invariant found <= |ranges|
          invariant forall j | 0 <= j < found :: ranges[j].Length() < n
        {
          found := found + 1;
        }
      case FindLongest =>
        found := 0;
        for i := 1 to |ranges|
          invariant found < i
          invariant forall j | 0 <= j < i :: ranges[j].Length() <= ranges[found].Length()
          invariant forall j | 0 <= j < found :: ranges[j].Length() < ranges[found].Length()
        {
          if ranges[found].Length() < ranges[i].Length() {
            found := i;
          }
        }
    }

    /** Declares any leftover memory free and invalidates the working extent. */
    method ReturnExtent()
      requires ValidLayout()
      modifies this`start, this`length, this`ranges
      ensures ValidLayout()
      ensures start == 0 && length == 0
      ensures Total(ranges) == old(length) + Total(old(ranges))
    {
      hide Aligned;
      hide Add;
      ghost var was := Layout();
      DropExtent(was);
      if length > 0 {
        ExtentInSegment(was);
        SumAligned(start, length, align);
        AddAligned(ranges, start, start + length, align);
        ReturnRange(was.(start := 0, length := 0), start, start + length);
        Reclaim(start, length);
      }
      start, length := 0, 0;
    }

    /** Makes a free range the working extent. */
    method TakeExtent(found: nat)
      requires ValidLayout() && length == 0 && found < |ranges|
      modifies this`start, this`length, this`ranges
      ensures ValidLayout()
      ensures start == old(ranges)[found].lo > 0 && length == old(ranges)[found].Length()
      ensures ranges == Remove(old(ranges), found)
      ensures length + Total(ranges) == Total(old(ranges))
    {
      ghost var was := Layout();
      SingleRanges(was, 0, 0);
      // A range counted twice would have been an overlap; there is none to skip.
      assert ranges[found].count == 1;
      ghost var taken := TakeRange(was, found);
      DifferenceAligned(ranges[found].hi, ranges[found].lo, align);
      start, length := ranges[found].lo, ranges[found].hi - ranges[found].lo;
      ranges := Remove(ranges, found);
    }

    /**
     Gives the leftover extent back and takes the free range the strategy prefers. It succeeds
     exactly when the segment has `n` consecutive bytes outside live blocks.
    */
    method TryReclaim(n: nat) returns (ok: bool)
      requires ValidLayout() && n > 0
      modifies this`start, this`length, this`ranges
      ensures ValidLayout()
      ensures length + Total(ranges) == old(length) + Total(old(ranges))
      ensures ok <==> HasRun(old(Layout()), n)
      ensures ok ==> length >= n && start > 0 && Preferred(strategy, old(Layout()), start, n)
      ensures !ok ==> length == 0
    {
      ghost var before := Layout();
      ReturnExtent();
      ghost var merged := Layout();
      SameRuns(before, merged);
      FitsExactlyWhenRunExists(merged, n);

      if ranges == [] {
        return false;
      }
      var found := FindRange(n);
      if found == |ranges| {
        return false;
      }
      if n > ranges[found].Length() {
        return false;
      }
      if strategy.FindFirst? {
        FirstIsPreferred(merged, found, n);
      } else {
        LongestIsPreferred(merged, found, n);
      }
      TakeExtent(found);
      return true;
    }

    /** From the extent if it is long enough, else from the free range the strategy prefers. */
    method Attempt(n: nat) returns (r: Option<nat>)
      requires ValidLayout() && n > 0 && MultipleOf(n, align)
      modifies this`start, this`length, this`ranges, this`live
      ensures ValidLayout()
      ensures r.Some? <==> HasRun(old(Layout()), n)
      ensures r.None? ==> live == old(live) && length + Total(ranges) == old(length) + Total(old(ranges))
      ensures r.Some? ==>
        && MultipleOf(r.value, align) && r.value > 0
        && Chosen(strategy, old(Layout()), r.value, n)
        && live == old(live) + {Block(r.value, r.value + n)}
        && Block(r.value, r.value + n) !in old(live) && !LiveAt(old(live), r.value + n - 1)
        && length + Total(ranges) == old(length) + Total(old(ranges)) - n
    {
      ghost var before := Layout();
      r := TryAlloc(n);
      if r.None? {
        var ok := TryReclaim(n);
        if ok {
          SameRuns(before, Layout());
          r := TryAlloc(n);
        }
      }
    }

    /**
     One attempt to allocate. While running, it fails only if no run of consecutive bytes
     outside live blocks has the aligned size, whichever strategy is used.
    */
    method DoAllocate(pSize: nat) returns (r: Option<nat>)
      requires Valid()
      modifies this`start, this`length, this`free, this`ranges, this`blocks, this`live, this`messages
      ensures Valid()
      ensures !running ==> r == None && unchanged(this)
      ensures running && pSize == 0 ==> r == Some(base + size) && unchanged(this)
      ensures running && pSize > 0 ==>
        (r.Some? <==> HasRun(old(Layout()), AlignUp(pSize, align)))
      ensures r.None? ==>
        live == old(live) && free == old(free) && blocks == old(blocks) && messages == old(messages)
      ensures r.Some? && pSize > 0 ==>
        var n := AlignUp(pSize, align);
        && MultipleOf(r.value, align) && r.value > 0
        && Chosen(strategy, old(Layout()), r.value, n)
        && live == old(live) + {Block(r.value, r.value + n)}
        && Block(r.value, r.value + n) !in old(live)
        && free == old(free) - n
        && (tracking.ExactRegion? ==> blocks == old(blocks) && messages == old(messages))
        && (tracking.RefCount? ==>
              && r.value + n - 1 !in old(blocks)
              && blocks == old(blocks)[r.value + n - 1 := AllocBlock(r.value, n, 0)]
              && messages == old(messages)[r.value + n - 1 := multiset{}])
    {
      hide Partition;
      hide OnGrid;
      hide Describes;
      hide Counts;
      hide HasRun;
      hide Chosen;
      hide MultipleOf;
      hide AlignUp;
      hide Total;
      hide LiveAt;
      if !running {
        return None;
      }
      if pSize == 0 {
        // the last address of the segment
        return Some(base + size);
      }
      var n := AlignUp(pSize, align);
      r := Attempt(n);
      if r.None? {
        return;
      }
      free := free - n;

      if tracking.RefCount? {
        Register(r.value, n, old(live));
      }
    }

    /** Enters a new block, from which no message has been cut, under its last byte. */
    method Register(ptr: nat, n: nat, ghost before: set<Block>)
      requires Describes(blocks, before) && Counts(blocks, messages)
      requires n > 0 && !LiveAt(before, ptr + n - 1)
      modifies this`blocks, this`messages
      ensures ptr + n - 1 !in old(blocks)
      ensures blocks == old(blocks)[ptr + n - 1 := AllocBlock(ptr, n, 0)]
      ensures messages == old(messages)[ptr + n - 1 := multiset{}]
      ensures Describes(blocks, before + {Block(ptr, ptr + n)}) && Counts(blocks, messages)
    {
      NewKey(before, blocks, ptr, n);
      CountNew(blocks, messages, ptr + n - 1, AllocBlock(ptr, n, 0));
      blocks := blocks[ptr + n - 1 := AllocBlock(ptr, n, 0)];
      messages := messages[ptr + n - 1 := multiset{}];
    }

    // ------------------------------------------------------ release by exact region

    /**
     The messages of the batch return their regions in one merged step: exactly their blocks
     stop being live. The free map that results does not depend on batching or order (see
     FreeRangesDetermined).
    */
    method ReleaseExact(batch: seq<Message>)
      requires Valid() && tracking.ExactRegion?
      requires OwnBlocks(batch)
      modifies this`ranges, this`free, this`generation, this`live
      ensures Valid()
      ensures live == old(live) - Returned(batch, align)
      ensures generation == old(generation) + 1
    {
      var merged := MergeRegions(batch);
      ghost var was, gone := Layout(), Returned(batch, align);
      MergedReturn(was, merged, gone);
      AddAllAligned(ranges, merged, align);
      var reclaimed := ReclaimAll(merged);
      live := live - gone;
      free := free + reclaimed;
      generation := generation + 1;
    }

    /** Joins the aligned regions of a batch, so that neighbours go back as one range. */
    method MergeRegions(batch: seq<Message>) returns (merged: seq<Seg>)
      requires align > 0 && Apart(live)
      requires OnGrid(Layout(), align)
      requires OwnBlocks(batch)
      ensures Canonical(merged) && Aligned(merged, align)
      ensures Returned(batch, align) <= live
      ensures forall p: int :: CountAt(merged, p) == One(LiveAt(Returned(batch, align), p))
    {
      merged := [];
      for i := 0 to |batch|
        invariant Canonical(merged) && Aligned(merged, align)
        invariant Returned(batch[..i], align) <= live
        invariant forall p: int :: CountAt(merged, p) == One(LiveAt(Returned(batch[..i], align), p))
      {
        ReturnedStep(batch, i, align);
        if batch[i].size == 0 {
          continue;
        }
        var hi := batch[i].ptr + AlignUp(batch[i].size, align);
        ghost var b := Block(batch[i].ptr, hi);
        NotYetReturned(batch, i);
        DisjointUnion(live, Returned(batch[..i], align), b);
        AddMeaning(merged, batch[i].ptr, hi);
        AddAligned(merged, batch[i].ptr, hi, align);
        merged := Add(merged, batch[i].ptr, hi);
      }
      assert batch[..|batch|] == batch;
    }

    lemma {:induction false} NotYetReturned(batch: seq<Message>, i: nat)
      requires align > 0 && i < |batch| && batch[i].size > 0 && OwnBlocks(batch)
      ensures Block(batch[i].ptr, batch[i].ptr + AlignUp(batch[i].size, align)) !in Returned(batch[..i], align)
    {
      forall k | 0 <= k < i && batch[..i][k].size > 0 ensures batch[..i][k].ptr != batch[i].ptr {
        assert batch[..i][k] == batch[k];
      }
    }

    /** Every non-empty message of the batch is a whole live block, and no two are the same. */
    ghost predicate OwnBlocks(batch: seq<Message>)
      reads this`live
      requires align > 0
    {
      && (forall k | 0 <= k < |batch| && batch[k].size > 0 ::
            Block(batch[k].ptr, batch[k].ptr + AlignUp(batch[k].size, align)) in live)
      && (forall j, k | 0 <= j < k < |batch| && batch[j].size > 0 && batch[k].size > 0 :: batch[j].ptr != batch[k].ptr)
    }

    method ReclaimAll(merged: seq<Seg>) returns (reclaimed: int)
      requires Ordered(merged)
      modifies this`ranges
      ensures ranges == AddAll(old(ranges), merged)
      ensures reclaimed == Total(merged)
    {
      reclaimed := 0;
      for j := 0 to |merged|
        invariant AddAll(ranges, merged[j..]) == AddAll(old(ranges), merged)
        invariant reclaimed + Total(merged[j..]) == Total(merged)
      {
        OrderedSegment(merged, j);
        assert merged[j..][0] == merged[j] && merged[j..][1..] == merged[j + 1..];
        var len := merged[j].hi - merged[j].lo;
        reclaimed := reclaimed + len;
        Reclaim(merged[j].lo, len);
      }
    }

    // ---------------------------------------------------- release by reference count

    /** Counts one more message cut from the block with this key. */
    method CutFromBlock(key: nat, ptr: nat, pSize: nat) returns (m: Message)
      requires Valid() && tracking.RefCount? && pSize > 0
      requires key in blocks && blocks[key].InRange(ptr, pSize)
      modifies this`blocks, this`messages
      ensures Valid()
      ensures m == Message(ptr, pSize)
      ensures messages == old(messages)[key := old(messages)[key] + multiset{m}]
      ensures blocks == old(blocks)[key := old(blocks)[key].(refCnt := old(blocks)[key].refCnt + 1)]
    {
      hide Partition;
      hide OnGrid;
      hide Describes;
      hide Counts;
      hide Total;
      TableFacts();
      m := Message(ptr, pSize);
      Recount(live, blocks, key, blocks[key].refCnt + 1);
      CountIn(blocks, messages, key, m);
      blocks := blocks[key := blocks[key].(refCnt := blocks[key].refCnt + 1)];
      messages := messages[key := messages[key] + multiset{m}];
    }

    /**
     Cuts one more message from the block that holds [ptr, ptr + size): the cached block if the
     message fits there, else the one found by address.
    */
    method MessageFromPtr(cached: Option<nat>, ptr: nat, pSize: nat) returns (m: Message, key: nat)
      requires Valid() && tracking.RefCount? && pSize > 0
      requires cached.Some? ==> cached.value in blocks
      requires Inside(blocks, Message(ptr, pSize))
      modifies this`blocks, this`messages
      ensures Valid()
      ensures m == Message(ptr, pSize)
      ensures key in old(blocks) && old(blocks)[key].InRange(ptr, pSize)
      ensures messages == old(messages)[key := old(messages)[key] + multiset{m}]
      ensures blocks == old(blocks)[key := old(blocks)[key].(refCnt := old(blocks)[key].refCnt + 1)]
    {
      hide Partition;
      hide OnGrid;
      hide Describes;
      hide Counts;
      hide Total;
      hide IsLowerBound;
      TableFacts();
      if cached.Some? && blocks[cached.value].InRange(ptr, pSize) {
        key := cached.value;
      } else {
        ghost var k :| k in blocks && blocks[k].InRange(ptr, pSize);
        var found := LowerBound(blocks, ptr);
        LowerBoundFindsBlock(live, blocks, k, ptr, pSize, found);
        key := found.value;
      }
      m := CutFromBlock(key, ptr, pSize);
    }

    /**
     Cuts a batch of messages, reusing the block of the previous one while it fits: each block
     is counted once for every message that lies in it.
    */
    method MessagesFromPtrs(allocs: seq<Message>) returns (out: seq<Message>)
      requires Valid() && tracking.RefCount?
      requires forall a | a in allocs :: a.size > 0 && Inside(blocks, a)
      modifies this`blocks, this`messages
      ensures Valid()
      ensures out == allocs
      ensures CutAll(old(blocks), old(messages), out, blocks, messages)
    {
      hide Partition;
      hide OnGrid;
      hide Describes;
      hide Counts;
      hide Total;
      hide CutAt;
      TableFacts();
      NothingCut(blocks, messages);
      out := [];
      var cached: Option<nat> := None;
      for i := 0 to |allocs|
        invariant Valid()
        invariant out == allocs[..i]
        invariant CutAll(old(blocks), old(messages), out, blocks, messages)
        invariant cached.Some? ==> cached.value in blocks
      {
        var a := allocs[i];
        assert a in allocs;
        TableFacts();
        ghost var b1, m1 := blocks, messages;
        StillInside(old(blocks), old(messages), out, b1, m1, a);
        var m, key := MessageFromPtr(cached, a.ptr, a.size);
        CutStep(live, old(blocks), old(messages), out, m, key, b1, m1, blocks, messages);
        cached := Some(key);
        out := out + [m];
      }
    }

    /** The first message of a block that has none. */
    method FirstMessage(ptr: nat, pSize: nat, ghost key: nat) returns (m: Message)
      requires Valid() && tracking.RefCount? && pSize > 0
      requires key in blocks && blocks[key].InRange(ptr, pSize) && messages[key] == multiset{}
      modifies this`blocks, this`messages
      ensures Valid()
      ensures m == Message(ptr, pSize)
      ensures messages == old(messages)[key := multiset{m}]
    {
      ghost var b1 := blocks;
      var k: nat;
      m, k := MessageFromPtr(None, ptr, pSize);
      OneHolder(live, b1, key, k, ptr, pSize);
      assert multiset{} + multiset{m} == multiset{m};
    }

    /** A new message in a block of its own. */
    method NewMessage(pSize: nat) returns (r: Option<Message>)
      requires Valid()
      requires tracking.RefCount? ==> pSize > 0
      modifies this`start, this`length, this`free, this`ranges, this`blocks, this`live, this`messages
      ensures Valid()
      ensures running && pSize > 0 ==>
        (r.Some? <==> HasRun(old(Layout()), AlignUp(pSize, align)))
      ensures r.None? ==> live == old(live) && free == old(free) && messages == old(messages)
      ensures r.Some? ==> r.value.size == pSize
      ensures r.Some? && pSize > 0 ==>
        var n := AlignUp(pSize, align);
        && Block(r.value.ptr, r.value.ptr + n) !in old(live)
        && live == old(live) + {Block(r.value.ptr, r.value.ptr + n)}
        && free == old(free) - n
        && (tracking.RefCount? ==> messages == old(messages)[r.value.ptr + n - 1 := multiset{r.value}])
        && (tracking.ExactRegion? ==> messages == old(messages))
    {
      hide Partition;
      hide OnGrid;
      hide Describes;
      hide Counts;
      hide HasRun;
      hide Chosen;
      hide FreeRun;
      hide AlignUp;
      hide Total;
      var mem := DoAllocate(pSize);
      if mem.None? {
        return None;
      }
      if tracking.RefCount? {
        ghost var key := mem.value + AlignUp(pSize, align) - 1;
        UpdateTwice(old(messages), key, multiset{}, multiset{Message(mem.value, pSize)});
        var m := FirstMessage(mem.value, pSize, key);
        r := Some(m);
      } else {
        r := Some(Message(mem.value, pSize));
      }
    }

    /** A live block becomes free. */
    method GiveBack(lo: nat, len: nat)
      requires ValidLayout() && len > 0 && Block(lo, lo + len) in live
      modifies this`ranges, this`free, this`generation, this`live
      ensures ValidLayout()
      ensures live == old(live) - {Block(lo, lo + len)}
      ensures free == old(free) + len && Total(ranges) == Total(old(ranges)) + len
      ensures generation == old(generation) + 1
    {
      hide Partition;
      hide PartitionBut;
      hide Aligned;
      hide MultipleOf;
      hide Total;
      hide Add;
      ghost var was, b := Layout(), Block(lo, lo + len);
      DropBlock(was, b);
      ReturnRange(was.(live := live - {b}), lo, lo + len);
      AddAligned(ranges, lo, lo + len, align);
      Reclaim(lo, len);
      free := free + len;
      generation := generation + 1;
      live := live - {b};
    }

    /** The last message of the block is back. */
    method ReturnBlock(key: nat, ghost m: Message)
      requires Valid() && tracking.RefCount? && Holds(messages, key, m) && key in blocks && messages[key] == multiset{m}
      modifies this`ranges, this`free, this`generation, this`blocks, this`live, this`messages
      ensures Valid()
      ensures blocks == old(blocks) - {key} && messages == old(messages) - {key}
      ensures live == old(live) - {BlockOf(old(blocks)[key])}
      ensures free == old(free) + old(blocks)[key].length
      ensures generation == old(generation) + 1
    {
      hide Partition;
      hide OnGrid;
      hide Describes;
      hide Counts;
      TableFacts();
      HeldInRange(live, blocks, messages, key, m);
      CountOut(blocks, messages, key, m);
      StillDescribes(live, blocks, key);
      GiveBack(blocks[key].start, blocks[key].length);
      blocks := blocks - {key};
      messages := messages - {key};
    }

    /** Releases one message; the last one out of a block returns the block. */
    method ReleaseOne(m: Message, ghost k: nat)
      requires Valid() && tracking.RefCount? && Holds(messages, k, m)
      modifies this`ranges, this`free, this`generation, this`blocks, this`live, this`messages
      ensures Valid()
      ensures OneBack(old(blocks), old(messages), k, m, blocks, messages)
      ensures old(messages)[k] == multiset{m} ==>
        && live == old(live) - {BlockOf(old(blocks)[k])}
        && free == old(free) + old(blocks)[k].length
        && generation == old(generation) + 1
      ensures old(messages)[k] != multiset{m} ==>
        live == old(live) && free == old(free) && ranges == old(ranges) && generation == old(generation)
    {
      hide Partition;
      hide OnGrid;
      hide Describes;
      hide Counts;
      hide Total;
      hide IsLowerBound;
      TableFacts();
      HeldInRange(live, blocks, messages, k, m);
      var found := LowerBound(blocks, m.ptr);
      LowerBoundFindsBlock(live, blocks, k, m.ptr, m.size, found);
      var key := found.value;
      var block := blocks[key].(refCnt := blocks[key].refCnt - 1);
      CountOut(blocks, messages, k, m);
      if block.refCnt == 0 {
        ReturnBlock(key, m);
      } else {
        Recount(live, blocks, key, block.refCnt);
        blocks := blocks[key := block];
        messages := messages[key := messages[key] - multiset{m}];
      }
    }

    /**
     Releases a batch of messages in address order. Whatever the order and the batching, a
     block that has had messages is returned when, and only when, its last message is back.
    */
    method ReleaseRefCounted(batch: seq<Message>)
      requires Valid() && tracking.RefCount?
      requires forall m | m in batch :: exists k :: Holds(messages, k, m)
      requires forall k, m | k in messages && m in messages[k] :: multiset(batch)[m] <= messages[k][m]
      modifies this`ranges, this`free, this`generation, this`blocks, this`live, this`messages
      ensures Valid()
      ensures AllBack(old(blocks), old(messages), multiset(batch), blocks, messages)
    {
      hide Partition;
      hide OnGrid;
      hide Describes;
      hide Counts;
      hide Total;
      hide SortedBy;
      hide BackAt;
      hide Apart;
      hide MultipleOf;
      TableFacts();
      NothingBack(blocks, messages);
      var sorted := SortBy(batch, (m: Message) => m.ptr);
      assert sorted[..|sorted|] == sorted;
      for i := 0 to |sorted|
        invariant Valid()
        invariant AllBack(old(blocks), old(messages), multiset(sorted[..i]), blocks, messages)
      {
        ghost var m, done := sorted[i], multiset(sorted[..i]);
        assert sorted[..i + 1] == sorted[..i] + [m];
        assert m in multiset(batch);
        assert m in batch;
        ghost var k :| Holds(old(messages), k, m);
        OneMoreLeft(sorted, i);
        OnlyHolder(old(live), old(blocks), old(messages), k, m);
        ReleaseNext(sorted[i], k, done, old(blocks), old(messages));
      }
    }

    /** One more message of a batch, after those in `done`. */
    method ReleaseNext(m: Message, ghost k: nat, ghost done: multiset<Message>,
                       ghost blocks0: map<nat, AllocBlock>, ghost messages0: map<nat, multiset<Message>>)
      requires Valid() && tracking.RefCount?
      requires k in blocks0 && Holds(messages0, k, m) && done[m] < messages0[k][m]
      requires forall j | j in messages0 && j != k :: m !in messages0[j]
      requires AllBack(blocks0, messages0, done, blocks, messages)
      modifies this`ranges, this`free, this`generation, this`blocks, this`live, this`messages
      ensures Valid()
      ensures AllBack(blocks0, messages0, done + multiset{m}, blocks, messages)
    {
      hide Partition;
      hide OnGrid;
      hide Describes;
      hide Counts;
      hide Total;
      hide BackAt;
      hide OneBack;
      TableFacts();
      ghost var b1, m1 := blocks, messages;
      StillOut(blocks0, messages0, done, m, k, b1, m1);
      ReleaseOne(m, k);
      AllBackStep(blocks0, messages0, done, m, k, b1, m1, blocks, messages);
    }
  }
}
