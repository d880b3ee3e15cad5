/**
 The scheduler's bookkeeping of announced sub-time-frames: updates are collected per id, and a
 time frame leaves for scheduling when it is complete, when a later one completes, or when it
 is stale; otherwise a drop is requested for it. Each method is one section under the global
 lock.
*/
module StfScheduler {
  import opened Wrappers
  import opened Collections
  import opened EventRecords
  import opened StfLedger

  datatype SenderInfo = SenderInfo(bufferSize: nat, bufferUsed: nat)

  datatype StfUpdate = StfUpdate(runNumber: nat, stfId: StfId, stfSize: nat, sender: string, stfsInfo: SenderInfo)
  {
    /** The entry made for the update when it is accepted. */
    function Info(now: int): StfInfo { StfInfo(now, sender, stfId, stfSize) }
  }

  datatype Status = OK | DROP_NOT_RUNNING | DROP_SCHED_DISCARDED | DROP_STFS_INCOMPLETE | DROP_STFS_BUFFER_FULL

  /** What came of asking a builder to build the time frame. */
  datatype BuildOutcome = NoBuilder | Unreachable | RpcError | Accepted | NoMemory | NotRunning | OtherStatus

  /** What a builder is asked: the id, the total size, and each sender's share. */
  datatype BuildRequest = BuildRequest(tfId: StfId, tfSize: nat, stfSizes: map<string, nat>)
  {
    ghost predicate IsFor(id: StfId, v: seq<StfInfo>) {
      tfId == id && tfSize == TotalSize(v) && SizesOf(stfSizes, v)
    }
  }

  ghost function TotalSize(v: seq<StfInfo>): nat {
    if v == [] then 0 else TotalSize(v[..|v| - 1]) + v[|v| - 1].stfSize
  }

  lemma {:induction false} TotalSizeAdds(v: seq<StfInfo>, w: seq<StfInfo>)
    ensures TotalSize(v + w) == TotalSize(v) + TotalSize(w)
    ensures |w| == 1 ==> TotalSize(w) == w[0].stfSize
    decreases |w|
  {
    if w == [] {
      assert v + w == v;
    } else {
      var n := |w| - 1;
      assert (v + w)[..|v| + n] == v + w[..n];
      TotalSizeAdds(v, w[..n]);
    }
  }

  /** 5 seconds of sub-time-frames. */
  const MAX_DELAY_TF: nat := 5 * 88

  const DROP_LIMIT: nat := 0x4000_0000

  // -------------------------------------------------------------- what one call does

  /** The decision on an update that belongs to the current run, in the order of the checks. */
  function Verdict(u: StfUpdate, running: bool, sendersOk: bool, wasDropped: bool, wasBuilt: bool,
                   lastStfId: nat, known: bool): Status
  {
    if wasDropped || wasBuilt then (if !running then DROP_NOT_RUNNING else DROP_SCHED_DISCARDED)
    else if !running then DROP_NOT_RUNNING
    else if !sendersOk then DROP_STFS_INCOMPLETE
    else if u.stfsInfo.bufferUsed > u.stfsInfo.bufferSize * 97 / 100 then DROP_STFS_BUFFER_FULL
    else if u.stfId < MinAccept(lastStfId) && !known then DROP_SCHED_DISCARDED
    else OK
  }

  function MinAccept(lastStfId: nat): nat {
    if lastStfId < MAX_DELAY_TF then 0 else lastStfId - MAX_DELAY_TF
  }

  predicate Stale(v: seq<StfInfo>, now: int, timeoutMs: int)
    requires v != []
  {
    var age := now - v[|v| - 1].updateTime;
    (if age < 0 then -age else age) > timeoutMs
  }

  /** The update that came last is further away than the timeout, on either side of now. */
  ghost predicate Silent(v: seq<StfInfo>, now: int, timeoutMs: int) {
    v != [] && (now - v[|v| - 1].updateTime > timeoutMs || v[|v| - 1].updateTime - now > timeoutMs)
  }

  /** The stale front in those terms, and what the cleanup leaves. */
  lemma {:induction false} StaleFrontMeans(b: Books, now: int, timeoutMs: int, stale: seq<StfId>, queue: seq<seq<StfInfo>>)
    requires StaleFront(b.pending, now, timeoutMs, stale) && Ascending(stale)
    ensures
      var p, r, after := b.pending, CompletedAll(b, stale).pending, queue + VectorsOf(b.pending, stale);
      && (forall k | k in stale :: k in p && Silent(p[k], now, timeoutMs))
      && (forall k :: k in r <==> k in p && k !in stale)
      && (forall k | k in r :: r[k] == p[k] && forall s | s in stale :: s < k)
      && (forall k | k in r && (forall j | j in r :: k <= j) :: !Silent(r[k], now, timeoutMs))
      && |after| == |queue| + |stale| && after[..|queue|] == queue
      && forall i | 0 <= i < |stale| :: stale[i] in p && after[|queue| + i] == p[stale[i]]
  {
    hide CompletedAll;
    hide VectorsOf;
    hide Ascending;
    CompletedAllMeaning(b, stale);
    VectorsAt(b.pending, stale);
    var r := CompletedAll(b, stale).pending;
    forall k | k in r && (forall j | j in r :: k <= j) ensures !Silent(r[k], now, timeoutMs) {
      assert FirstLeft(b.pending, stale, k);
    }
    forall i | 0 <= i < |stale| ensures stale[i] in b.pending { assert stale[i] in stale; }
  }

  /** The ids in front of the first fresh one, all of them. */
  ghost predicate StaleFront(pending: Pending, now: int, timeoutMs: int, stale: seq<StfId>) {
    && (forall k | k in stale :: k in pending && pending[k] != [] && Stale(pending[k], now, timeoutMs))
    && (forall k, s | k in pending && k !in stale && s in stale :: s < k)
    && (forall k | FirstLeft(pending, stale, k) :: pending[k] != [] && !Stale(pending[k], now, timeoutMs))
  }

  ghost predicate FirstLeft(pending: Pending, gone: seq<StfId>, k: StfId) {
    k in pending && k !in gone && forall j | j in pending && j !in gone :: k <= j
  }

  /** Nothing stale waits below what was completed: the least pending id is fresh, or above. */
  ghost predicate CleansUpInOrder(pending: Pending, maxCompleted: nat, now: int, timeoutMs: int) {
    pending == map[] ||
    var least := Least(pending.Keys);
    pending[least] == [] || !Stale(pending[least], now, timeoutMs) || maxCompleted < least
  }

  lemma {:induction false} StaleFrontBegins(pending: Pending, maxCompleted: nat, now: int, timeoutMs: int, stale: seq<StfId>)
    requires StaleFront(pending, now, timeoutMs, stale) && Ascending(stale)
    ensures (stale != [] ==> maxCompleted < stale[0]) <==> CleansUpInOrder(pending, maxCompleted, now, timeoutMs)
  {
    hide Stale;
    assert stale != [] ==> stale[0] in stale;
    if pending != map[] {
      var least := Least(pending.Keys);
      assert least !in stale ==> FirstLeft(pending, stale, least);
    }
  }

  lemma {:induction false} SplitAt(keys: seq<StfId>, i: nat)
    requires Ascending(keys) && i < |keys|
    ensures forall k | k in keys :: k in keys[..i] <==> k < keys[i]
    ensures forall k | k in keys[..i] :: k < keys[i]
  {
    assert keys == keys[..i] + keys[i..];
  }

  lemma {:induction false} StaleFrontIs(pending: Pending, now: int, timeoutMs: int, keys: seq<StfId>, n: nat)
    requires Ascending(keys) && (forall k :: k in keys <==> k in pending) && n <= |keys|
    requires forall k | k in pending :: pending[k] != []
    requires forall i | 0 <= i < n :: keys[i] in pending && Stale(pending[keys[i]], now, timeoutMs)
    requires n < |keys| ==> keys[n] in pending && !Stale(pending[keys[n]], now, timeoutMs)
    ensures StaleFront(pending, now, timeoutMs, keys[..n])
    ensures Ascending(keys[..n]) && forall k | k in keys[..n] :: k in pending
  {
    hide Stale;
    if n == |keys| {
      assert keys[..n] == keys;
    } else {
      SplitAt(keys, n);
      assert keys[n] in keys;
      assert forall k | FirstLeft(pending, keys[..n], k) :: k == keys[n];
    }
  }

  method FindStale(pending: Pending, now: int, timeoutMs: int) returns (stale: seq<StfId>)
    requires forall k | k in pending :: pending[k] != []
    ensures StaleFront(pending, now, timeoutMs, stale)
    ensures Ascending(stale) && forall k | k in stale :: k in pending
  {
    hide *;
    var keys := InOrder(pending.Keys);
    stale := [];
    for i := 0 to |keys|
      invariant stale == keys[..i]
      invariant forall j | 0 <= j < i :: keys[j] in pending && Stale(pending[keys[j]], now, timeoutMs)
    {
      assert keys[i] in keys;
      if !Stale(pending[keys[i]], now, timeoutMs) {
        StaleFrontIs(pending, now, timeoutMs, keys, i);
        return;
      }
      stale := stale + [keys[i]];
    }
    StaleFrontIs(pending, now, timeoutMs, keys, |keys|);
    assert keys[..|keys|] == keys;
  }

  // ------------------------------------------------------- freeing a sender's buffer

  /** The size of the sender's first update in the entry. */
  function SizeFrom(v: seq<StfInfo>, sender: string): Option<nat> {
    if v == [] then None
    else if v[0].sender == sender then Some(v[0].stfSize)
    else SizeFrom(v[1..], sender)
  }

  lemma {:induction false} SizeFromFinds(v: seq<StfInfo>, sender: string)
    ensures SizeFrom(v, sender).Some? <==> exists u :: u in v && u.sender == sender
  {
    if v != [] {
      SizeFromFinds(v[1..], sender);
      assert v == [v[0]] + v[1..];
    }
  }

  /** The sender's first update in the entry is this one. */
  ghost predicate FirstOfSender(v: seq<StfInfo>, sender: string, i: nat) {
    i < |v| && v[i].sender == sender && forall j | 0 <= j < i :: v[j].sender != sender
  }

  lemma {:induction false} SizeFromFirst(v: seq<StfInfo>, sender: string, i: nat)
    requires FirstOfSender(v, sender, i)
    ensures SizeFrom(v, sender) == Some(v[i].stfSize)
    decreases |v|
  {
    if i > 0 { SizeFromFirst(v[1..], sender, i - 1); }
  }

  /** Old enough to be given up, once a time frame from `maxCompleted` on has left. */
  predicate Overdue(v: seq<StfInfo>, id: StfId, maxCompleted: nat, now: int) {
    id <= maxCompleted && !(v != [] && now - v[0].updateTime < 1000)
  }

  ghost function Freed(pending: Pending, sender: string, drops: seq<StfId>): nat {
    if drops == [] then 0
    else
      var n := |drops| - 1;
      var found := SizeFrom(EntryOf(pending, drops[n]), sender);
      Freed(pending, sender, drops[..n]) + if found.Some? then found.value else 0
  }

  /**
   The scan went over the ids below `cut` (all, if there is none), which are all overdue, and
   chose those the sender contributed to. It stopped because enough is freed, or at an id that
   is not overdue; all but the last choice stayed within the limit.
  */
  ghost predicate GivenUp(pending: Pending, sender: string, maxCompleted: nat, now: int,
                          drops: seq<StfId>, cut: Option<StfId>)
  {
    && Ascending(drops)
    && (forall k :: k in drops <==> k in pending && Below(k, cut) && SizeFrom(pending[k], sender).Some?)
    && (forall k | k in pending && Below(k, cut) :: Overdue(pending[k], k, maxCompleted, now))
    && (cut.Some? ==> cut.value in pending)
    && (cut.Some? ==> Freed(pending, sender, drops) > DROP_LIMIT || !Overdue(pending[cut.value], cut.value, maxCompleted, now))
    && (drops != [] ==> Freed(pending, sender, drops[..|drops| - 1]) <= DROP_LIMIT)
  }

  ghost predicate Below(k: StfId, cut: Option<StfId>) {
    cut.Some? ==> k < cut.value
  }

  ghost predicate Scanned(pending: Pending, sender: string, maxCompleted: nat, now: int,
                          seen: seq<StfId>, drops: seq<StfId>)
  {
    && Ascending(drops)
    && (forall k :: k in drops <==> k in seen && SizeFrom(EntryOf(pending, k), sender).Some?)
    && (forall k | k in seen :: k in pending && Overdue(pending[k], k, maxCompleted, now))
    && (drops != [] ==> Freed(pending, sender, drops[..|drops| - 1]) <= DROP_LIMIT)
  }

  lemma {:induction false} ScanMore(pending: Pending, sender: string, maxCompleted: nat, now: int,
                 seen: seq<StfId>, drops: seq<StfId>, id: StfId)
    requires Scanned(pending, sender, maxCompleted, now, seen, drops)
    requires (forall k | k in seen :: k < id) && id in pending && Overdue(pending[id], id, maxCompleted, now)
    requires Freed(pending, sender, drops) <= DROP_LIMIT
    ensures
      var found := SizeFrom(pending[id], sender);
      if found.Some? then
        && Scanned(pending, sender, maxCompleted, now, seen + [id], drops + [id])
        && Freed(pending, sender, drops + [id]) == Freed(pending, sender, drops) + found.value
      else Scanned(pending, sender, maxCompleted, now, seen + [id], drops)
  {
    hide Ascending;
    hide Overdue;
    hide SizeFrom;
    assert (drops + [id])[..|drops|] == drops;
    AscendingMore(drops, id);
  }

  lemma {:induction false} ScanEnds(pending: Pending, sender: string, maxCompleted: nat, now: int,
                 keys: seq<StfId>, n: nat, drops: seq<StfId>)
    requires Ascending(keys) && (forall k :: k in keys <==> k in pending) && n <= |keys|
    requires Scanned(pending, sender, maxCompleted, now, keys[..n], drops)
    requires n < |keys| ==> keys[n] in pending
    requires n < |keys| ==>
      Freed(pending, sender, drops) > DROP_LIMIT || !Overdue(pending[keys[n]], keys[n], maxCompleted, now)
    ensures GivenUp(pending, sender, maxCompleted, now, drops, if n < |keys| then Some(keys[n]) else None)
  {
    hide Freed;
    hide Overdue;
    hide SizeFrom;
    if n < |keys| { SplitAt(keys, n); } else { assert keys[..n] == keys; }
  }

  method FindOverdue(pending: Pending, sender: string, maxCompleted: nat, now: int)
    returns (drops: seq<StfId>, ghost cut: Option<StfId>)
    ensures GivenUp(pending, sender, maxCompleted, now, drops, cut)
  {
    hide *;
    var keys := InOrder(pending.Keys);
    var size := 0;
    drops := [];
    cut := None;
    NothingScanned(pending, sender, maxCompleted, now);
    assert keys[..0] == [];
    for i := 0 to |keys|
      invariant Scanned(pending, sender, maxCompleted, now, keys[..i], drops)
      invariant size == Freed(pending, sender, drops)
      invariant cut == None
    {
      assert keys[i] in keys;
      if size > DROP_LIMIT || !Overdue(pending[keys[i]], keys[i], maxCompleted, now) {
        cut := Some(keys[i]);
        ScanEnds(pending, sender, maxCompleted, now, keys, i, drops);
        return;
      }
      SplitAt(keys, i);
      ScanMore(pending, sender, maxCompleted, now, keys[..i], drops, keys[i]);
      assert keys[..i + 1] == keys[..i] + [keys[i]];
      var found := SizeFrom(pending[keys[i]], sender);
      if found.Some? {
        size := size + found.value;
        drops := drops + [keys[i]];
      }
    }
    ScanEnds(pending, sender, maxCompleted, now, keys, |keys|, drops);
  }

  lemma {:induction false} NothingScanned(pending: Pending, sender: string, maxCompleted: nat, now: int)
    ensures Scanned(pending, sender, maxCompleted, now, [], [])
    ensures Freed(pending, sender, []) == 0
  {
  }

  lemma {:induction false} GivenUpArePending(pending: Pending, sender: string, maxCompleted: nat, now: int,
                          drops: seq<StfId>, cut: Option<StfId>)
    requires GivenUp(pending, sender, maxCompleted, now, drops, cut)
    ensures Ascending(drops) && forall k | k in drops :: k in pending
  {
  }

  ghost function Sum(sizes: seq<nat>): nat {
    if sizes == [] then 0 else Sum(sizes[..|sizes| - 1]) + sizes[|sizes| - 1]
  }

  /** A time frame that may be given up: not above the completed ones, and not begun within the last second. */
  ghost predicate Old(v: seq<StfInfo>, id: StfId, maxCompleted: nat, now: int) {
    v != [] && id <= maxCompleted && now - v[0].updateTime >= 1000
  }

  ghost predicate Frees(v: seq<StfInfo>, sender: string, size: nat) {
    exists i: nat :: FirstOfSender(v, sender, i) && v[i].stfSize == size
  }

  /**
   What is dropped to relieve the sender: old time frames it contributed to, of these the smallest
   ones, until more than one GiB is freed or one that is not old is met.
  */
  ghost predicate Relieves(was: Pending, sender: string, maxCompleted: nat, now: int, drops: seq<StfId>, sizes: seq<nat>) {
    && Ascending(drops) && |sizes| == |drops|
    && (forall i | 0 <= i < |drops| :: drops[i] in was && Old(was[drops[i]], drops[i], maxCompleted, now) && Frees(was[drops[i]], sender, sizes[i]))
    && (drops != [] ==> Sum(sizes[..|sizes| - 1]) <= 0x4000_0000)
    && forall k, u | k in was && k !in drops && u in was[k] && u.sender == sender ::
         && (forall d | d in drops :: d < k)
         && (Sum(sizes) > 0x4000_0000 || exists c :: c in was && c <= k && !Old(was[c], c, maxCompleted, now))
  }

  lemma {:induction false} FirstExists(v: seq<StfInfo>, sender: string, u: StfInfo) returns (i: nat)
    requires u in v && u.sender == sender
    ensures FirstOfSender(v, sender, i)
  {
    i := 0;
    while v[i].sender != sender
      invariant i < |v| && forall j | 0 <= j < i :: v[j].sender != sender
      decreases |v| - i
    {
      var k :| 0 <= k < |v| && v[k] == u;
      assert i < k;
      i := i + 1;
    }
  }

  lemma {:induction false} SizesFreed(pending: Pending, sender: string, drops: seq<StfId>) returns (sizes: seq<nat>)
    requires forall k | k in drops :: k in pending && SizeFrom(pending[k], sender).Some?
    ensures |sizes| == |drops| && Sum(sizes) == Freed(pending, sender, drops)
    ensures drops != [] ==> Sum(sizes[..|sizes| - 1]) == Freed(pending, sender, drops[..|drops| - 1])
    ensures forall i | 0 <= i < |drops| :: drops[i] in pending && Frees(pending[drops[i]], sender, sizes[i])
    decreases |drops|
  {
    sizes := [];
    if drops != [] {
      var n := |drops| - 1;
      var v := pending[drops[n]];
      var before := SizesFreed(pending, sender, drops[..n]);
      SizeFromFinds(v, sender);
      var u :| u in v && u.sender == sender;
      var i := FirstExists(v, sender, u);
      SizeFromFirst(v, sender, i);
      sizes := before + [v[i].stfSize];
      assert sizes[..n] == before;
    }
  }

  lemma {:induction false} GivenUpMeans(pending: Pending, sender: string, maxCompleted: nat, now: int,
                                        drops: seq<StfId>, cut: Option<StfId>) returns (sizes: seq<nat>)
    requires GivenUp(pending, sender, maxCompleted, now, drops, cut)
    requires forall k | k in pending :: pending[k] != []
    ensures Relieves(pending, sender, maxCompleted, now, drops, sizes)
  {
    hide Freed;
    hide Sum;
    hide Frees;
    hide SizeFrom;
    sizes := SizesFreed(pending, sender, drops);
    forall i | 0 <= i < |drops| ensures Old(pending[drops[i]], drops[i], maxCompleted, now) { assert drops[i] in drops; }
    forall k, u | k in pending && k !in drops && u in pending[k] && u.sender == sender
      ensures (forall d | d in drops :: d < k)
      ensures Sum(sizes) > 0x4000_0000 || exists c :: c in pending && c <= k && !Old(pending[c], c, maxCompleted, now)
    {
      SizeFromFinds(pending[k], sender);
      assert cut.Some? && cut.value <= k;
    }
  }

  function Max(a: nat, b: nat): nat { if a < b then b else a }

  class Scheduler {
    const numStfSenders: nat
    const droppedStfs: EventRecorder
    const builtTfs: EventRecorder

    var pending: Pending
    var stfSenders: map<string, SenderInfo>
    var runNumber: nat
    var lastStfId: nat
    var maxCompletedTfId: nat
    var notScheduledTfs: nat
    var staleTfs: nat
    var dropQueue: seq<StfId>
    var completeQueue: seq<seq<StfInfo>>

    /** The current run. */
    ghost var history: History

    ghost function TheBooks(): Books
      reads `pending, `history, droppedStfs, builtTfs
    {
      Books(pending, history, droppedStfs.Contents(), builtTfs.Contents())
    }

    ghost predicate ValidParts()
      reads droppedStfs, builtTfs
    {
      numStfSenders > 0 && droppedStfs != builtTfs && droppedStfs.Valid() && builtTfs.Valid()
    }

    /** Entries may just have become complete. */
    ghost predicate Core()
      reads `pending, `history, `completeQueue, droppedStfs, builtTfs
    {
      && ValidParts()
      && Consistent(TheBooks(), numStfSenders)
      && TimeFrames(completeQueue, numStfSenders)
    }

    ghost predicate Valid()
      reads `pending, `history, `completeQueue, droppedStfs, builtTfs
    {
      Core() && Incomplete(pending, numStfSenders)
    }

    constructor (numStfSenders: nat)
      requires numStfSenders > 0
      ensures Valid()
      ensures fresh(droppedStfs) && fresh(builtTfs)
      ensures this.numStfSenders == numStfSenders
      ensures TheBooks() == NO_BOOKS && runNumber == 0 && lastStfId == 0 && maxCompletedTfId == 0
      ensures completeQueue == [] && dropQueue == [] && stfSenders == map[] && notScheduledTfs == staleTfs == 0
    {
      this.numStfSenders := numStfSenders;
      droppedStfs := new EventRecorder(24 * 3600 * 88);
      builtTfs := new EventRecorder(24 * 3600 * 88);
      pending, stfSenders := map[], map[];
      runNumber, lastStfId, maxCompletedTfId := 0, 0, 0;
      notScheduledTfs, staleTfs := 0, 0;
      dropQueue, completeQueue := [], [];
      history := NO_HISTORY;
      new;
      StartConsistent(numStfSenders);
    }

    /** A new run: pending entries are cleared, and the run's history starts afresh. */
    method Reset()
      requires Core()
      modifies this`lastStfId, this`maxCompletedTfId, this`notScheduledTfs, this`staleTfs, this`pending, this`history,
               droppedStfs, builtTfs
      ensures Valid()
      ensures lastStfId == maxCompletedTfId == notScheduledTfs == staleTfs == 0
      ensures TheBooks() == NO_BOOKS
    {
      lastStfId, maxCompletedTfId, notScheduledTfs, staleTfs := 0, 0, 0, 0;
      droppedStfs.Reset();
      builtTfs.Reset();
      pending := map[];
      history := NO_HISTORY;
      StartConsistent(numStfSenders);
    }

    /** Discards whatever is pending for `id` and asks all senders to drop it. */
    method RequestDropAll(id: StfId)
      requires Valid()
      modifies this`pending, this`dropQueue, this`notScheduledTfs, this`history, droppedStfs
      ensures Valid()
      ensures TheBooks() == Dropped(old(TheBooks()), id)
      ensures dropQueue == old(dropQueue) + [id]
      ensures notScheduledTfs == old(notScheduledTfs) + 1
    {
      hide Consistent;
      ghost var was := TheBooks();
      DroppedConsistent(was, id, numStfSenders);
      var _ := droppedStfs.SetEvent(id, true);
      history := Dropped(was, id).history;
      pending := pending - {id};
      dropQueue := dropQueue + [id];
      notScheduledTfs := notScheduledTfs + 1;
    }

    /** The same for an id that was not dropped before, which the source asserts. */
    method RequestDropAllLocked(id: StfId)
      requires Valid() && id !in droppedStfs.Contents().events
      modifies this`pending, this`dropQueue, this`notScheduledTfs, this`history, droppedStfs
      ensures Valid()
      ensures TheBooks() == Dropped(old(TheBooks()), id)
      ensures dropQueue == old(dropQueue) + [id]
      ensures notScheduledTfs == old(notScheduledTfs) + 1
    {
      hide Consistent;
      RequestDropAll(id);
    }

    /** Moves a pending entry to the queue of time frames to schedule. */
    method MoveToComplete(id: StfId)
      requires Core() && id in pending
      modifies this`pending, this`completeQueue, this`maxCompletedTfId, this`history, builtTfs
      ensures Core()
      ensures TheBooks() == Completed(old(TheBooks()), id)
      ensures completeQueue == old(completeQueue) + [old(pending)[id]]
      ensures pending == old(pending) - {id}
      ensures maxCompletedTfId == Max(old(maxCompletedTfId), id)
    {
      hide Consistent;
      ghost var was := TheBooks();
      CompletedConsistent(was, id, numStfSenders);
      maxCompletedTfId := Max(maxCompletedTfId, id);
      var _ := builtTfs.SetEvent(id, true);
      history := Completed(was, id).history;
      completeQueue := completeQueue + [pending[id]];
      pending := pending - {id};
    }

    /** An update arrives from a sender. */
    method AddStfInfo(u: StfUpdate, running: bool, sendersOk: bool, now: int) returns (status: Status)
      requires Valid()
      modifies this`lastStfId, this`maxCompletedTfId, this`notScheduledTfs, this`staleTfs, this`pending, this`history,
               this`stfSenders, this`runNumber, this`dropQueue, this`completeQueue, droppedStfs, builtTfs
      ensures Valid()
      ensures stfSenders == old(stfSenders)[u.sender := u.stfsInfo]
      ensures runNumber == Max(old(runNumber), u.runNumber)
      ensures u.runNumber < old(runNumber) ==>
        && status == (if running then DROP_SCHED_DISCARDED else DROP_NOT_RUNNING)
        && TheBooks() == old(TheBooks()) && lastStfId == old(lastStfId)
        && dropQueue == old(dropQueue) && completeQueue == old(completeQueue)
      ensures u.runNumber == old(runNumber) ==>
        Judged(old(TheBooks()), old(lastStfId), old(maxCompletedTfId), old(dropQueue), old(completeQueue), u, running, sendersOk, now, status)
      ensures u.runNumber > old(runNumber) ==>
        Judged(NO_BOOKS, 0, 0, old(dropQueue), old(completeQueue), u, running, sendersOk, now, status)
      ensures u.runNumber >= old(runNumber) ==>
        var current, id, fits := u.runNumber == old(runNumber), u.stfId, u.stfsInfo.bufferUsed <= u.stfsInfo.bufferSize * 97 / 100;
        var seen := current && (id in old(droppedStfs.Contents().events) || id in old(builtTfs.Contents().events));
        var late := current && id !in old(pending) && id + 440 < old(lastStfId);
        && (status == OK <==> running && !seen && sendersOk && fits && !late)
        && (status == DROP_NOT_RUNNING <==> !running)
        && (status == DROP_STFS_INCOMPLETE <==> running && !seen && !sendersOk)
        && (status == DROP_STFS_BUFFER_FULL <==> running && !seen && sendersOk && !fits)
        && (status == DROP_SCHED_DISCARDED <==> running && (seen || (sendersOk && fits && late)))
      ensures u.runNumber == old(runNumber) ==>
        Treated(status, old(pending), old(history), old(lastStfId), old(dropQueue), old(completeQueue), u, now,
                u.stfId in old(droppedStfs.Contents().events) || u.stfId in old(builtTfs.Contents().events))
      ensures u.runNumber > old(runNumber) ==>
        Treated(status, map[], NO_HISTORY, 0, old(dropQueue), old(completeQueue), u, now, false)
    {
      hide Consistent;
      hide Judged;
      hide Treated;
      stfSenders := stfSenders[u.sender := u.stfsInfo];
      if runNumber < u.runNumber {
        Reset();
        runNumber := u.runNumber;
      } else if u.runNumber < runNumber {
        return if running then DROP_SCHED_DISCARDED else DROP_NOT_RUNNING;
      }
      ghost var b, last, max, drops, queue := TheBooks(), lastStfId, maxCompletedTfId, dropQueue, completeQueue;
      status := Judge(u, running, sendersOk, now);
      JudgedMeans(b, last, max, drops, queue, u, running, sendersOk, now, status);
    }

    /**
     Where an update goes: an accepted one is the latest of its entry, and the entry waits or, once
     it has one update of each sender, is queued behind all smaller ones; for a rejected one its
     entry is discarded and a drop is requested, unless its id was seen to the end before.
    */
    ghost predicate Treated(status: Status, was: Pending, before: History, last: nat, drops: seq<StfId>, queue: seq<seq<StfInfo>>,
                            u: StfUpdate, now: int, seen: bool)
      reads `pending, `history, `lastStfId, `dropQueue, `completeQueue
    {
      var id, info := u.stfId, StfInfo(now, u.sender, u.stfId, u.stfSize);
      var entry := (if id in was then was[id] else []) + [info];
      && (status == OK ==>
            && history.accepted == before.accepted + multiset{info} && history.dropped == before.dropped
            && lastStfId == (if last < id then id else last) && dropQueue == drops
            && (|entry| != numStfSenders ==> pending == was[id := entry] && completeQueue == queue)
            && (|entry| == numStfSenders ==>
                  && (forall k :: k in pending <==> k in was && id < k) && (forall k | k in pending :: pending[k] == was[k])
                  && InFront(was, id, queue, completeQueue, entry)))
      && (status != OK ==>
            && history.accepted == before.accepted && lastStfId == last && completeQueue == queue
            && pending == (if seen then was else was - {id})
            && dropQueue == (if seen then drops else drops + [id]))
    }

    /** How an update of the current run is dealt with, from the state before it. */
    ghost predicate Judged(b: Books, last: nat, max: nat, drops: seq<StfId>, queue: seq<seq<StfInfo>>,
                           u: StfUpdate, running: bool, sendersOk: bool, now: int, status: Status)
      reads `pending, `history, `lastStfId, `maxCompletedTfId, `dropQueue, `completeQueue, droppedStfs, builtTfs
    {
      && status == Verdict(u, running, sendersOk, u.stfId in b.dropped.events, u.stfId in b.built.events,
                           last, u.stfId in b.pending)
      && (status == OK ==>
            && TheBooks() == Settled(b, u.Info(now), numStfSenders)
            && lastStfId == Max(last, u.stfId) && dropQueue == drops
            && maxCompletedTfId == (if Completes(b, u.Info(now), numStfSenders) then Max(max, u.stfId) else max)
            && completeQueue == queue + QueuedBy(b, u.Info(now), numStfSenders))
      && (status != OK && !Reported(b, u.stfId) ==>
            && TheBooks() == Dropped(b, u.stfId)
            && lastStfId == last && dropQueue == drops + [u.stfId] && completeQueue == queue)
      && (status != OK ==> maxCompletedTfId == max)
      && (status != OK && Reported(b, u.stfId) ==>
            TheBooks() == b && lastStfId == last && dropQueue == drops && completeQueue == queue)
    }

    lemma {:induction false} JudgedMeans(b: Books, last: nat, max: nat, drops: seq<StfId>, queue: seq<seq<StfInfo>>,
                                         u: StfUpdate, running: bool, sendersOk: bool, now: int, status: Status)
      requires Judged(b, last, max, drops, queue, u, running, sendersOk, now, status)
      requires Incomplete(b.pending, numStfSenders) && numStfSenders > 0
      ensures
        var id, fits := u.stfId, u.stfsInfo.bufferUsed <= u.stfsInfo.bufferSize * 97 / 100;
        var seen := id in b.dropped.events || id in b.built.events;
        var late := id !in b.pending && id + 440 < last;
        && (status == OK <==> running && !seen && sendersOk && fits && !late)
        && (status == DROP_NOT_RUNNING <==> !running)
        && (status == DROP_STFS_INCOMPLETE <==> running && !seen && !sendersOk)
        && (status == DROP_STFS_BUFFER_FULL <==> running && !seen && sendersOk && !fits)
        && (status == DROP_SCHED_DISCARDED <==> running && (seen || (sendersOk && fits && late)))
        && Treated(status, b.pending, b.history, last, drops, queue, u, now, seen)
    {
      hide Settled;
      hide QueuedBy;
      hide Completes;
      hide InFront;
      if status == OK { SettledMeans(b, u.Info(now), numStfSenders, queue); }
    }

    method Judge(u: StfUpdate, running: bool, sendersOk: bool, now: int) returns (status: Status)
      requires Valid()
      modifies this`lastStfId, this`maxCompletedTfId, this`notScheduledTfs, this`pending, this`history,
               this`dropQueue, this`completeQueue, droppedStfs, builtTfs
      ensures Valid()
      ensures Judged(old(TheBooks()), old(lastStfId), old(maxCompletedTfId), old(dropQueue), old(completeQueue), u, running, sendersOk, now, status)
    {
      hide Consistent;
      hide Dropped;
      hide Settled;
      hide QueuedBy;
      hide Completes;
      var dropped := droppedStfs.GetEvent(u.stfId);
      if dropped {
        return if running then DROP_SCHED_DISCARDED else DROP_NOT_RUNNING;
      }
      var built := builtTfs.GetEvent(u.stfId);
      if built {
        return if running then DROP_SCHED_DISCARDED else DROP_NOT_RUNNING;
      }
      if !running {
        RequestDropAllLocked(u.stfId);
        return DROP_NOT_RUNNING;
      }
      if !sendersOk {
        RequestDropAllLocked(u.stfId);
        return DROP_STFS_INCOMPLETE;
      }
      if u.stfsInfo.bufferUsed > u.stfsInfo.bufferSize * 97 / 100 {
        RequestDropAllLocked(u.stfId);
        return DROP_STFS_BUFFER_FULL;
      }
      if u.stfId < MinAccept(lastStfId) && u.stfId !in pending {
        RequestDropAllLocked(u.stfId);
        return DROP_SCHED_DISCARDED;
      }
      lastStfId := Max(lastStfId, u.stfId);
      Enter(u.Info(now));
      return OK;
    }

    /** An accepted update is filed, and a complete time frame leaves with all earlier ones. */
    method Enter(u: StfInfo)
      requires Valid() && !Reported(TheBooks(), u.stfId)
      modifies this`pending, this`completeQueue, this`maxCompletedTfId, this`history, builtTfs
      ensures Valid()
      ensures TheBooks() == Settled(old(TheBooks()), u, numStfSenders)
      ensures completeQueue == old(completeQueue) + QueuedBy(old(TheBooks()), u, numStfSenders)
      ensures maxCompletedTfId == old(if Completes(TheBooks(), u, numStfSenders) then Max(maxCompletedTfId, u.stfId) else maxCompletedTfId)
    {
      hide Consistent;
      hide CompletedAll;
      hide VectorsOf;
      hide Leaving;
      EnteredConsistent(TheBooks(), u, numStfSenders);
      history := Accept(history, u);
      pending := pending[u.stfId := (if u.stfId in pending then pending[u.stfId] else []) + [u]];
      if |pending[u.stfId]| == numStfSenders {
        CompleteUpTo(u.stfId);
      }
    }

    /** All incomplete time frames before `id` are queued, in order, and then `id`. */
    method CompleteUpTo(id: StfId)
      requires Core() && id in pending
      requires forall k | k in pending && k != id :: |pending[k]| < numStfSenders
      modifies this`pending, this`completeQueue, this`maxCompletedTfId, this`history, builtTfs
      ensures Valid()
      ensures TheBooks() == CompletedAll(old(TheBooks()), Leaving(old(pending), id))
      ensures completeQueue == old(completeQueue) + VectorsOf(old(pending), Leaving(old(pending), id))
      ensures maxCompletedTfId == Max(old(maxCompletedTfId), id)
    {
      hide Consistent;
      hide FrontLeft;
      hide CompletedAll;
      hide VectorsOf;
      hide Leaving;
      hide Completed;
      ghost var b := TheBooks();
      ghost var left: seq<StfId> := [];
      FlushStarts(b, id);
      while Least(pending.Keys) < id
        invariant Core() && id in pending
        invariant FrontLeft(b, id, left)
        invariant old(maxCompletedTfId) <= maxCompletedTfId <= Max(old(maxCompletedTfId), id)
        invariant TheBooks() == CompletedAll(b, left)
        invariant completeQueue == old(completeQueue) + VectorsOf(b.pending, left)
        decreases |pending|
      {
        var least := Least(pending.Keys);
        FlushMore(b, id, left, least);
        AllSnoc(b, left, least);
        MoveToComplete(least);
        left := left + [least];
      }
      AllSnoc(b, left, id);
      FlushEnds(b, id, left);
      FlushLeaves(b, id);
      MoveToComplete(id);
    }

    /**
     Time frames whose latest update is too old are queued although incomplete: the pending ids
     are visited in ascending order up to the first one that is still fresh. `asserted` tells
     whether the assertion made for each of them held: its id is above all completed ones. That
     is so exactly when the least pending id is fresh or above all completed ones.
    */
    method StaleCleanup(now: int, timeoutMs: int) returns (stale: seq<StfId>, asserted: bool)
      requires Valid()
      modifies this`staleTfs, this`pending, this`completeQueue, this`maxCompletedTfId, this`history, builtTfs
      ensures Valid()
      ensures StaleFront(old(pending), now, timeoutMs, stale) && Ascending(stale)
      ensures TheBooks() == CompletedAll(old(TheBooks()), stale)
      ensures completeQueue == old(completeQueue) + VectorsOf(old(pending), stale)
      ensures staleTfs == old(staleTfs) + |stale|
      ensures forall k | k in stale :: k in old(pending) && Silent(old(pending)[k], now, timeoutMs)
      ensures forall k :: k in pending <==> k in old(pending) && k !in stale
      ensures forall k | k in pending :: pending[k] == old(pending)[k] && forall s | s in stale :: s < k
      ensures forall k | k in pending && (forall j | j in pending :: k <= j) :: !Silent(pending[k], now, timeoutMs)
      ensures |completeQueue| == |old(completeQueue)| + |stale| && completeQueue[..|old(completeQueue)|] == old(completeQueue)
      ensures forall i | 0 <= i < |stale| :: completeQueue[|old(completeQueue)| + i] == old(pending)[stale[i]]
      ensures asserted <==> CleansUpInOrder(old(pending), old(maxCompletedTfId), now, timeoutMs)
    {
      hide Consistent;
      hide StaleFront;
      hide CompletedAll;
      hide Silent;
      NoneEmpty(TheBooks(), numStfSenders);
      stale := FindStale(pending, now, timeoutMs);
      StaleFrontBegins(pending, maxCompletedTfId, now, timeoutMs, stale);
      StaleFrontMeans(TheBooks(), now, timeoutMs, stale, completeQueue);
      asserted := CompleteEach(stale);
      staleTfs := staleTfs + |stale|;
    }

    method CompleteEach(ids: seq<StfId>) returns (asserted: bool)
      requires Valid()
      requires Ascending(ids) && forall k | k in ids :: k in pending
      modifies this`pending, this`completeQueue, this`maxCompletedTfId, this`history, builtTfs
      ensures Valid()
      ensures TheBooks() == CompletedAll(old(TheBooks()), ids)
      ensures completeQueue == old(completeQueue) + VectorsOf(old(pending), ids)
      ensures asserted <==> (ids != [] ==> old(maxCompletedTfId) < ids[0])
    {
      hide Consistent;
      hide VectorsOf;
      hide Completed;
      hide CompletedAll;
      hide TimeFrames;
      ghost var b := TheBooks();
      AllNone(b);
      asserted := true;
      for i := 0 to |ids|
        invariant Valid()
        invariant TheBooks() == CompletedAll(b, ids[..i])
        invariant completeQueue == old(completeQueue) + VectorsOf(b.pending, ids[..i])
        invariant i == 0 ==> asserted && maxCompletedTfId == old(maxCompletedTfId)
        invariant i > 0 ==> (asserted <==> old(maxCompletedTfId) < ids[0])
        invariant i > 0 && asserted ==> maxCompletedTfId == ids[i - 1]
      {
        assert ids[..i + 1] == ids[..i] + [ids[i]];
        AllSnoc(b, ids[..i], ids[i]);
        CompletedAllNext(b, ids, i);
        asserted := asserted && maxCompletedTfId < ids[i];
        MoveToComplete(ids[i]);
      }
      assert ids[..|ids|] == ids;
    }

    /**
     When some sender's buffer is too full (`toFree`), incomplete time frames it contributed to
     are dropped. The senders' reports are collected afresh in any case.
    */
    method HighWatermark(toFree: Option<string>, now: int) returns (drops: seq<StfId>, ghost cut: Option<StfId>)
      requires Valid()
      modifies this`stfSenders, this`pending, this`dropQueue, this`notScheduledTfs, this`history, droppedStfs
      ensures Valid()
      ensures stfSenders == map[]
      ensures toFree.None? ==> drops == []
      ensures toFree.Some? ==>
        GivenUp(old(pending), toFree.value, maxCompletedTfId, now, drops, cut)
      ensures TheBooks() == DroppedAll(old(TheBooks()), drops)
      ensures dropQueue == old(dropQueue) + drops
      ensures toFree.Some? ==> exists sizes :: Relieves(old(pending), toFree.value, maxCompletedTfId, now, drops, sizes)
      ensures forall k :: k in pending <==> k in old(pending) && k !in drops
      ensures forall k | k in pending :: pending[k] == old(pending)[k]
    {
      hide Consistent;
      hide GivenUp;
      hide Relieves;
      hide DroppedAll;
      hide Dropped;
      drops, cut := [], None;
      if toFree.Some? {
        drops, cut := FindOverdue(pending, toFree.value, maxCompletedTfId, now);
        GivenUpArePending(pending, toFree.value, maxCompletedTfId, now, drops, cut);
        NoneEmpty(TheBooks(), numStfSenders);
        ghost var sizes := GivenUpMeans(pending, toFree.value, maxCompletedTfId, now, drops, cut);
      }
      DroppedAllMeaning(TheBooks(), drops);
      stfSenders := map[];
      DropEach(drops);
    }

    method DropEach(ids: seq<StfId>)
      requires Valid() && Ascending(ids) && forall k | k in ids :: k in pending
      modifies this`pending, this`dropQueue, this`notScheduledTfs, this`history, droppedStfs
      ensures Valid()
      ensures TheBooks() == DroppedAll(old(TheBooks()), ids)
      ensures dropQueue == old(dropQueue) + ids
    {
      hide Consistent;
      hide DroppedAll;
      hide Dropped;
      ghost var b := TheBooks();
      AllNone(b);
      for i := 0 to |ids|
        invariant Valid()
        invariant TheBooks() == DroppedAll(b, ids[..i])
        invariant dropQueue == old(dropQueue) + ids[..i]
      {
        assert ids[..i + 1] == ids[..i] + [ids[i]];
        AllSnoc(b, ids[..i], ids[i]);
        DroppedAllNext(b, ids, i, numStfSenders);
        RequestDropAllLocked(ids[i]);
      }
      assert ids[..|ids|] == ids;
    }

    /**
     The next queued time frame is offered to a builder, unless it is incomplete and incomplete
     ones are not built. Whenever no builder has taken it on, all senders are told to drop it.
    */
    method ScheduleNext(buildIncomplete: bool, outcome: BuildOutcome) returns (tfId: StfId, request: Option<BuildRequest>)
      requires Valid() && completeQueue != []
      modifies this`completeQueue, this`pending, this`dropQueue, this`notScheduledTfs, this`history, droppedStfs
      ensures Valid()
      ensures completeQueue == old(completeQueue[1..])
      ensures tfId == Id(old(completeQueue[0])) && TimeFrame(old(completeQueue[0]), tfId, numStfSenders)
      ensures
        var build := |old(completeQueue[0])| == numStfSenders || buildIncomplete;
        && (request.Some? <==> build && outcome != NoBuilder && outcome != Unreachable)
        && (request.Some? ==> request.value.IsFor(tfId, old(completeQueue[0])))
        && (if build && (outcome == Accepted || outcome == OtherStatus)
            then TheBooks() == old(TheBooks()) && dropQueue == old(dropQueue)
            else TheBooks() == Dropped(old(TheBooks()), tfId) && dropQueue == old(dropQueue) + [tfId])
    {
      hide Consistent;
      hide Dropped;
      hide BuildRequest.IsFor;
      var v := completeQueue[0];
      assert TimeFrame(v, Id(v), numStfSenders);
      completeQueue := completeQueue[1..];
      tfId, request := v[0].stfId, None;
      if |v| != numStfSenders {
        if !buildIncomplete {
          RequestDropAll(tfId);
          return;
        }
      }
      var offer := MakeRequest(tfId, v);
      match outcome
      case NoBuilder | Unreachable =>
        RequestDropAll(tfId);
      case RpcError | NoMemory | NotRunning =>
        request := Some(offer);
        RequestDropAll(tfId);
      case Accepted | OtherStatus =>
        request := Some(offer);
    }

    /**
     The next requested drop is passed on to all senders. `asserted` tells whether the assertion
     made for it held: its id is not pending. That is sure for an id dropped in the current run,
     unless the recorder forgot it.
    */
    method DropNext() returns (id: StfId, asserted: bool)
      requires Valid() && dropQueue != []
      modifies this`dropQueue
      ensures Valid()
      ensures id == old(dropQueue[0]) && dropQueue == old(dropQueue[1..])
      ensures asserted <==> id !in pending
      ensures id in history.dropped && !Forgotten(droppedStfs.Contents(), id) ==> asserted
    {
      hide Consistent;
      id := dropQueue[0];
      dropQueue := dropQueue[1..];
      asserted := id !in pending;
      if !asserted && id in history.dropped { DroppedIsNotPending(TheBooks(), id, numStfSenders); }
    }
  }

  /** The sizes are those of the senders of these updates. */
  ghost predicate SizesOf(sizes: map<string, nat>, v: seq<StfInfo>) {
    && (forall s :: s in sizes <==> exists u :: u in v && u.sender == s)
    && (forall s | s in sizes :: exists u :: u in v && u.sender == s && u.stfSize == sizes[s])
  }

  lemma {:induction false} SizesMore(sizes: map<string, nat>, v: seq<StfInfo>, u: StfInfo)
    requires SizesOf(sizes, v)
    ensures SizesOf(sizes[u.sender := u.stfSize], v + [u])
  {
    var more := sizes[u.sender := u.stfSize];
    assert u in v + [u] && forall w | w in v :: w in v + [u];
    forall s | s in more ensures exists w :: w in v + [u] && w.sender == s && w.stfSize == more[s] {
      if s != u.sender {
        var w :| w in v && w.sender == s && w.stfSize == sizes[s];
        assert w in v + [u];
      }
    }
  }

  method MakeRequest(tfId: StfId, v: seq<StfInfo>) returns (r: BuildRequest)
    ensures r.IsFor(tfId, v)
  {
    hide SizesOf;
    var size, sizes: map<string, nat> := 0, map[];
    assert SizesOf(sizes, v[..0]) by { NoSizes(); }
    for i := 0 to |v|
      invariant size == TotalSize(v[..i])
      invariant SizesOf(sizes, v[..i])
    {
      assert v[..i + 1] == v[..i] + [v[i]] && v[..i + 1][..i] == v[..i];
      SizesMore(sizes, v[..i], v[i]);
      size := size + v[i].stfSize;
      sizes := sizes[v[i].sender := v[i].stfSize];
    }
    assert v[..|v|] == v;
    r := BuildRequest(tfId, size, sizes);
  }

  lemma {:induction false} NoSizes()
    ensures SizesOf(map[], [])
  {
  }

  /**
   The assertion of the stale cleanup is not an invariant: with two senders, 5 completes, one
   sender announces 3 late, and 3 is then cleaned up although 5 has left before.
  */
  method LateUpdate() returns (asserted: bool)
    ensures !asserted
  {
    hide Consistent;
    hide Settled;
    hide Completes;
    hide QueuedBy;
    hide CompletedAll;
    hide InFront;
    hide Silent;
    hide Scheduler.Treated;
    hide VectorsOf;
    var room := SenderInfo(100, 0);
    var a5, b5 := StfUpdate(1, 5, 10, "a", room), StfUpdate(1, 5, 10, "b", room);
    var a3 := StfUpdate(1, 3, 10, "a", room);
    LateUpdateBooks(a5.Info(0), b5.Info(0), a3.Info(0));
    var s := new Scheduler(2);
    var _ := s.AddStfInfo(a5, true, true, 0);
    var _ := s.AddStfInfo(b5, true, true, 0);
    var _ := s.AddStfInfo(a3, true, true, 0);
    assert s.pending.Keys == {3};
    var stale;
    stale, asserted := s.StaleCleanup(1000, 250);
  }

  /**
   Nor is that of the drop thread: with two senders, 5 is dropped in one run, one sender announces
   5 in the next run, and only then is the drop taken from the queue.
  */
  method DropOfEarlierRun() returns (asserted: bool)
    ensures !asserted
  {
    hide Consistent;
    hide Settled;
    hide Completes;
    hide QueuedBy;
    hide Dropped;
    hide InFront;
    hide Scheduler.Treated;
    var room := SenderInfo(100, 0);
    var before, after := StfUpdate(1, 5, 10, "a", room), StfUpdate(2, 5, 10, "a", room);
    FirstOfTwo(NO_BOOKS, after.Info(0));
    var s := new Scheduler(2);
    var _ := s.AddStfInfo(before, true, false, 0);
    assert s.dropQueue == [5];
    var _ := s.AddStfInfo(after, true, true, 0);
    assert s.pending.Keys == {5};
    var id;
    id, asserted := s.DropNext();
  }
}
