/**
 The value side of the scheduler's bookkeeping: which announced updates are where, and what
 the recorders remember. All statements are about one run.
*/
module StfLedger {
  import opened Collections
  import opened EventRecords

  type StfId = EventId

  datatype StfInfo = StfInfo(updateTime: int, sender: string, stfId: StfId, stfSize: nat)

  type Pending = map<StfId, seq<StfInfo>>

  // ------------------------------------------------------------------- the ledger

  /** The updates of one time frame. */
  ghost predicate TimeFrame(v: seq<StfInfo>, id: StfId, senders: nat) {
    1 <= |v| <= senders && forall u | u in v :: u.stfId == id
  }

  /** All updates in a sequence of vectors. */
  ghost function Pool(vs: seq<seq<StfInfo>>): multiset<StfInfo> {
    if vs == [] then multiset{} else Pool(vs[..|vs| - 1]) + multiset(vs[|vs| - 1])
  }

  /** The ids of the time frames in a sequence of vectors. */
  ghost function Ids(vs: seq<seq<StfInfo>>): (r: seq<StfId>)
    ensures |r| == |vs|
  {
    if vs == [] then [] else Ids(vs[..|vs| - 1]) + [Id(vs[|vs| - 1])]
  }

  ghost function Id(v: seq<StfInfo>): StfId {
    if v == [] then 0 else v[0].stfId
  }

  lemma {:induction false} Snoc(vs: seq<seq<StfInfo>>, v: seq<StfInfo>)
    ensures Pool(vs + [v]) == Pool(vs) + multiset(v)
    ensures Ids(vs + [v]) == Ids(vs) + [Id(v)]
  {
    assert (vs + [v])[..|vs|] == vs;
  }

  ghost function EntryOf(pending: Pending, id: StfId): seq<StfInfo> {
    if id in pending then pending[id] else []
  }

  /**
   The history of one run: the updates answered OK, the vectors that were queued as complete,
   the updates erased by a drop, and the ids for which a drop was requested.
  */
  datatype History = History(accepted: multiset<StfInfo>, completed: seq<seq<StfInfo>>,
                             erased: multiset<StfInfo>, dropped: seq<StfId>)

  const NO_HISTORY := History(multiset{}, [], multiset{}, [])

  /** The books of one run. */
  datatype Books = Books(pending: Pending, history: History, dropped: Record, built: Record)

  const NO_BOOKS := Books(map[], NO_HISTORY, NOTHING, NOTHING)

  // --------------------------------------------------------------- the invariant, in parts

  /** An update has as many places as it was accepted times. */
  ghost predicate InOnePlace(h: History, pending: Pending, u: StfInfo) {
    h.accepted[u] == multiset(EntryOf(pending, u.stfId))[u] + Pool(h.completed)[u] + h.erased[u]
  }

  ghost predicate Conserved(h: History, pending: Pending) {
    && (forall u: StfInfo :: InOnePlace(h, pending, u))
    && (forall u: StfInfo | u in h.erased :: u.stfId in h.dropped)
  }

  /** Pending entries hold updates of their own id. */
  ghost predicate Filed(pending: Pending, senders: nat) {
    forall id | id in pending :: TimeFrame(pending[id], id, senders)
  }

  ghost predicate NoneReported(pending: Pending, r: Record) {
    forall id | id in pending :: id !in r.events
  }

  /** The recorder has seen exactly `ids`, and what it can report happened once. */
  ghost predicate Tracks(r: Record, ids: seq<StfId>) {
    r == AddAll(NOTHING, ids)
  }

  ghost predicate OnceEach(r: Record, ids: seq<StfId>) {
    forall e | e in r.events :: multiset(ids)[e] == 1
  }

  ghost predicate Consistent(b: Books, senders: nat) {
    && Filed(b.pending, senders)
    && NoneReported(b.pending, b.dropped) && NoneReported(b.pending, b.built)
    && Tracks(b.dropped, b.history.dropped)
    && Tracks(b.built, Ids(b.history.completed)) && OnceEach(b.built, Ids(b.history.completed))
    && Conserved(b.history, b.pending)
  }

  /** Nothing complete is left pending. */
  ghost predicate Incomplete(pending: Pending, senders: nat) {
    forall id | id in pending :: |pending[id]| < senders
  }

  ghost predicate TimeFrames(vs: seq<seq<StfInfo>>, senders: nat) {
    forall v | v in vs :: TimeFrame(v, Id(v), senders)
  }

  // ------------------------------------------------------------------------ the steps

  ghost function Erase(h: History, pending: Pending, id: StfId): History {
    h.(erased := h.erased + multiset(EntryOf(pending, id)), dropped := h.dropped + [id])
  }

  ghost function Complete(h: History, v: seq<StfInfo>): History {
    h.(completed := h.completed + [v])
  }

  ghost function Accept(h: History, u: StfInfo): History {
    h.(accepted := h.accepted + multiset{u})
  }

  ghost function Append(pending: Pending, u: StfInfo): Pending {
    pending[u.stfId := EntryOf(pending, u.stfId) + [u]]
  }

  /** A drop is requested for `id`, together with the erasure of its entry. */
  ghost function Dropped(b: Books, id: StfId): Books {
    Books(b.pending - {id}, Erase(b.history, b.pending, id), b.dropped.Add(id), b.built)
  }

  /** The entry of `id` is queued as complete. */
  ghost function Completed(b: Books, id: StfId): Books {
    Books(b.pending - {id}, Complete(b.history, EntryOf(b.pending, id)), b.dropped, b.built.Add(id))
  }

  ghost function CompletedAll(b: Books, ids: seq<StfId>): Books {
    if ids == [] then b else Completed(CompletedAll(b, ids[..|ids| - 1]), ids[|ids| - 1])
  }

  ghost function DroppedAll(b: Books, ids: seq<StfId>): Books {
    if ids == [] then b else Dropped(DroppedAll(b, ids[..|ids| - 1]), ids[|ids| - 1])
  }

  /** An update is answered OK and entered. */
  ghost function Entered(b: Books, u: StfInfo): Books {
    Books(Append(b.pending, u), Accept(b.history, u), b.dropped, b.built)
  }

  // ------------------------------------------------------------------ steps conserve

  lemma {:induction false} EraseConserves(h: History, pending: Pending, id: StfId, senders: nat)
    requires Conserved(h, pending) && Filed(pending, senders)
    ensures Conserved(Erase(h, pending, id), pending - {id})
  {
    var entry, pending', h' := EntryOf(pending, id), pending - {id}, Erase(h, pending, id);
    assert forall u | u in multiset(entry) :: u in entry && u.stfId == id;
    forall u: StfInfo
      ensures InOnePlace(h', pending', u)
    {
      assert InOnePlace(h, pending, u);
      if u.stfId == id {
        assert EntryOf(pending', u.stfId) == [];
      } else {
        assert EntryOf(pending', u.stfId) == EntryOf(pending, u.stfId);
      }
    }
    assert id in h'.dropped;
    forall u: StfInfo | u in h'.erased ensures u.stfId in h'.dropped {
      if u in h.erased { assert u.stfId in h.dropped; }
    }
  }

  lemma {:induction false} CompleteConserves(h: History, pending: Pending, id: StfId, senders: nat)
    requires Conserved(h, pending) && Filed(pending, senders) && id in pending
    ensures Conserved(Complete(h, pending[id]), pending - {id})
  {
    Snoc(h.completed, pending[id]);
    var entry, pending', h' := pending[id], pending - {id}, Complete(h, pending[id]);
    assert forall u | u in multiset(entry) :: u in entry && u.stfId == id;
    forall u: StfInfo
      ensures InOnePlace(h', pending', u)
    {
      assert InOnePlace(h, pending, u);
      if u.stfId == id {
        assert EntryOf(pending', u.stfId) == [];
      } else {
        assert EntryOf(pending', u.stfId) == EntryOf(pending, u.stfId);
      }
    }
  }

  lemma {:induction false} AcceptConserves(h: History, pending: Pending, u: StfInfo)
    requires Conserved(h, pending)
    ensures Conserved(Accept(h, u), Append(pending, u))
  {
    assert multiset(EntryOf(pending, u.stfId) + [u]) == multiset(EntryOf(pending, u.stfId)) + multiset{u};
    forall w: StfInfo
      ensures InOnePlace(Accept(h, u), Append(pending, u), w)
    {
      assert InOnePlace(h, pending, w);
    }
  }

  // ------------------------------------------------------- steps keep the recorders right

  lemma {:induction false} OnceMore(r: Record, ids: seq<StfId>, id: StfId)
    requires Tracks(r, ids) && OnceEach(r, ids) && id !in r.events
    ensures OnceEach(r.Add(id), ids + [id])
  {
    Remembered(ids);
    assert multiset(ids + [id]) == multiset(ids) + multiset{id};
  }

  /** From the recorder's floor on, an id was queued as complete at most once. */
  lemma {:induction false} AtMostOnce(b: Books, senders: nat, i: nat, j: nat)
    requires Consistent(b, senders)
    requires i < j < |b.history.completed|
    requires Ids(b.history.completed)[i] == Ids(b.history.completed)[j]
    ensures b.built.floor.Some? && Ids(b.history.completed)[i] < b.built.floor.value
  {
    var ids := Ids(b.history.completed);
    Remembered(ids);
    Twice(ids, i, j);
  }

  /** Below its floor a recorder does not remember. */
  ghost predicate Forgotten(r: Record, id: StfId) {
    r.floor.Some? && id < r.floor.value
  }

  /** What was dropped in this run is not pending again, unless the recorder forgot it. */
  lemma {:induction false} DroppedIsNotPending(b: Books, id: StfId, senders: nat)
    requires Consistent(b, senders) && id in b.history.dropped && id in b.pending
    ensures Forgotten(b.dropped, id)
  {
    Remembered(b.history.dropped);
  }

  // ------------------------------------------------------------- steps keep the books

  lemma {:induction false} StartConsistent(senders: nat)
    ensures Consistent(NO_BOOKS, senders)
  {
    assert forall u :: InOnePlace(NO_HISTORY, map[], u);
  }

  lemma {:induction false} DroppedConsistent(b: Books, id: StfId, senders: nat)
    requires Consistent(b, senders)
    ensures Consistent(Dropped(b, id), senders)
  {
    EraseConserves(b.history, b.pending, id, senders);
    AddAllSnoc(NOTHING, b.history.dropped, id);
  }

  lemma {:induction false} CompletedConsistent(b: Books, id: StfId, senders: nat)
    requires Consistent(b, senders) && id in b.pending
    ensures Consistent(Completed(b, id), senders)
    ensures TimeFrame(b.pending[id], id, senders)
  {
    hide Conserved;
    hide OnceEach;
    hide AddAll;
    hide Pool;
    hide Ids;
    var v := b.pending[id];
    assert TimeFrame(v, id, senders);
    assert v[0] in v && Id(v) == id;
    CompleteConserves(b.history, b.pending, id, senders);
    Snoc(b.history.completed, v);
    AddAllSnoc(NOTHING, Ids(b.history.completed), id);
    OnceMore(b.built, Ids(b.history.completed), id);
  }

  lemma {:induction false} EnteredConsistent(b: Books, u: StfInfo, senders: nat)
    requires Consistent(b, senders)
    requires u.stfId !in b.dropped.events && u.stfId !in b.built.events
    requires |EntryOf(b.pending, u.stfId)| < senders
    ensures Consistent(Entered(b, u), senders)
  {
    AcceptConserves(b.history, b.pending, u);
    var id := u.stfId;
    assert id in b.pending ==> TimeFrame(b.pending[id], id, senders);
    assert TimeFrame(EntryOf(b.pending, id) + [u], id, senders);
  }

  // -------------------------------------------------------- what completing several ids does

  /** The vectors of the given ids, in order. */
  ghost function VectorsOf(pending: Pending, ids: seq<StfId>): seq<seq<StfInfo>> {
    if ids == [] then [] else VectorsOf(pending, ids[..|ids| - 1]) + [EntryOf(pending, ids[|ids| - 1])]
  }

  /** The entries below `id` were queued in ascending order, then `entry`. */
  ghost predicate InFront(pending: Pending, id: StfId, before: seq<seq<StfInfo>>, after: seq<seq<StfInfo>>, entry: seq<StfInfo>) {
    exists ids: seq<StfId> ::
      && Ascending(ids) && (forall k :: k in ids <==> k in pending && k < id)
      && |after| == |before| + |ids| + 1 && after[..|before|] == before && after[|after| - 1] == entry
      && forall i | 0 <= i < |ids| :: after[|before| + i] == EntryOf(pending, ids[i])
  }

  lemma {:induction false} VectorsAt(pending: Pending, ids: seq<StfId>)
    ensures |VectorsOf(pending, ids)| == |ids|
    ensures forall i | 0 <= i < |ids| :: VectorsOf(pending, ids)[i] == EntryOf(pending, ids[i])
    decreases |ids|
  {
    if ids != [] { VectorsAt(pending, ids[..|ids| - 1]); }
  }

  /** An accepted update waits in its entry, or completes it. */
  lemma {:induction false} SettledMeans(b: Books, u: StfInfo, senders: nat, queue: seq<seq<StfInfo>>)
    requires |EntryOf(b.pending, u.stfId)| < senders
    ensures
      var c, id, entry := Settled(b, u, senders), u.stfId, EntryOf(b.pending, u.stfId) + [u];
      && c.history.accepted == b.history.accepted + multiset{u} && c.history.dropped == b.history.dropped
      && (|entry| != senders ==> c.pending == b.pending[id := entry] && QueuedBy(b, u, senders) == [])
      && (|entry| == senders ==>
            && (forall k :: k in c.pending <==> k in b.pending && id < k) && (forall k | k in c.pending :: c.pending[k] == b.pending[k])
            && InFront(b.pending, id, queue, queue + QueuedBy(b, u, senders), entry))
  {
    hide Leaving;
    hide VectorsOf;
    hide CompletedAll;
    hide Ascending;
    var e, entry := Entered(b, u), EntryOf(b.pending, u.stfId) + [u];
    if |entry| == senders {
      CompletionFlushes(b, u, senders);
      FlushedInFront(b, u, queue);
      AcceptedStays(e, Leaving(e.pending, u.stfId));
    }
  }

  lemma {:induction false} AcceptedStays(b: Books, ids: seq<StfId>)
    ensures CompletedAll(b, ids).history.accepted == b.history.accepted
    ensures CompletedAll(b, ids).history.dropped == b.history.dropped
    decreases |ids|
  {
    if ids != [] { AcceptedStays(b, ids[..|ids| - 1]); }
  }

  lemma {:induction false} FlushedInFront(b: Books, u: StfInfo, queue: seq<seq<StfInfo>>)
    ensures
      var p := Append(b.pending, u);
      InFront(b.pending, u.stfId, queue, queue + VectorsOf(p, Leaving(p, u.stfId)), EntryOf(b.pending, u.stfId) + [u])
  {
    hide VectorsOf;
    hide Ascending;
    var p, id := Append(b.pending, u), u.stfId;
    var below, all := InOrder(KeysBelow(p, id)), Leaving(p, id);
    assert forall k :: k in below <==> k in KeysBelow(p, id);
    VectorsAt(p, all);
    assert |all| == |below| + 1 && all[|below|] == id;
    forall i | 0 <= i < |below| ensures EntryOf(p, all[i]) == EntryOf(b.pending, below[i]) {
      assert all[i] == below[i] && below[i] in below;
    }
    InFrontOf(b.pending, id, queue, VectorsOf(p, all), EntryOf(b.pending, id) + [u], below);
  }

  lemma {:induction false} InFrontOf(pending: Pending, id: StfId, before: seq<seq<StfInfo>>, more: seq<seq<StfInfo>>, entry: seq<StfInfo>,
                                     ids: seq<StfId>)
    requires Ascending(ids) && forall k :: k in ids <==> k in pending && k < id
    requires |more| == |ids| + 1 && more[|ids|] == entry
    requires forall i | 0 <= i < |ids| :: more[i] == EntryOf(pending, ids[i])
    ensures InFront(pending, id, before, before + more, entry)
  {
    hide Ascending;
    hide EntryOf;
  }

  lemma {:induction false} AllSnoc(b: Books, ids: seq<StfId>, id: StfId)
    ensures CompletedAll(b, ids + [id]) == Completed(CompletedAll(b, ids), id)
    ensures DroppedAll(b, ids + [id]) == Dropped(DroppedAll(b, ids), id)
    ensures VectorsOf(b.pending, ids + [id]) == VectorsOf(b.pending, ids) + [EntryOf(b.pending, id)]
  {
    assert (ids + [id])[..|ids|] == ids;
  }

  /** Completing an ascending run of ids queues each one's vector as it was, in that order. */
  lemma {:induction false} CompletedAllMeaning(b: Books, ids: seq<StfId>)
    requires Ascending(ids)
    ensures forall k :: k in CompletedAll(b, ids).pending <==> k in b.pending && k !in ids
    ensures forall k | k in CompletedAll(b, ids).pending :: CompletedAll(b, ids).pending[k] == b.pending[k]
    ensures CompletedAll(b, ids).history.completed == b.history.completed + VectorsOf(b.pending, ids)
    decreases |ids|
  {
    hide CompletedAll;
    hide VectorsOf;
    AllNone(b);
    if ids != [] {
      var n := |ids| - 1;
      CompletedAllMeaning(b, ids[..n]);
      AllSnoc(b, ids[..n], ids[n]);
      assert ids[n] !in ids[..n];
      assert ids == ids[..n] + [ids[n]];
      assert EntryOf(CompletedAll(b, ids[..n]).pending, ids[n]) == EntryOf(b.pending, ids[n]);
    }
  }

  ghost function KeysBelow(pending: Pending, id: nat): set<StfId> {
    set k | k in pending && k < id
  }

  /** What accepting an update leads to: when its entry is complete, all up to it leave. */
  ghost function Settled(b: Books, u: StfInfo, senders: nat): Books {
    var e := Entered(b, u);
    if Completes(b, u, senders) then CompletedAll(e, Leaving(e.pending, u.stfId)) else e
  }

  /** The vectors that leave when an update is accepted. */
  ghost function QueuedBy(b: Books, u: StfInfo, senders: nat): seq<seq<StfInfo>> {
    var p := Append(b.pending, u);
    if Completes(b, u, senders) then VectorsOf(p, Leaving(p, u.stfId)) else []
  }

  ghost predicate Completes(b: Books, u: StfInfo, senders: nat) {
    |Append(b.pending, u)[u.stfId]| == senders
  }

  ghost predicate Reported(b: Books, id: StfId) {
    id in b.dropped.events || id in b.built.events
  }

  /** The pending ids below `id`, ascending, and then `id`. */
  ghost function Leaving(pending: Pending, id: StfId): (r: seq<StfId>)
    ensures Ascending(r)
    ensures forall k :: k in r <==> k == id || k in KeysBelow(pending, id)
  {
    var below := InOrder(KeysBelow(pending, id));
    assert forall k | k in below :: k in KeysBelow(pending, id);
    AscendingMore(below, id);
    below + [id]
  }

  function InOrder(ids: set<StfId>): (r: seq<StfId>)
    ensures Ascending(r)
    ensures forall k :: k in r <==> k in ids
  {
    var keys := SortedKeys(ids);
    assert forall i | 0 <= i < |keys| :: keys[i] in keys;
    keys
  }

  /** The completion of a time frame leaves only larger ids pending. */
  lemma {:induction false} CompletionFlushes(b: Books, u: StfInfo, senders: nat)
    requires |EntryOf(b.pending, u.stfId)| == senders - 1
    ensures forall k :: k in Settled(b, u, senders).pending <==> k in b.pending && u.stfId < k
    ensures forall k | k in Settled(b, u, senders).pending :: Settled(b, u, senders).pending[k] == b.pending[k]
    ensures Settled(b, u, senders).history.completed
         == b.history.completed + VectorsOf(Append(b.pending, u), Leaving(Append(b.pending, u), u.stfId))
  {
    var e := Entered(b, u);
    CompletedAllMeaning(e, Leaving(e.pending, u.stfId));
  }

  // ------------------------------------------------------------------ the flush, step by step

  /** `left` went, in order, from the front of what was pending, and stays below `id`. */
  ghost predicate FrontOf(pending: Pending, rest: Pending, id: StfId, left: seq<StfId>) {
    && Ascending(left)
    && (forall l | l in left :: l in pending && l < id)
    && (forall k, l | k in rest && l in left :: l < k)
  }

  ghost predicate FrontLeft(b: Books, id: StfId, left: seq<StfId>) {
    FrontOf(b.pending, CompletedAll(b, left).pending, id, left)
  }

  lemma {:induction false} FrontMore(pending: Pending, rest: Pending, id: StfId, left: seq<StfId>, least: StfId)
    requires FrontOf(pending, rest, id, left)
    requires least in rest && least in pending && least < id && forall k | k in rest :: least <= k
    ensures FrontOf(pending, rest - {least}, id, left + [least])
  {
    hide Ascending;
    AscendingMore(left, least);
    assert forall l :: l in left + [least] <==> l in left || l == least;
  }

  lemma {:induction false} FlushStarts(b: Books, id: StfId)
    ensures FrontLeft(b, id, []) && CompletedAll(b, []) == b && VectorsOf(b.pending, []) == []
  {
  }

  lemma {:induction false} FlushMore(b: Books, id: StfId, left: seq<StfId>, least: StfId)
    requires FrontLeft(b, id, left)
    requires least in CompletedAll(b, left).pending && least < id
    requires forall k | k in CompletedAll(b, left).pending :: least <= k
    ensures FrontLeft(b, id, left + [least])
    ensures EntryOf(CompletedAll(b, left).pending, least) == EntryOf(b.pending, least)
  {
    hide CompletedAll;
    hide Ascending;
    AllSnoc(b, left, least);
    StillThere(b, left, least);
    FrontMore(b.pending, CompletedAll(b, left).pending, id, left, least);
  }

  /** What has not left yet is as it was. */
  lemma {:induction false} StillThere(b: Books, left: seq<StfId>, id: StfId)
    requires Ascending(left) && id in CompletedAll(b, left).pending
    ensures id in b.pending && id !in left && CompletedAll(b, left).pending[id] == b.pending[id]
  {
    hide CompletedAll;
    hide Ascending;
    CompletedAllMeaning(b, left);
  }

  lemma {:induction false} FlushEnds(b: Books, id: StfId, left: seq<StfId>)
    requires FrontLeft(b, id, left) && id in b.pending
    requires forall k | k in CompletedAll(b, left).pending :: id <= k
    ensures left + [id] == Leaving(b.pending, id)
    ensures EntryOf(CompletedAll(b, left).pending, id) == EntryOf(b.pending, id)
  {
    hide CompletedAll;
    hide Ascending;
    CompletedAllMeaning(b, left);
    AscendingMore(left, id);
    assert forall k | k in b.pending && k !in left :: k in CompletedAll(b, left).pending;
    AscendingUnique(left + [id], Leaving(b.pending, id));
  }

  lemma {:induction false} FlushLeaves(b: Books, id: StfId)
    ensures forall k | k in CompletedAll(b, Leaving(b.pending, id)).pending ::
      k in b.pending && k > id && CompletedAll(b, Leaving(b.pending, id)).pending[k] == b.pending[k]
  {
    hide CompletedAll;
    CompletedAllMeaning(b, Leaving(b.pending, id));
  }

  lemma {:induction false} AllNone(b: Books)
    ensures CompletedAll(b, []) == b && DroppedAll(b, []) == b && VectorsOf(b.pending, []) == []
  {
  }

  lemma {:induction false} CompletedAllNext(b: Books, ids: seq<StfId>, i: nat)
    requires Ascending(ids) && i < |ids| && ids[i] in b.pending
    ensures ids[i] in CompletedAll(b, ids[..i]).pending
    ensures CompletedAll(b, ids[..i]).pending[ids[i]] == b.pending[ids[i]]
  {
    CompletedAllMeaning(b, ids[..i]);
  }

  lemma {:induction false} NoneEmpty(b: Books, senders: nat)
    requires Consistent(b, senders)
    ensures forall k | k in b.pending :: b.pending[k] != []
  {
  }

  lemma {:induction false} DroppedAllMeaning(b: Books, ids: seq<StfId>)
    ensures forall k :: k in DroppedAll(b, ids).pending <==> k in b.pending && k !in ids
    ensures forall k | k in DroppedAll(b, ids).pending :: DroppedAll(b, ids).pending[k] == b.pending[k]
    ensures DroppedAll(b, ids).history.dropped == b.history.dropped + ids
    ensures DroppedAll(b, ids).history.completed == b.history.completed
    decreases |ids|
  {
    if ids != [] {
      var n := |ids| - 1;
      DroppedAllMeaning(b, ids[..n]);
      assert ids == ids[..n] + [ids[n]];
    }
  }

  lemma {:induction false} DroppedAllNext(b: Books, ids: seq<StfId>, i: nat, senders: nat)
    requires Ascending(ids) && i < |ids| && ids[i] in b.pending
    requires Consistent(DroppedAll(b, ids[..i]), senders)
    ensures ids[i] !in DroppedAll(b, ids[..i]).dropped.events
  {
    hide DroppedAll;
    DroppedAllMeaning(b, ids[..i]);
  }

  // ---------------------------------------------------------------- a time frame that leaves alone

  /** When nothing smaller is pending, only the completed time frame leaves. */
  lemma {:induction false} LeavesAlone(b: Books, u: StfInfo, senders: nat)
    requires Completes(b, u, senders)
    requires forall k | k in b.pending :: u.stfId <= k
    ensures Settled(b, u, senders) == Completed(Entered(b, u), u.stfId)
  {
    var e := Entered(b, u);
    AscendingUnique(Leaving(e.pending, u.stfId), [u.stfId]);
    AllSnoc(e, [], u.stfId);
    assert [] + [u.stfId] == [u.stfId];
    AllNone(e);
  }

  lemma {:induction false} FirstOfTwo(b: Books, u: StfInfo)
    requires b.pending == map[]
    ensures
      var c := Settled(b, u, 2);
      && !Completes(b, u, 2)
      && c.pending == map[u.stfId := [u]] && c.dropped == b.dropped && c.built == b.built
  {
    assert EntryOf(b.pending, u.stfId) + [u] == [u];
  }

  /** The last of its senders announces a time frame, and nothing else is pending. */
  lemma {:induction false} LastEntered(b: Books, u: StfInfo, senders: nat)
    requires b.pending.Keys <= {u.stfId} && |EntryOf(b.pending, u.stfId)| == senders - 1
    requires forall w | w in EntryOf(b.pending, u.stfId) :: w.stfId == u.stfId
    ensures
      var c := Settled(b, u, senders);
      && Completes(b, u, senders)
      && c.pending == map[] && c.dropped == b.dropped && c.built == b.built.Add(u.stfId)
      && Ids(c.history.completed) == Ids(b.history.completed) + [u.stfId]
  {
    hide CompletedAll;
    hide Leaving;
    LeavesAlone(b, u, senders);
    var v := EntryOf(b.pending, u.stfId) + [u];
    assert v[0] in v;
    Snoc(b.history.completed, v);
  }

  /** Two senders: 5 completes, and 3 is announced late by one of them. */
  lemma {:induction false} LateUpdateBooks(a5: StfInfo, b5: StfInfo, a3: StfInfo)
    requires a5.stfId == b5.stfId == 5 && a3.stfId == 3
    ensures
      var b1 := Settled(NO_BOOKS, a5, 2);
      var b2 := Settled(b1, b5, 2);
      var b3 := Settled(b2, a3, 2);
      && !Reported(NO_BOOKS, 5) && !Reported(b1, 5) && !Reported(b2, 3)
      && !Completes(NO_BOOKS, a5, 2) && Completes(b1, b5, 2) && !Completes(b2, a3, 2)
      && 5 in b1.pending && b3.pending == map[3 := [a3]]
  {
    hide Settled;
    hide Completes;
    var b1 := Settled(NO_BOOKS, a5, 2);
    FirstOfTwo(NO_BOOKS, a5);
    LastEntered(b1, b5, 2);
    FirstOfTwo(Settled(b1, b5, 2), a3);
  }
}
