/**
 Whole runs of the scheduler's bookkeeping: every sequence of announcements, cleanups and drops,
 and which ids can be queued as complete more than once in a run.
*/
module StfRuns {
  import opened Wrappers
  import opened Collections
  import opened EventRecords
  import opened StfLedger
  import opened StfScheduler

  /** The books, and the largest id accepted so far. */
  datatype State = State(books: Books, last: nat)

  const RUN_START := State(NO_BOOKS, 0)

  datatype Event =
    | Announced(u: StfUpdate, running: bool, sendersOk: bool, now: int)
    | CleanedUp(stale: seq<StfId>, now: int, timeoutMs: int)
    | GaveUp(id: StfId)

  ghost function Answer(s: State, u: StfUpdate, running: bool, sendersOk: bool): Status {
    Verdict(u, running, sendersOk, u.stfId in s.books.dropped.events, u.stfId in s.books.built.events,
            s.last, u.stfId in s.books.pending)
  }

  ghost function Step(s: State, e: Event, senders: nat): State {
    match e
    case Announced(u, running, sendersOk, now) =>
      if Answer(s, u, running, sendersOk) == OK then
        State(Settled(s.books, u.Info(now), senders), Max(s.last, u.stfId))
      else if Reported(s.books, u.stfId) then s
      else State(Dropped(s.books, u.stfId), s.last)
    case CleanedUp(stale, _, _) => State(CompletedAll(s.books, stale), s.last)
    case GaveUp(id) => State(Dropped(s.books, id), s.last)
  }

  /** A cleanup takes the stale front of what is pending; any id may be given up. */
  ghost predicate Possible(s: State, e: Event) {
    e.CleanedUp? ==>
      StaleFront(s.books.pending, e.now, e.timeoutMs, e.stale) && Ascending(e.stale) && forall k | k in e.stale :: k in s.books.pending
  }

  ghost function After(es: seq<Event>, senders: nat): State {
    if es == [] then RUN_START else Step(After(es[..|es| - 1], senders), es[|es| - 1], senders)
  }

  ghost predicate Run(es: seq<Event>, senders: nat) {
    es == [] || (Run(es[..|es| - 1], senders) && Possible(After(es[..|es| - 1], senders), es[|es| - 1]))
  }

  /** What the scheduler's method does with an update of the current run is the step. */
  lemma {:induction false} JudgedIsStep(s: Scheduler, b: Books, last: nat, max: nat, drops: seq<StfId>, queue: seq<seq<StfInfo>>,
                                        u: StfUpdate, running: bool, sendersOk: bool, now: int, status: Status)
    requires s.Judged(b, last, max, drops, queue, u, running, sendersOk, now, status)
    ensures status == Answer(State(b, last), u, running, sendersOk)
    ensures State(s.TheBooks(), s.lastStfId) == Step(State(b, last), Announced(u, running, sendersOk, now), s.numStfSenders)
  {
  }

  /** What it does in a stale cleanup is the step. */
  lemma {:induction false} CleanedUpIsStep(b: Books, last: nat, stale: seq<StfId>, now: int, timeoutMs: int, senders: nat)
    requires StaleFront(b.pending, now, timeoutMs, stale) && Ascending(stale)
    ensures Possible(State(b, last), CleanedUp(stale, now, timeoutMs))
    ensures State(CompletedAll(b, stale), last) == Step(State(b, last), CleanedUp(stale, now, timeoutMs), senders)
  {
  }

  ghost function AllGaveUp(ids: seq<StfId>): seq<Event> {
    seq(|ids|, i requires 0 <= i < |ids| => GaveUp(ids[i]))
  }

  /** What it does when it drops several time frames is one step for each. */
  lemma {:induction false} DropsAreSteps(es: seq<Event>, ids: seq<StfId>, senders: nat)
    requires Run(es, senders)
    ensures Run(es + AllGaveUp(ids), senders)
    ensures After(es + AllGaveUp(ids), senders) == State(DroppedAll(After(es, senders).books, ids), After(es, senders).last)
    decreases |ids|
  {
    hide After;
    hide Run;
    hide Dropped;
    if ids == [] {
      assert es + AllGaveUp(ids) == es;
    } else {
      var n := |ids| - 1;
      DropsAreSteps(es, ids[..n], senders);
      RunMore(es + AllGaveUp(ids[..n]), GaveUp(ids[n]), senders);
      assert es + AllGaveUp(ids) == es + AllGaveUp(ids[..n]) + [GaveUp(ids[n])];
    }
  }

  lemma {:induction false} RunMore(es: seq<Event>, e: Event, senders: nat)
    requires Run(es, senders) && Possible(After(es, senders), e)
    ensures Run(es + [e], senders) && After(es + [e], senders) == Step(After(es, senders), e, senders)
  {
    assert (es + [e])[..|es|] == es;
  }

  // ------------------------------------------------------------- the threads of the scheduler

  /** One section under the lock, with what it depends on. */
  datatype Section =
    | Announcement(u: StfUpdate, running: bool, sendersOk: bool, now: int)
    | StaleStfs(now: int, timeoutMs: int)
    | Watermark(toFree: Option<string>, now: int)
    | Scheduling(buildIncomplete: bool, outcome: BuildOutcome)
    | Dropping

  /** The scheduler's state is that after this run. */
  ghost predicate Follows(s: Scheduler, es: seq<Event>)
    reads s, s.droppedStfs, s.builtTfs
  {
    s.Valid() && Run(es, s.numStfSenders) && State(s.TheBooks(), s.lastStfId) == After(es, s.numStfSenders)
  }

  /** What a section adds to the run; an announcement of a newer run begins that run. */
  ghost predicate Adds(x: Section, current: nat, es: seq<Event>, run: seq<Event>) {
    match x
    case Announcement(u, running, sendersOk, now) =>
      var e := Announced(u, running, sendersOk, now);
      run == if u.runNumber < current then es else if u.runNumber == current then es + [e] else [e]
    case StaleStfs(now, timeoutMs) => exists stale :: run == es + [CleanedUp(stale, now, timeoutMs)]
    case Watermark(toFree, _) => exists ids :: run == es + AllGaveUp(ids) && (toFree.None? ==> ids == [])
    case Scheduling(_, _) => run == es || exists id :: run == es + [GaveUp(id)]
    case Dropping => run == es
  }

  method TakeAnnouncement(s: Scheduler, u: StfUpdate, running: bool, sendersOk: bool, now: int, ghost es: seq<Event>)
    returns (ghost run: seq<Event>)
    requires Follows(s, es)
    modifies s, s.droppedStfs, s.builtTfs
    ensures Follows(s, run) && Adds(Announcement(u, running, sendersOk, now), old(s.runNumber), es, run)
  {
    hide Consistent;
    hide Step;
    hide After;
    hide Run;
    hide Scheduler.Judged;
    ghost var b, last, max, drops, queue := s.TheBooks(), s.lastStfId, s.maxCompletedTfId, s.dropQueue, s.completeQueue;
    ghost var current, e := s.runNumber, Announced(u, running, sendersOk, now);
    run := es;
    var status := s.AddStfInfo(u, running, sendersOk, now);
    if u.runNumber >= current {
      if u.runNumber > current {
        StartsEmpty(s.numStfSenders);
        run, b, last, max := [], NO_BOOKS, 0, 0;
      }
      RunMore(run, e, s.numStfSenders);
      JudgedIsStep(s, b, last, max, drops, queue, u, running, sendersOk, now, status);
      assert [] + [e] == [e];
      run := run + [e];
    }
  }

  /** Every section adds steps to the run, or begins a new one. */
  method TakeSection(s: Scheduler, x: Section, ghost es: seq<Event>) returns (ghost run: seq<Event>)
    requires Follows(s, es)
    modifies s, s.droppedStfs, s.builtTfs
    ensures Follows(s, run) && Adds(x, old(s.runNumber), es, run)
  {
    hide Consistent;
    hide Step;
    hide After;
    hide Run;
    hide CompletedAll;
    hide DroppedAll;
    hide Dropped;
    run := es;
    match x
    case Announcement(u, running, sendersOk, now) =>
      run := TakeAnnouncement(s, u, running, sendersOk, now, es);
    case StaleStfs(now, timeoutMs) =>
      ghost var b := s.TheBooks();
      var stale, _ := s.StaleCleanup(now, timeoutMs);
      CleanedUpIsStep(b, s.lastStfId, stale, now, timeoutMs, s.numStfSenders);
      RunMore(es, CleanedUp(stale, now, timeoutMs), s.numStfSenders);
      run := es + [CleanedUp(stale, now, timeoutMs)];
    case Watermark(toFree, now) =>
      var ids, _ := s.HighWatermark(toFree, now);
      DropsAreSteps(es, ids, s.numStfSenders);
      run := es + AllGaveUp(ids);
    case Scheduling(buildIncomplete, outcome) =>
      if s.completeQueue != [] { run := TakeScheduling(s, buildIncomplete, outcome, es); }
    case Dropping =>
      if s.dropQueue != [] { var _, _ := s.DropNext(); }
  }

  method TakeScheduling(s: Scheduler, buildIncomplete: bool, outcome: BuildOutcome, ghost es: seq<Event>) returns (ghost run: seq<Event>)
    requires Follows(s, es) && s.completeQueue != []
    modifies s, s.droppedStfs, s.builtTfs
    ensures Follows(s, run)
    ensures run == es || run == es + [GaveUp(Id(old(s.completeQueue[0])))]
  {
    hide Consistent;
    hide After;
    hide Run;
    hide Dropped;
    hide BuildRequest.IsFor;
    ghost var b := s.TheBooks();
    var tfId, _ := s.ScheduleNext(buildIncomplete, outcome);
    run := es;
    if s.TheBooks() != b {
      RunMore(es, GaveUp(tfId), s.numStfSenders);
      run := es + [GaveUp(tfId)];
    }
  }

  /** In whatever order the threads take the lock, the state is that after some run. */
  method TakeSections(s: Scheduler, xs: seq<Section>) returns (ghost es: seq<Event>)
    requires Follows(s, [])
    modifies s, s.droppedStfs, s.builtTfs
    ensures Follows(s, es) && Kept(State(s.TheBooks(), s.lastStfId), s.numStfSenders)
  {
    hide Consistent;
    hide Run;
    hide After;
    es := [];
    for i := 0 to |xs|
      invariant Follows(s, es)
    {
      es := TakeSection(s, xs[i], es);
    }
    RunKeeps(es, s.numStfSenders);
  }

  // --------------------------------------------------------------- what every run keeps

  /** What is pending was accepted lately enough: not far below the recorder's floor, if there is one. */
  ghost predicate Lately(b: Books, last: nat) {
    && (forall k | k in b.pending :: k <= last)
    && (b.built.floor.Some? ==>
          && b.built.floor.value <= last
          && (forall k | k in b.pending :: MinAccept(b.built.floor.value) <= k)
          && (forall k | k in Ids(b.history.completed) :: MinAccept(b.built.floor.value) <= k))
  }

  ghost predicate Kept(s: State, senders: nat) {
    senders > 0 && Consistent(s.books, senders) && Incomplete(s.books.pending, senders) && Lately(s.books, s.last)
  }

  ghost predicate Takes(pending: Pending, ids: seq<StfId>) {
    Ascending(ids) && forall k | k in ids :: k in pending
  }

  lemma {:induction false} CompletedAllConsistent(b: Books, ids: seq<StfId>, senders: nat)
    requires Consistent(b, senders) && Takes(b.pending, ids)
    ensures Consistent(CompletedAll(b, ids), senders)
    decreases |ids|
  {
    hide Consistent;
    hide Completed;
    if ids != [] {
      var n := |ids| - 1;
      assert ids == ids[..n] + [ids[n]];
      CompletedAllConsistent(b, ids[..n], senders);
      CompletedAllNext(b, ids, n);
      CompletedConsistent(CompletedAll(b, ids[..n]), ids[n], senders);
    }
  }

  /** The floor is set by the first id that is queued, and stays. */
  lemma {:induction false} FloorAfter(b: Books, ids: seq<StfId>, senders: nat)
    requires Consistent(b, senders) && Takes(b.pending, ids)
    ensures CompletedAll(b, ids).built.floor == if b.built.floor.Some? || ids == [] then b.built.floor else Some(ids[0])
    ensures Ids(CompletedAll(b, ids).history.completed) == Ids(b.history.completed) + ids
    decreases |ids|
  {
    hide Consistent;
    hide Completed;
    hide Ids;
    if ids != [] {
      var n := |ids| - 1;
      assert ids == ids[..n] + [ids[n]];
      FloorAfter(b, ids[..n], senders);
      CompletedAllConsistent(b, ids[..n], senders);
      CompletedAllNext(b, ids, n);
      FloorOne(CompletedAll(b, ids[..n]), ids[n], senders);
      assert Ids(b.history.completed) + ids == (Ids(b.history.completed) + ids[..n]) + [ids[n]];
    }
  }

  lemma {:induction false} FloorOne(b: Books, id: StfId, senders: nat)
    requires Consistent(b, senders) && id in b.pending
    ensures Completed(b, id).built.floor == if b.built.floor.Some? then b.built.floor else Some(id)
    ensures Ids(Completed(b, id).history.completed) == Ids(b.history.completed) + [id]
  {
    hide Consistent;
    EntryHasId(b, id, senders);
    Snoc(b.history.completed, b.pending[id]);
  }

  /** Without a floor nothing was queued. */
  lemma {:induction false} NoFloor(b: Books, senders: nat)
    requires Consistent(b, senders) && b.built.floor.None?
    ensures Ids(b.history.completed) == []
  {
    Remembered(Ids(b.history.completed));
  }

  lemma {:induction false} EntryHasId(b: Books, id: StfId, senders: nat)
    requires Consistent(b, senders) && id in b.pending
    ensures b.pending[id] != [] && Id(b.pending[id]) == id
  {
    assert TimeFrame(b.pending[id], id, senders);
    assert b.pending[id][0] in b.pending[id];
  }

  /** Queuing from the front keeps the floor close to all that is left and all that left. */
  lemma {:induction false} QueuedLately(b: Books, ids: seq<StfId>, last: nat, senders: nat)
    requires Consistent(b, senders) && Lately(b, last) && Takes(b.pending, ids)
    requires ids != [] ==> forall k | k in b.pending :: ids[0] <= k
    ensures Lately(CompletedAll(b, ids), last)
  {
    hide Consistent;
    hide Ascending;
    hide CompletedAll;
    hide Ids;
    FloorAfter(b, ids, senders);
    CompletedAllMeaning(b, ids);
    if b.built.floor.None? { NoFloor(b, senders); }
    assert ids != [] ==> ids[0] in ids;
  }

  lemma {:induction false} AnnouncedKeeps(s: State, u: StfInfo, senders: nat)
    requires Kept(s, senders) && !Reported(s.books, u.stfId)
    requires MinAccept(s.last) <= u.stfId || u.stfId in s.books.pending
    ensures Kept(State(Settled(s.books, u, senders), Max(s.last, u.stfId)), senders)
  {
    hide Consistent;
    hide CompletedAll;
    hide Leaving;
    var e, id := Entered(s.books, u), u.stfId;
    EnteredConsistent(s.books, u, senders);
    assert Lately(e, Max(s.last, id));
    if Completes(s.books, u, senders) {
      var ids := Leaving(e.pending, id);
      FirstLeaves(e.pending, id, ids);
      CompletedAllConsistent(e, ids, senders);
      QueuedLately(e, ids, Max(s.last, id), senders);
      CompletedAllMeaning(e, ids);
      assert forall k | k in CompletedAll(e, ids).pending :: k in s.books.pending;
    }
  }

  lemma {:induction false} FirstLeaves(pending: Pending, id: StfId, ids: seq<StfId>)
    requires id in pending && ids == Leaving(pending, id)
    ensures Takes(pending, ids) && ids != [] && forall k | k in pending :: ids[0] <= k
  {
    hide Leaving;
    assert id in ids && ids[0] in ids;
    forall k | k in pending ensures ids[0] <= k {
      if k < id { assert k in ids; }
    }
  }

  lemma {:induction false} CleanedUpKeeps(s: State, e: Event, senders: nat)
    requires Kept(s, senders) && Possible(s, e) && e.CleanedUp?
    ensures Kept(Step(s, e, senders), senders)
  {
    hide Consistent;
    hide CompletedAll;
    hide Stale;
    var b, ids := s.books, e.stale;
    CompletedAllConsistent(b, ids, senders);
    CompletedAllMeaning(b, ids);
    if ids != [] {
      assert ids[0] in ids;
      forall k | k in b.pending ensures ids[0] <= k {
        if k in ids {
          var i :| 0 <= i < |ids| && ids[i] == k;
        }
      }
    }
    QueuedLately(b, ids, s.last, senders);
  }

  lemma {:induction false} GaveUpKeeps(s: State, id: StfId, senders: nat)
    requires Kept(s, senders)
    ensures Kept(State(Dropped(s.books, id), s.last), senders)
  {
    hide Consistent;
    DroppedConsistent(s.books, id, senders);
  }

  lemma {:induction false} StepKeeps(s: State, e: Event, senders: nat)
    requires Kept(s, senders) && Possible(s, e)
    ensures Kept(Step(s, e, senders), senders)
  {
    hide Kept;
    hide Settled;
    hide Dropped;
    hide Possible;
    match e
    case Announced(u, running, sendersOk, now) =>
      if Answer(s, u, running, sendersOk) == OK {
        AnnouncedKeeps(s, u.Info(now), senders);
      } else if !Reported(s.books, u.stfId) {
        GaveUpKeeps(s, u.stfId, senders);
      }
    case CleanedUp(_, _, _) => CleanedUpKeeps(s, e, senders);
    case GaveUp(id) => GaveUpKeeps(s, id, senders);
  }

  /** Every run keeps the books consistent. */
  lemma {:induction false} RunKeeps(es: seq<Event>, senders: nat)
    requires senders > 0 && Run(es, senders)
    ensures Kept(After(es, senders), senders)
    decreases |es|
  {
    hide Step;
    if es == [] {
      StartConsistent(senders);
    } else {
      RunKeeps(es[..|es| - 1], senders);
      StepKeeps(After(es[..|es| - 1], senders), es[|es| - 1], senders);
    }
  }

  // ------------------------------------------------------------------- what was accepted

  /** An announcement of this update while the scheduler could take it. */
  ghost predicate Admits(e: Event, v: StfInfo) {
    && e.Announced? && e.running && e.sendersOk && e.u.stfsInfo.bufferUsed <= e.u.stfsInfo.bufferSize * 97 / 100
    && v == StfInfo(e.now, e.u.sender, e.u.stfId, e.u.stfSize)
  }

  ghost function Admissions(es: seq<Event>, v: StfInfo): set<nat> {
    set k | 0 <= k < |es| && Admits(es[k], v)
  }

  lemma {:induction false} StepAccepts(s: State, e: Event, senders: nat, v: StfInfo)
    requires Possible(s, e) && Kept(s, senders)
    ensures Step(s, e, senders).books.history.accepted[v] <= s.books.history.accepted[v] + if Admits(e, v) then 1 else 0
  {
    hide CompletedAll;
    hide Settled;
    hide Consistent;
    hide Lately;
    match e
    case Announced(u, running, sendersOk, now) =>
      if Answer(s, u, running, sendersOk) == OK { SettledMeans(s.books, u.Info(now), senders, []); }
    case CleanedUp(stale, _, _) => AcceptedStays(s.books, stale);
    case GaveUp(id) =>
  }

  /**
   In any run, an update was accepted at most as often as it was announced while the scheduler was
   running, all senders were there, and the sender's buffer was not over the limit.
  */
  lemma {:induction false} AcceptedWasAdmissible(es: seq<Event>, senders: nat, v: StfInfo)
    requires senders > 0 && Run(es, senders)
    ensures After(es, senders).books.history.accepted[v] <= |Admissions(es, v)|
    decreases |es|
  {
    hide Step;
    hide Kept;
    hide Admits;
    if es != [] {
      var n := |es| - 1;
      AcceptedWasAdmissible(es[..n], senders, v);
      RunKeeps(es[..n], senders);
      StepAccepts(After(es[..n], senders), es[n], senders, v);
      assert Admissions(es, v) == Admissions(es[..n], v) + if Admits(es[n], v) then {n} else {};
    }
  }

  // ------------------------------------------------------------- announcing by all senders

  /** All senders announce the id, one after the other. */
  ghost function AllAnnounce(names: seq<string>, id: StfId): seq<Event> {
    seq(|names|, i requires 0 <= i < |names| => Announced(StfUpdate(1, id, 0, names[i], SenderInfo(0, 0)), true, true, 0))
  }

  ghost function Continue(s: State, es: seq<Event>, senders: nat): State {
    if es == [] then s else Step(Continue(s, es[..|es| - 1], senders), es[|es| - 1], senders)
  }

  lemma {:induction false} AfterMore(es: seq<Event>, more: seq<Event>, senders: nat)
    requires Run(es, senders) && forall e | e in more :: e.Announced?
    ensures Run(es + more, senders) && After(es + more, senders) == Continue(After(es, senders), more, senders)
    decreases |more|
  {
    hide Step;
    if more == [] {
      assert es + more == es;
    } else {
      var n := |more| - 1;
      AfterMore(es, more[..n], senders);
      assert (es + more)[..|es| + n] == es + more[..n];
      assert more[n] in more;
    }
  }

  /** Nothing is pending, and this id may be announced. */
  ghost predicate OpenFor(s: State, id: StfId) {
    s.books.pending == map[] && !Reported(s.books, id) && MinAccept(s.last) <= id
  }

  ghost predicate Waiting(s: State, t: State, id: StfId, n: nat) {
    && t.books.dropped == s.books.dropped && t.books.built == s.books.built
    && t.books.history.completed == s.books.history.completed
    && t.last == (if n == 0 then s.last else Max(s.last, id))
    && (if n == 0 then t.books.pending == map[] else t.books.pending.Keys == {id} && |t.books.pending[id]| == n)
    && (id in t.books.pending ==> forall u | u in t.books.pending[id] :: u.stfId == id)
  }

  lemma {:induction false} SomeAnnounced(s: State, names: seq<string>, id: StfId, n: nat)
    requires OpenFor(s, id) && n < |names|
    ensures Waiting(s, Continue(s, AllAnnounce(names, id)[..n], |names|), id, n)
    decreases n
  {
    var es := AllAnnounce(names, id);
    if n > 0 {
      SomeAnnounced(s, names, id, n - 1);
      assert es[..n][..n - 1] == es[..n - 1] && es[..n][n - 1] == es[n - 1];
      OneAnnounced(s, Continue(s, es[..n - 1], |names|), names, id, n - 1);
    }
  }

  lemma {:induction false} OneAnnounced(s: State, t: State, names: seq<string>, id: StfId, n: nat)
    requires OpenFor(s, id) && n + 1 < |names| && Waiting(s, t, id, n)
    ensures Waiting(s, Step(t, AllAnnounce(names, id)[n], |names|), id, n + 1)
  {
    hide CompletedAll;
    hide Leaving;
  }

  /** With the last of the announcements the id leaves, alone. */
  lemma {:induction false} AllAnnounced(s: State, names: seq<string>, id: StfId)
    requires OpenFor(s, id) && names != []
    ensures
      var t := Continue(s, AllAnnounce(names, id), |names|);
      && t.books.pending == map[] && t.last == Max(s.last, id)
      && t.books.dropped == s.books.dropped && t.books.built == s.books.built.Add(id)
      && Ids(t.books.history.completed) == Ids(s.books.history.completed) + [id]
  {
    var es, n := AllAnnounce(names, id), |names| - 1;
    SomeAnnounced(s, names, id, n);
    LastAnnounced(s, Continue(s, es[..n], |names|), names, id);
  }

  lemma {:induction false} LastAnnounced(s: State, t: State, names: seq<string>, id: StfId)
    requires OpenFor(s, id) && names != [] && Waiting(s, t, id, |names| - 1)
    ensures
      var r := Step(t, AllAnnounce(names, id)[|names| - 1], |names|);
      && r.books.pending == map[] && r.last == Max(s.last, id)
      && r.books.dropped == s.books.dropped && r.books.built == s.books.built.Add(id)
      && Ids(r.books.history.completed) == Ids(s.books.history.completed) + [id]
  {
    hide CompletedAll;
    hide Leaving;
    var e := AllAnnounce(names, id)[|names| - 1];
    assert Answer(t, e.u, true, true) == OK;
    LastEntered(t.books, e.u.Info(0), |names|);
  }

  // ----------------------------------------------------------------- queued more than once

  ghost predicate QueuedTwice(es: seq<Event>, floor: StfId, id: StfId, senders: nat) {
    && Run(es, senders)
    && After(es, senders).books.built.floor == Some(floor)
    && multiset(Ids(After(es, senders).books.history.completed))[id] > 1
  }

  lemma {:induction false} TwiceIsBelow(es: seq<Event>, floor: StfId, id: StfId, senders: nat)
    requires senders > 0 && QueuedTwice(es, floor, id, senders)
    ensures MinAccept(floor) <= id < floor
  {
    RunKeeps(es, senders);
    var b := After(es, senders).books;
    TwicePlaces(Ids(b.history.completed), id);
    var i, j :| 0 <= i < j < |b.history.completed| && Ids(b.history.completed)[i] == id && Ids(b.history.completed)[j] == id;
    AtMostOnce(b, senders, i, j);
    assert id in Ids(b.history.completed);
  }

  /** All senders announce `floor`, and then twice `id`. */
  lemma {:induction false} BelowIsTwice(names: seq<string>, floor: StfId, id: StfId)
    requires names != [] && MinAccept(floor) <= id < floor
    ensures
      var es := AllAnnounce(names, floor) + AllAnnounce(names, id) + AllAnnounce(names, id);
      QueuedTwice(es, floor, id, |names|) && Ids(After(es, |names|).books.history.completed) == [floor, id, id]
  {
    hide Step;
    hide Continue;
    hide AllAnnounce;
    hide After;
    hide Run;
    hide Ids;
    StartsEmpty(|names|);
    var n, one, two := |names|, AllAnnounce(names, floor), AllAnnounce(names, id);
    AllAnnounced(RUN_START, names, floor);
    var s1 := Continue(RUN_START, one, n);
    AllAnnounced(s1, names, id);
    var s2 := Continue(s1, two, n);
    AllAnnounced(s2, names, id);
    OnlyAnnounced(names, floor);
    OnlyAnnounced(names, id);
    AfterMore([], one, n);
    AfterMore([] + one, two, n);
    AfterMore([] + one + two, two, n);
    assert [] + one + two + two == one + two + two;
    assert multiset([floor, id, id])[id] > 1;
  }

  lemma {:induction false} OnlyAnnounced(names: seq<string>, id: StfId)
    ensures forall e | e in AllAnnounce(names, id) :: e.Announced?
  {
  }

  lemma {:induction false} StartsEmpty(senders: nat)
    ensures Run([], senders) && After([], senders) == RUN_START && Ids(NO_HISTORY.completed) == []
  {
  }

  /**
   In some run whose first queued id is `floor`, an id is queued as complete more than once, if
   and only if it is below that floor and still within the range that is accepted.
  */
  lemma {:induction false} QueuedTwiceExactly(names: seq<string>, floor: StfId, id: StfId)
    requires names != []
    ensures (exists es :: QueuedTwice(es, floor, id, |names|)) <==> MinAccept(floor) <= id < floor
  {
    hide QueuedTwice;
    forall es | QueuedTwice(es, floor, id, |names|) ensures MinAccept(floor) <= id < floor {
      TwiceIsBelow(es, floor, id, |names|);
    }
    if MinAccept(floor) <= id < floor { BelowIsTwice(names, floor, id); }
  }

  // --------------------------------------------------------------- dropped, and pending again

  ghost predicate PendingAfterDrop(es: seq<Event>, floor: StfId, id: StfId, senders: nat) {
    && Run(es, senders)
    && After(es, senders).books.dropped.floor == Some(floor)
    && id in After(es, senders).books.history.dropped && id in After(es, senders).books.pending
  }

  ghost function OneAnnounces(id: StfId, sendersOk: bool): Event {
    Announced(StfUpdate(1, id, 0, "a", SenderInfo(0, 0)), true, sendersOk, 0)
  }

  /** With one sender an id leaves as soon as it is announced. */
  lemma {:induction false} OneSenderWaitsForNone(es: seq<Event>)
    requires Run(es, 1)
    ensures After(es, 1).books.pending == map[]
  {
    RunKeeps(es, 1);
    var b := After(es, 1).books;
    NoneEmpty(b, 1);
    assert b.pending.Keys == {};
  }

  lemma {:induction false} AnnouncedWaits(es: seq<Event>, id: StfId, senders: nat)
    requires Run(es, senders) && senders >= 2
    requires var s := After(es, senders); s.books.pending == map[] && !Reported(s.books, id) && MinAccept(s.last) <= id
    ensures
      var t := After(es + [OneAnnounces(id, true)], senders);
      && Run(es + [OneAnnounces(id, true)], senders)
      && id in t.books.pending && t.books.dropped == After(es, senders).books.dropped
      && t.books.history.dropped == After(es, senders).books.history.dropped
  {
    hide After;
    hide Run;
    hide CompletedAll;
    hide Leaving;
    RunMore(es, OneAnnounces(id, true), senders);
  }

  /** An id that is announced without its senders being complete is dropped. */
  lemma {:induction false} AnnouncedIsDropped(es: seq<Event>, id: StfId, senders: nat)
    requires Run(es, senders) && !Reported(After(es, senders).books, id)
    ensures Run(es + [OneAnnounces(id, false)], senders)
    ensures After(es + [OneAnnounces(id, false)], senders) == State(Dropped(After(es, senders).books, id), After(es, senders).last)
  {
    hide After;
    hide Run;
    RunMore(es, OneAnnounces(id, false), senders);
  }

  /** `floor` and `id` are dropped, and then `id` is announced again. */
  lemma {:induction false} BelowIsPending(floor: StfId, id: StfId, senders: nat)
    requires id < floor && senders >= 2
    ensures PendingAfterDrop([OneAnnounces(floor, false), OneAnnounces(id, false), OneAnnounces(id, true)], floor, id, senders)
  {
    hide After;
    hide Run;
    hide OneAnnounces;
    StartsEmpty(senders);
    var a, b, c := OneAnnounces(floor, false), OneAnnounces(id, false), OneAnnounces(id, true);
    AnnouncedIsDropped([], floor, senders);
    AnnouncedIsDropped([] + [a], id, senders);
    AnnouncedWaits([] + [a] + [b], id, senders);
    assert [] + [a] + [b] + [c] == [a, b, c];
  }

  /**
   In some run whose first dropped id is `floor`, an id is pending that was dropped before, if and
   only if it is below that floor, and there is more than one sender.
  */
  lemma {:induction false} PendingAfterDropExactly(floor: StfId, id: StfId, senders: nat)
    requires senders > 0
    ensures (exists es :: PendingAfterDrop(es, floor, id, senders)) <==> id < floor && senders >= 2
  {
    hide After;
    hide Run;
    forall es | PendingAfterDrop(es, floor, id, senders) ensures id < floor && senders >= 2 {
      RunKeeps(es, senders);
      DroppedIsNotPending(After(es, senders).books, id, senders);
      if senders == 1 { OneSenderWaitsForNone(es); }
    }
    if id < floor && senders >= 2 { BelowIsPending(floor, id, senders); }
  }

  /**
   A new run knows nothing of earlier drops that still wait in the queue: any id may be pending
   in some run, if and only if there is more than one sender.
  */
  lemma {:induction false} AnyMayBePending(id: StfId, senders: nat)
    requires senders > 0
    ensures (exists es :: Run(es, senders) && id in After(es, senders).books.pending) <==> senders >= 2
  {
    hide After;
    hide Run;
    if senders == 1 {
      forall es | Run(es, senders) ensures After(es, senders).books.pending == map[] { OneSenderWaitsForNone(es); }
    } else {
      StartsEmpty(senders);
      AnnouncedWaits([], id, senders);
    }
  }
}
