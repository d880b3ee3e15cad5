/** The value side of a sender: where each sub-time-frame taken from the pipeline is. */
module StfOwnership {
  datatype Origin = Readout | ReadoutTopology | Null | Unknown

  /** `serial` tells sub-time-frames apart that carry the same id. */
  datatype Stf = Stf(serial: nat, id: nat, size: nat, origin: Origin, equipments: nat)

  datatype Sent = Sent(builder: string, stf: Stf)

  /** The announcing thread holds a new sub-time-frame, or waits for the scheduler's answer. */
  datatype Hand = Empty | Holding(stf: Stf) | Announcing(stf: Stf)

  datatype Places = Places(hand: Hand, scheduled: map<nat, Stf>, dropQueue: seq<Stf>, sent: seq<Sent>,
                           taken: seq<Stf>, deleted: seq<Stf>)

  const NOWHERE := Places(Empty, map[], [], [], [], [])

  ghost function HandCount(h: Hand, s: Stf): nat {
    if h.Holding? && h.stf == s then 1 else 0
  }

  ghost function ScheduledCount(scheduled: map<nat, Stf>, s: Stf): nat {
    if s.id in scheduled && scheduled[s.id] == s then 1 else 0
  }

  ghost function SentStfs(sent: seq<Sent>): multiset<Stf> {
    if sent == [] then multiset{} else SentStfs(sent[..|sent| - 1]) + multiset{sent[|sent| - 1].stf}
  }

  /** As often as it was taken, it is in one of the places. */
  ghost predicate Accounted(p: Places, s: Stf) {
    multiset(p.taken)[s]
    == HandCount(p.hand, s) + ScheduledCount(p.scheduled, s) + multiset(p.dropQueue)[s] + SentStfs(p.sent)[s] + multiset(p.deleted)[s]
  }

  ghost predicate Owned(p: Places) {
    && (forall s :: Accounted(p, s))
    && (forall id | id in p.scheduled :: p.scheduled[id].id == id)
    && (p.hand.Announcing? && p.hand.stf.id in p.scheduled ==> p.scheduled[p.hand.stf.id] == p.hand.stf)
  }

  // ------------------------------------------------------------------------------ the steps

  ghost function Took(p: Places, s: Stf): Places {
    p.(hand := Holding(s), taken := p.taken + [s])
  }

  /** What is not worth announcing, or carries an id that is scheduled, goes to the drop queue. */
  ghost function Triaged(p: Places, announce: bool): Places
    requires p.hand.Holding?
  {
    var s := p.hand.stf;
    if announce && s.id !in p.scheduled then p.(hand := Announcing(s), scheduled := p.scheduled[s.id := s])
    else p.(hand := Empty, dropQueue := p.dropQueue + [s])
  }

  ghost function Answered(p: Places, ok: bool): Places
    requires p.hand.Announcing?
  {
    var id := p.hand.stf.id;
    if !ok && id in p.scheduled
    then p.(hand := Empty, dropQueue := p.dropQueue + [p.scheduled[id]], scheduled := p.scheduled - {id})
    else p.(hand := Empty)
  }

  ghost function Discarded(p: Places, id: nat): Places
    requires id in p.scheduled
  {
    p.(dropQueue := p.dropQueue + [p.scheduled[id]], scheduled := p.scheduled - {id})
  }

  ghost function HandedOver(p: Places, id: nat, builder: string): Places
    requires id in p.scheduled
  {
    p.(sent := p.sent + [Sent(builder, p.scheduled[id])], scheduled := p.scheduled - {id})
  }

  ghost function Deleted(p: Places): Places
    requires p.dropQueue != []
  {
    p.(dropQueue := p.dropQueue[1..], deleted := p.deleted + [p.dropQueue[0]])
  }

  lemma {:induction false} NothingOwned()
    ensures Owned(NOWHERE)
  {
    assert forall s :: Accounted(NOWHERE, s);
  }

  lemma {:induction false} OneMoreOf(stfs: seq<Stf>, s: Stf, t: Stf)
    ensures multiset(stfs + [s])[t] == multiset(stfs)[t] + if s == t then 1 else 0
  {
  }

  lemma {:induction false} TookOwns(p: Places, s: Stf)
    requires Owned(p) && p.hand == Empty
    ensures Owned(Took(p, s))
  {
    hide SentStfs;
    forall t ensures Accounted(Took(p, s), t) { assert Accounted(p, t); }
  }

  lemma {:induction false} TriagedOwns(p: Places, announce: bool)
    requires Owned(p) && p.hand.Holding?
    ensures Owned(Triaged(p, announce))
  {
    hide SentStfs;
    forall t ensures Accounted(Triaged(p, announce), t) {
      assert Accounted(p, t);
      OneMoreOf(p.dropQueue, p.hand.stf, t);
    }
  }

  lemma {:induction false} AnsweredOwns(p: Places, ok: bool)
    requires Owned(p) && p.hand.Announcing?
    ensures Owned(Answered(p, ok))
  {
    hide SentStfs;
    var id := p.hand.stf.id;
    forall t ensures Accounted(Answered(p, ok), t) {
      assert Accounted(p, t);
      if id in p.scheduled { OneMoreOf(p.dropQueue, p.scheduled[id], t); }
    }
  }

  lemma {:induction false} DiscardedOwns(p: Places, id: nat)
    requires Owned(p) && id in p.scheduled
    ensures Owned(Discarded(p, id))
  {
    hide SentStfs;
    forall t ensures Accounted(Discarded(p, id), t) { assert Accounted(p, t); }
  }

  lemma {:induction false} HandedOverOwns(p: Places, id: nat, builder: string)
    requires Owned(p) && id in p.scheduled
    ensures Owned(HandedOver(p, id, builder))
  {
    var b := Sent(builder, p.scheduled[id]);
    assert (p.sent + [b])[..|p.sent|] == p.sent;
    assert SentStfs(p.sent + [b]) == SentStfs(p.sent) + multiset{b.stf};
    hide SentStfs;
    forall t ensures Accounted(HandedOver(p, id, builder), t) { assert Accounted(p, t); }
  }

  lemma {:induction false} DeletedOwns(p: Places)
    requires Owned(p) && p.dropQueue != []
    ensures Owned(Deleted(p))
  {
    hide SentStfs;
    assert p.dropQueue == [p.dropQueue[0]] + p.dropQueue[1..];
    forall t ensures Accounted(Deleted(p), t) { assert Accounted(p, t); }
  }

  // ------------------------------------------------------------------------------ whole runs

  datatype Step = Taking(stf: Stf) | Triaging(ready: bool) | Answering(ok: bool) | Asking(id: nat, builder: string, known: bool) | Dropping

  /** The builder id of a drop request from the scheduler. */
  const DROP: string := "-1"

  predicate Announceable(s: Stf) {
    s.origin != Unknown && (s.origin == ReadoutTopology ==> s.equipments == 1)
  }

  ghost predicate Possible(p: Places, e: Step) {
    match e
    case Taking(_) => p.hand == Empty
    case Triaging(_) => p.hand.Holding?
    case Answering(_) => p.hand.Announcing?
    case Asking(_, _, _) => true
    case Dropping => p.dropQueue != []
  }

  ghost function Next(p: Places, e: Step): Places
    requires Possible(p, e)
  {
    match e
    case Taking(s) => Took(p, s)
    case Triaging(ready) => Triaged(p, ready && Announceable(p.hand.stf))
    case Answering(ok) => Answered(p, ok)
    case Asking(id, builder, known) =>
      if id !in p.scheduled then p else if builder == DROP || !known then Discarded(p, id) else HandedOver(p, id, builder)
    case Dropping => Deleted(p)
  }

  /** These states follow on each other, from the start, by steps in any order. */
  ghost predicate Run(ps: seq<Places>, es: seq<Step>) {
    && |ps| == |es| + 1 && ps[0] == NOWHERE
    && forall k | 0 <= k < |es| :: Possible(ps[k], es[k]) && ps[k + 1] == Next(ps[k], es[k])
  }

  lemma {:induction false} NextOwns(p: Places, e: Step)
    requires Owned(p) && Possible(p, e)
    ensures Owned(Next(p, e))
  {
    hide Owned;
    match e
    case Taking(s) => TookOwns(p, s);
    case Triaging(ready) => TriagedOwns(p, ready && Announceable(p.hand.stf));
    case Answering(ok) => AnsweredOwns(p, ok);
    case Asking(id, builder, _) =>
      if id in p.scheduled {
        DiscardedOwns(p, id);
        HandedOverOwns(p, id, builder);
      }
    case Dropping => DeletedOwns(p);
  }

  lemma {:induction false} RunOwns(ps: seq<Places>, es: seq<Step>, k: nat)
    requires Run(ps, es) && k < |ps|
    ensures Owned(ps[k])
  {
    hide Owned;
    hide Next;
    if k == 0 {
      NothingOwned();
    } else {
      RunOwns(ps, es, k - 1);
      NextOwns(ps[k - 1], es[k - 1]);
    }
  }

  /** All that was deleted, and then all that is to be. */
  ghost function Gone(p: Places): seq<Stf> {
    p.deleted + p.dropQueue
  }

  ghost predicate IsScheduled(p: Places, s: Stf) {
    s.id in p.scheduled && p.scheduled[s.id] == s
  }

  /**
   Why something is dropped: it is not fit to be announced or nobody is there to announce it to,
   another one with its id is scheduled, the scheduler did not accept its announcement, the
   scheduler asks for the drop, or an unknown builder asks for the data.
  */
  ghost predicate Reason(p: Places, e: Step, s: Stf) {
    match e
    case Triaging(ready) =>
      p.hand == Holding(s) && (!ready || s.origin == Unknown || (s.origin == ReadoutTopology && s.equipments != 1) || s.id in p.scheduled)
    case Answering(ok) => !ok && p.hand == Announcing(s) && IsScheduled(p, s)
    case Asking(id, builder, known) => id == s.id && IsScheduled(p, s) && (builder == "-1" || !known)
    case _ => false
  }

  lemma {:induction false} GoneGrows(p: Places, e: Step)
    requires Owned(p) && Possible(p, e)
    ensures Gone(Next(p, e)) == Gone(p) ||
      (|Gone(Next(p, e))| == |Gone(p)| + 1 && Gone(Next(p, e))[..|Gone(p)|] == Gone(p) && Reason(p, e, Gone(Next(p, e))[|Gone(p)|]))
  {
    if e.Dropping? {
      assert p.dropQueue == [p.dropQueue[0]] + p.dropQueue[1..];
    }
  }

  /**
   In any run, whatever is or was to be dropped was put there by one step that had a reason for
   it, each one by a step of its own.
  */
  lemma {:induction false} DroppedForAReason(ps: seq<Places>, es: seq<Step>, k: nat, i: nat)
    requires Run(ps, es) && k < |ps| && i < |Gone(ps[k])|
    ensures exists j :: 0 <= j < k && |Gone(ps[j])| == i && |Gone(ps[j + 1])| == i + 1 && Reason(ps[j], es[j], Gone(ps[k])[i])
  {
    hide Next;
    hide Reason;
    hide Owned;
    if k > 0 {
      RunOwns(ps, es, k - 1);
      GoneGrows(ps[k - 1], es[k - 1]);
      if i < |Gone(ps[k - 1])| {
        DroppedForAReason(ps, es, k - 1, i);
        assert Gone(ps[k])[i] == Gone(ps[k - 1])[i];
      }
    }
  }

  ghost predicate AsksFor(p: Places, e: Step, sent: Sent) {
    e == Asking(sent.stf.id, sent.builder, true) && IsScheduled(p, sent.stf)
  }

  /** What was sent was asked for by that builder, which was known and is no drop request. */
  lemma {:induction false} SentOnRequest(ps: seq<Places>, es: seq<Step>, k: nat, i: nat)
    requires Run(ps, es) && k < |ps| && i < |ps[k].sent|
    ensures ps[k].sent[i].builder != "-1"
    ensures exists j :: 0 <= j < k && |ps[j].sent| == i && |ps[j + 1].sent| == i + 1 && AsksFor(ps[j], es[j], ps[k].sent[i])
  {
    hide Owned;
    hide Run;
    RunStep(ps, es, k);
    if k > 0 {
      RunOwns(ps, es, k - 1);
      SentGrows(ps[k - 1], es[k - 1]);
      if i < |ps[k - 1].sent| { SentOnRequest(ps, es, k - 1, i); }
    }
  }

  lemma {:induction false} RunStep(ps: seq<Places>, es: seq<Step>, k: nat)
    requires Run(ps, es) && k < |ps|
    ensures |ps| == |es| + 1 && (k == 0 ==> ps[0] == NOWHERE)
    ensures k > 0 ==> Possible(ps[k - 1], es[k - 1]) && ps[k] == Next(ps[k - 1], es[k - 1])
  {
  }

  lemma {:induction false} SentGrows(p: Places, e: Step)
    requires Owned(p) && Possible(p, e)
    ensures
      var before, after := p.sent, Next(p, e).sent;
      after == before ||
        (|after| == |before| + 1 && after[..|before|] == before && after[|before|].builder != "-1"
         && AsksFor(p, e, after[|before|]))
  {
  }

  /** What the scheduler accepted stays scheduled until somebody asks for it. */
  lemma {:induction false} AcceptedStays(ps: seq<Places>, es: seq<Step>, j: nat, k: nat, s: Stf)
    requires Run(ps, es) && j < k < |ps| && es[j] == Answering(true) && ps[j].hand == Announcing(s) && s.id in ps[j].scheduled
    requires forall m | j < m < k :: !(es[m].Asking? && es[m].id == s.id)
    ensures IsScheduled(ps[k], s) && !(ps[k].hand.Announcing? && ps[k].hand.stf.id == s.id)
  {
    hide Run;
    RunStep(ps, es, k);
    RunOwns(ps, es, k - 1);
    if j < k - 1 { AcceptedStays(ps, es, j, k - 1, s); }
  }

  // ------------------------------------------------------------------------- what it means

  lemma {:induction false} SentTwice(sent: seq<Sent>, i: nat, j: nat)
    requires i < j < |sent| && sent[i].stf == sent[j].stf
    ensures SentStfs(sent)[sent[i].stf] > 1
    decreases |sent|
  {
    var n := |sent| - 1;
    if j < n {
      SentTwice(sent[..n], i, j);
    } else {
      SentOnce(sent[..n], i);
    }
  }

  lemma {:induction false} SentOnce(sent: seq<Sent>, i: nat)
    requires i < |sent|
    ensures SentStfs(sent)[sent[i].stf] > 0
    decreases |sent|
  {
    if i < |sent| - 1 { SentOnce(sent[..|sent| - 1], i); }
  }

  /** A sub-time-frame that was taken once is handed to at most one builder, and then is nowhere else. */
  lemma {:induction false} HandedToOne(p: Places, i: nat, j: nat)
    requires Owned(p) && i < |p.sent| && j < |p.sent|
    requires multiset(p.taken)[p.sent[i].stf] == 1 && p.sent[i].stf == p.sent[j].stf
    ensures i == j
    ensures var s := p.sent[i].stf;
      && s !in p.dropQueue && s !in p.deleted && p.hand != Holding(s)
      && !(s.id in p.scheduled && p.scheduled[s.id] == s)
  {
    var s := p.sent[i].stf;
    assert Accounted(p, s);
    SentOnce(p.sent, i);
    if i < j { SentTwice(p.sent, i, j); }
    if j < i { SentTwice(p.sent, j, i); }
    assert s in p.dropQueue ==> multiset(p.dropQueue)[s] > 0;
    assert s in p.deleted ==> multiset(p.deleted)[s] > 0;
  }

  /** Once no announcement is under way, everything taken is scheduled, to be dropped, dropped, or sent. */
  lemma {:induction false} SomewhereAtRest(p: Places, s: Stf)
    requires Owned(p) && !p.hand.Holding? && s in p.taken
    ensures (s.id in p.scheduled && p.scheduled[s.id] == s) || s in p.dropQueue || s in p.deleted || SentStfs(p.sent)[s] > 0
  {
    assert Accounted(p, s);
    assert multiset(p.taken)[s] > 0;
  }

  // ------------------------------------------------------------------------ buffered bytes

  ghost function TotalSize(ss: seq<Stf>): nat {
    if ss == [] then 0 else TotalSize(ss[..|ss| - 1]) + ss[|ss| - 1].size
  }

  lemma {:induction false} TotalWithout(ss: seq<Stf>, i: nat)
    requires i < |ss|
    ensures TotalSize(ss) == TotalSize(ss[..i] + ss[i + 1..]) + ss[i].size
    decreases |ss|
  {
    var n := |ss| - 1;
    if i == n {
      assert ss[..i] + ss[i + 1..] == ss[..n];
    } else {
      TotalWithout(ss[..n], i);
      var rest := ss[..i] + ss[i + 1..];
      assert rest[..|rest| - 1] == ss[..n][..i] + ss[..n][i + 1..];
    }
  }

  /** What was deleted is no more than what was taken, so the buffer counters never underflow. */
  lemma {:induction false} DeletedWithinTaken(deleted: seq<Stf>, taken: seq<Stf>)
    requires forall s :: multiset(deleted)[s] <= multiset(taken)[s]
    ensures TotalSize(deleted) <= TotalSize(taken) && |deleted| <= |taken|
    decreases |deleted|
  {
    if deleted != [] {
      var n := |deleted| - 1;
      var s, rest := deleted[n], deleted[..n];
      assert deleted == rest + [s];
      assert multiset(deleted)[s] > 0;
      assert s in multiset(taken);
      var i :| 0 <= i < |taken| && taken[i] == s;
      var less := taken[..i] + taken[i + 1..];
      assert taken == taken[..i] + [s] + taken[i + 1..];
      assert multiset(taken) == multiset(less) + multiset{s};
      forall t ensures multiset(rest)[t] <= multiset(less)[t] {
        assert multiset(deleted)[t] == multiset(rest)[t] + multiset{s}[t];
        assert multiset(deleted)[t] <= multiset(taken)[t];
      }
      DeletedWithinTaken(rest, less);
      TotalWithout(taken, i);
    }
  }
}
