/** Every step of building time frames keeps what is in its place in its place, and the ids in order. */
module TfBuildLedger {
  import opened Wrappers
  import opened Collections
  import opened TfBuildState

  // -------------------------------------------------------------------- snoc and head lemmas

  lemma {:induction false} AddsSnoc(q: seq<Received>, x: Received)
    ensures Adds(q + [x]) == Adds(q) + if x.ADD? then [x.tfId] else []
    decreases |q|
  {
    if q == [] {
      assert (q + [x])[1..] == [];
    } else {
      assert (q + [x])[1..] == q[1..] + [x] && (q + [x])[0] == q[0];
      AddsSnoc(q[1..], x);
      var head := if q[0].ADD? then [q[0].tfId] else [];
      assert Adds(q + [x]) == head + Adds(q[1..] + [x]);
    }
  }

  lemma {:induction false} AnnouncedSnoc(q: seq<Received>, known: set<nat>, gone: set<nat>, x: Received)
    requires Announced(q, known, gone)
    requires x.INFO? ==> KnownBehind(q, known, x.tfId)
    requires x.DELETE? ==> KnownBehind(q, known, x.tfId) || x.tfId in gone
    ensures Announced(q + [x], known, gone)
    decreases |q|
  {
    if q == [] {
      assert (q + [x])[1..] == [];
    } else {
      assert (q + [x])[1..] == q[1..] + [x];
      assert q[0] in q && forall y | y in q[1..] :: y in q;
      match q[0]
      case ADD(id) => AnnouncedSnoc(q[1..], known + {id}, gone, x);
      case INFO(_, _) => AnnouncedSnoc(q[1..], known, gone, x);
      case DELETE(id) => AnnouncedSnoc(q[1..], known - {id}, gone, x);
    }
  }

  lemma {:induction false} BuiltSnoc(built: seq<TimeFrame>, b: TimeFrame)
    ensures BuiltIds(built + [b]) == BuiltIds(built) + [b.tfId]
    ensures forall id :: BuiltOf(built + [b], id) == BuiltOf(built, id) + if b.tfId == id then multiset(b.senders) else multiset{}
  {
    assert (built + [b])[..|built|] == built;
  }

  lemma {:induction false} NotBuilt(built: seq<TimeFrame>, id: nat)
    requires id !in BuiltIds(built)
    ensures BuiltOf(built, id) == multiset{}
    decreases |built|
  {
    if built != [] { NotBuilt(built[..|built| - 1], id); }
  }

  lemma {:induction false} BuiltMember(built: seq<TimeFrame>, b: TimeFrame)
    requires b in built
    ensures b.tfId in BuiltIds(built)
    decreases |built|
  {
    var n := |built| - 1;
    if b != built[n] {
      assert built == built[..n] + [built[n]];
      BuiltMember(built[..n], b);
    }
  }

  lemma {:induction false} AnnouncedMore(q: seq<Received>, known: set<nat>, more: set<nat>, gone: set<nat>)
    requires Announced(q, known, gone) && known <= more
    ensures Announced(q, more, gone)
    decreases |q|
  {
    if q != [] {
      match q[0]
      case ADD(id) => AnnouncedMore(q[1..], known + {id}, more + {id}, gone);
      case INFO(_, _) => AnnouncedMore(q[1..], known, more, gone);
      case DELETE(id) => AnnouncedMore(q[1..], known - {id}, more - {id}, gone);
    }
  }

  /** What has all its data may leave. */
  lemma {:induction false} AnnouncedWithout(q: seq<Received>, known: set<nat>, gone: set<nat>, id: nat)
    requires Announced(q, known, gone) && forall s :: INFO(id, s) !in q
    ensures Announced(q, known - {id}, gone + {id})
    decreases |q|
  {
    if q != [] {
      assert q[0] in q && forall y | y in q[1..] :: y in q;
      match q[0]
      case ADD(k) =>
        AnnouncedWithout(q[1..], known + {k}, gone, id);
        AnnouncedMore(q[1..], (known + {k}) - {id}, (known - {id}) + {k}, gone + {id});
      case INFO(k, s) =>
        assert INFO(k, s) in q;
        AnnouncedWithout(q[1..], known, gone, id);
      case DELETE(k) =>
        AnnouncedWithout(q[1..], known - {k}, gone, id);
        assert (known - {k}) - {id} == (known - {id}) - {k};
    }
  }

  // --------------------------------------------------------- what a step leaves alone stays right

  lemma {:induction false} SameAccounts(n: Net, m: Net)
    requires Conserved(n) && m.log.accepted == n.log.accepted && m.log.built == n.log.built
    requires m.inFlight == n.inFlight && m.merge == n.merge
    requires forall id, s :: multiset(m.received)[INFO(id, s)] == multiset(n.received)[INFO(id, s)]
    ensures Conserved(m)
  {
    hide BuiltOf;
    hide AcceptedOf;
    hide MergingOf;
    forall id, s ensures Accounted(m, id, s) { assert Accounted(n, id, s); }
  }

  lemma {:induction false} SameOrder(n: Net, m: Net)
    requires Ordered(n) && m.received == n.received && m.merge == n.merge && m.log.built == n.log.built
    requires m.log.requested == n.log.requested && m.log.paced == n.log.paced && m.log.deleted == n.log.deleted
    ensures Ordered(m)
  {
    hide BuiltIds;
    hide BuiltSet;
    hide Adds;
    hide Announced;
    hide Ascending;
  }

  lemma {:induction false} SameAsking(n: Net, m: Net)
    requires Asked(n) && m.requests == n.requests && m.asking == n.asking && m.counts == n.counts
    requires m.deleting == n.deleting || m.deleting == None
    requires m.log.accepted == n.log.accepted && m.log.requested == n.log.requested && m.log.built == n.log.built
    ensures Asked(m)
  {
    hide BuiltIds;
    hide AllFresh;
    hide CountsOk;
    hide InTurn;
    hide SameIds;
    hide AskingNow;
  }

  lemma {:induction false} SameDeletes(n: Net, m: Net)
    requires DeletesNobodys(n) && m.log.accepted == n.log.accepted && m.counts == n.counts && m.log.built == n.log.built
    requires m.deleting == n.deleting && m.log.deleted == n.log.deleted
    requires forall id :: DELETE(id) in m.received <==> DELETE(id) in n.received
    ensures DeletesNobodys(m)
  {
    hide BuiltIds;
    hide Nobodys;
  }

  lemma {:induction false} SameDelivered(n: Net, m: Net)
    requires Delivered(n) && m.log.accepted == n.log.accepted && m.log.built == n.log.built
    requires m.out == n.out && m.maxMerged == n.maxMerged
    ensures Delivered(m)
  {
    hide BuiltIds;
    hide AcceptedOf;
  }

  lemma {:induction false} SameInquired(n: Net, m: Net)
    requires Inquired(n) && m.log.named == n.log.named && m.log.replies == n.log.replies && m.log.accepted == n.log.accepted
    requires m.asking == n.asking && m.requests == n.requests
    requires forall id | id in m.counts || id in BuiltIds(m.log.built) :: id in n.counts || id in BuiltIds(n.log.built)
    ensures Inquired(m)
  {
    hide BuiltIds;
    hide WaitingFor;
    hide AcceptedOf;
    hide RepliesOf;
    forall id, s ensures AskedInTurn(m.log, ToAsk(m, id), id, s) { assert AskedInTurn(n.log, ToAsk(n, id), id, s); }
    forall id | id in m.counts || id in BuiltIds(m.log.built) ensures ToAsk(m, id) == multiset{} {
      assert ToAsk(n, id) == multiset{};
    }
  }

  lemma {:induction false} OneMorePromise(accepted: map<nat, multiset<string>>, k: nat, t: string, id: nat, s: string)
    ensures AcceptedOf(accepted[k := AcceptedOf(accepted, k) + multiset{t}], id)[s]
         == AcceptedOf(accepted, id)[s] + if k == id && t == s then 1 else 0
  {
  }

  // ---------------------------------------------------------- who is still to be asked

  lemma {:induction false} NobodyWaits(requests: seq<StfRequest>, id: nat)
    requires forall r | r in requests :: r.tfId != id
    ensures WaitingFor(requests, id) == multiset{}
    decreases |requests|
  {
    if requests != [] { NobodyWaits(requests[1..], id); }
  }

  lemma {:induction false} WaitingMore(requests: seq<StfRequest>, r: StfRequest, id: nat)
    ensures WaitingFor(requests + [r], id) == WaitingFor(requests, id) + if r.tfId == id then multiset(r.senders) else multiset{}
    decreases |requests|
  {
    if requests == [] {
      assert ([] + [r])[1..] == [];
    } else {
      assert (requests + [r])[1..] == requests[1..] + [r];
      WaitingMore(requests[1..], r, id);
    }
  }

  lemma {:induction false} NewIsNotWaiting(n: Net, id: nat)
    requires Asked(n) && id !in n.log.accepted
    ensures ToAsk(n, id) == multiset{}
  {
    hide BuiltIds;
    hide CountsOk;
    hide InTurn;
    hide SameIds;
    forall q | q in n.requests ensures q.tfId != id { assert Fresh(q.tfId, n.log.accepted, n.counts, BuiltIds(n.log.built)); }
    NobodyWaits(n.requests, id);
  }

  lemma {:induction false} RequestedInTurn(n: Net, r: StfRequest, id: nat, s: string)
    requires AskedInTurn(n.log, ToAsk(n, id), id, s) && ToAsk(n, r.tfId) == multiset{}
    ensures AskedInTurn(Requested(n, r).log, ToAsk(Requested(n, r), id), id, s)
  {
    hide WaitingFor;
    hide ToAsk;
    RequestedToAsk(n, r, id);
  }

  lemma {:induction false} RequestedToAsk(n: Net, r: StfRequest, id: nat)
    ensures ToAsk(Requested(n, r), id) == ToAsk(n, id) + if id == r.tfId then multiset(r.senders) else multiset{}
  {
    hide WaitingFor;
    WaitingMore(n.requests, r, id);
  }

  lemma {:induction false} RequestedInquires(n: Net, r: StfRequest)
    requires Inquired(n) && Asked(n) && r.tfId !in n.log.accepted
    requires r.tfId !in n.counts && r.tfId !in BuiltIds(n.log.built)
    ensures Inquired(Requested(n, r))
  {
    hide BuiltIds;
    hide WaitingFor;
    hide Asked;
    hide AskedInTurn;
    var m := Requested(n, r);
    NewIsNotWaiting(n, r.tfId);
    forall id, s ensures AskedInTurn(m.log, ToAsk(m, id), id, s) { RequestedInTurn(n, r, id, s); }
    forall id | id in m.counts || id in BuiltIds(m.log.built) ensures ToAsk(m, id) == multiset{} {
      WaitingMore(n.requests, r, id);
      assert ToAsk(n, id) == multiset{};
    }
  }

  lemma {:induction false} TakenInquires(n: Net)
    requires Inquired(n) && n.requests != [] && n.asking.None?
    ensures Inquired(Taken(n))
  {
    hide BuiltIds;
    hide AcceptedOf;
    hide RepliesOf;
    var m := Taken(n);
    forall id ensures ToAsk(m, id) == ToAsk(n, id) { }
    forall id, s ensures AskedInTurn(m.log, ToAsk(m, id), id, s) { assert AskedInTurn(n.log, ToAsk(n, id), id, s); }
  }

  lemma {:induction false} OneFewer(left: seq<string>, i: nat, s: string)
    requires i < |left|
    ensures multiset(left[..i] + left[i + 1..])[s] == multiset(left)[s] - if left[i] == s then 1 else 0
  {
    LeftOut(left, i);
  }

  lemma {:induction false} OneLessToAsk(n: Net, i: nat, accepted: bool, id: nat, s: string)
    requires n.asking.Some? && i < |n.asking.value.left|
    ensures
      var a := n.asking.value;
      ToAsk(n, id)[s] == ToAsk(Answered(n, i, accepted), id)[s] + if a.tfId == id && a.left[i] == s then 1 else 0
  {
    hide WaitingFor;
    OneFewer(n.asking.value.left, i, s);
  }

  lemma {:induction false} OneMoreReply(replies: map<nat, multiset<Reply>>, k: nat, r: Reply, id: nat, q: Reply)
    ensures RepliesOf(replies[k := RepliesOf(replies, k) + multiset{r}], id)[q]
         == RepliesOf(replies, id)[q] + if k == id && r == q then 1 else 0
  {
  }

  /** One sender moves from those to be asked to those that answered. */
  lemma {:induction false} AnsweredInTurn(n: Net, i: nat, accepted: bool, id: nat, s: string)
    requires n.asking.Some? && i < |n.asking.value.left|
    requires AskedInTurn(n.log, ToAsk(n, id), id, s)
    ensures AskedInTurn(Answered(n, i, accepted).log, ToAsk(Answered(n, i, accepted), id), id, s)
  {
    hide ToAsk;
    hide RepliesOf;
    hide AcceptedOf;
    var a := n.asking.value;
    OneLessToAsk(n, i, accepted, id, s);
    OneMoreReply(n.log.replies, a.tfId, Reply(a.left[i], accepted), id, Reply(s, true));
    OneMoreReply(n.log.replies, a.tfId, Reply(a.left[i], accepted), id, Reply(s, false));
    OneMorePromise(n.log.accepted, a.tfId, a.left[i], id, s);
  }

  lemma {:induction false} AnsweredInquires(n: Net, i: nat, accepted: bool)
    requires Inquired(n) && Asked(n) && n.asking.Some? && i < |n.asking.value.left|
    ensures Inquired(Answered(n, i, accepted))
  {
    hide BuiltIds;
    hide ToAsk;
    hide CountsOk;
    hide InTurn;
    hide SameIds;
    hide AllFresh;
    hide AskedInTurn;
    hide AcceptedOf;
    hide RepliesOf;
    var m, a := Answered(n, i, accepted), n.asking.value;
    forall id, s ensures AskedInTurn(m.log, ToAsk(m, id), id, s) { AnsweredInTurn(n, i, accepted, id, s); }
    assert a.tfId !in n.counts && a.tfId !in BuiltIds(n.log.built);
    forall id | id in m.counts || id in BuiltIds(m.log.built) ensures ToAsk(m, id) == multiset{} {
      assert ToAsk(n, id) == multiset{};
      NobodyLeft(n, m, id);
    }
  }

  lemma {:induction false} NobodyLeft(n: Net, m: Net, id: nat)
    requires n.asking.Some? && m.asking.Some? && m.asking.value.tfId == n.asking.value.tfId != id && m.requests == n.requests
    ensures ToAsk(m, id) == ToAsk(n, id)
  {
  }

  lemma {:induction false} CountedInquires(n: Net)
    requires Inquired(n) && Asked(n) && n.asking.Some? && n.asking.value.left == []
    ensures Inquired(Counted(n))
  {
    hide BuiltIds;
    hide WaitingFor;
    hide AcceptedOf;
    hide RepliesOf;
    hide CountsOk;
    hide InTurn;
    hide SameIds;
    hide AllFresh;
    var m, a := Counted(n), n.asking.value;
    NobodyWaits(n.requests, a.tfId);
    forall id ensures ToAsk(m, id) == ToAsk(n, id) { }
    forall id, s ensures AskedInTurn(m.log, ToAsk(m, id), id, s) { assert AskedInTurn(n.log, ToAsk(n, id), id, s); }
  }

  lemma {:induction false} CompletedInquires(n: Net, id: nat)
    requires Inquired(n) && id in n.merge && id in n.counts
    ensures Inquired(Completed(n, id))
  {
    hide BuiltIds;
    hide WaitingFor;
    hide AcceptedOf;
    hide RepliesOf;
    BuiltSnoc(n.log.built, TimeFrame(id, n.merge[id]));
    var m := Completed(n, id);
    forall k, s ensures AskedInTurn(m.log, ToAsk(m, k), k, s) { assert AskedInTurn(n.log, ToAsk(n, k), k, s); }
    forall k | k in m.counts || k in BuiltIds(m.log.built) ensures ToAsk(m, k) == multiset{} { assert ToAsk(n, k) == multiset{}; }
  }

  // ------------------------------------------------------------------- requests keep all

  lemma {:induction false} StartHolds()
    ensures Inv(START)
  {
    assert forall id, s :: Accounted(START, id, s);
    assert forall id, s :: AskedInTurn(START.log, ToAsk(START, id), id, s);
  }

  lemma {:induction false} RequestedConserves(n: Net, r: StfRequest)
    requires Conserved(n) && r.tfId !in n.log.accepted
    ensures Conserved(Requested(n, r))
  {
    forall id, s ensures Accounted(Requested(n, r), id, s) {
      assert Accounted(n, id, s);
    }
  }

  lemma {:induction false} RequestedOrders(n: Net, r: StfRequest)
    requires Ordered(n) && 0 < r.tfId && forall id | id in n.log.requested :: id < r.tfId
    ensures Ordered(Requested(n, r))
  {
    var l := n.log;
    AddsSnoc(n.received, ADD(r.tfId));
    AnnouncedSnoc(n.received, n.merge.Keys, BuiltSet(l.built), ADD(r.tfId));
    AscendingMore(l.requested, r.tfId);
    hide Adds;
    hide Announced;
    hide Ascending;
    hide BuiltIds;
    assert (l.requested + [r.tfId])[l.paced..] == l.requested[l.paced..] + [r.tfId];
    assert (l.requested + [r.tfId])[..l.paced] == l.requested[..l.paced];
    assert forall id :: id in l.requested + [r.tfId] <==> id in l.requested || id == r.tfId;
  }

  lemma {:induction false} RequestedIsNew(n: Net, id: nat)
    requires Asked(n) && Ordered(n) && forall k | k in n.log.requested :: k < id
    ensures id !in n.log.accepted && id !in n.counts && id !in BuiltIds(n.log.built)
    ensures forall k | k in n.log.accepted :: k < id
  {
    BuiltWasRequested(n);
    hide Ordered;
    hide BuiltIds;
    hide AllFresh;
    assert id in n.counts ==> CountOk(id, n.counts[id], n.log.accepted, BuiltIds(n.log.built));
  }

  lemma {:induction false} AllFreshMore(requests: seq<StfRequest>, r: StfRequest, accepted: map<nat, multiset<string>>,
                                        counts: map<nat, nat>, built: seq<nat>)
    requires AllFresh(requests, accepted, counts, built) && InTurn(requests)
    requires (forall k | k in accepted :: k < r.tfId) && r.tfId !in counts && r.tfId !in built
    ensures AllFresh(requests + [r], accepted[r.tfId := multiset{}], counts, built) && InTurn(requests + [r])
    ensures forall q | q in requests :: q.tfId < r.tfId
  {
    var more := requests + [r];
    forall q | q in more ensures Fresh(q.tfId, accepted[r.tfId := multiset{}], counts, built) && (q in requests ==> q.tfId < r.tfId) {
      if q in requests { assert Fresh(q.tfId, accepted, counts, built); }
    }
    forall i, j | 0 <= i < j < |more| ensures more[i].tfId < more[j].tfId {
      if j == |requests| { assert requests[i] in requests; }
    }
  }

  lemma {:induction false} CountsStayOk(counts: map<nat, nat>, accepted: map<nat, multiset<string>>, built: seq<nat>, id: nat)
    requires CountsOk(counts, accepted, built) && id !in accepted
    ensures CountsOk(counts, accepted[id := multiset{}], built)
  {
    forall k | k in counts ensures CountOk(k, counts[k], accepted[id := multiset{}], built) {
      assert CountOk(k, counts[k], accepted, built);
    }
  }

  lemma {:induction false} RequestedAsks(n: Net, r: StfRequest)
    requires Asked(n) && Ordered(n) && forall id | id in n.log.requested :: id < r.tfId
    ensures Asked(Requested(n, r))
  {
    hide Ordered;
    hide BuiltIds;
    hide AllFresh;
    hide InTurn;
    hide CountsOk;
    RequestedIsNew(n, r.tfId);
    AllFreshMore(n.requests, r, n.log.accepted, n.counts, BuiltIds(n.log.built));
    CountsStayOk(n.counts, n.log.accepted, BuiltIds(n.log.built), r.tfId);
  }

  lemma {:induction false} BuiltWasRequested(n: Net)
    requires Ordered(n)
    ensures forall id | id in BuiltIds(n.log.built) :: id in n.log.requested
    ensures forall id | id in n.merge :: id in n.log.requested
  {
    var l := n.log;
    assert forall id | id in l.requested[..l.paced] :: id in l.requested;
  }

  lemma {:induction false} RequestedDeletes(n: Net, r: StfRequest)
    requires DeletesNobodys(n)
    ensures DeletesNobodys(Requested(n, r))
  {
    hide BuiltIds;
  }

  lemma {:induction false} RequestedDelivers(n: Net, r: StfRequest)
    requires Delivered(n) && r.tfId !in BuiltIds(n.log.built)
    ensures Delivered(Requested(n, r))
  {
    hide BuiltIds;
    forall b | b in n.log.built ensures b.tfId != r.tfId { BuiltMember(n.log.built, b); }
  }

  lemma {:induction false} TakenAsks(n: Net)
    requires Asked(n) && n.requests != [] && n.asking.None? && n.deleting.None?
    ensures Asked(Taken(n))
  {
    hide BuiltIds;
    var first := n.requests[0];
    assert first in n.requests && Fresh(first.tfId, n.log.accepted, n.counts, BuiltIds(n.log.built));
    forall r | r in n.requests[1..]
      ensures r in n.requests && first.tfId < r.tfId
    {
      var j :| 0 <= j < |n.requests[1..]| && n.requests[1..][j] == r;
      assert n.requests[j + 1] == r;
    }
  }

  // -------------------------------------------------------------------- answers keep all

  lemma {:induction false} AnsweredConserves(n: Net, i: nat)
    requires Conserved(n) && n.asking.Some? && i < |n.asking.value.left|
    ensures Conserved(Answered(n, i, true))
  {
    hide BuiltOf;
    hide AcceptedOf;
    hide MergingOf;
    var a := n.asking.value;
    var m, t := Answered(n, i, true), Transfer(a.left[i], a.tfId);
    forall id, s ensures Accounted(m, id, s) {
      assert Accounted(n, id, s);
      assert m.inFlight[Transfer(s, id)] == n.inFlight[Transfer(s, id)] + if Transfer(s, id) == t then 1 else 0;
      OneMorePromise(n.log.accepted, a.tfId, a.left[i], id, s);
    }
  }

  lemma {:induction false} AnsweredAsks(n: Net, i: nat)
    requires Asked(n) && n.asking.Some? && i < |n.asking.value.left|
    ensures Asked(Answered(n, i, true))
  {
    hide BuiltIds;
    var a, l, built, counts := n.asking.value, n.log, BuiltIds(n.log.built), n.counts;
    var accepted := Answered(n, i, true).log.accepted;
    assert |AcceptedOf(l.accepted, a.tfId) + multiset{a.left[i]}| == a.expected + 1;
    forall r | r in n.requests ensures Fresh(r.tfId, accepted, counts, built) {
      assert Fresh(r.tfId, l.accepted, counts, built) && a.tfId < r.tfId;
    }
    forall id | id in counts ensures CountOk(id, counts[id], accepted, built) {
      assert CountOk(id, counts[id], l.accepted, built);
    }
  }

  lemma {:induction false} AnsweredDelivers(n: Net, i: nat)
    requires Delivered(n) && Asked(n) && n.asking.Some? && i < |n.asking.value.left|
    ensures Delivered(Answered(n, i, true))
  {
    forall b | b in n.log.built ensures b.tfId != n.asking.value.tfId { BuiltMember(n.log.built, b); }
    hide BuiltIds;
  }

  lemma {:induction false} RefusedAsks(n: Net, i: nat)
    requires Asked(n) && n.asking.Some? && i < |n.asking.value.left|
    ensures Asked(Answered(n, i, false))
  {
    hide BuiltIds;
    hide AllFresh;
    hide CountsOk;
    hide InTurn;
    hide SameIds;
  }

  lemma {:induction false} AnsweredDeletes(n: Net, i: nat, accepted: bool)
    requires DeletesNobodys(n) && Asked(n) && n.asking.Some? && i < |n.asking.value.left|
    ensures DeletesNobodys(Answered(n, i, accepted))
  {
    hide BuiltIds;
    hide AllFresh;
    hide CountsOk;
    hide InTurn;
    hide SameIds;
  }

  lemma {:induction false} CountedAsks(n: Net)
    requires Asked(n) && n.asking.Some?
    ensures Asked(Counted(n))
  {
    hide BuiltIds;
    var a, l, built := n.asking.value, n.log, BuiltIds(n.log.built);
    var counts := n.counts[a.tfId := a.expected];
    forall r | r in n.requests ensures Fresh(r.tfId, l.accepted, counts, built) {
      assert Fresh(r.tfId, l.accepted, n.counts, built) && a.tfId < r.tfId;
    }
    forall id | id in counts ensures CountOk(id, counts[id], l.accepted, built) {
      assert id in n.counts ==> CountOk(id, n.counts[id], l.accepted, built);
    }
  }

  lemma {:induction false} CountedDeletes(n: Net)
    requires DeletesNobodys(n) && Asked(n) && n.asking.Some?
    ensures DeletesNobodys(Counted(n))
  {
    hide BuiltIds;
    hide AllFresh;
    hide CountsOk;
    hide InTurn;
    hide SameIds;
    var a := n.asking.value;
    if a.expected == 0 { NoneOf(n.log.accepted[a.tfId]); }
  }

  lemma {:induction false} NoneOf(m: multiset<string>)
    requires |m| == 0
    ensures m == multiset{}
  {
  }

  /** What is about to be deleted waits, is announced in the queue, or has left already. */
  lemma {:induction false} DeletingIsKnown(n: Net)
    requires Ordered(n) && Asked(n) && DeletesNobodys(n) && n.deleting.Some?
    ensures KnownBehind(n.received, n.merge.Keys, n.deleting.value) || n.deleting.value in BuiltSet(n.log.built)
  {
    hide BuiltIds;
    hide Adds;
    hide Announced;
    hide AllFresh;
    hide CountsOk;
    var l := n.log;
    assert l.requested == l.requested[..l.paced] + l.requested[l.paced..];
    assert n.deleting.value in l.requested;
  }

  lemma {:induction false} DeletingOrders(n: Net)
    requires Ordered(n) && n.deleting.Some?
    requires KnownBehind(n.received, n.merge.Keys, n.deleting.value) || n.deleting.value in BuiltSet(n.log.built)
    ensures Ordered(Deleting(n))
  {
    hide BuiltIds;
    hide BuiltSet;
    hide Adds;
    hide Announced;
    hide Ascending;
    AddsSnoc(n.received, DELETE(n.deleting.value));
    AnnouncedSnoc(n.received, n.merge.Keys, BuiltSet(n.log.built), DELETE(n.deleting.value));
  }

  lemma {:induction false} DeletingDeletes(n: Net)
    requires DeletesNobodys(n) && n.deleting.Some?
    ensures DeletesNobodys(Deleting(n))
  {
    hide BuiltIds;
    hide Nobodys;
  }

  // ---------------------------------------------------------------- arrivals and pacing

  /** What is in flight is known to be wanted: announced in the queue, or waiting. */
  lemma {:induction false} InFlightIsKnown(n: Net, t: Transfer)
    requires Inv(n) && t in n.inFlight
    ensures KnownBehind(n.received, n.merge.Keys, t.tfId)
    ensures t.tfId !in BuiltIds(n.log.built)
  {
    hide Announced;
    hide Adds;
    hide Ascending;
    hide BuiltIds;
    hide BuiltOf;
    hide AllFresh;
    hide CountsOk;
    assert Accounted(n, t.tfId, t.sender);
    var l, id := n.log, t.tfId;
    assert id in l.accepted && id in l.requested;
    assert l.accepted[id] != multiset{};
    if id in BuiltIds(l.built) {
      BuiltHasAll(n, id);
      assert false;
    }
    assert l.requested == l.requested[..l.paced] + l.requested[l.paced..];
  }

  /** Of a time frame that is built, nothing is left elsewhere. */
  lemma {:induction false} BuiltHasAll(n: Net, id: nat)
    requires Inv(n) && id in BuiltIds(n.log.built)
    ensures forall s :: n.inFlight[Transfer(s, id)] == 0 && multiset(n.received)[INFO(id, s)] == 0
  {
    BuiltOnce(n.log.built, id);
    var b :| b in n.log.built && b.tfId == id && BuiltOf(n.log.built, id) == multiset(b.senders);
    assert multiset(b.senders) == AcceptedOf(n.log.accepted, id);
    forall s ensures n.inFlight[Transfer(s, id)] == 0 && multiset(n.received)[INFO(id, s)] == 0 {
      assert Accounted(n, id, s);
    }
  }

  lemma {:induction false} BuiltOnce(built: seq<TimeFrame>, id: nat)
    requires Ascending(BuiltIds(built)) && id in BuiltIds(built)
    ensures exists b :: b in built && b.tfId == id && BuiltOf(built, id) == multiset(b.senders)
    decreases |built|
  {
    var k := |built| - 1;
    var ids, before := BuiltIds(built), BuiltIds(built[..k]);
    assert built == built[..k] + [built[k]];
    BuiltIdsLength(built);
    if built[k].tfId == id {
      assert id !in before by {
        assert ids == before + [id];
        assert forall i | 0 <= i < |before| :: before[i] == ids[i] < ids[|before|];
      }
      NotBuilt(built[..k], id);
      assert built[k] in built;
    } else {
      assert Ascending(before) by {
        assert forall i | 0 <= i < |before| :: before[i] == ids[i];
      }
      BuiltOnce(built[..k], id);
      var b :| b in built[..k] && b.tfId == id && BuiltOf(built[..k], id) == multiset(b.senders);
      assert b in built;
    }
  }

  lemma {:induction false} BuiltIdsLength(built: seq<TimeFrame>)
    ensures |BuiltIds(built)| == |built|
    decreases |built|
  {
    if built != [] { BuiltIdsLength(built[..|built| - 1]); }
  }

  lemma {:induction false} LastCount(q: seq<Received>, last: Received, x: Received)
    ensures multiset(q + [last])[x] == multiset(q)[x] + if last == x then 1 else 0
  {
  }

  lemma {:induction false} ArrivedConserves(n: Net, t: Transfer)
    requires Conserved(n) && t in n.inFlight
    ensures Conserved(Arrived(n, t))
  {
    hide BuiltOf;
    hide MergingOf;
    hide AcceptedOf;
    var m := Arrived(n, t);
    forall id, s ensures Accounted(m, id, s) {
      assert Accounted(n, id, s);
      var one := if Transfer(s, id) == t then 1 else 0;
      assert m.inFlight[Transfer(s, id)] == n.inFlight[Transfer(s, id)] - one;
      LastCount(n.received, INFO(t.tfId, t.sender), INFO(id, s));
    }
  }

  lemma {:induction false} ArrivedOrders(n: Net, t: Transfer)
    requires Ordered(n) && KnownBehind(n.received, n.merge.Keys, t.tfId)
    ensures Ordered(Arrived(n, t))
  {
    hide BuiltIds;
    hide BuiltSet;
    hide Adds;
    hide Announced;
    hide Ascending;
    AddsSnoc(n.received, INFO(t.tfId, t.sender));
    AnnouncedSnoc(n.received, n.merge.Keys, BuiltSet(n.log.built), INFO(t.tfId, t.sender));
  }

  lemma {:induction false} HeadCount(q: seq<Received>, x: Received)
    requires q != []
    ensures multiset(q)[x] == multiset(q[1..])[x] + if q[0] == x then 1 else 0
  {
    assert q == [q[0]] + q[1..];
  }

  /** What another entry, or the end of an empty one, does to the waiting ones. */
  lemma {:induction false} MergingMore(merge: map<nat, seq<string>>, id: nat, s: string, k: nat, t: string)
    ensures (id in merge ==> merge[id] == []) ==> MergingOf(merge - {id}, k) == MergingOf(merge, k)
    ensures MergingOf(merge[id := (if id in merge then merge[id] else []) + [s]], k)[t]
         == MergingOf(merge, k)[t] + if id == k && s == t then 1 else 0
  {
  }

  lemma {:induction false} InfoPacedConserves(n: Net, id: nat, sender: string)
    requires Conserved(n) && n.received != [] && n.received[0] == INFO(id, sender) && id > n.maxMerged
    ensures Conserved(Paced(n))
  {
    hide BuiltOf;
    hide MergingOf;
    hide AcceptedOf;
    forall k, s ensures Accounted(Paced(n), k, s) {
      assert Accounted(n, k, s);
      HeadCount(n.received, INFO(k, s));
      MergingMore(n.merge, id, sender, k, s);
    }
  }

  lemma {:induction false} AddPacedConserves(n: Net, id: nat)
    requires Conserved(n) && n.received != [] && n.received[0] == ADD(id) && id !in n.merge
    ensures Conserved(Paced(n))
  {
    hide BuiltOf;
    hide AcceptedOf;
    forall k, s ensures Accounted(Paced(n), k, s) {
      assert Accounted(n, k, s);
      HeadCount(n.received, INFO(k, s));
      assert MergingOf(Paced(n).merge, k)[s] == MergingOf(n.merge, k)[s];
    }
  }

  lemma {:induction false} DeletePacedConserves(n: Net, id: nat)
    requires Conserved(n) && n.received != [] && n.received[0] == DELETE(id) && (id in n.merge ==> n.merge[id] == [])
    ensures Conserved(Paced(n))
  {
    hide BuiltOf;
    hide AcceptedOf;
    hide MergingOf;
    forall k, s ensures Accounted(Paced(n), k, s) {
      assert Accounted(n, k, s);
      HeadCount(n.received, INFO(k, s));
      MergingMore(n.merge, id, s, k, s);
    }
  }

  /** Nothing came for what is deleted. */
  lemma {:induction false} NobodysIsEmpty(n: Net, id: nat)
    requires Conserved(n) && AcceptedOf(n.log.accepted, id) == multiset{} && id in n.merge
    ensures n.merge[id] == []
  {
    assert n.merge[id] != [] ==> n.merge[id][0] in multiset(n.merge[id]);
    forall s ensures multiset(n.merge[id])[s] == 0 { assert Accounted(n, id, s); }
  }

  /**
   The assertions of the pacing thread, and that no data comes too late. The assertion of a
   deletion holds exactly when the time frame has not left before.
  */
  lemma {:induction false} PacingIsSafe(n: Net)
    requires Inv(n) && n.received != []
    ensures n.received[0].ADD? ==>
      && n.received[0].tfId !in n.merge && (forall id | id in n.merge :: id < n.received[0].tfId)
      && forall k | k in n.log.requested[..n.log.paced] :: k < n.received[0].tfId
    ensures n.received[0].INFO? ==> n.received[0].tfId in n.merge && n.maxMerged < n.received[0].tfId
    ensures n.received[0].DELETE? ==>
      && (n.received[0].tfId in n.merge ==> n.merge[n.received[0].tfId] == [])
      && (n.received[0].tfId in n.merge <==> n.received[0].tfId !in BuiltIds(n.log.built))
  {
    var l := n.log;
    match n.received[0]
    case ADD(id) =>
      assert Adds(n.received)[0] == id == l.requested[l.paced];
      forall k | k in l.requested[..l.paced] ensures k < id {
        var i :| 0 <= i < l.paced && l.requested[i] == k;
      }
    case INFO(id, _) =>
      assert id in l.requested[..l.paced];
      assert id in l.requested;
    case DELETE(id) =>
      assert DELETE(id) in n.received;
      if id in n.merge { NobodysIsEmpty(n, id); }
  }

  /** What the head of the queue tells of the rest. */
  lemma {:induction false} HeadIs(q: seq<Received>, known: set<nat>, gone: set<nat>)
    requires Announced(q, known, gone) && q != []
    ensures Adds(q) == (if q[0].ADD? then [q[0].tfId] else []) + Adds(q[1..])
    ensures q[0].ADD? ==> Announced(q[1..], known + {q[0].tfId}, gone)
    ensures q[0].INFO? ==> Announced(q[1..], known, gone)
    ensures q[0].DELETE? ==> Announced(q[1..], known - {q[0].tfId}, gone)
  {
  }

  lemma {:induction false} AddPacedOrders(n: Net, id: nat)
    requires Ordered(n) && n.received != [] && n.received[0] == ADD(id)
    requires forall k | k in n.log.requested[..n.log.paced] :: k < id
    ensures Ordered(Paced(n))
  {
    hide Adds;
    hide Announced;
    hide Ascending;
    hide BuiltIds;
    hide BuiltSet;
    var l := n.log;
    HeadIs(n.received, n.merge.Keys, BuiltSet(l.built));
    assert Paced(n).merge.Keys == n.merge.Keys + {id};
    var rest := l.requested[l.paced..];
    assert rest[0] == id && rest[1..] == l.requested[l.paced + 1..];
    assert l.requested[..l.paced + 1] == l.requested[..l.paced] + [id];
  }

  lemma {:induction false} InfoPacedOrders(n: Net, id: nat, s: string)
    requires Ordered(n) && n.received != [] && n.received[0] == INFO(id, s) && id in n.merge && n.maxMerged < id
    ensures Ordered(Paced(n))
  {
    hide Adds;
    hide Announced;
    hide Ascending;
    hide BuiltIds;
    hide BuiltSet;
    HeadIs(n.received, n.merge.Keys, BuiltSet(n.log.built));
    assert Paced(n).merge.Keys == n.merge.Keys;
  }

  lemma {:induction false} DeletePacedOrders(n: Net, id: nat)
    requires Ordered(n) && n.received != [] && n.received[0] == DELETE(id)
    ensures Ordered(Paced(n))
  {
    hide Adds;
    hide Announced;
    hide Ascending;
    hide BuiltIds;
    hide BuiltSet;
    HeadIs(n.received, n.merge.Keys, BuiltSet(n.log.built));
    assert Paced(n).merge.Keys == n.merge.Keys - {id};
  }

  lemma {:induction false} PacedDeletes(n: Net)
    requires DeletesNobodys(n) && n.received != []
    ensures DeletesNobodys(Paced(n))
  {
    hide BuiltIds;
    hide Nobodys;
    var m := Paced(n);
    assert m.counts == n.counts && m.deleting == n.deleting && m.log.accepted == n.log.accepted && m.log.built == n.log.built;
    assert forall id | id in m.log.deleted :: id in n.log.deleted || n.received[0] == DELETE(id);
    assert n.received[0] in n.received && forall y | y in n.received[1..] :: y in n.received;
  }

  lemma {:induction false} PacedHolds(n: Net)
    requires Inv(n) && n.received != []
    ensures Inv(Paced(n))
  {
    hide Conserved;
    hide Ordered;
    hide Asked;
    hide Inquired;
    hide DeletesNobodys;
    hide Delivered;
    var m := Paced(n);
    PacingIsSafe(n);
    SameAsking(n, m);
    SameInquired(n, m);
    PacedDeletes(n);
    SameDelivered(n, m);
    match n.received[0] {
      case ADD(id) =>
        AddPacedConserves(n, id);
        AddPacedOrders(n, id);
      case INFO(id, s) =>
        InfoPacedConserves(n, id, s);
        InfoPacedOrders(n, id, s);
      case DELETE(id) =>
        DeletePacedConserves(n, id);
        DeletePacedOrders(n, id);
    }
  }

  // ------------------------------------------------------------------------ completion

  /** A waiting time frame with as many sub-time-frames as were promised has them all. */
  lemma {:induction false} WaitingIsPromised(n: Net, id: nat)
    requires Inv(n) && id in n.merge && id in n.counts && |n.merge[id]| == n.counts[id]
    ensures id in n.log.accepted && multiset(n.merge[id]) == n.log.accepted[id]
    ensures forall s :: n.inFlight[Transfer(s, id)] == 0 && multiset(n.received)[INFO(id, s)] == 0
    ensures id !in BuiltIds(n.log.built)
  {
    assert CountOk(id, n.counts[id], n.log.accepted, BuiltIds(n.log.built));
    var v, all := multiset(n.merge[id]), n.log.accepted[id];
    forall s ensures v[s] <= all[s] { assert Accounted(n, id, s); }
    SameSize(v, all);
    forall s ensures n.inFlight[Transfer(s, id)] == 0 && multiset(n.received)[INFO(id, s)] == 0 {
      assert Accounted(n, id, s);
    }
  }

  lemma {:induction false} SameSize(a: multiset<string>, b: multiset<string>)
    requires (forall s :: a[s] <= b[s]) && |a| == |b|
    ensures a == b
  {
    assert b == a + (b - a);
    assert |b - a| == 0;
    assert b - a == multiset{};
  }

  lemma {:induction false} CompletedConserves(n: Net, id: nat)
    requires Conserved(n) && id in n.merge
    ensures Conserved(Completed(n, id))
  {
    hide BuiltOf;
    hide BuiltIds;
    var m, b := Completed(n, id), TimeFrame(id, n.merge[id]);
    BuiltSnoc(n.log.built, b);
    forall k, s ensures Accounted(m, k, s) {
      assert Accounted(n, k, s);
    }
  }

  lemma {:induction false} CompletedOrders(n: Net, id: nat)
    requires Ordered(n) && id in n.merge
    requires forall k | k in n.merge :: id <= k
    requires forall s :: multiset(n.received)[INFO(id, s)] == 0
    ensures Ordered(Completed(n, id))
  {
    hide Announced;
    hide Adds;
    hide BuiltIds;
    hide BuiltOf;
    hide Ascending;
    var m, b, ids := Completed(n, id), TimeFrame(id, n.merge[id]), BuiltIds(n.log.built);
    BuiltSnoc(n.log.built, b);
    forall s ensures INFO(id, s) !in n.received {
      assert INFO(id, s) !in multiset(n.received);
    }
    AnnouncedWithout(n.received, n.merge.Keys, BuiltSet(n.log.built), id);
    assert BuiltSet(m.log.built) == BuiltSet(n.log.built) + {id};
    assert m.merge.Keys == n.merge.Keys - {id};
    AscendingMore(ids, id);
    assert forall k :: k in ids + [id] <==> k in ids || k == id;
  }

  lemma {:induction false} CompletedAsks(n: Net, id: nat)
    requires Asked(n) && id in n.merge && id in n.counts
    ensures Asked(Completed(n, id))
  {
    hide BuiltIds;
    hide BuiltOf;
    var b, l, ids := TimeFrame(id, n.merge[id]), n.log, BuiltIds(n.log.built);
    BuiltSnoc(l.built, b);
    forall r | r in n.requests ensures Fresh(r.tfId, l.accepted, n.counts - {id}, ids + [id]) {
      assert Fresh(r.tfId, l.accepted, n.counts, ids);
    }
    forall k | k in n.counts - {id} ensures CountOk(k, n.counts[k], l.accepted, ids + [id]) {
      assert CountOk(k, n.counts[k], l.accepted, ids);
    }
  }

  lemma {:induction false} CompletedDeletes(n: Net, id: nat)
    requires DeletesNobodys(n) && id in n.merge
    ensures DeletesNobodys(Completed(n, id))
  {
    hide BuiltIds;
    hide BuiltOf;
    BuiltSnoc(n.log.built, TimeFrame(id, n.merge[id]));
  }

  lemma {:induction false} CompletedDelivers(n: Net, id: nat)
    requires Delivered(n) && id in n.merge
    requires multiset(n.merge[id]) == AcceptedOf(n.log.accepted, id)
    ensures Delivered(Completed(n, id))
  {
    hide BuiltIds;
    hide BuiltOf;
    hide AcceptedOf;
    var b, built := TimeFrame(id, n.merge[id]), n.log.built;
    BuiltSnoc(built, b);
    assert forall c :: c in built + [b] <==> c in built || c == b;
    assert n.out + [b] == (built + [b])[|built| - |n.out|..];
  }

  lemma {:induction false} CompletedHolds(n: Net, id: nat)
    requires Inv(n) && id in n.merge && id in n.counts && |n.merge[id]| == n.counts[id]
    requires forall k | k in n.merge :: id <= k
    ensures Inv(Completed(n, id))
    ensures id in n.log.accepted && multiset(n.merge[id]) == n.log.accepted[id]
    ensures forall b | b in BuiltIds(n.log.built) :: b < id
  {
    WaitingIsPromised(n, id);
    CompletedConserves(n, id);
    CompletedOrders(n, id);
    CompletedAsks(n, id);
    CompletedInquires(n, id);
    CompletedDeletes(n, id);
    CompletedDelivers(n, id);
    hide Conserved;
    hide Asked;
    hide Inquired;
    hide DeletesNobodys;
    hide Delivered;
  }

  lemma {:induction false} MergedDelivers(n: Net)
    requires Delivered(n) && n.out != []
    ensures Delivered(Merged(n))
  {
    var k := |n.log.built| - |n.out|;
    assert n.out[0] == n.log.built[k] && n.log.built[k] in n.log.built;
    BuiltMember(n.log.built, n.out[0]);
    hide BuiltIds;
    hide AcceptedOf;
  }

  // ------------------------------------------------------------------------- every step, every run

  lemma {:induction false} AnsweredHolds(n: Net, i: nat, accepted: bool)
    requires Inv(n) && n.asking.Some? && i < |n.asking.value.left|
    ensures Inv(Answered(n, i, accepted))
  {
    hide Conserved;
    hide Ordered;
    hide Asked;
    hide Inquired;
    hide DeletesNobodys;
    hide Delivered;
    var m := Answered(n, i, accepted);
    AnsweredDeletes(n, i, accepted);
    AnsweredInquires(n, i, accepted);
    SameOrder(n, m);
    if accepted {
      AnsweredConserves(n, i);
      AnsweredAsks(n, i);
      AnsweredDelivers(n, i);
    } else {
      SameAccounts(n, m);
      RefusedAsks(n, i);
      SameDelivered(n, m);
    }
  }

  /** Every step keeps the invariant. */
  lemma {:induction false} StepHolds(n: Net, e: Step)
    requires Inv(n) && Possible(n, e)
    ensures Inv(After(n, e))
  {
    hide Conserved;
    hide Ordered;
    hide Asked;
    hide Inquired;
    hide DeletesNobodys;
    hide Delivered;
    hide KnownBehind;
    var m := After(n, e);
    match e
    case Request(r) =>
      RequestedIsNew(n, r.tfId);
      RequestedConserves(n, r);
      RequestedOrders(n, r);
      RequestedAsks(n, r);
      RequestedInquires(n, r);
      RequestedDeletes(n, r);
      RequestedDelivers(n, r);
    case Take =>
      SameAccounts(n, m);
      SameOrder(n, m);
      TakenAsks(n);
      TakenInquires(n);
      SameDeletes(n, m);
      SameDelivered(n, m);
    case Answer(i, accepted) =>
      AnsweredHolds(n, i, accepted);
    case Count =>
      SameAccounts(n, m);
      SameOrder(n, m);
      CountedAsks(n);
      CountedInquires(n);
      CountedDeletes(n);
      SameDelivered(n, m);
    case QueueDeletion =>
      DeletingIsKnown(n);
      SameAccounts(n, m);
      DeletingOrders(n);
      SameAsking(n, m);
      SameInquired(n, m);
      DeletingDeletes(n);
      SameDelivered(n, m);
    case Arrive(t) =>
      ArrivedConserves(n, t);
      InFlightIsKnown(n, t);
      ArrivedOrders(n, t);
      SameAsking(n, m);
      SameInquired(n, m);
      SameDeletes(n, m);
      SameDelivered(n, m);
    case Pace =>
      PacedHolds(n);
    case Complete(id) =>
      CompletedHolds(n, id);
    case Merge =>
      SameAccounts(n, m);
      SameOrder(n, m);
      SameAsking(n, m);
      SameInquired(n, m);
      SameDeletes(n, m);
      MergedDelivers(n);
  }

  /** Whatever steps are taken in whatever order, the invariant holds throughout. */
  lemma {:induction false} RunHolds(ns: seq<Net>, es: seq<Step>, k: nat)
    requires Run(ns, es) && k < |ns|
    ensures Inv(ns[k])
  {
    hide Inv;
    if k == 0 {
      StartHolds();
    } else {
      RunHolds(ns, es, k - 1);
      StepHolds(ns[k - 1], es[k - 1]);
    }
  }

  // ------------------------------------------------------------------------- what it means

  /** Every sender that the request names was asked, as often as it is named; those that said yes have promised. */
  ghost predicate EverybodyAsked(l: Log, id: nat) {
    && id in l.named && id in l.replies && id in l.accepted
    && (forall s :: l.replies[id][Reply(s, true)] + l.replies[id][Reply(s, false)] == l.named[id][s])
    && (forall s :: l.accepted[id][s] == l.replies[id][Reply(s, true)])
  }

  /** At any time, those still to be asked and those that answered make up the request. */
  lemma {:induction false} AskedAndLeft(n: Net, id: nat, s: string)
    requires Inv(n) && id in n.log.requested
    ensures id in n.log.named && id in n.log.replies
    ensures n.log.named[id][s] == ToAsk(n, id)[s] + n.log.replies[id][Reply(s, true)] + n.log.replies[id][Reply(s, false)]
    ensures AcceptedOf(n.log.accepted, id)[s] == n.log.replies[id][Reply(s, true)]
  {
    hide Conserved;
    hide Ordered;
    hide WaitingFor;
    hide ToAsk;
    hide BuiltIds;
    assert id in n.log.accepted;
    assert AskedInTurn(n.log, ToAsk(n, id), id, s);
  }

  /** When it is known how many sub-time-frames to wait for, everybody was asked, and it is one for each promise. */
  lemma {:induction false} CountedAfterAll(n: Net, id: nat)
    requires Inv(n) && (id in n.counts || id in BuiltIds(n.log.built))
    ensures EverybodyAsked(n.log, id)
    ensures id in n.counts ==> n.counts[id] == |n.log.accepted[id]|
  {
    hide Conserved;
    hide Ordered;
    hide WaitingFor;
    hide ToAsk;
    hide BuiltIds;
    CountedWasRequested(n, id);
    assert ToAsk(n, id) == multiset{};
    forall s ensures AskedInTurn(n.log, multiset{}, id, s) { assert AskedInTurn(n.log, ToAsk(n, id), id, s); }
    forall s
      ensures n.log.replies[id][Reply(s, true)] + n.log.replies[id][Reply(s, false)] == n.log.named[id][s]
      ensures n.log.accepted[id][s] == n.log.replies[id][Reply(s, true)]
    {
      assert AskedInTurn(n.log, multiset{}, id, s);
    }
  }

  lemma {:induction false} CountedWasRequested(n: Net, id: nat)
    requires Inv(n) && (id in n.counts || id in BuiltIds(n.log.built))
    ensures id in n.log.accepted && (id in n.counts ==> n.counts[id] == |n.log.accepted[id]|)
  {
    hide Conserved;
    hide Announced;
    hide Adds;
    hide BuiltIds;
    hide Inquired;
    BuiltWasRequested(n);
    assert id in n.counts ==> CountOk(id, n.counts[id], n.log.accepted, BuiltIds(n.log.built));
  }

  /**
   Whatever the interleaving was: time frames leave in strictly ascending order, so each once,
   each with exactly the sub-time-frames that were promised for it, after all its senders were asked.
  */
  lemma {:induction false} BuildingIsSafe(n: Net, i: nat, j: nat)
    requires Inv(n) && i <= j < |n.log.built|
    ensures i < j ==> n.log.built[i].tfId < n.log.built[j].tfId
    ensures n.log.built[i].tfId in n.log.requested && n.log.built[i].tfId in n.log.accepted
    ensures multiset(n.log.built[i].senders) == n.log.accepted[n.log.built[i].tfId]
    ensures EverybodyAsked(n.log, n.log.built[i].tfId)
  {
    hide EverybodyAsked;
    hide Inquired;
    hide Conserved;
    hide DeletesNobodys;
    hide AllFresh;
    hide CountsOk;
    BuiltIdAt(n.log.built, i);
    BuiltIdAt(n.log.built, j);
    var b := n.log.built[i];
    assert b in n.log.built && b.tfId in BuiltIds(n.log.built);
    BuiltWasRequested(n);
    CountedAfterAll(n, b.tfId);
  }

  /**
   Every time frame whose request was paced is in one place: it left for merging, it waits, or
   it was deleted, which happens only to those for which nobody promised anything.
  */
  lemma {:induction false} PacedInOnePlace(n: Net, id: nat)
    requires Inv(n)
    ensures id in n.log.requested[..n.log.paced] <==> id in BuiltIds(n.log.built) || id in n.merge || id in n.log.deleted
    ensures !(id in BuiltIds(n.log.built) && id in n.merge)
    ensures id in n.log.deleted ==>
      id !in BuiltIds(n.log.built) && id !in n.merge && id in n.log.accepted && n.log.accepted[id] == multiset{}
  {
  }

  /**
   Nobody promised anything for the time frame that was asked for last, and it waits: once its
   count is known it is complete without any data, and if it is the smallest it may leave before
   its deletion is even queued. The assertion of that deletion then fails (see PacingIsSafe).
  */
  lemma {:induction false} NobodysMayLeave(n: Net)
    requires Inv(n) && n.asking.Some? && n.asking.value.left == [] && n.asking.value.expected == 0 && n.asking.value.tfId in n.merge
    ensures
      var id, m := n.asking.value.tfId, Counted(n);
      && Inv(m) && m.deleting == Some(id) && DELETE(id) !in m.received
      && id in m.counts && m.counts[id] == |m.merge[id]| == 0
      && ((forall k | k in m.merge :: id <= k) ==>
            && Inv(Completed(m, id)) && Completed(m, id).log.built == n.log.built + [TimeFrame(id, [])]
            && id !in Completed(m, id).merge && Completed(m, id).deleting == Some(id))
  {
    hide Ordered;
    hide Inquired;
    hide Delivered;
    hide AllFresh;
    var id, m := n.asking.value.tfId, Counted(n);
    StepHolds(n, Count);
    NoneOf(n.log.accepted[id]);
    NobodysIsEmpty(n, id);
    if forall k | k in m.merge :: id <= k { CompletedHolds(m, id); }
  }

  lemma {:induction false} BuiltIdAt(built: seq<TimeFrame>, i: nat)
    requires i < |built|
    ensures |BuiltIds(built)| == |built| && BuiltIds(built)[i] == built[i].tfId
    decreases |built|
  {
    BuiltIdsLength(built);
    BuiltIdsLength(built[..|built| - 1]);
    if i < |built| - 1 { BuiltIdAt(built[..|built| - 1], i); }
  }

  /** The run in which the only sender does not promise its data, step by step. */
  lemma {:induction false} NobodyPromised(r: StfRequest)
    requires |r.senders| == 1
    ensures
      var n1 := Requested(START, r);
      var n2 := Taken(n1);
      var n3 := Answered(n2, 0, false);
      var n4 := Paced(n3);
      var n5 := Counted(n4);
      var n6 := Deleting(n5);
      && n1.requests != [] && n1.asking.None? && n1.deleting.None?
      && n2.asking == Some(Asking(r.tfId, r.senders, 0))
      && n3.asking == Some(Asking(r.tfId, [], 0)) && n3.received == [ADD(r.tfId)]
      && n4.merge == map[r.tfId := []] && n4.asking == n3.asking && n4.received == []
      && n5.deleting == Some(r.tfId)
      && n6.merge == map[r.tfId := []] && n6.counts == map[r.tfId := 0]
      && n6.received == [DELETE(r.tfId)] && n6.out == []
  {
    assert Requested(START, r).received == [ADD(r.tfId)] && Requested(START, r).requests == [r];
    assert r.senders[..0] + r.senders[1..] == [];
    assert Paced(Answered(Taken(Requested(START, r)), 0, false)).received == [];
  }
}
