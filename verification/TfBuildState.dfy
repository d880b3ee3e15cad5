/**
 The state of building time frames: which sub-time-frames were promised by their senders, where
 each of them is, which time frames have left for merging, and what each step does.
*/
module TfBuildState {
  import opened Wrappers
  import opened Collections

  /** What the input stage finds in its queue. */
  datatype Received = ADD(tfId: nat) | INFO(tfId: nat, sender: string) | DELETE(tfId: nat)

  datatype StfRequest = StfRequest(tfId: nat, senders: seq<string>)

  /** The request thread asks one sender after the other. */
  datatype Asking = Asking(tfId: nat, left: seq<string>, expected: nat)

  datatype TimeFrame = TimeFrame(tfId: nat, senders: seq<string>)

  /** A promised sub-time-frame on its way. */
  datatype Transfer = Transfer(sender: string, tfId: nat)

  /** What a sender answered when it was asked. */
  datatype Reply = Reply(sender: string, promised: bool)

  /**
   The history: all requests, how many of them the pacing thread has seen, which senders each of
   them names, who was asked and what the answer was, who promised to send, what has left for
   merging, and what was deleted before it could.
  */
  datatype Log = Log(requested: seq<nat>, paced: nat, named: map<nat, multiset<string>>, replies: map<nat, multiset<Reply>>,
                     accepted: map<nat, multiset<string>>, built: seq<TimeFrame>, deleted: set<nat>)

  /** `deleting` is the time frame nobody promised anything for, until its deletion is queued. */
  datatype Net = Net(received: seq<Received>, requests: seq<StfRequest>, asking: Option<Asking>, deleting: Option<nat>,
                     counts: map<nat, nat>, inFlight: multiset<Transfer>, merge: map<nat, seq<string>>,
                     out: seq<TimeFrame>, maxMerged: nat, log: Log)

  const START := Net([], [], None, None, map[], multiset{}, map[], [], 0, Log([], 0, map[], map[], map[], [], {}))

  // ------------------------------------------------------------------ one place for each

  ghost function MergingOf(merge: map<nat, seq<string>>, id: nat): multiset<string> {
    if id in merge then multiset(merge[id]) else multiset{}
  }

  ghost function AcceptedOf(accepted: map<nat, multiset<string>>, id: nat): multiset<string> {
    if id in accepted then accepted[id] else multiset{}
  }

  ghost function BuiltOf(built: seq<TimeFrame>, id: nat): multiset<string> {
    if built == [] then multiset{}
    else
      var b := built[|built| - 1];
      BuiltOf(built[..|built| - 1], id) + if b.tfId == id then multiset(b.senders) else multiset{}
  }

  /** What this sender promised for this time frame is in flight, queued, waiting, or built. */
  ghost predicate Accounted(n: Net, id: nat, s: string) {
    AcceptedOf(n.log.accepted, id)[s]
    == n.inFlight[Transfer(s, id)] + multiset(n.received)[INFO(id, s)] + MergingOf(n.merge, id)[s] + BuiltOf(n.log.built, id)[s]
  }

  ghost predicate Conserved(n: Net) {
    forall id, s :: Accounted(n, id, s)
  }

  // ---------------------------------------------------------------------- the order of ids

  ghost function Adds(q: seq<Received>): seq<nat> {
    if q == [] then [] else (if q[0].ADD? then [q[0].tfId] else []) + Adds(q[1..])
  }

  /**
   No data comes before its announcement or after a deletion, and what is deleted was announced;
   `known` is what waits already, `gone` what has left.
  */
  ghost predicate Announced(q: seq<Received>, known: set<nat>, gone: set<nat>) {
    q == [] || (
      match q[0]
      case ADD(id) => Announced(q[1..], known + {id}, gone)
      case INFO(id, _) => id in known && Announced(q[1..], known, gone)
      case DELETE(id) => (id in known || id in gone) && Announced(q[1..], known - {id}, gone))
  }

  /** Known behind the queue: waiting or announced in it, and not deleted in it. */
  ghost predicate KnownBehind(q: seq<Received>, known: set<nat>, id: nat) {
    (id in known || id in Adds(q)) && DELETE(id) !in q
  }

  ghost function BuiltIds(built: seq<TimeFrame>): seq<nat> {
    if built == [] then [] else BuiltIds(built[..|built| - 1]) + [built[|built| - 1].tfId]
  }

  ghost function BuiltSet(built: seq<TimeFrame>): set<nat> {
    set id | id in BuiltIds(built)
  }

  /** The paced requests are built, waiting or deleted; the built ones come before the waiting ones. */
  ghost predicate Ordered(n: Net) {
    var l := n.log;
    && Ascending(l.requested) && l.paced <= |l.requested|
    && Adds(n.received) == l.requested[l.paced..]
    && Announced(n.received, n.merge.Keys, BuiltSet(l.built))
    && (forall id :: id in l.requested[..l.paced] <==> id in n.merge || id in BuiltIds(l.built) || id in l.deleted)
    && Ascending(BuiltIds(l.built))
    && (forall id, b | id in n.merge && b in BuiltIds(l.built) :: b < id)
    && (forall id | id in l.deleted :: id !in n.merge && id !in BuiltIds(l.built))
    && (forall id | id in l.requested :: 0 < id)
  }

  // -------------------------------------------------------------------- asking and counting

  /** Nobody was asked yet for this time frame. */
  ghost predicate Fresh(id: nat, accepted: map<nat, multiset<string>>, counts: map<nat, nat>, built: seq<nat>) {
    id in accepted && accepted[id] == multiset{} && id !in counts && id !in built
  }

  ghost predicate AllFresh(requests: seq<StfRequest>, accepted: map<nat, multiset<string>>, counts: map<nat, nat>, built: seq<nat>) {
    forall r | r in requests :: Fresh(r.tfId, accepted, counts, built)
  }

  ghost predicate InTurn(requests: seq<StfRequest>) {
    forall i, j | 0 <= i < j < |requests| :: requests[i].tfId < requests[j].tfId
  }

  /** The time frame whose senders are being asked, before all that wait. */
  ghost predicate AskingNow(a: Asking, requests: seq<StfRequest>, accepted: map<nat, multiset<string>>, counts: map<nat, nat>, built: seq<nat>) {
    && a.tfId in accepted && a.expected == |accepted[a.tfId]| && a.tfId !in counts && a.tfId !in built
    && forall r | r in requests :: a.tfId < r.tfId
  }

  ghost predicate CountOk(id: nat, count: nat, accepted: map<nat, multiset<string>>, built: seq<nat>) {
    id in accepted && count == |accepted[id]| && id !in built
  }

  ghost predicate CountsOk(counts: map<nat, nat>, accepted: map<nat, multiset<string>>, built: seq<nat>) {
    forall id | id in counts :: CountOk(id, counts[id], accepted, built)
  }

  ghost predicate SameIds(accepted: map<nat, multiset<string>>, requested: seq<nat>) {
    forall id :: id in accepted <==> id in requested
  }

  ghost predicate Asked(n: Net) {
    var l, built := n.log, BuiltIds(n.log.built);
    && SameIds(l.accepted, l.requested)
    && InTurn(n.requests) && AllFresh(n.requests, l.accepted, n.counts, built)
    && (n.asking.Some? ==> AskingNow(n.asking.value, n.requests, l.accepted, n.counts, built))
    && CountsOk(n.counts, l.accepted, built) && (n.asking.Some? ==> n.deleting.None?)
  }

  /** The senders that waiting requests name for this time frame. */
  ghost function WaitingFor(requests: seq<StfRequest>, id: nat): multiset<string> {
    if requests == [] then multiset{}
    else (if requests[0].tfId == id then multiset(requests[0].senders) else multiset{}) + WaitingFor(requests[1..], id)
  }

  /** Those that are still to be asked. */
  ghost function ToAsk(n: Net, id: nat): multiset<string> {
    (if n.asking.Some? && n.asking.value.tfId == id then multiset(n.asking.value.left) else multiset{}) + WaitingFor(n.requests, id)
  }

  ghost function RepliesOf(replies: map<nat, multiset<Reply>>, id: nat): multiset<Reply> {
    if id in replies then replies[id] else multiset{}
  }

  /** This sender is still to be asked or has answered, as often as the request names it; promises are its yeses. */
  ghost predicate AskedInTurn(l: Log, left: multiset<string>, id: nat, s: string) {
    var rs := RepliesOf(l.replies, id);
    && AcceptedOf(l.named, id)[s] == left[s] + rs[Reply(s, true)] + rs[Reply(s, false)]
    && AcceptedOf(l.accepted, id)[s] == rs[Reply(s, true)]
  }

  ghost predicate Inquired(n: Net) {
    && n.log.named.Keys == n.log.accepted.Keys && n.log.replies.Keys == n.log.accepted.Keys
    && (forall id, s :: AskedInTurn(n.log, ToAsk(n, id), id, s))
    && (forall id | id in n.counts || id in BuiltIds(n.log.built) :: ToAsk(n, id) == multiset{})
  }

  /** Everybody was asked for this time frame, and nobody promised anything. */
  ghost predicate Nobodys(id: nat, accepted: map<nat, multiset<string>>, counts: map<nat, nat>, built: seq<nat>) {
    id in accepted && accepted[id] == multiset{} && (id in counts || id in built)
  }

  /** Only what nobody promised anything for is deleted, and once. */
  ghost predicate DeletesNobodys(n: Net) {
    var l, built := n.log, BuiltIds(n.log.built);
    && (forall id | DELETE(id) in n.received :: Nobodys(id, l.accepted, n.counts, built))
    && (forall id | id in l.deleted :: Nobodys(id, l.accepted, n.counts, built))
    && (n.deleting.Some? ==>
          && Nobodys(n.deleting.value, l.accepted, n.counts, built)
          && DELETE(n.deleting.value) !in n.received && n.deleting.value !in l.deleted)
  }

  /** What left for merging holds exactly what was promised, and all of it that was merged is behind. */
  ghost predicate Delivered(n: Net) {
    && (forall b | b in n.log.built :: multiset(b.senders) == AcceptedOf(n.log.accepted, b.tfId))
    && |n.out| <= |n.log.built| && n.out == n.log.built[|n.log.built| - |n.out|..]
    && (n.maxMerged == 0 || n.maxMerged in BuiltIds(n.log.built))
  }

  ghost predicate Inv(n: Net) {
    Conserved(n) && Ordered(n) && Asked(n) && Inquired(n) && DeletesNobodys(n) && Delivered(n)
  }

  // ------------------------------------------------------------------------------ the steps

  ghost function Requested(n: Net, r: StfRequest): Net {
    n.(received := n.received + [ADD(r.tfId)], requests := n.requests + [r],
       log := n.log.(requested := n.log.requested + [r.tfId], named := n.log.named[r.tfId := multiset(r.senders)],
                     replies := n.log.replies[r.tfId := multiset{}], accepted := n.log.accepted[r.tfId := multiset{}]))
  }

  ghost function Taken(n: Net): Net
    requires n.requests != []
  {
    n.(requests := n.requests[1..], asking := Some(Asking(n.requests[0].tfId, n.requests[0].senders, 0)))
  }

  ghost function Answered(n: Net, i: nat, accepted: bool): Net
    requires n.asking.Some? && i < |n.asking.value.left|
  {
    var a := n.asking.value;
    var s, left := a.left[i], a.left[..i] + a.left[i + 1..];
    var replies := n.log.replies[a.tfId := RepliesOf(n.log.replies, a.tfId) + multiset{Reply(s, accepted)}];
    if accepted then
      n.(asking := Some(Asking(a.tfId, left, a.expected + 1)), inFlight := n.inFlight + multiset{Transfer(s, a.tfId)},
         log := n.log.(replies := replies, accepted := n.log.accepted[a.tfId := AcceptedOf(n.log.accepted, a.tfId) + multiset{s}]))
    else n.(asking := Some(Asking(a.tfId, left, a.expected)), log := n.log.(replies := replies))
  }

  /** All senders were asked. */
  ghost function Counted(n: Net): Net
    requires n.asking.Some?
  {
    var a := n.asking.value;
    n.(asking := None, counts := n.counts[a.tfId := a.expected], deleting := if a.expected == 0 then Some(a.tfId) else n.deleting)
  }

  /** The deletion of a time frame that nobody promised anything for. */
  ghost function Deleting(n: Net): Net
    requires n.deleting.Some?
  {
    n.(deleting := None, received := n.received + [DELETE(n.deleting.value)])
  }

  ghost function Arrived(n: Net, t: Transfer): Net {
    n.(inFlight := n.inFlight - multiset{t}, received := n.received + [INFO(t.tfId, t.sender)])
  }

  ghost function Paced(n: Net): Net
    requires n.received != []
  {
    var m := n.(received := n.received[1..]);
    match n.received[0]
    case ADD(id) => m.(merge := n.merge[id := []], log := n.log.(paced := n.log.paced + 1))
    case DELETE(id) =>
      m.(merge := n.merge - {id}, log := if id in n.merge then n.log.(deleted := n.log.deleted + {id}) else n.log)
    case INFO(id, s) =>
      if id > n.maxMerged
      then m.(merge := n.merge[id := (if id in n.merge then n.merge[id] else []) + [s]])
      else m.(merge := n.merge - {id})
  }

  ghost function Completed(n: Net, id: nat): Net
    requires id in n.merge
  {
    var b := TimeFrame(id, n.merge[id]);
    n.(out := n.out + [b], merge := n.merge - {id}, counts := n.counts - {id}, log := n.log.(built := n.log.built + [b]))
  }

  ghost function Merged(n: Net): Net
    requires n.out != []
  {
    n.(out := n.out[1..], maxMerged := if n.out[0].senders != [] && n.maxMerged < n.out[0].tfId then n.out[0].tfId else n.maxMerged)
  }

  // -------------------------------------------------------------------------------- whole runs

  datatype Step =
    | Request(r: StfRequest) | Take | Answer(i: nat, accepted: bool) | Count | QueueDeletion
    | Arrive(t: Transfer) | Pace | Complete(id: nat) | Merge

  /** When a step can be taken: requests come with ascending ids, the smallest complete time frame leaves. */
  ghost predicate Possible(n: Net, e: Step) {
    match e
    case Request(r) => 0 < r.tfId && forall id | id in n.log.requested :: id < r.tfId
    case Take => n.requests != [] && n.asking.None? && n.deleting.None?
    case Answer(i, _) => n.asking.Some? && i < |n.asking.value.left|
    case Count => n.asking.Some? && n.asking.value.left == []
    case QueueDeletion => n.deleting.Some?
    case Arrive(t) => t in n.inFlight
    case Pace => n.received != []
    case Complete(id) =>
      && id in n.merge && (forall k | k in n.merge :: id <= k)
      && id in n.counts && |n.merge[id]| == n.counts[id]
    case Merge => n.out != []
  }

  ghost function After(n: Net, e: Step): Net
    requires Possible(n, e)
  {
    match e
    case Request(r) => Requested(n, r)
    case Take => Taken(n)
    case Answer(i, accepted) => Answered(n, i, accepted)
    case Count => Counted(n)
    case QueueDeletion => Deleting(n)
    case Arrive(t) => Arrived(n, t)
    case Pace => Paced(n)
    case Complete(id) => Completed(n, id)
    case Merge => Merged(n)
  }

  /** These states follow on each other, from the start, by steps in any order. */
  ghost predicate Run(ns: seq<Net>, es: seq<Step>) {
    && |ns| == |es| + 1 && ns[0] == START
    && forall k | 0 <= k < |es| :: Possible(ns[k], es[k]) && ns[k + 1] == After(ns[k], es[k])
  }
}
