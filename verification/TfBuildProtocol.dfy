/**
 Building time frames: requests arrive, sub-time-frames are asked for and received, a pacing
 stage sorts them by time frame, and complete time frames leave for merging. Each method is one
 atomic step; they may be taken in any order. Clock, queue and transport details are left open:
 which sender is asked next, whether it promises its data, and which transfer arrives next.
*/
module TfBuildProtocol {
  import opened Wrappers
  import opened Collections
  import opened TfBuildState
  import opened TfBuildLedger

  datatype BuildStatus = OK | ERROR_NOMEM | ERROR_NOT_RUNNING

  class TfBuilder {
    var received: seq<Received>
    var requests: seq<StfRequest>
    var asking: Option<Asking>
    var deleting: Option<nat>
    var counts: map<nat, nat>
    var inFlight: multiset<Transfer>
    var merge: map<nat, seq<string>>
    var out: seq<TimeFrame>
    var maxMerged: nat

    ghost var log: Log

    ghost function TheNet(): Net
      reads this
    {
      Net(received, requests, asking, deleting, counts, inFlight, merge, out, maxMerged, log)
    }

    ghost predicate Valid()
      reads this
    {
      Inv(TheNet())
    }

    constructor ()
      ensures Valid() && TheNet() == START
    {
      received, requests, asking, deleting, counts := [], [], None, None, map[];
      inFlight, merge, out, maxMerged := multiset{}, map[], [], 0;
      log := START.log;
      new;
      StartHolds();
    }

    /** The scheduler asks to build a time frame. Requests come with ascending, positive ids. */
    method BuildTfRequest(id: nat, senders: seq<string>, running: bool, fits: bool) returns (status: BuildStatus)
      requires Valid() && 0 < id && forall k | k in log.requested :: k < id
      modifies this
      ensures Valid()
      ensures status == if !running then ERROR_NOT_RUNNING else if !fits then ERROR_NOMEM else OK
      ensures TheNet() == if status == OK then Requested(old(TheNet()), StfRequest(id, senders)) else old(TheNet())
      ensures status == OK ==>
        && received == old(received) + [ADD(id)] && requests == old(requests) + [StfRequest(id, senders)]
        && log.requested == old(log.requested) + [id] && log.named == old(log.named)[id := multiset(senders)]
        && TheNet() == old(TheNet()).(received := received, requests := requests, log := log)
    {
      hide Inv;
      if !running {
        return ERROR_NOT_RUNNING;
      }
      if !fits {
        return ERROR_NOMEM;
      }
      StepHolds(TheNet(), Request(StfRequest(id, senders)));
      received := received + [ADD(id)];
      requests := requests + [StfRequest(id, senders)];
      log := log.(requested := log.requested + [id], named := log.named[id := multiset(senders)],
                  replies := log.replies[id := multiset{}], accepted := log.accepted[id := multiset{}]);
      return OK;
    }

    /** The request thread takes up the next time frame. */
    method TakeRequest()
      requires Valid() && requests != [] && asking.None? && deleting.None?
      modifies this`requests, this`asking
      ensures Valid() && TheNet() == Taken(old(TheNet()))
      ensures requests == old(requests[1..]) && asking == Some(Asking(old(requests[0].tfId), old(requests[0].senders), 0))
    {
      hide Inv;
      StepHolds(TheNet(), Take);
      asking := Some(Asking(requests[0].tfId, requests[0].senders, 0));
      requests := requests[1..];
      assert TheNet() == Taken(old(TheNet()));
    }

    /**
     Any sender that is left may be asked next; it promises its data, or it does not. All others
     are still left, and a promise is one more sub-time-frame to wait for.
    */
    method AskSender(i: nat, promised: bool)
      requires Valid() && asking.Some? && i < |asking.value.left|
      modifies this`asking, this`inFlight, this`log
      ensures Valid() && TheNet() == Answered(old(TheNet()), i, promised)
      ensures
        var id, s, left := old(asking.value.tfId), old(asking.value.left[i]), old(asking.value.left);
        && asking == Some(Asking(id, left[..i] + left[i + 1..], old(asking.value.expected) + if promised then 1 else 0))
        && inFlight == old(inFlight) + (if promised then multiset{Transfer(s, id)} else multiset{})
        && id in old(log.replies) && log.replies == old(log.replies)[id := old(log.replies)[id] + multiset{Reply(s, promised)}]
        && id in old(log.accepted) && (promised ==> log.accepted == old(log.accepted)[id := old(log.accepted)[id] + multiset{s}])
    {
      hide Inv;
      StepHolds(TheNet(), Answer(i, promised));
      AskingIsKnown(TheNet());
      var a := asking.value;
      var sender, left := a.left[i], a.left[..i] + a.left[i + 1..];
      log := log.(replies := log.replies[a.tfId := RepliesOf(log.replies, a.tfId) + multiset{Reply(sender, promised)}]);
      if promised {
        inFlight := inFlight + multiset{Transfer(sender, a.tfId)};
        asking := Some(Asking(a.tfId, left, a.expected + 1));
        log := log.(accepted := log.accepted[a.tfId := AcceptedOf(log.accepted, a.tfId) + multiset{sender}]);
      } else {
        asking := Some(Asking(a.tfId, left, a.expected));
      }
      assert TheNet() == Answered(old(TheNet()), i, promised);
    }

    /**
     All senders were asked: the number of sub-time-frames to wait for is known. When nobody
     promised anything, the time frame will be deleted.
    */
    method FinishAsking()
      requires Valid() && asking.Some? && asking.value.left == []
      modifies this`asking, this`counts, this`deleting
      ensures Valid() && TheNet() == Counted(old(TheNet()))
      ensures asking == None && counts == old(counts)[old(asking.value.tfId) := old(asking.value.expected)]
      ensures deleting == if old(asking.value.expected) == 0 then Some(old(asking.value.tfId)) else old(deleting)
      ensures EverybodyAsked(log, old(asking.value.tfId)) && counts[old(asking.value.tfId)] == |log.accepted[old(asking.value.tfId)]|
    {
      hide Inv;
      hide EverybodyAsked;
      StepHolds(TheNet(), Count);
      CountedAfterAll(Counted(TheNet()), asking.value.tfId);
      var a := asking.value;
      counts := counts[a.tfId := a.expected];
      if a.expected == 0 {
        deleting := Some(a.tfId);
      }
      asking := None;
    }

    /** The deletion is queued. */
    method Delete()
      requires Valid() && deleting.Some?
      modifies this`deleting, this`received
      ensures Valid() && TheNet() == Deleting(old(TheNet()))
      ensures deleting == None && received == old(received) + [DELETE(old(deleting.value))]
    {
      hide Inv;
      StepHolds(TheNet(), QueueDeletion);
      received := received + [DELETE(deleting.value)];
      deleting := None;
    }

    /** Some sub-time-frame in flight arrives. */
    method Receive(t: Transfer)
      requires Valid() && t in inFlight
      modifies this`inFlight, this`received
      ensures Valid() && TheNet() == Arrived(old(TheNet()), t)
      ensures inFlight == old(inFlight) - multiset{t} && received == old(received) + [INFO(t.tfId, t.sender)]
    {
      hide Inv;
      StepHolds(TheNet(), Arrive(t));
      inFlight := inFlight - multiset{t};
      received := received + [INFO(t.tfId, t.sender)];
      assert TheNet() == Arrived(old(TheNet()), t);
    }

    /**
     The pacing thread handles what is next in its queue. `asserted` tells whether its
     assertions held: in a valid state they do, except that of the deletion of a time frame that
     has left before; and no data is discarded as too late.
    */
    method Pace() returns (asserted: bool)
      requires received != []
      modifies this`received, this`merge, this`log
      ensures TheNet() == Paced(old(TheNet())) && received == old(received[1..])
      ensures match old(received[0])
        case ADD(id) => merge == old(merge)[id := []] && log == old(log).(paced := old(log.paced) + 1)
        case DELETE(id) => merge == old(merge) - {id} && log == old(log).(deleted := old(log.deleted) + (old(merge).Keys * {id}))
        case INFO(id, s) =>
          && log == old(log)
          && merge == if id <= maxMerged then old(merge) - {id} else old(merge)[id := (if id in old(merge) then old(merge)[id] else []) + [s]]
      ensures old(Valid()) ==> Valid()
      ensures old(Valid()) ==> (asserted <==> !(old(received[0]).DELETE? && old(received[0]).tfId in BuiltIds(log.built)))
      ensures old(Valid()) && old(received[0]).INFO? ==> old(received[0]).tfId in merge
      ensures old(received[0]).DELETE? ==> (asserted <==> old(received[0]).tfId in old(merge) && old(merge)[old(received[0]).tfId] == [])
      ensures old(received[0]).ADD? ==> (asserted <==> old(received[0]).tfId !in old(merge) && forall k | k in old(merge) :: k < old(received[0]).tfId)
    {
      hide Inv;
      hide BuiltIds;
      if Valid() {
        PacingIsSafe(TheNet());
        PacedHolds(TheNet());
      }
      asserted := true;
      match received[0] {
        case ADD(id) =>
          asserted := id !in merge && forall k | k in merge :: k < id;
          merge := merge[id := []];
          log := log.(paced := log.paced + 1);
        case DELETE(id) =>
          asserted := id in merge && merge[id] == [];
          if id in merge {
            log := log.(deleted := log.deleted + {id});
          }
          merge := merge - {id};
        case INFO(id, sender) =>
          if id > maxMerged {
            merge := merge[id := (if id in merge then merge[id] else []) + [sender]];
          } else {
            merge := merge - {id};
          }
      }
      received := received[1..];
    }

    /** The waiting time frame with the smallest id leaves once all that was promised is there. */
    method CompleteSmallest() returns (left: bool)
      requires Valid() && merge != map[]
      modifies this`merge, this`counts, this`out, this`log
      ensures Valid()
      ensures
        var id := Least(old(merge).Keys);
        && left == (id in old(counts) && |old(merge)[id]| == old(counts)[id])
        && TheNet() == (if left then Completed(old(TheNet()), id) else old(TheNet()))
        && (left ==> merge == old(merge) - {id} && counts == old(counts) - {id})
        && (!left ==> merge == old(merge) && counts == old(counts) && out == old(out) && log == old(log))
      ensures left ==>
        var tf := log.built[|log.built| - 1];
        && out == old(out) + [tf] && tf.tfId == Least(old(merge).Keys)
        && tf.tfId in log.accepted && multiset(tf.senders) == log.accepted[tf.tfId] && EverybodyAsked(log, tf.tfId)
    {
      hide Inv;
      hide EverybodyAsked;
      var id := Least(merge.Keys);
      if id !in counts {
        return false;
      }
      if |merge[id]| == counts[id] {
        CompletedHolds(TheNet(), id);
        var b := TimeFrame(id, merge[id]);
        out := out + [b];
        merge := merge - {id};
        counts := counts - {id};
        log := log.(built := log.built + [b]);
        BuildingIsSafe(TheNet(), |log.built| - 1, |log.built| - 1);
        return true;
      }
      return false;
    }

    /**
     The merger takes the next time frame. It starts from its first sub-time-frame; there is
     none exactly when nobody promised anything for it.
    */
    method MergeNext() returns (tf: TimeFrame, seeded: bool)
      requires Valid() && out != []
      modifies this`out, this`maxMerged
      ensures Valid() && TheNet() == Merged(old(TheNet()))
      ensures tf == old(out[0]) && tf.tfId in log.accepted && multiset(tf.senders) == log.accepted[tf.tfId]
      ensures seeded <==> log.accepted[tf.tfId] != multiset{}
      ensures out == old(out[1..]) && maxMerged == if seeded && old(maxMerged) < tf.tfId then tf.tfId else old(maxMerged)
    {
      hide Inv;
      StepHolds(TheNet(), Merge);
      NextIsBuilt(TheNet());
      tf := out[0];
      out := out[1..];
      seeded := tf.senders != [];
      assert seeded ==> tf.senders[0] in multiset(tf.senders);
      if seeded {
        maxMerged := if maxMerged < tf.tfId then tf.tfId else maxMerged;
      }
    }
  }

  lemma {:induction false} AskingIsKnown(n: Net)
    requires Inv(n) && n.asking.Some?
    ensures n.asking.value.tfId in n.log.accepted && n.asking.value.tfId in n.log.replies
  {
    hide Ordered;
    hide Conserved;
    hide BuiltIds;
  }

  lemma {:induction false} NextIsBuilt(n: Net)
    requires Inv(n) && n.out != []
    ensures n.out[0].tfId in n.log.accepted && multiset(n.out[0].senders) == n.log.accepted[n.out[0].tfId]
  {
    var k := |n.log.built| - |n.out|;
    assert n.out[0] == n.log.built[k];
    BuildingIsSafe(n, k, k);
  }

  /** The only sender asked does not promise its data, and the deletion is queued. */
  method AskInVain() returns (b: TfBuilder)
    ensures fresh(b) && b.Valid()
    ensures b.merge == map[1 := []] && b.counts == map[1 := 0] && b.received == [DELETE(1)] && b.out == []
  {
    hide Requested;
    hide Taken;
    hide Answered;
    hide Paced;
    hide Counted;
    hide Deleting;
    hide BuiltIds;
    hide Inv;
    NobodyPromised(StfRequest(1, ["flp"]));
    b := new TfBuilder();
    var _ := b.BuildTfRequest(1, ["flp"], true, true);
    b.TakeRequest();
    b.AskSender(0, false);
    var _ := b.Pace();
    b.FinishAsking();
    b.Delete();
  }

  /**
   Why a sender is needed: when the only one asked does not promise its data, the empty time
   frame is found complete before its deletion is seen, and the assertion of the deletion fails.
  */
  method NobodyPromises() returns (b: TfBuilder, asserted: bool)
    ensures !asserted && b.out == [TimeFrame(1, [])]
  {
    hide Paced;
    hide BuiltIds;
    hide Inv;
    b := AskInVain();
    assert b.merge.Keys == {1};
    var left := b.CompleteSmallest();
    asserted := b.Pace();
  }
}
