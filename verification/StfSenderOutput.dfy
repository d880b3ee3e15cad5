/**
 The output of a sender: each sub-time-frame is announced to the scheduler, and then handed to
 the builder that asks for it, or dropped. Each method is one atomic step.
*/
module StfSenderOutput {
  import opened StfOwnership

  const U64: nat := 0x1_0000_0000_0000_0000

  datatype ResponseStatus = OK | DATA_DROPPED_UNKNOWN | DATA_DROPPED_SCHEDULER | TF_BUILDER_UNKNOWN

  class SenderOutput {
    var hand: Hand
    var scheduled: map<nat, Stf>
    var dropQueue: seq<Stf>
    var sent: seq<Sent>
    var lastStfId: nat
    var missing: nat
    var bufferedCnt: nat
    var bufferedSize: nat

    ghost var taken: seq<Stf>
    ghost var deleted: seq<Stf>

    ghost function ThePlaces(): Places
      reads `hand, `scheduled, `dropQueue, `sent, `taken, `deleted
    {
      Places(hand, scheduled, dropQueue, sent, taken, deleted)
    }

    /** The buffer counters count what was taken and not deleted here. */
    ghost predicate Counted()
      reads `bufferedCnt, `bufferedSize, `taken, `deleted
    {
      bufferedCnt + |deleted| == |taken| && bufferedSize + TotalSize(deleted) == TotalSize(taken)
    }

    ghost predicate Valid()
      reads this
    {
      Owned(ThePlaces()) && Counted()
    }

    constructor ()
      ensures Valid() && ThePlaces() == NOWHERE
    {
      hand, scheduled, dropQueue, sent := Empty, map[], [], [];
      lastStfId, missing, bufferedCnt, bufferedSize := 0, 0, 0, 0;
      taken, deleted := [], [];
      new;
      NothingOwned();
    }

    /** The next sub-time-frame of the pipeline. Ids that were skipped are counted as missing. */
    method Take(stf: Stf)
      requires Valid() && hand == Empty
      modifies this`hand, this`taken, this`lastStfId, this`missing, this`bufferedCnt, this`bufferedSize
      ensures Valid() && ThePlaces() == Took(old(ThePlaces()), stf)
      ensures hand == Holding(stf) && taken == old(taken) + [stf]
      ensures bufferedCnt == old(bufferedCnt) + 1 && bufferedSize == old(bufferedSize) + stf.size
      ensures lastStfId == stf.id && missing == (old(missing) + (stf.id - old(lastStfId) - 1)) % U64
    {
      hide Owned;
      TookOwns(ThePlaces(), stf);
      missing := (missing + (stf.id - lastStfId - 1)) % U64;
      lastStfId := stf.id;
      bufferedSize := bufferedSize + stf.size;
      bufferedCnt := bufferedCnt + 1;
      assert (taken + [stf])[..|taken|] == taken;
      hand, taken := Holding(stf), taken + [stf];
    }

    /** Announces what is worth it, after it was filed under an id that is free. */
    method Triage(schedulerReady: bool) returns (announced: bool)
      requires Valid() && hand.Holding?
      modifies this`hand, this`scheduled, this`dropQueue
      ensures Valid()
      ensures
        var s := old(hand.stf);
        var worth := schedulerReady && s.origin != Unknown && (s.origin == ReadoutTopology ==> s.equipments == 1);
        && ThePlaces() == Triaged(old(ThePlaces()), worth) && announced == (worth && s.id !in old(scheduled))
        && (announced ==> hand == Announcing(s) && scheduled == old(scheduled)[s.id := s] && dropQueue == old(dropQueue))
        && (!announced ==> hand == Empty && scheduled == old(scheduled) && dropQueue == old(dropQueue) + [s])
    {
      hide Owned;
      var stf := hand.stf;
      var worth := schedulerReady && Announceable(stf);
      TriagedOwns(ThePlaces(), worth);
      announced := worth && stf.id !in scheduled;
      if announced {
        scheduled := scheduled[stf.id := stf];
        hand := Announcing(stf);
      } else {
        dropQueue := dropQueue + [stf];
        hand := Empty;
      }
    }

    /**
     The scheduler's answer. What it accepts stays scheduled; what it rejects is dropped, unless it
     has left already.
    */
    method Answer(ok: bool)
      requires Valid() && hand.Announcing?
      modifies this`hand, this`scheduled, this`dropQueue
      ensures Valid() && ThePlaces() == Answered(old(ThePlaces()), ok) && hand == Empty
      ensures ok ==> scheduled == old(scheduled) && dropQueue == old(dropQueue)
      ensures !ok ==>
        var s := old(hand.stf);
        && scheduled == old(scheduled) - {s.id}
        && (s.id in old(scheduled) ==> old(scheduled)[s.id] == s)
        && dropQueue == old(dropQueue) + if s.id in old(scheduled) then [s] else []
    {
      hide Owned;
      AnsweredOwns(ThePlaces(), ok);
      if hand.stf.id in scheduled { AnnouncedIsOwn(ThePlaces()); }
      var id := hand.stf.id;
      if !ok {
        if id in scheduled {
          dropQueue := dropQueue + [scheduled[id]];
          scheduled := scheduled - {id};
        }
      }
      hand := Empty;
    }

    /** A builder asks for its data, or the scheduler for it to be dropped. */
    method SendStfToTfBuilder(id: nat, builder: string, builderKnown: bool) returns (status: ResponseStatus)
      requires Valid()
      modifies this`scheduled, this`dropQueue, this`sent
      ensures Valid()
      ensures status ==
        if builder == DROP then DATA_DROPPED_SCHEDULER
        else if id !in old(scheduled) then DATA_DROPPED_UNKNOWN
        else if builderKnown then OK else TF_BUILDER_UNKNOWN
      ensures ThePlaces() ==
        if id !in old(scheduled) then old(ThePlaces())
        else if status == OK then HandedOver(old(ThePlaces()), id, builder)
        else Discarded(old(ThePlaces()), id)
      ensures scheduled == old(scheduled) - {id}
      ensures sent == old(sent) + if status == OK then [Sent(builder, old(scheduled)[id])] else []
      ensures dropQueue == old(dropQueue) + if status != OK && id in old(scheduled) then [old(scheduled)[id]] else []
    {
      hide Owned;
      if id !in scheduled {
        return if builder != DROP then DATA_DROPPED_UNKNOWN else DATA_DROPPED_SCHEDULER;
      }
      DiscardedOwns(ThePlaces(), id);
      HandedOverOwns(ThePlaces(), id, builder);
      var stf := scheduled[id];
      scheduled := scheduled - {id};
      if builder == DROP {
        dropQueue := dropQueue + [stf];
        return DATA_DROPPED_SCHEDULER;
      }
      if !builderKnown {
        dropQueue := dropQueue + [stf];
        return TF_BUILDER_UNKNOWN;
      }
      sent := sent + [Sent(builder, stf)];
      return OK;
    }

    /** The drop thread deletes the next one. The counters do not underflow. */
    method DropNext()
      requires Valid() && dropQueue != []
      modifies this`dropQueue, this`deleted, this`bufferedCnt, this`bufferedSize
      ensures Valid() && ThePlaces() == Deleted(old(ThePlaces()))
      ensures dropQueue == old(dropQueue[1..]) && deleted == old(deleted) + [old(dropQueue[0])]
      ensures bufferedCnt == old(bufferedCnt) - 1 && bufferedSize == old(bufferedSize) - old(dropQueue[0].size)
    {
      hide Owned;
      hide TotalSize;
      var stf := dropQueue[0];
      DeletedOwns(ThePlaces());
      WithinTaken(Deleted(ThePlaces()));
      OneMoreSize(deleted, stf);
      dropQueue, deleted := dropQueue[1..], deleted + [stf];
      bufferedSize := bufferedSize - stf.size;
      bufferedCnt := bufferedCnt - 1;
    }
  }

  lemma {:induction false} AnnouncedIsOwn(p: Places)
    requires Owned(p) && p.hand.Announcing? && p.hand.stf.id in p.scheduled
    ensures p.scheduled[p.hand.stf.id] == p.hand.stf
  {
  }

  /** The output's state is the last one of this run. */
  ghost predicate Follows(o: SenderOutput, ps: seq<Places>, es: seq<Step>)
    reads o
  {
    o.Valid() && Run(ps, es) && o.ThePlaces() == ps[|ps| - 1]
  }

  /** Whatever happens next is a step of the run, so all laws of runs hold of the output. */
  method TakeStep(o: SenderOutput, e: Step, ghost ps: seq<Places>, ghost es: seq<Step>)
    requires Follows(o, ps, es) && Possible(o.ThePlaces(), e)
    modifies o
    ensures Follows(o, ps + [o.ThePlaces()], es + [e])
  {
    hide Owned;
    hide SenderOutput.Counted;
    match e
    case Taking(stf) => o.Take(stf);
    case Triaging(ready) => var _ := o.Triage(ready);
    case Answering(ok) => o.Answer(ok);
    case Asking(id, builder, known) => var _ := o.SendStfToTfBuilder(id, builder, known);
    case Dropping => o.DropNext();
    assert o.ThePlaces() == Next(ps[|ps| - 1], e);
  }

  lemma {:induction false} OneMoreSize(stfs: seq<Stf>, stf: Stf)
    ensures TotalSize(stfs + [stf]) == TotalSize(stfs) + stf.size
  {
    assert (stfs + [stf])[..|stfs|] == stfs;
  }

  lemma {:induction false} WithinTaken(p: Places)
    requires Owned(p)
    ensures TotalSize(p.deleted) <= TotalSize(p.taken) && |p.deleted| <= |p.taken|
  {
    forall s ensures multiset(p.deleted)[s] <= multiset(p.taken)[s] { assert Accounted(p, s); }
    DeletedWithinTaken(p.deleted, p.taken);
  }
}
