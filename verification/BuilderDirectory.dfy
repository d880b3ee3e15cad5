/**
 The scheduler's view of the builders: how much memory it believes each of them has left, the
 order in which they are asked, and which equipment goes to which of them in a topological run.
*/
module BuilderDirectory {
  import opened Wrappers

  const U64: nat := 0x1_0000_0000_0000_0000

  /** Sizes are over-estimated by ten percent, in 64-bit arithmetic. */
  function OverEstimate(size: nat): nat {
    size * 110 % U64 / 100
  }

  /** The over-estimate covers the size exactly when the product does not wrap. */
  lemma {:induction false} OverEstimateCovers(size: nat)
    requires size < U64
    ensures size <= OverEstimate(size) <==> size * 110 < U64
  {
  }

  /** Without a wrap it is the size and a tenth of it, rounded down. */
  lemma {:induction false} OverEstimateTight(size: nat)
    ensures size * 110 < U64 ==> OverEstimate(size) == size + size / 10
  {
    assert size * 110 == 100 * size + 10 * size;
  }

  datatype TfBuilderUpdate = TfBuilderUpdate(id: string, running: bool, lastBuiltTf: nat, freeMemory: nat, tfsInBuilding: nat)

  datatype Equipment = Equipment(origin: string, subSpec: nat)

  class TfBuilderInfo {
    const id: string
    var lastScheduledTf: nat
    var estimatedFree: nat
    var reportedFree: nat
    var tfsInBuilding: nat
    var totalUtilization: nat

    /** The free memory of the last report that was taken over as it was. */
    ghost var baseline: nat
    /** The over-estimated sizes promised since. */
    ghost var promised: nat

    ghost predicate Covered()
      reads `estimatedFree, `baseline, `promised
    {
      estimatedFree + promised <= baseline
    }

    constructor (u: TfBuilderUpdate)
      ensures id == u.id && lastScheduledTf == 0 && tfsInBuilding == 0 && totalUtilization == 0
      ensures estimatedFree == reportedFree == baseline == u.freeMemory && promised == 0
    {
      id := u.id;
      lastScheduledTf, tfsInBuilding, totalUtilization := 0, 0, 0;
      estimatedFree, reportedFree, baseline, promised := u.freeMemory, u.freeMemory, u.freeMemory, 0;
    }

    /** A running builder reports. Its estimate rises only when nothing is outstanding. */
    method Update(u: TfBuilderUpdate)
      requires Covered()
      modifies this
      ensures Covered()
      ensures lastScheduledTf == old(lastScheduledTf) && totalUtilization == old(totalUtilization)
      ensures reportedFree == u.freeMemory && tfsInBuilding == u.tfsInBuilding
      ensures estimatedFree > old(estimatedFree) ==> u.lastBuiltTf == lastScheduledTf
      ensures u.lastBuiltTf == lastScheduledTf ==> estimatedFree == baseline == u.freeMemory && promised == 0
      ensures u.lastBuiltTf != lastScheduledTf ==> baseline == old(baseline) && promised == old(promised)
      ensures u.lastBuiltTf < lastScheduledTf ==>
        && estimatedFree <= u.freeMemory && estimatedFree <= old(estimatedFree)
        && (estimatedFree == u.freeMemory || estimatedFree == old(estimatedFree))
      ensures u.lastBuiltTf > lastScheduledTf ==> estimatedFree == old(estimatedFree)
    {
      reportedFree := u.freeMemory;
      tfsInBuilding := u.tfsInBuilding;
      if u.lastBuiltTf == lastScheduledTf {
        estimatedFree := u.freeMemory;
        baseline, promised := u.freeMemory, 0;
      } else if u.lastBuiltTf < lastScheduledTf {
        if estimatedFree > u.freeMemory {
          estimatedFree := u.freeMemory;
        } else {
          estimatedFree := if estimatedFree < u.freeMemory then estimatedFree else u.freeMemory;
        }
      }
    }

    /** A time frame of this over-estimated size is to be built here. */
    method Assign(need: nat)
      requires Covered() && need <= estimatedFree
      modifies this`estimatedFree, this`promised
      ensures Covered()
      ensures estimatedFree == old(estimatedFree) - need && promised == old(promised) + need
    {
      estimatedFree := estimatedFree - need;
      promised := promised + need;
    }
  }

  // ---------------------------------------------------------------- lists and assignments

  type Assignments = map<Equipment, TfBuilderInfo>

  ghost predicate Distinct(bs: seq<TfBuilderInfo>) {
    forall i, j | 0 <= i < j < |bs| :: bs[i].id != bs[j].id
  }

  /** Who is in both lists is in the same order. */
  ghost predicate SameOrder(some: seq<TfBuilderInfo>, all: seq<TfBuilderInfo>) {
    forall i, j, k, l | 0 <= i < j < |some| && 0 <= k < |all| && 0 <= l < |all| && some[i] == all[k] && some[j] == all[l] :: k < l
  }

  lemma {:induction false} SameOrderFurther(a: seq<TfBuilderInfo>, b: seq<TfBuilderInfo>, c: seq<TfBuilderInfo>)
    requires SameOrder(a, b) && SameOrder(b, c) && forall x | x in a :: x in b
    ensures SameOrder(a, c)
  {
    forall i, j, k, l | 0 <= i < j < |a| && 0 <= k < |c| && 0 <= l < |c| && a[i] == c[k] && a[j] == c[l] ensures k < l {
      assert a[i] in b && a[j] in b;
      var m :| 0 <= m < |b| && b[m] == a[i];
      var n :| 0 <= n < |b| && b[n] == a[j];
    }
  }

  /** The equipment assigned to a builder. */
  ghost function AssignedTo(topo: Assignments, b: TfBuilderInfo): set<Equipment> {
    set e | e in topo && topo[e] == b
  }

  function WithoutBuilder(topo: Assignments, id: string): Assignments {
    map e | e in topo && topo[e].id != id :: topo[e]
  }

  lemma {:induction false} AssignOne(topo: Assignments, e: Equipment, b: TfBuilderInfo, c: TfBuilderInfo)
    requires e !in topo
    ensures |AssignedTo(topo[e := b], c)| == |AssignedTo(topo, c)| + if b == c then 1 else 0
  {
    if b == c {
      assert AssignedTo(topo[e := b], c) == AssignedTo(topo, c) + {e};
    } else {
      assert AssignedTo(topo[e := b], c) == AssignedTo(topo, c);
    }
  }

  lemma {:induction false} WithoutMeans(topo: Assignments, id: string)
    ensures forall e :: e in WithoutBuilder(topo, id) <==> e in topo && topo[e].id != id
    ensures forall e | e in WithoutBuilder(topo, id) :: WithoutBuilder(topo, id)[e] == topo[e]
  {
  }

  lemma {:induction false} AssignedElsewhere(topo: Assignments, id: string, c: TfBuilderInfo)
    requires c.id != id
    ensures AssignedTo(WithoutBuilder(topo, id), c) == AssignedTo(topo, c)
  {
  }

  lemma {:induction false} NothingAssigned(topo: Assignments, b: TfBuilderInfo)
    requires forall e | e in topo :: topo[e] != b
    ensures AssignedTo(topo, b) == {}
  {
  }

  class Directory {
    var info: map<string, TfBuilderInfo>
    var ready: seq<TfBuilderInfo>
    var topo: Assignments
    var maxTfsInBuilding: nat

    /** Only known builders are ready, each once. */
    ghost predicate Listed()
      reads `info, `ready
    {
      && (forall id | id in info :: info[id].id == id)
      && (forall b | b in ready :: b.id in info && info[b.id] == b)
      && Distinct(ready)
    }

    /** No estimate promises memory that was given away since it was confirmed. */
    ghost predicate Covered()
      reads `info, info.Values
    {
      forall id | id in info :: info[id].Covered()
    }

    /** Equipment is assigned to ready builders, whose utilization counts it. */
    ghost predicate Counted()
      reads `ready, `topo, ready
    {
      && (forall e | e in topo :: topo[e] in ready)
      && (forall b | b in ready :: b.totalUtilization == |AssignedTo(topo, b)|)
    }

    ghost predicate Valid()
      reads this, info.Values, ready
    {
      Listed() && Covered() && Counted()
    }

    /** No ready builder has two more than another. */
    ghost predicate Balanced()
      reads `ready, ready
    {
      forall a, b | a in ready && b in ready :: a.totalUtilization <= b.totalUtilization + 1
    }

    constructor ()
      ensures Valid() && Balanced()
      ensures info == map[] && ready == [] && topo == map[] && maxTfsInBuilding == 16
    {
      info, ready, topo, maxTfsInBuilding := map[], [], map[], 16;
    }

    method SetMaxTfsInBuilding(max: nat)
      requires Valid()
      modifies this`maxTfsInBuilding
      ensures Valid()
      ensures 1 <= maxTfsInBuilding <= 512
      ensures maxTfsInBuilding != max ==> (max < 1 && maxTfsInBuilding == 1) || (max > 512 && maxTfsInBuilding == 512)
    {
      maxTfsInBuilding := if max < 1 then 1 else if max > 512 then 512 else max;
    }

    method RemoveReady(id: string)
      requires Valid()
      modifies this`ready, this`topo
      ensures Valid()
      ensures forall b :: b in ready <==> b in old(ready) && b.id != id
      ensures SameOrder(ready, old(ready))
      ensures topo == WithoutBuilder(old(topo), id)
      ensures old(Balanced()) ==> Balanced()
    {
      hide AssignedTo;
      hide Distinct;
      hide SameOrder;
      ghost var oldTopo := topo;
      TakeFromReady(id);
      topo := WithoutBuilder(topo, id);
      forall b | b in ready ensures AssignedTo(topo, b) == AssignedTo(oldTopo, b) {
        AssignedElsewhere(oldTopo, id, b);
      }
    }

    method TakeFromReady(id: string)
      requires Distinct(ready)
      modifies this`ready
      ensures Distinct(ready) && SameOrder(ready, old(ready))
      ensures forall b :: b in ready <==> b in old(ready) && b.id != id
    {
      hide Distinct;
      hide SameOrder;
      var i := 0;
      while i < |ready| && ready[i].id != id
        invariant 0 <= i <= |ready|
        invariant forall j | 0 <= j < i :: ready[j].id != id
      {
        i := i + 1;
      }
      InOwnOrder(ready);
      if i < |ready| {
        TakeOut(ready, i);
        ready := ready[..i] + ready[i + 1..];
      }
    }

    method UpdateTfBuilderInfo(u: TfBuilderUpdate)
      requires Valid()
      modifies this`info, this`ready, this`topo, info.Values
      ensures Valid()
      ensures !u.running ==> info == old(info) - {u.id} && (forall b :: b in ready <==> b in old(ready) && b.id != u.id)
      ensures !u.running ==> SameOrder(ready, old(ready))
      ensures !u.running && u.id in old(info) ==> topo == WithoutBuilder(old(topo), u.id)
      ensures !u.running && u.id !in old(info) ==> topo == old(topo)
      ensures !u.running && old(Balanced()) ==> Balanced()
      ensures u.running && u.id !in old(info) ==>
        && u.id in info && fresh(info[u.id]) && info == old(info)[u.id := info[u.id]]
        && ready == old(ready) + [info[u.id]] && topo == old(topo)
        && info[u.id].estimatedFree == info[u.id].baseline == u.freeMemory
      ensures u.running && u.id in old(info) ==>
        && info == old(info) && ready == old(ready) && topo == old(topo)
        && Reported(info[u.id], u, old(info[u.id].estimatedFree))
        && info[u.id].lastScheduledTf == old(info[u.id].lastScheduledTf)
        && info[u.id].totalUtilization == old(info[u.id].totalUtilization)
        && (info[u.id].estimatedFree > old(info[u.id].estimatedFree) ==> u.lastBuiltTf == old(info[u.id].lastScheduledTf))
      ensures forall b | b in old(info).Values && b.id != u.id :: unchanged(b)
    {
      hide AssignedTo;
      hide Distinct;
      hide SameOrder;
      hide WithoutBuilder;
      if !u.running {
        InOwnOrder(ready);
        if u.id in info {
          RemoveReady(u.id);
          info := info - {u.id};
        }
        return;
      }
      if u.id !in info {
        Join(u);
      } else {
        info[u.id].Update(u);
      }
    }

    /** A new builder is ready at once, and nothing is assigned to it. */
    method Join(u: TfBuilderUpdate)
      requires Valid() && u.id !in info
      modifies this`info, this`ready
      ensures Valid()
      ensures u.id in info && fresh(info[u.id]) && info == old(info)[u.id := info[u.id]]
      ensures ready == old(ready) + [info[u.id]]
      ensures info[u.id].estimatedFree == info[u.id].baseline == u.freeMemory
    {
      hide AssignedTo;
      var b := new TfBuilderInfo(u);
      assert b !in info.Values;
      NothingAssigned(topo, b);
      info := info[u.id := b];
      ready := ready + [b];
    }

    /** What a running builder's report does to the estimate. */
    ghost predicate Reported(b: TfBuilderInfo, u: TfBuilderUpdate, estimate: nat)
      reads b
    {
      && b.reportedFree == u.freeMemory && b.tfsInBuilding == u.tfsInBuilding
      && (u.lastBuiltTf == b.lastScheduledTf ==> b.estimatedFree == b.baseline == u.freeMemory && b.promised == 0)
      && (u.lastBuiltTf < b.lastScheduledTf ==> b.estimatedFree == if estimate > u.freeMemory then u.freeMemory else estimate)
      && (u.lastBuiltTf > b.lastScheduledTf ==> b.estimatedFree == estimate)
    }

    /** The first ready builder with room is chosen, charged, and moved to the end. */
    method FindTfBuilderForTf(size: nat) returns (id: Option<string>, ghost i: nat)
      requires Valid()
      modifies this`ready, ready
      ensures Valid()
      ensures i <= |old(ready)| && (id.None? <==> i == |old(ready)|)
      ensures forall j | 0 <= j < i ::
        old(ready[j].tfsInBuilding) >= maxTfsInBuilding || old(ready[j].estimatedFree) < OverEstimate(size)
      ensures id.None? ==> ready == old(ready) && forall b | b in ready :: unchanged(b)
      ensures id.Some? ==>
        && old(ready[i].tfsInBuilding) < maxTfsInBuilding && OverEstimate(size) <= old(ready[i].estimatedFree) && id == Some(old(ready)[i].id)
        && ready == old(ready)[..i] + old(ready)[i + 1..] + [old(ready)[i]]
        && old(ready)[i].estimatedFree == old(ready[i].estimatedFree) - OverEstimate(size)
        && old(ready)[i].promised == old(ready[i].promised) + OverEstimate(size)
        && old(ready)[i].totalUtilization == old(ready[i].totalUtilization)
        && old(ready)[i].lastScheduledTf == old(ready[i].lastScheduledTf) && old(ready)[i].tfsInBuilding == old(ready[i].tfsInBuilding)
        && (forall b | b in ready && b != old(ready)[i] :: unchanged(b))
    {
      hide Distinct;
      hide AssignedTo;
      hide OverEstimate;
      var need := OverEstimate(size);
      var n := 0;
      while n < |ready| && (ready[n].tfsInBuilding >= maxTfsInBuilding || ready[n].estimatedFree < need)
        invariant 0 <= n <= |ready|
        invariant forall j | 0 <= j < n :: ready[j].tfsInBuilding >= maxTfsInBuilding || ready[j].estimatedFree < need
      {
        n := n + 1;
      }
      i := n;
      if n == |ready| {
        return None, n;
      }
      var b := ready[n];
      id := Some(b.id);
      MoveToBackKeeps(ready, n);
      ready := MoveToBack(ready, n);
      b.Assign(need);
    }

    /** The builder accepted the time frame. */
    method MarkTfBuilderWithTfId(id: string, tfId: nat) returns (known: bool)
      requires Valid()
      modifies info.Values
      ensures Valid()
      ensures known <==> id in info
      ensures known ==> info[id].lastScheduledTf == tfId && info[id].tfsInBuilding == old(info[id].tfsInBuilding) + 1
      ensures known ==> info[id].estimatedFree == old(info[id].estimatedFree) && info[id].totalUtilization == old(info[id].totalUtilization)
      ensures forall b | b in info.Values && b.id != id :: unchanged(b)
    {
      known := id in info;
      if known {
        info[id].lastScheduledTf := tfId;
        info[id].tfsInBuilding := info[id].tfsInBuilding + 1;
      }
    }

    /** Equipment stays with its builder; new equipment goes to the first of the least utilized ones. */
    method FindTfBuilderForTopoStf(e: Equipment) returns (id: Option<string>)
      requires Valid()
      modifies this`topo, ready
      ensures Valid()
      ensures e in old(topo) ==> topo == old(topo) && id == Some(topo[e].id) && forall b | b in ready :: unchanged(b)
      ensures e !in old(topo) && ready == [] ==> id == None && topo == old(topo)
      ensures e !in old(topo) && ready != [] ==>
        && e in topo && topo == old(topo)[e := topo[e]]
        && var c := topo[e];
           && id == Some(c.id) && c in ready && c.totalUtilization == old(c.totalUtilization) + 1
           && (forall b | b in ready :: old(c.totalUtilization) <= old(b.totalUtilization))
           && (exists i :: 0 <= i < |ready| && ready[i] == c && forall j | 0 <= j < i :: old(c.totalUtilization) < old(ready[j].totalUtilization))
           && (forall b | b in ready && b != c :: unchanged(b))
      ensures old(Balanced()) ==> Balanced()
    {
      if e in topo {
        return Some(topo[e].id);
      }
      if ready == [] {
        return None;
      }
      var least := LeastUtilized();
      AssignTo(e, least);
      return Some(least.id);
    }

    method LeastUtilized() returns (least: TfBuilderInfo)
      requires ready != []
      ensures least in ready && forall b | b in ready :: least.totalUtilization <= b.totalUtilization
      ensures exists i :: 0 <= i < |ready| && ready[i] == least && forall j | 0 <= j < i :: least.totalUtilization < ready[j].totalUtilization
    {
      least := ready[0];
      ghost var at := 0;
      for i := 1 to |ready|
        invariant least in ready
        invariant forall j | 0 <= j < i :: least.totalUtilization <= ready[j].totalUtilization
        invariant 0 <= at < i && ready[at] == least && forall j | 0 <= j < at :: least.totalUtilization < ready[j].totalUtilization
      {
        if ready[i].totalUtilization < least.totalUtilization {
          least, at := ready[i], i;
        }
      }
    }

    method AssignTo(e: Equipment, least: TfBuilderInfo)
      requires Valid() && least in ready && e !in topo
      requires forall b | b in ready :: least.totalUtilization <= b.totalUtilization
      modifies this`topo, least`totalUtilization
      ensures Valid()
      ensures topo == old(topo)[e := least] && least.totalUtilization == old(least.totalUtilization) + 1
      ensures old(Balanced()) ==> Balanced()
    {
      forall b | b in ready ensures |AssignedTo(topo[e := least], b)| == |AssignedTo(topo, b)| + if b == least then 1 else 0 {
        AssignOne(topo, e, least, b);
      }
      hide AssignedTo;
      least.totalUtilization := least.totalUtilization + 1;
      topo := topo[e := least];
    }

    method Forget(id: string)
      requires Valid()
      modifies this`info, this`ready, this`topo
      ensures Valid()
      ensures forall b :: b in ready <==> b in old(ready) && b.id != id
      ensures SameOrder(ready, old(ready))
      ensures forall e :: e in topo <==> e in old(topo) && old(topo)[e].id != id
      ensures forall e | e in topo :: topo[e] == old(topo)[e]
      ensures info == old(info) - {id}
      ensures old(Balanced()) ==> Balanced()
    {
      hide Counted;
      RemoveReady(id);
      info := info - {id};
    }

    lemma {:induction false} ReadyInOrder()
      requires Valid()
      ensures SameOrder(ready, ready)
    {
      InOwnOrder(ready);
    }

    /** Builders that have not reported for too long are forgotten. */
    method Expire(ids: seq<string>)
      requires Valid()
      modifies this`info, this`ready, this`topo
      ensures Valid()
      ensures forall b :: b in ready <==> b in old(ready) && b.id !in ids
      ensures SameOrder(ready, old(ready))
      ensures forall e :: e in topo <==> e in old(topo) && old(topo)[e].id !in ids
      ensures forall e | e in topo :: topo[e] == old(topo)[e]
      ensures info == old(info) - (set i | i in ids)
      ensures old(Balanced()) ==> Balanced()
    {
      hide *;
      ReadyInOrder();
      for i := 0 to |ids|
        invariant Valid()
        invariant forall b :: b in ready <==> b in old(ready) && b.id !in ids[..i]
        invariant SameOrder(ready, old(ready))
        invariant forall e :: e in topo <==> e in old(topo) && old(topo)[e].id !in ids[..i]
        invariant forall e | e in topo :: topo[e] == old(topo)[e]
        invariant info == old(info) - (set j | j in ids[..i])
        invariant old(Balanced()) ==> Balanced()
      {
        assert ids[..i + 1] == ids[..i] + [ids[i]];
        ghost var before := ready;
        Forget(ids[i]);
        SameOrderFurther(ready, before, old(ready));
      }
      assert ids[..|ids|] == ids;
    }
  }

  lemma {:induction false} InOwnOrder(bs: seq<TfBuilderInfo>)
    requires Distinct(bs)
    ensures SameOrder(bs, bs)
  {
  }

  lemma {:induction false} TakeOut(bs: seq<TfBuilderInfo>, i: nat)
    requires Distinct(bs) && i < |bs|
    ensures Distinct(bs[..i] + bs[i + 1..]) && SameOrder(bs[..i] + bs[i + 1..], bs)
    ensures forall b :: b in bs[..i] + bs[i + 1..] <==> b in bs && b.id != bs[i].id
  {
    assert bs == bs[..i] + [bs[i]] + bs[i + 1..];
  }

  function MoveToBack(bs: seq<TfBuilderInfo>, i: nat): seq<TfBuilderInfo>
    requires i < |bs|
  {
    bs[..i] + bs[i + 1..] + [bs[i]]
  }

  lemma {:induction false} MoveToBackKeeps(bs: seq<TfBuilderInfo>, i: nat)
    requires i < |bs|
    ensures forall b :: b in MoveToBack(bs, i) <==> b in bs
    ensures Distinct(bs) ==> Distinct(MoveToBack(bs, i))
  {
    assert bs == bs[..i] + [bs[i]] + bs[i + 1..];
  }
}
