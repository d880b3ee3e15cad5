/** Putting sub-time-frames in sequence: repeated ones are rejected, short gaps are filled. */
module StfSequencer {
  /** Two seconds of sub-time-frames. */
  const MAX_MISSING: nat := 2 * 11234 / 256

  /** What is queued for the next stage: the data, or an empty stand-in for a missing id. */
  datatype Output = Real(id: nat) | Missing(id: nat)

  // ------------------------------------------------------------------------- what is meant

  ghost function Ids(out: seq<Output>): seq<nat> {
    seq(|out|, i requires 0 <= i < |out| => out[i].id)
  }

  /** The ids of the real data in the output. */
  ghost function RealIds(out: seq<Output>): seq<nat> {
    if out == [] then []
    else
      var x := out[|out| - 1];
      RealIds(out[..|out| - 1]) + if x.Real? then [x.id] else []
  }

  ghost function Highest(input: seq<nat>): nat {
    if input == [] then 0
    else
      var before, x := Highest(input[..|input| - 1]), input[|input| - 1];
      if before < x then x else before
  }

  /** The inputs above everything before them, from zero on. */
  ghost function Records(input: seq<nat>): seq<nat> {
    if input == [] then []
    else
      var n := |input| - 1;
      Records(input[..n]) + if Highest(input[..n]) < input[n] then [input[n]] else []
  }

  /** The id before position `k` of the output; zero at the beginning. */
  ghost function Before(out: seq<Output>, k: nat): nat
    requires k < |out|
  {
    if k == 0 then 0 else out[k - 1].id
  }

  /** Each entry follows on the one before, or a gap of at least the limit stays open before real data. */
  ghost predicate Follows(out: seq<Output>, k: nat)
    requires k < |out|
  {
    || out[k].id == Before(out, k) + 1
    || (out[k].Real? && out[k].id >= Before(out, k) + 1 + MAX_MISSING && (k == 0 || out[k - 1].Real?))
  }

  /** A stand-in never ends the output. */
  ghost predicate Sequenced(out: seq<Output>) {
    && (forall k | 0 <= k < |out| :: Follows(out, k))
    && (out != [] ==> out[|out| - 1].Real?)
  }

  ghost function LastId(out: seq<Output>): nat {
    if out == [] then 0 else out[|out| - 1].id
  }

  /** The output with a stand-in for every id up to, not including, `id`. */
  ghost function Filled(was: seq<Output>, id: nat): seq<Output>
    requires LastId(was) < id
    decreases id
  {
    if id == LastId(was) + 1 then was else Filled(was, id - 1) + [Missing(id - 1)]
  }

  // -------------------------------------------------------------------------- the sequencer

  class Sequencer {
    var lastSeqStfId: nat
    var out: seq<Output>
    var missingStfs: nat
    ghost var input: seq<nat>

    ghost predicate Valid()
      reads this
    {
      && lastSeqStfId == LastId(out) == Highest(input)
      && Sequenced(out)
      && RealIds(out) == Records(input)
      && missingStfs + |Records(input)| == |out|
    }

    constructor ()
      ensures Valid() && out == [] && input == []
    {
      lastSeqStfId, out, missingStfs, input := 0, [], 0, [];
    }

    /** The next sub-time-frame, while data is accepted. */
    method Next(id: nat)
      requires Valid()
      modifies this
      ensures Valid() && input == old(input) + [id]
      ensures id <= LastId(old(out)) ==> out == old(out)
      ensures LastId(old(out)) < id && id - LastId(old(out)) - 1 < MAX_MISSING ==> out == Filled(old(out), id) + [Real(id)]
      ensures id - LastId(old(out)) - 1 >= MAX_MISSING ==> out == old(out) + [Real(id)]
      ensures id > old(lastSeqStfId) ==>
        var last, n := old(lastSeqStfId), |old(out)|;
        var gap := id - last - 1;
        && lastSeqStfId == id && old(out) <= out && out[|out| - 1] == Real(id)
        && |out| == n + 1 + (if gap < 87 then gap else 0) && missingStfs == old(missingStfs) + (if gap < 87 then gap else 0)
        && forall k | n <= k < |out| - 1 :: out[k] == Missing(last + 1 + (k - n))
    {
      hide Follows;
      hide Sequenced;
      hide RealIds;
      hide Records;
      hide Highest;
      hide Filled;
      OneMoreInput(input, id);
      input := input + [id];
      if id <= lastSeqStfId {
        return;
      }
      ghost var was := out;
      FillMore(was, lastSeqStfId + 1);
      if lastSeqStfId + 1 == id {
        OneMore(out, Real(id));
        lastSeqStfId := id;
        out := out + [Real(id)];
        return;
      }
      var start := lastSeqStfId + 1;
      var count := id - start;
      if count < MAX_MISSING {
        for i := start to id
          invariant out == Filled(was, i) && missingStfs == old(missingStfs) + (i - start)
          invariant lastSeqStfId == old(lastSeqStfId) == LastId(was) && input == old(input) + [id]
        {
          FillMore(was, i);
          out := out + [Missing(i)];
          missingStfs := missingStfs + 1;
        }
        FilledIsSequenced(was, id);
        FilledAt(was, id);
      } else {
        LongGap(was, id);
      }
      lastSeqStfId := id;
      out := out + [Real(id)];
    }
  }

  lemma {:induction false} OneMoreOut(out: seq<Output>, x: Output)
    ensures RealIds(out + [x]) == if x.Real? then RealIds(out) + [x.id] else RealIds(out)
  {
    assert (out + [x])[..|out|] == out;
  }

  lemma {:induction false} OneMoreInput(input: seq<nat>, id: nat)
    ensures Highest(input + [id]) == if Highest(input) < id then id else Highest(input)
    ensures Records(input + [id]) == if Highest(input) < id then Records(input) + [id] else Records(input)
  {
    assert (input + [id])[..|input|] == input;
  }

  lemma {:induction false} FillMore(was: seq<Output>, id: nat)
    requires LastId(was) < id
    ensures Filled(was, LastId(was) + 1) == was
    ensures Filled(was, id + 1) == Filled(was, id) + [Missing(id)]
  {
  }

  lemma {:induction false} FilledAt(was: seq<Output>, id: nat)
    requires LastId(was) < id
    ensures was <= Filled(was, id) && |Filled(was, id)| == |was| + (id - 1 - LastId(was))
    ensures forall k | |was| <= k < |Filled(was, id)| :: Filled(was, id)[k] == Missing(LastId(was) + 1 + (k - |was|))
    decreases id
  {
    if id > LastId(was) + 1 { FilledAt(was, id - 1); }
  }

  lemma {:induction false} OneMore(was: seq<Output>, x: Output)
    requires Sequenced(was) && x.Real? && x.id == LastId(was) + 1
    ensures Sequenced(was + [x]) && RealIds(was + [x]) == RealIds(was) + [x.id]
  {
    StillFollows(was, x);
    assert (was + [x])[..|was|] == was;
  }

  lemma {:induction false} StillFollows(was: seq<Output>, x: Output)
    requires forall k | 0 <= k < |was| :: Follows(was, k)
    ensures forall k | 0 <= k < |was| :: Follows(was + [x], k)
  {
    forall k | 0 <= k < |was| ensures Follows(was + [x], k) { assert Follows(was, k); }
  }

  /** Stand-ins follow on each other and change nothing about the real data. */
  lemma {:induction false} FilledSoFar(was: seq<Output>, id: nat)
    requires Sequenced(was) && LastId(was) < id
    ensures var f := Filled(was, id);
      && (forall k | 0 <= k < |f| :: Follows(f, k)) && RealIds(f) == RealIds(was) && LastId(f) == id - 1
      && |f| == |was| + (id - 1 - LastId(was)) && was <= f
    decreases id
  {
    hide RealIds;
    if id > LastId(was) + 1 {
      FilledSoFar(was, id - 1);
      var f := Filled(was, id - 1);
      StillFollows(f, Missing(id - 1));
      OneMoreOut(f, Missing(id - 1));
    }
  }

  lemma {:induction false} FilledIsSequenced(was: seq<Output>, id: nat)
    requires Sequenced(was) && LastId(was) < id
    ensures var f := Filled(was, id);
      && Sequenced(f + [Real(id)]) && RealIds(f + [Real(id)]) == RealIds(was) + [id]
      && |f| == |was| + (id - 1 - LastId(was)) && was <= f
  {
    FilledSoFar(was, id);
    var f := Filled(was, id);
    StillFollows(f, Real(id));
    assert (f + [Real(id)])[..|f|] == f;
  }

  lemma {:induction false} LongGap(was: seq<Output>, id: nat)
    requires Sequenced(was) && id - (LastId(was) + 1) >= MAX_MISSING
    ensures Sequenced(was + [Real(id)]) && RealIds(was + [Real(id)]) == RealIds(was) + [id]
  {
    StillFollows(was, Real(id));
    assert (was + [Real(id)])[..|was|] == was;
  }

  // ------------------------------------------------------------------------- what it means

  /** The ids of the output strictly increase. */
  lemma {:induction false} OutputAscends(out: seq<Output>, i: nat, j: nat)
    requires Sequenced(out) && i < j < |out|
    ensures out[i].id < out[j].id
    decreases j
  {
    assert Follows(out, j);
    if i < j - 1 { OutputAscends(out, i, j - 1); }
  }

  /** An id that is left out lies in a gap of at least the limit, between real data. */
  lemma {:induction false} OnlyLongGapsStayOpen(out: seq<Output>, k: nat, id: nat)
    requires Sequenced(out) && 0 < k < |out| && out[k - 1].id < id < out[k].id
    ensures out[k].id - out[k - 1].id - 1 >= MAX_MISSING == 87
    ensures out[k].Real? && out[k - 1].Real?
  {
    assert Follows(out, k);
  }
}
