/** A growable bit array of seen event ids, starting at the first id that was ever recorded. */
module EventRecords {
  import opened Wrappers

  /** The id that stands for "none". */
  const NO_EVENT: nat := 0xFFFF_FFFF_FFFF_FFFF

  type EventId = n: nat | n < NO_EVENT

  /** What a recorder remembers: nothing below its floor, the first id it was given. */
  datatype Record = Record(floor: Option<nat>, events: set<nat>)
  {
    ghost function Add(evt: nat): Record {
      match floor
      case None => Record(Some(evt), events + {evt})
      case Some(f) => if evt < f then this else Record(floor, events + {evt})
    }

    ghost predicate Valid() {
      && (floor.None? ==> events == {})
      && (forall e | e in events :: floor.Some? && floor.value <= e)
    }
  }

  ghost function AddAll(r: Record, evts: seq<nat>): Record
    decreases |evts|
  {
    if evts == [] then r else AddAll(r.Add(evts[0]), evts[1..])
  }

  lemma {:induction false} AddAllValid(r: Record, evts: seq<nat>)
    requires r.Valid()
    ensures AddAll(r, evts).Valid()
    decreases |evts|
  {
    if evts != [] { AddAllValid(r.Add(evts[0]), evts[1..]); }
  }

  lemma {:induction false} AddAllSnoc(r: Record, evts: seq<nat>, e: nat)
    ensures AddAll(r, evts + [e]) == AddAll(r, evts).Add(e)
    decreases |evts|
  {
    if evts == [] {
      assert ([] + [e])[1..] == [];
    } else {
      assert (evts + [e])[1..] == evts[1..] + [e];
      AddAllSnoc(r.Add(evts[0]), evts[1..], e);
    }
  }

  const NOTHING := Record(None, {})

  /** What is remembered is exactly what was recorded at or above the first recorded id. */
  lemma {:induction false} Remembered(evts: seq<nat>)
    ensures evts == [] ==> AddAll(NOTHING, evts) == NOTHING
    ensures evts != [] ==> AddAll(NOTHING, evts).floor == Some(evts[0])
    ensures forall e :: e in AddAll(NOTHING, evts).events <==> e in evts && evts[0] <= e
    decreases |evts|
  {
    if evts != [] {
      var n := |evts| - 1;
      Remembered(evts[..n]);
      assert evts == evts[..n] + [evts[n]];
      AddAllSnoc(NOTHING, evts[..n], evts[n]);
      assert forall e :: e in evts <==> e in evts[..n] || e == evts[n];
    }
  }

  ghost predicate Bit(first: nat, records: seq<bool>, e: nat) {
    first <= e < first + |records| && records[e - first]
  }

  class EventRecorder {
    var first: nat
    var records: seq<bool>

    ghost predicate Valid()
      reads this
    {
      && first <= NO_EVENT
      && (first == NO_EVENT ==> forall k | 0 <= k < |records| :: !records[k])
    }

    ghost function Contents(): Record
      reads this
    {
      if first == NO_EVENT then Record(None, {})
      else Record(Some(first), set e | first <= e < first + |records| && Bit(first, records, e))
    }

    constructor (initSize: nat)
      ensures Valid()
      ensures Contents() == Record(None, {})
    {
      first := NO_EVENT;
      records := seq(initSize, _ => false);
    }

    /** Returns whether the record changed. */
    method SetEvent(evt: EventId, val: bool) returns (changed: bool)
      requires Valid()
      modifies this
      ensures Valid()
      ensures val ==> Contents() == old(Contents()).Add(evt)
      ensures !val ==> Contents().events == old(Contents()).events - {evt}
      ensures Contents().floor == old(Contents()).Add(evt).floor
      ensures old(Contents()).floor.None? ==> Contents() == Record(Some(evt), if val then {evt} else {})
      ensures old(Contents()).floor.Some? ==>
        && Contents().floor == old(Contents()).floor
        && Contents().events == if evt < Contents().floor.value then old(Contents()).events
                                else if val then old(Contents()).events + {evt} else old(Contents()).events - {evt}
      ensures changed <==> Contents().floor.value <= evt && (evt in old(Contents()).events) != val
    {
      ghost var was := Contents();
      if first == NO_EVENT {
        first := evt;
      }
      if evt < first {
        assert evt !in was.events;
        return false;
      }
      var idx := evt - first;
      if |records| <= idx {
        records := records + seq((idx + 3) * 4 / 3 - |records|, _ => false);
      }
      changed := records[idx] != val;
      records := records[idx := val];
      if was.floor.Some? {
        assert (set e | first <= e < first + |records| && Bit(first, records, e)) - {evt} == was.events - {evt};
      } else {
        assert (set e | first <= e < first + |records| && Bit(first, records, e)) == if val then {evt} else {};
      }
    }

    method GetEvent(evt: EventId) returns (seen: bool)
      requires Valid()
      ensures seen <==> evt in Contents().events
    {
      if first == NO_EVENT {
        return false;
      }
      if evt < first {
        return false;
      }
      var idx := evt - first;
      if |records| <= idx {
        return false;
      }
      return records[idx];
    }

    method Reset()
      modifies this
      ensures Valid()
      ensures Contents() == Record(None, {})
    {
      first := NO_EVENT;
      records := seq(|records|, _ => false);
    }
  }
}
