/** What a sub-time-frame is made of, and the meaning of merging several of them. */
module StfModel {
  import opened Collections

  type Part = seq<bv8>

  /** The data header at the front of a header stack; `rest` stands for the headers stacked behind it. */
  datatype DataHeader = DataHeader(desc: nat, origin: nat, subSpec: nat, splitIndex: nat, splitParts: nat,
                                   payloadSize: nat, tfCounter: nat, runNumber: nat, firstOrbit: nat, rest: seq<bv8>)
  {
    function Equip(): Equipment { Equipment(desc, origin, subSpec) }
  }

  datatype Equipment = Equipment(desc: nat, origin: nat, subSpec: nat)

  /** One message: a header and one or more data parts. */
  datatype Message = Message(hdr: DataHeader, parts: seq<Part>)

  type StfData = map<Equipment, seq<Message>>

  datatype Origin = Invalid | Readout | ReadoutTopology | Null

  const NO_ORBIT: nat := 0xFFFF_FFFF

  const NO_ID: nat := 0xFFFF_FFFF_FFFF_FFFF

  datatype StfHeader = StfHeader(id: nat, firstOrbit: nat, runNumber: nat, origin: Origin, creationTimeMs: nat)

  // ------------------------------------------------------------------------------- sizes

  function PartsSize(parts: seq<Part>): nat {
    if parts == [] then 0 else PartsSize(parts[..|parts| - 1]) + |parts[|parts| - 1]|
  }

  function MessagesSize(ms: seq<Message>): nat {
    if ms == [] then 0 else MessagesSize(ms[..|ms| - 1]) + PartsSize(ms[|ms| - 1].parts)
  }

  lemma {:induction false} MessagesSizeConcat(a: seq<Message>, b: seq<Message>)
    ensures MessagesSize(a + b) == MessagesSize(a) + MessagesSize(b)
    decreases |b|
  {
    if b == [] {
      assert a + b == a;
    } else {
      var n := |b| - 1;
      assert (a + b)[..|a| + n] == a + b[..n];
      MessagesSizeConcat(a, b[..n]);
    }
  }

  /** The payload bytes of all messages, in whatever order the equipment is visited. */
  ghost function TotalSize(data: StfData): nat
    decreases |data|
  {
    if data == map[] then 0
    else
      var e :| e in data;
      MessagesSize(data[e]) + TotalSize(data - {e})
  }

  lemma {:induction false} TotalSizeNone()
    ensures TotalSize(map[]) == 0
  {
  }

  lemma {:induction false} TotalSizeSplit(data: StfData, e: Equipment)
    requires e in data
    ensures TotalSize(data) == MessagesSize(data[e]) + TotalSize(data - {e})
    decreases |data|
  {
    var f :| f in data && TotalSize(data) == MessagesSize(data[f]) + TotalSize(data - {f});
    if e != f {
      TotalSizeSplit(data - {f}, e);
      TotalSizeSplit(data - {e}, f);
      assert (data - {f}) - {e} == (data - {e}) - {f};
    }
  }

  // --------------------------------------------------------------------------- refreshing

  /** The counters that every header repeats are brought up to date. */
  function Refresh(m: Message, h: StfHeader): Message {
    if m.parts == [] then m
    else
      var n := |m.parts|;
      m.(hdr := m.hdr.(tfCounter := h.id % 0x1_0000_0000, runNumber := h.runNumber,
                       firstOrbit := if h.firstOrbit != NO_ORBIT then h.firstOrbit else m.hdr.firstOrbit,
                       splitIndex := if n > 1 then n else 0, splitParts := n))
  }

  function RefreshAll(ms: seq<Message>, h: StfHeader): seq<Message> {
    seq(|ms|, i requires 0 <= i < |ms| => Refresh(ms[i], h))
  }

  ghost function Refreshed(data: StfData, h: StfHeader): StfData {
    map e | e in data :: RefreshAll(data[e], h)
  }

  /**
   The message `after` is `before` with a header that tells its sub-time-frame and how many parts
   it has. The first orbit stays as it was when that of the sub-time-frame is not known.
  */
  ghost predicate BroughtUpToDate(before: Message, after: Message, h: StfHeader) {
    var was, now, n := before.hdr, after.hdr, |before.parts|;
    && after.parts == before.parts
    && (n == 0 ==> now == was)
    && (n > 0 ==>
          && now.tfCounter == h.id % 0x1_0000_0000 && now.runNumber == h.runNumber
          && now.firstOrbit == (if h.firstOrbit == NO_ORBIT then was.firstOrbit else h.firstOrbit)
          && now.splitParts == n && now.splitIndex == (if n == 1 then 0 else n)
          && now.Equip() == was.Equip() && now.payloadSize == was.payloadSize && now.rest == was.rest)
  }

  /** The same messages of the same equipment in the same order, each brought up to date. */
  ghost predicate AllBroughtUpToDate(before: StfData, after: StfData, h: StfHeader) {
    && after.Keys == before.Keys
    && (forall e | e in before :: |after[e]| == |before[e]|)
    && forall e, i | e in before && 0 <= i < |before[e]| :: BroughtUpToDate(before[e][i], after[e][i], h)
  }

  lemma {:induction false} RefreshedMeans(data: StfData, h: StfHeader)
    ensures AllBroughtUpToDate(data, Refreshed(data, h), h)
  {
  }

  lemma {:induction false} RefreshAllSize(ms: seq<Message>, h: StfHeader)
    ensures MessagesSize(RefreshAll(ms, h)) == MessagesSize(ms)
    decreases |ms|
  {
    if ms != [] {
      var n := |ms| - 1;
      RefreshAllSize(ms[..n], h);
      assert RefreshAll(ms, h)[..n] == RefreshAll(ms[..n], h);
    }
  }

  /** Refreshing again changes nothing. */
  lemma {:induction false} RefreshTwice(data: StfData, h: StfHeader)
    ensures Refreshed(Refreshed(data, h), h) == Refreshed(data, h)
  {
    forall e | e in data ensures RefreshAll(RefreshAll(data[e], h), h) == RefreshAll(data[e], h) {
      assert forall i | 0 <= i < |data[e]| :: Refresh(Refresh(data[e][i], h), h) == Refresh(data[e][i], h);
    }
  }

  lemma {:induction false} RefreshedSize(data: StfData, h: StfHeader)
    ensures TotalSize(Refreshed(data, h)) == TotalSize(data)
    decreases |data|
  {
    hide TotalSize;
    hide RefreshAll;
    TotalSizeNone();
    if data == map[] {
      assert Refreshed(data, h) == map[];
    } else {
      var e :| e in data;
      TotalSizeSplit(data, e);
      TotalSizeSplit(Refreshed(data, h), e);
      RefreshAllSize(data[e], h);
      RefreshedSize(data - {e}, h);
      assert Refreshed(data, h) - {e} == Refreshed(data - {e}, h);
    }
  }

  /** All but the equipment in `todo` is up to date. */
  ghost predicate PartRefreshed(was: StfData, now: StfData, todo: set<Equipment>, h: StfHeader) {
    && now.Keys == was.Keys && todo <= was.Keys
    && forall e | e in was :: now[e] == if e in todo then was[e] else RefreshAll(was[e], h)
  }

  lemma {:induction false} PartBegins(was: StfData, h: StfHeader)
    ensures PartRefreshed(was, was, was.Keys, h) && TotalSize(was - was.Keys) == 0
  {
    assert was - was.Keys == map[];
  }

  lemma {:induction false} PartMore(was: StfData, now: StfData, todo: set<Equipment>, h: StfHeader, e: Equipment)
    requires PartRefreshed(was, now, todo, h) && e in todo
    ensures e in was && now.Keys == was.Keys && now[e] == was[e]
    ensures PartRefreshed(was, now[e := RefreshAll(was[e], h)], todo - {e}, h)
    ensures TotalSize(was - (todo - {e})) == TotalSize(was - todo) + MessagesSize(was[e])
  {
    hide RefreshAll;
    hide TotalSize;
    TotalSizeSplit(was - (todo - {e}), e);
    assert was - (todo - {e}) - {e} == was - todo;
  }

  lemma {:induction false} PartEnds(was: StfData, now: StfData, h: StfHeader)
    requires PartRefreshed(was, now, {}, h)
    ensures now == Refreshed(was, h) && TotalSize(was - {}) == TotalSize(now)
  {
    hide TotalSize;
    hide RefreshAll;
    assert was - {} == was;
    RefreshedSize(was, h);
  }

  // ------------------------------------------------------------------------------- adding

  /** A new message of the equipment, with its first data part. */
  function Started(data: StfData, e: Equipment, hdr: DataHeader, part: Part): StfData {
    data[e := MessagesOf(data, e) + [Message(hdr, [part])]]
  }

  /** One more data part for a message that is there. */
  function Appended(data: StfData, e: Equipment, i: nat, part: Part): StfData
    requires e in data && i < |data[e]|
  {
    data[e := data[e][i := data[e][i].(parts := data[e][i].parts + [part])]]
  }

  /** Nothing changed but what is filed under this equipment. */
  ghost predicate OnlyChanges(before: StfData, after: StfData, e: Equipment) {
    after.Keys == before.Keys + {e} && forall f | f in before && f != e :: after[f] == before[f]
  }

  /** One message was added at the end of its equipment, and nothing else changed. */
  ghost predicate AddsMessage(before: StfData, after: StfData, e: Equipment, m: Message) {
    OnlyChanges(before, after, e) && after[e] == MessagesOf(before, e) + [m]
  }

  /** One message got one more data part, and nothing else changed. */
  ghost predicate AddsPart(before: StfData, after: StfData, e: Equipment, i: nat, part: Part) {
    && OnlyChanges(before, after, e) && e in before && i < |before[e]| == |after[e]|
    && after[e][i].hdr == before[e][i].hdr && after[e][i].parts == before[e][i].parts + [part]
    && forall j | 0 <= j < |after[e]| && j != i :: after[e][j] == before[e][j]
  }

  lemma {:induction false} AddedDetermines(before: StfData, after: StfData, e: Equipment, hdr: DataHeader, part: Part)
    ensures AddsMessage(before, after, e, Message(hdr, [part])) <==> after == Started(before, e, hdr, part)
  {
  }

  lemma {:induction false} GrownDetermines(before: StfData, after: StfData, e: Equipment, i: nat, part: Part)
    requires e in before && i < |before[e]|
    ensures AddsPart(before, after, e, i, part) <==> after == Appended(before, e, i, part)
  {
    if AddsPart(before, after, e, i, part) {
      assert after[e] == Appended(before, e, i, part)[e];
    }
  }

  // ------------------------------------------------------------------------------- merging

  function MessagesOf(data: StfData, e: Equipment): seq<Message> {
    if e in data then data[e] else []
  }

  /** What a merge sees of a sub-time-frame; `size` is the data size it reports. */
  datatype Stf = Stf(header: StfHeader, data: StfData, size: nat)
  {
    /** An empty sub-time-frame made up for a missing one. */
    predicate Skipped() { header.origin == Null && size == 0 }
  }

  ghost function Union(a: StfData, b: StfData): StfData {
    map e | e in a.Keys + b.Keys :: MessagesOf(a, e) + MessagesOf(b, e)
  }

  lemma {:induction false} UnionNone(data: StfData)
    ensures Union(map[], data) == data
  {
    assert forall e | e in data :: [] + data[e] == data[e];
  }

  ghost function Merge(h: StfHeader, data: StfData, s: Stf): (StfHeader, StfData) {
    if s.Skipped() then (h, data)
    else (if h.origin == Null then s.header else h, Union(data, s.data))
  }

  ghost function MergeAll(h: StfHeader, data: StfData, stfs: seq<Stf>): (StfHeader, StfData) {
    if stfs == [] then (h, data)
    else
      var n := |stfs| - 1;
      var before := MergeAll(h, data, stfs[..n]);
      Merge(before.0, before.1, stfs[n])
  }

  /** What one sub-time-frame contributes. */
  ghost function Share(s: Stf, e: Equipment): seq<Message> {
    if s.Skipped() then [] else MessagesOf(s.data, e)
  }

  /** The messages of one equipment in all sub-time-frames that are not skipped, in order. */
  ghost function Gathered(stfs: seq<Stf>, e: Equipment): seq<Message> {
    if stfs == [] then []
    else
      var n := |stfs| - 1;
      Gathered(stfs[..n], e) + Share(stfs[n], e)
  }

  ghost predicate Holds(s: Stf, e: Equipment) {
    !s.Skipped() && e in s.data
  }

  /** A merge keeps every message of every equipment, in the order of the sub-time-frames. */
  lemma {:induction false} MergeGathers(h: StfHeader, data: StfData, stfs: seq<Stf>, e: Equipment)
    ensures MessagesOf(MergeAll(h, data, stfs).1, e) == MessagesOf(data, e) + Gathered(stfs, e)
    decreases |stfs|
  {
    if stfs != [] {
      MergeGathers(h, data, stfs[..|stfs| - 1], e);
    }
  }

  lemma {:induction false} MergeEquipment(h: StfHeader, data: StfData, stfs: seq<Stf>, e: Equipment)
    ensures e in MergeAll(h, data, stfs).1 <==> e in data || exists s :: s in stfs && Holds(s, e)
    decreases |stfs|
  {
    if stfs != [] {
      var n := |stfs| - 1;
      MergeEquipment(h, data, stfs[..n], e);
      assert forall s :: s in stfs <==> s in stfs[..n] || s == stfs[n];
      var before := MergeAll(h, data, stfs[..n]).1;
      assert e in MergeAll(h, data, stfs).1 <==> e in before || Holds(stfs[n], e);
    }
  }

  /** The header is that of the first sub-time-frame with a real origin, if there is one. */
  lemma {:induction false} MergeHeader(h: StfHeader, data: StfData, stfs: seq<Stf>, i: nat)
    requires h.origin == Null && i < |stfs| && stfs[i].header.origin != Null
    requires forall j | 0 <= j < i :: stfs[j].header.origin == Null
    ensures MergeAll(h, data, stfs).0 == stfs[i].header
    decreases |stfs|
  {
    var n := |stfs| - 1;
    if i < n {
      MergeHeader(h, data, stfs[..n], i);
    } else {
      AllNull(h, data, stfs[..n]);
    }
  }

  lemma {:induction false} AllNull(h: StfHeader, data: StfData, stfs: seq<Stf>)
    requires h.origin == Null && forall j | 0 <= j < |stfs| :: stfs[j].header.origin == Null
    ensures MergeAll(h, data, stfs).0.origin == Null
    decreases |stfs|
  {
    if stfs != [] { AllNull(h, data, stfs[..|stfs| - 1]); }
  }

  lemma {:induction false} MergeKeepsHeader(h: StfHeader, data: StfData, stfs: seq<Stf>)
    requires h.origin != Null
    ensures MergeAll(h, data, stfs).0 == h
    decreases |stfs|
  {
    if stfs != [] { MergeKeepsHeader(h, data, stfs[..|stfs| - 1]); }
  }

  // ------------------------------------------------------- the order does not matter

  /** No equipment comes from two places. */
  ghost predicate Disjoint(stfs: seq<Stf>) {
    forall i, j, e | 0 <= i < j < |stfs| && Holds(stfs[i], e) :: !Holds(stfs[j], e)
  }

  lemma {:induction false} GatheredFromOne(stfs: seq<Stf>, e: Equipment, i: nat)
    requires i < |stfs| && Holds(stfs[i], e)
    requires forall j | 0 <= j < |stfs| && j != i :: !Holds(stfs[j], e)
    ensures Gathered(stfs, e) == stfs[i].data[e]
    decreases |stfs|
  {
    var n := |stfs| - 1;
    if i == n {
      GatheredFromNone(stfs[..n], e);
    } else {
      GatheredFromOne(stfs[..n], e, i);
    }
  }

  lemma {:induction false} GatheredFromNone(stfs: seq<Stf>, e: Equipment)
    requires forall j | 0 <= j < |stfs| :: !Holds(stfs[j], e)
    ensures Gathered(stfs, e) == []
    decreases |stfs|
  {
    if stfs != [] { GatheredFromNone(stfs[..|stfs| - 1], e); }
  }

  lemma {:induction false} GatheredInAnyOrder(a: seq<Stf>, b: seq<Stf>, e: Equipment)
    requires multiset(a) == multiset(b) && Disjoint(a)
    ensures Gathered(a, e) == Gathered(b, e)
  {
    assert forall s :: s in a <==> s in multiset(a);
    assert forall s :: s in b <==> s in multiset(b);
    if i :| 0 <= i < |a| && Holds(a[i], e) {
      GatheredFromOne(a, e, i);
      assert a[i] in b;
      var j :| 0 <= j < |b| && b[j] == a[i];
      forall k | 0 <= k < |b| && k != j ensures !Holds(b[k], e) {
        assert b[k] in a;
        var m :| 0 <= m < |a| && a[m] == b[k];
        if m == i { HeldOnce(a, b, e, i, j, k); }
      }
      GatheredFromOne(b, e, j);
    } else {
      GatheredFromNone(a, e);
      forall j | 0 <= j < |b| ensures !Holds(b[j], e) {
        assert b[j] in a;
      }
      GatheredFromNone(b, e);
    }
  }

  lemma {:induction false} HeldOnce(a: seq<Stf>, b: seq<Stf>, e: Equipment, i: nat, j: nat, k: nat)
    requires multiset(a) == multiset(b) && Disjoint(a)
    requires i < |a| && j < |b| && k < |b| && j != k && Holds(a[i], e)
    requires b[j] == a[i]
    ensures b[k] != a[i]
  {
    if b[k] == a[i] {
      Twice(b, if j < k then j else k, if j < k then k else j);
      TwicePlaces(a, a[i]);
      assert false;
    }
  }

  /** With no equipment in two places, every order of merging gives the same data. */
  lemma {:induction false} MergeInAnyOrder(h: StfHeader, a: seq<Stf>, b: seq<Stf>)
    requires multiset(a) == multiset(b) && Disjoint(a)
    ensures MergeAll(h, map[], a).1 == MergeAll(h, map[], b).1
  {
    var left, right := MergeAll(h, map[], a).1, MergeAll(h, map[], b).1;
    assert forall s :: s in a <==> s in multiset(a);
    assert forall s :: s in b <==> s in multiset(b);
    forall e
      ensures (e in left <==> e in right) && MessagesOf(left, e) == MessagesOf(right, e)
    {
      MergeEquipment(h, map[], a, e);
      MergeEquipment(h, map[], b, e);
      MergeGathers(h, map[], a, e);
      MergeGathers(h, map[], b, e);
      GatheredInAnyOrder(a, b, e);
    }
    assert forall e | e in left :: left[e] == MessagesOf(left, e) == right[e];
  }

  // ------------------------------------------------------- merging into the first one

  /** The merger starts from the first sub-time-frame, whatever it is, and adds the others. */
  ghost function Seeded(stfs: seq<Stf>): (StfHeader, StfData)
    requires stfs != []
  {
    MergeAll(stfs[0].header, stfs[0].data, stfs[1..])
  }

  lemma {:induction false} SeededGathers(stfs: seq<Stf>, e: Equipment)
    requires stfs != []
    ensures MessagesOf(Seeded(stfs).1, e) == MessagesOf(stfs[0].data, e) + Gathered(stfs[1..], e)
  {
    MergeGathers(stfs[0].header, stfs[0].data, stfs[1..], e);
  }

  ghost predicate FirstReal(stfs: seq<Stf>, i: nat) {
    i < |stfs| && stfs[i].header.origin != Null && forall j | 0 <= j < i :: stfs[j].header.origin == Null
  }

  /** The header of the first sub-time-frame with a real origin is that of the whole. */
  lemma {:induction false} SeededHeader(stfs: seq<Stf>, i: nat)
    requires FirstReal(stfs, i)
    ensures Seeded(stfs).0 == stfs[i].header
  {
    if i == 0 {
      MergeKeepsHeader(stfs[0].header, stfs[0].data, stfs[1..]);
    } else {
      MergeHeader(stfs[0].header, stfs[0].data, stfs[1..], i - 1);
    }
  }

  /** A skipped one has nothing of its own: no messages, and no equipment but that of others. */
  ghost predicate Harmless(s: Stf, stfs: seq<Stf>) {
    s.Skipped() ==> forall e | e in s.data :: s.data[e] == [] && exists t :: t in stfs && Holds(t, e)
  }

  lemma {:induction false} GatheredSnoc(stfs: seq<Stf>, s: Stf, e: Equipment)
    ensures Gathered([], e) == [] && Gathered(stfs + [s], e) == Gathered(stfs, e) + Share(s, e)
  {
    assert (stfs + [s])[..|stfs|] == stfs;
  }

  lemma {:induction false} GatheredCons(s: Stf, stfs: seq<Stf>, e: Equipment)
    ensures Gathered([s] + stfs, e) == Share(s, e) + Gathered(stfs, e)
    decreases |stfs|
  {
    hide Gathered;
    hide Share;
    if stfs == [] {
      GatheredSnoc([], s, e);
      assert [] + [s] == [s] + stfs;
    } else {
      var n := |stfs| - 1;
      var front, last := stfs[..n], stfs[n];
      GatheredCons(s, front, e);
      GatheredSnoc(front, last, e);
      GatheredSnoc([s] + front, last, e);
      assert stfs == front + [last] && [s] + stfs == ([s] + front) + [last];
    }
  }

  /** The seed is treated as any other one exactly when it is harmless. */
  lemma {:induction false} SeedIsMerged(h: StfHeader, stfs: seq<Stf>)
    requires stfs != []
    ensures Seeded(stfs).1 == MergeAll(h, map[], stfs).1 <==> Harmless(stfs[0], stfs)
  {
    var s, rest := stfs[0], stfs[1..];
    var left, right := Seeded(stfs).1, MergeAll(h, map[], stfs).1;
    assert stfs == [s] + rest;
    assert forall t :: t in stfs <==> t == s || t in rest;
    forall e
      ensures MessagesOf(left, e) == MessagesOf(s.data, e) + Gathered(rest, e)
      ensures MessagesOf(right, e) == (if s.Skipped() then [] else MessagesOf(s.data, e)) + Gathered(rest, e)
      ensures e in left <==> e in s.data || exists t :: t in rest && Holds(t, e)
      ensures e in right <==> exists t :: t in stfs && Holds(t, e)
    {
      SeededGathers(stfs, e);
      GatheredCons(s, rest, e);
      MergeGathers(h, map[], stfs, e);
      MergeEquipment(s.header, s.data, rest, e);
      MergeEquipment(h, map[], stfs, e);
    }
    hide MergeAll;
    hide Seeded;
    hide Gathered;
    SameEquipment(s, stfs, rest, left, right);
  }

  lemma {:induction false} SameEquipment(s: Stf, stfs: seq<Stf>, rest: seq<Stf>, left: StfData, right: StfData)
    requires forall t :: t in stfs <==> t == s || t in rest
    requires forall e :: MessagesOf(left, e) == MessagesOf(s.data, e) + Gathered(rest, e)
    requires forall e :: MessagesOf(right, e) == (if s.Skipped() then [] else MessagesOf(s.data, e)) + Gathered(rest, e)
    requires forall e :: e in left <==> e in s.data || exists t :: t in rest && Holds(t, e)
    requires forall e :: e in right <==> exists t :: t in stfs && Holds(t, e)
    ensures left == right <==> Harmless(s, stfs)
  {
    hide Gathered;
    if Harmless(s, stfs) {
      forall e ensures (e in left <==> e in right) && MessagesOf(left, e) == MessagesOf(right, e) {
        if s.Skipped() && e in s.data { assert MessagesOf(s.data, e) == []; }
        assert Holds(s, e) ==> s in stfs;
      }
      assert forall e | e in left :: left[e] == MessagesOf(left, e) == right[e];
    }
    if left == right && s.Skipped() {
      forall e | e in s.data ensures s.data[e] == [] && exists t :: t in stfs && Holds(t, e) {
        assert e in left && e in right;
        assert MessagesOf(left, e) == MessagesOf(right, e);
        assert |MessagesOf(left, e)| == |MessagesOf(s.data, e)| + |Gathered(rest, e)|;
      }
    }
  }

  /**
   Whichever sub-time-frame is the first and in whatever order the others follow, the data of
   the time frame is the same, if and only if all of them are harmless.
  */
  lemma {:induction false} SeededInAnyOrder(h: StfHeader, a: seq<Stf>)
    requires Disjoint(a) && a != []
    ensures (forall b | multiset(b) == multiset(a) && b != [] :: Seeded(b).1 == MergeAll(h, map[], a).1)
       <==> forall s | s in a :: Harmless(s, a)
  {
    hide Seeded;
    hide MergeAll;
    hide Harmless;
    hide Disjoint;
    forall b | multiset(b) == multiset(a) && b != []
      ensures Seeded(b).1 == MergeAll(h, map[], a).1 <==> Harmless(b[0], a)
      ensures b[0] in a
    {
      assert b[0] in multiset(a);
      SeedIsMerged(h, b);
      MergeInAnyOrder(h, a, b);
      HarmlessAmong(b[0], a, b);
    }
    forall s | s in a
      ensures exists b :: multiset(b) == multiset(a) && b != [] && b[0] == s
    {
      var i :| 0 <= i < |a| && a[i] == s;
      var b := [s] + (a[..i] + a[i + 1..]);
      assert a == a[..i] + [s] + a[i + 1..];
      assert b[0] == s;
    }
  }

  /** What merging into the first one comes to. */
  lemma {:induction false} SeededMeans(s: Stf, rest: seq<Stf>)
    ensures
      var all := [s] + rest;
      && Seeded(all) == MergeAll(s.header, s.data, rest)
      && (forall e :: MessagesOf(Seeded(all).1, e) == MessagesOf(s.data, e) + Gathered(rest, e))
      && (forall i: nat | FirstReal(all, i) :: Seeded(all).0 == all[i].header)
      && (Disjoint(all) && (forall t | t in all :: Harmless(t, all)) ==>
            forall b | multiset(b) == multiset(all) && b != [] :: Seeded(b).1 == Seeded(all).1)
  {
    var all := [s] + rest;
    assert all[1..] == rest;
    hide MergeAll;
    hide Gathered;
    hide FirstReal;
    hide Disjoint;
    hide Harmless;
    forall e ensures MessagesOf(Seeded(all).1, e) == MessagesOf(s.data, e) + Gathered(rest, e) {
      SeededGathers(all, e);
    }
    forall i: nat | FirstReal(all, i) ensures Seeded(all).0 == all[i].header { SeededHeader(all, i); }
    if Disjoint(all) && forall t | t in all :: Harmless(t, all) {
      SeededInAnyOrder(s.header, all);
      assert Seeded(all).1 == MergeAll(s.header, map[], all).1;
    }
  }

  lemma {:induction false} HarmlessAmong(s: Stf, a: seq<Stf>, b: seq<Stf>)
    requires multiset(a) == multiset(b)
    ensures Harmless(s, a) <==> Harmless(s, b)
  {
    assert forall t :: t in a <==> t in multiset(a);
    assert forall t :: t in b <==> t in multiset(b);
  }

  // ---------------------------------------------------------- as the first one, and as another

  /** One sub-time-frame, as a merge starts from it, and as a merge into another one sees it. */
  datatype Shown = Shown(seed: Stf, seen: Stf)
  {
    ghost predicate Valid() {
      && seed.header == seen.header && seed.data.Keys == seen.data.Keys
      && forall e | e in seed.data :: |seed.data[e]| == |seen.data[e]|
    }
  }

  ghost function SeenOf(all: seq<Shown>): (r: seq<Stf>)
    ensures |r| == |all|
  {
    seq(|all|, i requires 0 <= i < |all| => all[i].seen)
  }

  /** What merging all others into the first one gives. */
  ghost function Merged(all: seq<Shown>): (StfHeader, StfData)
    requires all != []
  {
    MergeAll(all[0].seed.header, all[0].seed.data, SeenOf(all[1..]))
  }

  /** Being the first makes no difference: it has the same messages, and is not skipped if it counts. */
  ghost predicate Interchangeable(s: Shown, stfs: seq<Stf>) {
    s.seed.data == s.seen.data && Harmless(s.seen, stfs)
  }

  /** What the first one shows matters as soon as it is not what a merge would see. */
  lemma {:induction false} SeedMatters(h: StfHeader, s: Shown, rest: seq<Stf>)
    requires s.Valid()
    ensures MergeAll(s.seed.header, s.seed.data, rest).1 == MergeAll(h, map[], [s.seen] + rest).1
       <==> Interchangeable(s, [s.seen] + rest)
  {
    hide MergeAll;
    hide Gathered;
    hide Harmless;
    var d := s.seed.data;
    if MergeAll(s.seed.header, d, rest).1 == MergeAll(h, map[], [s.seen] + rest).1 {
      forall e | e in d ensures d[e] == s.seen.data[e] {
        MergeGathers(s.seed.header, d, rest, e);
        MergeGathers(h, map[], [s.seen] + rest, e);
        GatheredCons(s.seen, rest, e);
        SameFront(d[e], if s.seen.Skipped() then [] else s.seen.data[e], Gathered(rest, e));
      }
      assert d == s.seen.data;
    }
    if d == s.seen.data {
      SeedIsMerged(h, [s.seen] + rest);
      SeededMeans(s.seen, rest);
    }
  }

  /** Merging into this first one gives the common result exactly when it makes no difference. */
  lemma {:induction false} MergedFirst(h: StfHeader, all: seq<Shown>, p: seq<Shown>)
    requires Disjoint(SeenOf(all)) && multiset(p) == multiset(all) && p != [] && p[0].Valid()
    ensures Merged(p).1 == MergeAll(h, map[], SeenOf(all)).1 <==> Interchangeable(p[0], SeenOf(all))
  {
    hide MergeAll;
    hide Disjoint;
    hide Harmless;
    ImagesReordered(p, all, SeenOf(p), SeenOf(all));
    MergeInAnyOrder(h, SeenOf(all), SeenOf(p));
    HarmlessAmong(p[0].seen, SeenOf(all), SeenOf(p));
    var rest := SeenOf(p[1..]);
    assert SeenOf(p) == [p[0].seen] + rest;
    SeedMatters(h, p[0], rest);
  }

  /**
   Whichever sub-time-frame is the first and in whatever order the others follow, the merged data
   is the same, if and only if for each of them being the first makes no difference.
  */
  lemma {:induction false} MergedInAnyOrder(h: StfHeader, all: seq<Shown>)
    requires Disjoint(SeenOf(all)) && forall s | s in all :: s.Valid()
    ensures (forall p | multiset(p) == multiset(all) && p != [] :: Merged(p).1 == MergeAll(h, map[], SeenOf(all)).1)
       <==> forall s | s in all :: Interchangeable(s, SeenOf(all))
  {
    hide MergeAll;
    hide Merged;
    hide Disjoint;
    hide Interchangeable;
    hide SeenOf;
    forall p | multiset(p) == multiset(all) && p != []
      ensures Merged(p).1 == MergeAll(h, map[], SeenOf(all)).1 <==> Interchangeable(p[0], SeenOf(all))
      ensures p[0] in all
    {
      assert p[0] in multiset(all);
      MergedFirst(h, all, p);
    }
    forall s | s in all ensures exists p :: multiset(p) == multiset(all) && p != [] && p[0] == s {
      var i :| 0 <= i < |all| && all[i] == s;
      var p := [s] + (all[..i] + all[i + 1..]);
      LeftOut(all, i);
      assert p[0] == s;
    }
  }

  /** What merging into the first one comes to. */
  lemma {:induction false} MergedMeans(s: Shown, rest: seq<Shown>)
    requires s.Valid() && forall t | t in rest :: t.Valid()
    ensures
      var all := [s] + rest;
      && Merged(all) == MergeAll(s.seed.header, s.seed.data, SeenOf(rest))
      && (forall e :: MessagesOf(Merged(all).1, e) == MessagesOf(s.seed.data, e) + Gathered(SeenOf(rest), e))
      && (forall i: nat | FirstReal(SeenOf(all), i) :: Merged(all).0 == all[i].seen.header)
      && (Disjoint(SeenOf(all)) && (forall t | t in all :: Interchangeable(t, SeenOf(all))) ==>
            forall p | multiset(p) == multiset(all) && p != [] :: Merged(p).1 == Merged(all).1)
  {
    hide MergeAll;
    hide Gathered;
    hide Disjoint;
    hide Interchangeable;
    hide MessagesOf;
    var all := [s] + rest;
    assert all[1..] == rest;
    SeededMeans(s.seed, SeenOf(rest));
    forall i: nat | FirstReal(SeenOf(all), i) ensures Merged(all).0 == all[i].seen.header { MergedHeader(s, rest, i); }
    if Disjoint(SeenOf(all)) && forall t | t in all :: Interchangeable(t, SeenOf(all)) { MergedInAnyOrder(s.seed.header, all); }
  }

  lemma {:induction false} MergedTwo(s: Shown, t: Shown)
    ensures Merged([s, t]) == Merge(s.seed.header, s.seed.data, t.seen)
  {
    hide Merge;
    assert SeenOf([s, t][1..]) == [t.seen];
    assert [t.seen][..0] == [];
    assert MergeAll(s.seed.header, s.seed.data, []) == (s.seed.header, s.seed.data);
  }

  lemma {:induction false} MergedHeader(s: Shown, rest: seq<Shown>, i: nat)
    requires s.Valid() && FirstReal(SeenOf([s] + rest), i)
    ensures i <= |rest| && MergeAll(s.seed.header, s.seed.data, SeenOf(rest)).0 == ([s] + rest)[i].seen.header
  {
    var stfs := [s.seed] + SeenOf(rest);
    assert stfs[1..] == SeenOf(rest);
    assert forall j | 0 <= j < |stfs| :: stfs[j].header == SeenOf([s] + rest)[j].header;
    SeededHeader(stfs, i);
  }

  // -------------------------------------------------------------- the size of what is merged

  lemma {:induction false} UnionSize(a: StfData, b: StfData)
    ensures TotalSize(Union(a, b)) == TotalSize(a) + TotalSize(b)
    decreases |b|
  {
    hide TotalSize;
    hide MessagesSize;
    hide Union;
    TotalSizeNone();
    if b == map[] {
      assert Union(a, b) == a by { UnionNothing(a); }
    } else {
      var e :| e in b;
      UnionSize(a - {e}, b - {e});
      TotalSizeSplit(b, e);
      UnionWithout(a, b, e);
      TotalSizeSplit(Union(a, b), e);
      MessagesSizeConcat(MessagesOf(a, e), b[e]);
      SizeWithout(a, e);
    }
  }

  lemma {:induction false} UnionNothing(a: StfData)
    ensures Union(a, map[]) == a
  {
    assert forall e | e in a :: a[e] + [] == a[e];
  }

  lemma {:induction false} UnionWithout(a: StfData, b: StfData, e: Equipment)
    requires e in b
    ensures e in Union(a, b) && Union(a, b)[e] == MessagesOf(a, e) + b[e]
    ensures Union(a, b) - {e} == Union(a - {e}, b - {e})
  {
  }

  lemma {:induction false} SizeWithout(a: StfData, e: Equipment)
    ensures TotalSize(a) == TotalSize(a - {e}) + MessagesSize(MessagesOf(a, e))
  {
    if e in a { TotalSizeSplit(a, e); } else { assert a - {e} == a; }
  }

  /**
   A merge leaves the cached size as it is. The size reported afterwards is right exactly when
   nothing was cached, or when what was merged has no payload.
  */
  lemma {:induction false} SizeAfterMerge(h: StfHeader, data: StfData, s: Stf, cached: bool)
    requires s.size == TotalSize(s.data)
    ensures
      var merged := Merge(h, data, s).1;
      var reported := if cached then TotalSize(data) else TotalSize(merged);
      reported == TotalSize(merged) <==> !cached || TotalSize(s.data) == 0
  {
    UnionSize(data, s.data);
  }
}
