/** The sub-time-frame object: messages per equipment, with a lazily kept size and lazily kept headers. */
module SubTimeFrames {
  import opened Collections
  import opened StfModel

  /** The message that `AddStfDataStart` made. */
  datatype Place = Place(equip: Equipment, index: nat)

  class SubTimeFrame {
    var header: StfHeader
    var data: StfData
    var dataSize: nat
    var dataUpdated: bool

    constructor (id: nat, now: nat)
      ensures header == StfHeader(id, NO_ORBIT, 0, Invalid, now) && data == map[]
      ensures dataSize == 0 && !dataUpdated
    {
      header, data, dataSize, dataUpdated := StfHeader(id, NO_ORBIT, 0, Invalid, now), map[], 0, false;
    }

    /** What a merge sees. */
    ghost function Seen(): Stf
      reads this
    {
      if dataUpdated then Stf(header, data, dataSize)
      else if header.origin == Null then Stf(header, Refreshed(data, header), TotalSize(data))
      else Stf(header, data, TotalSize(data))
    }

    /** What a merge into this one starts from. */
    ghost function AsSeed(): Stf
      reads this
    {
      Stf(header, data, if dataUpdated then dataSize else TotalSize(data))
    }

    ghost function Shows(): Shown
      reads this
    {
      Shown(AsSeed(), Seen())
    }

    /** The headers are as a merge would see them. */
    ghost predicate UpToDate()
      reads this
    {
      dataUpdated || header.origin != Null || Refreshed(data, header) == data
    }

    /** The data with every header brought up to date, unless that was done before. */
    ghost function Outgoing(): StfData
      reads this
    {
      if dataUpdated then data else Refreshed(data, header)
    }

    method UpdateStf()
      modifies this`data, this`dataSize, this`dataUpdated
      ensures dataUpdated
      ensures old(dataUpdated) ==> data == old(data) && dataSize == old(dataSize)
      ensures !old(dataUpdated) ==> data == Refreshed(old(data), header) && dataSize == TotalSize(data)
      ensures !old(dataUpdated) ==> AllBroughtUpToDate(old(data), data, header)
    {
      hide PartRefreshed;
      hide Refreshed;
      hide RefreshAll;
      hide TotalSize;
      hide MessagesSize;
      hide AllBroughtUpToDate;
      if dataUpdated {
        return;
      }
      ghost var was := data;
      var todo, size := data.Keys, 0;
      PartBegins(was, header);
      while todo != {}
        invariant PartRefreshed(was, data, todo, header)
        invariant size == TotalSize(was - todo)
        decreases todo
      {
        var e :| e in todo;
        PartMore(was, data, todo, header, e);
        var messages, added := RefreshMessages(data[e]);
        data := data[e := messages];
        size := size + added;
        todo := todo - {e};
      }
      PartEnds(was, data, header);
      RefreshedMeans(was, header);
      dataSize := size;
      dataUpdated := true;
    }

    method RefreshMessages(ms: seq<Message>) returns (r: seq<Message>, size: nat)
      ensures r == RefreshAll(ms, header) && size == MessagesSize(ms)
    {
      r, size := [], 0;
      for i := 0 to |ms|
        invariant r == RefreshAll(ms[..i], header)
        invariant size == MessagesSize(ms[..i])
      {
        assert ms[..i + 1][..i] == ms[..i];
        r := r + [Refresh(ms[i], header)];
        size := size + PartsSize(ms[i].parts);
        assert r == RefreshAll(ms[..i + 1], header);
      }
      assert ms[..|ms|] == ms;
    }

    method GetDataSize() returns (size: nat)
      modifies this`data, this`dataSize, this`dataUpdated
      ensures dataUpdated && size == dataSize
      ensures old(dataUpdated) ==> data == old(data) && dataSize == old(dataSize)
      ensures !old(dataUpdated) ==> data == Refreshed(old(data), header) && size == TotalSize(data) == TotalSize(old(data))
    {
      RefreshedSize(data, header);
      UpdateStf();
      size := dataSize;
    }

    /** All equipment, once each, in the order the map happens to have. */
    method GetEquipmentIdentifiers() returns (r: seq<Equipment>)
      ensures forall e :: e in r <==> e in data
      ensures forall i, j | 0 <= i < j < |r| :: r[i] != r[j]
    {
      r := [];
      var todo := data.Keys;
      while todo != {}
        invariant todo <= data.Keys
        invariant forall e :: e in r <==> e in data && e !in todo
        invariant forall i, j | 0 <= i < j < |r| :: r[i] != r[j]
        decreases todo
      {
        var e :| e in todo;
        assert e !in r;
        r := r + [e];
        todo := todo - {e};
      }
    }

    /** All data of another sub-time-frame is adopted. The cached size is not invalidated. */
    method MergeStf(other: SubTimeFrame)
      requires other != this
      modifies this`header, this`data, other
      ensures (header, data) == Merge(old(header), old(data), old(other.Seen()))
      ensures dataSize == old(dataSize) && dataUpdated == old(dataUpdated)
      ensures !old(other.Seen()).Skipped() ==> other.data == map[]
    {
      if other.header.origin == Null {
        RefreshedSize(other.data, other.header);
        var size := other.GetDataSize();
        if size == 0 {
          return;
        }
      }
      if header.origin == Null {
        header := other.header;
      }
      Adopt(other.data);
      other.data := map[];
    }

    method Adopt(taken: StfData)
      modifies this`data
      ensures data == Union(old(data), taken)
    {
      ghost var was := data;
      var todo := taken.Keys;
      while todo != {}
        invariant todo <= taken.Keys
        invariant data.Keys == was.Keys + (taken.Keys - todo)
        invariant forall e | e in data :: data[e] == MessagesOf(was, e) + if e in todo then [] else MessagesOf(taken, e)
        decreases todo
      {
        var e :| e in todo;
        data := data[e := MessagesOf(data, e) + taken[e]];
        todo := todo - {e};
      }
      assert data == Union(was, taken);
    }

    /** A new message at the end of its equipment; `at` is where it can be found. */
    method AddStfDataStart(e: Equipment, hdr: DataHeader, part: Part) returns (at: Place)
      modifies this`data, this`dataUpdated
      ensures AddsMessage(old(data), data, e, Message(hdr, [part])) && !dataUpdated
      ensures at == Place(e, |MessagesOf(old(data), e)|) && data[e][at.index] == Message(hdr, [part])
    {
      AddedDetermines(data, Started(data, e, hdr, part), e, hdr, part);
      at := Place(e, |MessagesOf(data, e)|);
      data := Started(data, e, hdr, part);
      dataUpdated := false;
    }

    /** One more part for a message that has some; one that has none is left alone. */
    method AddStfDataAppend(at: Place, part: Part)
      requires at.equip in data && at.index < |data[at.equip]|
      modifies this`data, this`dataUpdated
      ensures old(data[at.equip][at.index].parts) == [] ==> data == old(data) && dataUpdated == old(dataUpdated)
      ensures old(data[at.equip][at.index].parts) != [] ==> AddsPart(old(data), data, at.equip, at.index, part) && !dataUpdated
    {
      if data[at.equip][at.index].parts == [] {
        return;
      }
      GrownDetermines(data, Appended(data, at.equip, at.index, part), at.equip, at.index, part);
      data := Appended(data, at.equip, at.index, part);
      dataUpdated := false;
    }

    /** Readout data: one split-payload message per equipment; later headers are discarded. */
    method AddStfDataReadout(e: Equipment, hdr: DataHeader, part: Part)
      modifies this`data, this`dataUpdated
      ensures !dataUpdated
      ensures MessagesOf(old(data), e) == [] ==> AddsMessage(old(data), data, e, Message(hdr, [part]))
      ensures MessagesOf(old(data), e) != [] ==> AddsPart(old(data), data, e, |old(data)[e]| - 1, part)
    {
      if MessagesOf(data, e) == [] {
        data := data[e := [Message(hdr, [])]];
        assert Message(hdr, []).(parts := [] + [part]) == Message(hdr, [part]);
        assert data[e][0 := Message(hdr, [part])] == [] + [Message(hdr, [part])];
      }
      data := Appended(data, e, |data[e]| - 1, part);
      dataUpdated := false;
    }

    method Clear()
      modifies this`data, this`dataUpdated
      ensures data == map[] && !dataUpdated
    {
      data, dataUpdated := map[], false;
    }

    method SetOrigin(origin: Origin)
      modifies this`header
      ensures header == if old(header.origin) == Invalid then old(header).(origin := origin) else old(header)
    {
      if header.origin == Invalid {
        header := header.(origin := origin);
      }
    }

    method UpdateId(id: nat)
      modifies this`header, this`dataUpdated
      ensures id > 0 ==> header == old(header).(id := id) && !dataUpdated
      ensures id == 0 ==> header == old(header) && dataUpdated == old(dataUpdated)
    {
      if id > 0 {
        header, dataUpdated := header.(id := id), false;
      }
    }

    method UpdateFirstOrbit(orbit: nat)
      modifies this`header, this`dataUpdated
      ensures orbit < old(header.firstOrbit) ==> header == old(header).(firstOrbit := orbit) && !dataUpdated
      ensures orbit >= old(header.firstOrbit) ==> header == old(header) && dataUpdated == old(dataUpdated)
    {
      if orbit < header.firstOrbit {
        header, dataUpdated := header.(firstOrbit := orbit), false;
      }
    }

    method UpdateRunNumber(run: nat)
      modifies this`header, this`dataUpdated
      ensures header == old(header).(runNumber := run)
      ensures dataUpdated == (old(dataUpdated) && run == old(header.runNumber))
    {
      if header.runNumber != run {
        header, dataUpdated := header.(runNumber := run), false;
      }
    }
  }

  ghost function SeenAll(stfs: seq<SubTimeFrame>): (r: seq<Stf>)
    reads stfs
    ensures |r| == |stfs| && forall i | 0 <= i < |r| :: r[i] == stfs[i].Seen()
  {
    if stfs == [] then [] else SeenAll(stfs[..|stfs| - 1]) + [stfs[|stfs| - 1].Seen()]
  }

  ghost function ShownAll(stfs: seq<SubTimeFrame>): (r: seq<Shown>)
    reads stfs
    ensures |r| == |stfs| && forall i | 0 <= i < |r| :: r[i] == stfs[i].Shows()
  {
    if stfs == [] then [] else ShownAll(stfs[..|stfs| - 1]) + [stfs[|stfs| - 1].Shows()]
  }

  /**
   The first one is seen as any other, unless it is one without a real origin whose headers would
   have been brought up to date.
  */
  lemma {:induction false} SeedIsSeen(stf: SubTimeFrame)
    ensures stf.Shows().Valid()
    ensures stf.AsSeed() == stf.Seen() <==> stf.UpToDate()
    ensures stf.AsSeed().data == stf.Seen().data <==> stf.UpToDate()
  {
    hide TotalSize;
    hide RefreshAll;
    RefreshedSize(stf.data, stf.header);
    RefreshedLengths(stf.data, stf.header);
  }

  lemma {:induction false} RefreshedLengths(data: StfData, h: StfHeader)
    ensures forall e | e in data :: |Refreshed(data, h)[e]| == |data[e]|
  {
  }

  /** `p` is another order of these sub-time-frames. */
  ghost predicate Reordered(p: seq<SubTimeFrame>, stfs: seq<SubTimeFrame>) {
    multiset(p) == multiset(stfs) && p != []
  }

  lemma {:induction false} MergedFirstOne(h: StfHeader, stfs: seq<SubTimeFrame>, p: seq<SubTimeFrame>)
    requires Disjoint(SeenOf(ShownAll(stfs))) && Reordered(p, stfs)
    ensures p != [] && p[0] in stfs
    ensures Merged(ShownAll(p)).1 == MergeAll(h, map[], SeenOf(ShownAll(stfs))).1
       <==> p[0].UpToDate() && Harmless(p[0].Seen(), SeenOf(ShownAll(stfs)))
  {
    hide MergeAll;
    hide Merged;
    hide Disjoint;
    hide Harmless;
    hide SeenOf;
    hide Shown.Valid;
    hide SubTimeFrame.Seen;
    hide SubTimeFrame.AsSeed;
    hide SubTimeFrame.UpToDate;
    assert p[0] in multiset(stfs);
    ImagesReordered(p, stfs, ShownAll(p), ShownAll(stfs));
    SeedIsSeen(p[0]);
    MergedFirst(h, ShownAll(stfs), ShownAll(p));
  }

  /**
   Whichever sub-time-frame is the first and in whatever order the others follow, the merged data
   is the same, if and only if every one has its headers up to date and, when it is skipped, has
   nothing of its own.
  */
  lemma {:induction false} MergeInAnyOrderOfStfs(h: StfHeader, stfs: seq<SubTimeFrame>)
    requires Disjoint(SeenOf(ShownAll(stfs)))
    ensures (forall p | Reordered(p, stfs) :: Merged(ShownAll(p)).1 == MergeAll(h, map[], SeenOf(ShownAll(stfs))).1)
       <==> forall s | s in stfs :: s.UpToDate() && Harmless(s.Seen(), SeenOf(ShownAll(stfs)))
  {
    hide *;
    forall p: seq<SubTimeFrame> | Reordered(p, stfs)
      ensures p != [] && p[0] in stfs
      ensures Merged(ShownAll(p)).1 == MergeAll(h, map[], SeenOf(ShownAll(stfs))).1
         <==> p[0].UpToDate() && Harmless(p[0].Seen(), SeenOf(ShownAll(stfs)))
    {
      MergedFirstOne(h, stfs, p);
    }
    forall s | s in stfs ensures exists p :: Reordered(p, stfs) && p != [] && p[0] == s {
      var _ := MadeFirst(stfs, s);
    }
  }

  lemma {:induction false} MadeFirst(stfs: seq<SubTimeFrame>, s: SubTimeFrame) returns (p: seq<SubTimeFrame>)
    requires s in stfs
    ensures Reordered(p, stfs) && p[0] == s
  {
    var i :| 0 <= i < |stfs| && stfs[i] == s;
    p := [s] + (stfs[..i] + stfs[i + 1..]);
    LeftOut(stfs, i);
  }

  /**
   The merge of all sub-time-frames of a time frame into the first one: all messages are kept,
   in order; the header is that of the first with a real origin; and when no equipment comes from
   two of them and none makes a difference by being the first, every other order of the same
   sub-time-frames would have given the same data.
  */
  method MergeInto(first: SubTimeFrame, rest: seq<SubTimeFrame>) returns (ghost all: seq<Shown>)
    requires first !in rest && forall i, j | 0 <= i < j < |rest| :: rest[i] != rest[j]
    modifies first, rest
    ensures all == old(ShownAll([first] + rest))
    ensures (first.header, first.data) == Merged(all)
    ensures forall e :: MessagesOf(first.data, e) == MessagesOf(old(first.data), e) + Gathered(old(SeenAll(rest)), e)
    ensures forall i: nat | FirstReal(SeenOf(all), i) :: first.header == all[i].seen.header
    ensures Disjoint(SeenOf(all)) && (forall s | s in all :: Interchangeable(s, SeenOf(all))) ==>
      forall p | multiset(p) == multiset(all) && p != [] :: Merged(p).1 == first.data
  {
    hide Merged;
    hide MergeAll;
    hide Gathered;
    hide MessagesOf;
    hide Disjoint;
    hide Interchangeable;
    hide FirstReal;
    hide TotalSize;
    hide Shown.Valid;
    hide SubTimeFrame.Seen;
    ghost var others := ShownAll(rest);
    all := [first.Shows()] + others;
    assert all == ShownAll([first] + rest);
    assert SeenOf(others) == SeenAll(rest);
    SeedIsSeen(first);
    forall s | s in rest ensures s.Shows().Valid() { SeedIsSeen(s); }
    MergedMeans(first.Shows(), others);
    MergeLoop(first, rest);
  }

  method MergeLoop(first: SubTimeFrame, rest: seq<SubTimeFrame>)
    requires first !in rest && forall i, j | 0 <= i < j < |rest| :: rest[i] != rest[j]
    modifies first, rest
    ensures (first.header, first.data)
         == MergeAll(old(first.header), old(first.data), old(SeenAll(rest)))
  {
    ghost var seen := SeenAll(rest);
    for n := 0 to |rest|
      invariant forall i | n <= i < |rest| :: unchanged(rest[i])
      invariant (first.header, first.data) == MergeAll(old(first.header), old(first.data), seen[..n])
    {
      assert seen[..n + 1][..n] == seen[..n];
      assert rest[n].Seen() == seen[n];
      first.MergeStf(rest[n]);
    }
    assert seen[..|rest|] == seen;
  }

  /**
   The stale size in practice: an empty sub-time-frame whose size was asked for once reports
   size zero after data was merged into it.
  */
  method StaleSize(data: SubTimeFrame) returns (size: nat, ghost actual: nat)
    requires data.header.origin == Readout && !data.dataUpdated && TotalSize(data.data) > 0
    modifies data
    ensures size == 0 && actual == TotalSize(old(data.data)) > 0
  {
    var first := new SubTimeFrame(7, 0);
    first.SetOrigin(Null);
    var _ := first.GetDataSize();
    assert first.data == map[];
    first.MergeStf(data);
    UnionNone(old(data.data));
    actual := TotalSize(first.data);
    size := first.GetDataSize();
  }

  /**
   An order that matters, with nothing in two places and nothing skipped: `a` has no real origin,
   and its message has the header of another run. As the first one it keeps that header; merged
   into `b` its header is brought up to date.
  */
  method OrderMatters(a: SubTimeFrame, b: SubTimeFrame, hdr: DataHeader, seedFirst: bool) returns (run: nat)
    requires a != b && a.header.origin == Null && !a.dataUpdated && a.data == map[hdr.Equip() := [Message(hdr, [[1]])]]
    requires b.header.origin == Readout && b.data == map[]
    modifies a, b
    ensures Disjoint(old([a.Seen(), b.Seen()])) && !old(a.Seen()).Skipped() && !old(b.Seen()).Skipped()
    ensures run == if seedFirst then hdr.runNumber else old(a.header.runNumber)
  {
    hide TotalSize;
    var e := hdr.Equip();
    OneMessage(a.data, e, Message(hdr, [[1]]));
    if seedFirst {
      MergeOne(a, b);
      run := a.data[e][0].hdr.runNumber;
    } else {
      MergeOne(b, a);
      run := b.data[e][0].hdr.runNumber;
    }
  }

  /** A time frame of two sub-time-frames. */
  method MergeOne(first: SubTimeFrame, other: SubTimeFrame)
    requires first != other
    modifies first, other
    ensures (first.header, first.data) == old(Merge(first.header, first.data, other.Seen()))
  {
    hide Merge;
    hide Merged;
    hide TotalSize;
    hide SubTimeFrame.Seen;
    ghost var s, t := first.Shows(), other.Shows();
    MergedTwo(s, t);
    assert ([first] + [other])[0] == first && ([first] + [other])[1] == other;
    var all := MergeInto(first, [other]);
    assert all == [s, t];
  }

  lemma {:induction false} OneMessage(data: StfData, e: Equipment, m: Message)
    requires data == map[e := [m]] && m.parts == [[1]]
    ensures TotalSize(data) == 1
  {
    hide TotalSize;
    TotalSizeSplit(data, e);
    TotalSizeNone();
    assert data - {e} == map[];
    var part: Part := [1];
    assert m.parts[..0] == [] && m.parts[0] == part && |part| == 1;
    assert PartsSize(m.parts) == 1;
    assert [m][..0] == [];
    assert MessagesSize([m]) == 1;
  }
}
