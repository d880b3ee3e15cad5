/** Sub-time-frames as streams of messages: taking the map apart in some order and filing it again. */
module StfStreams {
  import opened StfModel

  // ------------------------------------------------------------------------------- filing

  function Put(data: StfData, m: Message): StfData {
    data[m.hdr.Equip() := MessagesOf(data, m.hdr.Equip()) + [m]]
  }

  function PutAll(data: StfData, ms: seq<Message>): StfData {
    if ms == [] then data else Put(PutAll(data, ms[..|ms| - 1]), ms[|ms| - 1])
  }

  /** The map built from a stream of messages. */
  function Collect(ms: seq<Message>): StfData {
    PutAll(map[], ms)
  }

  lemma {:induction false} PutAllSnoc(data: StfData, ms: seq<Message>, m: Message)
    ensures PutAll(data, ms + [m]) == Put(PutAll(data, ms), m)
  {
    assert (ms + [m])[..|ms|] == ms;
  }

  /** A message that was added is filed. */
  lemma {:induction false} AddedIsPut(before: StfData, after: StfData, m: Message)
    requires m.parts != [] && |m.parts| == 1 && AddsMessage(before, after, m.hdr.Equip(), m)
    ensures after == Put(before, m)
  {
    AddedDetermines(before, after, m.hdr.Equip(), m.hdr, m.parts[0]);
    assert m.parts == [m.parts[0]];
  }

  /** A message is filed, and then grows: the same as filing the grown message. */
  lemma {:induction false} PutGrows(data: StfData, hdr: DataHeader, parts: seq<Part>, p: Part)
    ensures
      var e, i := hdr.Equip(), |MessagesOf(data, hdr.Equip())|;
      var before := Put(data, Message(hdr, parts));
      && e in before && i < |before[e]| && before[e][i] == Message(hdr, parts)
      && Appended(before, e, i, p) == Put(data, Message(hdr, parts + [p]))
  {
    var e := hdr.Equip();
    var msgs := MessagesOf(data, e);
    assert (msgs + [Message(hdr, parts)])[|msgs| := Message(hdr, parts + [p])] == msgs + [Message(hdr, parts + [p])];
  }

  ghost function OnlyOf(ms: seq<Message>, e: Equipment): seq<Message> {
    if ms == [] then []
    else
      var n := |ms| - 1;
      OnlyOf(ms[..n], e) + if ms[n].hdr.Equip() == e then [ms[n]] else []
  }

  lemma {:induction false} OnlyOfConcat(a: seq<Message>, b: seq<Message>, e: Equipment)
    ensures OnlyOf(a + b, e) == OnlyOf(a, e) + OnlyOf(b, e)
    decreases |b|
  {
    if b == [] {
      assert a + b == a;
    } else {
      var n := |b| - 1;
      assert (a + b)[..|a| + n] == a + b[..n];
      OnlyOfConcat(a, b[..n], e);
    }
  }

  lemma {:induction false} PutAllFiles(data: StfData, ms: seq<Message>, e: Equipment)
    ensures MessagesOf(PutAll(data, ms), e) == MessagesOf(data, e) + OnlyOf(ms, e)
    ensures e in PutAll(data, ms) <==> e in data || OnlyOf(ms, e) != []
    decreases |ms|
  {
    if ms != [] {
      PutAllFiles(data, ms[..|ms| - 1], e);
    }
  }

  // -------------------------------------------------------------------------- taking apart

  /** Messages are filed under their own equipment. */
  ghost predicate Filed(data: StfData) {
    forall e | e in data :: FiledUnder(data[e], e)
  }

  ghost predicate FiledUnder(ms: seq<Message>, e: Equipment) {
    forall m | m in ms :: m.hdr.Equip() == e
  }

  /** The equipment of a map, each once. */
  ghost predicate Enumerates(order: seq<Equipment>, data: StfData) {
    && (forall e :: e in order <==> e in data)
    && (forall i, j | 0 <= i < j < |order| :: order[i] != order[j])
  }

  /** All messages, equipment by equipment. */
  ghost function Flat(data: StfData, order: seq<Equipment>): seq<Message> {
    if order == [] then []
    else
      var n := |order| - 1;
      Flat(data, order[..n]) + MessagesOf(data, order[n])
  }

  lemma {:induction false} FlatSnoc(data: StfData, order: seq<Equipment>, e: Equipment)
    ensures Flat(data, order + [e]) == Flat(data, order) + MessagesOf(data, e)
  {
    assert (order + [e])[..|order|] == order;
  }

  lemma {:induction false} OnlyOfOne(ms: seq<Message>, e: Equipment, f: Equipment)
    requires FiledUnder(ms, e)
    ensures OnlyOf(ms, f) == if e == f then ms else []
    decreases |ms|
  {
    if ms != [] {
      var n := |ms| - 1;
      assert ms == ms[..n] + [ms[n]];
      OnlyOfOne(ms[..n], e, f);
    }
  }

  lemma {:induction false} OnlyOfFlat(data: StfData, order: seq<Equipment>, f: Equipment)
    requires Filed(data) && (forall e | e in order :: e in data)
    requires forall i, j | 0 <= i < j < |order| :: order[i] != order[j]
    ensures OnlyOf(Flat(data, order), f) == if f in order then data[f] else []
    decreases |order|
  {
    if order != [] {
      var n := |order| - 1;
      assert order == order[..n] + [order[n]];
      assert order[n] !in order[..n];
      OnlyOfFlat(data, order[..n], f);
      OnlyOfConcat(Flat(data, order[..n]), data[order[n]], f);
      OnlyOfOne(data[order[n]], order[n], f);
    }
  }

  /** Taken apart in any order and filed again, every equipment has its messages in order. */
  lemma {:induction false} CollectFlatAt(data: StfData, order: seq<Equipment>, e: Equipment)
    requires Filed(data) && Enumerates(order, data)
    ensures MessagesOf(Collect(Flat(data, order)), e) == MessagesOf(data, e)
    ensures e in Collect(Flat(data, order)) <==> e in data && data[e] != []
  {
    PutAllFiles(map[], Flat(data, order), e);
    OnlyOfFlat(data, order, e);
  }

  ghost predicate NoneEmpty(data: StfData) {
    forall e | e in data :: data[e] != []
  }

  lemma {:induction false} CollectFlat(data: StfData, order: seq<Equipment>)
    requires Filed(data) && Enumerates(order, data) && NoneEmpty(data)
    ensures Collect(Flat(data, order)) == data
  {
    hide Collect;
    hide Flat;
    hide Filed;
    hide Enumerates;
    var c := Collect(Flat(data, order));
    forall e ensures (e in c <==> e in data) && MessagesOf(c, e) == MessagesOf(data, e) {
      CollectFlatAt(data, order, e);
    }
    assert forall e | e in c :: c[e] == MessagesOf(c, e) == data[e];
  }

  /** What holds of every message holds of the stream. */
  lemma {:induction false} FlatMembers(data: StfData, order: seq<Equipment>, m: Message)
    requires m in Flat(data, order)
    ensures exists e :: e in order && m in MessagesOf(data, e)
    decreases |order|
  {
    var n := |order| - 1;
    assert order[n] in order;
    if m !in MessagesOf(data, order[n]) {
      FlatMembers(data, order[..n], m);
      var e :| e in order[..n] && m in MessagesOf(data, e);
      assert e in order;
    }
  }

  lemma {:induction false} RefreshedIsFiled(data: StfData, h: StfHeader)
    requires Filed(data)
    ensures Filed(Refreshed(data, h))
    ensures NoneEmpty(data) ==> NoneEmpty(Refreshed(data, h))
  {
    forall e | e in data ensures FiledUnder(RefreshAll(data[e], h), e) && |RefreshAll(data[e], h)| == |data[e]| {
      forall m | m in RefreshAll(data[e], h) ensures m.hdr.Equip() == e {
        var i :| 0 <= i < |data[e]| && RefreshAll(data[e], h)[i] == m;
        assert data[e][i] in data[e] && FiledUnder(data[e], e);
      }
    }
  }

  // --------------------------------------------------------- headers and parts, side by side

  /** A header and the number of data parts that belong to it. */
  datatype HdrMeta = HdrMeta(hdr: DataHeader, numParts: nat)

  function HdrsOf(ms: seq<Message>): seq<HdrMeta> {
    if ms == [] then []
    else
      var n := |ms| - 1;
      HdrsOf(ms[..n]) + [HdrMeta(ms[n].hdr, |ms[n].parts|)]
  }

  function PartsOf(ms: seq<Message>): seq<Part> {
    if ms == [] then []
    else
      var n := |ms| - 1;
      PartsOf(ms[..n]) + ms[n].parts
  }

  lemma {:induction false} SideBySideSnoc(ms: seq<Message>, m: Message)
    ensures HdrsOf(ms + [m]) == HdrsOf(ms) + [HdrMeta(m.hdr, |m.parts|)]
    ensures PartsOf(ms + [m]) == PartsOf(ms) + m.parts
  {
    assert (ms + [m])[..|ms|] == ms;
  }

  /** At least one part is taken for every header. */
  function Taken(h: HdrMeta): nat {
    if h.numParts == 0 then 1 else h.numParts
  }

  function CountParts(hdrs: seq<HdrMeta>): nat {
    if hdrs == [] then 0 else CountParts(hdrs[..|hdrs| - 1]) + Taken(hdrs[|hdrs| - 1])
  }

  /** Parts are handed out to the headers, front to back. */
  ghost function Cut(hdrs: seq<HdrMeta>, parts: seq<Part>): seq<Message>
    requires CountParts(hdrs) == |parts|
  {
    if hdrs == [] then []
    else
      var k := |hdrs| - 1;
      var n := CountParts(hdrs[..k]);
      Cut(hdrs[..k], parts[..n]) + [Message(hdrs[k].hdr, parts[n..])]
  }

  ghost predicate HaveParts(ms: seq<Message>) {
    forall m | m in ms :: m.parts != []
  }

  lemma {:induction false} CountPartsOf(ms: seq<Message>)
    requires HaveParts(ms)
    ensures CountParts(HdrsOf(ms)) == |PartsOf(ms)|
    ensures |HdrsOf(ms)| == |ms|
    decreases |ms|
  {
    if ms != [] {
      var n := |ms| - 1;
      assert ms == ms[..n] + [ms[n]];
      CountPartsOf(ms[..n]);
    }
  }

  /** Cutting undoes the separation into headers and parts. */
  lemma {:induction false} CutParts(ms: seq<Message>)
    requires HaveParts(ms)
    ensures CountParts(HdrsOf(ms)) == |PartsOf(ms)|
    ensures Cut(HdrsOf(ms), PartsOf(ms)) == ms
    decreases |ms|
  {
    CountPartsOf(ms);
    if ms != [] {
      var n := |ms| - 1;
      assert ms == ms[..n] + [ms[n]];
      CountPartsOf(ms[..n]);
      CutParts(ms[..n]);
      assert PartsOf(ms)[..|PartsOf(ms[..n])|] == PartsOf(ms[..n]);
    }
  }

  lemma {:induction false} NothingFlat(data: StfData)
    ensures Flat(data, []) == [] && HdrsOf([]) == [] && PartsOf([]) == [] && HaveParts([])
  {
  }

  lemma {:induction false} CountPrefix(hdrs: seq<HdrMeta>, i: nat)
    requires i <= |hdrs|
    ensures CountParts(hdrs[..i]) <= CountParts(hdrs)
    decreases |hdrs|
  {
    if i == |hdrs| {
      assert hdrs[..i] == hdrs;
    } else {
      CountPrefix(hdrs[..|hdrs| - 1], i);
      assert hdrs[..|hdrs| - 1][..i] == hdrs[..i];
    }
  }

  /** One more header takes the next parts. */
  lemma {:induction false} CutMore(hdrs: seq<HdrMeta>, parts: seq<Part>, i: nat)
    requires CountParts(hdrs) == |parts| && i < |hdrs|
    ensures
      var k, next := CountParts(hdrs[..i]), CountParts(hdrs[..i + 1]);
      && next == k + Taken(hdrs[i]) <= |parts|
      && Cut(hdrs[..i + 1], parts[..next]) == Cut(hdrs[..i], parts[..k]) + [Message(hdrs[i].hdr, parts[k..next])]
  {
    CountPrefix(hdrs, i + 1);
    CountPrefix(hdrs, i);
    assert hdrs[..i + 1][..i] == hdrs[..i];
    var k, next := CountParts(hdrs[..i]), CountParts(hdrs[..i + 1]);
    assert parts[..next][..k] == parts[..k] && parts[..next][k..] == parts[k..next];
  }

  lemma {:induction false} NothingCut(data: StfData)
    ensures CountParts([]) == 0 && Cut([], []) == [] && PutAll(data, []) == data
  {
  }

  // ------------------------------------------------------------------------ counting parts

  /** The number of parts of the first messages. */
  ghost function PartsBefore(ms: seq<Message>, i: nat): nat
    requires i <= |ms|
  {
    if i == 0 then 0 else PartsBefore(ms, i - 1) + |ms[i - 1].parts|
  }

  lemma {:induction false} PartsBeforeMore(ms: seq<Message>, m: Message, i: nat)
    requires i <= |ms|
    ensures PartsBefore(ms + [m], i) == PartsBefore(ms, i) <= PartsBefore(ms, |ms|)
    ensures i < |ms| ==> PartsBefore(ms, i) + |ms[i].parts| <= PartsBefore(ms, |ms|)
    ensures PartsBefore(ms + [m], |ms| + 1) == PartsBefore(ms, |ms|) + |m.parts|
    decreases i, 1
  {
    PartsBeforeSame(ms, m, i);
    PartsBeforeSame(ms, m, |ms|);
    PartsBeforeUp(ms, i, |ms|);
    if i < |ms| { PartsBeforeUp(ms, i + 1, |ms|); }
  }

  lemma {:induction false} PartsBeforeSame(ms: seq<Message>, m: Message, i: nat)
    requires i <= |ms|
    ensures PartsBefore(ms + [m], i) == PartsBefore(ms, i)
  {
    if i > 0 { PartsBeforeSame(ms, m, i - 1); }
  }

  lemma {:induction false} PartsBeforeUp(ms: seq<Message>, i: nat, j: nat)
    requires i <= j <= |ms|
    ensures PartsBefore(ms, i) <= PartsBefore(ms, j)
    decreases j
  {
    if i < j { PartsBeforeUp(ms, i, j - 1); }
  }
}
