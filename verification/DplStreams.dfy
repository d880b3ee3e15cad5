/**
 The two message streams in which a sub-time-frame is handed to the data processing layer: one
 header per data part ("full"), or one header per message ("reduced"); and their parser.
*/
module DplStreams {
  import opened Wrappers
  import opened StfModel
  import opened StfStreams

  /** The description "DISTSUBTIMEFRAME" that marks the header of the sub-time-frame. */
  const STF_DESC: nat := 0x454D_4152_4645_4D49_5442_5553_5453_4944
  const FLP_ORIGIN: nat := 0x0050_4C46

  datatype Frame = Hdr(hdr: DataHeader) | Data(bytes: Part)

  datatype Error = TooFewMessages | Malformed | Stuck | MissingHeader

  /** How the header of a sub-time-frame is laid out in bytes. */
  datatype Layout = Layout(encode: StfHeader -> seq<bv8>, decode: seq<bv8> -> StfHeader)
  {
    /** The header has room in its fields. */
    ghost predicate Carries(h: StfHeader) { decode(encode(h)) == h }
  }

  // ------------------------------------------------------------------------ the streams

  /** The header of part `i` in the full stream. */
  function PartHdr(m: Message, i: nat): DataHeader
    requires i < |m.parts|
  {
    m.hdr.(splitIndex := i, splitParts := |m.parts|, payloadSize := |m.parts[i]|)
  }

  function FullUpTo(m: Message, n: nat): seq<Frame>
    requires n <= |m.parts|
  {
    if n == 0 then [] else FullUpTo(m, n - 1) + [Hdr(PartHdr(m, n - 1)), Data(m.parts[n - 1])]
  }

  function DataFrames(parts: seq<Part>): seq<Frame> {
    seq(|parts|, i requires 0 <= i < |parts| => Data(parts[i]))
  }

  function FramesOf(m: Message, reduced: bool): seq<Frame> {
    if reduced then [Hdr(m.hdr)] + DataFrames(m.parts) else FullUpTo(m, |m.parts|)
  }

  function FramesOfAll(ms: seq<Message>, reduced: bool): seq<Frame> {
    if ms == [] then []
    else FramesOfAll(ms[..|ms| - 1], reduced) + FramesOf(ms[|ms| - 1], reduced)
  }

  lemma {:induction false} FramesSnoc(ms: seq<Message>, m: Message, reduced: bool)
    ensures FramesOfAll(ms + [m], reduced) == FramesOfAll(ms, reduced) + FramesOf(m, reduced)
  {
    assert (ms + [m])[..|ms|] == ms;
  }

  lemma {:induction false} FramesConcat(a: seq<Message>, b: seq<Message>, reduced: bool)
    ensures FramesOfAll(a + b, reduced) == FramesOfAll(a, reduced) + FramesOfAll(b, reduced)
    decreases |b|
  {
    hide FramesOf;
    if b == [] {
      assert a + b == a;
    } else {
      var n := |b| - 1;
      assert (a + b)[..|a| + n] == a + b[..n];
      FramesConcat(a, b[..n], reduced);
    }
  }

  lemma {:induction false} NoFrames(data: StfData, reduced: bool)
    ensures FramesOfAll(Flat(data, []), reduced) == []
  {
  }

  function MetaHeader(h: StfHeader, size: nat): DataHeader {
    DataHeader(STF_DESC, FLP_ORIGIN, 0, 0, 1, size, h.id % 0x1_0000_0000, h.runNumber, h.firstOrbit, [])
  }

  /** The header of the sub-time-frame, and then its messages. */
  function Stream(layout: Layout, h: StfHeader, ms: seq<Message>, reduced: bool): seq<Frame> {
    [Hdr(MetaHeader(h, |layout.encode(h)|)), Data(layout.encode(h))] + FramesOfAll(ms, reduced)
  }

  /** The counters of the header are those of the parts. */
  ghost predicate Stamped(m: Message) {
    var n := |m.parts|;
    n > 0 && m.hdr.splitParts == n && m.hdr.splitIndex == if n > 1 then n else 0
  }

  // ---------------------------------------------------------------- what a receiver is told

  /** The header says that this is part `k` of so many, how long the part is, and else what the message says. */
  ghost predicate TellsPart(h: DataHeader, m: Message, k: nat) {
    && k < |m.parts| && h.splitIndex == k && h.splitParts == |m.parts| && h.payloadSize == |m.parts[k]|
    && h.desc == m.hdr.desc && h.origin == m.hdr.origin && h.subSpec == m.hdr.subSpec && h.tfCounter == m.hdr.tfCounter
    && h.runNumber == m.hdr.runNumber && h.firstOrbit == m.hdr.firstOrbit && h.rest == m.hdr.rest
  }

  ghost predicate PartAt(frames: seq<Frame>, at: nat, m: Message, k: nat) {
    && k < |m.parts| && at + 1 < |frames|
    && frames[at].Hdr? && TellsPart(frames[at].hdr, m, k) && frames[at + 1] == Data(m.parts[k])
  }

  /** Every header is followed by a data part of exactly the size it tells. */
  ghost predicate SizesAreTold(frames: seq<Frame>) {
    forall j | 0 <= j < |frames| && j % 2 == 0 ::
      j + 1 < |frames| && frames[j].Hdr? && frames[j + 1].Data? && frames[j].hdr.payloadSize == |frames[j + 1].bytes|
  }

  /** In the full stream, each part of each message has a header of its own in front. */
  ghost predicate FullStream(frames: seq<Frame>, ms: seq<Message>) {
    && |frames| == 2 * PartsBefore(ms, |ms|) && SizesAreTold(frames)
    && forall i, k | 0 <= i < |ms| && 0 <= k < |ms[i].parts| :: PartFiled(frames, ms, i, k)
  }

  /** Part `k` of message `i` is where all parts before it leave off. */
  ghost predicate PartFiled(frames: seq<Frame>, ms: seq<Message>, i: nat, k: nat)
    requires i < |ms|
  {
    PartAt(frames, 2 * (PartsBefore(ms, i) + k), ms[i], k)
  }

  /** In the reduced stream, each message has its own header in front, and all its parts behind. */
  ghost predicate ReducedStream(frames: seq<Frame>, ms: seq<Message>) {
    && |frames| == PartsBefore(ms, |ms|) + |ms|
    && forall i | 0 <= i < |ms| :: MessageAt(frames, PartsBefore(ms, i) + i, ms[i])
  }

  ghost predicate MessageAt(frames: seq<Frame>, at: nat, m: Message) {
    && at + |m.parts| < |frames| && frames[at] == Hdr(m.hdr)
    && forall j | at < j <= at + |m.parts| :: frames[j] == Data(m.parts[j - at - 1])
  }

  /** The header of the sub-time-frame comes first and says which one it is. */
  ghost predicate Begins(frames: seq<Frame>, layout: Layout, h: StfHeader) {
    && |frames| >= 2 && frames[0].Hdr? && frames[1] == Data(layout.encode(h))
    && var m := frames[0].hdr;
       && m.desc == STF_DESC && m.origin == FLP_ORIGIN && m.subSpec == 0 && m.splitIndex == 0 && m.splitParts == 1
       && m.payloadSize == |layout.encode(h)| && m.tfCounter == h.id % 0x1_0000_0000 && m.runNumber == h.runNumber
       && m.firstOrbit == h.firstOrbit
  }

  lemma {:induction false} FullUpToAt(m: Message, n: nat)
    requires n <= |m.parts|
    ensures |FullUpTo(m, n)| == 2 * n && SizesAreTold(FullUpTo(m, n))
  {
    if n > 0 {
      FullUpToAt(m, n - 1);
      SizesTogether(FullUpTo(m, n - 1), [Hdr(PartHdr(m, n - 1)), Data(m.parts[n - 1])]);
    }
  }

  lemma {:induction false} OwnPartAt(m: Message, n: nat, k: nat)
    requires k < n <= |m.parts|
    ensures PartAt(FullUpTo(m, n), 2 * k, m, k)
    decreases n
  {
    FullUpToAt(m, n - 1);
    var before, last := FullUpTo(m, n - 1), [Hdr(PartHdr(m, n - 1)), Data(m.parts[n - 1])];
    if k < n - 1 {
      OwnPartAt(m, n - 1, k);
      PartLater(before, last, 2 * k, m, k);
    } else {
      PartLater(before, last, 0, m, k);
    }
  }

  lemma {:induction false} SizesTogether(a: seq<Frame>, b: seq<Frame>)
    requires SizesAreTold(a) && SizesAreTold(b) && |a| % 2 == 0
    ensures SizesAreTold(a + b)
  {
    forall j | 0 <= j < |a + b| && j % 2 == 0
      ensures j + 1 < |a + b| && (a + b)[j].Hdr? && (a + b)[j + 1].Data? && (a + b)[j].hdr.payloadSize == |(a + b)[j + 1].bytes|
    {
      if j < |a| {
        assert j + 1 < |a| && (a + b)[j] == a[j] && (a + b)[j + 1] == a[j + 1];
      } else {
        var i := j - |a|;
        assert i % 2 == 0 && i < |b| && i + 1 < |b|;
        assert (a + b)[j] == b[i] && (a + b)[j + 1] == b[i + 1];
      }
    }
  }

  lemma {:induction false} PartLater(a: seq<Frame>, b: seq<Frame>, at: nat, m: Message, k: nat)
    ensures PartAt(a, at, m, k) ==> PartAt(a + b, at, m, k)
    ensures PartAt(b, at, m, k) ==> PartAt(a + b, |a| + at, m, k)
  {
  }

  lemma {:induction false} FullStreamMore(frames: seq<Frame>, ms: seq<Message>, m: Message)
    requires FullStream(frames, ms)
    ensures FullStream(frames + FullUpTo(m, |m.parts|), ms + [m])
  {
    hide SizesAreTold;
    hide FullUpTo;
    hide PartAt;
    hide PartsBefore;
    var own, all := FullUpTo(m, |m.parts|), ms + [m];
    FullUpToAt(m, |m.parts|);
    SizesTogether(frames, own);
    PartsBeforeMore(ms, m, |ms|);
    forall i, k | 0 <= i < |all| && 0 <= k < |all[i].parts|
      ensures PartFiled(frames + own, all, i, k)
    {
      PartsBeforeMore(ms, m, i);
      if i < |ms| {
        assert PartFiled(frames, ms, i, k);
        PartLater(frames, own, 2 * (PartsBefore(ms, i) + k), ms[i], k);
      } else {
        OwnPartAt(m, |m.parts|, k);
        PartLater(frames, own, 2 * k, m, k);
      }
    }
  }

  lemma {:induction false} ReducedStreamMore(frames: seq<Frame>, ms: seq<Message>, m: Message)
    requires ReducedStream(frames, ms)
    ensures ReducedStream(frames + ([Hdr(m.hdr)] + DataFrames(m.parts)), ms + [m])
  {
    hide PartsBefore;
    var own, all := [Hdr(m.hdr)] + DataFrames(m.parts), ms + [m];
    PartsBeforeMore(ms, m, |ms|);
    forall i | 0 <= i < |all| ensures MessageAt(frames + own, PartsBefore(all, i) + i, all[i]) {
      PartsBeforeMore(ms, m, i);
      if i < |ms| {
        assert MessageAt(frames, PartsBefore(ms, i) + i, ms[i]);
      } else {
        assert forall j | |frames| < j <= |frames| + |m.parts| :: (frames + own)[j] == own[j - |frames|];
      }
    }
  }

  /** Both streams tell what there is to tell. */
  lemma {:induction false} FramesTell(ms: seq<Message>, reduced: bool)
    ensures if reduced then ReducedStream(FramesOfAll(ms, reduced), ms) else FullStream(FramesOfAll(ms, reduced), ms)
    decreases |ms|
  {
    if ms != [] {
      var n := |ms| - 1;
      FramesTell(ms[..n], reduced);
      assert ms == ms[..n] + [ms[n]];
      if reduced {
        ReducedStreamMore(FramesOfAll(ms[..n], reduced), ms[..n], ms[n]);
      } else {
        FullStreamMore(FramesOfAll(ms[..n], reduced), ms[..n], ms[n]);
      }
    }
  }

  lemma {:induction false} StreamTells(layout: Layout, h: StfHeader, ms: seq<Message>, reduced: bool)
    ensures
      var all := Stream(layout, h, ms, reduced);
      && Begins(all, layout, h)
      && if reduced then ReducedStream(all[2..], ms) else FullStream(all[2..], ms)
  {
    FramesTell(ms, reduced);
    assert Stream(layout, h, ms, reduced)[2..] == FramesOfAll(ms, reduced);
    hide FullStream;
    hide ReducedStream;
    hide FramesOfAll;
  }

  // ------------------------------------------------------------------------- the parser

  /** Parts of a message with a header each; the headers after the first are not looked at. */
  function FullParts(frames: seq<Frame>, j: nat, stop: nat): Option<seq<Part>>
    decreases stop - j
  {
    if j < |frames| && j < stop then
      if j + 1 < |frames| && frames[j + 1].Data? then
        match FullParts(frames, j + 2, stop)
        case Some(rest) => Some([frames[j + 1].bytes] + rest)
        case None => None
      else None
    else Some([])
  }

  function ReducedParts(frames: seq<Frame>, j: nat, stop: nat): Option<seq<Part>>
    decreases stop - j
  {
    if j < |frames| && j < stop then
      if frames[j].Data? then
        match ReducedParts(frames, j + 1, stop)
        case Some(rest) => Some([frames[j].bytes] + rest)
        case None => None
      else None
    else Some([])
  }

  datatype Parsed = Parsed(ms: seq<Message>, header: Option<StfHeader>) | Bad(error: Error)

  /** Parsing goes on at frame `i`, after these messages and perhaps the header. */
  function ParseFrom(frames: seq<Frame>, i: nat, ms: seq<Message>, header: Option<StfHeader>, layout: Layout): Parsed
    decreases |frames| - i
  {
    if i >= |frames| then (if header.None? then Bad(MissingHeader) else Parsed(ms, header))
    else if i + 1 == |frames| || !frames[i].Hdr? || !frames[i + 1].Data? then Bad(Malformed)
    else
      var h, first := frames[i].hdr, frames[i + 1].bytes;
      if h.splitParts <= 1 then
        if h.desc == STF_DESC then ParseFrom(frames, i + 2, ms, Some(layout.decode(first)), layout)
        else ParseFrom(frames, i + 2, ms + [Message(h, [first])], header, layout)
      else if h.splitIndex == 0 then
        var stop := i + 2 * h.splitParts;
        match FullParts(frames, i + 2, stop)
        case None => Bad(Malformed)
        case Some(more) =>
          ParseFrom(frames, if stop < |frames| then stop else |frames|,
                    ms + [Message(h.(splitIndex := h.splitParts), [first] + more)], header, layout)
      else if h.splitIndex == h.splitParts then
        var stop := i + 1 + h.splitParts;
        match ReducedParts(frames, i + 2, stop)
        case None => Bad(Malformed)
        case Some(more) =>
          ParseFrom(frames, if stop < |frames| then stop else |frames|,
                    ms + [Message(h, [first] + more)], header, layout)
      else Bad(Stuck)
  }

  function Parse(frames: seq<Frame>, layout: Layout): Parsed {
    if |frames| < 2 then Bad(TooFewMessages) else ParseFrom(frames, 0, [], None, layout)
  }

  // -------------------------------------------------------------------- parsing a stream

  /** The full stream tells each message the size of its first part. */
  function Arrived(m: Message, reduced: bool): Message {
    if reduced || m.parts == [] then m else m.(hdr := m.hdr.(payloadSize := |m.parts[0]|))
  }

  /** A message that the parser takes for a header of the sub-time-frame. */
  predicate Swallowed(m: Message) {
    |m.parts| == 1 && m.hdr.desc == STF_DESC
  }

  function Kept(ms: seq<Message>, reduced: bool): seq<Message> {
    if ms == [] then []
    else
      var n := |ms| - 1;
      Kept(ms[..n], reduced) + if Swallowed(ms[n]) then [] else [Arrived(ms[n], reduced)]
  }

  function HeaderAfter(h: StfHeader, ms: seq<Message>, layout: Layout): StfHeader {
    if ms == [] then h
    else
      var n := |ms| - 1;
      if Swallowed(ms[n]) then layout.decode(ms[n].parts[0]) else HeaderAfter(h, ms[..n], layout)
  }

  lemma {:induction false} FullAt(m: Message, n: nat, k: nat)
    requires k < n <= |m.parts|
    ensures |FullUpTo(m, n)| == 2 * n
    ensures FullUpTo(m, n)[2 * k] == Hdr(PartHdr(m, k)) && FullUpTo(m, n)[2 * k + 1] == Data(m.parts[k])
    decreases n
  {
    FullLength(m, n - 1);
    if k < n - 1 { FullAt(m, n - 1, k); }
  }

  lemma {:induction false} FullLength(m: Message, n: nat)
    requires n <= |m.parts|
    ensures |FullUpTo(m, n)| == 2 * n
    decreases n
  {
    if n > 0 { FullLength(m, n - 1); }
  }

  lemma {:induction false} FullPartsOf(frames: seq<Frame>, i: nat, m: Message, k: nat)
    requires i + 2 * |m.parts| <= |frames| && k <= |m.parts|
    requires frames[i..i + 2 * |m.parts|] == FullUpTo(m, |m.parts|)
    ensures FullParts(frames, i + 2 * k, i + 2 * |m.parts|) == Some(m.parts[k..])
    decreases |m.parts| - k
  {
    if k < |m.parts| {
      FullAt(m, |m.parts|, k);
      assert frames[i..i + 2 * |m.parts|][2 * k + 1] == frames[i + 2 * k + 1];
      FullPartsOf(frames, i, m, k + 1);
      assert m.parts[k..] == [m.parts[k]] + m.parts[k + 1..];
    } else {
      assert m.parts[k..] == [];
    }
  }

  lemma {:induction false} ReducedPartsOf(frames: seq<Frame>, i: nat, m: Message, k: nat)
    requires i + 1 + |m.parts| <= |frames| && k <= |m.parts|
    requires frames[i..i + 1 + |m.parts|] == [Hdr(m.hdr)] + DataFrames(m.parts)
    ensures ReducedParts(frames, i + 1 + k, i + 1 + |m.parts|) == Some(m.parts[k..])
    decreases |m.parts| - k
  {
    if k < |m.parts| {
      assert frames[i..i + 1 + |m.parts|][1 + k] == frames[i + 1 + k];
      ReducedPartsOf(frames, i, m, k + 1);
      assert m.parts[k..] == [m.parts[k]] + m.parts[k + 1..];
    } else {
      assert m.parts[k..] == [];
    }
  }

  /** The parser takes up one message after the other. */
  lemma {:induction false} ParseMessage(frames: seq<Frame>, i: nat, m: Message, reduced: bool,
                                        ms: seq<Message>, header: Option<StfHeader>, layout: Layout)
    requires Stamped(m) && i + |FramesOf(m, reduced)| <= |frames|
    requires frames[i..i + |FramesOf(m, reduced)|] == FramesOf(m, reduced)
    ensures ParseFrom(frames, i, ms, header, layout)
         == ParseFrom(frames, i + |FramesOf(m, reduced)|,
                      if Swallowed(m) then ms else ms + [Arrived(m, reduced)],
                      if Swallowed(m) then Some(layout.decode(m.parts[0])) else header, layout)
  {
    if reduced {
      ParseReduced(frames, i, m, ms, header, layout);
    } else {
      ParseFull(frames, i, m, ms, header, layout);
    }
    hide *;
  }

  lemma {:induction false} ParseReduced(frames: seq<Frame>, i: nat, m: Message,
                                        ms: seq<Message>, header: Option<StfHeader>, layout: Layout)
    requires Stamped(m) && i + 1 + |m.parts| <= |frames|
    requires frames[i..i + 1 + |m.parts|] == [Hdr(m.hdr)] + DataFrames(m.parts)
    ensures ParseFrom(frames, i, ms, header, layout)
         == ParseFrom(frames, i + 1 + |m.parts|,
                      if Swallowed(m) then ms else ms + [m],
                      if Swallowed(m) then Some(layout.decode(m.parts[0])) else header, layout)
  {
    var own := frames[i..i + 1 + |m.parts|];
    assert frames[i] == own[0] && frames[i + 1] == own[1];
    ReducedPartsOf(frames, i, m, 1);
    assert m.parts == [m.parts[0]] + m.parts[1..];
    assert |m.parts| == 1 ==> m.parts == [m.parts[0]];
  }

  lemma {:induction false} ParseFull(frames: seq<Frame>, i: nat, m: Message,
                                     ms: seq<Message>, header: Option<StfHeader>, layout: Layout)
    requires Stamped(m) && i + |FullUpTo(m, |m.parts|)| <= |frames|
    requires frames[i..i + |FullUpTo(m, |m.parts|)|] == FullUpTo(m, |m.parts|)
    ensures ParseFrom(frames, i, ms, header, layout)
         == ParseFrom(frames, i + |FullUpTo(m, |m.parts|)|,
                      if Swallowed(m) then ms else ms + [Arrived(m, false)],
                      if Swallowed(m) then Some(layout.decode(m.parts[0])) else header, layout)
  {
    hide FullUpTo;
    hide FullParts;
    hide ReducedParts;
    var n := |m.parts|;
    FullLength(m, n);
    FullAt(m, n, 0);
    var own := frames[i..i + 2 * n];
    assert frames[i] == own[0] && frames[i + 1] == own[1];
    FullPartsOf(frames, i, m, 1);
    assert m.parts == [m.parts[0]] + m.parts[1..];
    assert |m.parts| == 1 ==> m.parts == [m.parts[0]];
  }

  ghost predicate AllStamped(ms: seq<Message>) {
    forall m | m in ms :: Stamped(m)
  }

  lemma {:induction false} FramesPrefix(ms: seq<Message>, k: nat, reduced: bool)
    requires k < |ms|
    ensures FramesOfAll(ms[..k + 1], reduced) == FramesOfAll(ms[..k], reduced) + FramesOf(ms[k], reduced)
    ensures FramesOfAll(ms[..k + 1], reduced) <= FramesOfAll(ms, reduced)
    decreases |ms| - k
  {
    assert ms[..k + 1] == ms[..k] + [ms[k]];
    FramesSnoc(ms[..k], ms[k], reduced);
    if k + 1 == |ms| {
      assert ms[..k + 1] == ms;
    } else {
      FramesPrefix(ms, k + 1, reduced);
    }
  }

  /** After its first `k` messages, the parser of a stream has kept those that are not swallowed. */
  lemma {:induction false} ParsePrefix(layout: Layout, h: StfHeader, ms: seq<Message>, reduced: bool, k: nat)
    requires layout.Carries(h) && AllStamped(ms) && k <= |ms|
    ensures
      var frames := Stream(layout, h, ms, reduced);
      Parse(frames, layout)
      == ParseFrom(frames, 2 + |FramesOfAll(ms[..k], reduced)|, Kept(ms[..k], reduced),
                   Some(HeaderAfter(h, ms[..k], layout)), layout)
    decreases k
  {
    hide *;
    if k == 0 {
      StreamStarts(layout, h, ms, reduced);
    } else {
      ParsePrefix(layout, h, ms, reduced, k - 1);
      ParseNext(layout, h, ms, reduced, k - 1);
    }
  }

  lemma {:induction false} StreamStarts(layout: Layout, h: StfHeader, ms: seq<Message>, reduced: bool)
    requires layout.Carries(h)
    ensures
      var frames := Stream(layout, h, ms, reduced);
      Parse(frames, layout)
      == ParseFrom(frames, 2 + |FramesOfAll(ms[..0], reduced)|, Kept(ms[..0], reduced),
                   Some(HeaderAfter(h, ms[..0], layout)), layout)
  {
    assert ms[..0] == [];
    var frames := Stream(layout, h, ms, reduced);
    assert frames[0].hdr.splitParts == 1 && frames[1] == Data(layout.encode(h));
  }

  lemma {:induction false} ParseNext(layout: Layout, h: StfHeader, ms: seq<Message>, reduced: bool, k: nat)
    requires AllStamped(ms) && k < |ms|
    ensures
      var frames := Stream(layout, h, ms, reduced);
      ParseFrom(frames, 2 + |FramesOfAll(ms[..k], reduced)|, Kept(ms[..k], reduced),
                Some(HeaderAfter(h, ms[..k], layout)), layout)
      == ParseFrom(frames, 2 + |FramesOfAll(ms[..k + 1], reduced)|, Kept(ms[..k + 1], reduced),
                   Some(HeaderAfter(h, ms[..k + 1], layout)), layout)
  {
    hide ParseFrom;
    hide FramesOf;
    hide Stream;
    FramesPrefix(ms, k, reduced);
    StreamSlice(layout, h, ms, reduced, k);
    hide FramesOfAll;
    assert ms[..k + 1][..k] == ms[..k];
    ParseMessage(Stream(layout, h, ms, reduced), 2 + |FramesOfAll(ms[..k], reduced)|, ms[k], reduced,
                 Kept(ms[..k], reduced), Some(HeaderAfter(h, ms[..k], layout)), layout);
    assert Kept(ms[..k], reduced) + [] == Kept(ms[..k], reduced);
  }

  lemma {:induction false} StreamSlice(layout: Layout, h: StfHeader, ms: seq<Message>, reduced: bool, k: nat)
    requires k < |ms|
    ensures
      var frames, i, own := Stream(layout, h, ms, reduced), 2 + |FramesOfAll(ms[..k], reduced)|, FramesOf(ms[k], reduced);
      i + |own| <= |frames| && frames[i..i + |own|] == own
  {
    hide FramesOf;
    hide FramesOfAll;
    hide MetaHeader;
    FramesPrefix(ms, k, reduced);
    var head := [Hdr(MetaHeader(h, |layout.encode(h)|)), Data(layout.encode(h))];
    PrefixSlice(head, FramesOfAll(ms, reduced), FramesOfAll(ms[..k], reduced), FramesOf(ms[k], reduced));
  }

  lemma {:induction false} PrefixSlice(head: seq<Frame>, all: seq<Frame>, before: seq<Frame>, own: seq<Frame>)
    requires before + own <= all
    ensures |head + before + own| <= |head + all|
    ensures (head + all)[|head + before|..|head + before| + |own|] == own
  {
    var i := |head + before|;
    forall k | 0 <= k < |own| ensures (head + all)[i..i + |own|][k] == own[k] {
      assert (before + own)[|before| + k] == all[|before| + k];
    }
  }

  /** What becomes of a stream: every message but the swallowed ones, in order. */
  lemma {:induction false} ParseStream(layout: Layout, h: StfHeader, ms: seq<Message>, reduced: bool)
    requires layout.Carries(h) && AllStamped(ms)
    ensures Parse(Stream(layout, h, ms, reduced), layout)
         == Parsed(Kept(ms, reduced), Some(HeaderAfter(h, ms, layout)))
  {
    ParsePrefix(layout, h, ms, reduced, |ms|);
    assert ms[..|ms|] == ms;
  }

  // --------------------------------------------------------------- the whole sub-time-frame

  function ArrivedAll(ms: seq<Message>, reduced: bool): seq<Message> {
    seq(|ms|, i requires 0 <= i < |ms| => Arrived(ms[i], reduced))
  }

  ghost function ArrivedData(data: StfData, reduced: bool): StfData {
    map e | e in data :: ArrivedAll(data[e], reduced)
  }

  lemma {:induction false} KeptAll(ms: seq<Message>, reduced: bool)
    requires forall m | m in ms :: !Swallowed(m)
    ensures Kept(ms, reduced) == ArrivedAll(ms, reduced)
    decreases |ms|
  {
    if ms != [] {
      var n := |ms| - 1;
      KeptAll(ms[..n], reduced);
      assert ms[n] in ms;
      assert ArrivedAll(ms, reduced) == ArrivedAll(ms[..n], reduced) + [Arrived(ms[n], reduced)];
    }
  }

  lemma {:induction false} ArrivedStaysFresh(m: Message, h: StfHeader, reduced: bool)
    requires Refresh(m, h) == m
    ensures Refresh(Arrived(m, reduced), h) == Arrived(m, reduced)
  {
  }

  /** Bringing headers up to date on arrival changes nothing, when they were so on departure. */
  lemma {:induction false} ArrivedIsFresh(data: StfData, h: StfHeader, reduced: bool)
    requires Refreshed(data, h) == data
    ensures Refreshed(ArrivedData(data, reduced), h) == ArrivedData(data, reduced)
  {
    hide Refresh;
    hide Arrived;
    var arrived := ArrivedData(data, reduced);
    forall e | e in data ensures RefreshAll(arrived[e], h) == arrived[e] {
      forall i | 0 <= i < |data[e]| ensures RefreshAll(arrived[e], h)[i] == arrived[e][i] {
        assert Refreshed(data, h)[e][i] == Refresh(data[e][i], h);
        ArrivedStaysFresh(data[e][i], h, reduced);
      }
    }
  }

  lemma {:induction false} FlatArrived(data: StfData, order: seq<Equipment>, reduced: bool)
    ensures Flat(ArrivedData(data, reduced), order) == ArrivedAll(Flat(data, order), reduced)
    decreases |order|
  {
    if order != [] {
      var n := |order| - 1;
      FlatArrived(data, order[..n], reduced);
      var a, b := Flat(data, order[..n]), MessagesOf(data, order[n]);
      assert ArrivedAll(a + b, reduced) == ArrivedAll(a, reduced) + ArrivedAll(b, reduced);
      assert MessagesOf(ArrivedData(data, reduced), order[n]) == ArrivedAll(b, reduced);
    }
  }

  lemma {:induction false} ArrivedIsFiled(data: StfData, reduced: bool)
    requires Filed(data) && NoneEmpty(data)
    ensures Filed(ArrivedData(data, reduced)) && NoneEmpty(ArrivedData(data, reduced))
  {
    var arrived := ArrivedData(data, reduced);
    forall e | e in data ensures FiledUnder(arrived[e], e) && arrived[e] != [] {
      forall m: Message | m in arrived[e] ensures m.hdr.Equip() == e {
        var i :| 0 <= i < |data[e]| && arrived[e][i] == m;
        assert data[e][i] in data[e] && FiledUnder(data[e], e);
      }
      assert |arrived[e]| == |data[e]|;
    }
  }

  lemma {:induction false} KeptShrinks(ms: seq<Message>, reduced: bool, e: Equipment)
    ensures |OnlyOf(Kept(ms, reduced), e)| <= |OnlyOf(ms, e)|
    ensures (exists m :: m in ms && Swallowed(m) && m.hdr.Equip() == e) ==>
      |OnlyOf(Kept(ms, reduced), e)| < |OnlyOf(ms, e)|
    decreases |ms|
  {
    if ms != [] {
      var n := |ms| - 1;
      KeptShrinks(ms[..n], reduced, e);
      assert forall m :: m in ms <==> m in ms[..n] || m == ms[n];
      var more := if Swallowed(ms[n]) then [] else [Arrived(ms[n], reduced)];
      OnlyOfConcat(Kept(ms[..n], reduced), more, e);
      assert more != [] ==> more[..0] == [] && more[0].hdr.Equip() == ms[n].hdr.Equip();
    }
  }

  lemma {:induction false} FlatHas(data: StfData, order: seq<Equipment>, e: Equipment, m: Message)
    requires e in order && m in MessagesOf(data, e)
    ensures m in Flat(data, order)
    decreases |order|
  {
    var n := |order| - 1;
    if e != order[n] {
      assert order == order[..n] + [order[n]];
      FlatHas(data, order[..n], e, m);
    }
  }

  /**
   Either stream brings back every message with its parts, in order, exactly when no message
   of a single part uses the reserved description.
  */
  lemma {:induction false} StreamRoundTrip(layout: Layout, h: StfHeader, data: StfData, order: seq<Equipment>, reduced: bool)
    requires layout.Carries(h) && Filed(data) && NoneEmpty(data) && Enumerates(order, data)
    requires AllStamped(Flat(data, order))
    ensures
      var r := Parse(Stream(layout, h, Flat(data, order), reduced), layout);
      && r.Parsed? && r.header.Some?
      && (Collect(r.ms) == ArrivedData(data, reduced) <==> forall e, m | e in data && m in data[e] :: !Swallowed(m))
      && ((forall e, m | e in data && m in data[e] :: !Swallowed(m)) ==> r.header == Some(h))
  {
    var ms := Flat(data, order);
    ParseStream(layout, h, ms, reduced);
    ArrivedIsFiled(data, reduced);
    if forall e, m | e in data && m in data[e] :: !Swallowed(m) {
      forall m | m in ms ensures !Swallowed(m) { FlatMembers(data, order, m); }
      KeptAll(ms, reduced);
      FlatArrived(data, order, reduced);
      CollectFlat(ArrivedData(data, reduced), order);
      NoneSwallowed(h, ms, layout);
    } else {
      var e, m :| e in data && m in data[e] && Swallowed(m);
      FlatHas(data, order, e, m);
      assert FiledUnder(data[e], e);
      KeptShrinks(ms, reduced, e);
      PutAllFiles(map[], Kept(ms, reduced), e);
      OnlyOfFlat(data, order, e);
      assert |MessagesOf(Collect(Kept(ms, reduced)), e)| < |data[e]| == |ArrivedData(data, reduced)[e]|;
    }
  }

  lemma {:induction false} NoneSwallowed(h: StfHeader, ms: seq<Message>, layout: Layout)
    requires forall m | m in ms :: !Swallowed(m)
    ensures HeaderAfter(h, ms, layout) == h
    decreases |ms|
  {
    if ms != [] {
      var n := |ms| - 1;
      assert ms[n] in ms;
      NoneSwallowed(h, ms[..n], layout);
    }
  }

  /** The reduced stream changes nothing; the full one agrees when headers tell the first part's size. */
  lemma {:induction false} ArrivedUnchanged(data: StfData, reduced: bool)
    requires reduced || forall e, m | e in data && m in data[e] :: m.parts != [] ==> m.hdr.payloadSize == |m.parts[0]|
    ensures ArrivedData(data, reduced) == data
  {
    forall e | e in data ensures ArrivedAll(data[e], reduced) == data[e] {
      forall i | 0 <= i < |data[e]| ensures Arrived(data[e][i], reduced) == data[e][i] {
        assert data[e][i] in data[e];
      }
    }
  }
}
