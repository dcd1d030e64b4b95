/** The sending half of a client worker (client_current, the send paths of iq_client_handler
    and fft_client_handler in src/rtl_stream_server.c): which frames reach the socket, in what
    order, when retunes, stop requests and send failures may fall between any two steps. */
module Outbox {
  import opened Words
  import opened Wire

  /** Before the stop flag and before the epoch check of client_current, holding a frame or
      not; looking for data; inside rtlsdr_stream_sendv with k bytes gone; gone, with the
      frame it failed in. */
  datatype Pc =
    | Checking(frame: Option<Frame>) | CheckingEpoch(frame: Option<Frame>) | Looking
    | Sending(f: Frame, k: nat) | Gone(failed: Option<Frame>, k: nat)

  const GONE := Gone(None, 0)

  datatype Box = Box(
    fftMode: bool, epoch: nat, newFreq: u64, stopping: bool, pc: Pc, wire: seq<byte>,
    data: seq<Frame>, tail: seq<Frame>,     // the frames sent whole: data, then events
    tunes: seq<u64>, begun: nat,            // the retunes; data frames begun before the first
    seen: nat)                              // the retunes made when the epoch check failed, or 0

  datatype Act = Retune(freq: u64) | Stop | CheckFlag | CheckEpoch | Abandon | SendSome(n: nat) | SendFail | Sent

  predicate IsData(f: Frame) { f.Iq? || f.Fft? }

  predicate Enabled(b: Box, a: Act) {
    match a
    case Retune(_) => true
    case Stop => true
    case CheckFlag => b.pc.Checking?
    case CheckEpoch => b.pc.CheckingEpoch?
    case Abandon => b.pc.Looking?
    case SendSome(n) => b.pc.Sending? && Emittable(b.pc.f) && b.pc.k + n <= |Encode(b.pc.f)|
    case SendFail => b.pc.Sending? && Emittable(b.pc.f) && b.pc.k < |Encode(b.pc.f)|
    case Sent => b.pc.Sending? && Emittable(b.pc.f) && b.pc.k == |Encode(b.pc.f)|
  }

  /** A data frame on its way to the wire. */
  function InFlight(pc: Pc): nat { if pc.Sending? && IsData(pc.f) then 1 else 0 }

  function AfterSent(b: Box): Box
    requires b.pc.Sending?
  {
    match b.pc.f
    case FreqChange(_) => b.(tail := b.tail + [b.pc.f], pc := Sending(StreamEnd, 0))
    case StreamEnd => b.(tail := b.tail + [b.pc.f], pc := GONE)
    case _ => b.(data := b.data + [b.pc.f], pc := Checking(None))
  }

  function Next(b: Box, a: Act): Box
    requires Enabled(b, a)
  {
    match a
    case Retune(freq) =>
      b.(newFreq := freq, epoch := b.epoch + 1, tunes := b.tunes + [freq],
         begun := if b.tunes == [] then |b.data| + InFlight(b.pc) else b.begun)
    case Stop => b.(stopping := true)
    case CheckFlag => b.(pc := if b.stopping then GONE else CheckingEpoch(b.pc.frame))
    case CheckEpoch =>
      if b.epoch != 1 then b.(pc := Sending(FreqChange(b.newFreq), 0), seen := |b.tunes|)
      else if b.pc.frame.Some? then b.(pc := Sending(b.pc.frame.value, 0))
      else b.(pc := Looking)
    case Abandon => b.(pc := GONE)
    case SendSome(n) => b.(wire := b.wire + Encode(b.pc.f)[b.pc.k..b.pc.k + n], pc := Sending(b.pc.f, b.pc.k + n))
    case SendFail => b.(pc := Gone(Some(b.pc.f), b.pc.k))
    case Sent => AfterSent(b)
  }

  /** The search for data has ended, with a frame or without. */
  function Offer(b: Box, frame: Option<Frame>): Box { b.(pc := Checking(frame)) }

  /** A worker before its first check; the capture may have been retuned already. */
  ghost predicate Fresh(b: Box) {
    && b.epoch == 1 + |b.tunes| && (b.tunes != [] ==> b.newFreq == b.tunes[|b.tunes| - 1] && b.begun == 0)
    && b.pc == Checking(None) && b.wire == [] && b.data == [] && b.tail == [] && b.seen == 0
  }

  // ---- The invariant ----

  /** The data frame that is made but not sent. */
  function Pending(pc: Pc): Option<Frame> {
    match pc
    case Checking(f) => f
    case CheckingEpoch(f) => f
    case Sending(f, _) => if IsData(f) then Some(f) else None
    case _ => None
  }

  /** No data frame follows any more. */
  predicate Over(pc: Pc) { pc.Gone? || (pc.Sending? && !IsData(pc.f)) }

  /** Every data frame made so far, but for one that was dropped. */
  function Line(b: Box): seq<Frame> {
    b.data + match Pending(b.pc) case Some(f) => [f] case None => []
  }

  ghost function Partial(pc: Pc): seq<byte> {
    match pc
    case Sending(f, k) => if Emittable(f) && k <= |Encode(f)| then Encode(f)[..k] else []
    case Gone(Some(f), k) => if Emittable(f) && k <= |Encode(f)| then Encode(f)[..k] else []
    case _ => []
  }

  ghost predicate OnWire(data: seq<Frame>, tail: seq<Frame>, pc: Pc, wire: seq<byte>) {
    && AllEmittable(data + tail)
    && (pc.Sending? ==> Emittable(pc.f) && pc.k <= |Encode(pc.f)|)
    && (pc.Gone? && pc.failed.Some? ==> Emittable(pc.failed.value) && pc.k < |Encode(pc.failed.value)|)
    && wire == EncodeAll(data + tail) + Partial(pc)
  }

  /** The data frames of a connection are all of its own kind. */
  predicate Own(fftMode: bool, f: Frame) { if fftMode then f.Fft? else f.Iq? }

  ghost predicate Kinds(fftMode: bool, data: seq<Frame>, pc: Pc) {
    && (forall i :: 0 <= i < |data| ==> Own(fftMode, data[i]))
    && (Pending(pc).Some? ==> Own(fftMode, Pending(pc).value) && Emittable(Pending(pc).value))
    && (pc.Gone? && pc.failed.Some? && IsData(pc.failed.value) ==> Own(fftMode, pc.failed.value))
  }

  /** freq is the frequency the capture was last tuned to when the epoch check failed. */
  predicate Latest(freq: u64, tunes: seq<u64>, seen: nat) { 1 <= seen <= |tunes| && freq == tunes[seen - 1] }

  /** After the data come the frequency event and the end event, each at most once, only after
      a retune, and naming the frequency the client_current that found it read. */
  ghost predicate Script(tail: seq<Frame>, pc: Pc, tunes: seq<u64>, seen: nat) {
    && (tail != [] ==> tail[0].FreqChange? && Latest(tail[0].freq, tunes, seen))
    && (|tail| == 2 ==> tail[1].StreamEnd?) && |tail| <= 2
    && (!Over(pc) ==> tail == [] && seen == 0)
    && (pc.Sending? ==> Follows(tail, pc.f, tunes, seen))
    && (pc.Gone? && pc.failed.Some? ==> Follows(tail, pc.failed.value, tunes, seen))
  }

  ghost predicate Follows(tail: seq<Frame>, f: Frame, tunes: seq<u64>, seen: nat) {
    match f
    case StreamEnd => |tail| == 1
    case FreqChange(freq) => tail == [] && Latest(freq, tunes, seen)
    case _ => tail == []
  }

  /** Once the capture is retuned no further data frame is begun. */
  ghost predicate Retuned(b: Box) {
    && b.epoch == 1 + |b.tunes| && (b.tunes != [] ==> b.newFreq == b.tunes[|b.tunes| - 1])
    && (b.tunes != [] ==> |b.data| + InFlight(b.pc) <= b.begun)
  }

  ghost predicate Inv(b: Box) {
    OnWire(b.data, b.tail, b.pc, b.wire) && Kinds(b.fftMode, b.data, b.pc) && Script(b.tail, b.pc, b.tunes, b.seen)
        && Retuned(b)
  }

  // ---- Steps ----

  lemma {:induction false} EncodeAllSnoc(fs: seq<Frame>, f: Frame)
    requires AllEmittable(fs) && Emittable(f)
    ensures AllEmittable(fs + [f]) && EncodeAll(fs + [f]) == EncodeAll(fs) + Encode(f)
  {
    hide Encode;
    if fs == [] {
      assert fs + [f] == [f] && [f][1..] == [];
    } else {
      EncodeAllSnoc(fs[1..], f);
      assert (fs + [f])[1..] == fs[1..] + [f];
    }
  }

  lemma OnWireMore(data: seq<Frame>, tail: seq<Frame>, f: Frame, k: nat, n: nat, wire: seq<byte>)
    requires OnWire(data, tail, Sending(f, k), wire) && k + n <= |Encode(f)|
    ensures OnWire(data, tail, Sending(f, k + n), wire + Encode(f)[k..k + n])
  {
    hide EncodeAll, Encode;
    var e := Encode(f);
    assert e[..k + n] == e[..k] + e[k..k + n];
  }

  lemma OnWireCut(data: seq<Frame>, tail: seq<Frame>, f: Frame, k: nat, wire: seq<byte>)
    requires OnWire(data, tail, Sending(f, k), wire) && k < |Encode(f)|
    ensures OnWire(data, tail, Gone(Some(f), k), wire)
  {
    hide EncodeAll, Encode;
  }

  lemma OnWireWhole(data: seq<Frame>, tail: seq<Frame>, f: Frame, k: nat, wire: seq<byte>)
    requires OnWire(data, tail, Sending(f, k), wire) && k == |Encode(f)|
    ensures AllEmittable(data + tail + [f]) && wire == EncodeAll(data + tail + [f])
  {
    hide EncodeAll, Encode;
    EncodeAllSnoc(data + tail, f);
    assert Encode(f)[..k] == Encode(f);
  }

  /** No byte of a frame is on the wire without its last. */
  ghost predicate Idle(pc: Pc) {
    match pc
    case Sending(f, k) => k == 0 && Emittable(f)
    case Gone(f, _) => f.None?
    case _ => true
  }

  lemma OnWireIdle(data: seq<Frame>, tail: seq<Frame>, pc: Pc, wire: seq<byte>)
    requires Idle(pc) && AllEmittable(data + tail)
    ensures OnWire(data, tail, pc, wire) <==> wire == EncodeAll(data + tail)
  {
    hide EncodeAll, Encode;
  }

  lemma SentKeeps(b: Box)
    requires Inv(b) && Enabled(b, Sent)
    ensures Inv(AfterSent(b)) && Line(AfterSent(b)) == Line(b)
  {
    hide OnWire, EncodeAll, Encode;
    var f, c := b.pc.f, AfterSent(b);
    OnWireWhole(b.data, b.tail, f, b.pc.k, b.wire);
    assert c.data + c.tail == b.data + b.tail + [f];
    OnWireIdle(c.data, c.tail, c.pc, c.wire);
  }

  lemma SendKeeps(b: Box, a: Act)
    requires Inv(b) && Enabled(b, a) && (a.SendSome? || a.SendFail?)
    ensures Inv(Next(b, a)) && Line(Next(b, a)) <= Line(b) && Next(b, a).fftMode == b.fftMode
    ensures !Over(Next(b, a).pc) ==> Line(Next(b, a)) == Line(b) && !Over(b.pc)
  {
    hide OnWire, Encode;
    if a.SendSome? {
      OnWireMore(b.data, b.tail, b.pc.f, b.pc.k, a.n, b.wire);
    } else {
      OnWireCut(b.data, b.tail, b.pc.f, b.pc.k, b.wire);
    }
  }

  lemma CheckKeeps(b: Box, a: Act)
    requires Inv(b) && Enabled(b, a) && (a.CheckFlag? || a.CheckEpoch? || a.Abandon?)
    ensures Inv(Next(b, a)) && Line(Next(b, a)) <= Line(b)
    ensures !Over(Next(b, a).pc) ==> Line(Next(b, a)) == Line(b) && !Over(b.pc)
  {
    hide OnWire, EncodeAll, Encode;
    assert AllEmittable(b.data + b.tail) by { EmittableSoFar(b); }
    OnWireIdle(b.data, b.tail, b.pc, b.wire);
    OnWireIdle(b.data, b.tail, Next(b, a).pc, b.wire);
  }

  lemma EmittableSoFar(b: Box)
    requires Inv(b)
    ensures AllEmittable(b.data + b.tail)
  {
    hide EncodeAll, Encode;
  }

  /** Every step keeps the invariant. A step never adds to the line of data frames and drops
      from it only the frame in hand, and only when no data follows. The retunes a client is
      told of are those made up to the epoch check that found one. */
  lemma StepKeeps(b: Box, a: Act)
    requires Inv(b) && Enabled(b, a)
    ensures Inv(Next(b, a)) && Line(Next(b, a)) <= Line(b) && Next(b, a).fftMode == b.fftMode
    ensures !Over(Next(b, a).pc) ==> Line(Next(b, a)) == Line(b) && !Over(b.pc)
    ensures Next(b, a).seen == if a.CheckEpoch? && b.seen == 0 then |b.tunes| else b.seen
  {
    hide OnWire, EncodeAll, Encode;
    match a
    case Sent => SentKeeps(b);
    case SendSome(n) => SendKeeps(b, a);
    case SendFail => SendKeeps(b, a);
    case Retune(_) =>
    case Stop =>
    case _ => CheckKeeps(b, a);
  }

  lemma OfferKeeps(b: Box, frame: Option<Frame>)
    requires Inv(b) && b.pc.Looking? && (frame.Some? ==> Own(b.fftMode, frame.value) && Emittable(frame.value))
    ensures Inv(Offer(b, frame)) && Line(b) == b.data && !Over(Offer(b, frame).pc)
    ensures Line(Offer(b, frame)) == b.data + match frame case Some(f) => [f] case None => []
  {
    hide EncodeAll;
  }

  // ---- What the peer reads ----

  /** The frames of which every byte is on the wire. */
  ghost function Whole(b: Box): seq<Frame> {
    b.data + b.tail + if b.pc.Sending? && Emittable(b.pc.f) && b.pc.k == |Encode(b.pc.f)| then [b.pc.f] else []
  }

  lemma OnlyLastEnds(b: Box)
    requires Inv(b)
    ensures EndsAtMostOnce(Whole(b)) && forall f :: f in Whole(b) ==> Own(b.fftMode, f) || f.FreqChange? || f.StreamEnd?
  {
    hide EncodeAll, Encode, OnWire, Retuned;
    var fs := Whole(b);
    forall i | 0 <= i < |fs| - 1 ensures !fs[i].StreamEnd? {
      assert i < |b.data| ==> fs[i] == b.data[i];
      assert |b.data| <= i < |b.data| + |b.tail| ==> fs[i] == b.tail[i - |b.data|];
    }
  }

  /** First the data, which may include the frame in hand, then the events. */
  lemma WholeParts(b: Box) returns (data: seq<Frame>, events: seq<Frame>)
    requires Inv(b)
    ensures Whole(b) == data + events && b.data <= data <= Line(b) && forall f :: f in events ==> !IsData(f)
    ensures b.pc.Looking? ==> Whole(b) == b.data
  {
    hide EncodeAll, Encode, OnWire, Retuned, Kinds;
    var more := Whole(b)[|b.data + b.tail|..];
    if more != [] && IsData(b.pc.f) {
      data, events := b.data + more, [];
    } else {
      data, events := b.data, b.tail + more;
    }
  }

  /** The wire is those frames and a proper part of at most one more. */
  lemma WireIsWhole(b: Box) returns (next: Frame, cut: seq<byte>)
    requires Inv(b)
    ensures AllEmittable(Whole(b)) && Emittable(next) && cut <= Encode(next) && |cut| < |Encode(next)|
    ensures b.wire == EncodeAll(Whole(b)) + cut
    ensures Own(b.fftMode, next) || next.FreqChange? || next.StreamEnd?
  {
    hide EncodeAll, Encode;
    EndNotEmpty();
    next, cut := StreamEnd, [];
    if b.pc.Sending? && b.pc.k == |Encode(b.pc.f)| {
      OnWireWhole(b.data, b.tail, b.pc.f, b.pc.k, b.wire);
    } else {
      assert Whole(b) == b.data + b.tail;
      if b.pc.Sending? {
        next, cut := b.pc.f, Partial(b.pc);
      } else if b.pc.Gone? && b.pc.failed.Some? {
        next, cut := b.pc.failed.value, Partial(b.pc);
      }
    }
  }

  lemma EndNotEmpty()
    ensures |Encode(StreamEnd)| > 0
  {}
}
