/** RTLSTREAM/2 on the wire: the encoders of src/rtl_stream_proto.c, and the reading side of
    stream_client/c/client.c as functions of the byte stream. FFT powers are opaque 32-bit
    patterns. */
module Wire {
  import opened Words

  const MAGIC_REQ: u32 := 0x52543252
  const MAGIC_IQ: u32 := 0x52543249
  const MAGIC_FFT: u32 := 0x52543246
  const MAGIC_EVT: u32 := 0x52543245
  const MODE_IQ: byte := 0
  const MODE_FFT: byte := 1
  const EVT_FREQ_CHANGE: u32 := 1
  const EVT_STREAM_END: u32 := 2
  const MAX_IQ_COMPONENTS := 262144
  const MAX_FFT_BINS := 65536
  const REQ_SIZE := 29
  const HDR_SIZE := 32

  // ---- Big-endian words ----

  function Put32(v: u32): (s: seq<byte>)
    ensures |s| == 4
  {
    [v / 0x100_0000, v / 0x1_0000 % 256, v / 256 % 256, v % 256]
  }

  function Put64(v: u64): (s: seq<byte>)
    ensures |s| == 8
  {
    Put32(v / U32) + Put32(v % U32)
  }

  function Get32(s: seq<byte>, at: nat): u32
    requires at + 4 <= |s|
  {
    var a: int, b: int, c: int, d: int := s[at], s[at + 1], s[at + 2], s[at + 3];
    a * 0x100_0000 + b * 0x1_0000 + c * 256 + d
  }

  function Get64(s: seq<byte>, at: nat): u64
    requires at + 8 <= |s|
  {
    var hi: int, lo: int := Get32(s, at), Get32(s, at + 4);
    hi * U32 + lo
  }

  lemma Get32Put32(v: u32, s: seq<byte>, at: nat)
    requires at + 4 <= |s| && s[at..at + 4] == Put32(v)
    ensures Get32(s, at) == v
  {
    var w := s[at..at + 4];
    assert w[0] == s[at] && w[1] == s[at + 1] && w[2] == s[at + 2] && w[3] == s[at + 3];
    Digits(v);
  }

  lemma Digits(v: nat)
    ensures v == v / 0x100_0000 * 0x100_0000 + v / 0x1_0000 % 256 * 0x1_0000 + v / 256 % 256 * 256 + v % 256
  {
    assert v / 0x1_0000 == v / 0x100_0000 * 256 + v / 0x1_0000 % 256;
    assert v / 256 == v / 0x1_0000 * 256 + v / 256 % 256;
  }

  lemma Get64Put64(v: u64, s: seq<byte>, at: nat)
    requires at + 8 <= |s| && s[at..at + 8] == Put64(v)
    ensures Get64(s, at) == v
  {
    var w := s[at..at + 8];
    assert s[at..at + 4] == w[..4] && s[at + 4..at + 8] == w[4..];
    Get32Put32(v / U32, s, at);
    Get32Put32(v % U32, s, at + 4);
  }

  // ---- Requests ----

  datatype Req = Req(magic: u32, freq: u64, rate: u64, bandwidth: u64, mode: byte)

  predicate ValidReq(r: Req) {
    r.magic == MAGIC_REQ &&
    (r.mode == MODE_IQ || (r.mode == MODE_FFT && r.freq == 0 && r.rate == 0 && r.bandwidth == 0))
  }

  function EncodeReq(r: Req): Option<seq<byte>> {
    if ValidReq(r) then Some(Put32(r.magic) + Put64(r.freq) + Put64(r.rate) + Put64(r.bandwidth) + [r.mode]) else None
  }

  function DecodeReq(s: seq<byte>): Option<Req>
    requires |s| == REQ_SIZE
  {
    var r := Req(Get32(s, 0), Get64(s, 4), Get64(s, 12), Get64(s, 20), s[28]);
    if ValidReq(r) then Some(r) else None
  }

  /** Every valid request is read back, and no other is encoded. */
  lemma RequestRoundTrip(r: Req)
    ensures EncodeReq(r).Some? <==> ValidReq(r)
    ensures EncodeReq(r).Some? ==> |EncodeReq(r).value| == REQ_SIZE && DecodeReq(EncodeReq(r).value) == Some(r)
  {
    if ValidReq(r) {
      var s := EncodeReq(r).value;
      assert s[0..4] == Put32(r.magic) && s[4..12] == Put64(r.freq);
      assert s[12..20] == Put64(r.rate) && s[20..28] == Put64(r.bandwidth);
      Get32Put32(r.magic, s, 0);
      Get64Put64(r.freq, s, 4);
      Get64Put64(r.rate, s, 12);
      Get64Put64(r.bandwidth, s, 20);
    }
  }

  lemma Put32Get32(s: seq<byte>, at: nat)
    requires at + 4 <= |s|
    ensures Put32(Get32(s, at)) == s[at..at + 4]
  {
    var a: int, b: int, c: int, d: int := s[at], s[at + 1], s[at + 2], s[at + 3];
    var v := a * 0x100_0000 + b * 0x1_0000 + c * 256 + d;
    assert v / 256 == a * 0x1_0000 + b * 256 + c && v / 0x1_0000 == a * 256 + b && v / 0x100_0000 == a;
    assert s[at..at + 4] == [s[at], s[at + 1], s[at + 2], s[at + 3]];
  }

  lemma Put64Get64(s: seq<byte>, at: nat)
    requires at + 8 <= |s|
    ensures Put64(Get64(s, at)) == s[at..at + 8]
  {
    hide Put32, Get32;
    var hi: int, lo: int := Get32(s, at), Get32(s, at + 4);
    assert (hi * U32 + lo) / U32 == hi && (hi * U32 + lo) % U32 == lo;
    Put32Get32(s, at);
    Put32Get32(s, at + 4);
    assert s[at..at + 8] == s[at..at + 4] + s[at + 4..at + 8];
  }

  /** The decoder accepts exactly the encodings: every other 29 bytes are refused. */
  lemma RequestExact(s: seq<byte>)
    requires |s| == REQ_SIZE
    ensures DecodeReq(s).Some? ==> EncodeReq(DecodeReq(s).value) == Some(s)
    ensures DecodeReq(s).Some? <==> exists r :: EncodeReq(r) == Some(s)
  {
    hide Put32, Put64, Get32, Get64;
    if DecodeReq(s).Some? {
      Put32Get32(s, 0);
      Put64Get64(s, 4);
      Put64Get64(s, 12);
      Put64Get64(s, 20);
      assert s == s[0..4] + s[4..12] + s[12..20] + s[20..28] + [s[28]];
      assert EncodeReq(DecodeReq(s).value) == Some(s);
    }
    if r :| EncodeReq(r) == Some(s) {
      RequestRoundTrip(r);
    }
  }

  // ---- Frames ----

  datatype Header = Header(magic: u32, freq: u64, rate: u64, seqNo: u64, count: u32)

  function EncodeHeader(h: Header): (s: seq<byte>)
    ensures |s| == HDR_SIZE
  {
    Put32(h.magic) + Put64(h.freq) + Put64(h.rate) + Put64(h.seqNo) + Put32(h.count)
  }

  function DecodeHeader(s: seq<byte>): Header
    requires |s| >= HDR_SIZE
  {
    Header(Get32(s, 0), Get64(s, 4), Get64(s, 12), Get64(s, 20), Get32(s, 28))
  }

  lemma HeaderRoundTrip(h: Header, rest: seq<byte>)
    ensures DecodeHeader(EncodeHeader(h) + rest) == h
  {
    var s := EncodeHeader(h) + rest;
    assert s[0..4] == Put32(h.magic) && s[4..12] == Put64(h.freq) && s[12..20] == Put64(h.rate)
        && s[20..28] == Put64(h.seqNo) && s[28..32] == Put32(h.count);
    Get32Put32(h.magic, s, 0);
    Get64Put64(h.freq, s, 4);
    Get64Put64(h.rate, s, 12);
    Get64Put64(h.seqNo, s, 20);
    Get32Put32(h.count, s, 28);
  }

  function EncodeIqHdr(h: Header): Option<seq<byte>> {
    if h.magic != MAGIC_IQ || h.count > MAX_IQ_COMPONENTS || h.count % 2 == 1 then None else Some(EncodeHeader(h))
  }

  function EncodeFftHdr(h: Header): Option<seq<byte>> {
    if h.magic != MAGIC_FFT || h.count < 2 || h.count > MAX_FFT_BINS then None else Some(EncodeHeader(h))
  }

  function EncodeEvt(kind: u32, freq: u64): Option<seq<byte>> {
    if kind == EVT_FREQ_CHANGE then Some(Put32(MAGIC_EVT) + Put32(kind) + Put64(freq))
    else if kind == EVT_STREAM_END then Some(Put32(MAGIC_EVT) + Put32(kind))
    else None
  }

  function IqBytes(samples: seq<int16>): (s: seq<byte>)
    ensures |s| == 2 * |samples|
  {
    if samples == [] then []
    else
      var last: int := samples[|samples| - 1];
      var v := if last < 0 then last + 0x1_0000 else last;
      IqBytes(samples[..|samples| - 1]) + [v / 256, v % 256]
  }

  function IqSample(hi: byte, lo: byte): int16 {
    var h: int, l: int := hi, lo;
    var v := h * 256 + l;
    if v < 32768 then v else v - 65536
  }

  function DecodeIq(s: seq<byte>): (samples: seq<int16>)
    ensures |samples| == |s| / 2
  {
    seq(|s| / 2, i requires 0 <= i < |s| / 2 => IqSample(s[2 * i], s[2 * i + 1]))
  }

  lemma {:induction false} IqBytesAt(samples: seq<int16>, i: nat)
    requires i < |samples|
    ensures IqSample(IqBytes(samples)[2 * i], IqBytes(samples)[2 * i + 1]) == samples[i]
  {
    var n := |samples| - 1;
    if i < n {
      IqBytesAt(samples[..n], i);
    }
  }

  lemma IqPayloadRoundTrip(samples: seq<int16>)
    ensures DecodeIq(IqBytes(samples)) == samples
  {
    forall i | 0 <= i < |samples| ensures DecodeIq(IqBytes(samples))[i] == samples[i] {
      IqBytesAt(samples, i);
    }
  }

  function FftBytes(bins: seq<u32>): (s: seq<byte>)
    ensures |s| == 4 * |bins|
  {
    if bins == [] then [] else FftBytes(bins[..|bins| - 1]) + Put32(bins[|bins| - 1])
  }

  function DecodeFft(s: seq<byte>): (bins: seq<u32>)
    ensures |bins| == |s| / 4
  {
    seq(|s| / 4, i requires 0 <= i < |s| / 4 => Get32(s, 4 * i))
  }

  lemma {:induction false} FftBytesAt(bins: seq<u32>, i: nat)
    requires i < |bins|
    ensures FftBytes(bins)[4 * i..4 * i + 4] == Put32(bins[i])
  {
    var n := |bins| - 1;
    if i < n {
      FftBytesAt(bins[..n], i);
      assert FftBytes(bins)[4 * i..4 * i + 4] == FftBytes(bins[..n])[4 * i..4 * i + 4];
    }
  }

  lemma FftPayloadRoundTrip(bins: seq<u32>)
    ensures DecodeFft(FftBytes(bins)) == bins
  {
    forall i | 0 <= i < |bins| ensures DecodeFft(FftBytes(bins))[i] == bins[i] {
      FftBytesAt(bins, i);
      Get32Put32(bins[i], FftBytes(bins), 4 * i);
    }
  }

  /** Everything the server puts on a connection. */
  datatype Frame =
    | Iq(freq: u64, rate: u64, seqNo: u64, samples: seq<int16>)
    | Fft(freq: u64, rate: u64, seqNo: u64, bins: seq<u32>)
    | FreqChange(freq: u64)
    | StreamEnd

  predicate Emittable(f: Frame) {
    match f
    case Iq(_, _, _, samples) => |samples| <= MAX_IQ_COMPONENTS && |samples| % 2 == 0
    case Fft(_, _, _, bins) => 2 <= |bins| <= MAX_FFT_BINS
    case _ => true
  }

  function Encode(f: Frame): seq<byte>
    requires Emittable(f)
  {
    match f
    case Iq(freq, rate, n, samples) => EncodeHeader(Header(MAGIC_IQ, freq, rate, n, |samples|)) + IqBytes(samples)
    case Fft(freq, rate, n, bins) => EncodeHeader(Header(MAGIC_FFT, freq, rate, n, |bins|)) + FftBytes(bins)
    case FreqChange(freq) => Put32(MAGIC_EVT) + Put32(EVT_FREQ_CHANGE) + Put64(freq)
    case StreamEnd => Put32(MAGIC_EVT) + Put32(EVT_STREAM_END)
  }

  /** What the header encoder for frame f returns. */
  function Head(f: Frame): Option<seq<byte>> {
    match f
    case Iq(freq, rate, n, samples) =>
      if |samples| < U32 then EncodeIqHdr(Header(MAGIC_IQ, freq, rate, n, |samples|)) else None
    case Fft(freq, rate, n, bins) =>
      if |bins| < U32 then EncodeFftHdr(Header(MAGIC_FFT, freq, rate, n, |bins|)) else None
    case FreqChange(freq) => EncodeEvt(EVT_FREQ_CHANGE, freq)
    case StreamEnd => EncodeEvt(EVT_STREAM_END, 0)
  }

  /** The encoders refuse exactly the frames that cannot be sent, and what they write is the
      frame, with nothing before the payload and nothing after it. */
  lemma EncodersAgree(f: Frame)
    ensures Head(f).Some? <==> Emittable(f)
    ensures Head(f).Some? ==>
              Encode(f) == Head(f).value + match f
                                           case Iq(_, _, _, samples) => IqBytes(samples)
                                           case Fft(_, _, _, bins) => FftBytes(bins)
                                           case _ => []
  {
    hide IqBytes, FftBytes, EncodeHeader, Put32, Put64;
  }

  // ---- The reading side ----

  datatype Conn = Conn(open: bool, stream: seq<byte>)

  const CLOSED := Conn(false, [])

  datatype Read<+T> =
    | ReadOk(hdr: Header, payload: seq<T>)
    | ReadEvent(event: Frame)
    | ReadCapacity(hdr: Header)
    | ReadError

  datatype HeaderRead = HeaderOk(hdr: Header) | HeaderEvent(event: Frame) | HeaderError

  /** read_header: an event, a header with the expected magic, or a closed connection. */
  function ReadHeader(c: Conn, magic: u32): (HeaderRead, Conn) {
    var s := c.stream;
    if !c.open || |s| < 4 then (HeaderError, CLOSED)
    else if Get32(s, 0) == MAGIC_EVT then
      if |s| < 8 then (HeaderError, CLOSED)
      else if Get32(s, 4) == EVT_FREQ_CHANGE then
        if |s| < 16 then (HeaderError, CLOSED) else (HeaderEvent(FreqChange(Get64(s, 8))), Conn(true, s[16..]))
      else if Get32(s, 4) == EVT_STREAM_END then (HeaderEvent(StreamEnd), CLOSED)
      else (HeaderError, CLOSED)
    else if Get32(s, 0) != magic || |s| < HDR_SIZE then (HeaderError, CLOSED)
    else (HeaderOk(DecodeHeader(s)), Conn(true, s[HDR_SIZE..]))
  }

  /** rtlsdr_stream_read_iq with room for max components. */
  function ReadIq(c: Conn, max: nat): (Read<int16>, Conn) {
    match ReadHeader(c, MAGIC_IQ)
    case (HeaderError, c1) => (ReadError, c1)
    case (HeaderEvent(e), c1) => (ReadEvent(e), c1)
    case (HeaderOk(h), c1) =>
      var bytes := 2 * h.count;
      if h.count > MAX_IQ_COMPONENTS || h.count % 2 == 1 || |c1.stream| < bytes then (ReadError, CLOSED)
      else if h.count > max then (ReadCapacity(h), Conn(true, c1.stream[bytes..]))
      else (ReadOk(h, DecodeIq(c1.stream[..bytes])), Conn(true, c1.stream[bytes..]))
  }

  /** rtlsdr_stream_read_fft with room for max bins. */
  function ReadFft(c: Conn, max: nat): (Read<u32>, Conn) {
    match ReadHeader(c, MAGIC_FFT)
    case (HeaderError, c1) => (ReadError, c1)
    case (HeaderEvent(e), c1) => (ReadEvent(e), c1)
    case (HeaderOk(h), c1) =>
      var bytes := 4 * h.count;
      if h.count < 2 || h.count > MAX_FFT_BINS || |c1.stream| < bytes then (ReadError, CLOSED)
      else if h.count > max then (ReadCapacity(h), Conn(true, c1.stream[bytes..]))
      else (ReadOk(h, DecodeFft(c1.stream[..bytes])), Conn(true, c1.stream[bytes..]))
  }

  /** What the reader is told about frame f. */
  function IqView(f: Frame, max: nat): Read<int16>
    requires Emittable(f) && !f.Fft?
  {
    match f
    case Iq(freq, rate, n, samples) =>
      var h := Header(MAGIC_IQ, freq, rate, n, |samples|);
      if |samples| > max then ReadCapacity(h) else ReadOk(h, samples)
    case _ => ReadEvent(f)
  }

  function FftView(f: Frame, max: nat): Read<u32>
    requires Emittable(f) && !f.Iq?
  {
    match f
    case Fft(freq, rate, n, bins) =>
      var h := Header(MAGIC_FFT, freq, rate, n, |bins|);
      if |bins| > max then ReadCapacity(h) else ReadOk(h, bins)
    case _ => ReadEvent(f)
  }

  function After(f: Frame, rest: seq<byte>): Conn {
    if f.StreamEnd? then CLOSED else Conn(true, rest)
  }

  lemma EventPrefix(f: Frame, rest: seq<byte>)
    requires f.FreqChange? || f.StreamEnd?
    ensures var s := Encode(f) + rest;
            && |s| >= 8 && Get32(s, 0) == MAGIC_EVT
            && Get32(s, 4) == (if f.FreqChange? then EVT_FREQ_CHANGE else EVT_STREAM_END)
            && (f.FreqChange? ==> |s| >= 16 && Get64(s, 8) == f.freq && s[16..] == rest)
  {
    var s, kind := Encode(f) + rest, if f.FreqChange? then EVT_FREQ_CHANGE else EVT_STREAM_END;
    assert s[0..4] == Put32(MAGIC_EVT) && s[4..8] == Put32(kind);
    Get32Put32(MAGIC_EVT, s, 0);
    Get32Put32(kind, s, 4);
    if f.FreqChange? {
      assert s[8..16] == Put64(f.freq);
      Get64Put64(f.freq, s, 8);
    }
  }

  /** A header with the expected magic is read back and leaves the stream at the payload. */
  lemma HeaderRead1(h: Header, rest: seq<byte>)
    requires h.magic != MAGIC_EVT
    ensures ReadHeader(Conn(true, EncodeHeader(h) + rest), h.magic) == (HeaderOk(h), Conn(true, rest))
  {
    HeaderRoundTrip(h, rest);
    assert (EncodeHeader(h) + rest)[HDR_SIZE..] == rest;
  }

  /** One frame, whatever follows it, is read back exactly; a frame too large for the
      reader's buffer is skipped exactly; the end event closes the connection. */
  lemma ReadIqFrame(f: Frame, rest: seq<byte>, max: nat)
    requires Emittable(f) && !f.Fft?
    ensures ReadIq(Conn(true, Encode(f) + rest), max) == (IqView(f, max), After(f, rest))
  {
    hide EncodeHeader, DecodeIq, IqBytes;
    match f
    case Iq(freq, rate, n, samples) =>
      var h := Header(MAGIC_IQ, freq, rate, n, |samples|);
      assert Encode(f) + rest == EncodeHeader(h) + (IqBytes(samples) + rest);
      HeaderRead1(h, IqBytes(samples) + rest);
      IqPayloadRoundTrip(samples);
      assert (IqBytes(samples) + rest)[..2 * |samples|] == IqBytes(samples);
      assert (IqBytes(samples) + rest)[2 * |samples|..] == rest;
    case FreqChange(_) =>
      EventPrefix(f, rest);
    case StreamEnd =>
      EventPrefix(f, rest);
  }

  lemma ReadFftFrame(f: Frame, rest: seq<byte>, max: nat)
    requires Emittable(f) && !f.Iq?
    ensures ReadFft(Conn(true, Encode(f) + rest), max) == (FftView(f, max), After(f, rest))
  {
    hide EncodeHeader, DecodeFft, FftBytes;
    match f
    case Fft(freq, rate, n, bins) =>
      var h := Header(MAGIC_FFT, freq, rate, n, |bins|);
      assert Encode(f) + rest == EncodeHeader(h) + (FftBytes(bins) + rest);
      HeaderRead1(h, FftBytes(bins) + rest);
      FftPayloadRoundTrip(bins);
      assert (FftBytes(bins) + rest)[..4 * |bins|] == FftBytes(bins);
      assert (FftBytes(bins) + rest)[4 * |bins|..] == rest;
    case FreqChange(_) =>
      EventPrefix(f, rest);
    case StreamEnd =>
      EventPrefix(f, rest);
  }

  /** The first four bytes of a stream decide how it is read. */
  lemma MagicOf(f: Frame, p: seq<byte>)
    requires Emittable(f) && p <= Encode(f) && |p| >= 4
    ensures Get32(p, 0) == if f.Iq? then MAGIC_IQ else if f.Fft? then MAGIC_FFT else MAGIC_EVT
  {
    var m := if f.Iq? then MAGIC_IQ else if f.Fft? then MAGIC_FFT else MAGIC_EVT;
    assert p[0..4] == Encode(f)[0..4] == Put32(m);
    Get32Put32(m, p, 0);
  }

  lemma CountOf(f: Frame, p: seq<byte>)
    requires Emittable(f) && (f.Iq? || f.Fft?) && p <= Encode(f) && |p| >= HDR_SIZE
    ensures Get32(p, 28) == if f.Iq? then |f.samples| else |f.bins|
  {
    var n: u32 := if f.Iq? then |f.samples| else |f.bins|;
    assert p[28..32] == Encode(f)[28..32] == Put32(n);
    Get32Put32(n, p, 28);
  }

  lemma KindOf(f: Frame, p: seq<byte>)
    requires (f.FreqChange? || f.StreamEnd?) && p <= Encode(f) && |p| >= 8
    ensures Get32(p, 4) == if f.FreqChange? then EVT_FREQ_CHANGE else EVT_STREAM_END
  {
    var kind := if f.FreqChange? then EVT_FREQ_CHANGE else EVT_STREAM_END;
    assert p[4..8] == Encode(f)[4..8] == Put32(kind);
    Get32Put32(kind, p, 4);
  }

  /** A frame cut short is an error, never data. */
  lemma ReadIqTruncated(f: Frame, p: seq<byte>, max: nat)
    requires Emittable(f) && !f.Fft? && p <= Encode(f) && |p| < |Encode(f)|
    ensures ReadIq(Conn(true, p), max) == (ReadError, CLOSED)
  {
    if |p| >= 4 {
      MagicOf(f, p);
      if f.Iq? {
        if |p| >= HDR_SIZE { CountOf(f, p); }
      } else if |p| >= 8 {
        KindOf(f, p);
      }
    }
  }

  lemma ReadFftTruncated(f: Frame, p: seq<byte>, max: nat)
    requires Emittable(f) && !f.Iq? && p <= Encode(f) && |p| < |Encode(f)|
    ensures ReadFft(Conn(true, p), max) == (ReadError, CLOSED)
  {
    if |p| >= 4 {
      MagicOf(f, p);
      if f.Fft? {
        if |p| >= HDR_SIZE { CountOf(f, p); }
      } else if |p| >= 8 {
        KindOf(f, p);
      }
    }
  }

  // ---- Whole connections ----

  ghost predicate IqFrames(fs: seq<Frame>) {
    forall i :: 0 <= i < |fs| ==> Emittable(fs[i]) && !fs[i].Fft?
  }

  ghost predicate FftFrames(fs: seq<Frame>) {
    forall i :: 0 <= i < |fs| ==> Emittable(fs[i]) && !fs[i].Iq?
  }

  ghost predicate AllEmittable(fs: seq<Frame>) {
    forall i :: 0 <= i < |fs| ==> Emittable(fs[i])
  }

  ghost function EncodeAll(fs: seq<Frame>): seq<byte>
    requires AllEmittable(fs)
  {
    if fs == [] then [] else Encode(fs[0]) + EncodeAll(fs[1..])
  }

  /** The results of successive reads, the k-th with room for maxes[k]. */
  function IqReads(c: Conn, maxes: seq<nat>): (r: seq<Read<int16>>)
    ensures |r| == |maxes|
    decreases |maxes|
  {
    if maxes == [] then []
    else var (r, c1) := ReadIq(c, maxes[0]); [r] + IqReads(c1, maxes[1..])
  }

  function FftReads(c: Conn, maxes: seq<nat>): (r: seq<Read<u32>>)
    ensures |r| == |maxes|
    decreases |maxes|
  {
    if maxes == [] then []
    else var (r, c1) := ReadFft(c, maxes[0]); [r] + FftReads(c1, maxes[1..])
  }

  /** Once a read has failed or the end event has arrived, nothing more is ever read. */
  lemma {:induction false} ClosedStaysClosed(c: Conn, maxes: seq<nat>)
    requires !c.open
    ensures forall i :: 0 <= i < |maxes| ==> IqReads(c, maxes)[i] == ReadError && FftReads(c, maxes)[i] == ReadError
    decreases |maxes|
  {
    if maxes != [] {
      assert ReadIq(c, maxes[0]) == (ReadError, CLOSED) && ReadFft(c, maxes[0]) == (ReadError, CLOSED);
      ClosedStaysClosed(CLOSED, maxes[1..]);
      forall i | 0 <= i < |maxes| ensures IqReads(c, maxes)[i] == ReadError && FftReads(c, maxes)[i] == ReadError {
        if i > 0 { assert maxes[1..][i - 1] == maxes[i]; }
      }
    }
  }

  lemma ErrorCloses(c: Conn, max: nat)
    ensures ReadIq(c, max).0.ReadError? ==> !ReadIq(c, max).1.open
    ensures ReadFft(c, max).0.ReadError? ==> !ReadFft(c, max).1.open
    ensures ReadIq(c, max).0 == ReadEvent(StreamEnd) ==> !ReadIq(c, max).1.open
    ensures ReadFft(c, max).0 == ReadEvent(StreamEnd) ==> !ReadFft(c, max).1.open
  {}

  /** Only the last frame of a connection may be the end event. */
  ghost predicate EndsAtMostOnce(fs: seq<Frame>) {
    forall i :: 0 <= i < |fs| - 1 ==> !fs[i].StreamEnd?
  }

  /** The reader of a connection recovers exactly the frames sent, in order, each in one
      read, whatever its buffer sizes; after the last complete frame a frame cut short, or
      the end event, yields only errors. `cut` is what was sent of one more frame. */
  lemma {:induction false} IqConnection(fs: seq<Frame>, next: Frame, cut: seq<byte>, maxes: seq<nat>)
    requires IqFrames(fs) && EndsAtMostOnce(fs) && AllEmittable(fs)
    requires Emittable(next) && !next.Fft? && cut <= Encode(next) && |cut| < |Encode(next)|
    ensures forall i :: 0 <= i < |maxes| ==>
              IqReads(Conn(true, EncodeAll(fs) + cut), maxes)[i] ==
              if i < |fs| then IqView(fs[i], maxes[i]) else ReadError
    decreases |fs|
  {
    hide ReadIq, Encode, IqView;
    var c := Conn(true, EncodeAll(fs) + cut);
    if maxes == [] {
    } else if fs == [] {
      ReadIqTruncated(next, cut, maxes[0]);
      assert EncodeAll(fs) + cut == cut;
      ClosedStaysClosed(CLOSED, maxes[1..]);
    } else {
      var rest := EncodeAll(fs[1..]) + cut;
      assert EncodeAll(fs) + cut == Encode(fs[0]) + rest;
      ReadIqFrame(fs[0], rest, maxes[0]);
      if fs[0].StreamEnd? {
        ClosedStaysClosed(CLOSED, maxes[1..]);
      } else {
        IqConnection(fs[1..], next, cut, maxes[1..]);
      }
    }
  }

  lemma {:induction false} FftConnection(fs: seq<Frame>, next: Frame, cut: seq<byte>, maxes: seq<nat>)
    requires FftFrames(fs) && EndsAtMostOnce(fs) && AllEmittable(fs)
    requires Emittable(next) && !next.Iq? && cut <= Encode(next) && |cut| < |Encode(next)|
    ensures forall i :: 0 <= i < |maxes| ==>
              FftReads(Conn(true, EncodeAll(fs) + cut), maxes)[i] ==
              if i < |fs| then FftView(fs[i], maxes[i]) else ReadError
    decreases |fs|
  {
    hide ReadFft, Encode, FftView;
    if maxes == [] {
    } else if fs == [] {
      ReadFftTruncated(next, cut, maxes[0]);
      assert EncodeAll(fs) + cut == cut;
      ClosedStaysClosed(CLOSED, maxes[1..]);
    } else {
      var rest := EncodeAll(fs[1..]) + cut;
      assert EncodeAll(fs) + cut == Encode(fs[0]) + rest;
      ReadFftFrame(fs[0], rest, maxes[0]);
      if fs[0].StreamEnd? {
        ClosedStaysClosed(CLOSED, maxes[1..]);
      } else {
        FftConnection(fs[1..], next, cut, maxes[1..]);
      }
    }
  }
}
