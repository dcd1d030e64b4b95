/** The RTLSTREAM/2 format as documented (docs/rtl_stream.md): where each field of a request or a
    frame lies, as a big-endian number or as the letters of a magic word. */
module WireFormat {
  import opened Words
  import opened Wire

  /** The number whose base-256 digits are s, most significant first. */
  function Number(s: seq<byte>): nat {
    if s == [] then 0 else 256 * Number(s[..|s| - 1]) + s[|s| - 1]
  }

  /** Bytes at up to at + len of s are the number v. */
  ghost predicate Field(s: seq<byte>, at: nat, len: nat, v: int) {
    at + len <= |s| && Number(s[at..at + len]) == v
  }

  ghost predicate Letters(s: seq<byte>, word: string) {
    |word| <= |s| && forall i :: 0 <= i < |word| ==> s[i] == word[i] as int
  }

  function Factor(n: nat): nat { if n == 0 then 1 else 256 * Factor(n - 1) }

  lemma {:induction false} NumberAppend(a: seq<byte>, b: seq<byte>)
    ensures Number(a + b) == Number(a) * Factor(|b|) + Number(b)
  {
    if b == [] {
      assert a + b == a;
    } else {
      var n := |b| - 1;
      NumberAppend(a, b[..n]);
      assert (a + b)[..|a + b| - 1] == a + b[..n] && (a + b)[|a + b| - 1] == b[n];
      Shifted(Number(a), Factor(n), Number(b[..n]));
    }
  }

  lemma Shifted(x: nat, f: nat, y: nat)
    ensures 256 * (x * f + y) == x * (256 * f) + 256 * y
  {}

  lemma Number4(a: byte, b: byte, c: byte, d: byte)
    ensures Number([a, b, c, d]) == 256 * (256 * (256 * a + b) + c) + d
  {
    assert [a, b, c, d][..3] == [a, b, c] && [a, b, c][..2] == [a, b] && [a, b][..1] == [a] && [a][..0] == [];
    assert Number([a]) == a;
    assert Number([a, b]) == 256 * Number([a]) + b;
    assert Number([a, b, c]) == 256 * Number([a, b]) + c;
  }

  lemma Put32IsNumber(v: u32)
    ensures Number(Put32(v)) == v
  {
    Number4(v / 0x100_0000, v / 0x1_0000 % 256, v / 256 % 256, v % 256);
    Digits(v);
  }

  lemma Put64IsNumber(v: u64)
    ensures Number(Put64(v)) == v
  {
    hide Put32;
    Put32IsNumber(v / U32);
    Put32IsNumber(v % U32);
    NumberAppend(Put32(v / U32), Put32(v % U32));
    assert Factor(4) == U32;
  }

  /** The magic words spell their names. */
  lemma Magics()
    ensures Letters(Put32(MAGIC_REQ), "RT2R") && Letters(Put32(MAGIC_IQ), "RT2I")
    ensures Letters(Put32(MAGIC_FFT), "RT2F") && Letters(Put32(MAGIC_EVT), "RT2E")
  {}

  lemma LettersFirst(a: seq<byte>, b: seq<byte>, word: string)
    requires Letters(a, word)
    ensures Letters(a + b, word)
  {}

  // ---- Frames ----

  /** The header of a data frame. */
  ghost predicate DataHeader(s: seq<byte>, word: string, freq: u64, rate: u64, n: u64, count: nat) {
    Letters(s, word) && Field(s, 4, 8, freq) && Field(s, 12, 8, rate) && Field(s, 20, 8, n) && Field(s, 28, 4, count)
  }

  lemma HeaderLayout(h: Header, word: string, payload: seq<byte>)
    requires Letters(Put32(h.magic), word)
    ensures DataHeader(EncodeHeader(h) + payload, word, h.freq, h.rate, h.seqNo, h.count)
  {
    hide Put32, Put64, Number, Letters;
    var s := EncodeHeader(h) + payload;
    assert s[4..12] == Put64(h.freq) && s[12..20] == Put64(h.rate) && s[20..28] == Put64(h.seqNo);
    assert s[28..32] == Put32(h.count);
    Put64IsNumber(h.freq);
    Put64IsNumber(h.rate);
    Put64IsNumber(h.seqNo);
    Put32IsNumber(h.count);
    var rest := Put64(h.freq) + Put64(h.rate) + Put64(h.seqNo) + Put32(h.count) + payload;
    assert s == Put32(h.magic) + rest;
    LettersFirst(Put32(h.magic), rest, word);
  }

  /** The two's complement of a sample. */
  function Unsigned(x: int16): nat { if x < 0 then x + 0x1_0000 else x }

  lemma {:induction false} SampleLayout(samples: seq<int16>, i: nat)
    requires i < |samples|
    ensures Field(IqBytes(samples), 2 * i, 2, Unsigned(samples[i]))
  {
    var n := |samples| - 1;
    if i < n {
      SampleLayout(samples[..n], i);
      assert IqBytes(samples)[2 * i..2 * i + 2] == IqBytes(samples[..n])[2 * i..2 * i + 2];
    } else {
      var v := Unsigned(samples[n]);
      assert IqBytes(samples)[2 * n..2 * n + 2] == [v / 256, v % 256];
      Number2(v / 256, v % 256);
    }
  }

  lemma Number2(a: byte, b: byte)
    ensures Number([a, b]) == 256 * a + b
  {
    assert [a, b][..1] == [a] && [a][..0] == [];
    assert Number([a]) == a;
  }

  lemma FieldAfter(head: seq<byte>, s: seq<byte>, at: nat, len: nat, v: int)
    requires Field(s, at, len, v)
    ensures Field(head + s, |head| + at, len, v)
  {
    assert (head + s)[|head| + at..|head| + at + len] == s[at..at + len];
  }

  /** An I/Q frame: header of 32 bytes, then the components, two bytes each. */
  lemma IqLayout(f: Frame)
    requires f.Iq? && Emittable(f)
    ensures var s := Encode(f);
            && |s| == 32 + 2 * |f.samples| && DataHeader(s, "RT2I", f.freq, f.rate, f.seqNo, |f.samples|)
            && forall i :: 0 <= i < |f.samples| ==> Field(s, 32 + 2 * i, 2, Unsigned(f.samples[i]))
  {
    hide Put32, Put64, Number, IqBytes, EncodeHeader, DataHeader, Letters, Field;
    Magics();
    var head := EncodeHeader(Header(MAGIC_IQ, f.freq, f.rate, f.seqNo, |f.samples|));
    HeaderLayout(Header(MAGIC_IQ, f.freq, f.rate, f.seqNo, |f.samples|), "RT2I", IqBytes(f.samples));
    forall i | 0 <= i < |f.samples| ensures Field(Encode(f), 32 + 2 * i, 2, Unsigned(f.samples[i])) {
      SampleLayout(f.samples, i);
      FieldAfter(head, IqBytes(f.samples), 2 * i, 2, Unsigned(f.samples[i]));
    }
  }

  /** An FFT frame: header of 32 bytes, then the patterns, four bytes each. */
  lemma FftLayout(f: Frame)
    requires f.Fft? && Emittable(f)
    ensures var s := Encode(f);
            && |s| == 32 + 4 * |f.bins| && DataHeader(s, "RT2F", f.freq, f.rate, f.seqNo, |f.bins|)
            && forall i :: 0 <= i < |f.bins| ==> Field(s, 32 + 4 * i, 4, f.bins[i])
  {
    hide Put32, Put64, Number, FftBytes, EncodeHeader, DataHeader, Letters;
    Magics();
    var head := EncodeHeader(Header(MAGIC_FFT, f.freq, f.rate, f.seqNo, |f.bins|));
    HeaderLayout(Header(MAGIC_FFT, f.freq, f.rate, f.seqNo, |f.bins|), "RT2F", FftBytes(f.bins));
    forall i | 0 <= i < |f.bins| ensures Field(Encode(f), 32 + 4 * i, 4, f.bins[i]) {
      FftBytesAt(f.bins, i);
      Put32IsNumber(f.bins[i]);
      FieldAfter(head, FftBytes(f.bins), 4 * i, 4, f.bins[i]);
    }
  }

  /** The events: 16 bytes with the new frequency, and 8 bytes. */
  lemma EventLayout(freq: u64)
    ensures var s := Encode(FreqChange(freq));
            |s| == 16 && Letters(s, "RT2E") && Field(s, 4, 4, 1) && Field(s, 8, 8, freq)
    ensures var s := Encode(StreamEnd); |s| == 8 && Letters(s, "RT2E") && Field(s, 4, 4, 2)
  {
    hide Put32, Put64, Number, Letters;
    Magics();
    Put32IsNumber(1);
    Put32IsNumber(2);
    Put64IsNumber(freq);
    var s, e := Encode(FreqChange(freq)), Encode(StreamEnd);
    assert s[4..8] == Put32(1) && s[8..16] == Put64(freq) && e[4..8] == Put32(2);
    LettersFirst(Put32(MAGIC_EVT), Put32(1) + Put64(freq), "RT2E");
    LettersFirst(Put32(MAGIC_EVT), Put32(2), "RT2E");
    assert s == Put32(MAGIC_EVT) + (Put32(1) + Put64(freq));
  }

  /** A request: 29 bytes. */
  lemma RequestLayout(r: Req)
    requires ValidReq(r)
    ensures var s := EncodeReq(r);
            && s.Some? && |s.value| == 29 && Letters(s.value, "RT2R")
            && Field(s.value, 4, 8, r.freq) && Field(s.value, 12, 8, r.rate) && Field(s.value, 20, 8, r.bandwidth)
            && s.value[28] == r.mode
  {
    hide Put32, Put64, Number, Letters;
    Magics();
    var s := EncodeReq(r).value;
    assert s[4..12] == Put64(r.freq) && s[12..20] == Put64(r.rate) && s[20..28] == Put64(r.bandwidth);
    Put64IsNumber(r.freq);
    Put64IsNumber(r.rate);
    Put64IsNumber(r.bandwidth);
    var rest := Put64(r.freq) + Put64(r.rate) + Put64(r.bandwidth) + [r.mode];
    assert s == Put32(r.magic) + rest;
    LettersFirst(Put32(r.magic), rest, "RT2R");
  }

  // ---- Nothing but a frame is read ----

  lemma HeaderExact(s: seq<byte>)
    requires |s| >= HDR_SIZE
    ensures EncodeHeader(DecodeHeader(s)) == s[..HDR_SIZE]
  {
    hide Put32, Put64, Get32, Get64;
    Put32Get32(s, 0);
    Put64Get64(s, 4);
    Put64Get64(s, 12);
    Put64Get64(s, 20);
    Put32Get32(s, 28);
    assert s[..32] == s[0..4] + s[4..12] + s[12..20] + s[20..28] + s[28..32];
  }

  lemma {:induction false} IqBytesExact(s: seq<byte>)
    requires |s| % 2 == 0
    ensures IqBytes(DecodeIq(s)) == s
    decreases |s|
  {
    if s != [] {
      var n, x := |s| - 2, DecodeIq(s);
      IqBytesExact(s[..n]);
      assert x[..|x| - 1] == DecodeIq(s[..n]);
      assert x[|x| - 1] == IqSample(s[n], s[n + 1]);
      SampleExact(s[n], s[n + 1]);
      assert s == s[..n] + [s[n], s[n + 1]];
    }
  }

  lemma SampleExact(hi: byte, lo: byte)
    ensures Unsigned(IqSample(hi, lo)) / 256 == hi && Unsigned(IqSample(hi, lo)) % 256 == lo
  {
    assert Unsigned(IqSample(hi, lo)) == hi * 256 + lo;
  }

  lemma {:induction false} FftBytesExact(s: seq<byte>)
    requires |s| % 4 == 0
    ensures FftBytes(DecodeFft(s)) == s
    decreases |s|
  {
    hide Put32, Get32;
    if s != [] {
      var n, x := |s| - 4, DecodeFft(s);
      FftBytesExact(s[..n]);
      forall i | 0 <= i < |x| - 1 ensures x[i] == DecodeFft(s[..n])[i] {
        SameWord(s, n, 4 * i);
      }
      assert x[..|x| - 1] == DecodeFft(s[..n]);
      Put32Get32(s, n);
      assert s == s[..n] + s[n..n + 4];
    }
  }

  lemma SameWord(s: seq<byte>, n: nat, at: nat)
    requires at + 4 <= n <= |s|
    ensures Get32(s, at) == Get32(s[..n], at)
  {}

  /** The stream begins with frame f. */
  ghost predicate Begins(s: seq<byte>, f: Frame, rest: seq<byte>) { Emittable(f) && s == Encode(f) + rest }

  lemma EventExact(s: seq<byte>) returns (f: Frame)
    requires ReadHeader(Conn(true, s), MAGIC_IQ).0.HeaderEvent? || ReadHeader(Conn(true, s), MAGIC_FFT).0.HeaderEvent?
    ensures (f.FreqChange? || f.StreamEnd?) && |Encode(f)| <= |s| && Begins(s, f, s[|Encode(f)|..])
  {
    hide Put32, Put64, Get32, Get64;
    Put32Get32(s, 0);
    Put32Get32(s, 4);
    if Get32(s, 4) == EVT_FREQ_CHANGE {
      Put64Get64(s, 8);
      f := FreqChange(Get64(s, 8));
      assert s == s[0..4] + s[4..8] + s[8..16] + s[16..];
    } else {
      f := StreamEnd;
      assert s == s[0..4] + s[4..8] + s[8..];
    }
  }

  lemma IqExact(s: seq<byte>, max: nat) returns (f: Frame)
    requires !ReadIq(Conn(true, s), max).0.ReadError?
    ensures !f.Fft? && Emittable(f) && |Encode(f)| <= |s| && Begins(s, f, s[|Encode(f)|..])
  {
    hide Get32, Get64, EncodeHeader, DecodeHeader, IqBytes, DecodeIq, Put32, Put64;
    if ReadHeader(Conn(true, s), MAGIC_IQ).0.HeaderEvent? {
      f := EventExact(s);
    } else {
      HeaderMagic(s);
      var h := DecodeHeader(s);
      var bytes := s[HDR_SIZE..][..2 * h.count];
      HeaderExact(s);
      IqBytesExact(bytes);
      f := Iq(h.freq, h.rate, h.seqNo, DecodeIq(bytes));
      assert s == s[..HDR_SIZE] + bytes + s[HDR_SIZE + 2 * h.count..];
    }
  }

  lemma HeaderMagic(s: seq<byte>)
    requires |s| >= HDR_SIZE
    ensures DecodeHeader(s).magic == Get32(s, 0)
  {}

  lemma FftExact(s: seq<byte>, max: nat) returns (f: Frame)
    requires !ReadFft(Conn(true, s), max).0.ReadError?
    ensures !f.Iq? && Emittable(f) && |Encode(f)| <= |s| && Begins(s, f, s[|Encode(f)|..])
  {
    hide Get32, Get64, EncodeHeader, DecodeHeader, FftBytes, DecodeFft, Put32, Put64;
    if ReadHeader(Conn(true, s), MAGIC_FFT).0.HeaderEvent? {
      f := EventExact(s);
    } else {
      HeaderMagic(s);
      var h := DecodeHeader(s);
      var bytes := s[HDR_SIZE..][..4 * h.count];
      HeaderExact(s);
      FftBytesExact(bytes);
      f := Fft(h.freq, h.rate, h.seqNo, DecodeFft(bytes));
      assert s == s[..HDR_SIZE] + bytes + s[HDR_SIZE + 4 * h.count..];
    }
  }

  /** The readers accept exactly the frames: a read succeeds if and only if the connection is open
      and its stream begins with a frame of its kind or an event, whatever the stream is. */
  lemma ReadsExactlyFrames(c: Conn, max: nat)
    ensures !ReadIq(c, max).0.ReadError? <==> c.open && exists f, rest :: Begins(c.stream, f, rest) && !f.Fft?
    ensures !ReadFft(c, max).0.ReadError? <==> c.open && exists f, rest :: Begins(c.stream, f, rest) && !f.Iq?
  {
    hide ReadIq, ReadFft, Encode;
    if !c.open {
      ClosedReads(c, max);
    } else {
      if !ReadIq(c, max).0.ReadError? {
        var f := IqExact(c.stream, max);
        assert Begins(c.stream, f, c.stream[|Encode(f)|..]);
      }
      if !ReadFft(c, max).0.ReadError? {
        var f := FftExact(c.stream, max);
        assert Begins(c.stream, f, c.stream[|Encode(f)|..]);
      }
      if f, rest :| Begins(c.stream, f, rest) && !f.Fft? { ReadIqFrame(f, rest, max); ViewNoError(f, max); }
      if f, rest :| Begins(c.stream, f, rest) && !f.Iq? { ReadFftFrame(f, rest, max); ViewNoError(f, max); }
    }
  }

  lemma ClosedReads(c: Conn, max: nat)
    requires !c.open
    ensures ReadIq(c, max).0.ReadError? && ReadFft(c, max).0.ReadError?
  {}

  lemma ViewNoError(f: Frame, max: nat)
    requires Emittable(f)
    ensures (!f.Fft? ==> !IqView(f, max).ReadError?) && (!f.Iq? ==> !FftView(f, max).ReadError?)
  {}
}
