/** src/rtl_stream_proto.c: the payload encoders, writing into the caller's buffer. */
module Payload {
  import opened Words
  import opened Wire

  /** rtlsdr_stream_encode_iq_payload: refused calls write nothing; an accepted call writes
      the samples, most significant byte first, and nothing past them. */
  method EncodeIqPayload(dst: array?<byte>, capacity: nat, samples: array?<int16>, count: nat) returns (ok: bool)
    requires (dst != null ==> capacity <= dst.Length) && (samples != null ==> count <= samples.Length)
    modifies dst
    ensures ok == (count <= MAX_IQ_COMPONENTS && count % 2 == 0 && 2 * count <= capacity
                   && (count > 0 ==> dst != null && samples != null))
    ensures !ok && dst != null ==> dst[..] == old(dst[..])
    ensures ok && count == 0 && dst != null ==> dst[..] == old(dst[..])
    ensures ok && count > 0 ==> dst[..] == IqBytes(samples[..count]) + old(dst[2 * count..])
  {
    if count > MAX_IQ_COMPONENTS || count % 2 == 1 || capacity < 2 * count || (dst == null && count > 0)
        || (samples == null && count > 0) {
      return false;
    }
    for i := 0 to count
      invariant dst != null ==> i <= dst.Length / 2
      invariant i > 0 ==> dst != null && samples != null && dst[..] == IqBytes(samples[..i]) + old(dst[2 * i..])
      invariant i == 0 && dst != null ==> dst[..] == old(dst[..])
    {
      var sample: int := samples[i];
      var value := if sample < 0 then sample + 0x1_0000 else sample;
      assert dst[..] == IqBytes(samples[..i]) + old(dst[2 * i..]);
      Overwrite(dst, 2 * i, [value / 256, value % 256], IqBytes(samples[..i]), old(dst[2 * i..]));
      assert samples[..i + 1][..i] == samples[..i];
      assert old(dst[2 * i..])[2..] == old(dst[2 * (i + 1)..]);
    }
    return true;
  }

  /** rtlsdr_stream_encode_fft_payload, on the bit patterns of the powers. */
  method EncodeFftPayload(dst: array?<byte>, capacity: nat, power: array?<u32>, count: nat) returns (ok: bool)
    requires (dst != null ==> capacity <= dst.Length) && (power != null ==> count <= power.Length)
    modifies dst
    ensures ok == (dst != null && power != null && 2 <= count <= MAX_FFT_BINS && 4 * count <= capacity)
    ensures !ok && dst != null ==> dst[..] == old(dst[..])
    ensures ok ==> dst[..] == FftBytes(power[..count]) + old(dst[4 * count..])
  {
    hide Put32, FftBytes;
    if dst == null || power == null || count < 2 || count > MAX_FFT_BINS || capacity < 4 * count {
      return false;
    }
    FftBytesNone();
    assert power[..0] == [] && [] + dst[..] == dst[..];
    for i := 0 to count
      invariant dst[..] == FftBytes(power[..i]) + old(dst[4 * i..])
    {
      FftBytesNext(power[..], i);
      Overwrite(dst, 4 * i, Put32(power[i]), FftBytes(power[..i]), old(dst[4 * i..]));
      assert old(dst[4 * i..])[4..] == old(dst[4 * (i + 1)..]);
    }
    return true;
  }

  lemma FftBytesNone()
    ensures FftBytes([]) == []
  {}

  lemma FftBytesNext(power: seq<u32>, i: nat)
    requires i < |power|
    ensures FftBytes(power[..i + 1]) == FftBytes(power[..i]) + Put32(power[i])
  {
    hide Put32;
    assert power[..i + 1][..i] == power[..i];
  }

  /** Bytes into the buffer at a position, between what is done and what is left. */
  method Overwrite(dst: array<byte>, at: nat, bytes: seq<byte>, ghost done: seq<byte>, ghost left: seq<byte>)
    requires |done| == at && |bytes| <= |left| && dst[..] == done + left
    modifies dst
    ensures dst[..] == done + bytes + left[|bytes|..]
  {
    for k := 0 to |bytes|
      invariant dst[..] == done + bytes[..k] + left[k..]
    {
      ghost var was := dst[..];
      dst[at + k] := bytes[k];
      assert dst[..] == was[at + k := bytes[k]];
    }
  }
}
