/** stream_client/c/client.c: the reading client on a socket that may deliver the stream in
    pieces of any size. */
module Client {
  import opened Words
  import opened Wire

  datatype Code = OK | EVENT | ERROR | ERROR_CAPACITY

  class Client {
    var open: bool
    var pending: seq<byte>        // what the peer still delivers before the connection ends
    var event: Frame

    constructor (stream: seq<byte>)
      ensures open && pending == stream
    {
      open, pending, event := true, stream, FreqChange(0);
    }

    /** recv: some non-empty prefix of what is pending, or nothing at the end. */
    method Recv(left: nat) returns (chunk: seq<byte>)
      requires left > 0
      modifies this`pending
      ensures chunk + pending == old(pending) && |chunk| <= left
      ensures chunk == [] <==> old(pending) == []
    {
      if pending == [] {
        return [];
      }
      var n: nat :| 1 <= n <= left && n <= |pending|;
      chunk := pending[..n];
      pending := pending[n..];
      assert chunk + pending == old(pending);
    }

    /** recv_all: however the bytes arrive, all or an error. With the first `at` bytes of s
        already in the buffer and the rest pending, the buffer then holds the first at + len. */
    method RecvAll(buf: array<byte>, at: nat, len: nat, ghost s: seq<byte>) returns (ok: bool)
      requires at + len <= buf.Length && at <= |s| && pending == s[at..] && Agree(buf[..], s, at)
      modifies this`pending, buf
      ensures ok == (len == 0 || (open && at + len <= |s|))
      ensures ok ==> pending == s[at + len..] && Agree(buf[..], s, at + len)
    {
      var got := 0;
      while got < len
        invariant 0 <= got <= len && at + got <= |s| && (got > 0 ==> open)
        invariant pending == s[at + got..] && Agree(buf[..], s, at + got)
      {
        if !open {
          return false;
        }
        var chunk := Recv(len - got);
        if chunk == [] {
          return false;
        }
        Split(chunk, pending, s, at + got);
        forall i | 0 <= i < |chunk| { buf[at + got + i] := chunk[i]; }
        got := got + |chunk|;
      }
      return true;
    }

    method Fail() returns (rc: Code)
      modifies this`open
      ensures !open && rc == ERROR
    {
      open := false;
      return ERROR;
    }

    /** read_header refines the header grammar of the wire format. */
    method ReadHeader(buf: array<byte>, magic: u32) returns (rc: Code)
      requires buf.Length == HDR_SIZE
      modifies this, buf
      ensures var (r, c) := Wire.ReadHeader(Conn(old(open), old(pending)), magic);
              && open == c.open && (open ==> pending == c.stream)
              && rc == (match r case HeaderOk(_) => OK case HeaderEvent(_) => EVENT case HeaderError => ERROR)
              && (r.HeaderOk? ==> DecodeHeader(buf[..]) == r.hdr)
              && (r.HeaderEvent? ==> event == r.event)
      ensures rc == OK ==> open
    {
      hide Get32, Get64, DecodeHeader, Agree;
      var s := pending;
      var ok := RecvAll(buf, 0, 4, s);
      if !ok {
        rc := Fail();
        return;
      }
      SameWord(buf[..], s, 0);
      if Get32(buf[..], 0) == MAGIC_EVT {
        ok := RecvAll(buf, 4, 4, s);
        if !ok {
          rc := Fail();
          return;
        }
        SameWord(buf[..], s, 4);
        var kind := Get32(buf[..], 4);
        if kind != EVT_FREQ_CHANGE && kind != EVT_STREAM_END {
          rc := Fail();
          return;
        }
        if kind == EVT_FREQ_CHANGE {
          event := FreqChange(0);
          ok := RecvAll(buf, 8, 8, s);
          if !ok {
            rc := Fail();
            return;
          }
          SameLong(buf[..], s, 8);
          event := FreqChange(Get64(buf[..], 8));
        } else {
          event := StreamEnd;
          rc := Fail();
        }
        return EVENT;
      }
      if Get32(buf[..], 0) != magic {
        rc := Fail();
        return;
      }
      ok := RecvAll(buf, 4, 28, s);
      if !ok {
        rc := Fail();
        return;
      }
      SameHeader(buf[..], s);
      return OK;
    }

    /** drain: exactly `bytes` are skipped, or the connection ends in an error. */
    method Drain(bytes: nat) returns (rc: Code)
      requires open
      modifies this`open, this`pending
      ensures rc == if bytes <= |old(pending)| then ERROR_CAPACITY else ERROR
      ensures rc == ERROR_CAPACITY ==> open && pending == old(pending)[bytes..]
      ensures rc == ERROR ==> !open
    {
      var buf := new byte[1024];
      var left := bytes;
      while left > 0
        invariant open && 0 <= left <= bytes && bytes - left <= |old(pending)|
        invariant pending == old(pending)[bytes - left..]
      {
        var n := if left < 1024 then left else 1024;
        var ok := RecvAll(buf, 0, n, pending);
        if !ok {
          rc := Fail();
          return;
        }
        left := left - n;
      }
      return ERROR_CAPACITY;
    }

    /** rtlsdr_stream_read_iq refines the pure reader, for every way the bytes can arrive;
        a call with bad arguments changes nothing. */
    method ReadIq(out: array?<int16>, max: int) returns (rc: Code, hdr: Option<Header>)
      requires out != null ==> max <= out.Length
      modifies this, out
      ensures BadArgs(out, max) ==> rc == ERROR && unchanged(this) && (out != null ==> unchanged(out))
      ensures !BadArgs(out, max) ==>
                var (r, c) := Wire.ReadIq(Conn(old(open), old(pending)), max);
                open == c.open && (open ==> pending == c.stream) && Reports(rc, hdr, event, Contents(out), r)
    {
      hide Wire.ReadHeader, DecodeHeader, DecodeIq;
      hdr := None;
      if max < 0 || (out == null && max > 0) {
        return ERROR, None;
      }
      var buf := new byte[HDR_SIZE];
      rc := ReadHeader(buf, MAGIC_IQ);
      if rc != OK {
        return;
      }
      var h := DecodeHeader(buf[..]);
      hdr := Some(h);
      if h.count > MAX_IQ_COMPONENTS || h.count % 2 == 1 {
        rc := Fail();
        return;
      }
      if h.count > max {
        rc := Drain(2 * h.count);
        return;
      }
      rc := ReadIqPayload(out, h.count);
    }

    /** The payload, and the loop that assembles each sample from its two bytes. */
    method ReadIqPayload(out: array?<int16>, count: nat) returns (rc: Code)
      requires open && (count > 0 ==> out != null && count <= out.Length)
      modifies this`open, this`pending, out
      ensures rc == if 2 * count <= |old(pending)| then OK else ERROR
      ensures rc == OK ==> open && pending == old(pending)[2 * count..]
      ensures rc == OK ==> DecodeIq(old(pending)[..2 * count]) <= Contents(out)
      ensures rc == ERROR ==> !open
    {
      var wire := new byte[2 * count];
      ghost var s := pending;
      var ok := RecvAll(wire, 0, 2 * count, s);
      if !ok {
        rc := Fail();
        return;
      }
      assert wire[..] == s[..2 * count];
      ghost var want := DecodeIq(s[..2 * count]);
      for i := 0 to count
        invariant wire[..] == s[..2 * count] && open && pending == s[2 * count..]
        invariant i > 0 ==> out != null && out[..i] == want[..i]
      {
        out[i] := IqSample(wire[2 * i], wire[2 * i + 1]);
        assert out[i] == want[i];
      }
      assert want[..count] == want;
      return OK;
    }

    /** rtlsdr_stream_read_fft refines the pure reader, for every way the bytes can arrive;
        a call with bad arguments changes nothing. */
    method ReadFft(out: array?<u32>, max: int) returns (rc: Code, hdr: Option<Header>)
      requires out != null ==> max <= out.Length
      modifies this, out
      ensures BadArgs(out, max) ==> rc == ERROR && unchanged(this) && (out != null ==> unchanged(out))
      ensures !BadArgs(out, max) ==>
                var (r, c) := Wire.ReadFft(Conn(old(open), old(pending)), max);
                open == c.open && (open ==> pending == c.stream) && Reports(rc, hdr, event, Contents(out), r)
    {
      hide Wire.ReadHeader, DecodeHeader, DecodeFft;
      hdr := None;
      if max < 0 || (out == null && max > 0) {
        return ERROR, None;
      }
      var buf := new byte[HDR_SIZE];
      rc := ReadHeader(buf, MAGIC_FFT);
      if rc != OK {
        return;
      }
      var h := DecodeHeader(buf[..]);
      hdr := Some(h);
      if h.count < 2 || h.count > MAX_FFT_BINS {
        rc := Fail();
        return;
      }
      if h.count > max {
        rc := Drain(4 * h.count);
        return;
      }
      rc := ReadFftPayload(out, h.count);
    }

    /** The payload, and the loop that assembles each power from its four bytes. */
    method ReadFftPayload(out: array?<u32>, count: nat) returns (rc: Code)
      requires open && (count > 0 ==> out != null && count <= out.Length)
      modifies this`open, this`pending, out
      ensures rc == if 4 * count <= |old(pending)| then OK else ERROR
      ensures rc == OK ==> open && pending == old(pending)[4 * count..]
      ensures rc == OK ==> DecodeFft(old(pending)[..4 * count]) <= Contents(out)
      ensures rc == ERROR ==> !open
    {
      var wire := new byte[4 * count];
      ghost var s := pending;
      var ok := RecvAll(wire, 0, 4 * count, s);
      if !ok {
        rc := Fail();
        return;
      }
      assert wire[..] == s[..4 * count];
      ghost var want := DecodeFft(s[..4 * count]);
      for i := 0 to count
        invariant wire[..] == s[..4 * count] && open && pending == s[4 * count..]
        invariant i > 0 ==> out != null && out[..i] == want[..i]
      {
        out[i] := Get32(wire[..], 4 * i);
        assert out[i] == want[i];
      }
      assert want[..count] == want;
      return OK;
    }
  }

  ghost predicate BadArgs<T>(out: array?<T>, max: int) {
    max < 0 || (out == null && max > 0)
  }

  ghost function Contents<T>(out: array?<T>): seq<T>
    reads out
  {
    if out == null then [] else out[..]
  }

  /** The return code, header, event and buffer tell the caller exactly what was read. */
  ghost predicate Reports<T>(rc: Code, hdr: Option<Header>, event: Frame, out: seq<T>, r: Read<T>) {
    match r
    case ReadOk(h, payload) => rc == OK && hdr == Some(h) && payload <= out
    case ReadEvent(e) => rc == EVENT && event == e
    case ReadCapacity(h) => rc == ERROR_CAPACITY && hdr == Some(h)
    case ReadError => rc == ERROR
  }

  /** The first n bytes of a are those of s. */
  ghost predicate Agree(a: seq<byte>, s: seq<byte>, n: nat) {
    n <= |a| && n <= |s| && forall i :: 0 <= i < n ==> a[i] == s[i]
  }

  lemma Split(chunk: seq<byte>, rest: seq<byte>, s: seq<byte>, at: nat)
    requires at <= |s| && chunk + rest == s[at..]
    ensures at + |chunk| <= |s| && rest == s[at + |chunk|..] && forall i :: 0 <= i < |chunk| ==> chunk[i] == s[at + i]
  {
    assert rest == (chunk + rest)[|chunk|..];
    assert forall i :: 0 <= i < |chunk| ==> chunk[i] == (chunk + rest)[i];
  }

  lemma SameWord(a: seq<byte>, s: seq<byte>, at: nat)
    requires Agree(a, s, at + 4)
    ensures Get32(a, at) == Get32(s, at)
  {}

  lemma SameLong(a: seq<byte>, s: seq<byte>, at: nat)
    requires Agree(a, s, at + 8)
    ensures Get64(a, at) == Get64(s, at)
  {}

  lemma SameHeader(a: seq<byte>, s: seq<byte>)
    requires Agree(a, s, HDR_SIZE)
    ensures DecodeHeader(a) == DecodeHeader(s)
  {}
}
