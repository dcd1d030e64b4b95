/** rtlsdr_stream_sendv (src/rtl_stream_server.c): one or two buffers gathered onto a socket
    that takes any part of them at a time. */
module Send {
  import opened Sequences
  import opened Words

  datatype Sent = Accepted(n: nat) | Interrupted | Dead

  /** What is left of one buffer: len bytes from off on. */
  datatype Vec = Vec(off: nat, len: nat)

  /** The bytes still to go from vector `first` on. */
  ghost function Left(iov: seq<seq<byte>>, pending: seq<Vec>, first: nat): seq<byte>
    requires Covers(iov, pending)
    decreases |pending| - first
  {
    if first >= |pending| then [] else iov[first][pending[first].off..] + Left(iov, pending, first + 1)
  }

  ghost predicate Covers(iov: seq<seq<byte>>, pending: seq<Vec>) {
    |pending| == |iov| && forall i :: 0 <= i < |pending| ==> pending[i].off + pending[i].len == |iov[i]|
  }

  lemma {:induction false} LeftInitially(iov: seq<seq<byte>>, pending: seq<Vec>, first: nat)
    requires Covers(iov, pending) && first <= |iov|
    requires forall i :: first <= i < |pending| ==> pending[i].off == 0
    ensures Left(iov, pending, first) == Flatten(iov[first..])
    decreases |iov| - first
  {
    if first < |iov| {
      LeftInitially(iov, pending, first + 1);
      FlattenCons(iov[first], iov[first + 1..]);
      assert [iov[first]] + iov[first + 1..] == iov[first..];
    }
  }

  lemma {:induction false} LeftFrame(iov: seq<seq<byte>>, p: seq<Vec>, q: seq<Vec>, first: nat)
    requires Covers(iov, p) && Covers(iov, q)
    requires forall i :: first <= i < |p| ==> p[i] == q[i]
    ensures Left(iov, p, first) == Left(iov, q, first)
    decreases |p| - first
  {
    if first < |p| {
      LeftFrame(iov, p, q, first + 1);
    }
  }

  class Socket {
    var wire: seq<byte>     // everything the kernel has taken
    var rounds: nat         // how often the socket can still become ready before the deadline

    /** wait_socket: time passes; the wait may also fail for any other reason. */
    method Wait() returns (ok: bool)
      modifies this`rounds
      ensures ok ==> rounds < old(rounds)
    {
      ok := *;
      if rounds == 0 {
        return false;
      }
      rounds := rounds - 1;
    }

    /** sendmsg: any prefix, an interruption, or an error. */
    method SendMsg(data: seq<byte>) returns (r: Sent)
      modifies this`wire
      ensures r.Accepted? ==> r.n <= |data| && wire == old(wire) + data[..r.n]
      ensures !r.Accepted? ==> wire == old(wire)
    {
      if * {
        var n: nat :| n <= |data|;
        wire := wire + data[..n];
        return Accepted(n);
      } else if * {
        return Interrupted;
      }
      return Dead;
    }

    /** Success means every byte of every buffer went out, in order; a failure leaves a proper
        prefix of them on the wire; a call with bad arguments sends nothing. */
    method SendV(iov: array?<seq<byte>>, count: int) returns (ok: bool)
      requires iov != null ==> count <= iov.Length
      modifies this
      ensures iov == null || count < 1 || count > 2 ==> !ok && wire == old(wire)
      ensures iov != null && 1 <= count <= 2 ==>
                && (ok <==> wire == old(wire) + Flatten(iov[..count]))
                && old(wire) <= wire <= old(wire) + Flatten(iov[..count])
    {
      hide Left, Flatten;
      if iov == null || count < 1 || count > 2 {
        return false;
      }
      var all := iov[..count];
      var pending := new Vec[count](i requires 0 <= i < count reads iov => Vec(0, |iov[i]|));
      LeftInitially(all, pending[..], 0);
      assert all[0..] == all;
      var first := 0;
      while first < count
        invariant 0 <= first <= count && iov[..count] == all && Covers(all, pending[..])
        invariant old(wire) <= wire && wire + Left(all, pending[..], first) == old(wire) + Flatten(all)
        decreases rounds, count - first
      {
        first := SkipEmpty(all, pending, first);
        if first == count {
          break;
        }
        MoreLeft(all, pending[..], first);
        var ready := Wait();
        if !ready {
          return false;
        }
        var data := Gather(all, pending, first);
        var sent := SendMsg(data);
        match sent
        case Dead => return false;
        case Interrupted =>
        case Accepted(n) =>
          if n == 0 {
            return false;
          }
          first := Consume(all, pending, first, n);
      }
      Done(all, pending[..], first);
      return true;
    }
  }

  lemma MoreLeft(iov: seq<seq<byte>>, pending: seq<Vec>, first: nat)
    requires Covers(iov, pending) && first < |pending| && pending[first].len > 0
    ensures Left(iov, pending, first) != []
  {
    assert |iov[first][pending[first].off..]| == pending[first].len;
  }

  lemma Done(iov: seq<seq<byte>>, pending: seq<Vec>, first: nat)
    requires Covers(iov, pending) && first == |pending|
    ensures Left(iov, pending, first) == []
  {}

  /** The inner loop that steps over empty vectors. */
  method SkipEmpty(iov: seq<seq<byte>>, pending: array<Vec>, from: nat) returns (first: nat)
    requires Covers(iov, pending[..]) && from <= pending.Length
    ensures from <= first <= pending.Length && (first < pending.Length ==> pending[first].len > 0)
    ensures Left(iov, pending[..], first) == Left(iov, pending[..], from)
  {
    first := from;
    while first < pending.Length && pending[first].len == 0
      invariant from <= first <= pending.Length
      invariant Left(iov, pending[..], first) == Left(iov, pending[..], from)
    {
      assert iov[first][pending[first].off..] == [];
      first := first + 1;
    }
  }

  /** What the kernel sees behind msg_iov. */
  method Gather(iov: seq<seq<byte>>, pending: array<Vec>, first: nat) returns (data: seq<byte>)
    requires Covers(iov, pending[..]) && first <= pending.Length
    ensures data == Left(iov, pending[..], first)
  {
    data := [];
    var i := pending.Length;
    while i > first
      invariant first <= i <= pending.Length && data == Left(iov, pending[..], i)
    {
      i := i - 1;
      data := iov[i][pending[i].off..] + data;
    }
  }

  /** Advancing past n sent bytes drops exactly those from what is left. */
  method Consume(iov: seq<seq<byte>>, pending: array<Vec>, from: nat, sent: nat) returns (first: nat)
    requires Covers(iov, pending[..]) && from <= pending.Length && sent <= |Left(iov, pending[..], from)|
    modifies pending
    ensures Covers(iov, pending[..]) && from <= first <= pending.Length
    ensures Left(iov, pending[..], first) == old(Left(iov, pending[..], from))[sent..]
  {
    first := from;
    var n: nat := sent;
    ghost var before := pending[..];
    while first < pending.Length && n >= pending[first].len
      invariant from <= first <= pending.Length && pending[..] == before
      invariant n <= |Left(iov, before, first)| && Left(iov, before, first)[n..] == Left(iov, before, from)[sent..]
    {
      n := n - pending[first].len;
      first := first + 1;
    }
    if first < pending.Length {
      pending[first] := Vec(pending[first].off + n, pending[first].len - n);
      LeftFrame(iov, before, pending[..], first + 1);
      assert iov[first][before[first].off..][n..] == iov[first][pending[first].off..];
    }
  }
}
