/** rtlsdr_server_process_fft and fft_gap (src/rtl_stream_server.c): the FFT worker's state,
    updated in place, tracks the specification for every way the capture is cut into reads. */
module Analyzer {
  import opened Words
  import opened Spectra

  /** A 64-bit counter after n increments. */
  function Wrapped(n: nat): u64 { n % U64 }

  lemma WrappedNext(n: nat)
    ensures Wrapped(n + 1) == (Wrapped(n) + 1) % U64
  {}

  class Analyzer<F(0)> {
    const cfg: Config<F>
    const buf: array<Cx<F>>
    const acc: array<F>
    const power: array<F>
    var nsamples: nat
    var count: nat
    var seqNo: u64
    var ready: bool
    var generation: u64
    ghost var hist: seq<byte>            // the capture since the last gap
    ghost var hops: nat
    ghost var published: seq<seq<F>>     // the spectra of this stretch, in order
    ghost var earlier: nat               // how many there were before it
    ghost var wins: nat -> nat           // how often each hop was windowed
    ghost var tries: nat                 // and how often the hop under way

    ghost function Position(): Mark<F>
      reads this, acc
    {
      Mark(nsamples, hops, count, published, acc[..])
    }

    ghost predicate Shaped()
      reads this
    {
      && acc != power && buf as object != acc && buf as object != power
      && buf.Length == acc.Length == power.Length == cfg.bins == |cfg.window|
    }

    /** Everything but the sample buffer is where the history says. */
    ghost predicate Tracking()
      reads this, acc, power
    {
      && Shaped()
      && (Accepted(cfg) ==>
            && Tracks(cfg, wins, hist, Position()) && count < cfg.accum
            && ready == (published != []) && seqNo == Wrapped(earlier + |published|)
            && (ready ==> power[..] == published[|published| - 1]))
    }

    /** Between calls: a hop under way, or, after a failure, a whole hop that was windowed
        and not transformed. */
    ghost predicate Valid()
      reads this, buf, acc, power
    {
      Tracking() && (Accepted(cfg) ==> nsamples <= cfg.step && Collecting() && (tries > 0 <==> Stuck()))
    }

    /** The last call failed. */
    ghost predicate Stuck()
      reads this
    {
      nsamples == cfg.step
    }

    ghost predicate Collecting()
      reads this, buf
    {
      Collected(cfg, hist, HopStart(cfg.step, hops), nsamples, tries, buf[..]) && (tries > 0 ==> nsamples == cfg.step)
    }

    /** The fields of rtlsdr_server_init, for any hop geometry. */
    constructor (cfg: Config<F>)
      requires |cfg.window| == cfg.bins
      ensures Valid() && this.cfg == cfg && hist == [] && earlier == 0 && generation == 1 && !ready
      ensures fresh(buf) && fresh(acc) && fresh(power)
    {
      this.cfg := cfg;
      buf, acc := new Cx<F>[cfg.bins], new F[cfg.bins](_ => cfg.zero);
      power := new F[cfg.bins](_ => cfg.zero);
      nsamples, count, seqNo, ready, generation := 0, 0, 0, false, 1;
      hist, hops, published, earlier, wins, tries := [], 0, [], 0, ONCE, 0;
    }

    /** Every accepted call advances the worker to the longer history; an ill-formed call
        changes nothing; a failed transform stops it with the failed hop collected but
        neither accumulated nor published. Every hop is windowed once, except that a call
        after a failure starts by windowing and transforming the failed hop again. */
    method Process(input: seq<byte>) returns (ok: bool, ghost used: nat)
      requires Valid()
      modifies this, buf, acc, power
      ensures Valid() && used <= |input| && hist + input[used..] == old(hist) + input
      ensures generation == old(generation) && earlier == old(earlier) && old(published) <= published
      ensures ok ==> used == |input|
      ensures |input| % 2 == 1 || !Accepted(cfg) ==>
                !ok && used == 0 && unchanged(this) && unchanged(buf) && unchanged(acc) && unchanged(power)
      ensures |input| % 2 == 0 && Accepted(cfg) ==> (input != [] ==> ok == !Stuck()) && (input == [] ==> ok)
      ensures Accepted(cfg) ==> Rewound(old(wins), old(hops), old(tries), wins, hops)
      ensures !ok && |input| % 2 == 0 && Accepted(cfg) ==> tries == (if hops == old(hops) then old(tries) else 0) + 1
    {
      hide Tracks, Collected, HopStart, Wrapped;
      used := 0;
      if |input| % 2 == 1 || !Accepted(cfg) {
        return false, 0;
      }
      var pos := 0;
      while pos < |input|
        invariant 0 <= pos <= |input| && pos % 2 == 0 && Valid() && hist + input[pos..] == old(hist) + input
        invariant generation == old(generation) && earlier == old(earlier) && old(published) <= published
        invariant Rewound(old(wins), old(hops), old(tries), wins, hops)
        invariant tries == if hops == old(hops) then old(tries) else 0
        invariant pos > 0 ==> !Stuck()
        decreases |input| - pos, nsamples == cfg.step
      {
        ok, pos := Advance(input, pos);
        used := pos;
        if !ok {
          return;
        }
      }
      return true, |input|;
    }

    /** One turn of the loop: as many samples as the current part of the hop still takes. */
    method Advance(input: seq<byte>, pos: nat) returns (ok: bool, next: nat)
      requires Valid() && Accepted(cfg) && pos < |input| && pos % 2 == |input| % 2 == 0
      modifies this, buf, acc, power
      ensures Valid() && pos <= next <= |input| && next % 2 == 0 && (old(Stuck()) <==> next == pos)
      ensures hist + input[next..] == old(hist) + input[pos..]
      ensures generation == old(generation) && earlier == old(earlier) && old(published) <= published
      ensures ok == !Stuck()
      ensures Rewound(old(wins), old(hops), old(tries), wins, hops) && old(hops) <= hops <= old(hops) + 1
      ensures tries == (if hops == old(hops) then old(tries) else 0) + (if ok then 0 else 1)
      ensures ok && hops == old(hops) ==> tries == 0
    {
      hide Tracks, Collected, HopStart, Wrapped;
      var remaining := cfg.step - nsamples;
      var n := (|input| - pos) / 2;
      if nsamples < cfg.bins {
        remaining := cfg.bins - nsamples;
      }
      if n > remaining {
        n := remaining;
      }
      Collect(input, pos, n);
      next, ok := pos + 2 * n, true;
      assert input[pos..] == input[pos..next] + input[next..];
      if nsamples == cfg.step {
        ok := FinishHop();
      }
    }

    /** n more samples: into the buffer while it fills, past it afterwards. */
    method Collect(input: seq<byte>, pos: nat, n: nat)
      requires Valid() && Accepted(cfg) && pos + 2 * n <= |input|
      requires nsamples + n <= if nsamples < cfg.bins then cfg.bins else cfg.step
      modifies this`nsamples, this`hist, buf
      ensures Tracking() && Collecting()
      ensures nsamples == old(nsamples) + n && hist == old(hist) + input[pos..pos + 2 * n]
    {
      hide Tracks, HopStart, Collected, Wrapped;
      ghost var more := input[pos..pos + 2 * n];
      if nsamples < cfg.bins {
        for j := 0 to n
          modifies buf
          invariant forall i :: 0 <= i < nsamples ==> buf[i] == old(buf[i])
          invariant forall i :: 0 <= i < j ==> buf[nsamples + i] == Sample(cfg, more, i)
        {
          buf[nsamples + j] := Cx(cfg.level(input[pos + 2 * j]), cfg.level(input[pos + 2 * j + 1]));
          assert more[2 * j] == input[pos + 2 * j] && more[2 * j + 1] == input[pos + 2 * j + 1];
        }
      }
      if tries == 0 {
        CollectedMore(cfg, hist, HopStart(cfg.step, hops), nsamples, old(buf[..]), more, buf[..]);
      } else {
        assert more == [] && hist + more == hist && buf[..] == old(buf[..]);
      }
      TracksMore(cfg, wins, wins, hist, Position(), more);
      hist, nsamples := hist + more, nsamples + n;
    }

    /** Window, transform, accumulate, and publish when the accumulator is full. A failed
        transform leaves nothing behind but the windowed buffer. */
    method FinishHop() returns (ok: bool)
      requires Tracking() && Collecting() && Accepted(cfg) && nsamples == cfg.step
      modifies this`nsamples, this`count, this`seqNo, this`ready, this`hops, this`published, this`wins, this`tries
      modifies buf, acc, power
      ensures Valid() && old(published) <= published
      ensures ok ==> nsamples == 0 && tries == 0 && hops == old(hops) + 1
      ensures ok ==> Rewound(old(wins), old(hops), old(tries), wins, hops)
      ensures !ok ==> tries == old(tries) + 1 && unchanged(acc) && unchanged(power)
      ensures !ok ==> unchanged(`nsamples) && unchanged(`count) && unchanged(`seqNo) && unchanged(`ready)
      ensures !ok ==> unchanged(`hops) && unchanged(`published) && unchanged(`wins)
    {
      hide Tracks, HopStart, Collected, Wrapped, Hop;
      Window();
      CollectedHop(cfg, hist, hops, tries, old(buf[..]), buf[..]);
      tries := tries + 1;
      ok := Transform();
      if !ok {
        assert buf[..] == Hop(cfg, tries, hist, hops);
        return;
      }
      AddHop();
    }

    /** The powers of the transformed hop are added up and, at the last hop of a spectrum,
        published. */
    method AddHop()
      requires Tracking() && Accepted(cfg) && nsamples == cfg.step && tries > 0 && HasHop(cfg, hist, hops)
      requires forall t :: 0 <= t < cfg.bins ==> buf[t] == cfg.transform(Hop(cfg, tries, hist, hops), t)
      modifies this`nsamples, this`count, this`seqNo, this`ready, this`hops, this`published, this`wins, this`tries
      modifies acc, power
      ensures Valid() && old(published) <= published && nsamples == 0 && tries == 0 && hops == old(hops) + 1
      ensures Rewound(old(wins), old(hops), old(tries) - 1, wins, hops)
    {
      hide Tracks, HopStart, Collected, Wrapped, Hop;
      SumHop();
      count, nsamples, hops, tries := count + 1, 0, hops + 1, 0;
      if count >= cfg.accum {
        WrappedNext(earlier + |published|);
        Publish();
        count := 0;
      }
      CollectedNone(cfg, wins, hist, Position(), buf[..]);
    }

    method SumHop()
      requires Tracking() && Accepted(cfg) && nsamples == cfg.step && tries > 0 && HasHop(cfg, hist, hops)
      requires forall t :: 0 <= t < cfg.bins ==> buf[t] == cfg.transform(Hop(cfg, tries, hist, hops), t)
      modifies this`wins, acc
      ensures Tracks(cfg, wins, hist, Mark(0, hops + 1, count + 1, published, acc[..]))
      ensures Rewound(old(wins), hops, tries - 1, wins, hops + 1)
    {
      hide Tracks, HopStart, Hop;
      Accumulate();
      ghost var was, h, n := wins, hops, tries;
      wins := (k: nat) => if k == h then n else was(k);
      assert hist + [] == hist;
      TracksMore(cfg, was, wins, hist, old(Position()), []);
      TracksHop(cfg, wins, hist, old(Position()), acc[..]);
    }

    method Window()
      requires Tracking() && Accepted(cfg)
      modifies buf
      ensures forall j :: 0 <= j < cfg.bins ==> buf[j] == Windowed(cfg, j, old(buf[j]))
    {
      for i := 0 to cfg.bins
        modifies buf
        invariant forall j :: 0 <= j < i ==> buf[j] == Windowed(cfg, j, old(buf[j]))
        invariant forall j :: i <= j < cfg.bins ==> buf[j] == old(buf[j])
      {
        buf[i] := Cx(cfg.mul(buf[i].i, cfg.window[i]), cfg.mul(buf[i].q, cfg.window[i]));
      }
    }

    /** fft_execute in place: the transform, or a refusal that leaves the buffer alone. */
    method Transform() returns (ok: bool)
      requires buf.Length == cfg.bins
      modifies buf
      ensures ok ==> forall t :: 0 <= t < cfg.bins ==> buf[t] == cfg.transform(old(buf[..]), t)
      ensures !ok ==> unchanged(buf)
    {
      ok := *;
      if ok {
        var x := buf[..];
        forall t | 0 <= t < cfg.bins { buf[t] := cfg.transform(x, t); }
      }
    }

    method Accumulate()
      requires Tracking() && Accepted(cfg)
      modifies acc
      ensures forall t :: 0 <= t < cfg.bins ==> acc[t] == cfg.add(old(acc[t]), cfg.power(buf[t]))
    {
      for i := 0 to cfg.bins
        modifies acc
        invariant forall t :: 0 <= t < i ==> acc[t] == cfg.add(old(acc[t]), cfg.power(buf[t]))
        invariant forall t :: i <= t < cfg.bins ==> acc[t] == old(acc[t])
      {
        acc[i] := cfg.add(acc[i], cfg.power(buf[i]));
      }
    }

    /** The mean replaces the snapshot and the accumulator is cleared, under the lock. */
    method Publish()
      requires Accepted(cfg) && count == cfg.accum && nsamples == 0 && acc != power
                && acc.Length == power.Length == cfg.bins
      requires Tracks(cfg, wins, hist, Position())
      modifies this`seqNo, this`ready, this`published, acc, power
      ensures Tracks(cfg, wins, hist, Position().(count := 0))
      ensures ready && published == old(published) + [power[..]] && seqNo == (old(seqNo) + 1) % U64
    {
      hide Tracks;
      for i := 0 to cfg.bins
        modifies acc, power
        invariant forall t :: 0 <= t < i ==> power[t] == cfg.mean(old(acc[t]), cfg.accum) && acc[t] == cfg.zero
        invariant forall t :: i <= t < cfg.bins ==> acc[t] == old(acc[t])
      {
        power[i] := cfg.mean(acc[i], count);
        acc[i] := cfg.zero;
      }
      TracksSpectrum(cfg, wins, hist, old(Position()), power[..], acc[..]);
      seqNo, ready := (seqNo + 1) % U64, true;
      published := published + [power[..]];
    }

    /** fft_gap, up to the sweep over the clients: the worker starts over on an empty history,
        whatever it held, and the numbering of spectra goes on. */
    method Gap()
      requires Tracking()
      modifies this, buf, acc, power
      ensures Valid() && !(Accepted(cfg) && Stuck()) && hist == [] && published == [] && !ready && seqNo == old(seqNo)
      ensures Accepted(cfg) ==> earlier == old(earlier) + |old(published)|
      ensures generation == (old(generation) + 1) % U64
      ensures forall t :: 0 <= t < cfg.bins ==> power[t] == cfg.zero
    {
      hide Tracks, Collected, HopStart, Wrapped;
      generation, ready := (generation + 1) % U64, false;
      earlier := earlier + |published|;
      Clear();
      Restart();
    }

    method Restart()
      requires Shaped() && forall t :: 0 <= t < cfg.bins ==> acc[t] == cfg.zero
      modifies this`nsamples, this`count, this`hist, this`hops, this`published, this`wins, this`tries
      ensures nsamples == count == tries == 0 && hist == [] && published == []
      ensures Accepted(cfg) ==> Tracks(cfg, wins, hist, Position()) && Collecting()
    {
      hide Tracks, Collected, HopStart;
      nsamples, count := 0, 0;
      hist, hops, published, wins, tries := [], 0, [], ONCE, 0;
      if Accepted(cfg) {
        TracksNone(cfg, wins, acc[..]);
        CollectedNone(cfg, wins, [], Position(), buf[..]);
      }
    }

    method Clear()
      requires Shaped()
      modifies buf, acc, power
      ensures forall t :: 0 <= t < cfg.bins ==> acc[t] == cfg.zero && power[t] == cfg.zero
    {
      for i := 0 to cfg.bins
        invariant forall t :: 0 <= t < i ==> acc[t] == cfg.zero && power[t] == cfg.zero
      {
        buf[i], acc[i], power[i] := Cx(cfg.zero, cfg.zero), cfg.zero, cfg.zero;
      }
    }
  }

  /** The hops before `hops` keep their windowings; the first new one adds to the tries it had;
      every other is windowed once. */
  ghost predicate Rewound(was: nat -> nat, hops: nat, tries: nat, now: nat -> nat, hops': nat) {
    hops <= hops' && forall h :: 0 <= h < hops' ==>
        now(h) == if h < hops then was(h) else if h == hops then tries + 1 else 1
  }

  /** The worker's whole state is a function of the capture since the last gap and of which hops
      were retried, however it was cut into calls: every whole spectrum of it has been
      published, in order. */
  lemma StateOfHistory<F(0)>(a: Analyzer<F>, b: Analyzer<F>)
    requires a.Valid() && b.Valid() && a.cfg == b.cfg && Accepted(a.cfg) && a.hist == b.hist
    requires !a.Stuck() && !b.Stuck() && forall h :: 0 <= h < a.hops ==> a.wins(h) == b.wins(h)
    ensures |a.published| == SpectrumCount(a.cfg, a.hist) && Published(a.cfg, a.wins, a.hist, a.published)
    ensures a.published == b.published && a.nsamples == b.nsamples && a.count == b.count && a.acc[..] == b.acc[..]
    ensures forall j :: 0 <= j < a.nsamples && j < a.cfg.bins ==> a.buf[j] == b.buf[j]
  {
    hide HopStart, Spectrum, Sum, Rewindowed;
    TracksExactly(a.cfg, a.wins, a.hist, a.Position());
    TracksExactly(b.cfg, b.wins, b.hist, b.Position());
    assert a.hist + [] == a.hist;
    TracksMore(a.cfg, a.wins, b.wins, a.hist, a.Position(), []);
    assert forall k :: 0 <= k < |a.published| ==> a.published[k] == b.published[k];
    assert a.acc[..] == b.acc[..];
  }

  /** As long as no failed hop is retried the spectra are those of the plain specification. */
  lemma NeverRetried<F(0)>(a: Analyzer<F>)
    requires a.Tracking() && Accepted(a.cfg) && forall h :: 0 <= h < a.hops ==> a.wins(h) == 1
    ensures Published(a.cfg, ONCE, a.hist, a.published) && Summed(a.cfg, ONCE, a.hist, a.hops, a.count, a.acc[..])
  {
    hide HopStart, Spectrum, Sum, Published, Summed;
    assert a.hist + [] == a.hist;
    TracksMore(a.cfg, a.wins, ONCE, a.hist, a.Position(), []);
  }

  /** A failed transform leaves no trace: what is published and accumulated is what it would
      be had the capture ended just before the failed hop. */
  lemma FailureOfHistory<F(0)>(a: Analyzer<F>, good: seq<byte>)
    requires a.Tracking() && Accepted(a.cfg) && a.Stuck()
    requires good <= a.hist && |good| == |a.hist| - 2 * a.cfg.step
    ensures a.hops == HopCount(a.cfg, good) && |a.published| == SpectrumCount(a.cfg, good)
    ensures Published(a.cfg, a.wins, good, a.published) && Summed(a.cfg, a.wins, good, a.hops, a.count, a.acc[..])
  {
    hide Spectrum, Sum, Published, Summed;
    TracksLess(a.cfg, a.wins, a.hist, a.Position(), good);
    TracksExactly(a.cfg, a.wins, good, a.Position().(nsamples := 0));
  }
}
