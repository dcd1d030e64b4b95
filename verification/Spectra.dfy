/** What the FFT worker of src/rtl_stream_server.c computes, as a function of the capture bytes
    since the last gap. The float operations, the window and the transform are parameters. */
module Spectra {
  import opened Bits
  import opened Words

  /** transform(x, t) is bin t of the transform of x. */
  datatype Config<!F> = Config(bins: nat, step: nat, accum: nat,
                               window: seq<F>, level: byte -> F, mul: (F, F) -> F,
                               transform: (seq<Cx<F>>, nat) -> Cx<F>, power: Cx<F> -> F,
                               zero: F, add: (F, F) -> F, mean: (F, nat) -> F)

  predicate Accepted<F>(cfg: Config<F>) {
    cfg.bins >= 2 && cfg.step >= cfg.bins && cfg.accum >= 1
  }

  ghost predicate WellFormed<F>(cfg: Config<F>) {
    Accepted(cfg) && |cfg.window| == cfg.bins
  }

  // ---- Positions ----

  function HopStart(step: nat, h: nat): nat { h * step }

  lemma HopStartNext(step: nat, h: nat)
    ensures HopStart(step, 0) == 0 && HopStart(step, h + 1) == HopStart(step, h) + step
  {}

  lemma {:induction false} HopStartMonotone(step: nat, g: nat, h: nat)
    requires g <= h
    ensures HopStart(step, g) <= HopStart(step, h)
    decreases h - g
  {
    if g < h {
      HopStartMonotone(step, g, h - 1);
      HopStartNext(step, h - 1);
    }
  }

  lemma Quotient(d: nat, q: nat, r: nat)
    requires r < d
    ensures (HopStart(d, q) + r) / d == q
  {
    DivModUnique(HopStart(d, q) + r, q, r, d);
  }

  // ---- The specification ----

  function Sample<F>(cfg: Config<F>, hist: seq<byte>, i: nat): Cx<F>
    requires 2 * i + 1 < |hist|
  {
    Cx(cfg.level(hist[2 * i]), cfg.level(hist[2 * i + 1]))
  }

  function Windowed<F>(cfg: Config<F>, j: nat, x: Cx<F>): Cx<F>
    requires j < |cfg.window|
  {
    Cx(cfg.mul(x.i, cfg.window[j]), cfg.mul(x.q, cfg.window[j]))
  }

  /** The window applied n times. Once is the rule; a hop whose transform failed is windowed
      again by the next call. */
  function Rewindowed<F>(cfg: Config<F>, j: nat, x: Cx<F>, n: nat): Cx<F>
    requires j < |cfg.window|
  {
    if n == 0 then x else Windowed(cfg, j, Rewindowed(cfg, j, x, n - 1))
  }

  const ONCE: nat -> nat := _ => 1

  ghost predicate HasHop<F>(cfg: Config<F>, hist: seq<byte>, h: nat) {
    2 * (HopStart(cfg.step, h) + cfg.bins) <= |hist|
  }

  /** Hop h: bins consecutive samples from sample h * step on, windowed n times. */
  ghost function Hop<F>(cfg: Config<F>, n: nat, hist: seq<byte>, h: nat): (x: seq<Cx<F>>)
    requires WellFormed(cfg) && HasHop(cfg, hist, h)
    ensures |x| == cfg.bins
  {
    seq(cfg.bins, j requires 0 <= j < cfg.bins =>
      Rewindowed(cfg, j, Sample(cfg, hist, HopStart(cfg.step, h) + j), n))
  }

  /** The hop in bytes of the history: I is the first byte of each pair, Q the second. */
  lemma HopBytes<F>(cfg: Config<F>, hist: seq<byte>, h: nat, j: nat)
    requires WellFormed(cfg) && HasHop(cfg, hist, h) && j < cfg.bins
    ensures 0 <= 2 * (h * cfg.step + j) && 2 * (h * cfg.step + j) + 1 < |hist|
    ensures Hop(cfg, 1, hist, h)[j] ==
            Cx(cfg.mul(cfg.level(hist[2 * (h * cfg.step + j)]), cfg.window[j]),
               cfg.mul(cfg.level(hist[2 * (h * cfg.step + j) + 1]), cfg.window[j]))
  {
    var x := Sample(cfg, hist, HopStart(cfg.step, h) + j);
    assert Rewindowed(cfg, j, x, 1) == Windowed(cfg, j, Rewindowed(cfg, j, x, 0));
  }

  ghost function HopPower<F>(cfg: Config<F>, n: nat, hist: seq<byte>, h: nat, t: nat): F
    requires WellFormed(cfg) && HasHop(cfg, hist, h)
  {
    cfg.power(cfg.transform(Hop(cfg, n, hist, h), t))
  }

  /** Bin t summed over the n hops from `from` on, hop h windowed wins(h) times. */
  ghost function Sum<F>(cfg: Config<F>, wins: nat -> nat, hist: seq<byte>, from: nat, n: nat, t: nat): F
    requires WellFormed(cfg) && (n > 0 ==> HasHop(cfg, hist, from + n - 1))
  {
    if n == 0 then cfg.zero
    else
      var h := from + n - 1;
      HopStartMonotone(cfg.step, if n > 1 then h - 1 else h, h);
      cfg.add(Sum(cfg, wins, hist, from, n - 1, t), HopPower(cfg, wins(h), hist, h, t))
  }

  ghost predicate HasSpectrum<F>(cfg: Config<F>, hist: seq<byte>, k: nat) {
    cfg.accum >= 1 && HasHop(cfg, hist, HopStart(cfg.accum, k) + cfg.accum - 1)
  }

  /** Spectrum k: every bin the mean power over hops k * accum up to (k + 1) * accum. */
  ghost function Spectrum<F>(cfg: Config<F>, wins: nat -> nat, hist: seq<byte>, k: nat): (p: seq<F>)
    requires WellFormed(cfg) && HasSpectrum(cfg, hist, k)
    ensures |p| == cfg.bins
  {
    seq(cfg.bins, t requires 0 <= t < cfg.bins =>
      cfg.mean(Sum(cfg, wins, hist, HopStart(cfg.accum, k), cfg.accum, t), cfg.accum))
  }

  function HopCount<F>(cfg: Config<F>, hist: seq<byte>): nat
    requires Accepted(cfg)
  {
    |hist| / 2 / cfg.step
  }

  function SpectrumCount<F>(cfg: Config<F>, hist: seq<byte>): nat
    requires Accepted(cfg)
  {
    HopCount(cfg, hist) / cfg.accum
  }

  // ---- A longer history only adds ----

  lemma SamplePrefix<F>(cfg: Config<F>, hist: seq<byte>, more: seq<byte>, i: nat)
    requires 2 * i + 1 < |hist|
    ensures Sample(cfg, hist + more, i) == Sample(cfg, hist, i)
  {
    assert (hist + more)[2 * i] == hist[2 * i] && (hist + more)[2 * i + 1] == hist[2 * i + 1];
  }

  lemma HopPrefix<F>(cfg: Config<F>, n: nat, hist: seq<byte>, more: seq<byte>, h: nat)
    requires WellFormed(cfg) && HasHop(cfg, hist, h)
    ensures HasHop(cfg, hist + more, h) && Hop(cfg, n, hist + more, h) == Hop(cfg, n, hist, h)
  {
    hide HopStart, Rewindowed;
    var from := HopStart(cfg.step, h);
    forall j | 0 <= j < cfg.bins ensures Hop(cfg, n, hist + more, h)[j] == Hop(cfg, n, hist, h)[j] {
      SamplePrefix(cfg, hist, more, from + j);
    }
  }

  /** The sum depends on its own hops only: on their samples and on how often they were windowed. */
  lemma {:induction false} SumPrefix<F>(
    cfg: Config<F>, wins: nat -> nat, wins': nat -> nat, hist: seq<byte>, more: seq<byte>, from: nat, n: nat, t: nat)
    requires WellFormed(cfg) && (n > 0 ==> HasHop(cfg, hist, from + n - 1))
    requires forall h :: from <= h < from + n ==> wins(h) == wins'(h)
    ensures n > 0 ==> HasHop(cfg, hist + more, from + n - 1)
    ensures Sum(cfg, wins', hist + more, from, n, t) == Sum(cfg, wins, hist, from, n, t)
    decreases n
  {
    hide Hop;
    if n > 0 {
      var h := from + n - 1;
      HopStartMonotone(cfg.step, if n > 1 then h - 1 else h, h);
      SumPrefix(cfg, wins, wins', hist, more, from, n - 1, t);
      HopPrefix(cfg, wins(h), hist, more, h);
    }
  }

  lemma SpectrumPrefix<F>(cfg: Config<F>, wins: nat -> nat, wins': nat -> nat, hist: seq<byte>, more: seq<byte>, k: nat)
    requires WellFormed(cfg) && HasSpectrum(cfg, hist, k)
    requires forall h :: HopStart(cfg.accum, k) <= h < HopStart(cfg.accum, k) + cfg.accum ==> wins(h) == wins'(h)
    ensures HasSpectrum(cfg, hist + more, k) && Spectrum(cfg, wins', hist + more, k) == Spectrum(cfg, wins, hist, k)
  {
    hide Sum, HopStart;
    var from := HopStart(cfg.accum, k);
    forall t | 0 <= t < cfg.bins ensures Spectrum(cfg, wins', hist + more, k)[t] == Spectrum(cfg, wins, hist, k)[t] {
      SumPrefix(cfg, wins, wins', hist, more, from, cfg.accum, t);
    }
  }

  /** A spectrum that counts as complete has all its samples. */
  lemma CountedHas<F>(cfg: Config<F>, hist: seq<byte>, k: nat)
    requires Accepted(cfg) && k < SpectrumCount(cfg, hist)
    ensures HasSpectrum(cfg, hist, k)
  {
    var n, hops := |hist| / 2, HopCount(cfg, hist);
    AtMost(cfg.accum, SpectrumCount(cfg, hist), hops);
    AtMost(cfg.step, hops, n);
    HopStartMonotone(cfg.accum, k + 1, SpectrumCount(cfg, hist));
    HopStartNext(cfg.accum, k);
    HopStartMonotone(cfg.step, HopStart(cfg.accum, k) + cfg.accum, hops);
    HopStartNext(cfg.step, HopStart(cfg.accum, k) + cfg.accum - 1);
  }

  lemma AtMost(d: nat, q: nat, n: nat)
    requires d > 0 && q == n / d
    ensures HopStart(d, q) <= n
  {}

  // ---- Where the worker stands after a history ----

  /** hops whole hops and nsamples samples of the next have been taken; the first
      |published| * accum hops are published, the last count are in acc. */
  datatype Mark<F> = Mark(nsamples: nat, hops: nat, count: nat, published: seq<seq<F>>, acc: seq<F>)

  ghost predicate Tracks<F>(cfg: Config<F>, wins: nat -> nat, hist: seq<byte>, m: Mark<F>) {
    && WellFormed(cfg)
    && m.nsamples <= cfg.step && |hist| == 2 * (HopStart(cfg.step, m.hops) + m.nsamples)
    && m.count <= cfg.accum && m.hops == HopStart(cfg.accum, |m.published|) + m.count
    && Published(cfg, wins, hist, m.published)
    && Summed(cfg, wins, hist, m.hops, m.count, m.acc)
  }

  ghost predicate Published<F>(cfg: Config<F>, wins: nat -> nat, hist: seq<byte>, published: seq<seq<F>>)
    requires WellFormed(cfg)
  {
    forall k :: 0 <= k < |published| ==> HasSpectrum(cfg, hist, k) && published[k] == Spectrum(cfg, wins, hist, k)
  }

  ghost predicate Summed<F>(cfg: Config<F>, wins: nat -> nat, hist: seq<byte>, hops: nat, count: nat, acc: seq<F>)
    requires WellFormed(cfg)
  {
    && |acc| == cfg.bins && count <= hops && (count > 0 ==> HasHop(cfg, hist, hops - 1))
    && forall t :: 0 <= t < cfg.bins ==> acc[t] == Sum(cfg, wins, hist, hops - count, count, t)
  }

  /** Only the hops already taken matter. */
  lemma TracksMore<F>(cfg: Config<F>, wins: nat -> nat, wins': nat -> nat, hist: seq<byte>, m: Mark<F>, more: seq<byte>)
    requires Tracks(cfg, wins, hist, m) && |more| % 2 == 0 && m.nsamples + |more| / 2 <= cfg.step
    requires forall h :: 0 <= h < m.hops ==> wins(h) == wins'(h)
    ensures Tracks(cfg, wins', hist + more, m.(nsamples := m.nsamples + |more| / 2))
  {
    hide Spectrum, Sum, HopStart;
    var p := m.published;
    forall k | 0 <= k < |p|
      ensures HasSpectrum(cfg, hist + more, k) && p[k] == Spectrum(cfg, wins', hist + more, k)
    {
      HopStartNext(cfg.accum, k);
      HopStartMonotone(cfg.accum, k + 1, |p|);
      SpectrumPrefix(cfg, wins, wins', hist, more, k);
    }
    forall t | 0 <= t < cfg.bins ensures m.acc[t] == Sum(cfg, wins', hist + more, m.hops - m.count, m.count, t) {
      SumPrefix(cfg, wins, wins', hist, more, m.hops - m.count, m.count, t);
    }
  }

  /** The transformed hop goes into the accumulator. */
  lemma TracksHop<F>(cfg: Config<F>, wins: nat -> nat, hist: seq<byte>, m: Mark<F>, next: seq<F>)
    requires Tracks(cfg, wins, hist, m) && m.nsamples == cfg.step && m.count < cfg.accum
    requires |next| == cfg.bins && HasHop(cfg, hist, m.hops)
    requires forall t :: 0 <= t < cfg.bins ==>
              next[t] == cfg.add(m.acc[t], HopPower(cfg, wins(m.hops), hist, m.hops, t))
    ensures Tracks(cfg, wins, hist, Mark(0, m.hops + 1, m.count + 1, m.published, next))
  {
    hide Spectrum, HopStart, HopPower, Published;
    HopStartNext(cfg.step, m.hops);
    forall t | 0 <= t < cfg.bins ensures next[t] == Sum(cfg, wins, hist, m.hops - m.count, m.count + 1, t) {
      assert m.acc[t] == Sum(cfg, wins, hist, m.hops - m.count, m.count, t);
    }
  }

  /** A full accumulator becomes the next spectrum. */
  lemma TracksSpectrum<F>(cfg: Config<F>, wins: nat -> nat, hist: seq<byte>, m: Mark<F>, spectrum: seq<F>,
      zeros: seq<F>)
    requires Tracks(cfg, wins, hist, m) && m.nsamples == 0 && m.count == cfg.accum
    requires |spectrum| == cfg.bins && forall t :: 0 <= t < cfg.bins ==> spectrum[t] == cfg.mean(m.acc[t], cfg.accum)
    requires |zeros| == cfg.bins && forall t :: 0 <= t < cfg.bins ==> zeros[t] == cfg.zero
    ensures Tracks(cfg, wins, hist, Mark(0, m.hops, 0, m.published + [spectrum], zeros))
  {
    hide HopStart;
    var k := |m.published|;
    HopStartNext(cfg.accum, k);
    assert HasSpectrum(cfg, hist, k);
    assert spectrum == Spectrum(cfg, wins, hist, k);
  }

  /** What has been published is a function of the history alone: all its whole spectra. */
  lemma TracksExactly<F>(cfg: Config<F>, wins: nat -> nat, hist: seq<byte>, m: Mark<F>)
    requires Tracks(cfg, wins, hist, m) && m.nsamples < cfg.step && m.count < cfg.accum
    ensures m.hops == HopCount(cfg, hist) && |m.published| == SpectrumCount(cfg, hist)
  {
    hide Spectrum, Sum, Published, Summed;
    Quotient(cfg.step, m.hops, m.nsamples);
    Quotient(cfg.accum, |m.published|, m.count);
  }

  /** Taking away the samples after the last whole hop changes nothing else. */
  lemma TracksLess<F>(cfg: Config<F>, wins: nat -> nat, hist: seq<byte>, m: Mark<F>, good: seq<byte>)
    requires Tracks(cfg, wins, hist, m) && good <= hist && |good| == 2 * HopStart(cfg.step, m.hops)
    ensures Tracks(cfg, wins, good, m.(nsamples := 0))
  {
    hide Spectrum, Sum, HopStart;
    var more := hist[|good|..];
    assert hist == good + more;
    forall k | 0 <= k < |m.published|
      ensures HasSpectrum(cfg, good, k) && m.published[k] == Spectrum(cfg, wins, good, k)
    {
      HopStartNext(cfg.accum, k);
      HopStartMonotone(cfg.accum, k + 1, |m.published|);
      WholeHop(cfg, good, HopStart(cfg.accum, k) + cfg.accum - 1, m.hops);
      SpectrumPrefix(cfg, wins, wins, good, more, k);
    }
    if m.count > 0 {
      WholeHop(cfg, good, m.hops - 1, m.hops);
    }
    forall t | 0 <= t < cfg.bins ensures m.acc[t] == Sum(cfg, wins, good, m.hops - m.count, m.count, t) {
      SumPrefix(cfg, wins, wins, good, more, m.hops - m.count, m.count, t);
    }
  }

  lemma WholeHop<F>(cfg: Config<F>, hist: seq<byte>, h: nat, hops: nat)
    requires Accepted(cfg) && h < hops && 2 * HopStart(cfg.step, hops) <= |hist|
    ensures HasHop(cfg, hist, h)
  {
    hide HopStart;
    HopStartNext(cfg.step, h);
    HopStartMonotone(cfg.step, h + 1, hops);
  }

  /** The buffer holds the first samples of the hop that starts at sample `start`, each
      windowed `tries` times. */
  ghost predicate Collected<F>(
    cfg: Config<F>, hist: seq<byte>, start: nat, nsamples: nat, tries: nat, buf: seq<Cx<F>>)
  {
    && |buf| == cfg.bins == |cfg.window| && |hist| == 2 * (start + nsamples)
    && forall j :: 0 <= j < nsamples && j < cfg.bins ==>
        buf[j] == Rewindowed(cfg, j, Sample(cfg, hist, start + j), tries)
  }

  lemma CollectedMore<F>(
    cfg: Config<F>, hist: seq<byte>, start: nat, nsamples: nat, buf: seq<Cx<F>>, more: seq<byte>, next: seq<Cx<F>>)
    requires Collected(cfg, hist, start, nsamples, 0, buf) && |more| % 2 == 0 && |next| == cfg.bins
    requires forall j :: 0 <= j < nsamples && j < cfg.bins ==> next[j] == buf[j]
    requires forall i :: 0 <= i < |more| / 2 && nsamples + i < cfg.bins ==> next[nsamples + i] == Sample(cfg, more, i)
    ensures Collected(cfg, hist + more, start, nsamples + |more| / 2, 0, next)
  {
    forall j | 0 <= j < nsamples + |more| / 2 && j < cfg.bins ensures next[j] == Sample(cfg, hist + more, start + j) {
      if j < nsamples {
        SamplePrefix(cfg, hist, more, start + j);
      } else {
        assert next[nsamples + (j - nsamples)] == Sample(cfg, more, j - nsamples);
      }
    }
  }

  /** A full buffer, windowed once more, is the hop. */
  lemma CollectedHop<F>(cfg: Config<F>, hist: seq<byte>, hops: nat, tries: nat, buf: seq<Cx<F>>, windowed: seq<Cx<F>>)
    requires WellFormed(cfg) && Collected(cfg, hist, HopStart(cfg.step, hops), cfg.step, tries, buf)
    requires |windowed| == cfg.bins && forall j :: 0 <= j < cfg.bins ==> windowed[j] == Windowed(cfg, j, buf[j])
    ensures HasHop(cfg, hist, hops) && windowed == Hop(cfg, tries + 1, hist, hops)
    ensures Collected(cfg, hist, HopStart(cfg.step, hops), cfg.step, tries + 1, windowed)
  {
    hide HopStart;
    forall j | 0 <= j < cfg.bins ensures windowed[j] == Hop(cfg, tries + 1, hist, hops)[j] {}
  }

  lemma CollectedNone<F>(cfg: Config<F>, wins: nat -> nat, hist: seq<byte>, m: Mark<F>, buf: seq<Cx<F>>)
    requires Tracks(cfg, wins, hist, m) && m.nsamples == 0 && |buf| == cfg.bins
    ensures Collected(cfg, hist, HopStart(cfg.step, m.hops), 0, 0, buf)
  {}

  lemma TracksNone<F>(cfg: Config<F>, wins: nat -> nat, zeros: seq<F>)
    requires WellFormed(cfg) && |zeros| == cfg.bins && forall t :: 0 <= t < cfg.bins ==> zeros[t] == cfg.zero
    ensures Tracks(cfg, wins, [], Mark(0, 0, 0, [], zeros))
  {}
}
