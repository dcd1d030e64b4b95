/** What the FFT worker of src/rtl_stream_server.c publishes when nothing is rounded: the mean,
    over its hops, of the squared modulus of the Fourier sum of the windowed samples. */
module Periodogram {
  import opened Words
  import opened Rings
  import opened Dft
  import opened Spectra
  import Analyzer

  function AsComplex(x: Cx<real>): Complex { Complex(x.i, x.q) }

  function AsComplexes(x: seq<Cx<real>>): seq<Complex> {
    seq(|x|, i requires 0 <= i < |x| => AsComplex(x[i]))
  }

  /** The worker's operations on real numbers, with a transform that computes the bins of the
      root w, as Fft.Execute does. */
  ghost predicate Unrounded(cfg: Config<real>, w: Complex) {
    && cfg.zero == 0.0 && (forall b: byte :: cfg.level(b) == b as real - 127.5)
    && (forall x, y :: cfg.mul(x, y) == x * y) && (forall x, y :: cfg.add(x, y) == x + y)
    && (forall s, n: nat :: n > 0 ==> cfg.mean(s, n) == s / n as real)
    && (forall c :: cfg.power(c) == c.i * c.i + c.q * c.q)
    && (forall x, t :: AsComplex(cfg.transform(x, t)) == Bin(Complexes(), w, AsComplexes(x), t))
  }

  /** Sample j of hop h as a complex number, centred and windowed. */
  ghost function Point(cfg: Config<real>, hist: seq<byte>, h: nat, j: nat): Complex
    requires WellFormed(cfg) && HasHop(cfg, hist, h) && j < cfg.bins
  {
    HopBytes(cfg, hist, h, j);
    var i := 2 * (h * cfg.step + j);
    Complex((hist[i] as real - 127.5) * cfg.window[j], (hist[i + 1] as real - 127.5) * cfg.window[j])
  }

  /** The sum over j < m of the samples of hop h times w^(j*t). */
  ghost function FourierSum(cfg: Config<real>, w: Complex, hist: seq<byte>, h: nat, t: nat, m: nat): Complex
    requires WellFormed(cfg) && HasHop(cfg, hist, h) && m <= cfg.bins
  {
    if m == 0 then Complex(0.0, 0.0)
    else
      CAdd(FourierSum(cfg, w, hist, h, t, m - 1),
           CMul(Point(cfg, hist, h, m - 1), Pow(Complexes(), w, (m - 1) * t)))
  }

  function Norm(c: Complex): real { c.re * c.re + c.im * c.im }

  /** The squared moduli at bin t of the n hops from `from` on, added up. */
  ghost function Energy(cfg: Config<real>, w: Complex, hist: seq<byte>, from: nat, n: nat, t: nat): real
    requires WellFormed(cfg) && (n > 0 ==> HasHop(cfg, hist, from + n - 1))
  {
    if n == 0 then 0.0
    else
      var h := from + n - 1;
      HopStartMonotone(cfg.step, if n > 1 then h - 1 else h, h);
      Energy(cfg, w, hist, from, n - 1, t) + Norm(FourierSum(cfg, w, hist, h, t, cfg.bins))
  }

  lemma PointIs(cfg: Config<real>, w: Complex, hist: seq<byte>, h: nat, j: nat)
    requires Unrounded(cfg, w) && WellFormed(cfg) && HasHop(cfg, hist, h) && j < cfg.bins
    ensures AsComplexes(Hop(cfg, 1, hist, h))[j] == Point(cfg, hist, h, j)
  {
    hide Hop;
    HopBytes(cfg, hist, h, j);
  }

  lemma {:induction false} SumIs(cfg: Config<real>, w: Complex, hist: seq<byte>, h: nat, t: nat, m: nat)
    requires Unrounded(cfg, w) && WellFormed(cfg) && HasHop(cfg, hist, h) && m <= cfg.bins
    ensures DftSum(Complexes(), w, AsComplexes(Hop(cfg, 1, hist, h)), 0, 1, m, t) == FourierSum(cfg, w, hist, h, t, m)
  {
    hide Hop, Unrounded, Point, Pow, CMul, CAdd;
    if m > 0 {
      SumIs(cfg, w, hist, h, t, m - 1);
      PointIs(cfg, w, hist, h, m - 1);
      assert 1 * (m - 1) * t == (m - 1) * t;
    }
  }

  lemma PowerIs(cfg: Config<real>, w: Complex, hist: seq<byte>, h: nat, t: nat)
    requires Unrounded(cfg, w) && WellFormed(cfg) && HasHop(cfg, hist, h)
    ensures HopPower(cfg, 1, hist, h, t) == Norm(FourierSum(cfg, w, hist, h, t, cfg.bins))
  {
    hide Hop, FourierSum, DftSum;
    SumIs(cfg, w, hist, h, t, cfg.bins);
    var x := Hop(cfg, 1, hist, h);
    assert AsComplex(cfg.transform(x, t)) == Bin(Complexes(), w, AsComplexes(x), t);
  }

  lemma {:induction false} EnergyIs(cfg: Config<real>, w: Complex, hist: seq<byte>, from: nat, n: nat, t: nat)
    requires Unrounded(cfg, w) && WellFormed(cfg) && (n > 0 ==> HasHop(cfg, hist, from + n - 1))
    ensures Sum(cfg, ONCE, hist, from, n, t) == Energy(cfg, w, hist, from, n, t)
  {
    hide HopPower, FourierSum, HasHop, Norm;
    if n > 0 {
      EnergyStep(cfg, hist, from, n);
      EnergyIs(cfg, w, hist, from, n - 1, t);
      PowerIs(cfg, w, hist, from + n - 1, t);
    }
  }

  lemma EnergyStep(cfg: Config<real>, hist: seq<byte>, from: nat, n: nat)
    requires n > 0 && HasHop(cfg, hist, from + n - 1)
    ensures n > 1 ==> HasHop(cfg, hist, from + n - 2)
  {
    if n > 1 { HopStartMonotone(cfg.step, from + n - 2, from + n - 1); }
  }

  /** Bin t of spectrum k is the mean over hops k*accum to (k+1)*accum - 1 of the squared modulus
      of the Fourier sum. */
  lemma SpectrumIsPeriodogram(cfg: Config<real>, w: Complex, hist: seq<byte>, k: nat, t: nat)
    requires Unrounded(cfg, w) && WellFormed(cfg) && HasSpectrum(cfg, hist, k) && t < cfg.bins
    ensures HasHop(cfg, hist, k * cfg.accum + cfg.accum - 1)
    ensures Spectrum(cfg, ONCE, hist, k)[t] == Energy(cfg, w, hist, k * cfg.accum, cfg.accum, t) / cfg.accum as real
  {
    hide Sum, Energy, HasHop;
    EnergyIs(cfg, w, hist, HopStart(cfg.accum, k), cfg.accum, t);
  }

  /** So is every value the worker has published, as long as no hop was retried. */
  lemma PublishedIsPeriodogram(a: Analyzer.Analyzer<real>, w: Complex, k: nat, t: nat)
    requires a.Tracking() && Accepted(a.cfg) && Unrounded(a.cfg, w) && k < |a.published| && t < a.cfg.bins
    requires forall h :: 0 <= h < a.hops ==> a.wins(h) == 1
    ensures WellFormed(a.cfg) && HasHop(a.cfg, a.hist, k * a.cfg.accum + a.cfg.accum - 1)
    ensures |a.published[k]| == a.cfg.bins
    ensures a.published[k][t] ==
            Energy(a.cfg, w, a.hist, k * a.cfg.accum, a.cfg.accum, t) / a.cfg.accum as real
  {
    hide Spectrum, Energy, HasHop, Unrounded;
    Analyzer.NeverRetried(a);
    assert HasSpectrum(a.cfg, a.hist, k);
    SpectrumIsPeriodogram(a.cfg, w, a.hist, k, t);
  }
}
