/** What the front end and the filters of src/rtl_dsp.c compute when nothing is rounded: a DC
    notch in closed form, a rotation that turns against the oscillator, and filters that are
    convolutions. */
module Baseband {
  import opened Words
  import opened Bits
  import opened Rings
  import opened Trigonometry
  import opened Channelizer

  /** sat16: scaled by 256, limited, and cut towards zero. */
  function Saturated(v: real): int16 {
    var x := v * 256.0;
    if x < -32768.0 then -32768 else if x > 32767.0 then 32767 else if x < 0.0 then -(-x).Floor else x.Floor
  }

  /** Within range the output is the scaled value to within one unit, never farther from zero;
      beyond it is the limit. */
  lemma SaturatedExactly(v: real)
    ensures -32768.0 <= v * 256.0 <= 32767.0 ==>
              && -1.0 < Saturated(v) as real - v * 256.0 < 1.0
              && (if v >= 0.0 then 0.0 <= Saturated(v) as real <= v * 256.0
                  else v * 256.0 <= Saturated(v) as real <= 0.0)
    ensures v * 256.0 > 32767.0 ==> Saturated(v) == 32767
    ensures v * 256.0 < -32768.0 ==> Saturated(v) == -32768
  {
    var x: real, r: int := v * 256.0, Saturated(v);
    if -32768.0 <= x < 0.0 { assert r == -(-x).Floor; }
  }

  /** The channelizer's operations on real numbers. */
  function Reals(table: seq<real>): Arith<real> {
    Arith(0.0, (b: byte) => b as real - 127.5,
          (x, y) => x + y, (x, y) => x - y, (x, y) => x * y, x => x, (x, y) => x + y, (x, y) => x * y, Saturated, table)
  }

  ghost predicate Unrounded(cfg: Config<real>) {
    |cfg.arith.table| == NCO_SIZE && cfg.arith == Reals(cfg.arith.table)
  }

  function AsComplex(x: Cx<real>): Complex { Complex(x.i, x.q) }

  function Conj(a: Complex): Complex { Complex(a.re, -a.im) }

  // ---- The oscillator ----

  /** The phase is the number of samples times the increment, modulo a turn. */
  lemma {:induction false} PhaseAfter<F>(cfg: Config<F>, bytes: seq<byte>)
    requires |bytes| % 2 == 0
    ensures FrontAfter(cfg, bytes).phase == (|bytes| / 2 * cfg.phaseInc) % U32
    decreases |bytes|
  {
    if bytes != [] {
      var front := bytes[..|bytes| - 2];
      PhaseAfter(cfg, front);
      var n, p := |front| / 2, cfg.phaseInc;
      assert (n + 1) * p == n * p + p;
      assert (n * p) % U32 == n * p - n * p / U32 * U32;
      ModPlusMultiple((n * p) % U32 + p, n * p / U32, U32);
    }
  }

  /** The cosine table holds the real parts of w^0, w^1, ..., where w is a quarter turn after a
      quarter of the table. */
  ghost predicate CosineTable(table: seq<real>, w: Complex) {
    && |table| == NCO_SIZE
    && (forall i :: 0 <= i < NCO_SIZE ==> table[i] == Pow(Complexes(), w, i).re)
    && Pow(Complexes(), w, NCO_SIZE / 4) == Complex(0.0, 1.0)
  }

  /** The table the source fills is such a table, of the root e^(2*pi*i/65536). */
  lemma TableOscillates(table: seq<real>, cos: real -> real, sin: real -> real, pi: real)
    requires |table| == NCO_SIZE && Trigonometric(cos, sin, pi)
    requires forall i :: 0 <= i < NCO_SIZE ==> table[i] == cos(2.0 * pi * i as real / NCO_SIZE as real)
    ensures CosineTable(table, Cis(cos, sin, 2.0 * pi / NCO_SIZE as real))
  {
    hide Trigonometric, Pow;
    var a := 2.0 * pi / NCO_SIZE as real;
    forall i | 0 <= i < NCO_SIZE ensures table[i] == Pow(Complexes(), Cis(cos, sin, a), i).re {
      CisPower(cos, sin, pi, a, i, 2.0 * pi * i as real / NCO_SIZE as real);
    }
    CisPower(cos, sin, pi, a, NCO_SIZE / 4, pi / 2.0);
    QuarterTurn(cos, sin, pi);
  }

  lemma QuarterOn(w: Complex, j: nat)
    requires Pow(Complexes(), w, NCO_SIZE / 4) == Complex(0.0, 1.0)
    ensures Pow(Complexes(), w, j + NCO_SIZE / 4) ==
            Complex(-Pow(Complexes(), w, j).im, Pow(Complexes(), w, j).re)
  {
    hide Pow;
    ComplexesLawful();
    PowAdd(Complexes(), w, j, NCO_SIZE / 4);
  }

  /** Both table lookups together are a power of w. */
  lemma Oscillates(a: Arith<real>, w: Complex, phase: nat)
    requires CosineTable(a.table, w) && phase < U32
    ensures Complex(Cos(a, phase), Sin(a, phase)) == Pow(Complexes(), w, phase / 65536)
  {
    hide Pow;
    var i, q := phase / 65536, NCO_SIZE / 4;
    if i >= q {
      QuarterOn(w, i - q);
      assert (i - q) % NCO_SIZE == i - q;
    } else {
      QuarterOn(w, i);
      QuarterOn(w, i + q);
      QuarterOn(w, i + 2 * q);
      assert (i - q) % NCO_SIZE == i + 3 * q;
    }
  }

  // ---- The mixer ----

  /** The mixer multiplies by the conjugate of the oscillator, so it turns the other way. */
  lemma MixRotates(cfg: Config<real>, st: FrontState<real>, bi: byte, bq: byte)
    requires Unrounded(cfg) && st.phase < U32
    ensures var n := FrontNext(cfg, st, bi, bq);
            AsComplex(Mix(cfg, st, bi, bq)) ==
            CMul(Complex(n.yi, n.yq), Conj(Complex(Cos(cfg.arith, st.phase), Sin(cfg.arith, st.phase))))
  {
    hide Cos, Sin, FrontNext;
    var n := FrontNext(cfg, st, bi, bq);
    var c, s := Cos(cfg.arith, st.phase), Sin(cfg.arith, st.phase);
    assert n.yi * -s == -(n.yi * s) && n.yq * -s == -(n.yq * s);
  }

  // ---- The notch ----

  /** The I samples (part 0) or the Q samples (part 1) of a stream, centred. */
  function Part(bytes: seq<byte>, part: nat): seq<real>
    requires |bytes| % 2 == 0 && part < 2
  {
    seq(|bytes| / 2, k requires 0 <= k < |bytes| / 2 => bytes[2 * k + part] as real - 127.5)
  }

  function Power(a: real, k: nat): real { if k == 0 then 1.0 else a * Power(a, k - 1) }

  /** The sum over k < m of a^(n-1-k) * x[k]. */
  function Faded(a: real, x: seq<real>, n: nat, m: nat): real
    requires m <= n && m <= |x|
  {
    if m == 0 then 0.0 else Faded(a, x, n, m - 1) + Power(a, n - m) * x[m - 1]
  }

  lemma {:induction false} FadedOn(a: real, x: seq<real>, n: nat, m: nat)
    requires m <= n && m <= |x|
    ensures Faded(a, x, n + 1, m) == a * Faded(a, x, n, m)
  {
    if m > 0 {
      FadedOn(a, x, n, m - 1);
      Scaled(a, Faded(a, x, n, m - 1), Power(a, n - m), x[m - 1]);
    }
  }

  lemma Scaled(a: real, f: real, p: real, v: real)
    ensures a * (f + p * v) == a * f + (a * p) * v
  {}

  lemma {:induction false} FadedPrefix(a: real, x: seq<real>, y: seq<real>, n: nat, m: nat)
    requires m <= n && m <= |x| && x <= y
    ensures Faded(a, y, n, m) == Faded(a, x, n, m)
  {
    if m > 0 {
      FadedPrefix(a, x, y, n, m - 1);
    }
  }

  /** The notch at the latest of a stream of samples: that sample, less a decaying mean of the
      earlier ones. */
  function Notched(a: real, x: seq<real>): real
    requires x != []
  {
    var n := |x| - 1;
    x[n] + (a - 1.0) * Faded(a, x, n, n)
  }

  lemma NotchedNext(a: real, x: seq<real>, v: real)
    requires x != []
    ensures Notched(a, x + [v]) == v - x[|x| - 1] + a * Notched(a, x)
  {
    var n := |x|;
    FadedPrefix(a, x, x + [v], n, n);
    FadedOn(a, x, n - 1, n - 1);
    var f, last := Faded(a, x, n - 1, n - 1), x[n - 1];
    assert Faded(a, x, n, n) == a * f + last;
    assert (a - 1.0) * (a * f + last) == a * ((a - 1.0) * f) + a * last - last;
    assert a * (last + (a - 1.0) * f) == a * last + a * ((a - 1.0) * f);
  }

  lemma PartNext(bytes: seq<byte>, bi: byte, bq: byte)
    requires |bytes| % 2 == 0
    ensures Part(bytes + [bi, bq], 0) == Part(bytes, 0) + [bi as real - 127.5]
    ensures Part(bytes + [bi, bq], 1) == Part(bytes, 1) + [bq as real - 127.5]
  {}

  /** The notch has run over the I samples x and the Q samples y. */
  ghost predicate NotchOver(a: real, st: FrontState<real>, x: seq<real>, y: seq<real>) {
    && x != [] && y != [] && st.xi == x[|x| - 1] && st.xq == y[|y| - 1]
    && st.yi == Notched(a, x) && st.yq == Notched(a, y)
  }

  lemma NotchOverFirst(cfg: Config<real>, bi: byte, bq: byte)
    requires Unrounded(cfg)
    ensures var vi, vq := bi as real - 127.5, bq as real - 127.5;
            NotchOver(cfg.alpha, FrontNext(cfg, FrontZero(cfg.arith), bi, bq), [vi], [vq])
  {
    hide FrontNext, Notched;
    PlainNext(cfg, FrontZero(cfg.arith), bi, bq);
    PlainZero(cfg);
    NotchedFirst(cfg.alpha, bi as real - 127.5);
    NotchedFirst(cfg.alpha, bq as real - 127.5);
  }

  lemma NotchOverNext(cfg: Config<real>, st: FrontState<real>, x: seq<real>, y: seq<real>, bi: byte, bq: byte)
    requires Unrounded(cfg) && NotchOver(cfg.alpha, st, x, y)
    ensures var vi, vq := bi as real - 127.5, bq as real - 127.5;
            NotchOver(cfg.alpha, FrontNext(cfg, st, bi, bq), x + [vi], y + [vq])
  {
    hide FrontNext, Notched, Reals;
    PlainNext(cfg, st, bi, bq);
    NotchedNext(cfg.alpha, x, bi as real - 127.5);
    NotchedNext(cfg.alpha, y, bq as real - 127.5);
  }

  lemma {:induction false} NotchAfter(cfg: Config<real>, bytes: seq<byte>)
    requires Unrounded(cfg) && |bytes| % 2 == 0 && bytes != []
    ensures NotchOver(cfg.alpha, FrontAfter(cfg, bytes), Part(bytes, 0), Part(bytes, 1))
    decreases |bytes|
  {
    hide Part, FrontNext, Unrounded, NotchOver;
    var n := |bytes| - 2;
    var front, bi, bq := bytes[..n], bytes[n], bytes[n + 1];
    assert bytes == front + [bi, bq];
    PartNext(front, bi, bq);
    PartLength(front);
    if front == [] {
      NotchOverFirst(cfg, bi, bq);
      assert Part(front, 0) + [bi as real - 127.5] == [bi as real - 127.5];
      assert Part(front, 1) + [bq as real - 127.5] == [bq as real - 127.5];
    } else {
      NotchAfter(cfg, front);
      NotchOverNext(cfg, FrontAfter(cfg, front), Part(front, 0), Part(front, 1), bi, bq);
    }
  }

  lemma PartLength(bytes: seq<byte>)
    requires |bytes| % 2 == 0
    ensures |Part(bytes, 0)| == |Part(bytes, 1)| == |bytes| / 2
  {}

  lemma NotchedFirst(a: real, v: real)
    ensures Notched(a, [v]) == v
  {}

  /** One step of the front end in plain arithmetic. */
  lemma PlainNext(cfg: Config<real>, st: FrontState<real>, bi: byte, bq: byte)
    requires Unrounded(cfg)
    ensures var n, vi, vq := FrontNext(cfg, st, bi, bq), bi as real - 127.5, bq as real - 127.5;
            && n.xi == vi && n.xq == vq
            && n.yi == vi - st.xi + cfg.alpha * st.yi && n.yq == vq - st.xq + cfg.alpha * st.yq
  {}

  lemma PlainZero(cfg: Config<real>)
    requires Unrounded(cfg)
    ensures var z := FrontZero(cfg.arith); z.xi == z.xq == z.yi == z.yq == 0.0
  {}

  // ---- The front end in closed form ----

  /** The phase of sample n, in steps of the table. */
  function PhaseStep(inc: nat, n: nat): nat { (n * inc) % U32 / 65536 }

  lemma {:induction false} MixedAt<F>(cfg: Config<F>, bytes: seq<byte>, n: nat)
    requires |cfg.arith.table| == NCO_SIZE && |bytes| % 2 == 0 && n < |bytes| / 2
    ensures Mixed(cfg, bytes)[n] == Mix(cfg, FrontAfter(cfg, bytes[..2 * n]), bytes[2 * n], bytes[2 * n + 1])
    decreases |bytes|
  {
    hide Mix;
    var m := |bytes| - 2;
    if 2 * n < m {
      MixedAt(cfg, bytes[..m], n);
      assert bytes[..m][..2 * n] == bytes[..2 * n];
    }
  }

  /** Component `part` of sample n after the notch, from the samples up to it. */
  function NotchedAt(a: real, bytes: seq<byte>, part: nat, n: nat): real
    requires |bytes| % 2 == 0 && part < 2 && n < |bytes| / 2
  {
    Notched(a, Part(bytes[..2 * n + 2], part))
  }

  /** Mixed sample n is the notched sample n times the conjugate of w to the power of the phase
      n * increment, in steps of the table. */
  lemma MixedClosedForm(cfg: Config<real>, w: Complex, bytes: seq<byte>, n: nat)
    requires Unrounded(cfg) && CosineTable(cfg.arith.table, w) && |bytes| % 2 == 0 && n < |bytes| / 2
    ensures AsComplex(Mixed(cfg, bytes)[n]) ==
            CMul(Complex(NotchedAt(cfg.alpha, bytes, 0, n), NotchedAt(cfg.alpha, bytes, 1, n)),
                 Conj(Pow(Complexes(), w, PhaseStep(cfg.phaseInc, n))))
  {
    hide Mix, Mixed, Pow, Notched, Part, Reals, Cos, Sin, CMul, FrontNext, CosineTable;
    var before, seen := bytes[..2 * n], bytes[..2 * n + 2];
    MixedAt(cfg, bytes, n);
    PhaseAfter(cfg, before);
    var st := FrontAfter(cfg, before);
    assert |before| / 2 == n;
    MixRotates(cfg, st, bytes[2 * n], bytes[2 * n + 1]);
    Oscillates(cfg.arith, w, st.phase);
    assert seen[..2 * n] == before;
    NotchAfter(cfg, seen);
  }

  // ---- The filters ----

  /** Coefficient k of the first `taps`, and zero outside. */
  function Response(coeffs: seq<real>, taps: nat, k: int): real
    requires taps <= |coeffs|
  {
    if 0 <= k < taps then coeffs[k] else 0.0
  }

  /** The sum with x * h added, in both parts. */
  function AddTap(s: Cx<real>, x: Cx<real>, h: real): Cx<real> { Cx(s.i + x.i * h, s.q + x.q * h) }

  lemma AddTapSwap(s: Cx<real>, x: Cx<real>, h: real, y: Cx<real>, g: real)
    ensures AddTap(AddTap(s, x, h), y, g) == AddTap(AddTap(s, y, g), x, h)
  {}

  lemma AddTapNone(s: Cx<real>, x: Cx<real>, h: real)
    ensures AddTap(s, x, 0.0) == s && AddTap(s, Cx(0.0, 0.0), h) == s
  {}

  /** The sum over j < m of x[j] * h[end - j]. */
  function Superposed(coeffs: seq<real>, taps: nat, xs: seq<Cx<real>>, end: int, m: nat): Cx<real>
    requires taps <= |coeffs| && m <= |xs|
  {
    if m == 0 then Cx(0.0, 0.0)
    else AddTap(Superposed(coeffs, taps, xs, end, m - 1), xs[m - 1], Response(coeffs, taps, end - (m - 1)))
  }

  /** One more coefficient adds the one input it meets. */
  lemma {:induction false} OneTapMore(coeffs: seq<real>, taps: nat, xs: seq<Cx<real>>, end: int, m: nat)
    requires taps < |coeffs| && m <= |xs|
    ensures var s, j := Superposed(coeffs, taps, xs, end, m), end - taps;
            Superposed(coeffs, taps + 1, xs, end, m) == if 0 <= j < m then AddTap(s, xs[j], coeffs[taps]) else s
  {
    hide AddTap;
    if m > 0 {
      OneTapMore(coeffs, taps, xs, end, m - 1);
      var s, x, h := Superposed(coeffs, taps, xs, end, m - 1), xs[m - 1], Response(coeffs, taps, end - (m - 1));
      var j := end - taps;
      if j == m - 1 {
        AddTapNone(s, x, h);
      } else if 0 <= j < m - 1 {
        AddTapSwap(s, xs[j], coeffs[taps], x, h);
      }
    }
  }

  lemma {:induction false} NoTaps(coeffs: seq<real>, xs: seq<Cx<real>>, end: int, m: nat)
    requires m <= |xs|
    ensures Superposed(coeffs, 0, xs, end, m) == Cx(0.0, 0.0)
  {
    hide AddTap;
    if m > 0 {
      NoTaps(coeffs, xs, end, m - 1);
      AddTapNone(Cx(0.0, 0.0), xs[m - 1], 0.0);
    }
  }

  lemma {:induction false} ConvolveSuperposes(a: Arith<real>, coeffs: seq<real>, xs: seq<Cx<real>>, end: int, taps: nat)
    requires a == Reals(a.table) && taps <= |coeffs|
    ensures Convolve(a, coeffs, xs, end, taps) == Superposed(coeffs, taps, xs, end, |xs|)
  {
    hide Superposed, AddTap, Convolve, Reals;
    if taps == 0 {
      NoTaps(coeffs, xs, end, |xs|);
      PlainStart(a, coeffs, xs, end);
    } else {
      ConvolveSuperposes(a, coeffs, xs, end, taps - 1);
      OneTapMore(coeffs, taps - 1, xs, end, |xs|);
      PlainTap(a, coeffs, xs, end, taps - 1);
    }
  }

  lemma PlainStart(a: Arith<real>, coeffs: seq<real>, xs: seq<Cx<real>>, end: int)
    requires a == Reals(a.table)
    ensures Convolve(a, coeffs, xs, end, 0) == Cx(0.0, 0.0)
  {}

  lemma PlainTap(a: Arith<real>, coeffs: seq<real>, xs: seq<Cx<real>>, end: int, k: nat)
    requires a == Reals(a.table) && k < |coeffs|
    ensures var s, j := Convolve(a, coeffs, xs, end, k), end - k;
            Convolve(a, coeffs, xs, end, k + 1) == if 0 <= j < |xs| then AddTap(s, xs[j], coeffs[k]) else s
  {
    hide Convolve;
    ConvolveNext(a, coeffs, xs, end, k);
    var x, c := Sample(a, xs, end - k), coeffs[k];
    Commutes(x.i, c);
    Commutes(x.q, c);
    AddTapNone(Convolve(a, coeffs, xs, end, k), x, c);
  }

  lemma Commutes(x: real, y: real)
    ensures x * y == y * x
  {}

  /** Output m of a stage is the sum over all its inputs j of x[j] * h[(m+1)*D - 1 - j], where h
      is the row of coefficients: each input contributes one shifted impulse response. */
  lemma StageIsConvolution(a: Arith<real>, st: StageCfg<real>, xs: seq<Cx<real>>, m: nat)
    requires a == Reals(a.table) && m < |xs| / st.decimation
    ensures Decimate(a, st, xs)[m] == Superposed(st.coeffs, |st.coeffs|, xs, (m + 1) * st.decimation - 1, |xs|)
  {
    hide Superposed, Convolve;
    assert Decimate(a, st, xs)[m] == Fir(a, st, xs, (m + 1) * st.decimation - 1);
    ConvolveSuperposes(a, st.coeffs, xs, (m + 1) * st.decimation - 1, |st.coeffs|);
  }

  // ---- Raw mode ----

  /** A stage of one coefficient 1 and factor 1 is no stage at all. */
  lemma PassesThrough(a: Arith<real>, xs: seq<Cx<real>>)
    requires a == Reals(a.table)
    ensures Cascade(a, [StageCfg([1.0], 1)], xs) == xs
  {
    var st: StageCfg<real> := StageCfg([1.0], 1);
    forall m: nat | m < |xs| ensures Decimate(a, st, xs)[m] == xs[m] {
      assert Decimate(a, st, xs)[m] == Fir(a, st, xs, (m + 1) * 1 - 1);
      PlainStart(a, [1.0], xs, m);
      PlainTap(a, [1.0], xs, m, 0);
    }
    assert Decimate(a, st, xs) == xs;
    assert [st][1..] == [];
  }

  /** Without an offset, at the capture rate and bandwidth, only the notch is left: each output
      component is the scaled and limited notch of its own input component. */
  lemma RawIsNotch(cfg: Config<real>, w: Complex, bytes: seq<byte>, n: nat)
    requires Unrounded(cfg) && CosineTable(cfg.arith.table, w)
    requires cfg.phaseInc == 0 && cfg.stages == [StageCfg([1.0], 1)]
    requires |bytes| % 2 == 0 && n < |bytes| / 2
    ensures ValidConfig(cfg) && |Channelize(cfg, bytes)| == |bytes|
    ensures var out := Channelize(cfg, bytes);
            && out[2 * n] == Saturated(NotchedAt(cfg.alpha, bytes, 0, n))
            && out[2 * n + 1] == Saturated(NotchedAt(cfg.alpha, bytes, 1, n))
  {
    hide Mixed, Cascade, NotchedAt, CosineTable, Saturated, CMul, Pow, Conj, PhaseStep;
    PassesThrough(cfg.arith, Mixed(cfg, bytes));
    MixedClosedForm(cfg, w, bytes, n);
    NoTurn(w, n);
    Unturned(NotchedAt(cfg.alpha, bytes, 0, n), NotchedAt(cfg.alpha, bytes, 1, n));
  }

  lemma NoTurn(w: Complex, n: nat)
    ensures Conj(Pow(Complexes(), w, PhaseStep(0, n))) == Complex(1.0, 0.0)
  {
    assert n * 0 == 0;
    assert PhaseStep(0, n) == 0;
  }

  lemma Unturned(i: real, q: real)
    ensures CMul(Complex(i, q), Complex(1.0, 0.0)) == Complex(i, q)
  {}
}
