/** What the channelizer of src/rtl_dsp.c computes, stated on whole streams: a DC notch and
    mixer over the bytes, then decimating filters in direct form. Arithmetic is a parameter,
    so every statement holds for the floating-point operations the source performs, in the
    order it performs them. */
module Channelizer {
  import opened Words
  import opened Bits
  import opened Sequences

  const NCO_SIZE := 65536

  datatype Arith<!F> = Arith(
    zero: F,
    center: byte -> F,      // an input byte minus 127.5
    dadd: (F, F) -> F,      // double precision
    dsub: (F, F) -> F,
    dmul: (F, F) -> F,
    narrow: F -> F,         // double to float
    fadd: (F, F) -> F,      // single precision
    fmul: (F, F) -> F,
    sat16: F -> int16,
    table: seq<F>)          // cosine, NCO_SIZE entries

  datatype StageCfg<+F> = StageCfg(coeffs: seq<F>, decimation: pos)

  datatype Config<!F> = Config(arith: Arith<F>, alpha: F, phaseInc: nat, stages: seq<StageCfg<F>>)

  ghost predicate ValidConfig<F>(cfg: Config<F>) {
    && |cfg.arith.table| == NCO_SIZE && cfg.phaseInc < U32
    && 1 <= |cfg.stages| <= 5
    && forall k :: 0 <= k < |cfg.stages| ==> 1 <= |cfg.stages[k].coeffs| <= 16383
  }

  // ---- DC notch and mixer ----

  datatype FrontState<+F> = FrontState(phase: nat, xi: F, xq: F, yi: F, yq: F)

  function FrontZero<F>(a: Arith<F>): FrontState<F> {
    FrontState(0, a.zero, a.zero, a.zero, a.zero)
  }

  function Cos<F>(a: Arith<F>, phase: nat): F
    requires |a.table| == NCO_SIZE && phase < U32
  {
    a.table[phase / 65536]
  }

  function Sin<F>(a: Arith<F>, phase: nat): F
    requires |a.table| == NCO_SIZE && phase < U32
  {
    a.table[(phase / 65536 - NCO_SIZE / 4) % NCO_SIZE]
  }

  function Notch<F>(cfg: Config<F>, x: F, x0: F, y0: F): F {
    var a := cfg.arith;
    a.dadd(a.dsub(x, x0), a.dmul(cfg.alpha, y0))
  }

  function FrontNext<F>(cfg: Config<F>, st: FrontState<F>, bi: byte, bq: byte): FrontState<F> {
    var ri, rq := cfg.arith.center(bi), cfg.arith.center(bq);
    FrontState((st.phase + cfg.phaseInc) % U32, ri, rq, Notch(cfg, ri, st.xi, st.yi), Notch(cfg, rq, st.xq, st.yq))
  }

  /** (yi + j*yq) * (cos - j*sin), with the notch output of this sample and the phase before it. */
  function Mix<F>(cfg: Config<F>, st: FrontState<F>, bi: byte, bq: byte): Cx<F>
    requires |cfg.arith.table| == NCO_SIZE && st.phase < U32
  {
    var a, n := cfg.arith, FrontNext(cfg, st, bi, bq);
    var c, s := Cos(a, st.phase), Sin(a, st.phase);
    Cx(a.narrow(a.dadd(a.dmul(n.yi, c), a.dmul(n.yq, s))), a.narrow(a.dsub(a.dmul(n.yq, c), a.dmul(n.yi, s))))
  }

  function FrontAfter<F>(cfg: Config<F>, bytes: seq<byte>): (st: FrontState<F>)
    requires |bytes| % 2 == 0
    ensures st.phase < U32
  {
    if bytes == [] then FrontZero(cfg.arith)
    else FrontNext(cfg, FrontAfter(cfg, bytes[..|bytes| - 2]), bytes[|bytes| - 2], bytes[|bytes| - 1])
  }

  /** The mixed samples of a byte stream, one for each I/Q pair. */
  function Mixed<F>(cfg: Config<F>, bytes: seq<byte>): (xs: seq<Cx<F>>)
    requires |cfg.arith.table| == NCO_SIZE && |bytes| % 2 == 0
    ensures |xs| == |bytes| / 2
  {
    if bytes == [] then []
    else
      var front := bytes[..|bytes| - 2];
      Mixed(cfg, front) + [Mix(cfg, FrontAfter(cfg, front), bytes[|bytes| - 2], bytes[|bytes| - 1])]
  }

  lemma MixedSnoc<F>(cfg: Config<F>, bytes: seq<byte>, bi: byte, bq: byte)
    requires |cfg.arith.table| == NCO_SIZE && |bytes| % 2 == 0
    ensures Mixed(cfg, bytes + [bi, bq]) == Mixed(cfg, bytes) + [Mix(cfg, FrontAfter(cfg, bytes), bi, bq)]
    ensures FrontAfter(cfg, bytes + [bi, bq]) == FrontNext(cfg, FrontAfter(cfg, bytes), bi, bq)
  {
    assert (bytes + [bi, bq])[..|bytes|] == bytes;
  }

  // ---- Decimating filters ----

  /** Sample n of a stream that is zero before its start. */
  function Sample<F>(a: Arith<F>, xs: seq<Cx<F>>, n: int): Cx<F> {
    if 0 <= n < |xs| then xs[n] else Cx(a.zero, a.zero)
  }

  /** The first `taps` terms of the convolution at sample `end`, summed in tap order. */
  function Convolve<F>(a: Arith<F>, coeffs: seq<F>, xs: seq<Cx<F>>, end: int, taps: nat): Cx<F>
    requires taps <= |coeffs|
  {
    if taps == 0 then Cx(a.zero, a.zero)
    else
      var acc, x := Convolve(a, coeffs, xs, end, taps - 1), Sample(a, xs, end - (taps - 1));
      Cx(a.fadd(acc.i, a.fmul(coeffs[taps - 1], x.i)), a.fadd(acc.q, a.fmul(coeffs[taps - 1], x.q)))
  }

  lemma ConvolveStart<F>(a: Arith<F>, coeffs: seq<F>, xs: seq<Cx<F>>, end: int)
    ensures Convolve(a, coeffs, xs, end, 0) == Cx(a.zero, a.zero)
  {}

  lemma ConvolveNext<F>(a: Arith<F>, coeffs: seq<F>, xs: seq<Cx<F>>, end: int, j: nat)
    requires j < |coeffs|
    ensures var acc, x := Convolve(a, coeffs, xs, end, j), Sample(a, xs, end - j);
            Convolve(a, coeffs, xs, end, j + 1) ==
            Cx(a.fadd(acc.i, a.fmul(coeffs[j], x.i)), a.fadd(acc.q, a.fmul(coeffs[j], x.q)))
  {}

  function Fir<F>(a: Arith<F>, st: StageCfg<F>, xs: seq<Cx<F>>, end: int): Cx<F> {
    Convolve(a, st.coeffs, xs, end, |st.coeffs|)
  }

  /** Output m of a stage is the convolution at input (m+1)*D - 1. */
  function Decimate<F>(a: Arith<F>, st: StageCfg<F>, xs: seq<Cx<F>>): (ys: seq<Cx<F>>)
    ensures |ys| == |xs| / st.decimation
  {
    seq(|xs| / st.decimation, m => Fir(a, st, xs, (m + 1) * st.decimation - 1))
  }

  function Cascade<F>(a: Arith<F>, stages: seq<StageCfg<F>>, xs: seq<Cx<F>>): seq<Cx<F>>
    decreases |stages|
  {
    if stages == [] then xs else Cascade(a, stages[1..], Decimate(a, stages[0], xs))
  }

  function Interleave<F>(a: Arith<F>, ys: seq<Cx<F>>): (r: seq<int16>)
    ensures |r| == 2 * |ys|
    ensures forall m :: 0 <= m < |ys| ==> r[2 * m] == a.sat16(ys[m].i) && r[2 * m + 1] == a.sat16(ys[m].q)
  {
    if ys == [] then [] else
      Interleave(a, ys[..|ys| - 1]) + [a.sat16(ys[|ys| - 1].i), a.sat16(ys[|ys| - 1].q)]
  }

  /** The whole channelizer, on everything received since the start. */
  function Channelize<F>(cfg: Config<F>, bytes: seq<byte>): seq<int16>
    requires ValidConfig(cfg) && |bytes| % 2 == 0
  {
    Interleave(cfg.arith, Cascade(cfg.arith, cfg.stages, Mixed(cfg, bytes)))
  }

  // ---- The stream laws ----

  lemma {:induction false} ConvolvePrefix<F>(a: Arith<F>, coeffs: seq<F>, xs: seq<Cx<F>>, ys: seq<Cx<F>>, end: int,
      taps: nat)
    requires taps <= |coeffs| && end < |xs|
    ensures Convolve(a, coeffs, xs + ys, end, taps) == Convolve(a, coeffs, xs, end, taps)
  {
    if taps > 0 {
      ConvolvePrefix(a, coeffs, xs, ys, end, taps - 1);
    }
  }

  lemma OutputWithinInput(m: nat, d: nat, n: nat)
    requires d >= 1 && m < n / d
    ensures (m + 1) * d <= n
  {
    var q := n / d;
    assert q * d <= n;
    assert (q - (m + 1)) * d >= 0;
    assert q * d == (m + 1) * d + (q - (m + 1)) * d;
  }

  /** Counting to the next output: one more input yields one more output exactly when the
      number of inputs reaches a multiple of the decimation. */
  lemma CountStep(n: nat, d: nat)
    requires d >= 1
    ensures (n % d + 1 == d) <==> (n + 1) % d == 0
    ensures (n + 1) % d == 0 ==> (n + 1) / d == n / d + 1 && (n / d + 1) * d == n + 1
    ensures (n + 1) % d != 0 ==> (n + 1) / d == n / d && (n + 1) % d == n % d + 1
  {
    var q, r := n / d, n % d;
    assert n == q * d + r;
    if r + 1 == d {
      assert (q + 1) * d == q * d + d;
      DivModUnique(n + 1, q + 1, 0, d);
    } else {
      DivModUnique(n + 1, q, r + 1, d);
    }
  }

  lemma DecimateSnoc<F>(a: Arith<F>, st: StageCfg<F>, xs: seq<Cx<F>>, x: Cx<F>)
    ensures Decimate(a, st, xs + [x]) ==
            Decimate(a, st, xs) + (if (|xs| + 1) % st.decimation == 0 then [Fir(a, st, xs + [x], |xs|)] else [])
  {
    var d := st.decimation;
    CountStep(|xs|, d);
    forall m | 0 <= m < |xs| / d
      ensures Decimate(a, st, xs + [x])[m] == Decimate(a, st, xs)[m]
    {
      OutputWithinInput(m, d, |xs|);
      var end := (m + 1) * d - 1;
      ConvolvePrefix(a, st.coeffs, xs, [x], end, |st.coeffs|);
      assert Decimate(a, st, xs)[m] == Fir(a, st, xs, end);
      assert Decimate(a, st, xs + [x])[m] == Fir(a, st, xs + [x], end);
    }
  }

  lemma {:induction false} DecimatePrefix<F>(a: Arith<F>, st: StageCfg<F>, xs: seq<Cx<F>>, ys: seq<Cx<F>>)
    ensures Decimate(a, st, xs) <= Decimate(a, st, xs + ys)
    decreases |ys|
  {
    if ys == [] {
      assert xs + ys == xs;
    } else {
      var n := |ys| - 1;
      DecimatePrefix(a, st, xs, ys[..n]);
      DecimateSnoc(a, st, xs + ys[..n], ys[n]);
      assert xs + ys == (xs + ys[..n]) + [ys[n]];
    }
  }

  lemma {:induction false} CascadePrefix<F>(a: Arith<F>, stages: seq<StageCfg<F>>, xs: seq<Cx<F>>, zs: seq<Cx<F>>)
    requires xs <= zs
    ensures Cascade(a, stages, xs) <= Cascade(a, stages, zs)
    decreases |stages|
  {
    if stages != [] {
      assert zs == xs + zs[|xs|..];
      DecimatePrefix(a, stages[0], xs, zs[|xs|..]);
      CascadePrefix(a, stages[1..], Decimate(a, stages[0], xs), Decimate(a, stages[0], zs));
    }
  }

  lemma {:induction false} MixedPrefix<F>(cfg: Config<F>, bytes: seq<byte>, more: seq<byte>)
    requires |cfg.arith.table| == NCO_SIZE && |bytes| % 2 == |more| % 2 == 0
    ensures Mixed(cfg, bytes) <= Mixed(cfg, bytes + more)
    decreases |more|
  {
    if more == [] {
      assert bytes + more == bytes;
    } else {
      var n := |more| - 2;
      MixedPrefix(cfg, bytes, more[..n]);
      assert (bytes + more)[..|bytes + more| - 2] == bytes + more[..n];
    }
  }

  function Product<F>(stages: seq<StageCfg<F>>): (p: nat)
    ensures p >= 1
  {
    if stages == [] then 1 else stages[0].decimation * Product(stages[1..])
  }

  lemma NestedFloor(n: nat, a: nat, b: nat)
    requires a >= 1 && b >= 1
    ensures a * b >= 1 && (n / a) / b == n / (a * b)
  {
    var q, r := n / a, n % a;
    var q', r' := q / b, q % b;
    assert n == q * a + r && q == q' * b + r';
    Regroup(q', b, r', a);
    PairBound(r', b, r, a);
    DivModUnique(n, q', r' * a + r, a * b);
  }

  lemma Regroup(q: nat, b: nat, r: nat, a: nat)
    ensures (q * b + r) * a == q * (a * b) + r * a
  {}

  lemma PairBound(r': nat, b: nat, r: nat, a: nat)
    requires r' < b && r < a
    ensures r' * a + r < a * b
  {
    assert (b - 1 - r') * a >= 0;
    assert b * a == (b - 1 - r') * a + r' * a + a;
  }

  /** N complex inputs give exactly floor(N / product of the factors) outputs. */
  lemma {:induction false} CascadeCount<F>(a: Arith<F>, stages: seq<StageCfg<F>>, xs: seq<Cx<F>>)
    ensures |Cascade(a, stages, xs)| == |xs| / Product(stages)
    decreases |stages|
  {
    if stages != [] {
      CascadeCount(a, stages[1..], Decimate(a, stages[0], xs));
      NestedFloor(|xs|, stages[0].decimation, Product(stages[1..]));
    }
  }

  lemma InterleaveSnoc<F>(a: Arith<F>, ys: seq<Cx<F>>, y: Cx<F>)
    ensures Interleave(a, ys + [y]) == Interleave(a, ys) + [a.sat16(y.i), a.sat16(y.q)]
  {
    assert (ys + [y])[..|ys|] == ys;
  }

  lemma InterleavePrefix<F>(a: Arith<F>, ys: seq<Cx<F>>, zs: seq<Cx<F>>)
    requires ys <= zs
    ensures Interleave(a, ys) <= Interleave(a, zs)
  {
    var r, r' := Interleave(a, ys), Interleave(a, zs);
    forall k | 0 <= k < |r| ensures r[k] == r'[k] {
      var m := k / 2;
      assert ys[m] == zs[m] && (k == 2 * m || k == 2 * m + 1);
    }
  }

  /** More input only appends output. */
  lemma ChannelizePrefix<F>(cfg: Config<F>, bytes: seq<byte>, more: seq<byte>)
    requires ValidConfig(cfg) && |bytes| % 2 == |more| % 2 == 0
    ensures Channelize(cfg, bytes) <= Channelize(cfg, bytes + more)
  {
    hide Mixed, Cascade, Interleave;
    var a, xs, zs := cfg.arith, Mixed(cfg, bytes), Mixed(cfg, bytes + more);
    MixedPrefix(cfg, bytes, more);
    CascadePrefix(a, cfg.stages, xs, zs);
    InterleavePrefix(a, Cascade(a, cfg.stages, xs), Cascade(a, cfg.stages, zs));
  }

  /** Output comes in pairs, floor(input pairs / product of the factors) of them, and never
      more components than there were bytes. */
  lemma ChannelizeCount<F>(cfg: Config<F>, bytes: seq<byte>, more: seq<byte>)
    requires ValidConfig(cfg) && |bytes| % 2 == |more| % 2 == 0
    ensures |Channelize(cfg, bytes)| == 2 * ((|bytes| / 2) / Product(cfg.stages))
    ensures |Channelize(cfg, bytes + more)| - |Channelize(cfg, bytes)| <= |more|
  {
    hide Mixed, Cascade, Interleave, Product;
    var a, xs, zs := cfg.arith, Mixed(cfg, bytes), Mixed(cfg, bytes + more);
    CascadeCount(a, cfg.stages, xs);
    CascadeCount(a, cfg.stages, zs);
    FloorGrowth(|xs|, |more| / 2, Product(cfg.stages));
  }

  lemma FloorGrowth(n: nat, k: nat, p: nat)
    requires p >= 1
    ensures n / p <= (n + k) / p <= n / p + k
  {
    if k > 0 {
      FloorGrowth(n, k - 1, p);
      CountStep(n + k - 1, p);
    }
  }

  /** Feeding part of a decimation block adds no output; completing it adds one. */
  lemma {:induction false} DecimateBlock<F>(a: Arith<F>, st: StageCfg<F>, xs: seq<Cx<F>>, ys: seq<Cx<F>>)
    requires |xs| % st.decimation + |ys| <= st.decimation
    ensures |xs| % st.decimation + |ys| < st.decimation ==>
              && Decimate(a, st, xs + ys) == Decimate(a, st, xs)
              && |xs + ys| % st.decimation == |xs| % st.decimation + |ys|
    ensures |xs| % st.decimation + |ys| == st.decimation ==>
              && Decimate(a, st, xs + ys) == Decimate(a, st, xs) + [Fir(a, st, xs + ys, |xs + ys| - 1)]
              && |xs + ys| % st.decimation == 0
    decreases |ys|
  {
    if ys == [] {
      assert xs + ys == xs;
    } else {
      var n := |ys| - 1;
      DecimateBlock(a, st, xs, ys[..n]);
      DecimateSnoc(a, st, xs + ys[..n], ys[n]);
      CountStep(|xs + ys[..n]|, st.decimation);
      assert xs + ys == (xs + ys[..n]) + [ys[n]];
    }
  }

  function Beyond(all: seq<int16>, done: seq<int16>): seq<int16> {
    if |done| <= |all| then all[|done|..] else []
  }

  /** What one call on `chunk` emits after `before` has been processed. */
  function Emitted<F>(cfg: Config<F>, before: seq<byte>, chunk: seq<byte>): seq<int16>
    requires ValidConfig(cfg) && |before| % 2 == 0 && |chunk| % 2 == 0
  {
    Beyond(Channelize(cfg, before + chunk), Channelize(cfg, before))
  }

  function EmittedByAll<F>(cfg: Config<F>, before: seq<byte>, chunks: seq<seq<byte>>): seq<int16>
    requires ValidConfig(cfg) && |before| % 2 == 0
    requires forall i :: 0 <= i < |chunks| ==> |chunks[i]| % 2 == 0
    decreases |chunks|
  {
    if chunks == [] then []
    else Emitted(cfg, before, chunks[0]) + EmittedByAll(cfg, before + chunks[0], chunks[1..])
  }

  /** Chunk boundaries do not matter: a sequence of calls emits what one call on the
      concatenation emits. */
  lemma {:induction false} ChunkInvariance<F>(cfg: Config<F>, before: seq<byte>, chunks: seq<seq<byte>>)
    requires ValidConfig(cfg) && |before| % 2 == 0
    requires forall i :: 0 <= i < |chunks| ==> |chunks[i]| % 2 == 0
    ensures |Flatten(chunks)| % 2 == 0
    ensures EmittedByAll(cfg, before, chunks) == Emitted(cfg, before, Flatten(chunks))
    decreases |chunks|
  {
    hide Channelize, ValidConfig;
    FlattenEven(chunks);
    if chunks == [] {
      assert before + Flatten(chunks) == before;
    } else {
      var c, rest := chunks[0], Flatten(chunks[1..]);
      ChunkInvariance(cfg, before + c, chunks[1..]);
      FlattenCons(c, chunks[1..]);
      assert [c] + chunks[1..] == chunks;
      ChannelizePrefix(cfg, before, c);
      ChannelizePrefix(cfg, before + c, rest);
      assert (before + c) + rest == before + Flatten(chunks);
    }
  }
}
