/** src/rtl_dsp.c: the streaming channelizer on masked circular delay lines. */
module Dsp {
  import opened Words
  import opened Bits
  import opened Channelizer

  method NextPow2(n: nat) returns (p: nat, ghost k: nat)
    ensures p == Pow2(k) && n <= p && (k > 0 ==> p / 2 < n)
  {
    p, k := 1, 0;
    while p < n
      invariant p == Pow2(k) && (k > 0 ==> p / 2 < n)
      decreases n - p
    {
      p := p * 2;
      k := k + 1;
    }
  }

  lemma SizeBound(k: nat, n: nat)
    requires n <= 16383 && (k > 0 ==> Pow2(k) / 2 < n)
    ensures k <= 14 && Pow2(k) <= 0x4000
  {
    assert Pow2(14) == 0x4000 by { assert Pow2(8) == 256; Pow2Add(6, 8); }
    if k > 14 { Pow2Monotone(14, k); }
    if k < 14 { Pow2Monotone(k, 14); }
  }

  /** Slot i % size of the delay line holds sample i of the stream. */
  ghost predicate Delayed<F>(a: Arith<F>, di: seq<F>, dq: seq<F>, xs: seq<Cx<F>>, size: nat, i: int) {
    && size > 0 && |di| == |dq| == size
    && Cx(di[i % size], dq[i % size]) == Sample(a, xs, i)
  }

  /** The lines hold the last `size` samples. */
  ghost predicate Line<F>(a: Arith<F>, di: seq<F>, dq: seq<F>, xs: seq<Cx<F>>, size: nat) {
    forall i: int :: |xs| - size <= i < |xs| ==> Delayed(a, di, dq, xs, size, i)
  }

  lemma LineNext<F>(a: Arith<F>, di: seq<F>, dq: seq<F>, xs: seq<Cx<F>>, size: nat, at: nat, v: Cx<F>)
    requires size > 0 && |di| == |dq| == size && at == |xs| % size && Line(a, di, dq, xs, size)
    ensures Line(a, di[at := v.i], dq[at := v.q], xs + [v], size)
  {
    var n, ei, eq, ys := |xs|, di[at := v.i], dq[at := v.q], xs + [v];
    forall i: int | n + 1 - size <= i < n + 1 ensures Delayed(a, ei, eq, ys, size, i) {
      if i < n {
        assert Delayed(a, di, dq, xs, size, i);
        ModDistinct(i, n, size);
      }
    }
  }

  lemma ModNext(n: nat, size: nat)
    requires size > 0
    ensures (n % size + 1) % size == (n + 1) % size
  {
    ModShift(n, -1, size);
  }

  lemma TapIndex(n: nat, j: nat, k: nat)
    requires k <= 14 && Pow2(k) <= 0x4000 && j < Pow2(k)
    ensures MaskInt(n % Pow2(k) - 1 - j, Pow2(k) - 1) == (n - 1 - j) % Pow2(k)
  {
    MaskIntIsMod(n % Pow2(k) - 1 - j, k);
    ModShift(n, 1 + j, Pow2(k));
  }

  class Stage<F> {
    const arith: Arith<F>
    const cfg: StageCfg<F>
    const bufSize: nat
    const bufMask: nat
    ghost const bits: nat
    const delayI: array<F>
    const delayQ: array<F>
    var counter: nat
    var wp: nat
    ghost var xs: seq<Cx<F>>   // everything this stage has been fed

    ghost function Objects(): set<object> { {this, delayI, delayQ} }

    ghost predicate Valid()
      reads this, delayI, delayQ
    {
      && delayI != delayQ
      && 1 <= |cfg.coeffs| <= bufSize
      && bits <= 14 && bufSize == Pow2(bits) <= 0x4000 && bufMask == bufSize - 1
      && (bits > 0 ==> bufSize / 2 < |cfg.coeffs|)
      && delayI.Length == delayQ.Length == bufSize
      && wp == |xs| % bufSize && wp < bufSize
      && Line(arith, delayI[..], delayQ[..], xs, bufSize)
    }

    constructor (arith: Arith<F>, cfg: StageCfg<F>)
      requires 1 <= |cfg.coeffs| <= 16383
      ensures Valid() && Counted() && fresh(delayI) && fresh(delayQ) && xs == [] && counter == 0
      ensures this.arith == arith && this.cfg == cfg
    {
      hide Pow2;
      var size, k := NextPow2(|cfg.coeffs|);
      SizeBound(k, |cfg.coeffs|);
      this.arith := arith;
      this.cfg := cfg;
      bufSize, bufMask, bits := size, size - 1, k;
      var zero := arith.zero;
      var di := new F[size](_ => zero);
      var dq := new F[size](_ => zero);
      delayI, delayQ := di, dq;
      counter, wp := 0, 0;
      xs := [];
      new;
    }

    /** One sample into the delay line; the write position wraps by the mask. */
    method Push(v: Cx<F>)
      requires Valid()
      modifies this`wp, this`xs, delayI, delayQ
      ensures Valid() && xs == old(xs) + [v]
    {
      hide Line, Pow2, MaskInt;
      LineNext(arith, delayI[..], delayQ[..], xs, bufSize, wp, v);
      MaskIntIsMod(wp + 1, bits);
      ModNext(|xs|, bufSize);
      delayI[wp] := v.i;
      delayQ[wp] := v.q;
      wp := MaskInt(wp + 1, bufMask);
      xs := xs + [v];
    }

    /** The filter loop: taps run backwards from the newest sample through the mask. */
    method FirOut() returns (o: Cx<F>)
      requires Valid()
      ensures o == Fir(arith, cfg, xs, |xs| - 1)
    {
      hide Valid, Sample, Convolve;
      ConvolveStart(arith, cfg.coeffs, xs, |xs| - 1);
      var si, sq := arith.zero, arith.zero;
      for j := 0 to |cfg.coeffs|
        invariant Cx(si, sq) == Convolve(arith, cfg.coeffs, xs, |xs| - 1, j)
      {
        var x := Tap(j);
        ConvolveNext(arith, cfg.coeffs, xs, |xs| - 1, j);
        si := arith.fadd(si, arith.fmul(cfg.coeffs[j], x.i));
        sq := arith.fadd(sq, arith.fmul(cfg.coeffs[j], x.q));
      }
      o := Cx(si, sq);
    }

    method Tap(j: nat) returns (x: Cx<F>)
      requires Valid() && j < |cfg.coeffs|
      ensures x == Sample(arith, xs, |xs| - 1 - j)
    {
      TapIndex(|xs|, j, bits);
      assert Delayed(arith, delayI[..], delayQ[..], xs, bufSize, |xs| - 1 - j);
      hide MaskInt, Pow2, Sample;
      var idx := MaskInt(wp - 1 - j, bufMask);
      x := Cx(delayI[idx], delayQ[idx]);
    }

    ghost predicate Counted()
      reads this
    {
      counter == |xs| % cfg.decimation
    }

    /** stage_run: the stage has now produced the decimation of everything it was fed. */
    method Run(v: Cx<F>) returns (o: Option<Cx<F>>)
      requires Valid() && Counted()
      modifies this`wp, this`counter, this`xs, delayI, delayQ
      ensures Valid() && Counted() && xs == old(xs) + [v]
      ensures Decimate(arith, cfg, xs) == Decimate(arith, cfg, old(xs)) + (if o.Some? then [o.value] else [])
    {
      DecimateSnoc(arith, cfg, xs, v);
      CountStep(|xs|, cfg.decimation);
      Push(v);
      counter := counter + 1;
      if counter >= cfg.decimation {
        counter := 0;
        var s := FirOut();
        return Some(s);
      }
      return None;
    }

    /** The memset of rtlsdr_dsp_reset. */
    method Reset()
      requires Valid()
      modifies this`wp, this`counter, this`xs, delayI, delayQ
      ensures Valid() && Counted() && xs == [] && counter == 0
    {
      forall i | 0 <= i < bufSize { delayI[i] := arith.zero; }
      forall i | 0 <= i < bufSize { delayQ[i] := arith.zero; }
      wp, counter := 0, 0;
      xs := [];
    }
  }

  /** The delay line, write position and counter of a stage are determined by its input. */
  lemma SameInputSameStage<F>(s: Stage<F>, s': Stage<F>)
    requires s.Valid() && s'.Valid() && s.cfg == s'.cfg && s.arith == s'.arith && s.xs == s'.xs
    requires s.Counted() && s'.Counted()
    ensures s.bufSize == s'.bufSize
    ensures s.delayI[..] == s'.delayI[..] && s.delayQ[..] == s'.delayQ[..]
    ensures s.wp == s'.wp && s.counter == s'.counter
  {
    if s.bits < s'.bits { Pow2Monotone(s.bits, s'.bits); }
    if s'.bits < s.bits { Pow2Monotone(s'.bits, s.bits); }
    forall p | 0 <= p < s.bufSize ensures s.delayI[p] == s'.delayI[p] && s.delayQ[p] == s'.delayQ[p] {
      DelayedAt(s, p);
      DelayedAt(s', p);
    }
  }

  /** Slot p holds the latest sample whose number is p modulo the size. */
  lemma DelayedAt<F>(s: Stage<F>, p: nat)
    requires s.Valid() && p < s.bufSize
    ensures Cx(s.delayI[p], s.delayQ[p]) ==
            Sample(s.arith, s.xs, |s.xs| - 1 - (|s.xs| - 1 - p) % s.bufSize)
  {
    hide Sample, Pow2;
    var n := |s.xs| - 1;
    ModBack(n, p, s.bufSize);
    assert Delayed(s.arith, s.delayI[..], s.delayQ[..], s.xs, s.bufSize, n - (n - p) % s.bufSize);
  }

  lemma ModBack(n: int, p: nat, size: nat)
    requires p < size
    ensures (n - (n - p) % size) % size == p
  {
    var q := (n - p) / size;
    assert n - (n - p) % size == q * size + p;
    ModUnique(n - (n - p) % size, q, p, size);
  }

  /** What stages k, k+1, ... make of the input of stage k. */
  function CascadeFrom<F>(cfg: Config<F>, k: nat, xs: seq<Cx<F>>): seq<Cx<F>>
    requires k <= |cfg.stages|
  {
    Cascade(cfg.arith, cfg.stages[k..], xs)
  }

  lemma CascadeStep<F>(cfg: Config<F>, k: nat, xs: seq<Cx<F>>)
    requires k < |cfg.stages|
    ensures CascadeFrom(cfg, k, xs) == CascadeFrom(cfg, k + 1, Decimate(cfg.arith, cfg.stages[k], xs))
  {
    assert cfg.stages[k..][1..] == cfg.stages[k + 1..];
  }

  /** Stage j + 1 has been fed the decimation of what stage j has been fed. */
  ghost predicate Linked<F>(cfg: Config<F>, ins: seq<seq<Cx<F>>>, j: nat) {
    j + 1 < |ins| == |cfg.stages| ==> ins[j + 1] == Decimate(cfg.arith, cfg.stages[j], ins[j])
  }

  ghost predicate Chained<F>(cfg: Config<F>, ins: seq<seq<Cx<F>>>, k: nat) {
    forall j: nat :: k <= j ==> Linked(cfg, ins, j)
  }

  class Dsp<F> {
    const cfg: Config<F>
    const stages: seq<Stage<F>>
    ghost const Repr: set<object>        // the objects of all stages
    var phase: nat
    var dcXI: F
    var dcXQ: F
    var dcYI: F
    var dcYQ: F
    ghost var hist: seq<byte>            // every byte processed since creation or reset
    ghost var ins: seq<seq<Cx<F>>>       // what each stage has been fed since then

    ghost predicate Built() {
      && ValidConfig(cfg) && |stages| == |cfg.stages|
      && (forall k :: 0 <= k < |stages| ==> stages[k].cfg == cfg.stages[k] && stages[k].arith == cfg.arith)
      && (forall j, k :: 0 <= j < k < |stages| ==> stages[j].Objects() !! stages[k].Objects())
      && (forall k :: 0 <= k < |stages| ==> stages[k].Objects() <= Repr) && this !in Repr
    }

    /** Every delay line holds its stage's input; from stage k on the counters agree with it. */
    ghost predicate Sound(k: nat)
      reads this`ins, Repr
    {
      && Built() && |ins| == |stages|
      && (forall j :: 0 <= j < |stages| ==> stages[j].xs == ins[j])
      && (forall j :: 0 <= j < |stages| ==> stages[j].Valid())
      && (forall j :: k <= j < |stages| ==> stages[j].Counted())
    }

    ghost predicate FrontSound()
      reads this
    {
      && |cfg.arith.table| == NCO_SIZE && cfg.phaseInc < U32
      && |hist| % 2 == 0 && |ins| > 0 && ins[0] == Mixed(cfg, hist)
      && FrontState(phase, dcXI, dcXQ, dcYI, dcYQ) == FrontAfter(cfg, hist)
    }

    ghost predicate Valid()
      reads this, Repr
    {
      Sound(0) && FrontSound() && Chained(cfg, ins, 0)
    }

    constructor (cfg: Config<F>)
      requires ValidConfig(cfg)
      ensures Valid() && hist == [] && this.cfg == cfg
      ensures fresh(Repr)
    {
      hide Stage.Valid, Stage.Counted, Chained, FrontAfter, Mixed;
      ghost var repr;
      var built;
      built, repr := CreateStages(cfg);
      this.cfg := cfg;
      stages := built;
      Repr := repr;
      phase := 0;
      var zero := cfg.arith.zero;
      dcXI, dcXQ, dcYI, dcYQ := zero, zero, zero, zero;
      hist := [];
      ins := seq(|cfg.stages|, _ => []);
      new;
      EmptyChain(cfg, ins);
      EmptyFront(cfg);
    }

    /** stage_run on one stage touches no other. */
    method RunStage(k: nat, v: Cx<F>) returns (o: Option<Cx<F>>)
      requires Sound(1) && 1 <= k < |stages|
      modifies this`ins, stages[k].Objects()
      ensures Sound(1) && stages[0].counter == old(stages[0].counter)
      ensures ins == old(ins)[k := old(ins)[k] + [v]]
      ensures Decimate(cfg.arith, cfg.stages[k], ins[k]) ==
              Decimate(cfg.arith, cfg.stages[k], old(ins)[k]) + (if o.Some? then [o.value] else [])
    {
      hide Stage.Valid, Decimate;
      o := stages[k].Run(v);
      ins := ins[k := ins[k] + [v]];
    }

    lemma Owned(k: nat)
      requires Built() && k < |stages|
      ensures stages[k].Objects() <= Repr
    {}

    /** The nested stage_run calls of the process functions: sample v enters stage k. */
    method PushFrom(k: nat, v: Cx<F>, ghost xk: seq<Cx<F>>) returns (o: Option<Cx<F>>)
      requires 1 <= k <= |stages| == |cfg.stages| == |ins| && Built() && Sound(1) && Chained(cfg, ins, k)
      requires k < |stages| ==> xk == ins[k]
      modifies this`ins, Repr
      ensures Sound(1) && stages[0].counter == old(stages[0].counter)
      ensures Grown(cfg, old(ins), ins, k, v)
      ensures CascadeFrom(cfg, k, xk + [v]) == CascadeFrom(cfg, k, xk) + (if o.Some? then [o.value] else [])
      decreases |stages| - k
    {
      hide *;
      if k == |stages| {
        GrownNone(cfg, ins, k, v);
        CascadeEnd(cfg, xk);
        CascadeEnd(cfg, xk + [v]);
        return Some(v);
      }
      CascadeStep(cfg, k, xk);
      CascadeStep(cfg, k, xk + [v]);
      ghost var yk := Decimate(cfg.arith, cfg.stages[k], xk);
      ChainHead(cfg, ins, k);
      Owned(k);
      var r := RunStage(k, v);
      ChainTail(cfg, old(ins), ins, k);
      if r.None? {
        assert yk + [] == yk;
        GrownHere(cfg, old(ins), ins, k, v);
        return None;
      }
      ghost var mid := ins;
      o := PushFrom(k + 1, r.value, yk);
      GrownThrough(cfg, old(ins), mid, ins, k, v, r.value);
    }

    /** The notch and mixer of one STAGE1_BLOCK pass. */
    method FrontStep(bi: byte, bq: byte) returns (v: Cx<F>)
      requires |cfg.arith.table| == NCO_SIZE && phase < U32
      modifies this`phase, this`dcXI, this`dcXQ, this`dcYI, this`dcYQ
      ensures FrontState(phase, dcXI, dcXQ, dcYI, dcYQ) ==
              FrontNext(cfg, old(FrontState(phase, dcXI, dcXQ, dcYI, dcYQ)), bi, bq)
      ensures v == Mix(cfg, old(FrontState(phase, dcXI, dcXQ, dcYI, dcYQ)), bi, bq)
    {
      var a := cfg.arith;
      var c, s := Cos(a, phase), Sin(a, phase);
      var ri, rq := a.center(bi), a.center(bq);
      phase := (phase + cfg.phaseInc) % U32;
      dcYI := a.dadd(a.dsub(ri, dcXI), a.dmul(cfg.alpha, dcYI));
      dcYQ := a.dadd(a.dsub(rq, dcXQ), a.dmul(cfg.alpha, dcYQ));
      dcXI := ri;
      dcXQ := rq;
      var mi := a.narrow(a.dadd(a.dmul(dcYI, c), a.dmul(dcYQ, s)));
      var mq := a.narrow(a.dsub(a.dmul(dcYQ, c), a.dmul(dcYI, s)));
      v := Cx(mi, mq);
    }

    lemma Apart()
      requires Sound(0) || Sound(1)
      ensures this !in Repr && |stages| == |ins|
    {}

    /** One pass of the STAGE1_BLOCK loop: notch, mix, and one write to the first delay line. */
    method FeedOne(bi: byte, bq: byte)
      requires |stages| > 0 && Sound(1) && FrontSound()
      modifies this, stages[0].Objects()
      ensures Sound(1) && FrontSound() && stages[0].counter == old(stages[0].counter)
      ensures Fed(cfg, old(hist), old(ins), [bi, bq], hist, ins)
    {
      hide Sound, Mixed, FrontAfter, Mix, FrontNext;
      Apart();
      MixedSnoc(cfg, hist, bi, bq);
      var v := FrontStep(bi, bq);
      hist := hist + [bi, bq];
      PushFirst(v);
    }

    method PushFirst(v: Cx<F>)
      requires |stages| > 0 && Sound(1)
      modifies this`ins, stages[0].Objects()
      ensures Sound(1) && stages[0].counter == old(stages[0].counter)
      ensures ins == old(ins)[0 := old(ins)[0] + [v]]
    {
      hide Stage.Valid;
      stages[0].Push(v);
      ins := ins[0 := ins[0] + [v]];
    }

    /** stage1_next: completes the first stage's decimation block, or runs out of input. */
    method Stage1Next(input: seq<byte>, inIdx: nat) returns (idx: nat, fired: bool)
      requires Valid() && |input| % 2 == 0 && inIdx <= |input| && inIdx % 2 == 0
      modifies this, stages[0].Objects()
      ensures inIdx <= idx <= |input| && idx % 2 == 0 && (fired ==> idx > inIdx) && (!fired ==> idx == |input|)
      ensures Sound(0) && FrontSound() && Fed(cfg, old(hist), old(ins), input[inIdx..idx], hist, ins)
      ensures FirstStage(cfg, old(hist), hist, fired)
    {
      hide *;
      Ready();
      var s1 := stages[0];
      var available := (|input| - inIdx) / 2;
      if available == 0 {
        assert input[inIdx..inIdx] == [];
        FedNone(cfg, hist, ins);
        NoBlock(cfg, hist);
        return inIdx, false;
      }
      var count := s1.cfg.decimation - s1.counter;
      if available < count {
        count := available;
      }
      idx := FeedBlock(input, inIdx, count);
      FedCounts(cfg, old(hist), old(ins), input[inIdx..idx], hist, ins, count);
      fired := s1.counter + count == s1.cfg.decimation;
      SetCounter(if fired then 0 else s1.counter + count);
    }

    lemma Ready()
      requires Valid()
      ensures Sound(0) && Sound(1) && Built() && |ins| == |stages| == |cfg.stages| > 0
      ensures stages[0] in stages[0].Objects() && stages[0].Objects() <= Repr && Chained(cfg, ins, 0)
      ensures stages[0].cfg == cfg.stages[0]
      ensures stages[0].counter == (|hist| / 2) % cfg.stages[0].decimation < cfg.stages[0].decimation
      ensures |cfg.arith.table| == NCO_SIZE && |hist| % 2 == 0 && FrontSound()
      ensures ins[0] == Mixed(cfg, hist)
    {}

    method SetCounter(c: nat)
      requires Sound(1) && |stages| > 0 && c == |ins[0]| % cfg.stages[0].decimation
      modifies stages[0]
      ensures Sound(0) && stages[0].counter == c
    {
      stages[0].counter := c;
    }

    lemma FedStart()
      requires FrontSound()
      ensures Fed(cfg, hist, ins, [], hist, ins)
    {}

    /** STAGE1_BLOCK(count). */
    method FeedBlock(input: seq<byte>, inIdx: nat, count: nat) returns (idx: nat)
      requires |stages| > 0 && Sound(1) && FrontSound() && inIdx + 2 * count <= |input|
      modifies this, stages[0].Objects()
      ensures Sound(1) && FrontSound() && stages[0].counter == old(stages[0].counter)
      ensures idx == inIdx + 2 * count && Fed(cfg, old(hist), old(ins), input[inIdx..idx], hist, ins)
    {
      hide *;
      idx := inIdx;
      ghost var h0, i0 := hist, ins;
      FedStart();
      assert input[inIdx..idx] == [];
      for k := 0 to count
        invariant Sound(1) && FrontSound() && stages[0].counter == old(stages[0].counter)
        invariant idx == inIdx + 2 * k && Fed(cfg, h0, i0, input[inIdx..idx], hist, ins)
      {
        ghost var h, i := hist, ins;
        FeedOne(input[idx], input[idx + 1]);
        FedMore(cfg, h0, i0, input[inIdx..idx], h, i, [input[idx], input[idx + 1]], hist, ins);
        idx := idx + 2;
        assert input[inIdx..idx] == input[inIdx..idx - 2] + [input[idx - 2], input[idx - 1]];
      }
    }

    /** One turn of the process loop: the input up to the next first-stage output, if it
        lasts that long, and what that output sets off in the later stages. */
    method Turn(input: seq<byte>, inIdx: nat) returns (idx: nat, fired: bool, o: Option<Cx<F>>)
      requires Valid() && |input| % 2 == 0 && inIdx <= |input| && inIdx % 2 == 0
      modifies this, Repr
      ensures Valid() && inIdx <= idx <= |input| && idx % 2 == 0
      ensures (fired ==> idx > inIdx) && (!fired ==> idx == |input| && o.None?)
      ensures hist == old(hist) + input[inIdx..idx]
      ensures Outputs(cfg, hist) == Outputs(cfg, old(hist)) + (if o.Some? then [o.value] else [])
    {
      hide Sound, Built, Mixed, FrontAfter, Decimate, Chained, Grown, FirstStage, Fed, Outputs, Fir, CascadeFrom,
          Stage.Objects;
      Ready();
      ghost var h0, i0 := hist, ins;
      idx, fired := Stage1Next(input, inIdx);
      ghost var h1, i1 := hist, ins;
      FedFacts(cfg, h0, i0, input[inIdx..idx], h1, i1);
      if !fired {
        TurnNone(cfg, h0, i0, input[inIdx..idx], h1, i1);
        return idx, false, None;
      }
      TurnStart(cfg, h0, i0, input[inIdx..idx], h1, i1);
      Relaxed();
      var v := stages[0].FirOut();
      ghost var y := Decimate(cfg.arith, cfg.stages[0], i0[0]);
      o := PushFrom(1, v, y);
      TurnEnd(cfg, h0, h1, i1, ins, v, y, o);
      Restored();
    }

    /** rtlsdr_dsp_process: the call emits exactly what the channelizer of the whole byte
        history has beyond the channelizer of the history before the call. A rejected call
        changes nothing. */
    method Process(input: Option<seq<byte>>, inputLen: nat, output: array?<int16>, capacity: nat)
      returns (rc: int, outLen: nat)
      requires Valid() && (input.Some? ==> |input.value| == inputLen)
      requires output != null ==> capacity <= output.Length && output !in Repr
      modifies this, Repr, output
      ensures Valid()
      ensures rc == if input.None? || output == null || inputLen % 2 == 1 || capacity < inputLen then -1 else 0
      ensures rc == -1 ==> outLen == 0 && unchanged(this) && unchanged(Repr) && (output != null ==> unchanged(output))
      ensures rc == 0 ==> hist == old(hist) + input.value
      ensures rc == 0 ==> outLen <= inputLen && output[..outLen] == Emitted(cfg, old(hist), input.value)
      ensures rc == 0 ==> forall i :: outLen <= i < output.Length ==> output[i] == old(output[i])
    {
      outLen := 0;
      if input.None? || output == null || inputLen % 2 == 1 || capacity < inputLen {
        return -1, 0;
      }
      outLen := Stream(input.value, output);
      return 0, outLen;
    }

    /** The process loop, for any number of stages. */
    method Stream(input: seq<byte>, output: array<int16>) returns (outLen: nat)
      requires Valid() && |input| % 2 == 0 && |input| <= output.Length && output !in Repr
      modifies this, Repr, output
      ensures Valid() && hist == old(hist) + input
      ensures outLen <= |input| && output[..outLen] == Emitted(cfg, old(hist), input)
      ensures forall i :: outLen <= i < output.Length ==> output[i] == old(output[i])
    {
      hide Valid, Emitted, Outputs;
      ValidFacts();
      outLen := 0;
      var inIdx, more := 0, true;
      ghost var h0 := hist;
      assert h0 + input[..0] == h0;
      EmittedNone(cfg, h0);
      while more
        invariant Valid() && inIdx <= |input| && inIdx % 2 == 0 && (!more ==> inIdx == |input|)
        invariant hist == h0 + input[..inIdx]
        invariant outLen <= inIdx && output[..outLen] == Emitted(cfg, h0, input[..inIdx])
        invariant forall i :: outLen <= i < output.Length ==> output[i] == old(output[i])
        decreases |input| - inIdx, more
      {
        var idx, fired, o := Turn(input, inIdx);
        assert h0 + input[..inIdx] + input[inIdx..idx] == h0 + input[..idx];
        EmittedMore(cfg, h0, input[..inIdx], input[..idx], o);
        if o.Some? {
          ghost var done := output[..outLen];
          output[outLen] := cfg.arith.sat16(o.value.i);
          output[outLen + 1] := cfg.arith.sat16(o.value.q);
          outLen := outLen + 2;
          assert output[..outLen] == done + [cfg.arith.sat16(o.value.i), cfg.arith.sat16(o.value.q)];
        }
        inIdx, more := idx, fired;
      }
      assert input[..inIdx] == input;
    }

    lemma ValidFacts()
      requires Valid()
      ensures ValidConfig(cfg) && |hist| % 2 == 0
    {}

    /** rtlsdr_dsp_reset: back to the state of a new instance. */
    method Reset()
      requires Valid()
      modifies this, Repr
      ensures Valid() && hist == []
    {
      hide Sound, Chained;
      Apart();
      ResetStages();
      EmptyChain(cfg, ins);
      phase := 0;
      var zero := cfg.arith.zero;
      dcXI, dcXQ, dcYI, dcYQ := zero, zero, zero, zero;
      hist := [];
    }

    method ResetStages()
      requires Sound(0)
      modifies this`ins, Repr
      ensures Sound(0) && this !in Repr && |ins| == |cfg.stages| && |ins| > 0
      ensures forall j :: 0 <= j < |ins| ==> ins[j] == []
    {
      hide Stage.Valid, Stage.Counted;
      for k := 0 to |stages|
        invariant forall j :: 0 <= j < |stages| ==> stages[j].Valid()
        invariant forall j :: 0 <= j < k ==> stages[j].xs == [] && stages[j].Counted()
      {
        stages[k].Reset();
      }
      ins := seq(|stages|, _ => []);
    }

    lemma Relaxed()
      requires Sound(0)
      ensures Sound(1) && Built() && |ins| == |stages| == |cfg.stages| && |stages| > 0
      ensures stages[0].Valid() && stages[0].xs == ins[0] && stages[0].arith == cfg.arith
                && stages[0].cfg == cfg.stages[0]
      ensures stages[0].counter == |ins[0]| % cfg.stages[0].decimation
    {}

    lemma Restored()
      requires |stages| == |ins| == |cfg.stages| && |ins| > 0 && Sound(1)
      requires stages[0].counter == |ins[0]| % cfg.stages[0].decimation
      ensures Sound(0)
    {}
  }

  lemma EmptyChain<F>(cfg: Config<F>, ins: seq<seq<Cx<F>>>)
    requires |ins| == |cfg.stages| && forall j :: 0 <= j < |ins| ==> ins[j] == []
    ensures Chained(cfg, ins, 0)
  {}

  lemma EmptyFront<F>(cfg: Config<F>)
    requires |cfg.arith.table| == NCO_SIZE
    ensures FrontAfter(cfg, []) == FrontZero(cfg.arith) && Mixed(cfg, []) == []
  {}

  lemma EmittedNone<F>(cfg: Config<F>, h: seq<byte>)
    requires ValidConfig(cfg) && |h| % 2 == 0
    ensures Emitted(cfg, h, []) == []
  {
    hide Channelize;
    assert h + [] == h;
  }

  /** One more output sample, if any, is two more components. */
  lemma EmittedMore<F>(cfg: Config<F>, h: seq<byte>, done: seq<byte>, more: seq<byte>, o: Option<Cx<F>>)
    requires ValidConfig(cfg) && |cfg.arith.table| == NCO_SIZE
    requires |h| % 2 == 0 && |done| % 2 == 0 && |more| % 2 == 0 && done <= more
    requires Outputs(cfg, h + more) == Outputs(cfg, h + done) + (if o.Some? then [o.value] else [])
    ensures Emitted(cfg, h, more) == Emitted(cfg, h, done) +
              (if o.Some? then [cfg.arith.sat16(o.value.i), cfg.arith.sat16(o.value.q)] else [])
    ensures |Emitted(cfg, h, more)| <= |more|
  {
    hide Channelize, Outputs, Interleave, ValidConfig;
    ChannelizePrefix(cfg, h, done);
    ChannelizeCount(cfg, h, more);
    ChannelizeIs(cfg, h + done);
    ChannelizeIs(cfg, h + more);
    if o.Some? {
      InterleaveSnoc(cfg.arith, Outputs(cfg, h + done), o.value);
    } else {
      assert Outputs(cfg, h + done) + [] == Outputs(cfg, h + done);
    }
  }

  lemma ChannelizeIs<F>(cfg: Config<F>, h: seq<byte>)
    requires ValidConfig(cfg) && |h| % 2 == 0
    ensures Channelize(cfg, h) == Interleave(cfg.arith, Outputs(cfg, h))
  {
    hide Cascade, Mixed, Interleave;
  }

  lemma FedFacts<F>(cfg: Config<F>, h: seq<byte>, i: seq<seq<Cx<F>>>, bytes: seq<byte>, h': seq<byte>,
      i': seq<seq<Cx<F>>>)
    requires Fed(cfg, h, i, bytes, h', i')
    ensures h' == h + bytes && |i'| == |i| && |h'| % 2 == 0
  {
    hide Mixed;
  }

  lemma TurnNone<F>(cfg: Config<F>, h0: seq<byte>, i0: seq<seq<Cx<F>>>, bytes: seq<byte>, h1: seq<byte>,
      i1: seq<seq<Cx<F>>>)
    requires Fed(cfg, h0, i0, bytes, h1, i1) && FirstStage(cfg, h0, h1, false)
    requires |i0| == |cfg.stages| && Chained(cfg, i0, 0) && i0[0] == Mixed(cfg, h0)
    ensures Chained(cfg, i1, 0) && Outputs(cfg, h1) == Outputs(cfg, h0)
  {
    hide Mixed, Decimate;
    ChainTail(cfg, i0, i1, 0);
    assert Linked(cfg, i0, 0);
    forall j: nat ensures Linked(cfg, i1, j) {}
    CascadeStep(cfg, 0, Mixed(cfg, h0));
    CascadeStep(cfg, 0, Mixed(cfg, h1));
    var y := Decimate(cfg.arith, cfg.stages[0], Mixed(cfg, h0));
    assert y + [] == y && cfg.stages[0..] == cfg.stages;
  }

  lemma TurnStart<F>(cfg: Config<F>, h0: seq<byte>, i0: seq<seq<Cx<F>>>, bytes: seq<byte>, h1: seq<byte>,
      i1: seq<seq<Cx<F>>>)
    requires Fed(cfg, h0, i0, bytes, h1, i1) && |h0| % 2 == 0
    requires |i0| == |cfg.stages| && Chained(cfg, i0, 0) && i0[0] == Mixed(cfg, h0)
    ensures Chained(cfg, i1, 1) && i1[0] == Mixed(cfg, h1)
    ensures 1 < |i1| ==> i1[1] == Decimate(cfg.arith, cfg.stages[0], i0[0])
  {
    hide Mixed, Decimate;
    ChainTail(cfg, i0, i1, 0);
    assert Linked(cfg, i0, 0);
  }

  lemma TurnEnd<F>(cfg: Config<F>, h0: seq<byte>, h1: seq<byte>, i1: seq<seq<Cx<F>>>, i2: seq<seq<Cx<F>>>,
                   v: Cx<F>, y: seq<Cx<F>>, o: Option<Cx<F>>)
    requires FirstStage(cfg, h0, h1, true) && Grown(cfg, i1, i2, 1, v)
    requires |i1| == |cfg.stages| && i1[0] == Mixed(cfg, h1)
    requires y == Decimate(cfg.arith, cfg.stages[0], Mixed(cfg, h0)) && (1 < |i1| ==> i1[1] == y)
    requires v == Fir(cfg.arith, cfg.stages[0], i1[0], |i1[0]| - 1)
    requires CascadeFrom(cfg, 1, y + [v]) == CascadeFrom(cfg, 1, y) + (if o.Some? then [o.value] else [])
    ensures |i2| == |i1| && Chained(cfg, i2, 0) && i2[0] == i1[0]
    ensures Outputs(cfg, h1) == Outputs(cfg, h0) + (if o.Some? then [o.value] else [])
  {
    hide Mixed, Decimate, Fir;
    CascadeStep(cfg, 0, Mixed(cfg, h0));
    CascadeStep(cfg, 0, Mixed(cfg, h1));
    assert cfg.stages[0..] == cfg.stages;
    forall j: nat ensures Linked(cfg, i2, j) {}
  }

  /** The output samples for a byte history, before scaling. */
  function Outputs<F>(cfg: Config<F>, hist: seq<byte>): seq<Cx<F>>
    requires |cfg.arith.table| == NCO_SIZE && |hist| % 2 == 0
  {
    Cascade(cfg.arith, cfg.stages, Mixed(cfg, hist))
  }

  /** The first stage has been fed the mixed samples of `bytes`, no other stage anything. */
  ghost predicate Fed<F>(cfg: Config<F>, hist: seq<byte>, ins: seq<seq<Cx<F>>>, bytes: seq<byte>,
                         hist': seq<byte>, ins': seq<seq<Cx<F>>>) {
    && |cfg.arith.table| == NCO_SIZE && |ins| > 0
    && hist' == hist + bytes && |hist'| % 2 == 0
    && ins' == ins[0 := Mixed(cfg, hist')]
  }

  lemma FedNone<F>(cfg: Config<F>, hist: seq<byte>, ins: seq<seq<Cx<F>>>)
    requires |cfg.arith.table| == NCO_SIZE && |ins| > 0 && |hist| % 2 == 0 && ins[0] == Mixed(cfg, hist)
    ensures Fed(cfg, hist, ins, [], hist, ins)
  {}

  lemma FedMore<F>(cfg: Config<F>, h: seq<byte>, i: seq<seq<Cx<F>>>, bytes: seq<byte>, h1: seq<byte>,
      i1: seq<seq<Cx<F>>>,
                   more: seq<byte>, h2: seq<byte>, i2: seq<seq<Cx<F>>>)
    requires Fed(cfg, h, i, bytes, h1, i1) && Fed(cfg, h1, i1, more, h2, i2)
    ensures Fed(cfg, h, i, bytes + more, h2, i2)
  {
    hide Mixed;
  }

  /** Going from byte history `before` to `after`, the first stage has produced one more
      output, the convolution at its newest sample, or none. */
  ghost predicate FirstStage<F>(cfg: Config<F>, before: seq<byte>, after: seq<byte>, fired: bool) {
    && |cfg.arith.table| == NCO_SIZE && |cfg.stages| > 0 && |before| % 2 == 0 && |after| % 2 == 0
    && var a, st, xs, zs := cfg.arith, cfg.stages[0], Mixed(cfg, before), Mixed(cfg, after);
       Decimate(a, st, zs) == Decimate(a, st, xs) + if fired then [Fir(a, st, zs, |zs| - 1)] else []
  }

  lemma BlockCounts<F>(cfg: Config<F>, before: seq<byte>, chunk: seq<byte>, count: nat)
    requires |cfg.arith.table| == NCO_SIZE && |cfg.stages| > 0
    requires |before| % 2 == 0 && |chunk| == 2 * count
    requires (|before| / 2) % cfg.stages[0].decimation + count <= cfg.stages[0].decimation
    ensures var d, n := cfg.stages[0].decimation, |before| / 2;
            && (n % d + count < d ==>
                  FirstStage(cfg, before, before + chunk, false) && (n + count) % d == n % d + count)
            && (n % d + count == d ==> FirstStage(cfg, before, before + chunk, true) && (n + count) % d == 0)
  {
    hide Mixed, Decimate, Fir;
    var xs, zs := Mixed(cfg, before), Mixed(cfg, before + chunk);
    MixedPrefix(cfg, before, chunk);
    assert zs == xs + zs[|xs|..];
    DecimateBlock(cfg.arith, cfg.stages[0], xs, zs[|xs|..]);
  }

  lemma FedCounts<F>(cfg: Config<F>, h: seq<byte>, i: seq<seq<Cx<F>>>, bytes: seq<byte>, h': seq<byte>,
      i': seq<seq<Cx<F>>>, count: nat)
    requires |cfg.stages| > 0 && |h| % 2 == 0 && |bytes| == 2 * count && Fed(cfg, h, i, bytes, h', i')
    requires (|h| / 2) % cfg.stages[0].decimation + count <= cfg.stages[0].decimation
    ensures var d, c := cfg.stages[0].decimation, (|h| / 2) % cfg.stages[0].decimation + count;
            |i'| > 0 && FirstStage(cfg, h, h', c == d) && |i'[0]| % d == if c == d then 0 else c
  {
    hide Mixed, FirstStage;
    BlockCounts(cfg, h, bytes, count);
  }

  lemma NoBlock<F>(cfg: Config<F>, before: seq<byte>)
    requires |cfg.arith.table| == NCO_SIZE && |cfg.stages| > 0 && |before| % 2 == 0
    ensures FirstStage(cfg, before, before, false)
  {}

  /** The inputs of the stages before k are as they were, stage k has been fed v, and the
      chain from k on is intact. */
  ghost predicate Grown<F>(cfg: Config<F>, ins: seq<seq<Cx<F>>>, ins': seq<seq<Cx<F>>>, k: nat, v: Cx<F>) {
    && |ins'| == |ins|
    && (forall j :: 0 <= j < k && j < |ins| ==> ins'[j] == ins[j])
    && (k < |ins| ==> ins'[k] == ins[k] + [v])
    && Chained(cfg, ins', k)
  }

  lemma CascadeEnd<F>(cfg: Config<F>, xs: seq<Cx<F>>)
    ensures CascadeFrom(cfg, |cfg.stages|, xs) == xs
  {}

  lemma GrownNone<F>(cfg: Config<F>, ins: seq<seq<Cx<F>>>, k: nat, v: Cx<F>)
    requires k == |ins|
    ensures Grown(cfg, ins, ins, k, v)
  {}

  lemma ChainHead<F>(cfg: Config<F>, ins: seq<seq<Cx<F>>>, k: nat)
    requires Chained(cfg, ins, k) && k < |ins| == |cfg.stages|
    ensures k + 1 < |ins| ==> ins[k + 1] == Decimate(cfg.arith, cfg.stages[k], ins[k])
  {
    assert Linked(cfg, ins, k);
  }

  lemma ChainTail<F>(cfg: Config<F>, ins: seq<seq<Cx<F>>>, ins': seq<seq<Cx<F>>>, k: nat)
    requires Chained(cfg, ins, k) && k < |ins| == |ins'| && ins' == ins[k := ins'[k]]
    ensures Chained(cfg, ins', k + 1)
  {
    forall j: nat | k + 1 <= j ensures Linked(cfg, ins', j) {
      assert Linked(cfg, ins, j);
    }
  }

  lemma GrownHere<F>(cfg: Config<F>, ins: seq<seq<Cx<F>>>, ins': seq<seq<Cx<F>>>, k: nat, v: Cx<F>)
    requires k < |ins| == |cfg.stages| && ins' == ins[k := ins[k] + [v]] && Chained(cfg, ins', k + 1)
    requires k + 1 < |ins| ==> ins[k + 1] == Decimate(cfg.arith, cfg.stages[k], ins'[k])
    ensures Grown(cfg, ins, ins', k, v)
  {
    forall j: nat | k <= j ensures Linked(cfg, ins', j) {}
  }

  lemma GrownThrough<F>(cfg: Config<F>, ins: seq<seq<Cx<F>>>, mid: seq<seq<Cx<F>>>, ins': seq<seq<Cx<F>>>,
                        k: nat, v: Cx<F>, w: Cx<F>)
    requires k < |ins| == |cfg.stages| && mid == ins[k := ins[k] + [v]] && Grown(cfg, mid, ins', k + 1, w)
    requires k + 1 < |ins| ==> Decimate(cfg.arith, cfg.stages[k], mid[k]) == ins[k + 1] + [w]
    ensures Grown(cfg, ins, ins', k, v)
  {
    forall j: nat | k <= j ensures Linked(cfg, ins', j) {}
  }

  method CreateStages<F>(cfg: Config<F>) returns (built: seq<Stage<F>>, ghost repr: set<object>)
    requires ValidConfig(cfg)
    ensures |built| == |cfg.stages| && fresh(repr)
    ensures forall j :: 0 <= j < |built| ==>
              && built[j].cfg == cfg.stages[j] && built[j].arith == cfg.arith && built[j].Objects() <= repr
              && built[j].Valid() && built[j].Counted() && built[j].xs == []
    ensures forall i, j :: 0 <= i < j < |built| ==> built[i].Objects() !! built[j].Objects()
  {
    hide Stage.Valid, Stage.Counted;
    built, repr := [], {};
    for k := 0 to |cfg.stages|
      invariant |built| == k && fresh(repr)
      invariant forall j :: 0 <= j < k ==>
                  && built[j].cfg == cfg.stages[j] && built[j].arith == cfg.arith && built[j].Objects() <= repr
                  && built[j].Valid() && built[j].Counted() && built[j].xs == []
      invariant forall i, j :: 0 <= i < j < k ==> built[i].Objects() !! built[j].Objects()
    {
      var st := new Stage<F>(cfg.arith, cfg.stages[k]);
      built := built + [st];
      repr := repr + st.Objects();
    }
  }

  lemma {:induction false} SameChain<F>(cfg: Config<F>, ins: seq<seq<Cx<F>>>, ins': seq<seq<Cx<F>>>, k: nat)
    requires |ins| == |ins'| == |cfg.stages| && k < |ins| && ins[0] == ins'[0] && Chained(cfg, ins, 0)
              && Chained(cfg, ins', 0)
    ensures ins[k] == ins'[k]
  {
    hide Decimate;
    if k > 0 {
      SameChain(cfg, ins, ins', k - 1);
      assert Linked(cfg, ins, k - 1) && Linked(cfg, ins', k - 1);
    }
  }

  /** Every mutable word of the channelizer is a function of its configuration and of the bytes
      processed since creation or reset: not of how they were cut into calls, nor of anything
      before the reset. */
  lemma StateOfHistory<F>(a: Dsp<F>, b: Dsp<F>)
    requires a.Valid() && b.Valid() && a.cfg == b.cfg && a.hist == b.hist
    ensures a.phase == b.phase && a.dcXI == b.dcXI && a.dcXQ == b.dcXQ && a.dcYI == b.dcYI && a.dcYQ == b.dcYQ
    ensures |a.stages| == |b.stages|
    ensures forall k :: 0 <= k < |a.stages| ==>
              && a.stages[k].wp == b.stages[k].wp && a.stages[k].counter == b.stages[k].counter
              && a.stages[k].delayI[..] == b.stages[k].delayI[..] && a.stages[k].delayQ[..] == b.stages[k].delayQ[..]
  {
    hide Mixed, FrontAfter, Decimate, Chained, Stage.Valid, Stage.Objects;
    forall k | 0 <= k < |a.stages|
      ensures a.stages[k].wp == b.stages[k].wp && a.stages[k].counter == b.stages[k].counter
      ensures a.stages[k].delayI[..] == b.stages[k].delayI[..] && a.stages[k].delayQ[..] == b.stages[k].delayQ[..]
    {
      SameChain(a.cfg, a.ins, b.ins, k);
      SameInputSameStage(a.stages[k], b.stages[k]);
    }
  }
}
