/** rtlsdr_dsp_create (src/rtl_dsp.c) builds a channelizer from a plan: every accepted request
    becomes a valid configuration with exactly the requested rate, tuned to the requested offset. */
module Instance {
  import opened Words
  import opened Bits
  import opened Channelizer
  import Baseband
  import Plan

  /** p / q to the nearest integer, halves away from zero. */
  function Rounded(p: int, q: pos): int {
    if p >= 0 then (2 * p + q) / (2 * q) else -((-2 * p + q) / (2 * q))
  }

  /** The phase increment for an offset in Hz: this fraction of a turn for each sample. */
  function PhaseInc(input: pos, offset: int): nat { Rounded(offset * U32, input) % U32 }

  /** One stage for each factor, with the planned number of coefficients. */
  ghost predicate BuiltFrom<F>(cfg: Config<F>, p: Plan.Plan, input: u64, offset: i64) {
    && |cfg.arith.table| == NCO_SIZE && input >= 1 && cfg.phaseInc == PhaseInc(input, offset)
    && |cfg.stages| == |p.factors| == |p.taps|
    && forall k :: 0 <= k < |cfg.stages| ==>
         cfg.stages[k].decimation == p.factors[k] && |cfg.stages[k].coeffs| == p.taps[k]
  }

  lemma {:induction false} SameProduct<F>(stages: seq<StageCfg<F>>, factors: seq<nat>)
    requires |stages| == |factors| && forall k :: 0 <= k < |stages| ==> stages[k].decimation == factors[k]
    ensures Product(stages) == Plan.Product(factors)
  {
    if stages != [] {
      SameProduct(stages[1..], factors[1..]);
    }
  }

  /** A planned instance turns N complex samples into exactly floor(N / (input / output)). */
  lemma PlannedRate<F>(input: u64, output: u64, bandwidth: u64, offset: i64, p: Plan.Plan, cfg: Config<F>,
      bytes: seq<byte>)
    requires Plan.Candidate(input, output, bandwidth, offset, p) && Plan.InBudget(p) && BuiltFrom(cfg, p, input, offset)
              && |bytes| % 2 == 0
    ensures ValidConfig(cfg) && 0 < output && input / output >= 1
    ensures |Channelize(cfg, bytes)| == 2 * ((|bytes| / 2) / (input / output))
  {
    hide Plan.Candidate, Plan.InBudget, Channelize, Plan.Product, Product, Plan.Rate;
    Plan.PlanShape(input, output, bandwidth, offset, p);
    forall k | 0 <= k < |p.factors| ensures 1 <= p.taps[k] <= 16383 {
      Plan.PlanFilters(input, output, bandwidth, offset, p, k);
    }
    SameProduct(cfg.stages, p.factors);
    ChannelizeCount(cfg, bytes, []);
  }

  /** No integer is nearer to p / q than r. */
  predicate Nearest(r: int, p: int, q: int) { q > 0 && 2 * (r * q - p) <= q && 2 * (p - r * q) <= q }

  lemma RoundedNearest(p: int, q: pos)
    ensures Nearest(Rounded(p, q), p, q)
  {
    var a: nat := if p >= 0 then p else -p;
    var d := (2 * a + q) / (2 * q);
    assert 2 * a + q == (2 * q) * d + (2 * a + q) % (2 * q);
    assert (2 * q) * d == 2 * (d * q);
    assert (0 - d) * q == 0 - d * q;
  }

  lemma Bounded(r: int, q: int, p: int, bound: int)
    requires Nearest(r, p, q) && p <= bound * q
    ensures r <= bound
  {
    assert (r - bound) * q == r * q - bound * q;
    BelowOne(r - bound, q);
  }

  lemma BelowOne(k: int, q: int)
    requires q > 0 && k * q < q
    ensures k <= 0
  {
    assert k >= 1 ==> k * q >= q;
  }

  lemma Mirrored(r: int, p: int, q: int)
    requires Nearest(r, p, q)
    ensures Nearest(-r, -p, q)
  {
    assert (-r) * q == -(r * q);
  }

  lemma PhaseOf(n: nat, r: int)
    ensures (n * (r % U32)) % U32 == (n * r) % U32
  {
    var k := r / U32;
    assert r == r % U32 + k * U32;
    assert n * r == n * (r % U32) + (n * k) * U32;
    ModPlusMultiple(n * (r % U32), n * k, U32);
  }

  /** The oscillator of a planned instance has turned by n * r after n samples, where r is the
      offset in units of the capture rate over 2^32 to the nearest unit, at most half a turn
      either way: the mixer is tuned to within the rate over 2^33 of the offset. */
  lemma PlannedTuning<F>(input: u64, output: u64, bandwidth: u64, offset: i64, p: Plan.Plan, cfg: Config<F>,
      bytes: seq<byte>)
    requires Plan.Candidate(input, output, bandwidth, offset, p) && BuiltFrom(cfg, p, input, offset) && |bytes| % 2 == 0
    ensures var r := Rounded(offset * U32, input);
            && FrontAfter(cfg, bytes).phase == (|bytes| / 2 * r) % U32
            && Nearest(r, offset * U32, input) && -(U32 / 2) <= r <= U32 / 2
  {
    hide Rounded, FrontAfter, Nearest, Plan.Candidate;
    var r := Rounded(offset * U32, input);
    Baseband.PhaseAfter(cfg, bytes);
    PhaseOf(|bytes| / 2, r);
    RoundedNearest(offset * U32, input);
    HalfRate(input, output, bandwidth, offset, p);
    Bounded(r, input, offset * U32, U32 / 2);
    Mirrored(r, offset * U32, input);
    Bounded(-r, input, -(offset * U32), U32 / 2);
  }

  lemma HalfRate(input: u64, output: u64, bandwidth: u64, offset: i64, p: Plan.Plan)
    requires Plan.Candidate(input, output, bandwidth, offset, p)
    ensures offset * U32 <= U32 / 2 * input && -(offset * U32) <= U32 / 2 * input
  {
    hide Plan.Candidate, Plan.Product, Plan.Descending;
    Plan.PlanShape(input, output, bandwidth, offset, p);
  }
}
