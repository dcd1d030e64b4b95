/** make_plan (src/rtl_dsp.c): factoring the decimation ratio and sizing the filters. */
module Plan {
  import opened Bits
  import opened Words

  const MAX_TAPS := 16383
  const MAX_STAGES := 5
  const MAX_RATIO := 4096

  // ---- Factoring ----

  predicate Divides(d: nat, r: nat) {
    d > 0 && r % d == 0
  }

  ghost predicate Prime(p: nat) {
    p >= 2 && forall d: nat :: 2 <= d < p ==> !Divides(d, p)
  }

  function Square(d: nat): nat { d * d }

  lemma SquareMonotone(a: nat, b: nat)
    requires a <= b
    ensures Square(a) <= Square(b)
  {
    assert b * b == a * a + a * (b - a) + b * (b - a);
  }

  /** The least f >= from with f*f <= r that divides r, or 0. */
  function Search(r: nat, from: nat): nat
    requires from >= 1
    decreases r - from
  {
    if Square(from) > r then 0
    else if Divides(from, r) then from
    else if from >= r then 0
    else Search(r, from + 1)
  }

  lemma {:induction false} SearchFinds(r: nat, from: nat)
    requires from >= 1
    ensures Search(r, from) != 0 ==>
              && Search(r, from) >= from && Square(Search(r, from)) <= r && Divides(Search(r, from), r)
              && forall d: nat :: from <= d < Search(r, from) ==> !Divides(d, r)
    ensures Search(r, from) == 0 ==> forall d: nat :: from <= d && Square(d) <= r ==> !Divides(d, r)
    decreases r - from
  {
    hide Square, Divides;
    if Square(from) > r {
      forall d: nat | from <= d ensures Square(d) > r {
        SquareMonotone(from, d);
      }
    } else if !Divides(from, r) {
      if from >= r {
        SelfDivides(r, from);
      } else {
        SearchFinds(r, from + 1);
      }
    }
  }

  lemma SelfDivides(r: nat, d: nat)
    requires d >= 1 && d >= r && Square(d) <= r
    ensures Divides(d, r)
  {
    assert d * d >= d;
    assert d >= 2 ==> d * d >= 2 * d;
  }

  /** The factor split off next: 4, 3 or 2 when one divides, else the least larger one. */
  function NextFactor(r: nat): nat {
    if Divides(4, r) then 4 else if Divides(3, r) then 3 else if Divides(2, r) then 2 else Search(r, 5)
  }

  lemma NextFactorSplits(r: nat)
    requires r >= 2 && NextFactor(r) != 0
    ensures Divides(NextFactor(r), r) && NextFactor(r) >= 2 && 1 <= r / NextFactor(r) < r
    ensures NextFactor(r) * (r / NextFactor(r)) == r
  {
    hide Divides, Square;
    SearchFinds(r, 5);
    Quotient(r, NextFactor(r));
  }

  lemma Quotient(r: nat, f: nat)
    requires r >= 1 && f >= 2 && Divides(f, r)
    ensures f * (r / f) == r && 1 <= r / f < r
  {
    var q := r / f;
    assert r == f * q;
    Twofold(f, q);
  }

  lemma Twofold(f: nat, q: nat)
    requires f >= 2
    ensures f * q >= 2 * q
  {
    assert f * q == 2 * q + (f - 2) * q;
    assert (f - 2) * q >= 0;
  }

  function Factors(r: nat, n: nat): seq<nat>
    requires r >= 1
    decreases r
  {
    if r == 1 then (if n == 0 then [1] else [])
    else if n >= MAX_STAGES - 1 || NextFactor(r) == 0 then [r]
    else
      NextFactorSplits(r);
      [NextFactor(r)] + Factors(r / NextFactor(r), n + 1)
  }

  // ---- What the factors are ----

  /** A factor of a factor is a factor. */
  lemma DividesThrough(d: nat, f: nat, r: nat)
    requires Divides(d, f) && Divides(f, r)
    ensures Divides(d, r)
  {
    var a, b := f / d, r / f;
    assert f == d * a && r == f * b;
    assert r == d * (a * b);
    MultipleDivides(d, a * b);
  }

  lemma MultipleDivides(d: nat, q: nat)
    requires d > 0
    ensures Divides(d, d * q)
  {
    var m := d * q;
    var k := m / d - q;
    assert d * k + m % d == 0;
    assert k >= 1 ==> d * k >= d;
    assert k <= -1 ==> d * k + d <= 0;
  }

  /** The smaller of two cofactors has a square within the number. */
  lemma Cofactor(d: nat, r: nat) returns (e: nat)
    requires 2 <= d < r && Divides(d, r)
    ensures 2 <= e && Divides(e, r) && Square(e) <= r
  {
    var q := r / d;
    assert r == d * q;
    assert q == 0 ==> d * q == 0;
    assert q == 1 ==> d * q == d;
    if d <= q {
      e := d;
      Shorter(d, q);
    } else {
      e := q;
      Shorter(q, d);
      MultipleDivides(q, d);
    }
  }

  lemma Shorter(a: nat, b: nat)
    requires a <= b
    ensures a * a <= a * b && a * b == b * a
  {
    assert a * b == a * a + a * (b - a);
  }

  /** Each factor split off is 4 or a prime, and when none is left the rest is a prime. */
  lemma NextFactorPrime(r: nat)
    requires r >= 2
    ensures NextFactor(r) != 0 ==> NextFactor(r) == 4 || Prime(NextFactor(r))
    ensures NextFactor(r) == 0 ==> Prime(r)
  {
    SearchFinds(r, 5);
    var f := NextFactor(r);
    if Divides(4, r) || Divides(3, r) || Divides(2, r) {
      SmallPrimes();
    } else if f != 0 {
      LeastIsPrime(r, f);
    } else {
      hide Divides, Square;
      forall d: nat | 2 <= d < r ensures !Divides(d, r) {
        if Divides(d, r) {
          var e := Cofactor(d, r);
        }
      }
    }
  }

  lemma SmallPrimes()
    ensures Prime(2) && Prime(3)
  {}

  lemma LeastIsPrime(r: nat, f: nat)
    requires f >= 5 && Divides(f, r) && !Divides(2, r) && !Divides(3, r) && !Divides(4, r)
    requires forall d: nat :: 5 <= d < f ==> !Divides(d, r)
    ensures Prime(f)
  {
    hide Divides;
    forall d: nat | 2 <= d < f ensures !Divides(d, f) {
      if Divides(d, f) {
        DividesThrough(d, f, r);
      }
    }
  }

  function Product(fs: seq<nat>): nat {
    if fs == [] then 1 else fs[0] * Product(fs[1..])
  }

  /** The factors multiply to the ratio, there are one to five of them, and each is 4 or a
      prime, except that the fifth may be whatever is left. */
  lemma {:induction false} FactorsOf(r: nat, n: nat)
    requires r >= 1 && n < MAX_STAGES
    ensures Product(Factors(r, n)) == r && n + |Factors(r, n)| <= MAX_STAGES && (n == 0 ==> |Factors(r, n)| >= 1)
    ensures forall i :: 0 <= i < |Factors(r, n)| ==> Factors(r, n)[i] >= 1
    ensures r > 1 ==> forall i :: 0 <= i < |Factors(r, n)| && n + i < MAX_STAGES - 1 ==>
                        Factors(r, n)[i] == 4 || Prime(Factors(r, n)[i])
    decreases r
  {
    hide NextFactor, Prime;
    if r > 1 {
      NextFactorPrime(r);
      var f := NextFactor(r);
      if n < MAX_STAGES - 1 && f != 0 {
        NextFactorSplits(r);
        FactorsOf(r / f, n + 1);
        var rest := Factors(r / f, n + 1);
        assert Factors(r, n) == [f] + rest;
        assert ([f] + rest)[1..] == rest;
      } else {
        assert Factors(r, n) == [r] && [r][1..] == [];
      }
    }
  }

  /** The factor preferred for what is left: 4, else 3, else 2, else the least prime. */
  ghost predicate Preferred(f: nat, left: nat) {
    && (Divides(4, left) ==> f == 4)
    && (!Divides(4, left) && Divides(3, left) ==> f == 3)
    && (!Divides(4, left) && !Divides(3, left) && Divides(2, left) ==> f == 2)
    && (!Divides(3, left) && !Divides(2, left) ==> forall d: nat :: 2 <= d < f ==> !Divides(d, left))
  }

  lemma NextFactorPreferred(r: nat)
    requires r >= 2
    ensures Preferred(if NextFactor(r) == 0 then r else NextFactor(r), r)
  {
    SearchFinds(r, 5);
    NextFactorPrime(r);
    hide Square, Search;
    if !Divides(2, r) { NotFour(r); }
  }

  lemma NotFour(r: nat)
    requires !Divides(2, r)
    ensures !Divides(4, r)
  {}

  /** Each factor but a fifth is the preferred one for the product of itself and those after it:
      a stage of 2 is taken only when neither 4 nor 3 divides what is left. */
  lemma {:induction false} FactorsPreferred(r: nat, n: nat, i: nat)
    requires r >= 2 && i < |Factors(r, n)| && n + i < MAX_STAGES - 1
    ensures Preferred(Factors(r, n)[i], Product(Factors(r, n)[i..]))
    decreases r
  {
    hide NextFactor, Preferred, Product;
    FactorsOf(r, n);
    FactorsStep(r, n);
    if i == 0 {
      NextFactorPreferred(r);
      assert Factors(r, n)[0..] == Factors(r, n);
    } else {
      var f := NextFactor(r);
      var rest := Factors(r / f, n + 1);
      assert Factors(r, n)[i..] == rest[i - 1..];
      FactorsPreferred(r / f, n + 1, i - 1);
    }
  }

  // ---- Descending order ----

  ghost predicate Descending(fs: seq<nat>) {
    forall i, j :: 0 <= i < j < |fs| ==> fs[i] >= fs[j]
  }

  /** A sequence without its i-th element. */
  function Without(fs: seq<nat>, i: nat): seq<nat>
    requires i < |fs|
  {
    fs[..i] + fs[i + 1..]
  }

  lemma WithoutTail(fs: seq<nat>, i: nat)
    requires 0 < i < |fs|
    ensures Without(fs, i) == [fs[0]] + Without(fs[1..], i - 1)
  {
    assert fs[..i] == [fs[0]] + fs[1..][..i - 1];
    assert fs[1..][i..] == fs[i + 1..];
  }

  lemma WithoutMultiset(fs: seq<nat>, i: nat)
    requires i < |fs|
    ensures multiset(Without(fs, i)) == multiset(fs) - multiset{fs[i]}
  {
    assert fs == fs[..i] + [fs[i]] + fs[i + 1..];
  }

  lemma {:induction false} ProductWithout(fs: seq<nat>, i: nat)
    requires i < |fs|
    ensures Product(fs) == fs[i] * Product(Without(fs, i))
  {
    if i == 0 {
      assert Without(fs, 0) == fs[1..];
    } else {
      hide Without;
      ProductWithout(fs[1..], i - 1);
      WithoutTail(fs, i);
      assert Without(fs, i)[1..] == Without(fs[1..], i - 1);
      Rotate(fs[0], fs[i], Product(Without(fs[1..], i - 1)));
    }
  }

  lemma Rotate(a: nat, b: nat, c: nat)
    ensures a * (b * c) == b * (a * c)
  {}

  lemma {:induction false} ProductOfMultiset(fs: seq<nat>, gs: seq<nat>)
    requires multiset(fs) == multiset(gs)
    ensures Product(fs) == Product(gs) && |fs| == |gs|
    decreases |fs|
  {
    if fs == [] {
      assert multiset(gs) == multiset{};
    } else {
      assert fs[0] in multiset(gs);
      var i :| 0 <= i < |gs| && gs[i] == fs[0];
      ProductWithout(gs, i);
      WithoutMultiset(gs, i);
      ProductWithout(fs, 0);
      WithoutMultiset(fs, 0);
      assert Without(fs, 0) == fs[1..];
      ProductOfMultiset(fs[1..], Without(gs, i));
    }
  }

  lemma SameHead(fs: seq<nat>, gs: seq<nat>)
    requires Descending(fs) && Descending(gs) && multiset(fs) == multiset(gs) && fs != [] && gs != []
    ensures fs[0] == gs[0]
  {
    assert fs[0] in multiset(gs) && gs[0] in multiset(fs);
  }

  lemma TailMultiset(fs: seq<nat>)
    requires fs != []
    ensures multiset(fs[1..]) == multiset(fs) - multiset{fs[0]}
  {
    assert fs == [fs[0]] + fs[1..];
  }

  /** A descending sequence is determined by its elements. */
  lemma {:induction false} DescendingUnique(fs: seq<nat>, gs: seq<nat>)
    requires Descending(fs) && Descending(gs) && multiset(fs) == multiset(gs)
    ensures fs == gs
    decreases |fs|
  {
    hide Product, Without;
    ProductOfMultiset(fs, gs);
    if fs != [] {
      SameHead(fs, gs);
      TailMultiset(fs);
      TailMultiset(gs);
      DescendingUnique(fs[1..], gs[1..]);
      assert fs == [fs[0]] + fs[1..] && gs == [gs[0]] + gs[1..];
    }
  }

  // ---- Plans ----

  datatype Plan = Plan(bandwidth: nat, factors: seq<nat>, taps: seq<nat>, cutoffs: seq<real>)

  /** Only the exact capture itself bypasses the filters. */
  predicate Raw(input: u64, output: u64, bandwidth: u64, offset: i64) {
    bandwidth == input && output == input && offset == 0
  }

  function Effective(output: u64, bandwidth: u64): nat {
    if bandwidth == 0 then 4 * output / 5 else bandwidth
  }

  function Abs(x: int): nat { if x < 0 then -x else x }

  /** The documented request contract, short of the filter budget. */
  predicate Placed(input: u64, output: u64, bandwidth: u64, offset: i64) {
    && 0 < output <= input < U32 && input % output == 0 && input / output <= MAX_RATIO
    && 0 < Effective(output, bandwidth)
    && (Raw(input, output, bandwidth, offset) || Effective(output, bandwidth) <= 4 * output / 5)
    && 2 * Abs(offset) + Effective(output, bandwidth) <= input
  }

  /** The request contract as documented, for a ratio k and a bandwidth bw. */
  predicate Contract(input: int, output: int, bandwidth: int, offset: int, k: int, bw: int) {
    && 0 < output <= input <= 0xFFFF_FFFF && 1 <= k <= 4096 && input == k * output
    && (if bandwidth == 0 then 5 * bw <= 4 * output < 5 * bw + 5 else bw == bandwidth)
    && 0 < bw && (5 * bw <= 4 * output || (output == input && bw == input && offset == 0))
    && 2 * offset + bw <= input && bw - 2 * offset <= input
  }

  /** A request is placed exactly when the rate divides by a ratio of at most 4096, the bandwidth,
      which is four fifths of the rate unless it is given, is at most that or the whole capture
      untouched, and the channel lies within the capture. */
  lemma RequestContract(input: u64, output: u64, bandwidth: u64, offset: i64)
    ensures Placed(input, output, bandwidth, offset) <==>
            exists k, bw :: Contract(input, output, bandwidth, offset, k, bw)
  {
    if Placed(input, output, bandwidth, offset) {
      RatioOne(input, output);
      assert Contract(input, output, bandwidth, offset, input / output, Effective(output, bandwidth));
    }
    if k, bw :| Contract(input, output, bandwidth, offset, k, bw) {
      DivModUnique(input, k, 0, output);
      assert bw == Effective(output, bandwidth);
    }
  }

  /** The rate entering stage i; entry |factors| is the output rate. */
  function Rate(factors: seq<nat>, output: nat, i: nat): nat
    requires i <= |factors|
  {
    Product(factors[i..]) * output
  }

  function Odd(n: nat): nat { if n % 2 == 0 then n + 1 else n }

  /** ceil(16*rate / (next - bandwidth)), at least 3, made odd. */
  function Taps(rate: nat, next: nat, bandwidth: nat): nat
    requires next > bandwidth
  {
    var taps := Ceil(16 * rate, next - bandwidth);
    Odd(if taps < 3 then 3 else taps)
  }

  function Ceil(x: nat, t: nat): nat
    requires t >= 1
  {
    (x + t - 1) / t
  }

  /** t taps and cutoff c are what stage i needs. */
  ghost predicate Sized(output: nat, raw: bool, bandwidth: nat, factors: seq<nat>, i: nat, t: nat, c: real) {
    && i < |factors|
    && var rate, next := Rate(factors, output, i), Rate(factors, output, i + 1);
       if raw then t == 1 && c == 0.5
       else && next > bandwidth && rate > 0
            && t == Taps(rate, next, bandwidth)
            && c == (bandwidth + next) as real / (4.0 * rate as real)
  }

  /** p is the plan for this request, filter budget aside. */
  ghost predicate Candidate(input: u64, output: u64, bandwidth: u64, offset: i64, p: Plan) {
    && Placed(input, output, bandwidth, offset)
    && p.bandwidth == Effective(output, bandwidth)
    && Descending(p.factors) && multiset(p.factors) == multiset(Factors(input / output, 0))
    && |p.taps| == |p.cutoffs| == |p.factors|
    && forall i: nat :: i < |p.factors| ==>
         Sized(output, Raw(input, output, bandwidth, offset), p.bandwidth, p.factors, i, p.taps[i], p.cutoffs[i])
  }

  ghost predicate InBudget(p: Plan) {
    forall i :: 0 <= i < |p.taps| ==> p.taps[i] <= MAX_TAPS
  }

  /** What make_plan returns: the candidate if there is one and it is within budget. */
  ghost predicate Planned(input: u64, output: u64, bandwidth: u64, offset: i64, r: Option<Plan>) {
    match r
    case Some(p) => Candidate(input, output, bandwidth, offset, p) && InBudget(p)
    case None => forall p :: Candidate(input, output, bandwidth, offset, p) ==> !InBudget(p)
  }

  // ---- The planner ----

  /** The factoring loops. */
  method Factorize(ratio: nat, factors: array<nat>) returns (n: nat)
    requires 1 <= ratio <= MAX_RATIO && factors.Length == MAX_STAGES
    modifies factors
    ensures 1 <= n <= MAX_STAGES && factors[..n] == Factors(ratio, 0)
  {
    hide NextFactor, Factors;
    var remaining := ratio;
    n := 0;
    FactorsOf(ratio, 0);
    ghost var all := Factors(ratio, 0);
    while remaining > 1 && n < MAX_STAGES - 1
      invariant 1 <= remaining <= MAX_RATIO && n <= MAX_STAGES - 1
      invariant all == factors[..n] + Factors(remaining, n)
      decreases remaining
    {
      var f := TryFactor(remaining);
      FactorsStep(remaining, n);
      if f == 0 {
        break;
      }
      ghost var done := factors[..n];
      factors[n] := f;
      n := n + 1;
      remaining := remaining / f;
      assert factors[..n] == done + [f];
      Reassociate(done, f, Factors(remaining, n));
    }
    FactorsStep(remaining, n);
    ghost var done := factors[..n];
    if remaining > 1 || n == 0 {
      factors[n] := remaining;
      n := n + 1;
      assert factors[..n] == done + [remaining];
    }
  }

  lemma Reassociate(done: seq<nat>, f: nat, rest: seq<nat>)
    ensures done + ([f] + rest) == (done + [f]) + rest
  {}

  /** One unfolding of the factoring. */
  lemma FactorsStep(r: nat, n: nat)
    requires r >= 1
    ensures r == 1 ==> Factors(r, n) == if n == 0 then [1] else []
    ensures r > 1 && (n >= MAX_STAGES - 1 || NextFactor(r) == 0) ==> Factors(r, n) == [r]
    ensures r > 1 && n < MAX_STAGES - 1 && NextFactor(r) != 0 ==>
              1 <= r / NextFactor(r) < r && Factors(r, n) == [NextFactor(r)] + Factors(r / NextFactor(r), n + 1)
  {
    if r > 1 && NextFactor(r) != 0 { NextFactorSplits(r); }
  }

  /** 4, 3, 2, then trial division from 5 up to the square root; 0 when nothing divides. */
  method TryFactor(r: nat) returns (f: nat)
    requires 2 <= r <= MAX_RATIO
    ensures f == NextFactor(r)
  {
    f := 4;
    while f >= 2
      invariant 1 <= f <= 4 && forall d: nat :: f < d <= 4 ==> !Divides(d, r)
    {
      if Divides(f, r) {
        return;
      }
      f := f - 1;
    }
    f := 5;
    while Square(f) <= r
      invariant f >= 5 && Search(r, 5) == Search(r, f)
      decreases r - f
    {
      if Divides(f, r) {
        return;
      }
      SearchNext(r, f);
      f := f + 1;
    }
    f := 0;
  }

  lemma SearchNext(r: nat, f: nat)
    requires f >= 5 && Square(f) <= r && !Divides(f, r)
    ensures f < r && Search(r, f) == Search(r, f + 1)
  {
    assert f * f >= 5 * f;
  }

  lemma {:induction false} ProductSnoc(fs: seq<nat>, f: nat)
    ensures Product(fs + [f]) == Product(fs) * f
  {
    if fs == [] {
      assert [f][1..] == [];
    } else {
      ProductSnoc(fs[1..], f);
      assert (fs + [f])[1..] == fs[1..] + [f];
      Associate(fs[0], Product(fs[1..]), f);
    }
  }

  lemma Associate(a: nat, b: nat, c: nat)
    ensures a * (b * c) == (a * b) * c
  {}

  /** No element of the first i is smaller than one after it. */
  ghost predicate Settled(fs: seq<nat>, i: nat) {
    forall p, q :: 0 <= p < i && p < q < |fs| ==> fs[p] >= fs[q]
  }

  /** The exchange sort, with the running product of the settled factors. */
  method Sort(a: array<nat>, n: nat) returns (product: nat)
    requires n <= a.Length
    modifies a
    ensures Descending(a[..n]) && multiset(a[..n]) == old(multiset(a[..n]))
    ensures product == Product(a[..n])
  {
    product := 1;
    for i := 0 to n
      invariant Settled(a[..n], i) && multiset(a[..n]) == old(multiset(a[..n]))
      invariant product == Product(a[..i])
    {
      SelectLargest(a, n, i);
      ProductSnoc(a[..i], a[i]);
      assert a[..i + 1] == a[..i] + [a[i]];
      product := product * a[i];
    }
  }

  method SelectLargest(a: array<nat>, n: nat, i: nat)
    requires i < n <= a.Length && Settled(a[..n], i)
    modifies a
    ensures Settled(a[..n], i + 1) && multiset(a[..n]) == old(multiset(a[..n])) && a[..i] == old(a[..i])
  {
    hide Settled, Swapped;
    for j := i + 1 to n
      invariant Settled(a[..n], i) && multiset(a[..n]) == old(multiset(a[..n])) && a[..i] == old(a[..i])
      invariant forall q :: i < q < j ==> a[i] >= a[q]
    {
      if a[j] > a[i] {
        SwapSettled(a[..n], i, j);
        Swap(a, n, i, j);
      }
    }
    SettledNext(a[..n], i);
  }

  method Swap(a: array<nat>, n: nat, i: nat, j: nat)
    requires i < j < n <= a.Length
    modifies a
    ensures a[..n] == Swapped(old(a[..n]), i, j) && a[..i] == old(a[..i])
    ensures a[i] == old(a[j]) && a[j] == old(a[i]) && forall q :: i < q < j ==> a[q] == old(a[q])
  {
    a[i], a[j] := a[j], a[i];
  }

  function Swapped(s: seq<nat>, i: nat, j: nat): seq<nat>
    requires i < |s| && j < |s|
  {
    s[i := s[j]][j := s[i]]
  }

  lemma SwapSettled(s: seq<nat>, i: nat, j: nat)
    requires i < j < |s| && Settled(s, i)
    ensures Settled(Swapped(s, i, j), i) && multiset(Swapped(s, i, j)) == multiset(s)
  {}

  lemma SettledNext(s: seq<nat>, i: nat)
    requires i < |s| && Settled(s, i) && forall q :: i < q < |s| ==> s[i] >= s[q]
    ensures Settled(s, i + 1)
  {}

  lemma {:induction false} Positive(fs: seq<nat>)
    requires forall i :: 0 <= i < |fs| ==> fs[i] >= 1
    ensures Product(fs) >= 1
  {
    if fs != [] {
      Positive(fs[1..]);
      assert fs[0] * Product(fs[1..]) >= 1;
    }
  }

  /** Each stage divides its input rate exactly, and no rate is below the output rate. */
  lemma RateStep(fs: seq<nat>, output: nat, i: nat)
    requires i < |fs| && output >= 1 && forall k :: 0 <= k < |fs| ==> fs[k] >= 1
    ensures fs[i] >= 1 && Rate(fs, output, i) == Rate(fs, output, i + 1) * fs[i]
    ensures Rate(fs, output, i) / fs[i] == Rate(fs, output, i + 1) >= output
  {
    var rest := fs[i + 1..];
    assert fs[i..][1..] == rest;
    Positive(rest);
    AtLeast(Product(rest), output);
    var next := Product(rest) * output;
    Regroup(fs[i], Product(rest), output);
    ExactDivision(next, fs[i]);
  }

  lemma AtLeast(p: nat, x: nat)
    requires p >= 1
    ensures p * x >= x
  {
    assert p * x == x + (p - 1) * x;
  }

  lemma Regroup(f: nat, p: nat, x: nat)
    ensures (f * p) * x == (p * x) * f
  {}

  /** The sizing loop: the rate entering each stage, its taps and its cutoff. */
  method SizeFilters(input: nat, output: nat, bandwidth: nat, raw: bool, fs: seq<nat>)
    returns (ok: bool, taps: seq<nat>, cutoffs: seq<real>)
    requires output >= 1 && (forall k :: 0 <= k < |fs| ==> fs[k] >= 1)
    requires input == Rate(fs, output, 0) && (!raw ==> bandwidth < output)
    ensures ok ==> |taps| == |cutoffs| == |fs|
    ensures ok ==> forall k: nat :: k < |fs| ==>
              Sized(output, raw, bandwidth, fs, k, taps[k], cutoffs[k]) && taps[k] <= MAX_TAPS
    ensures !ok ==> exists k: nat, t: nat, c: real ::
                      k < |fs| && Sized(output, raw, bandwidth, fs, k, t, c) && t > MAX_TAPS
  {
    hide Rate;
    var rate := input;
    taps, cutoffs, ok := [], [], true;
    for i := 0 to |fs|
      invariant ok && |taps| == |cutoffs| == i && rate == Rate(fs, output, i)
      invariant forall k: nat :: k < i ==>
                  Sized(output, raw, bandwidth, fs, k, taps[k], cutoffs[k]) && taps[k] <= MAX_TAPS
    {
      RateStep(fs, output, i);
      var next := rate / fs[i];
      if raw {
        taps := taps + [1];
        cutoffs := cutoffs + [0.5];
      } else {
        assert rate >= next by { AtLeast(fs[i], next); }
        var transition := next - bandwidth;
        var t := (16 * rate + transition - 1) / transition;
        if t < 3 {
          t := 3;
        }
        if t % 2 == 0 {
          t := t + 1;
        }
        var c := (bandwidth + next) as real / (4.0 * rate as real);
        assert Sized(output, raw, bandwidth, fs, i, t, c);
        if t > MAX_TAPS {
          return false, taps, cutoffs;
        }
        taps := taps + [t];
        cutoffs := cutoffs + [c];
      }
      rate := next;
    }
  }

  /** make_plan, for every request: it returns the plan of the contract when the request is
      placed within the capture and every filter fits the budget, and refuses otherwise. */
  method MakePlan(input: u64, output: u64, bandwidth: u64, offset: i64) returns (r: Option<Plan>)
    ensures Planned(input, output, bandwidth, offset, r)
  {
    hide Candidate, Factors, Product, Sized, Rate, Descending;
    var raw := Raw(input, output, bandwidth, offset);
    if output == 0 || output > input || input >= U32 || input % output != 0 || input / output > MAX_RATIO ||
       offset == -0x8000_0000_0000_0000 {
      NotPlaced(input, output, bandwidth, offset);
      return None;
    }
    var bw := if bandwidth == 0 then 4 * output / 5 else bandwidth;
    if bw == 0 || (!raw && bw > 4 * output / 5) || Abs(offset) > (input - bw) / 2 {
      NotPlaced(input, output, bandwidth, offset);
      return None;
    }
    var ratio := input / output;
    var factors := new nat[MAX_STAGES];
    var n := Factorize(ratio, factors);
    FactorsOf(ratio, 0);
    ghost var raws := factors[..n];
    var product := Sort(factors, n);
    var fs := factors[..n];
    ProductOfMultiset(fs, raws);
    assert product == ratio; // so the check of the source on the product never fires
    SamePositive(fs, raws);
    assert input == Rate(fs, output, 0) by { WholeRate(fs, ratio, output, input); }
    var ok, taps, cutoffs := SizeFilters(input, output, bw, raw, fs);
    if !ok {
      OverBudget(input, output, bandwidth, offset, fs);
      return None;
    }
    r := Some(Plan(bw, fs, taps, cutoffs));
    Accepted(input, output, bandwidth, offset, r.value);
  }

  lemma NotPlaced(input: u64, output: u64, bandwidth: u64, offset: i64)
    requires !Placed(input, output, bandwidth, offset)
    ensures forall p :: !Candidate(input, output, bandwidth, offset, p)
  {}

  lemma SamePositive(fs: seq<nat>, gs: seq<nat>)
    requires multiset(fs) == multiset(gs) && forall i :: 0 <= i < |gs| ==> gs[i] >= 1
    ensures forall i :: 0 <= i < |fs| ==> fs[i] >= 1
  {
    forall i | 0 <= i < |fs| ensures fs[i] >= 1 {
      assert fs[i] in multiset(gs);
    }
  }

  lemma WholeRate(fs: seq<nat>, ratio: nat, output: nat, input: nat)
    requires output >= 1 && Product(fs) == ratio == input / output && input % output == 0
    ensures input == Rate(fs, output, 0)
  {
    assert fs[0..] == fs;
  }

  lemma OverBudget(input: u64, output: u64, bandwidth: u64, offset: i64, fs: seq<nat>)
    requires Placed(input, output, bandwidth, offset)
    requires Descending(fs) && multiset(fs) == multiset(Factors(input / output, 0))
    requires exists k: nat, t: nat, c: real :: k < |fs| && t > MAX_TAPS &&
               Sized(output, Raw(input, output, bandwidth, offset), Effective(output, bandwidth), fs, k, t, c)
    ensures Planned(input, output, bandwidth, offset, None)
  {
    hide Rate, Taps, Descending, Placed, Factors;
    var k: nat, t: nat, c: real :| k < |fs| && t > MAX_TAPS &&
      Sized(output, Raw(input, output, bandwidth, offset), Effective(output, bandwidth), fs, k, t, c);
    forall p | Candidate(input, output, bandwidth, offset, p) ensures !InBudget(p) {
      DescendingUnique(fs, p.factors);
      assert Sized(output, Raw(input, output, bandwidth, offset), p.bandwidth, fs, k, p.taps[k], p.cutoffs[k]);
    }
  }

  lemma Accepted(input: u64, output: u64, bandwidth: u64, offset: i64, p: Plan)
    requires Placed(input, output, bandwidth, offset) && p.bandwidth == Effective(output, bandwidth)
    requires Descending(p.factors) && multiset(p.factors) == multiset(Factors(input / output, 0))
    requires |p.taps| == |p.cutoffs| == |p.factors|
    requires forall k: nat :: k < |p.factors| ==>
               && p.taps[k] <= MAX_TAPS
               && Sized(output, Raw(input, output, bandwidth, offset), p.bandwidth, p.factors, k, p.taps[k],
                   p.cutoffs[k])
    ensures Planned(input, output, bandwidth, offset, Some(p))
  {}

  // ---- What every accepted plan is ----

  lemma PlanShape(input: u64, output: u64, bandwidth: u64, offset: i64, p: Plan)
    requires Candidate(input, output, bandwidth, offset, p)
    ensures 1 <= |p.factors| <= MAX_STAGES && Descending(p.factors)
    ensures 0 < output && Product(p.factors) == input / output
    ensures forall i :: 0 <= i < |p.factors| ==> p.factors[i] >= 1
    ensures input > output && |p.factors| < MAX_STAGES ==>
              forall i :: 0 <= i < |p.factors| ==> p.factors[i] == 4 || Prime(p.factors[i])
    ensures 2 * Abs(offset) + p.bandwidth <= input
  {
    hide Prime, Sized, Factors, Descending;
    RatioOne(input, output);
    ArrangedFactors(input / output, p.factors);
  }

  lemma ArrangedFactors(ratio: nat, fs: seq<nat>)
    requires ratio >= 1 && multiset(fs) == multiset(Factors(ratio, 0))
    ensures 1 <= |fs| <= MAX_STAGES && Product(fs) == ratio && forall i :: 0 <= i < |fs| ==> fs[i] >= 1
    ensures ratio > 1 && |fs| < MAX_STAGES ==> forall i :: 0 <= i < |fs| ==> fs[i] == 4 || Prime(fs[i])
  {
    hide Prime, Factors, Product;
    var gs := Factors(ratio, 0);
    FactorsOf(ratio, 0);
    ProductOfMultiset(fs, gs);
    SamePositive(fs, gs);
    if ratio > 1 && |fs| < MAX_STAGES {
      forall i | 0 <= i < |fs| ensures fs[i] == 4 || Prime(fs[i]) {
        assert fs[i] in multiset(gs);
        var k :| 0 <= k < |gs| && gs[k] == fs[i];
      }
    }
  }

  lemma RatioOne(input: nat, output: nat)
    requires 0 < output <= input && input % output == 0
    ensures input / output >= 1 && (input > output ==> input / output > 1) && input == (input / output) * output
  {
    var q := input / output;
    assert input == q * output;
    assert q == 1 ==> q * output == output;
    assert q == 0 ==> q * output == 0;
  }

  /** The rates run from the capture rate down to the output rate, each divided exactly by
      its factor, and every filtered stage has a positive transition band, the least odd number
      of taps for it, within the budget, and a cutoff in its middle. */
  lemma PlanFilters(input: u64, output: u64, bandwidth: u64, offset: i64, p: Plan, i: nat)
    requires Candidate(input, output, bandwidth, offset, p) && InBudget(p) && i < |p.factors|
    ensures Rate(p.factors, output, 0) == input && Rate(p.factors, output, |p.factors|) == output
    ensures Rate(p.factors, output, i) == Rate(p.factors, output, i + 1) * p.factors[i]
    ensures !Raw(input, output, bandwidth, offset) ==>
              && p.taps[i] <= MAX_TAPS
              && var rate, next := Rate(p.factors, output, i), Rate(p.factors, output, i + 1);
                 Fitted(p.taps[i], p.cutoffs[i], rate, next, p.bandwidth)
    ensures Raw(input, output, bandwidth, offset) ==> p.taps == [1] && p.factors == [1] && p.cutoffs == [0.5]
  {
    hide Prime, Taps, Descending, Factors, Rate, Placed, Fitted;
    PlanShape(input, output, bandwidth, offset, p);
    PlacedRates(input, output, bandwidth, offset);
    WholeRate(p.factors, input / output, output, input);
    RateStep(p.factors, output, i);
    LastRate(p.factors, output);
    assert Sized(output, Raw(input, output, bandwidth, offset), p.bandwidth, p.factors, i, p.taps[i], p.cutoffs[i]);
    if Raw(input, output, bandwidth, offset) {
      forall k | 0 <= k < |p.taps| ensures p.taps[k] == 1 {
        assert Sized(output, true, p.bandwidth, p.factors, k, p.taps[k], p.cutoffs[k]);
      }
      RawFactors(input, p);
      assert p.cutoffs == [p.cutoffs[0]];
    } else {
      SizedFits(Rate(p.factors, output, i), Rate(p.factors, output, i + 1), p.bandwidth);
    }
  }

  function Middle(pass: real, stop: real): real { (pass + stop) / 2.0 }

  /** A filter of t taps and cutoff c from `rate` to `next`: an odd number of taps, the least from
      3 on with 16 * rate / t within the transition band, and a cutoff in the middle between the
      edge of the passband and half the next rate. */
  ghost predicate Fitted(t: nat, c: real, rate: nat, next: nat, bandwidth: nat) {
    && bandwidth < next && t % 2 == 1 && t >= 3
    && t * (next - bandwidth) >= 16 * rate && (t == 3 || (t - 2) * (next - bandwidth) < 16 * rate)
    && c * rate as real == Middle(bandwidth as real / 2.0, next as real / 2.0)
  }

  lemma SizedFits(rate: nat, next: nat, bandwidth: nat)
    requires next > bandwidth && rate > 0
    ensures var c := (bandwidth + next) as real / (4.0 * rate as real);
            Fitted(Taps(rate, next, bandwidth), c, rate, next, bandwidth)
  {
    hide Taps, Middle;
    TapsCover(rate, next, bandwidth);
    TapsLeast(rate, next, bandwidth);
    CutoffMiddle(rate, next, bandwidth);
  }

  lemma CutoffMiddle(rate: nat, next: nat, bandwidth: nat)
    requires rate > 0
    ensures (bandwidth + next) as real / (4.0 * rate as real) * rate as real ==
            Middle(bandwidth as real / 2.0, next as real / 2.0)
  {
    var b, r := (bandwidth + next) as real, rate as real;
    var q := b / (4.0 * r);
    assert q * (4.0 * r) == b;
    assert 4.0 * (q * r) == q * (4.0 * r);
  }

  lemma PlacedRates(input: u64, output: u64, bandwidth: u64, offset: i64)
    requires Placed(input, output, bandwidth, offset)
    ensures 0 < output <= input && input % output == 0
  {}

  lemma LastRate(fs: seq<nat>, output: nat)
    ensures Rate(fs, output, |fs|) == output
  {
    assert fs[|fs|..] == [];
  }

  lemma RawFactors(input: nat, p: Plan)
    requires input >= 1 && multiset(p.factors) == multiset(Factors(input / input, 0)) && |p.taps| == |p.factors|
    requires forall k :: 0 <= k < |p.taps| ==> p.taps[k] == 1
    ensures p.factors == [1] && p.taps == [1]
  {
    assert input / input == 1;
    assert Factors(1, 0) == [1];
    ProductOfMultiset(p.factors, [1]);
    assert p.factors[0] in multiset([1]);
  }

  /** Enough taps for the transition band. */
  lemma TapsCover(rate: nat, next: nat, bandwidth: nat)
    requires next > bandwidth
    ensures Taps(rate, next, bandwidth) % 2 == 1 && Taps(rate, next, bandwidth) >= 3
    ensures Taps(rate, next, bandwidth) * (next - bandwidth) >= 16 * rate
  {
    hide Ceil;
    var t := next - bandwidth;
    CeilCovers(16 * rate, t);
    Below(Ceil(16 * rate, t), Taps(rate, next, bandwidth), t);
  }

  lemma CeilCovers(x: nat, t: nat)
    requires t >= 1
    ensures Ceil(x, t) * t >= x && (Ceil(x, t) - 1) * t < x
  {
    var c := Ceil(x, t);
    assert x + t - 1 == t * c + (x + t - 1) % t;
    assert (c - 1) * t == t * c - t;
  }

  /** And no more than that: the least odd number, or 3. */
  lemma TapsLeast(rate: nat, next: nat, bandwidth: nat)
    requires next > bandwidth
    ensures Taps(rate, next, bandwidth) == 3 || (Taps(rate, next, bandwidth) - 2) * (next - bandwidth) < 16 * rate
  {
    hide Ceil;
    var t := next - bandwidth;
    CeilCovers(16 * rate, t);
    if Taps(rate, next, bandwidth) > 3 {
      Below(Taps(rate, next, bandwidth) - 2, Ceil(16 * rate, t) - 1, t);
    }
  }

  lemma Below(a: int, b: int, t: nat)
    requires a <= b
    ensures a * t <= b * t
  {
    assert (b - a) * t >= 0;
    assert b * t == a * t + (b - a) * t;
  }

  /** Planning is a function of the request, and planning again with the effective bandwidth
      that validation reported gives the same plan. */
  lemma PlanUnique(input: u64, output: u64, bandwidth: u64, offset: i64, r: Option<Plan>, r': Option<Plan>)
    requires Planned(input, output, bandwidth, offset, r) && Planned(input, output, bandwidth, offset, r')
    ensures r == r'
  {
    hide Rate, Taps, Placed, Descending, Factors;
    if r.Some? && r'.Some? {
      var p, p' := r.value, r'.value;
      DescendingUnique(p.factors, p'.factors);
      forall i: nat | i < |p.factors| ensures p.taps[i] == p'.taps[i] && p.cutoffs[i] == p'.cutoffs[i] {
        var raw := Raw(input, output, bandwidth, offset);
        assert Sized(output, raw, p.bandwidth, p.factors, i, p.taps[i], p.cutoffs[i]);
        assert Sized(output, raw, p.bandwidth, p.factors, i, p'.taps[i], p'.cutoffs[i]);
      }
      assert p.taps == p'.taps && p.cutoffs == p'.cutoffs;
    }
  }

  lemma Replan(input: u64, output: u64, bandwidth: u64, offset: i64, p: Plan, r: Option<Plan>)
    requires Planned(input, output, bandwidth, offset, Some(p))
    requires p.bandwidth < U64 && Planned(input, output, p.bandwidth, offset, r)
    ensures r == Some(p)
  {
    assert Raw(input, output, p.bandwidth, offset) == Raw(input, output, bandwidth, offset);
    assert Candidate(input, output, p.bandwidth, offset, p);
    PlanUnique(input, output, p.bandwidth, offset, r, Some(p));
  }
}
