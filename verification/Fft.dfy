/** src/fft/fft_cpu.c: the in-place radix-2 transform, over ideal (real) arithmetic.
    The caller's memory is one array of reals; a buffer is an offset into it, so that
    identical, disjoint and partly overlapping buffers can all be expressed. */
module Fft {
  import opened Words
  import opened Bits
  import opened Rings
  import opened Dft
  import opened Trigonometry

  const MAX_NFFT := 16384

  // ---- Plan creation ----

  predicate IsPow2(n: int) {
    n > 0 && And(n, n - 1) == 0
  }

  /** The bit trick accepts exactly the powers of two. */
  lemma {:induction false} IsPow2Exactly(n: nat)
    ensures IsPow2(n) ==> exists k: nat :: n == Pow2(k)
    ensures (exists k: nat :: n == Pow2(k)) ==> IsPow2(n)
  {
    hide And;
    if n > 1 {
      AndBelow(n);
      if n % 2 == 0 {
        IsPow2Exactly(n / 2);
        if IsPow2(n) {
          var k: nat :| n / 2 == Pow2(k);
          assert n == Pow2(k + 1);
        }
        if k: nat :| n == Pow2(k) {
          assert n / 2 == Pow2(k - 1);
        }
      }
    } else if n == 1 {
      AndZero(n);
      assert n == Pow2(0);
    }
  }

  /** What `n & (n - 1)` says about the halves. */
  lemma AndBelow(n: nat)
    requires n > 1
    ensures And(n, n - 1) == if n % 2 == 0 then 2 * And(n / 2, n / 2 - 1) else 2 * (n / 2)
  {
    AndSelf(n / 2);
    assert (n - 1) / 2 == if n % 2 == 0 then n / 2 - 1 else n / 2;
    assert n % 2 == 0 || (n - 1) % 2 == 0;
  }

  lemma AndZero(n: nat)
    ensures And(n, 0) == 0
  {}

  method Log2(n: nat) returns (l: nat)
    requires n > 0
    ensures Pow2(l) <= n < Pow2(l + 1)
  {
    l := 0;
    var v := n;
    while v / 2 > 0
      invariant v >= 1
      invariant v * Pow2(l) <= n < (v + 1) * Pow2(l)
    {
      HalfStep(v, Pow2(l), n);
      v := v / 2;
      l := l + 1;
    }
  }

  lemma HalfStep(v: nat, p: nat, n: nat)
    requires v * p <= n < (v + 1) * p
    ensures (v / 2) * (2 * p) <= n < (v / 2 + 1) * (2 * p)
  {
    var h := v / 2;
    assert h * (2 * p) == (2 * h) * p && (h + 1) * (2 * p) == (2 * h + 2) * p;
    if v == 2 * h {
      assert (2 * h + 2) * p == (2 * h + 1) * p + p;
    } else {
      assert (2 * h + 1) * p == (2 * h) * p + p;
    }
  }

  datatype Plan = Plan(nfft: nat, log2n: nat, twR: seq<real>, twI: seq<real>)

  ghost predicate WellFormed(p: Plan) {
    && 1 <= p.log2n && p.nfft == Pow2(p.log2n) <= MAX_NFFT
    && |p.twR| == |p.twI| == p.nfft / 2
  }

  /** The table holds w^0 .. w^(n/2-1), where w^(n/2) = -1. */
  ghost predicate TwiddlesOf(p: Plan, w: Complex) {
    && WellFormed(p)
    && (forall i :: 0 <= i < p.nfft / 2 ==> Complex(p.twR[i], p.twI[i]) == Pow(Complexes(), w, i))
    && Pow(Complexes(), w, p.nfft / 2) == Complexes().neg(Complexes().one)
  }

  /** The angle of twiddle i: clockwise, so that the transform is the forward one. */
  function Angle(pi: real, i: int, n: int): real
    requires n > 0
  {
    -2.0 * pi * i as real / n as real
  }

  method PlanCreate(nfft: int, cos: real -> real, sin: real -> real, pi: real) returns (plan: Option<Plan>)
    ensures plan.Some? <==> (2 <= nfft <= MAX_NFFT && exists k: nat :: nfft == Pow2(k))
    ensures plan.Some? ==> WellFormed(plan.value) && plan.value.nfft == nfft
    ensures plan.Some? ==> forall i :: 0 <= i < nfft / 2 ==>
                plan.value.twR[i] == cos(Angle(pi, i, nfft)) && plan.value.twI[i] == sin(Angle(pi, i, nfft))
    ensures plan.Some? && Trigonometric(cos, sin, pi) ==>
              TwiddlesOf(plan.value, Complex(cos(2.0 * pi / nfft as real), -sin(2.0 * pi / nfft as real)))
  {
    if nfft >= 0 { IsPow2Exactly(nfft); }
    if nfft < 2 || nfft > MAX_NFFT || !IsPow2(nfft) {
      return None;
    }
    var l := Log2(nfft);
    ghost var k: nat :| nfft == Pow2(k);
    assert k == l by {
      if k < l { Pow2Monotone(k, l); }
      if l + 1 < k { Pow2Monotone(l + 1, k); }
    }
    var len := nfft / 2;
    var twR: seq<real>, twI: seq<real> := [], [];
    for i := 0 to len
      invariant |twR| == |twI| == i
      invariant forall j :: 0 <= j < i ==> twR[j] == cos(Angle(pi, j, nfft)) && twI[j] == sin(Angle(pi, j, nfft))
    {
      twR := twR + [cos(Angle(pi, i, nfft))];
      twI := twI + [sin(Angle(pi, i, nfft))];
    }
    plan := Some(Plan(nfft, l, twR, twI));
    if Trigonometric(cos, sin, pi) {
      ForwardTwiddles(plan.value, cos, sin, pi);
    }
  }

  lemma HalfSize(p: Plan)
    requires WellFormed(p)
    ensures p.nfft >= 2 && p.nfft / 2 * 2 == p.nfft
  {}

  /** The table is the powers of e^(-2*pi*i/n): the exponent is negative. */
  lemma ForwardTwiddles(p: Plan, cos: real -> real, sin: real -> real, pi: real)
    requires WellFormed(p) && p.nfft > 0 && Trigonometric(cos, sin, pi)
    requires forall i :: 0 <= i < p.nfft / 2 ==>
               p.twR[i] == cos(Angle(pi, i, p.nfft)) && p.twI[i] == sin(Angle(pi, i, p.nfft))
    ensures TwiddlesOf(p, Complex(cos(2.0 * pi / p.nfft as real), -sin(2.0 * pi / p.nfft as real)))
  {
    hide Pow, Trigonometric, Angle;
    var n := p.nfft;
    HalfSize(p);
    var a := 2.0 * pi / n as real;
    var w := Complex(cos(a), -sin(a));
    Backwards(cos, sin, pi, a);
    forall i | 0 <= i < n / 2 ensures Complex(p.twR[i], p.twI[i]) == Pow(Complexes(), w, i) {
      AngleIs(pi, i, n);
      CisPower(cos, sin, pi, -a, i, Angle(pi, i, n));
    }
    HalfAngle(pi, n);
    CisPower(cos, sin, pi, -a, n / 2, -pi);
    HalfTurnBack(cos, sin, pi);
  }

  lemma AngleIs(pi: real, i: int, n: int)
    requires n > 0
    ensures Angle(pi, i, n) == i as real * -(2.0 * pi / n as real)
  {
    var k, m := i as real, n as real;
    var q := 2.0 * pi / m;
    assert q * m == 2.0 * pi;
    assert (-k * q) * m == -k * (q * m);
    assert (-2.0 * pi * k) / m == ((-k * q) * m) / m;
  }

  lemma HalfAngle(pi: real, n: nat)
    requires n >= 2 && n / 2 * 2 == n
    ensures (n / 2) as real * -(2.0 * pi / n as real) == -pi
  {
    var h, m := (n / 2) as real, n as real;
    assert m == 2.0 * h;
    var q := 2.0 * pi / m;
    assert q * m == 2.0 * pi;
    assert 2.0 * (h * q) == q * m;
  }

  // ---- Interleaved complex buffers ----

  function View(s: seq<real>, at: nat, n: nat): (v: seq<Complex>)
    requires at + 2 * n <= |s|
  {
    seq(n, i requires 0 <= i < n => Complex(s[at + 2 * i], s[at + 2 * i + 1]))
  }

  ghost predicate SameOutside(s: seq<real>, s': seq<real>, at: nat, len: nat) {
    && |s| == |s'|
    && forall i :: 0 <= i < |s| && !(at <= i < at + len) ==> s'[i] == s[i]
  }

  method Swap(mem: array<real>, at: nat, n: nat, i: nat, j: nat)
    requires at + 2 * n <= mem.Length && i < n && j < n && i != j
    modifies mem
    ensures SameOutside(old(mem[..]), mem[..], at, 2 * n)
    ensures View(mem[..], at, n) ==
            var v := old(View(mem[..], at, n)); v[i := v[j]][j := v[i]]
  {
    var tr := mem[at + 2 * i];
    var ti := mem[at + 2 * i + 1];
    mem[at + 2 * i] := mem[at + 2 * j];
    mem[at + 2 * i + 1] := mem[at + 2 * j + 1];
    mem[at + 2 * j] := tr;
    mem[at + 2 * j + 1] := ti;
  }

  /** The bit-reversed order of x. */
  ghost function Reversed(x: seq<Complex>, m: nat): (r: seq<Complex>)
    requires |x| == Pow2(m)
  {
    seq(|x|, i requires 0 <= i < |x| => RevBound(i, m); x[Rev(i, m)])
  }

  /** The loop of the source: j follows the reversed counter, each pair is swapped once. */
  method BitReverse(mem: array<real>, at: nat, n: nat, ghost m: nat)
    requires at + 2 * n <= mem.Length && n == Pow2(m)
    modifies mem
    ensures SameOutside(old(mem[..]), mem[..], at, 2 * n)
    ensures View(mem[..], at, n) == Reversed(old(View(mem[..], at, n)), m)
  {
    ghost var x := View(mem[..], at, n);
    var j := 0;
    RevZero(m);
    forall p: nat { RevBound(p, m); }
    for i := 0 to n
      invariant j == Rev(if i < n then i else 0, m)
      invariant SameOutside(old(mem[..]), mem[..], at, 2 * n)
      invariant PartlyReversed(View(mem[..], at, n), x, m, i)
    {
      RevInvolution(i, m);
      ghost var before := View(mem[..], at, n);
      if j > i {
        Swap(mem, at, n, i, j);
      }
      SwapStep(before, View(mem[..], at, n), x, m, i);
      j := NextReversed(j, n, i, m);
    }
    assert View(mem[..], at, n) == Reversed(x, m);
  }

  lemma {:induction false} RevZero(m: nat)
    ensures Rev(0, m) == 0
  {
    if m > 0 { RevZero(m - 1); }
  }

  ghost predicate PartlyReversed(v: seq<Complex>, x: seq<Complex>, m: nat, i: nat) {
    && |v| == |x| == Pow2(m)
    && forall p {:trigger v[p]} :: 0 <= p < |x| ==>
         Rev(p, m) < |x| && v[p] == if p < i || Rev(p, m) < i then x[Rev(p, m)] else x[p]
  }

  lemma SwapStep(before: seq<Complex>, after: seq<Complex>, x: seq<Complex>, m: nat, i: nat)
    requires |before| == |x| == Pow2(m) && i < |x| && PartlyReversed(before, x, m, i)
    requires Rev(i, m) < |x|
    requires after == if Rev(i, m) > i then before[i := before[Rev(i, m)]][Rev(i, m) := before[i]] else before
    ensures PartlyReversed(after, x, m, i + 1)
  {
    var j := Rev(i, m);
    RevInvolution(i, m);
    forall p | 0 <= p < |x|
      ensures Rev(p, m) < |x| && after[p] == if p < i + 1 || Rev(p, m) < i + 1 then x[Rev(p, m)] else x[p]
    {
      RevInvolution(p, m);
      assert before[p] == before[p] && before[i] == before[i] && before[j] == before[j];
    }
  }

  lemma NoBits()
    ensures Pow2(0) == 1 && forall c :: Rev(c, 0) == 0
  {}

  /** A set leading bit of the reversed counter is carried over. */
  lemma CarryStep(c: nat, p: nat)
    requires p > 0 && c < Pow2(p) && Rev(c, p) >= Pow2(p) / 2
    ensures Pow2(p) / 2 == Pow2(p - 1) && c / 2 < Pow2(p - 1)
    ensures Rev(c, p) - Pow2(p) / 2 == Rev(c / 2, p - 1) && Rev(c + 1, p) == Rev(c / 2 + 1, p - 1)
  {
    RevBound(c / 2, p - 1);
    assert c % 2 == 1;
    assert (c + 1) / 2 == c / 2 + 1;
  }

  lemma HalfNotZero(p: nat)
    requires p > 0
    ensures Pow2(p) / 2 >= 1
  {}

  /** A clear one is set, and the carry ends. */
  lemma CarryEnd(c: nat, p: nat)
    requires p > 0 && Rev(c, p) < Pow2(p) / 2
    ensures Rev(c + 1, p) == Rev(c, p) + Pow2(p) / 2
  {
    assert c % 2 == 0;
    assert (c + 1) / 2 == c / 2;
  }

  /** The carry loop: the reversed counter steps from Rev(i) to Rev(i+1), wrapping at the end. */
  method NextReversed(j0: nat, n: nat, ghost i: nat, ghost m: nat) returns (j: nat)
    requires n == Pow2(m) && i < n && j0 == Rev(i, m)
    ensures j == Rev(if i + 1 < n then i + 1 else 0, m)
  {
    hide Rev, Pow2;
    j := j0;
    var mm := n / 2;
    ghost var p: nat, c: nat := m, i;
    NoBits();
    while mm >= 1 && j >= mm
      invariant p <= m && mm == Pow2(p) / 2 && c < Pow2(p)
      invariant j == Rev(c, p)
      invariant Rev(i + 1, m) == Rev(c + 1, p)
      decreases p
    {
      CarryStep(c, p);
      j := j - mm;
      mm := mm / 2;
      p, c := p - 1, c / 2;
    }
    if p > 0 {
      HalfNotZero(p);
      CarryEnd(c, p);
    }
    j := j + mm;
    if i + 1 == n {
      RevFull(m);
      RevZero(m);
    }
  }

  lemma {:induction false} RevFull(m: nat)
    ensures Rev(Pow2(m), m) == 0
  {
    if m > 0 { RevFull(m - 1); }
  }

  // ---- Butterfly passes ----

  method ButterflyAt(mem: array<real>, at: nat, n: nat, p0: nat, p1: nat, wr: real, wi: real)
    requires at + 2 * n <= mem.Length && p0 < p1 < n
    modifies mem
    ensures SameOutside(old(mem[..]), mem[..], at, 2 * n)
    ensures View(mem[..], at, n) ==
            var v := old(View(mem[..], at, n));
            var o := CMul(Complex(wr, wi), v[p1]);
            v[p0 := CAdd(v[p0], o)][p1 := CAdd(v[p0], CNeg(o))]
  {
    hide CMul;
    var i0, i1 := at + p0 * 2, at + p1 * 2;
    ghost var e, o := View(mem[..], at, n)[p0], View(mem[..], at, n)[p1];
    assert e == Complex(mem[i0], mem[i0 + 1]);
    assert o == Complex(mem[i1], mem[i1 + 1]);
    CMulParts(wr, wi, mem[i1], mem[i1 + 1]);
    var tr := wr * mem[i1] - wi * mem[i1 + 1];
    var ti := wr * mem[i1 + 1] + wi * mem[i1];
    assert CMul(Complex(wr, wi), o) == Complex(tr, ti);
    assert CAdd(e, Complex(tr, ti)) == Complex(mem[i0] + tr, mem[i0 + 1] + ti);
    assert CAdd(e, CNeg(Complex(tr, ti))) == Complex(mem[i0] - tr, mem[i0 + 1] - ti);
    Store(mem, at, n, p0, p1, Complex(mem[i0] + tr, mem[i0 + 1] + ti), Complex(mem[i0] - tr, mem[i0 + 1] - ti));
  }

  method Store(mem: array<real>, at: nat, n: nat, p: nat, q: nat, a: Complex, b: Complex)
    requires at + 2 * n <= mem.Length && p < n && q < n && p != q
    modifies mem
    ensures SameOutside(old(mem[..]), mem[..], at, 2 * n)
    ensures View(mem[..], at, n) == old(View(mem[..], at, n))[p := a][q := b]
  {
    mem[at + 2 * p] := a.re;
    mem[at + 2 * p + 1] := a.im;
    mem[at + 2 * q] := b.re;
    mem[at + 2 * q + 1] := b.im;
  }

  lemma CMulParts(a: real, b: real, c: real, d: real)
    ensures CMul(Complex(a, b), Complex(c, d)) == Complex(a * c - b * d, a * d + b * c)
  {}

  function Twiddle(plan: Plan, i: nat): Complex
    requires i < |plan.twR| == |plan.twI|
  {
    Complex(plan.twR[i], plan.twI[i])
  }

  /** Elements i + t and i + half + t of v are the two outputs of one butterfly on u. */
  ghost predicate CombinedAt(plan: Plan, u: seq<Complex>, v: seq<Complex>, i: nat, half: nat, stride: nat, t: nat) {
    && i + half + t < |u| == |v|
    && stride * t < |plan.twR| == |plan.twI|
    && var o := CMul(Twiddle(plan, stride * t), u[i + half + t]);
       v[i + t] == CAdd(u[i + t], o) && v[i + half + t] == CAdd(u[i + t], CNeg(o))
  }

  /** What the j loop has left in the block of 2*half elements starting at i. */
  ghost predicate BlockCombined(plan: Plan, u: seq<Complex>, v: seq<Complex>, i: nat, half: nat, stride: nat,
      done: nat) {
    && |u| == |v| && i + 2 * half <= |u| && done <= half
    && (forall t: nat :: t < done ==> CombinedAt(plan, u, v, i, half, stride, t))
    && (forall q :: 0 <= q < |u| && !(i <= q < i + done) && !(i + half <= q < i + half + done) ==> v[q] == u[q])
  }

  method Block(plan: Plan, mem: array<real>, at: nat, i: nat, half: nat, ghost stride: nat)
    requires WellFormed(plan) && at + 2 * plan.nfft <= mem.Length
    requires half > 0 && stride > 0 && i + 2 * half <= plan.nfft == stride * (2 * half)
    modifies mem
    ensures SameOutside(old(mem[..]), mem[..], at, 2 * plan.nfft)
    ensures BlockCombined(plan, old(View(mem[..], at, plan.nfft)), View(mem[..], at, plan.nfft), i, half, stride, half)
  {
    var n := plan.nfft;
    ghost var u := View(mem[..], at, n);
    for j := 0 to half
      invariant SameOutside(old(mem[..]), mem[..], at, 2 * n)
      invariant BlockCombined(plan, u, View(mem[..], at, n), i, half, stride, j)
    {
      TwiddleIndex(n, half, stride, j);
      var t := j * n / (half * 2);
      ghost var v := View(mem[..], at, n);
      ButterflyAt(mem, at, n, i + j, i + j + half, plan.twR[t], plan.twI[t]);
      CombineOne(plan, u, v, View(mem[..], at, n), i, half, stride, j);
    }
  }

  /** Every table index is below n/2, and equals the exponent the butterfly needs. */
  lemma TwiddleIndex(n: nat, half: nat, stride: nat, j: nat)
    requires n == stride * (2 * half) && j < half && stride > 0
    ensures j * n / (half * 2) == stride * j < n / 2
  {
    var d := half * 2;
    assert j * n == (stride * j) * d by { MulSwap(j, stride, d); }
    ExactDivision(stride * j, d);
    assert n == 2 * (stride * half);
    assert stride * half == stride * j + stride * (half - j);
    assert stride * (half - j) > 0;
  }

  lemma MulSwap(a: nat, b: nat, c: nat)
    ensures a * (b * c) == (b * a) * c
  {}

  lemma CombineOne(plan: Plan, u: seq<Complex>, v: seq<Complex>, v': seq<Complex>, i: nat, half: nat, stride: nat,
      j: nat)
    requires BlockCombined(plan, u, v, i, half, stride, j) && j < half
    requires stride * j < |plan.twR| == |plan.twI|
    requires var o := CMul(Twiddle(plan, stride * j), v[i + j + half]);
             v' == v[i + j := CAdd(v[i + j], o)][i + j + half := CAdd(v[i + j], CNeg(o))]
    ensures BlockCombined(plan, u, v', i, half, stride, j + 1)
  {
    hide CAdd, CMul, CNeg, Twiddle;
    assert v[i + j] == u[i + j] && v[i + half + j] == u[i + half + j];
    forall t: nat | t < j + 1
      ensures CombinedAt(plan, u, v', i, half, stride, t)
    {
      if t < j {
        assert CombinedAt(plan, u, v, i, half, stride, t);
      }
    }
  }

  /** Block b of length 2^k holds the transform of every 2^(m-k)-th input sample. */
  ghost predicate BlockDone(w: Complex, x: seq<Complex>, v: seq<Complex>, m: nat, k: nat, b: nat) {
    && k <= m
    && b * Pow2(k) + Pow2(k) <= |v|
    && forall t: nat :: t < Pow2(k) ==> v[b * Pow2(k) + t] == BlockBin(w, x, m, k, b, t)
  }

  ghost function BlockBin(w: Complex, x: seq<Complex>, m: nat, k: nat, b: nat, t: nat): Complex
    requires k <= m
  {
    DftSum(Complexes(), w, x, Rev(b, m - k), Pow2(m - k), Pow2(k), t)
  }

  /** Two finished neighbours of length 2^k combine into a finished block of length 2^(k+1). */
  lemma CombineBlocks(plan: Plan, w: Complex, x: seq<Complex>, u: seq<Complex>, v: seq<Complex>, m: nat, k: nat, c: nat)
    requires TwiddlesOf(plan, w) && plan.log2n == m && k < m
    requires BlockDone(w, x, u, m, k, 2 * c) && BlockDone(w, x, u, m, k, 2 * c + 1)
    requires BlockCombined(plan, u, v, c * (2 * Pow2(k)), Pow2(k), Pow2(m - k - 1), Pow2(k))
    ensures BlockDone(w, x, v, m, k + 1, c)
  {
    DoubleIndex(c, Pow2(k));
    forall t: nat {:trigger BlockBin(w, x, m, k + 1, c, t)} | t < Pow2(k + 1)
      ensures v[c * Pow2(k + 1) + t] == BlockBin(w, x, m, k + 1, c, t)
    {
      CombineAt(plan, w, x, u, v, m, k, c, t);
    }
  }

  lemma DoubleIndex(c: nat, half: nat)
    ensures (2 * c) * half == c * (2 * half)
    ensures (2 * c + 1) * half == c * (2 * half) + half
  {}

  lemma CombineAt(plan: Plan, w: Complex, x: seq<Complex>, u: seq<Complex>, v: seq<Complex>, m: nat, k: nat, c: nat,
      t: nat)
    requires TwiddlesOf(plan, w) && plan.log2n == m && k < m && t < 2 * Pow2(k)
    requires BlockDone(w, x, u, m, k, 2 * c) && BlockDone(w, x, u, m, k, 2 * c + 1)
    requires BlockCombined(plan, u, v, c * (2 * Pow2(k)), Pow2(k), Pow2(m - k - 1), Pow2(k))
    ensures v[c * (2 * Pow2(k)) + t] == BlockBin(w, x, m, k + 1, c, t)
  {
    hide CAdd, CMul, CNeg, BlockBin, Twiddle, TwiddlesOf, Pow2, Rev;
    var half := Pow2(k);
    var s := if t < half then t else t - half;
    var i := c * (2 * half);
    DoubleIndex(c, half);
    assert CombinedAt(plan, u, v, i, half, Pow2(m - k - 1), s);
    CombineBin(plan, w, x, m, k, c, s);
    assert u[(2 * c) * half + s] == BlockBin(w, x, m, k, 2 * c, s);
    assert u[(2 * c + 1) * half + s] == BlockBin(w, x, m, k, 2 * c + 1, s);
  }

  lemma CombineBin(plan: Plan, w: Complex, x: seq<Complex>, m: nat, k: nat, c: nat, t: nat)
    requires TwiddlesOf(plan, w) && plan.log2n == m && k < m && t < Pow2(k)
    requires Pow2(m - k - 1) * t < |plan.twR|
    ensures var e, o := BlockBin(w, x, m, k, 2 * c, t),
                        CMul(Twiddle(plan, Pow2(m - k - 1) * t), BlockBin(w, x, m, k, 2 * c + 1, t));
            && BlockBin(w, x, m, k + 1, c, t) == CAdd(e, o)
            && BlockBin(w, x, m, k + 1, c, t + Pow2(k)) == CAdd(e, CNeg(o))
  {
    hide Lawful, DftSum, Pow, CAdd, CMul, CNeg, Rev, Pow2, TwiddlesOf, Twiddle;
    var r := Complexes();
    var half, stride, base := Pow2(k), Pow2(m - k - 1), Rev(c, m - k - 1);
    Halves(m, k, c);
    TwiddleFacts(plan, w, m, stride * t, stride * half);
    ComplexesLawful();
    Butterfly(r, w, x, base, stride, half, t);
    ComplexSub(BlockBin(w, x, m, k, 2 * c, t), CMul(Twiddle(plan, stride * t), BlockBin(w, x, m, k, 2 * c + 1, t)));
  }

  lemma TwiddleFacts(plan: Plan, w: Complex, m: nat, i: nat, half: nat)
    requires TwiddlesOf(plan, w) && plan.log2n == m && i < |plan.twR| && half == Pow2(m) / 2
    ensures |plan.twR| == |plan.twI|
    ensures Twiddle(plan, i) == Pow(Complexes(), w, i)
    ensures Pow(Complexes(), w, half) == Complexes().neg(Complexes().one)
  {
    hide Pow, Pow2;
  }

  lemma ComplexSub(a: Complex, b: Complex)
    ensures Complexes().Sub(a, b) == CAdd(a, CNeg(b))
  {}

  lemma Halves(m: nat, k: nat, c: nat)
    requires k < m
    ensures Pow2(m - k) == 2 * Pow2(m - k - 1) && Pow2(k + 1) == 2 * Pow2(k)
    ensures Rev(2 * c, m - k) == Rev(c, m - k - 1)
    ensures Rev(2 * c + 1, m - k) == Rev(c, m - k - 1) + Pow2(m - k - 1)
    ensures Pow2(m - k - 1) * Pow2(k) == Pow2(m) / 2
  {
    Pow2Add(m - k - 1, k);
    assert Pow2(m) == 2 * Pow2(m - 1);
  }

  ghost predicate BlocksDone(w: Complex, x: seq<Complex>, v: seq<Complex>, m: nat, k: nat, from: nat, to: nat) {
    forall b: nat :: from <= b < to ==> BlockDone(w, x, v, m, k, b)
  }

  /** A combined block leaves the finished blocks before it and the pending blocks after it alone. */
  lemma BlockFrame(plan: Plan, w: Complex, x: seq<Complex>, u: seq<Complex>, v: seq<Complex>, m: nat, k: nat, c: nat,
      top: nat)
    requires k < m && BlocksDone(w, x, u, m, k + 1, 0, c) && BlocksDone(w, x, u, m, k, 2 * c + 2, top)
    requires BlockCombined(plan, u, v, c * (2 * Pow2(k)), Pow2(k), Pow2(m - k - 1), Pow2(k))
    ensures BlocksDone(w, x, v, m, k + 1, 0, c) && BlocksDone(w, x, v, m, k, 2 * c + 2, top)
  {
    hide BlockBin, CombinedAt;
    var half, k' := Pow2(k), k + 1;
    forall b: nat | b < c ensures BlockDone(w, x, v, m, k', b) {
      assert BlockDone(w, x, u, m, k', b);
      BlockBound(b, c, 2 * half);
    }
    forall b: nat | 2 * c + 2 <= b < top ensures BlockDone(w, x, v, m, k, b) {
      assert BlockDone(w, x, u, m, k, b);
      DoubleIndex(c, half);
      BlockBound(2 * c + 1, b, half);
    }
  }

  /** One value of k in the outer loop: every pair of neighbouring blocks is combined. */
  method Pass(plan: Plan, mem: array<real>, at: nat, half: nat, ghost k: nat, ghost w: Complex, ghost x: seq<Complex>)
    requires TwiddlesOf(plan, w) && at + 2 * plan.nfft <= mem.Length
    requires k < plan.log2n && half == Pow2(k)
    requires BlocksDone(w, x, View(mem[..], at, plan.nfft), plan.log2n, k, 0, Pow2(plan.log2n - k))
    modifies mem
    ensures SameOutside(old(mem[..]), mem[..], at, 2 * plan.nfft)
    ensures BlocksDone(w, x, View(mem[..], at, plan.nfft), plan.log2n, k + 1, 0, Pow2(plan.log2n - k - 1))
  {
    ghost var m, stride := plan.log2n, Pow2(plan.log2n - k - 1);
    var n, i := plan.nfft, 0;
    Halves(m, k, 0);
    ghost var c: nat := 0;
    BlockCount(m, k);
    assert n == stride * (2 * half);
    hide BlockDone, TwiddlesOf, Pow2, Rev;
    while i < n
      invariant i == c * (2 * half) && c <= stride
      invariant SameOutside(old(mem[..]), mem[..], at, 2 * n)
      invariant BlocksDone(w, x, View(mem[..], at, n), m, k + 1, 0, c)
      invariant BlocksDone(w, x, View(mem[..], at, n), m, k, 2 * c, 2 * stride)
      decreases n - i
    {
      ghost var u := View(mem[..], at, n);
      InRange(c, stride, 2 * half);
      TwiddlesWellFormed(plan, w);
      Block(plan, mem, at, i, half, stride);
      ghost var v := View(mem[..], at, n);
      CombineBlocks(plan, w, x, u, v, m, k, c);
      BlockFrame(plan, w, x, u, v, m, k, c, 2 * stride);
      i := i + half * 2;
      c := c + 1;
    }
    if c < stride { BlockBound(c, stride, 2 * half); }
  }

  lemma BlockCount(m: nat, k: nat)
    requires k < m
    ensures Pow2(m) == Pow2(m - k - 1) * (2 * Pow2(k))
  {
    Pow2Add(m - k - 1, k + 1);
  }

  lemma TwiddlesWellFormed(plan: Plan, w: Complex)
    requires TwiddlesOf(plan, w)
    ensures WellFormed(plan)
  {}

  lemma InRange(c: nat, stride: nat, len: nat)
    requires len > 0 && c <= stride && c * len < stride * len
    ensures c < stride && (c + 1) * len == c * len + len <= stride * len
  {
    if c < stride { BlockBound(c, stride, len); }
  }

  lemma FirstBlocks(w: Complex, x: seq<Complex>, m: nat)
    requires |x| == Pow2(m)
    ensures BlocksDone(w, x, Reversed(x, m), m, 0, 0, Pow2(m))
  {
    hide DftSum;
    forall b: nat | b < Pow2(m) ensures BlockDone(w, x, Reversed(x, m), m, 0, b) {
      RevBound(b, m);
      SingleBin(w, x, Rev(b, m), Pow2(m));
    }
  }

  lemma SingleBin(w: Complex, x: seq<Complex>, base: nat, stride: nat)
    requires base < |x|
    ensures DftSum(Complexes(), w, x, base, stride, 1, 0) == x[base]
  {
    var r := Complexes();
    assert DftSum(r, w, x, base, stride, 0, 0) == r.zero;
    assert Term(r, w, x, base, stride, 0, 0) == x[base];
  }

  lemma LastBlock(w: Complex, x: seq<Complex>, v: seq<Complex>, m: nat)
    requires |x| == |v| == Pow2(m) && BlocksDone(w, x, v, m, m, 0, 1)
    ensures forall t: nat :: t < |x| ==> v[t] == Bin(Complexes(), w, x, t)
  {
    hide DftSum;
    assert BlockDone(w, x, v, m, m, 0);
    forall t: nat | t < |x| ensures v[t] == Bin(Complexes(), w, x, t) {
      assert v[0 * Pow2(m) + t] == BlockBin(w, x, m, m, 0, t);
    }
  }

  // ---- On the words of the buffers ----

  /** The real part of w^(j*t), and its imaginary part. */
  function TurnRe(w: Complex, j: nat, t: nat): real { Pow(Complexes(), w, j * t).re }
  function TurnIm(w: Complex, j: nat, t: nat): real { Pow(Complexes(), w, j * t).im }

  /** The sum over j < m of s[at+2j] * Re w^(jt) - s[at+2j+1] * Im w^(jt). */
  function RealWord(w: Complex, s: seq<real>, at: nat, t: nat, m: nat): real
    requires at + 2 * m <= |s|
  {
    if m == 0 then 0.0
    else
      var j := m - 1;
      RealWord(w, s, at, t, j) + (s[at + 2 * j] * TurnRe(w, j, t) - s[at + 2 * j + 1] * TurnIm(w, j, t))
  }

  /** The sum over j < m of s[at+2j] * Im w^(jt) + s[at+2j+1] * Re w^(jt). */
  function ImagWord(w: Complex, s: seq<real>, at: nat, t: nat, m: nat): real
    requires at + 2 * m <= |s|
  {
    if m == 0 then 0.0
    else
      var j := m - 1;
      ImagWord(w, s, at, t, j) + (s[at + 2 * j] * TurnIm(w, j, t) + s[at + 2 * j + 1] * TurnRe(w, j, t))
  }

  lemma {:induction false} WordSums(w: Complex, s: seq<real>, at: nat, n: nat, t: nat, m: nat)
    requires at + 2 * n <= |s| && m <= n
    ensures DftSum(Complexes(), w, View(s, at, n), 0, 1, m, t) ==
            Complex(RealWord(w, s, at, t, m), ImagWord(w, s, at, t, m))
  {
    hide Pow;
    if m > 0 {
      WordSums(w, s, at, n, t, m - 1);
      assert 1 * (m - 1) * t == (m - 1) * t;
    }
  }

  /** Every bin in two words: real part first. */
  lemma BinWords(w: Complex, s: seq<real>, at: nat, s': seq<real>, at': nat, n: nat)
    requires at + 2 * n <= |s| && at' + 2 * n <= |s'|
    requires forall t: nat :: t < n ==> View(s', at', n)[t] == Bin(Complexes(), w, View(s, at, n), t)
    ensures forall t: nat :: t < n ==>
              s'[at' + 2 * t] == RealWord(w, s, at, t, n) && s'[at' + 2 * t + 1] == ImagWord(w, s, at, t, n)
  {
    hide DftSum, RealWord, ImagWord;
    forall t: nat | t < n
      ensures s'[at' + 2 * t] == RealWord(w, s, at, t, n) && s'[at' + 2 * t + 1] == ImagWord(w, s, at, t, n)
    {
      WordSums(w, s, at, n, t, n);
      assert View(s', at', n)[t] == Complex(s'[at' + 2 * t], s'[at' + 2 * t + 1]);
    }
  }

  datatype Ptr = Null | Ptr(offset: nat)

  predicate Accepts(plan: Option<Plan>, src: Ptr, dst: Ptr) {
    && plan.Some? && src.Ptr? && dst.Ptr?
    && (src == dst ||
        (if src.offset > dst.offset then src.offset - dst.offset else dst.offset - src.offset) >= 2 * plan.value.nfft)
  }

  /** fft_execute: an accepted call leaves every bin of the transform of the input in the
      output buffer, whether the buffers coincide or are disjoint, and touches nothing else;
      a rejected call changes nothing. */
  method Execute(plan: Option<Plan>, mem: array<real>, src: Ptr, dst: Ptr, ghost w: Complex) returns (rc: int)
    requires plan.Some? ==> TwiddlesOf(plan.value, w)
    requires plan.Some? && src.Ptr? ==> src.offset + 2 * plan.value.nfft <= mem.Length
    requires plan.Some? && dst.Ptr? ==> dst.offset + 2 * plan.value.nfft <= mem.Length
    modifies mem
    ensures rc == if Accepts(plan, src, dst) then 0 else -1
    ensures rc == -1 ==> mem[..] == old(mem[..])
    ensures rc == 0 ==> SameOutside(old(mem[..]), mem[..], dst.offset, 2 * plan.value.nfft)
    ensures rc == 0 ==>
              var n := plan.value.nfft;
              forall t: nat :: t < n ==>
                View(mem[..], dst.offset, n)[t] == Bin(Complexes(), w, old(View(mem[..], src.offset, n)), t)
    ensures rc == 0 ==>
              var n, at, was := plan.value.nfft, dst.offset, old(mem[..]);
              forall t: nat :: t < n ==>
                && mem[at + 2 * t] == RealWord(w, was, src.offset, t, n)
                && mem[at + 2 * t + 1] == ImagWord(w, was, src.offset, t, n)
  {
    if !Accepts(plan, src, dst) {
      return -1;
    }
    var p, at := plan.value, dst.offset;
    var n, log2n := p.nfft, p.log2n;
    ghost var x := View(mem[..], src.offset, n);
    if src != dst {
      Copy(mem, src.offset, at, n);
    }
    assert View(mem[..], at, n) == x;
    BitReverse(mem, at, n, log2n);
    FirstBlocks(w, x, log2n);
    var step := 1;
    for k := 0 to log2n
      invariant step == Pow2(k)
      invariant SameOutside(old(mem[..]), mem[..], at, 2 * n)
      invariant BlocksDone(w, x, View(mem[..], at, n), log2n, k, 0, Pow2(log2n - k))
    {
      Pass(p, mem, at, step, k, w, x);
      step := step * 2;
    }
    LastBlock(w, x, View(mem[..], at, n), log2n);
    BinWords(w, old(mem[..]), src.offset, mem[..], at, n);
    return 0;
  }

  /** memcpy between disjoint buffers. */
  method Copy(mem: array<real>, src: nat, dst: nat, n: nat)
    requires src + 2 * n <= mem.Length && dst + 2 * n <= mem.Length
    requires src + 2 * n <= dst || dst + 2 * n <= src
    modifies mem
    ensures SameOutside(old(mem[..]), mem[..], dst, 2 * n)
    ensures View(mem[..], dst, n) == old(View(mem[..], src, n))
  {
    for i := 0 to 2 * n
      invariant SameOutside(old(mem[..]), mem[..], dst, 2 * n)
      invariant forall p :: dst <= p < dst + i ==> mem[p] == old(mem[p - dst + src])
    {
      assert mem[src + i] == old(mem[src + i]);
      mem[dst + i] := mem[src + i];
    }
  }
}
