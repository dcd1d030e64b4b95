/** The discrete Fourier transform over any commutative ring, and the algebra behind the
    radix-2 decimation-in-time passes of src/fft/fft_cpu.c. */
module Dft {
  import opened Rings
  import opened Bits

  /** The m-bit reversal of i. */
  function Rev(i: nat, m: nat): nat {
    if m == 0 then 0 else Rev(i / 2, m - 1) + if i % 2 == 1 then Pow2(m - 1) else 0
  }

  lemma {:induction false} RevBound(i: nat, m: nat)
    ensures Rev(i, m) < Pow2(m)
  {
    if m > 0 { RevBound(i / 2, m - 1); }
  }

  /** The same reversal read off from the other end. */
  lemma {:induction false} RevTop(lo: nat, top: bool, m: nat)
    requires lo < Pow2(m)
    ensures Rev(lo + (if top then Pow2(m) else 0), m + 1) == 2 * Rev(lo, m) + (if top then 1 else 0)
  {
    var i := lo + if top then Pow2(m) else 0;
    assert Rev(i, m + 1) == Rev(i / 2, m) + if i % 2 == 1 then Pow2(m) else 0;
    if m > 0 {
      assert Pow2(m) == 2 * Pow2(m - 1);
      assert i / 2 == lo / 2 + (if top then Pow2(m - 1) else 0) && i % 2 == lo % 2;
      RevTop(lo / 2, top, m - 1);
    }
  }

  /** Reversing twice is the identity: the reversal is an involutive permutation. */
  lemma {:induction false} RevInvolution(i: nat, m: nat)
    requires i < Pow2(m)
    ensures Rev(i, m) < Pow2(m)
    ensures Rev(Rev(i, m), m) == i
  {
    RevBound(i, m);
    if m > 0 {
      RevInvolution(i / 2, m - 1);
      RevTop(Rev(i / 2, m - 1), i % 2 == 1, m - 1);
    }
  }

  function At<T>(r: Ring<T>, x: seq<T>, i: nat): T {
    if i < |x| then x[i] else r.zero
  }

  /** Sample base + s*stride weighted by w^(stride*s*t). */
  function Term<T>(r: Ring<T>, w: T, x: seq<T>, base: nat, stride: nat, s: nat, t: nat): T {
    r.mul(At(r, x, base + s * stride), Pow(r, w, stride * s * t))
  }

  /** The sum over s < len of x[base + s*stride] * w^(stride*s*t). */
  function DftSum<T>(r: Ring<T>, w: T, x: seq<T>, base: nat, stride: nat, len: nat, t: nat): T {
    if len == 0 then r.zero
    else r.add(DftSum(r, w, x, base, stride, len - 1, t), Term(r, w, x, base, stride, len - 1, t))
  }

  /** Bin t of the transform of x: the sum over j < |x| of x[j] * w^(j*t). */
  function Bin<T>(r: Ring<T>, w: T, x: seq<T>, t: nat): T {
    DftSum(r, w, x, 0, 1, |x|, t)
  }

  lemma EvenTerm<T(!new)>(r: Ring<T>, w: T, x: seq<T>, base: nat, stride: nat, q: nat, t: nat)
    ensures Term(r, w, x, base, stride, 2 * q, t) == Term(r, w, x, base, 2 * stride, q, t)
  {
    assert stride * (2 * q) == (2 * stride) * q;
    assert (2 * q) * stride == q * (2 * stride);
  }

  lemma OddIndex(stride: nat, q: nat, t: nat, base: nat)
    ensures stride * (2 * q + 1) * t == stride * t + (2 * stride) * q * t
    ensures base + (2 * q + 1) * stride == base + stride + q * (2 * stride)
  {
    var u := stride * q;
    assert stride * (2 * q + 1) == stride + 2 * u && (2 * stride) * q == 2 * u && q * (2 * stride) == 2 * u;
    assert (stride + 2 * u) * t == stride * t + (2 * u) * t;
  }

  lemma OddTerm<T(!new)>(r: Ring<T>, w: T, x: seq<T>, base: nat, stride: nat, q: nat, t: nat)
    requires Lawful(r)
    ensures Term(r, w, x, base, stride, 2 * q + 1, t)
         == r.mul(Pow(r, w, stride * t), Term(r, w, x, base + stride, 2 * stride, q, t))
  {
    hide Lawful, At, Pow;
    var j, k := stride * t, (2 * stride) * q * t;
    OddIndex(stride, q, t, base);
    var b := At(r, x, base + stride + q * (2 * stride));
    PowAdd(r, w, j, k);
    MulAssoc(r, b, Pow(r, w, j), Pow(r, w, k));
    MulComm(r, b, Pow(r, w, j));
    MulAssoc(r, Pow(r, w, j), b, Pow(r, w, k));
  }

  /** A transform of even length splits into the transforms of its even and odd samples. */
  lemma {:induction false} Split<T(!new)>(r: Ring<T>, w: T, x: seq<T>, base: nat, stride: nat, len: nat, t: nat)
    requires Lawful(r)
    ensures DftSum(r, w, x, base, stride, 2 * len, t)
         == r.add(DftSum(r, w, x, base, 2 * stride, len, t),
                  r.mul(Pow(r, w, stride * t), DftSum(r, w, x, base + stride, 2 * stride, len, t)))
  {
    hide Lawful, Term, Pow;
    var p := Pow(r, w, stride * t);
    if len == 0 {
      MulZero(r, p);
      AddZero(r, r.zero);
    } else {
      var q := len - 1;
      Split(r, w, x, base, stride, q, t);
      EvenTerm(r, w, x, base, stride, q, t);
      OddTerm(r, w, x, base, stride, q, t);
      var ev := DftSum(r, w, x, base, 2 * stride, q, t);
      var od := DftSum(r, w, x, base + stride, 2 * stride, q, t);
      var e := Term(r, w, x, base, 2 * stride, q, t);
      var o := Term(r, w, x, base + stride, 2 * stride, q, t);
      assert DftSum(r, w, x, base, stride, 2 * q + 1, t)
          == r.add(DftSum(r, w, x, base, stride, 2 * q, t), Term(r, w, x, base, stride, 2 * q, t));
      AddExchange(r, ev, r.mul(p, od), e, r.mul(p, o));
      Distributes(r, p, od, o);
    }
  }

  lemma PeriodicTerm<T(!new)>(r: Ring<T>, w: T, x: seq<T>, base: nat, stride: nat, q: nat, n: nat, period: nat, t: nat)
    requires Lawful(r) && Pow(r, w, n) == r.one && stride * period == n
    ensures Term(r, w, x, base, stride, q, t + period) == Term(r, w, x, base, stride, q, t)
  {
    hide Lawful;
    assert stride * q * (t + period) == stride * q * t + n * q by {
      assert stride * q * period == (stride * period) * q;
    }
    PowAdd(r, w, stride * q * t, n * q);
    PowOne(r, w, n, q);
    MulOne(r, Pow(r, w, stride * q * t));
  }

  /** Over a root with w^(stride*period) = 1 the bins repeat with that period. */
  lemma {:induction false} Periodic<T(!new)>(r: Ring<T>, w: T, x: seq<T>, base: nat, stride: nat, len: nat, n: nat,
      period: nat, t: nat)
    requires Lawful(r) && Pow(r, w, n) == r.one && stride * period == n
    ensures DftSum(r, w, x, base, stride, len, t + period) == DftSum(r, w, x, base, stride, len, t)
  {
    hide Lawful, Term, Pow;
    if len > 0 {
      Periodic(r, w, x, base, stride, len - 1, n, period, t);
      PeriodicTerm(r, w, x, base, stride, len - 1, n, period, t);
    }
  }

  /** One butterfly: from the half-length bins E and O of the even and odd samples, with
      w^(stride*len) = -1, bins t and t + len of the full length are E + w^(stride*t)*O and
      E - w^(stride*t)*O. */
  lemma Butterfly<T(!new)>(r: Ring<T>, w: T, x: seq<T>, base: nat, stride: nat, len: nat, t: nat)
    requires Lawful(r) && Pow(r, w, stride * len) == r.neg(r.one)
    ensures var e := DftSum(r, w, x, base, 2 * stride, len, t);
            var o := r.mul(Pow(r, w, stride * t), DftSum(r, w, x, base + stride, 2 * stride, len, t));
            && DftSum(r, w, x, base, stride, 2 * len, t) == r.add(e, o)
            && DftSum(r, w, x, base, stride, 2 * len, t + len) == r.Sub(e, o)
  {
    hide Lawful, Term, Pow, DftSum;
    var p := Pow(r, w, stride * t);
    var o := DftSum(r, w, x, base + stride, 2 * stride, len, t);
    Split(r, w, x, base, stride, len, t);
    Split(r, w, x, base, stride, len, t + len);
    FullTurn(r, w, stride * len);
    assert (2 * stride) * len == 2 * (stride * len);
    Periodic(r, w, x, base, 2 * stride, len, 2 * (stride * len), len, t);
    Periodic(r, w, x, base + stride, 2 * stride, len, 2 * (stride * len), len, t);
    assert stride * (t + len) == stride * t + stride * len;
    PowAdd(r, w, stride * t, stride * len);
    MulNeg(r, p, r.one);
    MulOne(r, p);
    MulNeg(r, o, p);
    MulComm(r, o, p);
  }

  lemma FullTurn<T(!new)>(r: Ring<T>, w: T, half: nat)
    requires Lawful(r) && Pow(r, w, half) == r.neg(r.one)
    ensures Pow(r, w, 2 * half) == r.one
  {
    hide Lawful, Pow;
    PowAdd(r, w, half, half);
    MulNeg(r, r.neg(r.one), r.one);
    MulOne(r, r.neg(r.one));
    AddNeg(r, r.one);
    CancelZero(r, r.neg(r.one), r.one);
  }
}
