/** The laws of sine and cosine, and the powers of a point on the unit circle: what the twiddle
    and oscillator tables of src/fft/fft_cpu.c and src/rtl_dsp.c are filled with. */
module Trigonometry {
  import opened Rings

  ghost predicate Trigonometric(cos: real -> real, sin: real -> real, pi: real) {
    && cos(0.0) == 1.0 && sin(0.0) == 0.0 && cos(pi / 2.0) == 0.0 && sin(pi / 2.0) == 1.0
    && (forall a, b :: SumLaw(cos, sin, a, b)) && (forall a :: MirrorLaw(cos, sin, a))
  }

  ghost predicate SumLaw(cos: real -> real, sin: real -> real, a: real, b: real) {
    cos(a + b) == cos(a) * cos(b) - sin(a) * sin(b) && sin(a + b) == cos(a) * sin(b) + sin(a) * cos(b)
  }

  ghost predicate MirrorLaw(cos: real -> real, sin: real -> real, a: real) { cos(-a) == cos(a) && sin(-a) == -sin(a) }

  /** The point at angle a. */
  function Cis(cos: real -> real, sin: real -> real, a: real): Complex { Complex(cos(a), sin(a)) }

  lemma CisAdd(cos: real -> real, sin: real -> real, pi: real, a: real, b: real)
    requires Trigonometric(cos, sin, pi)
    ensures Cis(cos, sin, a + b) == CMul(Cis(cos, sin, a), Cis(cos, sin, b))
  {
    assert SumLaw(cos, sin, a, b);
  }

  lemma PowNext(w: Complex, k: nat)
    ensures Pow(Complexes(), w, k + 1) == CMul(w, Pow(Complexes(), w, k))
  {}

  /** De Moivre's formula, for x = k * a. */
  lemma {:induction false} CisPower(cos: real -> real, sin: real -> real, pi: real, a: real, k: nat, x: real)
    requires Trigonometric(cos, sin, pi) && x == k as real * a
    ensures Pow(Complexes(), Cis(cos, sin, a), k) == Cis(cos, sin, x)
  {
    hide Trigonometric, CMul;
    if k == 0 {
      CisZero(cos, sin, pi);
    } else {
      CisPower(cos, sin, pi, a, k - 1, x - a);
      CisAdd(cos, sin, pi, a, x - a);
      assert a + (x - a) == x;
      PowNext(Cis(cos, sin, a), k - 1);
    }
  }

  lemma CisZero(cos: real -> real, sin: real -> real, pi: real)
    requires Trigonometric(cos, sin, pi)
    ensures Cis(cos, sin, 0.0) == Complex(1.0, 0.0)
  {}

  lemma QuarterTurn(cos: real -> real, sin: real -> real, pi: real)
    requires Trigonometric(cos, sin, pi)
    ensures Cis(cos, sin, pi / 2.0) == Complex(0.0, 1.0)
  {}

  lemma HalfTurnBack(cos: real -> real, sin: real -> real, pi: real)
    requires Trigonometric(cos, sin, pi)
    ensures Cis(cos, sin, -pi) == Complex(-1.0, 0.0)
  {
    assert SumLaw(cos, sin, pi / 2.0, pi / 2.0);
    assert pi / 2.0 + pi / 2.0 == pi;
    assert MirrorLaw(cos, sin, pi);
  }

  lemma Backwards(cos: real -> real, sin: real -> real, pi: real, a: real)
    requires Trigonometric(cos, sin, pi)
    ensures Cis(cos, sin, -a) == Complex(cos(a), -sin(a))
  {
    assert MirrorLaw(cos, sin, a);
  }
}
