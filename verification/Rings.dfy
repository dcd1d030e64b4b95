/** Commutative rings passed as values, and complex numbers over the reals as the
    instance in which the transform of the FFT backend computes. */
module Rings {

  datatype Ring<!T> = Ring(zero: T, one: T, add: (T, T) -> T, neg: T -> T, mul: (T, T) -> T) {
    function Sub(a: T, b: T): T { add(a, neg(b)) }
  }

  ghost predicate Lawful<T(!new)>(r: Ring<T>) {
    && (forall a, b :: r.add(a, b) == r.add(b, a))
    && (forall a, b, c :: r.add(r.add(a, b), c) == r.add(a, r.add(b, c)))
    && (forall a :: r.add(r.zero, a) == a)
    && (forall a :: r.add(a, r.neg(a)) == r.zero)
    && (forall a, b :: r.mul(a, b) == r.mul(b, a))
    && (forall a, b, c :: r.mul(r.mul(a, b), c) == r.mul(a, r.mul(b, c)))
    && (forall a :: r.mul(r.one, a) == a)
    && (forall a, b, c :: r.mul(a, r.add(b, c)) == r.add(r.mul(a, b), r.mul(a, c)))
  }

  // The laws one instance at a time; proofs below hide the quantified form.

  lemma AddComm<T(!new)>(r: Ring<T>, a: T, b: T)
    requires Lawful(r)
    ensures r.add(a, b) == r.add(b, a)
  {}

  lemma AddAssoc<T(!new)>(r: Ring<T>, a: T, b: T, c: T)
    requires Lawful(r)
    ensures r.add(r.add(a, b), c) == r.add(a, r.add(b, c))
  {}

  lemma AddZero<T(!new)>(r: Ring<T>, a: T)
    requires Lawful(r)
    ensures r.add(r.zero, a) == a && r.add(a, r.zero) == a
  {}

  lemma AddNeg<T(!new)>(r: Ring<T>, a: T)
    requires Lawful(r)
    ensures r.add(a, r.neg(a)) == r.zero && r.add(r.neg(a), a) == r.zero
  {}

  lemma MulComm<T(!new)>(r: Ring<T>, a: T, b: T)
    requires Lawful(r)
    ensures r.mul(a, b) == r.mul(b, a)
  {}

  lemma MulAssoc<T(!new)>(r: Ring<T>, a: T, b: T, c: T)
    requires Lawful(r)
    ensures r.mul(r.mul(a, b), c) == r.mul(a, r.mul(b, c))
  {}

  lemma MulOne<T(!new)>(r: Ring<T>, a: T)
    requires Lawful(r)
    ensures r.mul(r.one, a) == a && r.mul(a, r.one) == a
  {}

  lemma Distributes<T(!new)>(r: Ring<T>, a: T, b: T, c: T)
    requires Lawful(r)
    ensures r.mul(a, r.add(b, c)) == r.add(r.mul(a, b), r.mul(a, c))
  {}

  lemma AddExchange<T(!new)>(r: Ring<T>, a: T, b: T, c: T, d: T)
    requires Lawful(r)
    ensures r.add(r.add(r.add(a, b), c), d) == r.add(r.add(a, c), r.add(b, d))
  {
    hide Lawful;
    AddAssoc(r, a, b, c);
    AddComm(r, b, c);
    AddAssoc(r, a, c, b);
    AddAssoc(r, r.add(a, c), b, d);
  }

  lemma CancelZero<T(!new)>(r: Ring<T>, a: T, b: T)
    requires Lawful(r) && r.add(a, b) == r.zero
    ensures b == r.neg(a)
  {
    hide Lawful;
    AddZero(r, b);
    AddNeg(r, a);
    AddAssoc(r, r.neg(a), a, b);
    AddZero(r, r.neg(a));
  }

  lemma MulZero<T(!new)>(r: Ring<T>, a: T)
    requires Lawful(r)
    ensures r.mul(a, r.zero) == r.zero
  {
    hide Lawful;
    var z := r.mul(a, r.zero);
    AddZero(r, r.zero);
    Distributes(r, a, r.zero, r.zero);
    AddNeg(r, z);
    AddAssoc(r, z, z, r.neg(z));
    AddZero(r, z);
  }

  lemma MulNeg<T(!new)>(r: Ring<T>, a: T, b: T)
    requires Lawful(r)
    ensures r.mul(a, r.neg(b)) == r.neg(r.mul(a, b))
    ensures r.mul(r.neg(b), a) == r.neg(r.mul(a, b))
  {
    hide Lawful;
    Distributes(r, a, b, r.neg(b));
    AddNeg(r, b);
    MulZero(r, a);
    CancelZero(r, r.mul(a, b), r.mul(a, r.neg(b)));
    MulComm(r, a, r.neg(b));
  }

  function Pow<T>(r: Ring<T>, w: T, k: nat): T {
    if k == 0 then r.one else r.mul(w, Pow(r, w, k - 1))
  }

  lemma {:induction false} PowAdd<T(!new)>(r: Ring<T>, w: T, j: nat, k: nat)
    requires Lawful(r)
    ensures Pow(r, w, j + k) == r.mul(Pow(r, w, j), Pow(r, w, k))
  {
    hide Lawful;
    if j == 0 {
      MulOne(r, Pow(r, w, k));
    } else {
      PowAdd(r, w, j - 1, k);
      MulAssoc(r, w, Pow(r, w, j - 1), Pow(r, w, k));
    }
  }

  lemma {:induction false} PowOne<T(!new)>(r: Ring<T>, w: T, n: nat, k: nat)
    requires Lawful(r) && Pow(r, w, n) == r.one
    ensures Pow(r, w, n * k) == r.one
  {
    hide Lawful;
    if k > 0 {
      PowOne(r, w, n, k - 1);
      PowAdd(r, w, n, n * (k - 1));
      assert n + n * (k - 1) == n * k;
      MulOne(r, r.one);
    }
  }

  // ---- Complex numbers ----

  datatype Complex = Complex(re: real, im: real)

  function CAdd(a: Complex, b: Complex): Complex { Complex(a.re + b.re, a.im + b.im) }
  function CNeg(a: Complex): Complex { Complex(-a.re, -a.im) }
  function CMul(a: Complex, b: Complex): Complex {
    Complex(a.re * b.re - a.im * b.im, a.re * b.im + a.im * b.re)
  }

  function Complexes(): Ring<Complex> {
    Ring(Complex(0.0, 0.0), Complex(1.0, 0.0), CAdd, CNeg, CMul)
  }

  lemma CMulAssoc(a: Complex, b: Complex, c: Complex)
    ensures CMul(CMul(a, b), c) == CMul(a, CMul(b, c))
  {}

  lemma CMulDistributes(a: Complex, b: Complex, c: Complex)
    ensures CMul(a, CAdd(b, c)) == CAdd(CMul(a, b), CMul(a, c))
  {}

  lemma ComplexesLawful()
    ensures Lawful(Complexes())
  {
    var r := Complexes();
    forall a, b, c
      ensures r.mul(r.mul(a, b), c) == r.mul(a, r.mul(b, c))
    { CMulAssoc(a, b, c); }
    forall a, b, c
      ensures r.mul(a, r.add(b, c)) == r.add(r.mul(a, b), r.mul(a, c))
    { CMulDistributes(a, b, c); }
  }
}
