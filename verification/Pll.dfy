/** The fractional-N arithmetic of r82xx_set_pll (src/tuner_r82xx.c), with the widths of the
    source's integers. */
module Pll {
  import opened Bits
  import opened Words

  const VCO_MIN := 1770000    // kHz
  const VCO_MAX := 3540000

  predicate InBand(khz: nat, d: nat) { VCO_MIN <= khz * d < VCO_MAX }

  lemma NotBoth(khz: nat, m: nat, n: nat)
    requires m < n
    ensures !(InBand(khz, Pow2(m)) && InBand(khz, Pow2(n)))
  {
    Pow2Monotone(m, n);
    Doubled(khz, Pow2(m), Pow2(n));
  }

  /** The band spans one octave, so no frequency has two power-of-two dividers. */
  lemma DividerUnique(khz: nat, m: nat, n: nat)
    requires InBand(khz, Pow2(m)) && InBand(khz, Pow2(n))
    ensures m == n
  {
    if m != n {
      NotBoth(khz, if m < n then m else n, if m < n then n else m);
    }
  }

  lemma Doubled(k: nat, d: nat, e: nat)
    requires 2 * d <= e
    ensures 2 * (k * d) <= k * e
  {
    assert k * e - 2 * (k * d) == k * (e - 2 * d);
  }

  lemma Ladder(n: nat)
    ensures Pow2(1) == 2 && Pow2(7) == 128 && (Pow2(n) <= 64 <==> n <= 6)
  {
    assert Pow2(3) == 8;
    assert Pow2(5) == 32;
    assert Pow2(7) == 128;
    if n < 6 {
      Pow2Monotone(n, 6);
    } else if n > 6 {
      Pow2Monotone(6, n);
    }
  }

  /** The divider search: the one divider that puts the oscillator in its band, with its
      exponent, or 128 when there is none. */
  method FindDivider(khz: u32) returns (mixDiv: byte, divNum: byte)
    requires khz <= U32 / 1000
    ensures mixDiv == 128 || (divNum <= 5 && mixDiv == Pow2(divNum + 1) && InBand(khz, mixDiv))
    ensures mixDiv == 128 ==> divNum == 0 && forall n :: 1 <= n <= 6 ==> !InBand(khz, Pow2(n))
  {
    hide Pow2;
    Ladder(1);
    mixDiv, divNum := 2, 0;
    ghost var n: nat := 1;
    while mixDiv <= 64
      invariant 1 <= n <= 7 && divNum == 0 && mixDiv == Pow2(n)
      invariant forall m :: 1 <= m < n ==> !InBand(khz, Pow2(m))
      decreases 128 - mixDiv
    {
      Ladder(n);
      var product: u32 := Product(khz, mixDiv);
      if VCO_MIN <= product && product < VCO_MAX {
        divNum := Halvings(mixDiv, n);
        return;
      }
      Twice(n);
      mixDiv := mixDiv * 2;
      n := n + 1;
    }
    Ladder(n);
  }

  /** freq_khz * mix_div fits 32 bits. */
  function Product(khz: nat, d: nat): (r: u32)
    requires khz <= U32 / 1000 && d <= 64
    ensures r == khz * d
  {
    Small(khz, d);
    khz * d
  }

  lemma Small(k: nat, d: nat)
    requires d <= 64
    ensures 0 <= k * d <= 64 * k
  {
    assert k * (64 - d) >= 0;
  }

  lemma Twice(n: nat)
    ensures Pow2(n + 1) == 2 * Pow2(n)
  {}

  method Halvings(mixDiv: byte, ghost n: nat) returns (divNum: byte)
    requires 1 <= n <= 6 && mixDiv == Pow2(n)
    ensures divNum == n - 1
  {
    var divBuf: byte := mixDiv;
    ghost var m := n;
    divNum := 0;
    while divBuf > 2
      invariant 1 <= m <= n && divBuf == Pow2(m) && divNum == n - m
      decreases divBuf
    {
      divBuf, divNum := divBuf / 2, divNum + 1;
      m := m - 1;
    }
  }

  // ---- The fractional divider ----

  /** The oscillator frequency, in Hz. */
  function Vco(freq: u32, mixDiv: byte): nat {
    var f: int, m: int := freq, mixDiv;
    f * m
  }

  /** 65536 * vco / (2 * ref), rounded. */
  function VcoDiv(vco: nat, ref: pos): nat { (ref + 65536 * vco) / (2 * ref) }

  lemma DivBounds(n: nat, d: pos)
    ensures n / d * d <= n < n / d * d + d
  {}

  /** It is the nearest integer: the oscillator set up by it is off by at most ref / 65536 Hz. */
  lemma VcoDivNearest(vco: nat, ref: pos)
    ensures var d, r: int := VcoDiv(vco, ref), ref; -r <= d * (2 * r) - 65536 * vco <= r
  {
    DivBounds(ref + 65536 * vco, 2 * ref);
  }

  /** C's truncating division of nint - 13 by 4. */
  function Quarter(x: int): int { if x >= 0 then x / 4 else -((-x) / 4) }

  /** Register 0x14 as the source's 8-bit arithmetic forms it. */
  function IntegerReg(nint: byte): byte {
    var n: int := nint;
    var ni := Quarter(n - 13) % 256;
    Pack(ni, (n - 4 * ni - 13) % 256)
  }

  function Pack(ni: nat, si: nat): byte { (ni + si * 64) % 256 }

  /** What the chip makes of registers 0x14 to 0x16. */
  function Decoded(r14: byte, r15: byte, r16: byte): nat {
    65536 * IntegerPart(r14) + 256 * r16 + r15
  }

  /** The largest integer part accepted, for a VCO power reference of 1 or 2. */
  function Limit(powerRef: nat): nat { if powerRef == 1 then 127 else 63 }

  /** The integer part that register 0x14 stands for. */
  function IntegerPart(r14: byte): nat { 4 * (r14 % 64) + r14 / 64 + 13 }

  lemma Packed(ni: nat, si: nat)
    requires ni < 64 && si < 4
    ensures Pack(ni, si) % 64 == ni && Pack(ni, si) / 64 == si
  {
    assert Pack(ni, si) == ni + si * 64;
  }

  lemma IntegerRegExact(nint: byte)
    requires 13 <= nint <= 127
    ensures IntegerPart(IntegerReg(nint)) == nint
  {
    hide Pack;
    var n: int := nint;
    var ni := (n - 13) / 4;
    var si := n - 13 - 4 * ni;
    assert 0 <= ni <= 28 && 0 <= si <= 3;
    assert IntegerReg(nint) == Pack(ni, si);
    Packed(ni, si);
  }

  /** Above 9 the quotient is zero and the remainder wraps; up to 9 both wrap. */
  lemma IntegerRegSmall(nint: byte)
    requires nint < 13
    ensures IntegerPart(IntegerReg(nint)) == if nint <= 9 then nint + 259 else nint + 4
  {
    hide Pack;
    var n: int := nint;
    var k := (13 - n) / 4;
    var e := 13 - n - 4 * k;
    assert Quarter(n - 13) == -k && 0 <= e <= 3 && k <= 3;
    assert (-k) % 256 == if k == 0 then 0 else 256 - k;
    assert (-e) % 256 == (-e - 1024) % 256 == if e == 0 then 0 else 256 - e;
    assert IntegerReg(nint) == Pack(if k == 0 then 0 else 256 - k, if e == 0 then 0 else 256 - e);
    PackSmall(k, e);
  }

  lemma PackSmall(k: nat, e: nat)
    requires k <= 3 && e <= 3
    ensures Pack(if k == 0 then 0 else 256 - k, if e == 0 then 0 else 256 - e) ==
            if k == 0 then (if e == 0 then 0 else 64 * (4 - e)) else if e == 0 then 256 - k else 64 * (4 - e) - k
  {}

  /** Below 13 the fields wrap to another number. */
  lemma IntegerRegWraps(nint: byte)
    requires nint < 13
    ensures IntegerPart(IntegerReg(nint)) != nint && IntegerPart(IntegerReg(nint)) != nint + 256
  {
    hide IntegerReg;
    IntegerRegSmall(nint);
  }

  /** The registers of an accepted setting decode to it exactly when its integer part is at
      least 13 and was not cut to eight bits. */
  lemma FieldsExact(d: nat, powerRef: nat)
    requires d / 65536 % U32 % 256 <= Limit(powerRef)
    ensures var q, sdm := d / 65536, d % 65536;
            Decoded(IntegerReg(q % U32 % 256), sdm % 256, sdm / 256) == d <==> 13 <= q <= Limit(powerRef)
  {
    hide IntegerReg, IntegerPart;
    var q, sdm := d / 65536, d % 65536;
    var nint := q % U32 % 256;
    if nint >= 13 { IntegerRegExact(nint); } else { IntegerRegWraps(nint); }
    PartBound(IntegerReg(nint));
    assert Decoded(IntegerReg(nint), sdm % 256, sdm / 256) == 65536 * IntegerPart(IntegerReg(nint)) + sdm;
  }

  lemma PartBound(r14: byte)
    ensures IntegerPart(r14) <= 268
  {}

  /** freq_khz, in 32-bit arithmetic. */
  function Khz(freq: u32): (k: u32)
    ensures k <= U32 / 1000
  {
    (freq + 500) % U32 / 1000
  }

  lemma VcoRange(freq: u32, mixDiv: byte)
    requires 1 <= mixDiv <= 64 && InBand(Khz(freq), mixDiv)
    ensures 1769968000 <= Vco(freq, mixDiv) <= 3540032000
  {
    var k := Khz(freq);
    assert k >= 1 by { assert k == 0 ==> k * mixDiv == 0; }
    Small(k, mixDiv);
    assert freq + 500 < U32;
    assert 1000 * k <= freq + 500 < 1000 * k + 1000;
    Scaled(freq + 500 - 1000 * k, mixDiv);
    assert freq * mixDiv == 1000 * (k * mixDiv) + (freq + 500 - 1000 * k) * mixDiv - 500 * mixDiv;
  }

  lemma Scaled(r: nat, d: nat)
    requires r < 1000 && d <= 64
    ensures 0 <= r * d <= 999 * d
  {
    assert (999 - r) * d >= 0;
  }

  /** Every divider found, with every crystal from 16 to 28.8 MHz, gives an integer part that
      the fields can hold. */
  lemma FoundInRange(vco: nat, ref: pos)
    requires 1769968000 <= vco <= 3540032000 && 16000000 <= ref <= 28800000
    ensures 13 <= VcoDiv(vco, ref) / 65536 <= 127
  {
    var d := VcoDiv(vco, ref);
    DivBounds(ref + 65536 * vco, 2 * ref);
    AtLeast(d, 2 * ref, 13 * 65536, ref + 65536 * vco);
    AtLeast(128 * 65536, 2 * ref, d, ref + 65536 * vco);
  }

  lemma AtLeast(d: nat, m: pos, c: nat, n: nat)
    requires c * m <= d * m + m - 1
    ensures c <= d
  {
    var k := c - d - 1;
    assert k >= 0 ==> k * m >= 0;
    assert c * m == d * m + m + k * m;
  }

  // ---- The registers ----

  function Mask8(reg: byte, val: byte, mask: byte): byte {
    Pow2Of8();
    Masked(reg, val, mask, 8)
  }

  /** div_num << 5, in 8 bits. */
  function Raised(div: byte): (r: byte)
    ensures r / 32 == div % 8
  {
    var d: int := div;
    d * 32 % 256
  }

  /** div_num after the fine-tune correction, in 8-bit arithmetic. */
  function Corrected(divNum: byte, fine: byte, powerRef: byte): byte {
    if fine > powerRef then (divNum - 1) % 256 else if fine < powerRef then (divNum + 1) % 256 else divNum
  }

  /** Setting d is refused when its integer part, in eight bits, is over the limit. Otherwise
      the fields decode to it exactly when the part is at least 13 and was not cut, and the
      modulator is powered down exactly when the fraction is zero. */
  ghost predicate Programmed(d: nat, powerRef: nat, ok: bool, regs: seq<byte>)
    requires |regs| == 7
  {
    && ok == (d / 65536 % U32 % 256 <= Limit(powerRef))
    && (ok ==> (Decoded(regs[4], regs[5], regs[6]) == d <==> 13 <= d / 65536 <= Limit(powerRef)))
    && (ok ==> BitAt(regs[2], 3) == if d % 65536 == 0 then 1 else 0)
  }

  lemma ProgrammedFields(d: nat, powerRef: nat, ok: bool, regs: seq<byte>)
    requires |regs| == 7 && Programmed(d, powerRef, ok, regs)
    ensures ok ==> (Decoded(regs[4], regs[5], regs[6]) == d <==> 13 <= d / 65536 <= Limit(powerRef))
  {}

  /** Registers 0x10 to 0x16 for an oscillator frequency of freq * mixDiv. */
  method Program(regs: array<byte>, freq: u32, ref: pos, mixDiv: byte, divNum: byte, fine: byte, powerRef: byte)
      returns (ok: bool)
    requires regs.Length == 7 && 2 * ref < U32 && 1 <= powerRef <= 2
    modifies regs
    ensures Programmed(VcoDiv(Vco(freq, mixDiv), ref), powerRef, ok, regs[..])
    ensures ok ==> forall i :: 0 <= i < 3 ==> BitAt(regs[0], 5 + i) == BitAt(Corrected(divNum, fine, powerRef), i)
    ensures forall i :: 0 <= i < 5 ==> BitAt(regs[0], i) == old(BitAt(regs[0], i))
    ensures forall i :: 0 <= i < 8 && i != 3 ==> BitAt(regs[2], i) == old(BitAt(regs[2], i))
    ensures regs[1] == old(regs[1]) && regs[3] == old(regs[3])
  {
    hide Masked, Vco, VcoDiv, IntegerReg, IntegerPart, Decoded, Limit, BitAt;
    var div := Corrected(divNum, fine, powerRef);
    regs[0] := Mask8(regs[0], Raised(div), 0xe0);
    TopBits(old(regs[0]), div);
    var vcoFreq := Vco(freq, mixDiv);
    var vcoDiv := VcoDiv(vcoFreq, ref);
    var nint: byte := vcoDiv / 65536 % U32 % 256;
    var sdm := vcoDiv % 65536;
    if nint > 128 / powerRef - 1 {
      LimitIs(powerRef);
      return false;
    }
    LimitIs(powerRef);
    FieldsExact(vcoDiv, powerRef);
    regs[4] := IntegerReg(nint);
    var val := if sdm == 0 then 0x08 else 0x00;
    BitThree(regs[2], val);
    regs[2] := Mask8(regs[2], val, 0x08);
    regs[5] := sdm % 256;
    regs[6] := sdm / 256;
    return true;
  }

  lemma LimitIs(powerRef: nat)
    requires 1 <= powerRef <= 2
    ensures Limit(powerRef) == 128 / powerRef - 1
  {}

  lemma BitThree(reg: byte, val: byte)
    ensures BitAt(Mask8(reg, val, 8), 3) == BitAt(val, 3) && BitAt(8, 3) == 1 && BitAt(0, 3) == 0
    ensures forall i :: 0 <= i < 8 && i != 3 ==> BitAt(Mask8(reg, val, 8), i) == BitAt(reg, i)
  {
    hide Masked;
    assert BitAt(8, 3) == BitAt(4, 2) == 1;
    assert BitAt(0, 3) == BitAt(0, 2) == 0;
    MaskedBit(reg, val, 8, 8, 3);
    forall i | 0 <= i < 8 && i != 3 ensures BitAt(Mask8(reg, val, 8), i) == BitAt(reg, i) {
      MaskedBit(reg, val, 8, 8, i);
      OneBit(3, i);
    }
  }

  /** A power of two has one bit. */
  lemma {:induction false} OneBit(k: nat, i: nat)
    ensures BitAt(Pow2(k), i) == if i == k then 1 else 0
  {
    if k == 0 {
      NoBit(i);
    } else if i > 0 {
      OneBit(k - 1, i - 1);
    }
  }

  lemma {:induction false} NoBit(i: nat)
    ensures BitAt(0, i) == 0 && BitAt(1, i) == if i == 0 then 1 else 0
  {
    if i > 0 {
      NoBit(i - 1);
    }
  }

  lemma TopBits(reg: byte, div: byte)
    ensures forall i :: 0 <= i < 3 ==> BitAt(Mask8(reg, Raised(div), 0xe0), 5 + i) == BitAt(div, i)
    ensures forall i :: 0 <= i < 5 ==> BitAt(Mask8(reg, Raised(div), 0xe0), i) == BitAt(reg, i)
  {
    hide Masked;
    forall i | 0 <= i < 5 ensures BitAt(Mask8(reg, Raised(div), 0xe0), i) == BitAt(reg, i) {
      MaskedBit(reg, Raised(div), 0xe0, 8, i);
      LowClear(5, 7, i);
      assert Pow2(3) == 8 && Pow2(5) == 32;
    }
    forall i | 0 <= i < 3 ensures BitAt(Mask8(reg, Raised(div), 0xe0), 5 + i) == BitAt(div, i) {
      MaskedBit(reg, Raised(div), 0xe0, 8, 5 + i);
      FiveUp(0xe0, i);
      FiveUp(Raised(div), i);
      assert BitAt(7, i) == 1;
      LowBit(div, i);
    }
  }

  lemma {:induction false} LowClear(k: nat, x: nat, i: nat)
    requires i < k
    ensures BitAt(Pow2(k) * x, i) == 0
  {
    var half := Pow2(k - 1) * x;
    assert Pow2(k) * x == 2 * half;
    if i > 0 {
      LowClear(k - 1, x, i - 1);
      assert 2 * half / 2 == half;
    }
  }

  lemma FiveUp(x: nat, i: nat)
    ensures BitAt(x, 5 + i) == BitAt(x / 32, i)
  {
    assert BitAt(x, 5 + i) == BitAt(x / 2, 4 + i) == BitAt(x / 2 / 2, 3 + i);
    assert BitAt(x / 2 / 2, 3 + i) == BitAt(x / 2 / 2 / 2, 2 + i) == BitAt(x / 2 / 2 / 2 / 2, 1 + i)
        == BitAt(x / 2 / 2 / 2 / 2 / 2, i);
    assert x / 2 / 2 / 2 / 2 / 2 == x / 32;
  }

  lemma LowBit(div: byte, i: nat)
    requires i < 3
    ensures BitAt(Raised(div) / 32, i) == BitAt(div, i)
  {
    hide Raised, BitAt;
    ThirdBit(div);
    ThirdBit(div % 8);
    LowThree(div);
  }

  lemma LowThree(d: nat)
    ensures d % 8 % 2 == d % 2 && d % 8 / 2 % 2 == d / 2 % 2 && d % 8 / 4 % 2 == d / 4 % 2
  {
    var q, r := d / 8, d % 8;
    assert d == 8 * q + r;
    assert d / 4 == 2 * q + r / 4;
    assert d / 2 == 4 * q + r / 2;
  }

  lemma ThirdBit(d: nat)
    ensures BitAt(d, 0) == d % 2 && BitAt(d, 1) == d / 2 % 2 && BitAt(d, 2) == d / 4 % 2
  {
    assert d / 2 / 2 == d / 4;
    assert BitAt(d / 2, 1) == BitAt(d / 2 / 2, 0);
  }

  /** For every frequency that finds a divider and every crystal from 16 to 28.8 MHz the setting
      has an integer part the fields can hold, and it is the nearest one, so the oscillator is
      off by at most ref / 65536 Hz. */
  lemma FoundIsNearest(freq: u32, mixDiv: byte, ref: pos)
    requires 1 <= mixDiv <= 64 && InBand(Khz(freq), mixDiv) && 16000000 <= ref <= 28800000
    ensures 13 <= VcoDiv(Vco(freq, mixDiv), ref) / 65536 <= 127
    ensures var d, r: int := VcoDiv(Vco(freq, mixDiv), ref), ref; -r <= d * (2 * r) - 65536 * Vco(freq, mixDiv) <= r
  {
    hide Vco, VcoDiv, Khz;
    VcoRange(freq, mixDiv);
    FoundInRange(Vco(freq, mixDiv), ref);
    VcoDivNearest(Vco(freq, mixDiv), ref);
  }

  /** Such a setting is in the registers exactly unless it is rejected, and with power
      reference 1 it is never rejected. */
  lemma FoundIsExact(d: nat, powerRef: byte, ok: bool, regs: seq<byte>)
    requires 13 <= d / 65536 <= 127 && 1 <= powerRef <= 2 && |regs| == 7 && Programmed(d, powerRef, ok, regs)
    ensures ok ==> Decoded(regs[4], regs[5], regs[6]) == d
    ensures ok <==> d / 65536 <= Limit(powerRef)
    ensures powerRef == 1 ==> ok
  {
    hide Decoded, BitAt;
  }

  /** Without a divider nothing of the sort holds: tuning to 0 Hz asks for the 3.57 MHz
      intermediate frequency, which is accepted with an integer part of 7, and the fields stand
      for 259 more. */
  lemma NoDividerCounterexample(powerRef: nat)
    requires 1 <= powerRef <= 2
    ensures (forall n :: 1 <= n <= 6 ==> !InBand(Khz(3570000), Pow2(n)))
    ensures var d := VcoDiv(Vco(3570000, 128), 28800000);
            d / 65536 == 7 <= Limit(powerRef)
            && Decoded(IntegerReg(7), d % 65536 % 256, d % 65536 / 256) == d + 65536 * 259
  {
    hide Pow2, IntegerReg, IntegerPart, InBand;
    forall n | 1 <= n <= 6 ensures !InBand(Khz(3570000), Pow2(n)) {
      Ladder(n);
      TooLow(Pow2(n));
    }
    assert VcoDiv(Vco(3570000, 128), 28800000) == 519919;
    IntegerRegSmall(7);
  }

  lemma TooLow(d: nat)
    requires d <= 64
    ensures !InBand(Khz(3570000), d)
  {
    assert Khz(3570000) == 3570;
  }
}
