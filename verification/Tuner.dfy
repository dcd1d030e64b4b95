/** The register cache of src/tuner_r82xx.c in front of the chip, and r82xx_set_pll on top of
    it. The I2C bus takes a message whole or not at all, and may report a failure either way. */
module Tuner {
  import opened Bits
  import opened Words
  import opened Pll

  const SHADOW_START := 5
  const NUM_REGS := 30

  const INIT_ARRAY: seq<byte> := [
    0x83, 0x32, 0x75, 0xc0, 0x40, 0xd6, 0x6c, 0xf5, 0x63, 0x75, 0x68, 0x6c, 0x83, 0x80, 0x00,
    0x0f, 0x00, 0xc0, 0x30, 0x48, 0xcc, 0x60, 0x00, 0x54, 0xae, 0x4a, 0xc0, 0x00, 0x00, 0x00]

  /** Consecutive registers from reg on take the bytes of val. */
  function Poked(chip: seq<byte>, reg: nat, val: seq<byte>): (r: seq<byte>)
    requires reg + |val| <= |chip|
    ensures |r| == |chip|
  {
    chip[..reg] + val + chip[reg + |val|..]
  }

  lemma PokedNone(chip: seq<byte>, reg: nat)
    requires reg <= |chip|
    ensures Poked(chip, reg, []) == chip
  {}

  lemma PokedTwice(chip: seq<byte>, reg: nat, a: seq<byte>, b: seq<byte>)
    requires reg + |a| + |b| <= |chip|
    ensures Poked(Poked(chip, reg, a), reg + |a|, b) == Poked(chip, reg, a + b)
  {}

  /** Shadow byte i afterwards: the byte written to its register, if any. */
  ghost predicate Stored(was: seq<byte>, reg: nat, val: seq<byte>, now: seq<byte>)
    requires |was| == NUM_REGS
  {
    |now| == NUM_REGS && forall i :: 0 <= i < NUM_REGS ==>
      now[i] == if reg <= SHADOW_START + i < reg + |val| then val[SHADOW_START + i - reg] else was[i]
  }

  /** The whole write lies in the shadow and changes nothing there. */
  ghost predicate Redundant(shadow: seq<byte>, reg: nat, val: seq<byte>)
    requires |shadow| == NUM_REGS
  {
    SHADOW_START <= reg && reg + |val| <= SHADOW_START + NUM_REGS
        && shadow[reg - SHADOW_START..reg - SHADOW_START + |val|] == val
  }

  /** The chip's registers 0x05 to 0x22. */
  function Window(chip: seq<byte>): (w: seq<byte>)
    requires |chip| == 256
    ensures |w| == NUM_REGS
  {
    chip[SHADOW_START..SHADOW_START + NUM_REGS]
  }

  /** Storing in the shadow and in the chip keeps them equal. */
  lemma StoredPoked(was: seq<byte>, chip: seq<byte>, reg: nat, val: seq<byte>, now: seq<byte>)
    requires |chip| == 256 && reg + |val| <= 256 && was == Window(chip) && Stored(was, reg, val, now)
    ensures now == Window(Poked(chip, reg, val))
  {
    forall i | 0 <= i < NUM_REGS ensures now[i] == Window(Poked(chip, reg, val))[i] {}
  }

  /** A redundant write can be skipped. */
  lemma RedundantPoked(chip: seq<byte>, reg: nat, val: seq<byte>)
    requires |chip| == 256 && reg + |val| <= 256 && Redundant(Window(chip), reg, val)
    ensures Poked(chip, reg, val) == chip
  {
    var r := reg - SHADOW_START;
    forall i | 0 <= i < |val| ensures val[i] == chip[reg + i] {
      assert Window(chip)[r..r + |val|][i] == Window(chip)[r + i];
      WindowAt(chip, r + i);
    }
  }

  // ---- Whole runs of writes ----

  datatype RegWrite = RegWrite(reg: nat, val: seq<byte>)

  ghost predicate Fits(ops: seq<RegWrite>) {
    forall i :: 0 <= i < |ops| ==> ops[i].reg + |ops[i].val| <= 256
  }

  ghost function ShadowAfter(was: seq<byte>, w: RegWrite): (now: seq<byte>)
    requires |was| == NUM_REGS
    ensures Stored(was, w.reg, w.val, now)
  {
    seq(NUM_REGS, i requires 0 <= i < NUM_REGS =>
      if w.reg <= SHADOW_START + i < w.reg + |w.val| then w.val[SHADOW_START + i - w.reg] else was[i])
  }

  /** The chip when every byte is always written. */
  ghost function Direct(chip: seq<byte>, ops: seq<RegWrite>): (r: seq<byte>)
    requires |chip| == 256 && Fits(ops)
    ensures |r| == 256
    decreases |ops|
  {
    if ops == [] then chip else Direct(Poked(chip, ops[0].reg, ops[0].val), ops[1..])
  }

  /** The chip behind the cache, when every transfer succeeds. */
  ghost function Cached(shadow: seq<byte>, chip: seq<byte>, ops: seq<RegWrite>): seq<byte>
    requires |shadow| == NUM_REGS && |chip| == 256 && Fits(ops)
    decreases |ops|
  {
    if ops == [] then chip
    else
      var w := ops[0];
      if Redundant(shadow, w.reg, w.val) then Cached(shadow, chip, ops[1..])
      else Cached(ShadowAfter(shadow, w), Poked(chip, w.reg, w.val), ops[1..])
  }

  /** The cache is transparent: from equal contents on, no run of writes tells the difference. */
  lemma {:induction false} CacheIsTransparent(chip: seq<byte>, ops: seq<RegWrite>)
    requires |chip| == 256 && Fits(ops)
    ensures Cached(Window(chip), chip, ops) == Direct(chip, ops)
    decreases |ops|
  {
    hide Poked, Window, Redundant, Stored;
    if ops != [] {
      var w := ops[0];
      if Redundant(Window(chip), w.reg, w.val) {
        RedundantPoked(chip, w.reg, w.val);
        CacheIsTransparent(chip, ops[1..]);
      } else {
        StoredPoked(Window(chip), chip, w.reg, w.val, ShadowAfter(Window(chip), w));
        CacheIsTransparent(Poked(chip, w.reg, w.val), ops[1..]);
      }
    }
  }

  // ---- When a transfer fails ----

  /** The bytes of the write from `taken` on are what the chip's shadowed registers already hold. */
  ghost predicate RestAgrees(chip: seq<byte>, reg: nat, val: seq<byte>, taken: nat)
    requires |chip| == 256 && reg + |val| <= 256
  {
    forall j :: taken <= j < |val| && SHADOW_START <= reg + j < SHADOW_START + NUM_REGS ==> val[j] == chip[reg + j]
  }

  /** The shadow is updated before the bus. From equal contents, a write of which only the
      first `taken` bytes reach the chip leaves shadow and chip equal if and only if the rest
      was there already. */
  lemma CoherentExactly(chip: seq<byte>, reg: nat, val: seq<byte>, taken: nat, now: seq<byte>)
    requires |chip| == 256 && reg + |val| <= 256 && taken <= |val| && Stored(Window(chip), reg, val, now)
    ensures now == Window(Poked(chip, reg, val[..taken])) <==> RestAgrees(chip, reg, val, taken)
  {
    hide Poked;
    var after := Poked(chip, reg, val[..taken]);
    PokedRange(chip, reg, val[..taken]);
    forall i | 0 <= i < NUM_REGS
      ensures Window(after)[i] == after[SHADOW_START + i] && Window(chip)[i] == chip[SHADOW_START + i]
    {
      WindowAt(after, i);
      WindowAt(chip, i);
    }
    if now == Window(after) {
      forall j | taken <= j < |val| && SHADOW_START <= reg + j < SHADOW_START + NUM_REGS
          ensures val[j] == chip[reg + j] {
        assert now[reg + j - SHADOW_START] == val[j];
        assert Window(after)[reg + j - SHADOW_START] == after[reg + j];
      }
    }
    if RestAgrees(chip, reg, val, taken) {
      forall i | 0 <= i < NUM_REGS ensures now[i] == Window(after)[i] {
        assert reg <= SHADOW_START + i < reg + taken ==>
            after[reg + (SHADOW_START + i - reg)] == val[SHADOW_START + i - reg];
      }
    }
  }

  /** After a write inside the shadow the same write is redundant, so repeating it sends
      nothing: the chip then has what was asked for only if the failure did not matter. */
  lemma RepeatIsSkipped(chip: seq<byte>, reg: nat, val: seq<byte>, taken: nat, now: seq<byte>)
    requires |chip| == 256 && SHADOW_START <= reg && reg + |val| <= SHADOW_START + NUM_REGS && taken <= |val|
    requires Stored(Window(chip), reg, val, now)
    ensures Redundant(now, reg, val)
    ensures Poked(chip, reg, val[..taken]) == Poked(chip, reg, val) <==> RestAgrees(chip, reg, val, taken)
  {
    hide Poked;
    var r := reg - SHADOW_START;
    assert now[r..r + |val|] == val;
    var some, all := Poked(chip, reg, val[..taken]), Poked(chip, reg, val);
    PokedRange(chip, reg, val[..taken]);
    PokedRange(chip, reg, val);
    if some == all {
      forall j | taken <= j < |val| ensures val[j] == chip[reg + j] {
        assert some[reg + j] == all[reg + j];
      }
    }
    if RestAgrees(chip, reg, val, taken) {
      forall j | 0 <= j < 256 ensures some[j] == all[j] {
        assert reg <= j < reg + taken ==> some[reg + (j - reg)] == val[j - reg];
        assert reg <= j < reg + |val| ==> all[reg + (j - reg)] == val[j - reg];
      }
    }
  }

  /** A chip that holds the defaults and misses the message that sets register 0x10 to 0: the
      shadow says 0, the chip 0x6c, and repeating the write is skipped as redundant. */
  lemma LostWriteCounterexample(chip: seq<byte>, now: seq<byte>)
    requires |chip| == 256 && Window(chip) == INIT_ARRAY && Stored(INIT_ARRAY, 0x10, [0], now)
    ensures now[11] == 0 && chip[0x10] == 0x6c && now != Window(chip)
    ensures Redundant(now, 0x10, [0]) && chip != Poked(chip, 0x10, [0])
  {
    WindowAt(chip, 11);
    RepeatIsSkipped(chip, 0x10, [0], 0, now);
    PokedNone(chip, 0x10);
    assert [0 as byte][..0] == [];
    assert !RestAgrees(chip, 0x10, [0], 0) by { assert [0 as byte][0] != chip[0x10]; }
  }

  class R82xx {
    const regs: array<byte>           // the shadow of registers 0x05 to 0x22
    const maxMsg: nat
    var hasLock: bool
    ghost var chip: seq<byte>         // the 256 register addresses

    ghost predicate Valid()
      reads this
    {
      regs.Length == NUM_REGS && |chip| == 256 && 2 <= maxMsg <= NUM_REGS + 1
    }

    /** The shadow equals the chip. */
    ghost predicate Coherent()
      requires Valid()
      reads this, regs
    {
      regs[..] == Window(chip)
    }

    constructor (maxMsg: nat, ghost chip: seq<byte>)
      requires 2 <= maxMsg <= NUM_REGS + 1 && |chip| == 256
      ensures Valid() && fresh(regs) && this.chip == chip
    {
      regs, this.maxMsg, hasLock := new byte[NUM_REGS], maxMsg, false;
      this.chip := chip;
    }

    /** rtlsdr_i2c_write_fn: a reported success means the message was taken; a reported failure
        does not say. */
    method Transfer(msg: seq<byte>) returns (rc: int, ghost taken: bool)
      requires 1 <= |msg| && |chip| == 256 && msg[0] + |msg| <= 257
      modifies this`chip
      ensures chip == (if taken then Poked(old(chip), msg[0], msg[1..]) else old(chip)) && (rc == |msg| ==> taken)
    {
      rc := *;
      taken := *;
      if rc == |msg| {
        taken := true;
      }
      chip := if taken then Poked(chip, msg[0], msg[1..]) else chip;
    }

    /** shadow_store: the part of the write that falls into the shadow. */
    method ShadowStore(reg: byte, val: seq<byte>)
      requires regs.Length == NUM_REGS && reg <= SHADOW_START + NUM_REGS
      modifies regs
      ensures Stored(old(regs[..]), reg, val, regs[..])
    {
      var r: int, len: int, off: int := reg - SHADOW_START, |val|, 0;
      if r < 0 {
        len, off, r := len + r, -r, 0;
      }
      if len <= 0 {
        return;
      }
      if len > NUM_REGS - r {
        len := NUM_REGS - r;
      }
      forall i | 0 <= i < len { regs[r + i] := val[off + i]; }
    }

    method ShadowEqual(reg: byte, val: seq<byte>) returns (equal: bool)
      requires regs.Length == NUM_REGS
      ensures equal == Redundant(regs[..], reg, val)
    {
      var r: int := reg - SHADOW_START;
      if r < 0 || |val| > NUM_REGS - r {
        return false;
      }
      return regs[r..r + |val|] == val;
    }

    /** The message loop of r82xx_write: at least one message, each short enough for the bus.
        A success means every byte; a failure leaves the bytes of the messages taken. */
    method Send(reg: byte, val: seq<byte>) returns (rc: int, ghost taken: nat)
      requires |chip| == 256 && 2 <= maxMsg && reg + |val| <= 256
      modifies this`chip
      ensures rc <= 0 && taken <= |val| && chip == Poked(old(chip), reg, val[..taken])
      ensures rc == 0 ==> taken == |val|
    {
      hide Poked;
      PokedNone(chip, reg);
      var pos: nat, more := 0, true;
      while more
        invariant pos <= |val| && (pos < |val| || pos == 0 || !more) && (!more ==> pos == |val|)
        invariant |chip| == 256 && chip == Poked(old(chip), reg, val[..pos])
        decreases |val| - pos, more
      {
        var size := if |val| - pos > maxMsg - 1 then maxMsg - 1 else |val| - pos;
        ghost var whole;
        rc, whole := SendOne(reg + pos, val[pos..pos + size]);
        PokedTwice(old(chip), reg, val[..pos], val[pos..pos + size]);
        assert val[..pos + size] == val[..pos] + val[pos..pos + size];
        if rc < 0 {
          return rc, if whole then pos + size else pos;
        }
        pos := pos + size;
        more := pos < |val|;
      }
      return 0, |val|;
    }

    method SendOne(reg: nat, part: seq<byte>) returns (rc: int, ghost taken: bool)
      requires |chip| == 256 && reg + |part| <= 256
      modifies this`chip
      ensures rc <= 0 && (rc == 0 ==> taken)
      ensures chip == if taken then Poked(old(chip), reg, part) else old(chip)
    {
      hide Poked;
      var first: byte := reg % 256;
      PokedNone(chip, first);
      PokedNone(chip, reg);
      assert reg == 256 ==> part == [];
      var msg := [first] + part;
      assert msg[1..] == part;
      rc, taken := Transfer(msg);
      if rc != |part| + 1 {
        return if rc < 0 then rc else -1, taken;
      }
      return 0, taken;
    }

    /** r82xx_write: the shadow takes the whole write. A redundant write is skipped; any other
        goes to the bus. From equal contents a success leaves them equal and the chip as if
        every byte had been written; and exactly when they end up equal is known even for a
        failure. */
    method Write(reg: byte, val: seq<byte>) returns (rc: int, ghost taken: nat)
      requires Valid() && reg <= SHADOW_START + NUM_REGS && reg + |val| <= 256
      modifies this`chip, regs
      ensures Valid() && rc <= 0 && taken <= |val| && Stored(old(regs[..]), reg, val, regs[..])
      ensures Redundant(old(regs[..]), reg, val) ==> rc == 0 && chip == old(chip)
      ensures !Redundant(old(regs[..]), reg, val) ==> chip == Poked(old(chip), reg, val[..taken])
      ensures rc == 0 ==> taken == |val|
      ensures rc == 0 && old(Coherent()) ==> Coherent() && chip == Poked(old(chip), reg, val)
      ensures old(Coherent()) ==> (Coherent() <==> RestAgrees(old(chip), reg, val, taken))
    {
      hide Poked, Window, RestAgrees;
      var equal := ShadowEqual(reg, val);
      if equal {
        StoredSame(regs[..], reg, val);
        if Coherent() {
          RedundantPoked(chip, reg, val);
          CoherentExactly(chip, reg, val, |val|, regs[..]);
          assert val[..|val|] == val;
        }
        return 0, |val|;
      }
      ShadowStore(reg, val);
      rc, taken := Send(reg, val);
      assert val[..|val|] == val;
      if old(Coherent()) {
        CoherentExactly(old(chip), reg, val, taken, regs[..]);
        NoRest(old(chip), reg, val);
      }
    }

    /** r82xx_write_reg_mask: the masked bits change, in the shadow and in the chip; a register
        outside the shadow is refused. */
    method WriteMask(reg: byte, val: byte, mask: byte) returns (rc: int)
      requires Valid()
      modifies this`chip, regs
      ensures Valid() && rc <= 0
      ensures !(SHADOW_START <= reg < SHADOW_START + NUM_REGS) ==> rc < 0 && unchanged(this) && unchanged(regs)
      ensures SHADOW_START <= reg < SHADOW_START + NUM_REGS ==>
                Stored(old(regs[..]), reg, [Mask8(old(regs[reg - SHADOW_START]), val, mask)], regs[..])
      ensures rc == 0 ==> SHADOW_START <= reg < SHADOW_START + NUM_REGS
      ensures rc == 0 && old(Coherent()) ==>
                Coherent() && chip == Poked(old(chip), reg, [Mask8(old(chip)[reg], val, mask)])
    {
      hide Poked, Mask8, Window, Stored, Redundant;
      var r: int := reg - SHADOW_START;
      if r < 0 || r >= NUM_REGS {
        return -1;
      }
      WindowAt(chip, r);
      ghost var taken;
      rc, taken := Write(reg, [Mask8(regs[r], val, mask)]);
    }

    /** The start of r82xx_init and of the r82xx_set_tv_standard call in it: the shadow is
        cleared, the defaults written out, and the shadow set to them once more, whatever came
        of the write. Shadow and chip are then equal if and only if the part of the defaults
        that did not reach the chip was there already; so they are if the write succeeded. */
    method Init() returns (ghost rc: int, ghost taken: nat)
      requires Valid()
      modifies this`chip, regs
      ensures Valid() && regs[..] == INIT_ARRAY && taken <= NUM_REGS
      ensures chip == Poked(old(chip), SHADOW_START, INIT_ARRAY[..taken])
      ensures rc == 0 ==> taken == NUM_REGS && Coherent()
      ensures Coherent() <==> INIT_ARRAY[taken..] == Window(old(chip))[taken..]
    {
      hide Poked, Redundant;
      forall i | 0 <= i < NUM_REGS { regs[i] := 0; }
      NotZeros(regs[..]);
      rc, taken := Write(SHADOW_START, INIT_ARRAY);
      forall i | 0 <= i < NUM_REGS { regs[i] := INIT_ARRAY[i]; }
      assert regs[..] == INIT_ARRAY;
      Defaults(old(chip), taken);
    }

    /** r82xx_set_pll. When it succeeds on equal contents they stay equal, and registers 0x14 to
        0x16 decode to the setting for the frequency exactly when its integer part is between
        13 and the limit; which it is when the frequency finds a mixer divider, the crystal is
        between 16 and 28.8 MHz, and the call succeeds. Nothing is assumed of the values read
        back from the chip. */
    method SetPll(freq: u32, xtal: pos, powerRef: byte) returns (rc: int, ghost mixDiv: byte)
      requires Valid() && 2 * xtal < U32 && 1 <= powerRef <= 2
      modifies this`chip, this`hasLock, regs
      ensures Valid() && (mixDiv == 128 || InBand(Khz(freq), mixDiv))
      ensures rc == 0 && mixDiv == 128 ==> forall n :: 1 <= n <= 6 ==> !InBand(Khz(freq), Pow2(n))
      ensures rc == 0 && old(Coherent()) ==> Coherent()
      ensures rc == 0 && old(Coherent()) ==>
                (Decoded(chip[0x14], chip[0x15], chip[0x16]) == VcoDiv(Vco(freq, mixDiv), xtal) <==>
                 13 <= VcoDiv(Vco(freq, mixDiv), xtal) / 65536 <= Limit(powerRef))
      ensures rc == 0 && old(Coherent()) && mixDiv <= 64 && 16000000 <= xtal <= 28800000 ==>
                Decoded(chip[0x14], chip[0x15], chip[0x16]) == VcoDiv(Vco(freq, mixDiv), xtal)
      ensures rc == 0 && old(Coherent()) ==>
                forall j :: 0 <= j < 256 && !(0x14 <= j <= 0x16) && j !in {0x10, 0x12, 0x1a} ==> chip[j] == old(chip[j])
    {
      hide Poked, Mask8, Window, Decoded, Vco, VcoDiv, Khz, Limit, Stored, Redundant, RestAgrees;
      mixDiv := 128;
      PokedElsewhere(chip, 0x1a, Mask8(chip[0x1a], 0x00, 0x0c));
      rc := WriteMask(0x1a, 0x00, 0x0c);
      if rc < 0 {
        return;
      }
      var ok, local;
      ok, local, mixDiv := Prepare(freq, xtal, powerRef);
      if !ok {
        return -1, mixDiv;
      }
      ghost var before, taken := chip, 0;
      WindowAt(chip, 12);
      WindowAt(chip, 14);
      rc, taken := Write(0x10, local);
      if rc < 0 {
        return;
      }
      PokedRange(before, 0x10, local);
      rc := Lock();
    }

    /** The new values of registers 0x10 to 0x16, from their cached values. */
    method Prepare(freq: u32, xtal: pos, powerRef: byte) returns (ok: bool, local: seq<byte>, ghost mixDiv: byte)
      requires Valid() && 2 * xtal < U32 && 1 <= powerRef <= 2
      ensures |local| == 7 && (mixDiv == 128 || InBand(Khz(freq), mixDiv))
      ensures mixDiv == 128 ==> forall n :: 1 <= n <= 6 ==> !InBand(Khz(freq), Pow2(n))
      ensures local[1] == regs[12] && local[3] == regs[14]
      ensures BitAt(local[0], 4) == 0 && BitAt(local[2], 7) == 1 && BitAt(local[2], 6) == BitAt(local[2], 5) == 0
      ensures forall i :: 0 <= i < 4 ==> BitAt(local[0], i) == BitAt(regs[11], i)
      ensures ok ==> (Decoded(local[4], local[5], local[6]) == VcoDiv(Vco(freq, mixDiv), xtal) <==>
                      13 <= VcoDiv(Vco(freq, mixDiv), xtal) / 65536 <= Limit(powerRef))
      ensures ok && mixDiv <= 64 && 16000000 <= xtal <= 28800000 ==>
                Decoded(local[4], local[5], local[6]) == VcoDiv(Vco(freq, mixDiv), xtal)
    {
      hide Mask8, Window, Decoded, Vco, VcoDiv, Khz, BitAt, InBand, Pow2, Programmed, Limit;
      var a := new byte[7];
      forall i | 0 <= i < 7 { a[i] := regs[0x10 - SHADOW_START + i]; }
      Reference(a[0], a[2]);
      a[0] := Mask8(a[0], 0, 0x10);
      a[2] := Mask8(a[2], 0x80, 0xe0);
      var div, divNum := FindDivider(Khz(freq));
      mixDiv := div;
      var readable: bool := *;
      var fine: byte :| fine <= 3;
      if !readable {
        return false, a[..], div;
      }
      ok := Program(a, freq, xtal, div, divNum, fine, powerRef);
      local := a[..];
      ProgrammedFields(VcoDiv(Vco(freq, div), xtal), powerRef, ok, local);
      if div <= 64 && 16000000 <= xtal <= 28800000 {
        FoundIsNearest(freq, div, xtal);
        FoundIsExact(VcoDiv(Vco(freq, div), xtal), powerRef, ok, local);
      }
    }

    /** Two chances to lock, the second with a higher VCO current; then a finer autotune. */
    method Lock() returns (rc: int)
      requires Valid()
      modifies this`chip, this`hasLock, regs
      ensures Valid() && (rc == 0 && old(Coherent()) ==> Coherent())
      ensures rc == 0 && old(Coherent()) ==> Elsewhere(old(chip), chip)
    {
      hide Poked, Mask8, Window, Stored, Redundant;
      var locked := false;
      for i := 0 to 2
        invariant Valid() && (old(Coherent()) ==> Coherent() && Elsewhere(old(chip), chip))
      {
        var readable: bool := *;
        if !readable {
          return -1;
        }
        locked := *;
        if locked {
          break;
        }
        if i == 0 {
          PokedElsewhere(chip, 0x12, Mask8(chip[0x12], 0x60, 0xe0));
          rc := WriteMask(0x12, 0x60, 0xe0);
          if rc < 0 {
            return;
          }
        }
      }
      hasLock := locked;
      if !locked {
        return 0;
      }
      PokedElsewhere(chip, 0x1a, Mask8(chip[0x1a], 0x08, 0x08));
      rc := WriteMask(0x1a, 0x08, 0x08);
    }
  }

  /** All registers but the two that the lock loop writes. */
  ghost predicate Elsewhere(was: seq<byte>, now: seq<byte>) {
    |was| == |now| == 256 && forall j :: 0 <= j < 256 && j != 0x12 && j != 0x1a ==> now[j] == was[j]
  }

  lemma StoredSame(shadow: seq<byte>, reg: nat, val: seq<byte>)
    requires |shadow| == NUM_REGS && Redundant(shadow, reg, val)
    ensures Stored(shadow, reg, val, shadow)
  {
    var r := reg - SHADOW_START;
    forall i | 0 <= i < NUM_REGS && reg <= SHADOW_START + i < reg + |val|
        ensures shadow[i] == val[SHADOW_START + i - reg] {
      assert shadow[r..r + |val|][i - r] == shadow[i];
    }
  }

  lemma NoRest(chip: seq<byte>, reg: nat, val: seq<byte>)
    requires |chip| == 256 && reg + |val| <= 256
    ensures RestAgrees(chip, reg, val, |val|)
  {}

  lemma NotZeros(shadow: seq<byte>)
    requires |shadow| == NUM_REGS && shadow[0] == 0
    ensures !Redundant(shadow, SHADOW_START, INIT_ARRAY)
  {
    assert INIT_ARRAY[0] == 0x83;
    assert shadow[0..NUM_REGS][0] == 0;
  }

  lemma Defaults(chip: seq<byte>, taken: nat)
    requires |chip| == 256 && taken <= NUM_REGS
    ensures INIT_ARRAY == Window(Poked(chip, SHADOW_START, INIT_ARRAY[..taken])) <==>
              INIT_ARRAY[taken..] == Window(chip)[taken..]
  {
    hide Poked;
    var after := Poked(chip, SHADOW_START, INIT_ARRAY[..taken]);
    PokedRange(chip, SHADOW_START, INIT_ARRAY[..taken]);
    forall i | 0 <= i < NUM_REGS ensures Window(after)[i] == if i < taken then INIT_ARRAY[i] else Window(chip)[i] {
      WindowAt(after, i);
      WindowAt(chip, i);
      assert i < taken ==> after[SHADOW_START + i] == INIT_ARRAY[..taken][i];
    }
    assert Window(after) == INIT_ARRAY[..taken] + Window(chip)[taken..];
    assert INIT_ARRAY == INIT_ARRAY[..taken] + INIT_ARRAY[taken..];
    assert INIT_ARRAY == Window(after) ==> INIT_ARRAY[taken..] == Window(after)[taken..] == Window(chip)[taken..];
  }

  /** The reference divider is off, the VCO current field is 4, and the rest of register 0x10
      below them is kept. */
  lemma Reference(r10: byte, r12: byte)
    ensures BitAt(Mask8(r10, 0, 0x10), 4) == 0 && forall i :: 0 <= i < 4 ==>
              BitAt(Mask8(r10, 0, 0x10), i) == BitAt(r10, i)
    ensures var m := Mask8(r12, 0x80, 0xe0); BitAt(m, 7) == 1 && BitAt(m, 6) == BitAt(m, 5) == 0
  {
    hide Masked, BitAt, Pow2;
    Steps();
    NoBit(4);
    OneBit(4, 4);
    MaskedBit(r10, 0, 0x10, 8, 4);
    forall i | 0 <= i < 4 ensures BitAt(Mask8(r10, 0, 0x10), i) == BitAt(r10, i) {
      OneBit(4, i);
      MaskedBit(r10, 0, 0x10, 8, i);
    }
    forall i | 5 <= i < 8 ensures BitAt(Mask8(r12, 0x80, 0xe0), i) == if i == 7 then 1 else 0 {
      MaskedBit(r12, 0x80, 0xe0, 8, i);
      FiveUp(0xe0, i - 5);
      ThirdBit(7);
      OneBit(7, i);
    }
  }

  lemma Steps()
    ensures Pow2(4) == 16 && Pow2(7) == 128
  {
    assert Pow2(3) == 8;
    assert Pow2(5) == 32;
  }

  lemma PokedElsewhere(chip: seq<byte>, reg: nat, b: byte)
    requires |chip| == 256 && reg < 256
    ensures forall j :: 0 <= j < 256 && j != reg ==> Poked(chip, reg, [b])[j] == chip[j]
  {}

  lemma WindowAt(chip: seq<byte>, i: nat)
    requires |chip| == 256 && i < NUM_REGS
    ensures Window(chip)[i] == chip[SHADOW_START + i]
  {}

  lemma PokedRange(chip: seq<byte>, reg: nat, val: seq<byte>)
    requires reg + |val| <= |chip|
    ensures forall i :: 0 <= i < |val| ==> Poked(chip, reg, val)[reg + i] == val[i]
    ensures forall j :: 0 <= j < |chip| && !(reg <= j < reg + |val|) ==> Poked(chip, reg, val)[j] == chip[j]
  {}
}
