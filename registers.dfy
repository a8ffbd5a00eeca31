/** The AD7190 register protocol as values: the named register, mode, clock,
    gain, channel, polarity, reference and buffer codes, the command byte, the
    packing of the mode and configuration registers, the channel bitmask and the
    map from a 24-bit data code to a voltage. */
module AD7190Registers {
  import opened Bits

  // On-chip registers
  const COMMSTAT: Byte := 0x0
  const MODE: Byte := 0x1
  const CFG: Byte := 0x2
  const DATA: Byte := 0x3
  const ID: Byte := 0x4
  const GPOCON: Byte := 0x5
  const OFFSET: Byte := 0x6
  const FULLSC: Byte := 0x7

  const REGISTERS: seq<Byte> := [COMMSTAT, MODE, CFG, DATA, ID, GPOCON, OFFSET, FULLSC]

  // Operating modes
  const CONT: Byte := 0x0
  const PULSE: Byte := 0x1
  const IDLE: Byte := 0x2
  const PWDN: Byte := 0x3
  const INTZEROCAL: Byte := 0x4
  const INTFULLCAL: Byte := 0x5
  const SYSZEROCAL: Byte := 0x6
  const SYSFULLCAL: Byte := 0x7

  const MODES: seq<Byte> := [CONT, PULSE, IDLE, PWDN, INTZEROCAL, INTFULLCAL, SYSZEROCAL, SYSFULLCAL]

  // Clock sources
  const EXTXTAL: Byte := 0x0
  const EXTCLK: Byte := 0x1
  const INTCLK: Byte := 0x2   // MCLK2 tristated
  const INTCLK2: Byte := 0x3  // internal clock available on MCLK2

  const CLOCKS: seq<Byte> := [EXTXTAL, EXTCLK, INTCLK, INTCLK2]

  // Gain codes: the programmable gain is 2^code
  const GAIN_1: Byte := 0x0
  const GAIN_8: Byte := 0x3
  const GAIN_16: Byte := 0x4
  const GAIN_32: Byte := 0x5
  const GAIN_64: Byte := 0x6
  const GAIN_128: Byte := 0x7

  // Input channels (first number is the + input, second the - input)
  const AIN1_2: Byte := 0x1
  const AIN3_4: Byte := 0x2
  const TEMP: Byte := 0x4
  const AIN2_2: Byte := 0x8
  const AIN1_COM: Byte := 0x10
  const AIN2_COM: Byte := 0x20
  const AIN3_COM: Byte := 0x40
  const AIN4_COM: Byte := 0x80

  const CHANNELS: seq<Byte> := [AIN1_2, AIN3_4, TEMP, AIN2_2, AIN1_COM, AIN2_COM, AIN3_COM, AIN4_COM]

  const BIPOLAR: Byte := 0x0
  const UNIPOLAR: Byte := 0x1

  const REFIN1: Byte := 0x0
  const REFIN2: Byte := 0x1

  const UNBUF: Byte := 0x0
  const BUF: Byte := 0x1

  /** Bit mask of the RDY flag in the status register. */
  const STATUS_NOT_READY: Byte := 0x80

  lemma Pow2Values()
    ensures Pow2(3) == 8 && Pow2(4) == 16 && Pow2(6) == 64 && Pow2(8) == 256
    ensures Pow2(16) == 0x1_0000 && Pow2(18) == 0x4_0000 && Pow2(20) == 0x10_0000
    ensures Pow2(21) == 0x20_0000 && Pow2(24) == 0x100_0000
  {
    Pow2Byte();
    Pow2Add(8, 8);
    Pow2Add(16, 2);
    Pow2Add(18, 2);
    Pow2Add(20, 1);
    Pow2Add(16, 8);
  }

  /** Bit `i` of a non-negative integer. */
  function Bit(x: nat, i: nat): nat
  {
    (x / Pow2(i)) % 2
  }

  // ---------------------------------------------------------------------------
  // Named codes

  /** The register ids are 0 to 7, in the order of the datasheet. */
  lemma RegisterIds()
    ensures |REGISTERS| == 8
    ensures forall i :: 0 <= i < 8 ==> REGISTERS[i] == i
  {
  }

  /** Operating modes are 0 to 7 and clock sources 0 to 3, so they fit the
      3-bit field at bit 21 and the 2-bit field at bit 18 of the mode register. */
  lemma ModeAndClockCodes()
    ensures forall i :: 0 <= i < |MODES| ==> MODES[i] == i < Pow2(3)
    ensures forall i :: 0 <= i < |CLOCKS| ==> CLOCKS[i] == i < Pow2(2)
  {
    Pow2Values();
  }

  /** Every named gain code is the base-2 logarithm of its gain. */
  lemma GainCodes()
    ensures Pow2(GAIN_1) == 1 && Pow2(GAIN_8) == 8 && Pow2(GAIN_16) == 16
    ensures Pow2(GAIN_32) == 32 && Pow2(GAIN_64) == 64 && Pow2(GAIN_128) == 128
  {
    Pow2Values();
    assert Pow2(5) == 32;
    assert Pow2(7) == 128;
  }

  /** Polarity, reference-select and buffer codes are single bits. */
  lemma FlagCodes()
    ensures BIPOLAR < 2 && UNIPOLAR < 2 && BIPOLAR != UNIPOLAR
    ensures REFIN1 < 2 && REFIN2 < 2 && REFIN1 != REFIN2
    ensures UNBUF < 2 && BUF < 2 && UNBUF != BUF
  {
  }

  // ---------------------------------------------------------------------------
  // Command byte

  /** The byte that selects register `reg` for the next operation: `reg << 3`
      (that is `reg * 8`), with `0x40` OR-ed in for a read, truncated to a byte
      by the transfer. */
  function CommandByte(reg: Byte, read: bool): Byte
  {
    (if read then BitOr(reg * 8, 0x40) else reg * 8) % 256
  }

  lemma CommandValue(reg: Byte, read: bool)
    requires reg < 8
    ensures CommandByte(reg, read) == reg * 8 + (if read then 0x40 else 0)
  {
    var lo := reg * 8;
    if read {
      assert BitOr(lo, 0x40) == lo + 0x40 by {
        assert Pow2(6) == 64;
        BitOrShifted(1, 6, 0x40, lo);
      }
      DivModUnique(lo + 0x40, 256, 0, lo + 0x40);
    } else {
      DivModUnique(lo, 256, 0, lo);
    }
  }

  /** Bits 3 to 5 of a command byte hold the register id. */
  lemma CommandRegister(reg: Byte, read: bool)
    requires reg < 8
    ensures (CommandByte(reg, read) / 8) % 8 == reg
  {
    CommandValue(reg, read);
    var f := if read then 1 else 0;
    DivModUnique(reg * 8 + f * 0x40, 8, 8 * f + reg, 0);
    DivModUnique(8 * f + reg, 8, f, reg);
  }

  /** Bit 6 of a command byte is the read flag. */
  lemma CommandReadFlag(reg: Byte, read: bool)
    requires reg < 8
    ensures Bit(CommandByte(reg, read), 6) == (if read then 1 else 0)
  {
    CommandValue(reg, read);
    assert Pow2(6) == 64;
    DivModUnique(reg * 8 + (if read then 0x40 else 0), 64, if read then 1 else 0, reg * 8);
  }

  /** For a register id below 8 the command byte is `reg * 8`, plus `0x40` for
      a read; it stays below `0x80` and both the id and the read flag decode. */
  lemma CommandFields(reg: Byte, read: bool)
    requires reg < 8
    ensures CommandByte(reg, read) == reg * 8 + (if read then 0x40 else 0)
    ensures CommandByte(reg, false) <= 0x38 && CommandByte(reg, read) < 0x80
    ensures (CommandByte(reg, read) / 8) % 8 == reg
    ensures Bit(CommandByte(reg, read), 6) == (if read then 1 else 0)
  {
    CommandValue(reg, read);
    CommandValue(reg, false);
    CommandRegister(reg, read);
    CommandReadFlag(reg, read);
  }

  // ---------------------------------------------------------------------------
  // Mode register

  /** `(mode << 21) | (clock << 18)`, the shifts written as multiplications by
      `2^21` and `2^18`. */
  function ModeWord(mode: Byte, clock: Byte): nat
  {
    BitOr(mode * 0x20_0000, clock * 0x4_0000)
  }

  function ModeOf(w: nat): nat { (w / 0x20_0000) % 8 }
  function ClockOf(w: nat): nat { (w / 0x4_0000) % 4 }

  /** Every mode word fits in a C `long`. */
  lemma ModeWordBound(mode: Byte, clock: Byte)
    ensures ModeWord(mode, clock) < 0x8000_0000
  {
    Pow2Values();
    BitOrBound(mode * 0x20_0000, clock * 0x4_0000);
  }

  /** Both codes decode from the sum of the two fields. */
  lemma ModeSumFields(mode: Byte, clock: Byte)
    requires mode < 8 && clock < 4
    ensures ModeOf(mode * 0x20_0000 + clock * 0x4_0000) == mode
    ensures ClockOf(mode * 0x20_0000 + clock * 0x4_0000) == clock
  {
    DivModUnique(mode * 0x20_0000 + clock * 0x4_0000, 0x20_0000, mode, clock * 0x4_0000);
    DivModUnique(mode * 0x20_0000 + clock * 0x4_0000, 0x4_0000, mode * 8 + clock, 0);
    DivModUnique(mode * 8 + clock, 4, mode * 2, clock);
  }

  /** For in-range codes the two fields do not overlap, the word fits the
      24-bit register and both codes are recoverable. */
  lemma ModeFields(mode: Byte, clock: Byte)
    requires mode < 8 && clock < 4
    ensures ModeWord(mode, clock) == mode * 0x20_0000 + clock * 0x4_0000
    ensures ModeWord(mode, clock) < 0x100_0000
    ensures ModeOf(ModeWord(mode, clock)) == mode
    ensures ClockOf(ModeWord(mode, clock)) == clock
  {
    assert ModeWord(mode, clock) == mode * 0x20_0000 + clock * 0x4_0000 by {
      Pow2Values();
      BitOrShifted(mode, 21, 0x20_0000, clock * 0x4_0000);
    }
    ModeSumFields(mode, clock);
  }

  // ---------------------------------------------------------------------------
  // Configuration register

  /** `(refsel << 20) | (channels << 8) | (buffer << 4) | (polarity << 3) | gain`,
      grouped from the left as C groups it, the shifts written as
      multiplications by `2^20`, `2^8`, `2^4` and `2^3`. */
  function ConfigWord(refsel: Byte, channels: Byte, polarity: Byte, gain: Byte, buffer: Byte): nat
  {
    BitOr(BitOr(BitOr(BitOr(refsel * 0x10_0000, channels * 0x100), buffer * 0x10), polarity * 0x8), gain)
  }

  function RefselOf(w: nat): nat { (w / 0x10_0000) % 2 }
  function ChannelsOf(w: nat): nat { (w / 0x100) % 256 }
  function BufferOf(w: nat): nat { (w / 0x10) % 2 }
  function PolarityOf(w: nat): nat { (w / 0x8) % 2 }
  function GainOf(w: nat): nat { w % 8 }

  /** Every configuration word fits in a C `long`. */
  lemma ConfigWordBound(refsel: Byte, channels: Byte, polarity: Byte, gain: Byte, buffer: Byte)
    ensures ConfigWord(refsel, channels, polarity, gain, buffer) < 0x8000_0000
  {
    Pow2Values();
    var w1 := BitOr(refsel * 0x10_0000, channels * 0x100);
    BitOrBound(refsel * 0x10_0000, channels * 0x100);
    var w2 := BitOr(w1, buffer * 0x10);
    BitOrBound(w1, buffer * 0x10);
    var w3 := BitOr(w2, polarity * 0x8);
    BitOrBound(w2, polarity * 0x8);
    BitOrBound(w3, gain);
  }

  /** For in-range codes each OR adds a field that does not overlap the ones
      before it. */
  lemma ConfigValue(refsel: Byte, channels: Byte, polarity: Byte, gain: Byte, buffer: Byte)
    requires refsel < 2 && polarity < 2 && buffer < 2 && gain < 8
    ensures ConfigWord(refsel, channels, polarity, gain, buffer) == ConfigSum(refsel, channels, polarity, gain, buffer)
  {
    Pow2Values();
    // (refsel << 20) | (channels << 8)
    var q2 := refsel * 0x1000 + channels;
    var w1 := BitOr(refsel * 0x10_0000, channels * 0x100);
    BitOrShifted(refsel, 20, 0x10_0000, channels * 0x100);
    assert w1 == q2 * 0x100;
    // ... | (buffer << 4)
    var q3 := q2 * 0x10 + buffer;
    var w2 := BitOr(w1, buffer * 0x10);
    BitOrShifted(q2, 8, 0x100, buffer * 0x10);
    assert w2 == q3 * 0x10;
    // ... | (polarity << 3)
    var q4 := q3 * 2 + polarity;
    var w3 := BitOr(w2, polarity * 0x8);
    BitOrShifted(q3, 4, 0x10, polarity * 0x8);
    assert w3 == q4 * 0x8;
    // ... | gain
    BitOrShifted(q4, 3, 0x8, gain);
    assert BitOr(w3, gain) == q4 * 0x8 + gain;
  }

  /** The configuration word as a sum of its fields. */
  function ConfigSum(refsel: int, channels: int, polarity: int, gain: int, buffer: int): int
  {
    refsel * 0x10_0000 + channels * 0x100 + buffer * 0x10 + polarity * 0x8 + gain
  }

  lemma ConfigSumRefsel(refsel: Byte, channels: Byte, polarity: Byte, gain: Byte, buffer: Byte)
    requires refsel < 2 && polarity < 2 && buffer < 2 && gain < 8
    ensures ConfigSum(refsel, channels, polarity, gain, buffer) < 0x100_0000
    ensures RefselOf(ConfigSum(refsel, channels, polarity, gain, buffer)) == refsel
  {
    DivModUnique(ConfigSum(refsel, channels, polarity, gain, buffer), 0x10_0000, refsel,
                 channels * 0x100 + buffer * 0x10 + polarity * 8 + gain);
  }

  lemma ConfigSumChannels(refsel: Byte, channels: Byte, polarity: Byte, gain: Byte, buffer: Byte)
    requires refsel < 2 && polarity < 2 && buffer < 2 && gain < 8
    ensures ChannelsOf(ConfigSum(refsel, channels, polarity, gain, buffer)) == channels
  {
    DivModUnique(ConfigSum(refsel, channels, polarity, gain, buffer), 0x100,
                 refsel * 0x1000 + channels, buffer * 0x10 + polarity * 8 + gain);
    DivModUnique(refsel * 0x1000 + channels, 256, refsel * 16, channels);
  }

  lemma ConfigSumBuffer(refsel: Byte, channels: Byte, polarity: Byte, gain: Byte, buffer: Byte)
    requires refsel < 2 && polarity < 2 && buffer < 2 && gain < 8
    ensures BufferOf(ConfigSum(refsel, channels, polarity, gain, buffer)) == buffer
  {
    DivModUnique(ConfigSum(refsel, channels, polarity, gain, buffer), 0x10,
                 refsel * 0x1_0000 + channels * 0x10 + buffer, polarity * 8 + gain);
    DivModUnique(refsel * 0x1_0000 + channels * 0x10 + buffer, 2, refsel * 0x8000 + channels * 8, buffer);
  }

  lemma ConfigSumPolarityGain(refsel: Byte, channels: Byte, polarity: Byte, gain: Byte, buffer: Byte)
    requires refsel < 2 && polarity < 2 && buffer < 2 && gain < 8
    ensures PolarityOf(ConfigSum(refsel, channels, polarity, gain, buffer)) == polarity
    ensures GainOf(ConfigSum(refsel, channels, polarity, gain, buffer)) == gain
  {
    var hi := refsel * 0x2_0000 + channels * 0x20 + buffer * 2 + polarity;
    DivModUnique(ConfigSum(refsel, channels, polarity, gain, buffer), 0x8, hi, gain);
    DivModUnique(hi, 2, refsel * 0x1_0000 + channels * 0x10 + buffer, polarity);
  }

  /** For in-range codes the five fields are disjoint, the word fits the
      24-bit register and every field decodes back. */
  lemma ConfigFields(refsel: Byte, channels: Byte, polarity: Byte, gain: Byte, buffer: Byte)
    requires refsel < 2 && polarity < 2 && buffer < 2 && gain < 8
    ensures ConfigWord(refsel, channels, polarity, gain, buffer) < 0x100_0000
    ensures RefselOf(ConfigWord(refsel, channels, polarity, gain, buffer)) == refsel
    ensures ChannelsOf(ConfigWord(refsel, channels, polarity, gain, buffer)) == channels
    ensures BufferOf(ConfigWord(refsel, channels, polarity, gain, buffer)) == buffer
    ensures PolarityOf(ConfigWord(refsel, channels, polarity, gain, buffer)) == polarity
    ensures GainOf(ConfigWord(refsel, channels, polarity, gain, buffer)) == gain
  {
    ConfigValue(refsel, channels, polarity, gain, buffer);
    ConfigSumRefsel(refsel, channels, polarity, gain, buffer);
    ConfigSumChannels(refsel, channels, polarity, gain, buffer);
    ConfigSumBuffer(refsel, channels, polarity, gain, buffer);
    ConfigSumPolarityGain(refsel, channels, polarity, gain, buffer);
  }

  // ---------------------------------------------------------------------------
  // Channel selection

  /** The OR of the channel constants selected by `sel` (`sel[i]` selects
      `CHANNELS[i]`), as a caller writes `AIN1_2 | AIN3_4`. */
  function ChannelMask(sel: seq<bool>): nat
    requires |sel| <= 8
  {
    if |sel| == 0 then 0
    else BitOr(ChannelMask(sel[..|sel| - 1]), if sel[|sel| - 1] then CHANNELS[|sel| - 1] else 0)
  }

  /** The channel constants are the eight single bits of a byte. */
  lemma ChannelBits()
    ensures |CHANNELS| == 8
    ensures forall i :: 0 <= i < 8 ==> CHANNELS[i] == Pow2(i)
  {
    Pow2Values();
    assert Pow2(5) == 32;
    assert Pow2(7) == 128;
  }

  /** Adding an even multiple of `d` keeps the parity of the quotient by `d`. */
  lemma DivParity(x: nat, p: nat, d: nat, e: nat)
    requires d > 0 && x == p + (2 * e) * d
    ensures (x / d) % 2 == (p / d) % 2
  {
    DivAddMultiple(p, d, 2 * e);
    DivAddMultiple(p / d, 2, e);
  }

  /** `2^k` is an even multiple of `2^i` below it. */
  lemma Pow2Gap(k: nat, i: nat)
    requires i < k
    ensures Pow2(k) == (2 * Pow2(k - i - 1)) * Pow2(i)
  {
    Pow2Split(k, i);
    assert Pow2(k - i) == 2 * Pow2(k - i - 1);
  }

  /** Adding `2^k` leaves every bit below `k` alone. */
  lemma BitBelowPower(p: nat, k: nat, i: nat)
    requires i < k
    ensures Bit(p + Pow2(k), i) == Bit(p, i)
  {
    Pow2Gap(k, i);
    DivParity(p + Pow2(k), p, Pow2(i), Pow2(k - i - 1));
  }

  /** Adding a bit at position `k` above a value below `2^k` sets bit `k` and
      leaves the lower bits alone. */
  lemma BitOfSum(p: nat, b: nat, k: nat, i: nat)
    requires p < Pow2(k) && b < 2 && i <= k
    ensures Bit(p + b * Pow2(k), i) == if i == k then b else Bit(p, i)
  {
    assert p + b * Pow2(k) == if b == 0 then p else p + Pow2(k);
    if i == k {
      DivModUnique(p + b * Pow2(k), Pow2(k), b, p);
    } else if b == 1 {
      BitBelowPower(p, k, i);
    }
  }

  /** One step of the channel mask: bit `i` of `m = mp + b * 2^n` is the new
      selection at `n` and the old bit below it. */
  lemma MaskBit(m: nat, mp: nat, b: nat, n: nat, i: nat, s: bool, ps: bool)
    requires m == mp + b * Pow2(n) && mp < Pow2(n) && b == (if s then 1 else 0) && i <= n
    requires i < n ==> (Bit(mp, i) == 1 <==> ps)
    ensures Bit(m, i) == 1 <==> (if i == n then s else ps)
  {
    BitOfSum(mp, b, n, i);
  }

  /** Any OR of channel constants is an 8-bit mask whose bit `i` is set exactly
      when channel `i` was selected. */
  lemma {:induction false} ChannelMaskDecodes(sel: seq<bool>)
    requires |sel| <= 8
    ensures ChannelMask(sel) < Pow2(|sel|)
    ensures forall i :: 0 <= i < |sel| ==> (Bit(ChannelMask(sel), i) == 1 <==> sel[i])
  {
    if |sel| > 0 {
      var n := |sel| - 1;
      var pre := sel[..n];
      var b := if sel[n] then 1 else 0;
      ChannelMaskDecodes(pre);
      assert (if sel[n] then CHANNELS[n] else 0) == b * Pow2(n) by {
        ChannelBits();
      }
      BitOrDisjoint(b, n, ChannelMask(pre));
      assert ChannelMask(sel) == ChannelMask(pre) + b * Pow2(n);
      assert Pow2(n + 1) == 2 * Pow2(n);
      forall i | 0 <= i < |sel|
        ensures Bit(ChannelMask(sel), i) == 1 <==> sel[i]
      {
        if i < n {
          assert pre[i] == sel[i];
        }
        MaskBit(ChannelMask(sel), ChannelMask(pre), b, n, i, sel[n], i < n && pre[i]);
      }
    }
  }

  // ---------------------------------------------------------------------------
  // Data code to voltage

  /** The largest 24-bit data code. */
  const FULL_CODE: nat := 0xFF_FFFF

  /** `code / 0xFFFFFF * 2 * fullsc - fullsc`, over the reals. */
  function CodeToVolts(code: int, fullsc: real): real
  {
    (code as real) / (FULL_CODE as real) * 2.0 * fullsc - fullsc
  }

  /** Code 0 reads as the negative full-scale value, the largest code as the
      positive one. */
  lemma CodeToVoltsEnds(fullsc: real)
    ensures CodeToVolts(0, fullsc) == -fullsc
    ensures CodeToVolts(FULL_CODE, fullsc) == fullsc
  {
  }

  /** The map is monotone for a non-negative full scale. */
  lemma CodeToVoltsMonotone(c1: int, c2: int, fullsc: real)
    requires c1 <= c2 && fullsc >= 0.0
    ensures CodeToVolts(c1, fullsc) <= CodeToVolts(c2, fullsc)
  {
    var t1 := (c1 as real) / (FULL_CODE as real);
    var t2 := (c2 as real) / (FULL_CODE as real);
    assert t1 <= t2;
    assert (t2 - t1) * 2.0 * fullsc >= 0.0;
  }

  /** Every 24-bit code reads within [-fullsc, fullsc]. */
  lemma CodeToVoltsRange(code: int, fullsc: real)
    requires 0 <= code <= FULL_CODE && fullsc >= 0.0
    ensures -fullsc <= CodeToVolts(code, fullsc) <= fullsc
  {
    CodeToVoltsMonotone(0, code, fullsc);
    CodeToVoltsMonotone(code, FULL_CODE, fullsc);
    CodeToVoltsEnds(fullsc);
  }

  /** `vref / pow(2, vgain)`: the input range that the gain `2^vgain` amplifies
      to the reference voltage. */
  function FullScale(vref: real, vgain: Byte): (r: real)
    ensures r * (Pow2(vgain) as real) == vref
  {
    vref / (Pow2(vgain) as real)
  }

  /** With a named gain code the full scale is the reference over the gain. */
  lemma FullScaleGains(vref: real)
    ensures FullScale(vref, GAIN_1) == vref
    ensures FullScale(vref, GAIN_8) == vref / 8.0
    ensures FullScale(vref, GAIN_32) == vref / 32.0
    ensures FullScale(vref, GAIN_128) == vref / 128.0
  {
    GainCodes();
  }
}
