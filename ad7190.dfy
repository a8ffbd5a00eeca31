/** The AD7190 driver object. The SPI bus is replaced by a trace and a script:
    `tx` is every byte the driver has shifted out, and `miso` the bytes the
    device shifts back, one per transfer, so that transfer number `k` (counting
    from 0) receives `At(miso, k)`; past the end of the script the line reads
    0. */
module AD7190Driver {
  import opened Bits
  import opened AD7190Registers

  // ---------------------------------------------------------------------------
  // The bus script

  /** What the device shifts back during transfer number `k`. */
  function At(miso: seq<Byte>, k: nat): Byte
  {
    if k < |miso| then miso[k] else 0
  }

  lemma AppendAssoc(a: seq<Byte>, b: seq<Byte>, c: seq<Byte>)
    ensures a + b + c == a + (b + c)
  {
  }

  /** The `n` bytes the device shifts back from transfer number `k` on. */
  function Received(miso: seq<Byte>, k: nat, n: nat): (r: seq<Byte>)
    ensures |r| == n
  {
    seq<Byte>(n, i requires 0 <= i < n => At(miso, k + i))
  }

  function Zeros(n: nat): (r: seq<Byte>)
    ensures |r| == n
  {
    seq(n, i requires 0 <= i < n => 0)
  }

  // ---------------------------------------------------------------------------
  // What each operation shifts out

  /** `write_reg`: the command byte, then the `n` low bytes of `data`, most
      significant first. */
  function WriteFrame(reg: Byte, data: int, n: nat): (r: seq<Byte>)
    ensures |r| == n + 1
  {
    [CommandByte(reg, false)] + BytesMSB(data, n)
  }

  /** `read_reg`: the read command byte, then `n` zero bytes to clock the
      register out. */
  function ReadFrame(reg: Byte, n: nat): (r: seq<Byte>)
    ensures |r| == n + 1
  {
    [CommandByte(reg, true)] + Zeros(n)
  }

  /** The value a read of `n` bytes returns when its command byte is transfer
      number `k`: the byte clocked in with the command is dropped, the next `n`
      are assembled with the first one most significant. */
  function ReadValue(miso: seq<Byte>, k: nat, n: nat): nat
  {
    BigEndian(Received(miso, k + 1, n))
  }

  /** `reset`: forty one-bits, ten bytes of `0xFF`. */
  function ResetFrame(): (r: seq<Byte>)
    ensures |r| == 10
  {
    seq(10, i requires 0 <= i < 10 => 0xFF)
  }

  function ModeFrame(mode: Byte, clock: Byte): (r: seq<Byte>)
    ensures |r| == 4
  {
    WriteFrame(MODE, ModeWord(mode, clock), 3)
  }

  function ConfigFrame(refsel: Byte, channels: Byte, polarity: Byte, gain: Byte, buffer: Byte): (r: seq<Byte>)
    ensures |r| == 4
  {
    WriteFrame(CFG, ConfigWord(refsel, channels, polarity, gain, buffer), 3)
  }

  function CalibrateFrame(clock: Byte): (r: seq<Byte>)
    ensures |r| == 8
  {
    ModeFrame(INTZEROCAL, clock) + ModeFrame(INTFULLCAL, clock)
  }

  function InitFrame(mode: Byte, clock: Byte, refsel: Byte, channels: Byte, polarity: Byte,
                     vgain: Byte, buffer: Byte): (r: seq<Byte>)
    ensures |r| == 30
  {
    ResetFrame() + ModeFrame(mode, clock) + CalibrateFrame(clock) + ModeFrame(mode, clock)
    + ConfigFrame(refsel, channels, polarity, vgain, buffer)
  }

  /** `status & 0x80`: the converter has not finished a conversion. */
  predicate Busy(status: nat)
  {
    (status / STATUS_NOT_READY) % 2 == 1
  }

  /** Past the end of the script a status read returns 0: a busy status must
      have come from the script. */
  lemma PastScriptReady(miso: seq<Byte>, k: nat)
    ensures k + 1 >= |miso| ==> ReadValue(miso, k, 1) == 0
  {
    if k + 1 >= |miso| {
      assert Received(miso, k + 1, 1)[0] == At(miso, k + 1) == 0;
      assert Received(miso, k + 1, 1) == [0];
      assert [0][1..] == [];
      assert BigEndian([0]) == 0;
    }
  }

  /** How many times the `read_data` poll loop finds the converter busy when
      its first status read starts at transfer number `k`; each busy pass
      performs two status reads of two transfers each. */
  function BusyPolls(miso: seq<Byte>, k: nat): nat
    decreases |miso| - k
  {
    if Busy(ReadValue(miso, k, 1)) then
      PastScriptReady(miso, k);
      1 + BusyPolls(miso, k + 4)
    else 0
  }

  /** The transfer at which `read_data`, entered at transfer `k`, starts the
      read of the data register: after the configuration write and the poll. */
  function DataReadAt(miso: seq<Byte>, k: nat): nat
  {
    k + 4 + 4 * BusyPolls(miso, k + 4) + 2
  }

  /** The status reads of a poll loop that found the converter busy `k` times:
      two reads per busy pass and the final one that found it ready. */
  function StatusPolls(k: nat): (r: seq<Byte>)
    ensures |r| == 4 * k + 2
  {
    if k == 0 then ReadFrame(COMMSTAT, 1)
    else StatusPolls(k - 1) + ReadFrame(COMMSTAT, 1) + ReadFrame(COMMSTAT, 1)
  }

  lemma AppendAssoc5(t: seq<Byte>, a: seq<Byte>, b: seq<Byte>, c: seq<Byte>, d: seq<Byte>, e: seq<Byte>)
    ensures t + a + b + c + d + e == t + (a + b + c + d + e)
  {
  }

  /** Appending one busy pass to a trace that ends in `k` passes. */
  lemma StatusPollsStep(t: seq<Byte>, k: nat)
    ensures t + StatusPolls(k) + ReadFrame(COMMSTAT, 1) + ReadFrame(COMMSTAT, 1) == t + StatusPolls(k + 1)
  {
    var p, r := StatusPolls(k), ReadFrame(COMMSTAT, 1);
    AppendAssoc(t + p, r, r);
    AppendAssoc(t, p, r);
    AppendAssoc(t, p + r, r);
  }

  // ---------------------------------------------------------------------------
  // Properties of the frames

  /** The register a write frame addresses, and the value its data bytes carry. */
  function DecodeWrite(frame: seq<Byte>): (nat, nat)
    requires |frame| >= 1
  {
    ((frame[0] / 8) % 8, BigEndian(frame[1..]))
  }

  /** Decoding a write frame recovers the register and the value modulo the
      register width. */
  lemma WriteFrameDecodes(reg: Byte, data: int, n: nat)
    requires reg < 8
    ensures DecodeWrite(WriteFrame(reg, data, n)) == (reg, data % Pow2(8 * n))
    ensures WriteFrame(reg, data, n)[0] < 0x40
  {
    CommandFields(reg, false);
    assert WriteFrame(reg, data, n)[1..] == BytesMSB(data, n);
    BytesRoundTrip(data, n);
  }

  /** A device that answers a read with the bytes a write sent for `data`
      makes `read_reg` return `data` modulo the register width. */
  lemma ReadBackWritten(miso: seq<Byte>, k: nat, data: int, n: nat)
    requires k + 1 + n <= |miso| && miso[k + 1..k + 1 + n] == BytesMSB(data, n)
    ensures ReadValue(miso, k, n) == data % Pow2(8 * n)
  {
    forall i | 0 <= i < n
      ensures Received(miso, k + 1, n)[i] == BytesMSB(data, n)[i]
    {
      assert Received(miso, k + 1, n)[i] == At(miso, k + 1 + i) == miso[k + 1 + i];
      assert miso[k + 1..k + 1 + n][i] == miso[k + 1 + i];
    }
    assert Received(miso, k + 1, n) == BytesMSB(data, n);
    BytesRoundTrip(data, n);
  }

  /** Every read returns a value that fits its width. */
  lemma ReadValueBound(miso: seq<Byte>, k: nat, n: nat)
    ensures ReadValue(miso, k, n) < Pow2(8 * n)
  {
    BigEndianBound(Received(miso, k + 1, n));
  }

  /** A three-byte read returns at most the full-scale code. */
  lemma ReadCodeBound(miso: seq<Byte>, k: nat)
    ensures ReadValue(miso, k, 3) <= FULL_CODE
  {
    ReadValueBound(miso, k, 3);
    Pow2Values();
  }

  /** A mode frame for in-range codes addresses MODE and carries both codes. */
  lemma ModeFrameDecodes(mode: Byte, clock: Byte)
    requires mode < 8 && clock < 4
    ensures DecodeWrite(ModeFrame(mode, clock)).0 == MODE
    ensures ModeOf(DecodeWrite(ModeFrame(mode, clock)).1) == mode
    ensures ClockOf(DecodeWrite(ModeFrame(mode, clock)).1) == clock
  {
    var w := ModeWord(mode, clock);
    ModeFields(mode, clock);
    WriteFrameDecodes(MODE, w, 3);
    assert w % Pow2(24) == w by {
      Pow2Values();
      DivModUnique(w, Pow2(24), 0, w);
    }
  }

  /** Calibration is two writes to MODE: the internal zero-scale calibration,
      then the internal full-scale calibration, both on the given clock. */
  lemma CalibrationOrder(clock: Byte)
    requires clock < 4
    ensures DecodeWrite(CalibrateFrame(clock)[..4]).0 == MODE
    ensures DecodeWrite(CalibrateFrame(clock)[4..]).0 == MODE
    ensures ModeOf(DecodeWrite(CalibrateFrame(clock)[..4]).1) == INTZEROCAL
    ensures ModeOf(DecodeWrite(CalibrateFrame(clock)[4..]).1) == INTFULLCAL
    ensures ClockOf(DecodeWrite(CalibrateFrame(clock)[..4]).1) == clock
    ensures ClockOf(DecodeWrite(CalibrateFrame(clock)[4..]).1) == clock
  {
    assert CalibrateFrame(clock)[..4] == ModeFrame(INTZEROCAL, clock);
    assert CalibrateFrame(clock)[4..] == ModeFrame(INTFULLCAL, clock);
    ModeFrameDecodes(INTZEROCAL, clock);
    ModeFrameDecodes(INTFULLCAL, clock);
  }

  /** Cutting a concatenation of five sequences of lengths 10, 4, 8, 4, 4 at
      its boundaries. */
  lemma Cut5(r: seq<Byte>, m: seq<Byte>, c: seq<Byte>, m2: seq<Byte>, g: seq<Byte>)
    requires |r| == 10 && |m| == 4 && |c| == 8 && |m2| == 4 && |g| == 4
    ensures (r + m + c + m2 + g)[..10] == r
    ensures (r + m + c + m2 + g)[10..14] == m
    ensures (r + m + c + m2 + g)[14..18] == c[..4]
    ensures (r + m + c + m2 + g)[18..22] == c[4..]
    ensures (r + m + c + m2 + g)[22..26] == m2
    ensures (r + m + c + m2 + g)[26..30] == g
  {
    var t := r + m + c + m2 + g;
    assert t[14..22] == c;
  }

  /** The bring-up frame cut at its operation boundaries. */
  lemma InitFrameParts(mode: Byte, clock: Byte, refsel: Byte, channels: Byte, polarity: Byte,
                       vgain: Byte, buffer: Byte)
    ensures var t := InitFrame(mode, clock, refsel, channels, polarity, vgain, buffer);
            && t[..10] == ResetFrame()
            && t[10..14] == ModeFrame(mode, clock)
            && t[14..18] == ModeFrame(INTZEROCAL, clock)
            && t[18..22] == ModeFrame(INTFULLCAL, clock)
            && t[22..26] == ModeFrame(mode, clock)
            && t[26..30] == ConfigFrame(refsel, channels, polarity, vgain, buffer)
  {
    Cut5(ResetFrame(), ModeFrame(mode, clock), CalibrateFrame(clock), ModeFrame(mode, clock),
         ConfigFrame(refsel, channels, polarity, vgain, buffer));
    CutCalibrate(clock);
  }

  lemma CutCalibrate(clock: Byte)
    ensures CalibrateFrame(clock)[..4] == ModeFrame(INTZEROCAL, clock)
    ensures CalibrateFrame(clock)[4..] == ModeFrame(INTFULLCAL, clock)
  {
  }

  /** A configuration frame for in-range fields addresses CFG and carries the
      channel selection, gain, polarity, buffer and reference selection. */
  lemma ConfigFrameDecodes(refsel: Byte, channels: Byte, polarity: Byte, gain: Byte, buffer: Byte)
    requires refsel < 2 && polarity < 2 && gain < 8 && buffer < 2
    ensures var w := DecodeWrite(ConfigFrame(refsel, channels, polarity, gain, buffer));
            && w.0 == CFG
            && RefselOf(w.1) == refsel && ChannelsOf(w.1) == channels
            && PolarityOf(w.1) == polarity && GainOf(w.1) == gain && BufferOf(w.1) == buffer
  {
    var w := ConfigWord(refsel, channels, polarity, gain, buffer);
    ConfigFields(refsel, channels, polarity, gain, buffer);
    WriteFrameDecodes(CFG, w, 3);
    assert w % Pow2(24) == w by {
      Pow2Values();
      DivModUnique(w, Pow2(24), 0, w);
    }
  }

  /** The bring-up sequence: ten reset bytes, the requested mode, zero-scale
      then full-scale calibration, the requested mode again, then the
      configuration, each field recoverable from the bytes on the bus. */
  lemma InitSequence(mode: Byte, clock: Byte, refsel: Byte, channels: Byte, polarity: Byte,
                     vgain: Byte, buffer: Byte)
    requires mode < 8 && clock < 4 && refsel < 2 && polarity < 2 && vgain < 8 && buffer < 2
    ensures var t := InitFrame(mode, clock, refsel, channels, polarity, vgain, buffer);
            && (forall i :: 0 <= i < 10 ==> t[i] == 0xFF)
            && DecodeWrite(t[10..14]) == DecodeWrite(t[22..26]) == (MODE, ModeWord(mode, clock))
            && ModeOf(ModeWord(mode, clock)) == mode && ClockOf(ModeWord(mode, clock)) == clock
            && DecodeWrite(t[14..18]).0 == MODE && ModeOf(DecodeWrite(t[14..18]).1) == INTZEROCAL
            && ClockOf(DecodeWrite(t[14..18]).1) == clock
            && DecodeWrite(t[18..22]).0 == MODE && ModeOf(DecodeWrite(t[18..22]).1) == INTFULLCAL
            && ClockOf(DecodeWrite(t[18..22]).1) == clock
            && DecodeWrite(t[26..30]).0 == CFG
            && RefselOf(DecodeWrite(t[26..30]).1) == refsel
            && ChannelsOf(DecodeWrite(t[26..30]).1) == channels
            && BufferOf(DecodeWrite(t[26..30]).1) == buffer
            && PolarityOf(DecodeWrite(t[26..30]).1) == polarity
            && GainOf(DecodeWrite(t[26..30]).1) == vgain
  {
    var t := InitFrame(mode, clock, refsel, channels, polarity, vgain, buffer);
    InitFrameParts(mode, clock, refsel, channels, polarity, vgain, buffer);
    assert forall i :: 0 <= i < 10 ==> t[i] == t[..10][i];
    ModeFrameDecodes(mode, clock);
    ModeFrameDecodes(INTZEROCAL, clock);
    ModeFrameDecodes(INTFULLCAL, clock);
    ConfigFrameDecodes(refsel, channels, polarity, vgain, buffer);
    assert DecodeWrite(ModeFrame(mode, clock)) == (MODE, ModeWord(mode, clock)) by {
      var w := ModeWord(mode, clock);
      ModeFields(mode, clock);
      WriteFrameDecodes(MODE, w, 3);
      Pow2Values();
      DivModUnique(w, Pow2(24), 0, w);
    }
  }

  // ---------------------------------------------------------------------------
  // The driver

  class AD7190 {
    var unipolar: bool
    var fullsc: real
    var vref: real
    var refsel: Byte
    var vgain: Byte
    var clock: Byte
    var buf: Byte
    var singleConv: bool

    /** Bytes shifted out on the bus so far; `|tx|` is also the number of
        transfers performed. */
    var tx: seq<Byte>
    /** What the device shifts back, transfer by transfer. */
    const miso: seq<Byte>

    /** `AD7190(Vref)` on a bus whose device answers `script`. Fields the source
        leaves uninitialised are unconstrained. */
    constructor (Vref: real, script: seq<Byte>)
      ensures vref == Vref && !unipolar
      ensures tx == [] && miso == script
    {
      vref := Vref;
      unipolar := false;
      tx := [];
      miso := script;
    }

    /** One full-duplex byte transfer (`spi_transfer`). */
    method Transfer(data: Byte) returns (received: Byte)
      modifies this`tx
      ensures tx == old(tx) + [data]
      ensures received == At(miso, |old(tx)|)
    {
      received := At(miso, |tx|);
      tx := tx + [data];
    }

    method Reset()
      modifies this`tx
      ensures tx == old(tx) + ResetFrame()
    {
      var i := 0;
      while i < 10
        invariant 0 <= i <= 10
        invariant tx == old(tx) + ResetFrame()[..i]
      {
        var _ := Transfer(0xFF);
        assert ResetFrame()[..i + 1] == ResetFrame()[..i] + [0xFF];
        i := i + 1;
      }
      assert ResetFrame()[..10] == ResetFrame();
    }

    /** `write_reg(reg, data, nbytes)` for a `long` value of `data` and at most
        four bytes. */
    method WriteReg(reg: Byte, data: int, nbytes: nat)
      requires nbytes <= 4 && -0x8000_0000 <= data < 0x8000_0000
      modifies this`tx
      ensures tx == old(tx) + WriteFrame(reg, data, nbytes)
    {
      var comm := reg * 8;
      var _ := Transfer(comm % 256);
      ghost var frame := WriteFrame(reg, data, nbytes);
      var i: int := nbytes - 1;
      while i >= 0
        invariant -1 <= i < nbytes
        invariant tx == old(tx) + frame[..nbytes - i]
      {
        var b := (data / Pow2(8 * i)) % 256;
        assert b == frame[nbytes - i] by {
          assert frame[nbytes - i] == BytesMSB(data, nbytes)[nbytes - 1 - i];
          BytesMSBAt(data, nbytes, i);
        }
        var _ := Transfer(b);
        assert frame[..nbytes - i + 1] == frame[..nbytes - i] + [b];
        i := i - 1;
      }
      assert frame[..nbytes + 1] == frame;
    }

    /** `read_reg(reg, nbytes)` for registers of at most three bytes. The bytes
        are stored in an array, the first received at the highest index, then
        OR-ed together at their weights. */
    method ReadReg(reg: Byte, nbytes: nat) returns (regval: int)
      requires nbytes <= 3
      modifies this`tx
      ensures tx == old(tx) + ReadFrame(reg, nbytes)
      ensures regval == ReadValue(miso, |old(tx)|, nbytes)
    {
      var bytes := new Byte[nbytes];
      var comm := BitOr(reg * 8, 0x40);
      var _ := Transfer(comm % 256);
      ghost var recv := Received(miso, |old(tx)| + 1, nbytes);
      regval := 0;
      var i: int := nbytes - 1;
      while i >= 0
        invariant -1 <= i < nbytes
        invariant tx == old(tx) + ReadFrame(reg, nbytes)[..nbytes - i]
        invariant forall j :: i < j < nbytes ==> bytes[j] == recv[nbytes - 1 - j]
      {
        bytes[i] := Transfer(0x0);
        assert ReadFrame(reg, nbytes)[..nbytes - i + 1] == ReadFrame(reg, nbytes)[..nbytes - i] + [0];
        i := i - 1;
      }
      assert ReadFrame(reg, nbytes)[..nbytes + 1] == ReadFrame(reg, nbytes);
      i := 0;
      while i < nbytes
        invariant 0 <= i <= nbytes
        invariant regval == BigEndian(recv[nbytes - i..])
        invariant tx == old(tx) + ReadFrame(reg, nbytes)
        invariant forall j :: 0 <= j < nbytes ==> bytes[j] == recv[nbytes - 1 - j]
      {
        ghost var low := recv[nbytes - i..];
        BigEndianBound(low);
        BitOrDisjoint(bytes[i], 8 * i, regval);
        BigEndianCons(recv[nbytes - i - 1..]);
        assert recv[nbytes - i - 1..][1..] == low;
        regval := BitOr(regval, Shl(bytes[i], 8 * i));
        i := i + 1;
      }
      assert recv[0..] == recv;
    }

    /** `set_mode(mode, clock)`: write `(mode << 21) | (clock << 18)` to MODE. */
    method SetMode(mode: Byte, clock: Byte)
      modifies this`tx
      ensures tx == old(tx) + ModeFrame(mode, clock)
    {
      var regval := ModeWord(mode, clock);
      ModeWordBound(mode, clock);
      WriteReg(MODE, regval, 3);
    }

    /** `calibrate(clock)`: zero-scale, then full-scale internal calibration
        (the settling delays are not modelled). */
    method Calibrate(clock: Byte)
      modifies this`tx
      ensures tx == old(tx) + CalibrateFrame(clock)
    {
      SetMode(INTZEROCAL, clock);
      SetMode(INTFULLCAL, clock);
      AppendAssoc(old(tx), ModeFrame(INTZEROCAL, clock), ModeFrame(INTFULLCAL, clock));
    }

    /** `set_config(refsel, channels, polarity, gain, buffer)`. */
    method SetConfig(refsel: Byte, channels: Byte, polarity: Byte, gain: Byte, buffer: Byte)
      modifies this`tx
      ensures tx == old(tx) + ConfigFrame(refsel, channels, polarity, gain, buffer)
    {
      var regval := ConfigWord(refsel, channels, polarity, gain, buffer);
      ConfigWordBound(refsel, channels, polarity, gain, buffer);
      WriteReg(CFG, regval, 3);
    }

    /** `init(mode, clock, refsel, channels, polarity, gain, buffer)`: record the
        configuration, derive the full scale, then reset, set the mode,
        calibrate, restore the mode and write the configuration. */
    method Init(mode: Byte, clockval: Byte, refselval: Byte, channels: Byte, polarity: Byte,
                vgainval: Byte, buffer: Byte)
      modifies this
      ensures unipolar == (polarity != 0)
      ensures refsel == refselval && vgain == vgainval && clock == clockval && buf == buffer
      ensures vref == old(vref) && fullsc == FullScale(vref, vgainval)
      ensures mode == PULSE ==> singleConv
      ensures mode != PULSE ==> singleConv == old(singleConv)
      ensures tx == old(tx) + InitFrame(mode, clockval, refselval, channels, polarity, vgainval, buffer)
    {
      unipolar := polarity != 0;
      refsel := refselval;
      vgain := vgainval;
      clock := clockval;
      buf := buffer;
      fullsc := vref / (Pow2(vgain) as real);
      if mode == PULSE {
        singleConv := true;
      }
      ghost var t0 := tx;
      Reset();
      SetMode(mode, clock);
      Calibrate(clock);
      SetMode(mode, clock);
      SetConfig(refsel, channels, polarity, vgain, buf);
      AppendAssoc5(t0, ResetFrame(), ModeFrame(mode, clock), CalibrateFrame(clock), ModeFrame(mode, clock),
                   ConfigFrame(refsel, channels, polarity, vgain, buf));
    }

    /** `init(channels)`: pulsed conversions on the internal clock, first
        reference input, bipolar, gain 32, buffered. */
    method InitDefault(channels: Byte)
      modifies this
      ensures singleConv && !unipolar
      ensures refsel == REFIN1 && vgain == GAIN_32 && clock == INTCLK2 && buf == BUF
      ensures vref == old(vref) && fullsc == vref / 32.0
      ensures tx == old(tx) + InitFrame(PULSE, INTCLK2, REFIN1, channels, BIPOLAR, GAIN_32, BUF)
    {
      Init(PULSE, INTCLK2, REFIN1, channels, BIPOLAR, GAIN_32, BUF);
      FullScaleGains(vref);
    }

    /** The status poll of `read_data`: read the status register until its
        not-ready bit is clear, performing the second status read that the
        source prints on every busy pass. It ends because a busy status can only
        come from the device script. */
    method WaitReady()
      modifies this`tx
      ensures tx == old(tx) + StatusPolls(BusyPolls(miso, |old(tx)|))
    {
      ghost var t1 := tx;
      ghost var k: nat := 0;
      var status := ReadReg(COMMSTAT, 1);
      while Busy(status)
        invariant |tx| == |t1| + 4 * k + 2
        invariant status == ReadValue(miso, |t1| + 4 * k, 1)
        invariant k + BusyPolls(miso, |t1| + 4 * k) == BusyPolls(miso, |t1|)
        invariant tx == t1 + StatusPolls(k)
        decreases BusyPolls(miso, |t1| + 4 * k)
      {
        var shown := ReadReg(COMMSTAT, 1);
        status := ReadReg(COMMSTAT, 1);
        StatusPollsStep(t1, k);
        k := k + 1;
      }
    }

    /** `read_data(ch)`: select the channel, wait until the converter is
        ready, read the 24-bit code and map it to a voltage, and start the next
        single conversion when in pulse mode. */
    method ReadData(ch: int) returns (err: real)
      modifies this`tx
      ensures err == CodeToVolts(ReadValue(miso, DataReadAt(miso, |old(tx)|), 3), old(fullsc))
      ensures tx == old(tx) + ConfigFrame(old(refsel), ch % 256, if old(unipolar) then 1 else 0, old(vgain), old(buf))
                       + StatusPolls(BusyPolls(miso, |old(tx)| + 4)) + ReadFrame(DATA, 3)
                       + (if old(singleConv) then ModeFrame(PULSE, old(clock)) else [])
      ensures fullsc >= 0.0 ==> -fullsc <= err <= fullsc
    {
      ghost var n := |tx|;
      SetConfig(refsel, ch % 256, if unipolar then 1 else 0, vgain, buf);
      assert |tx| == n + 4;
      ghost var k := BusyPolls(miso, n + 4);
      WaitReady();
      ghost var at := |tx|;
      assert at == n + 4 * k + 6;
      var ret := ReadReg(DATA, 3);
      assert at == DataReadAt(miso, n);
      err := CodeToVolts(ret, fullsc);
      if fullsc >= 0.0 {
        ReadCodeBound(miso, at);
        CodeToVoltsRange(ret, fullsc);
      }
      if singleConv {
        SetMode(PULSE, clock);
      }
    }
  }
}
