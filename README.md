# AD7190 driver and PID heater controller, modelled in Dafny

This project models the two libraries that run a temperature-control loop on
an Arduino-class board:

- **The AD7190 driver** (`AD7190.cpp`, `AD7190.h`) talks to a 24-bit
  sigma-delta ADC over SPI. It encodes command bytes and writes registers most
  significant byte first. It reads registers back by reassembling the bytes it
  receives. It packs the mode and configuration registers from small codes,
  runs the bring-up sequence (reset, mode, zero-scale then full-scale
  calibration, mode, configuration), and maps a data code to a voltage.
  - The SPI bus is a trace: the class `AD7190Driver.AD7190` keeps `tx`, every
    byte shifted out so far, and `miso`, the bytes the device answers, one per
    transfer.
  - Every method states exactly which bytes it appends to `tx`. Lemmas about
    those frames show that the fields can be decoded back from them.
- **The PID controller** (`PID.cpp`, `PID.h`) is a class with fields that are
  updated in place:
  - a five-slot circular sample window `y` with cursor `ind`;
  - a weight array `v`, holding the least-squares slope weights;
  - a clamped integral;
  - a second-order filter with a two-deep history;
  - a decimation counter `count` modulo `update_num`.

  Doubles are modelled as reals. The square root is an arbitrary non-negative
  function, given to the constructor. Every value written to the DAC is kept in
  a trace `dac`.

Files:
- `bits.dfy` (module `Bits`): powers of two, a bitwise OR on naturals, and
  big-endian bytes, with their round trip.
- `registers.dfy` (module `AD7190Registers`): the constants of `AD7190.h`,
  the command byte, the mode and configuration words with their field
  decoders, the channel masks, and the code-to-voltage map.
- `ad7190.dfy` (module `AD7190Driver`): the byte frames of each operation, and
  the driver class.
- `pid_math.dfy` (module `PIDMath`): the arithmetic of the controller
  (weights, window, anti-windup, filter, output stage, DAC code, counter).
- `pid.dfy` (module `PIDController`): the controller class.

The first `pid` call after construction is worked through in
`PIDMath.FirstCallNegativeError`. It is easy to read the call as driving
`vout` from the raw error: with `K_p = 1` and an error of -2 one would expect
`vout = sqrt(2) + 0.7`. The code does not do that. It passes the error through
the filter first, and the filter starts from zero history. The effort is
therefore `2 * num[0]`, not 2, and `vout = sqrt(2 * num[0]) + 0.7`. The model
follows the code.

## Model

| member | source | states |
|---|---|---|
| AD7190Registers.CommandByte | Code/Libraries/AD7190/AD7190.cpp:19-29 | definition: `reg << 3`, with `0x40` OR-ed in for a read, truncated to a byte by the transfer; its values and fields are stated by CommandFields |
| AD7190Registers.ModeWord | Code/Libraries/AD7190/AD7190.cpp:59 | definition: `(mode << 21) OR (clock << 18)` with the shifts as multiplications and the OR as BitOr; its fields are stated by ModeFields and its bound by ModeWordBound |
| AD7190Registers.ConfigWord | Code/Libraries/AD7190/AD7190.cpp:77 | definition: the five shifted fields OR-ed together, grouped from the left as in C; its fields are stated by ConfigFields and its bound by ConfigWordBound |
| AD7190Registers.ChannelMask | Code/Libraries/AD7190/AD7190.h:43-50 | definition: the OR of the selected channel constants; ChannelMaskDecodes states which bits it sets |
| AD7190Registers.CodeToVolts | Code/Libraries/AD7190/AD7190.cpp:49 | definition: `code / 0xFFFFFF * 2 * fullsc - fullsc` over the reals; its ends, monotonicity and range are stated by the CodeToVolts lemmas |
| AD7190Registers.FullScale | Code/Libraries/AD7190/AD7190.cpp:88 | `vref / 2^vgain`, stated as its inverse: the full scale times the gain `2^vgain` is vref |
| AD7190Registers.RegisterIds | Code/Libraries/AD7190/AD7190.h:9-16 | the eight register ids are exactly 0..7 |
| AD7190Registers.ModeAndClockCodes | Code/Libraries/AD7190/AD7190.h:19-32 | the operating-mode codes are 0..7 and fit 3 bits; the clock codes are 0..3 and fit 2 bits |
| AD7190Registers.GainCodes | Code/Libraries/AD7190/AD7190.h:35-40 | each gain code k has 2^k equal to the gain it names (1, 8, 16, 32, 64, 128) |
| AD7190Registers.FlagCodes | Code/Libraries/AD7190/AD7190.h:52-59 | the polarity, reference-select and buffer codes are each 0 or 1, and the two of each pair differ |
| AD7190Registers.ChannelBits | Code/Libraries/AD7190/AD7190.h:43-50 | the eight channel constants are the single bits 2^0 .. 2^7 |
| AD7190Registers.ChannelMaskDecodes | Code/Libraries/AD7190/AD7190.h:43-50 | the OR of any selection of channel constants fits 8 bits, and bit i is set exactly when channel i is selected |
| AD7190Registers.CommandFields | Code/Libraries/AD7190/AD7190.cpp:19-29 | for a register id below 8, the command byte is `reg*8`, plus 0x40 for a read; a write command is at most 0x38 and any command is below 0x80; the register id and the read bit decode back from it |
| AD7190Registers.CommandRegister | Code/Libraries/AD7190/AD7190.cpp:19-29 | bits 3..5 of the command byte hold the register id |
| AD7190Registers.CommandReadFlag | Code/Libraries/AD7190/AD7190.cpp:29 | bit 6 of the command byte is set exactly for a read |
| AD7190Registers.ModeFields | Code/Libraries/AD7190/AD7190.cpp:59 | for mode < 8 and clock < 4 the mode word is `mode*2^21 + clock*2^18`, fits 24 bits, and both codes decode back from it |
| AD7190Registers.ModeWordBound | Code/Libraries/AD7190/AD7190.cpp:59 | for any byte codes the shifted OR stays below 2^31, so the `int` shifts do not overflow |
| AD7190Registers.ConfigFields | Code/Libraries/AD7190/AD7190.cpp:77 | for in-range codes the configuration word fits 24 bits, and the reference select, channel mask, buffer, polarity and gain each decode back from it (the fields are disjoint) |
| AD7190Registers.ConfigValue | Code/Libraries/AD7190/AD7190.cpp:77 | for in-range codes the OR of the shifted fields equals their sum |
| AD7190Registers.ConfigWordBound | Code/Libraries/AD7190/AD7190.cpp:77 | for any byte codes the configuration word stays below 2^31 |
| AD7190Registers.CodeToVoltsEnds | Code/Libraries/AD7190/AD7190.cpp:49 | code 0 maps to -fullsc, and code 0xFFFFFF maps to +fullsc |
| AD7190Registers.CodeToVoltsMonotone | Code/Libraries/AD7190/AD7190.cpp:49 | for fullsc >= 0 the code-to-voltage map is monotone |
| AD7190Registers.CodeToVoltsRange | Code/Libraries/AD7190/AD7190.cpp:49 | for fullsc >= 0, every 24-bit code maps into [-fullsc, fullsc] |
| AD7190Registers.FullScaleGains | Code/Libraries/AD7190/AD7190.cpp:88 | `vref / 2^vgain` is vref, vref/8, vref/32 and vref/128 for gains 1, 8, 32 and 128 |
| Bits.Shl | Code/Libraries/AD7190/AD7190.cpp:36 | definition: `x << k` on a non-negative value that does not overflow, as `x * 2^k` |
| Bits.BitOr | Code/Libraries/AD7190/AD7190.cpp:36 | definition: bitwise OR of two naturals, bit by bit from the least significant end (also the OR of lines 29, 59 and 77); BitOrDisjoint states when it is addition |
| Bits.BytesMSB | Code/Libraries/AD7190/AD7190.cpp:21-23 | the n bytes `write_reg` sends for `data`: exactly n of them; BytesMSBAt states each byte and BytesRoundTrip their value |
| Bits.BigEndian | Code/Libraries/AD7190/AD7190.cpp:35-37 | definition: the value of a byte string whose first byte is most significant; BigEndianBound bounds it and BytesRoundTrip inverts BytesMSB with it |
| Bits.BytesRoundTrip | Code/Libraries/AD7190/AD7190.cpp:18-39 | reassembling, most significant first, the bytes that `write_reg` emits for `data` gives `data mod 256^n` |
| Bits.BitOrDisjoint | Code/Libraries/AD7190/AD7190.cpp:36 | OR-ing a value below 2^k with a multiple of 2^k is addition, in either order |
| Bits.BytesMSBAt | Code/Libraries/AD7190/AD7190.cpp:22 | byte i of the emitted frame, counted from the end, is `(data >> 8*i) & 0xFF` |
| AD7190Driver.At | Code/Libraries/AD7190/AD7190.h:63-68 | definition: the byte `spi_transfer` returns on transfer number k: the device script's byte, or 0 past its end |
| AD7190Driver.Received | Code/Libraries/AD7190/AD7190.cpp:32-34 | the n bytes returned by the transfers from number k on, as `read_reg` collects them: exactly n of them |
| AD7190Driver.WriteFrame | Code/Libraries/AD7190/AD7190.cpp:18-24 | the bytes `write_reg` sends: the write command, then the n data bytes, `n + 1` in all; WriteFrameDecodes states what they carry |
| AD7190Driver.ReadFrame | Code/Libraries/AD7190/AD7190.cpp:29-34 | the bytes `read_reg` sends: the read command, then n zero bytes, `n + 1` in all |
| AD7190Driver.ReadValue | Code/Libraries/AD7190/AD7190.cpp:31-38 | definition: the n bytes received after the command, assembled with the first one most significant; ReadValueBound and ReadBackWritten state its range and its round trip |
| AD7190Driver.ResetFrame | Code/Libraries/AD7190/AD7190.cpp:10-15 | the bytes `reset` sends: ten of them, each 0xFF |
| AD7190Driver.ModeFrame | Code/Libraries/AD7190/AD7190.cpp:58-62 | the four bytes `set_mode` sends, a 3-byte MODE write of ModeWord; ModeFrameDecodes states what they carry |
| AD7190Driver.ConfigFrame | Code/Libraries/AD7190/AD7190.cpp:76-80 | the four bytes `set_config` sends, a 3-byte CFG write of ConfigWord; ConfigFrameDecodes states what they carry |
| AD7190Driver.CalibrateFrame | Code/Libraries/AD7190/AD7190.cpp:65-71 | the eight bytes `calibrate` sends, two mode writes; CalibrationOrder states their order |
| AD7190Driver.InitFrame | Code/Libraries/AD7190/AD7190.cpp:92-96 | the thirty bytes `init` sends; InitFrameParts and InitSequence state its parts |
| AD7190Driver.Busy | Code/Libraries/AD7190/AD7190.cpp:44 | definition: `status & 0x80` is set |
| AD7190Driver.BusyPolls | Code/Libraries/AD7190/AD7190.cpp:44-46 | definition: the number of busy passes of the poll loop, each of two status reads; it terminates because a busy status can only come from the device script (PastScriptReady) |
| AD7190Driver.StatusPolls | Code/Libraries/AD7190/AD7190.cpp:44-46 | the bytes of a poll loop with k busy passes: two status reads per pass and the final one, `4k + 2` bytes |
| AD7190Driver.DataReadAt | Code/Libraries/AD7190/AD7190.cpp:43-48 | definition: the transfer number of the DATA read command, after the configuration write and the poll |
| AD7190Driver.WriteFrameDecodes | Code/Libraries/AD7190/AD7190.cpp:18-24 | a write frame for a register below 8 starts with a write command naming that register, and its data bytes decode to `data mod 256^n` |
| AD7190Driver.ReadBackWritten | Code/Libraries/AD7190/AD7190.cpp:18-39 | if the device answers a read with the bytes a write of `data` emitted, the read returns `data mod 256^n` |
| AD7190Driver.ReadValueBound | Code/Libraries/AD7190/AD7190.cpp:32-37 | a read of n bytes returns a value below 256^n |
| AD7190Driver.ReadCodeBound | Code/Libraries/AD7190/AD7190.cpp:48 | a 3-byte data read is at most 0xFFFFFF |
| AD7190Driver.ModeFrameDecodes | Code/Libraries/AD7190/AD7190.cpp:58-62 | a mode frame addresses MODE, and the mode and clock decode back from it |
| AD7190Driver.ConfigFrameDecodes | Code/Libraries/AD7190/AD7190.cpp:76-80 | a configuration frame addresses CFG and carries each field recoverably |
| AD7190Driver.CalibrationOrder | Code/Libraries/AD7190/AD7190.cpp:65-71 | calibration writes INTZEROCAL mode and then INTFULLCAL mode, both with the given clock |
| AD7190Driver.InitSequence | Code/Libraries/AD7190/AD7190.cpp:82-97 | the bring-up frame is: ten 0xFF bytes, the requested mode, zero-scale calibration, full-scale calibration, the requested mode again, and the configuration; mode and clock decode from both mode writes, the calibration modes and the clock from the two calibration writes, and reference select, channels, buffer, polarity and gain from the configuration write |
| AD7190Driver.InitFrameParts | Code/Libraries/AD7190/AD7190.cpp:92-96 | the bring-up frame splits at its operation boundaries into reset, mode, the two calibration writes, mode and configuration frames |
| AD7190Driver.PastScriptReady | Code/Libraries/AD7190/AD7190.cpp:44 | a status read past the end of the device script reads 0, which is "ready" |
| AD7190Driver.AD7190.constructor | Code/Libraries/AD7190/AD7190.cpp:3-6 | stores vref; the object is bipolar and nothing has been sent |
| AD7190Driver.AD7190.Transfer | Code/Libraries/AD7190/AD7190.h:63-68 | one transfer appends the byte sent and returns the device's next scripted byte |
| AD7190Driver.AD7190.Reset | Code/Libraries/AD7190/AD7190.cpp:10-15 | appends exactly ten 0xFF bytes |
| AD7190Driver.AD7190.WriteReg | Code/Libraries/AD7190/AD7190.cpp:18-24 | appends the command `reg*8` and then the n low bytes of data, most significant first |
| AD7190Driver.AD7190.ReadReg | Code/Libraries/AD7190/AD7190.cpp:27-39 | appends the read command and n zero bytes, and returns the n received bytes as a big-endian number |
| AD7190Driver.AD7190.SetMode | Code/Libraries/AD7190/AD7190.cpp:58-62 | appends a 3-byte MODE write of the mode word |
| AD7190Driver.AD7190.Calibrate | Code/Libraries/AD7190/AD7190.cpp:65-71 | appends the INTZEROCAL mode write and then the INTFULLCAL mode write |
| AD7190Driver.AD7190.SetConfig | Code/Libraries/AD7190/AD7190.cpp:76-80 | appends a 3-byte CFG write of the configuration word |
| AD7190Driver.AD7190.Init | Code/Libraries/AD7190/AD7190.cpp:82-97 | records the shadow fields and sets `fullsc = vref / 2^vgain`; sets single_conv when the mode is PULSE and leaves it unchanged otherwise; appends the bring-up frame |
| AD7190Driver.AD7190.InitDefault | Code/Libraries/AD7190/AD7190.cpp:99-101 | the default bring-up: PULSE, INTCLK2, REFIN1, bipolar, gain 32, buffered; single_conv becomes true and fullsc = vref/32 |
| AD7190Driver.AD7190.WaitReady | Code/Libraries/AD7190/AD7190.cpp:44-46 | appends two status reads per busy status, then the final status read, as many times as the device reports busy |
| AD7190Driver.AD7190.ReadData | Code/Libraries/AD7190/AD7190.cpp:42-55 | appends the configuration for the channel, the status polls, the 3-byte data read and, in single-conversion mode, a PULSE mode write; returns the code mapped to volts, which lies in [-fullsc, fullsc] when fullsc >= 0 |
| PIDMath.Squared | Code/Libraries/PID/PID.cpp:14-16 | definition: `pow(x, 2)` as `x * x`; SquaredPositive states that it is positive for x != 0 |
| PIDMath.FitA | Code/Libraries/PID/PID.cpp:14 | definition: `a = N(N-1)(2N-1)/6 * pow(dt, 2)` with C's integer division; FitAValue states that it is `30 * dt^2` |
| PIDMath.FitB | Code/Libraries/PID/PID.cpp:15 | definition: `b = N(N-1)/2 * dt` with C's integer division; FitBValue states that it is `10 * dt` |
| PIDMath.FitAValue | Code/Libraries/PID/PID.cpp:14 | `a` is `30 * dt^2` |
| PIDMath.FitBValue | Code/Libraries/PID/PID.cpp:15 | `b` is `10 * dt` |
| PIDMath.SquaredPositive | Code/Libraries/PID/PID.cpp:14-16 | `pow(x, 2)` is positive for x != 0 |
| PIDMath.FitDet | Code/Libraries/PID/PID.cpp:16 | definition: `a*N - pow(b, 2)`; FitDeterminant states its value and sign |
| PIDMath.FitIntegers | Code/Libraries/PID/PID.cpp:14-15 | for N = 5 the integer factors of `a` and `b` are 30 and 10, and their divisions are exact |
| PIDMath.FitDeterminant | Code/Libraries/PID/PID.cpp:14-16 | `a*N - b^2` is `50*dt^2`, which is positive for dt != 0, so `coef` is well defined |
| PIDMath.FitCoef | Code/Libraries/PID/PID.cpp:16 | `coef` is the inverse of `50*dt^2` |
| PIDMath.DotUpTo | Code/Libraries/PID/PID.cpp:27-30 | definition: the sum of `u[i] * w[i]` for the first n indices, accumulated from index 0 upward as the `derivative +=` loop does; it is UpdateDerivative's loop invariant |
| PIDMath.Dot | Code/Libraries/PID/PID.cpp:27-30 | definition: the dot product of two equal-length sequences, DotUpTo over all indices; DotFive expands it for five entries |
| PIDMath.DotFive | Code/Libraries/PID/PID.cpp:28-30 | the dot product of five-entry sequences is the sum of the five products |
| PIDMath.Weight | Code/Libraries/PID/PID.cpp:20 | weight i times `10*dt` is `i - 2` |
| PIDMath.Weights | Code/Libraries/PID/PID.cpp:19-22 | the array `v` has five entries, and entry i times `10*dt` is `i - 2` |
| PIDMath.WeightIsMultiple | Code/Libraries/PID/PID.cpp:20 | the weights are -2k, -k, 0, k, 2k with `k = 1/(10*dt)` |
| PIDMath.ConstantWindow | Code/Libraries/PID/PID.cpp:14-22 | the weights sum to zero: a constant window gives a slope of 0 |
| PIDMath.WeightsMoment | Code/Libraries/PID/PID.cpp:14-22 | the sum of `v[i] * i * dt` is 1 |
| PIDMath.SlopeRecovery | Code/Libraries/PID/PID.cpp:14-30 | a window holding `c + s*i*dt`, oldest first, gives a slope of exactly s |
| PIDMath.RotateAfterWrite | Code/Libraries/PID/PID.cpp:26-29 | writing a sample at the cursor and reading from the slot after it is the old window shifted by one, with the sample appended |
| PIDMath.RotateWrap | Code/Libraries/PID/PID.cpp:29-31 | reading from `ind + 1` is reading from the cursor advanced modulo 5 |
| PIDMath.PushAllRecent | Code/Libraries/PID/PID.cpp:25-32 | after at least five samples the window holds exactly the last five, whatever it held before |
| PIDMath.ConstantInputDerivative | Code/Libraries/PID/PID.cpp:25-32 | five equal samples in a row give a derivative of 0 |
| PIDMath.RampInputDerivative | Code/Libraries/PID/PID.cpp:25-32 | five samples rising by `s*dt` each give a derivative of exactly s |
| PIDMath.Rotate | Code/Libraries/PID/PID.cpp:29 | the window read from the ring `y` starting at a slot, oldest first: five entries |
| PIDMath.Push | Code/Libraries/PID/PID.cpp:26-29 | definition: the window after a new sample, the oldest dropped; RotateAfterWrite states that `update_derivative`'s write and read give it |
| PIDMath.AntiWindup | Code/Libraries/PID/PID.cpp:37-43 | definition: the clamp of `update_int`; AntiWindupBounds states its effect |
| PIDMath.IntegralStep | Code/Libraries/PID/PID.cpp:34-44 | definition: `integral + err*dt`, clamped; UpdateInt is proved against it |
| PIDMath.AntiWindupBounds | Code/Libraries/PID/PID.cpp:37-43 | after the clamp `K_i*integral` lies in [-10, 10]; a value strictly inside is kept, and one outside lands on the bound it crossed |
| PIDMath.AntiWindupZeroGain | Code/Libraries/PID/PID.cpp:38-43 | with K_i = 0 neither clamp branch fires and the integral is kept |
| PIDMath.FilterOut | Code/Libraries/PID/PID.cpp:70 | the output satisfies the filter's difference equation, with `denom[0]` as the leading coefficient |
| PIDMath.FilterLinear | Code/Libraries/PID/PID.cpp:70 | the filter step is linear in its input and history together |
| PIDMath.Effort | Code/Libraries/PID/PID.cpp:78 | definition: `-(K_p*y_n + K_i*integral + K_d*derivative)` |
| PIDMath.PowerOut | Code/Libraries/PID/PID.cpp:79-82 | the power command is never negative: a negative effort becomes 0 and a non-negative effort is kept |
| PIDMath.OutputVoltage | Code/Libraries/PID/PID.cpp:79-88 | vout lies in [0, 5]; a negative effort gives 0; otherwise vout is at least 0.7, equals `sqrt + 0.7` up to the cap (since `5/vcc` is 1), and is 5 above it |
| PIDMath.OutputMonotone | Code/Libraries/PID/PID.cpp:84-87 | a larger square root never gives a lower output voltage |
| PIDMath.Trunc | Code/Libraries/PID/PID.cpp:101 | the cast to `int` truncates toward zero |
| PIDMath.DacCode | Code/Libraries/PID/PID.cpp:101 | definition: `(int)(vout / 5 * 4095 * heat)`; DacRange states its range |
| PIDMath.DacRange | Code/Libraries/PID/PID.cpp:101 | with heat = 1 a voltage in [0, 5] gives a code in [0, 4095], and 5 V gives 4095; heat = 0 gives 0 |
| PIDMath.FirstCallPositiveError | Code/Libraries/PID/PID.cpp:67-89 | on the first call with `K_p = 1`, `K_i = K_d = 0` and error 2, the effort is negative, so vout and the DAC code are 0 |
| PIDMath.FirstCallNegativeError | Code/Libraries/PID/PID.cpp:67-89 | on the first call with error -2, the effort is `2*num[0]` and vout is its square root plus 0.7 |
| PIDMath.CountAfter | Code/Libraries/PID/PID.cpp:102 | definition: the counter after n steps of `count = (count + 1) % update_num`; CountClosedForm gives its closed form |
| PIDMath.CountClosedForm | Code/Libraries/PID/PID.cpp:102 | from 0, the counter after n calls is `n mod abs(update_num)`, whatever the sign of update_num |
| PIDMath.OneComputePerWindow | Code/Libraries/PID/PID.cpp:77-102 | among any `abs(update_num)` consecutive calls, exactly one finds `count == 0` |
| PIDController.PID.Valid | Code/Libraries/PID/PID.h:29-50 | the object invariant: both arrays have DERIV_NUM slots, `v` holds the slope weights for dt, `0 <= ind < 5`, update_num is non-zero and count is the closed form for the calls made, in `[0, abs(update_num))` |
| PIDController.PID.Window | Code/Libraries/PID/PID.cpp:28-30 | the samples `update_derivative` reads, oldest first from the slot after the cursor: five of them |
| PIDController.PID.constructor | Code/Libraries/PID/PID.cpp:5-23 | stores the gains, dt, update_num, verbose and start time; sets `a`, `b` and `coef` to FitA, FitB and FitCoef of dt; the weights are the slope weights for dt; the window, cursor, integral, derivative, filter histories and counter start at 0; heat is 1 |
| PIDController.PID.UpdateDerivative | Code/Libraries/PID/PID.cpp:25-32 | the window becomes the old window shifted by the new sample; the derivative is the weights' dot product with it; the cursor advances modulo 5 |
| PIDController.PID.UpdateInt | Code/Libraries/PID/PID.cpp:34-44 | the integral becomes the clamped `integral + err*dt`, and `K_i*integral` lies in [-10, 10] |
| PIDController.PID.FilterStep | Code/Libraries/PID/PID.cpp:69-75 | y_n is the filter output for the error and the old histories; the histories shift by one; y_n enters the derivative window |
| PIDController.PID.ControlLaw | Code/Libraries/PID/PID.cpp:77-89 | pout is the effort cut to zero, and vout is the output voltage for it, which lies in [0, 5] |
| PIDController.PID.WriteActuator | Code/Libraries/PID/PID.cpp:101 | appends the DAC code of vout to the trace; with heat = 1 and vout in [0, 5] it is in [0, 4095] |
| PIDController.PID.AdvanceCount | Code/Libraries/PID/PID.cpp:102 | count advances modulo update_num and equals the closed form for the number of calls |
| PIDController.PID.Actuate | Code/Libraries/PID/PID.cpp:77-102 | the control law runs exactly when count is 0, and otherwise pout and vout are unchanged; the DAC write happens on every call; the counter advances |
| PIDController.PID.Pid | Code/Libraries/PID/PID.cpp:62-103 | one call: integral step with anti-windup, filter step, derivative update, decimated control law, DAC write and counter step; keeps the object's invariant (cursor and counter in range, weights fixed) |
| PIDController.PID.SetStartTime | Code/Libraries/PID/PID.cpp:105-107 | sets start to the clock reading and changes nothing else |
| PIDController.PID.SetIntegral | Code/Libraries/PID/PID.cpp:109-111 | sets the integral and changes nothing else |

## Left out

- SPI transport and settings (`SPI.begin`, `SPISettings`, `beginTransaction`) are replaced by the `tx`/`miso` trace. The delays (`delayMicroseconds`, `delay`) have no effect on the model.
- `millis()` is a parameter: the constructor and `SetStartTime` take the clock reading `now` in seconds.
- The `Serial` output is not modelled: the busy-status print in `read_data`, and `print`, `println` and the verbose block of `pid`. The second status read that the print performs on each busy pass is kept on the bus.
- The thermistor conversion in `pid` (the resistance, `log`, `pow`, the constants `A`, `B`, `C` and `ref`) is not modelled. It only feeds the printed temperature, so `temp_v` is an unused parameter of `Pid`.
- IEEE-754 rounding is not modelled: doubles are reals. `sqrt` is an arbitrary function from non-negative reals to non-negative reals, passed to the constructor. The numeric values of the filter coefficients are not checked beyond `denom[0] = 1`.
- `vcc` is the constant `VCC = 5.0`, not a field, since the source declares it `const`.
- AD7190Driver.AD7190.ReadReg: requires `nbytes <= 3`. A 4-byte read shifts a byte into the sign bit of an `int`, which is implementation-defined. All registers the driver reads are 1 or 3 bytes.
- AD7190Driver.AD7190.WriteReg: requires `data` to fit a 32-bit `long`, which is the width on the target board, and `nbytes <= 4`, because shifting a 32-bit `long` right by 32 or more is undefined in C. The model also assumes a 32-bit `int` for the shifts of AD7190.cpp lines 36, 59 and 77: `ModeWordBound` and `ConfigWordBound` show that the shifted words stay below 2^31, and `ReadReg` shifts at most by 16.
- AD7190Driver.AD7190.WaitReady: the poll loop has no timeout in the source. The model ends it because a busy status can only come from the finite device script; past the script the line reads 0 (ready).
- AD7190Driver.AD7190.Init: when the mode is not PULSE the source never assigns `single_conv`, so the model leaves it unchanged instead of setting it to false.
- AD7190Driver.AD7190.constructor: the shadow fields that the source leaves uninitialised (`fullsc`, `refsel`, `vgain`, `clock`, `buf`, `single_conv`) are unconstrained.
- PIDController.PID.constructor: requires `dt != 0`, because `coef` divides by `50*dt^2`; it also requires `update_num != 0`, because `count % update_num` is undefined in C for zero. `pout`, `vout` and `y_n` are uninitialised in the source and unconstrained in the model.
- PIDController.PID.UpdateDerivative: the dot product is accumulated in a local and stored in `derivative` once. The final state is the same as the source's in-place accumulation.
- PIDController.PID.Pid: for `K_i = 0` the model follows the branches as written; no division happens, because neither clamp condition can hold.
