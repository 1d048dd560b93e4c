/** The BuzzKill driver object (src/BuzzKill.cpp, the class declared in
    src/BuzzKill.h:62-615): 30 shadow bytes mirroring the board's
    write-only registers, the transport it was given, and the bus events its
    writes have produced so far. */
module Driver {
  import opened Constants
  import opened Fields
  import opened Timing
  import opened Wire
  import opened Registers
  import opened Speech

  class BuzzKill {
    /** The shadow copies of the registers that are updated bit by bit. */
    const shadows: array<bv8>
    /** Whether beginSPI / beginI2C handed the driver a bus object. */
    var spi: bool
    var spiPin: bv8
    var i2c: bool
    var i2cAddr: bv8
    /** Every call into the bus primitives so far, oldest first. */
    var trace: seq<Event>

    predicate Valid()
    {
      shadows.Length == ShadowCount
    }

    function Link(): Link
      reads this`spi, this`spiPin, this`i2c, this`i2cAddr
    {
      Wire.Link(spi, spiPin, i2c, i2cAddr)
    }

    /** A new driver has no bus yet and its shadows hold the power-up values
        (the constructor resets from register 0). */
    constructor ()
      ensures Valid() && fresh(shadows)
      ensures forall i :: 0 <= i < ShadowCount ==> shadows[i] == Default(i)
      ensures !spi && !i2c && trace == []
    {
      shadows := new bv8[ShadowCount];
      spi, spiPin, i2c, i2cAddr := false, 0, false, 0;
      trace := [];
      new;
      ResetShadows(0);
    }

    method BeginSpi(pin: bv8)
      modifies this`spi, this`spiPin
      ensures spi && spiPin == pin
    {
      spiPin := pin;
      spi := true;
    }

    method BeginI2c(address: bv8)
      modifies this`i2c, this`i2cAddr
      ensures i2c && i2cAddr == address
    {
      i2cAddr := address;
      i2c := true;
    }

    // -------------------------------------------------------------------------
    // _send (BuzzKill.cpp:369-401).

    /** One write of `data` to `command` on the chosen bus: SPI when an SPI
        bus was given, else I2C when an I2C bus was, else nothing. */
    method Send(command: bv8, data: seq<bv8>)
      requires |data| < 256
      modifies this`trace
      ensures trace == old(trace) + Frame(Link(), command, data)
    {
      var h := EncodeHeader(command, |data| as bv8);
      if spi {
        SpiWrite(h, data);
      } else if i2c {
        I2cWrite(h, data);
      }
    }

    /** The SPI branch of _send: one transaction, select held low around the
        header bytes and the payload. */
    method SpiWrite(h: Header, data: seq<bv8>)
      requires |data| < 256
      modifies this`trace
      ensures trace == old(trace) + SpiFrame(spiPin, h, data)
    {
      ghost var t0 := trace;
      ghost var command := if h.command != NoByte then [SpiByte(h.command)] else [];
      ghost var extra := if h.extra != NoByte then [SpiByte(h.extra)] else [];
      ghost var payload := if |data| > 0 then [SpiBuffer(data)] else [];
      trace := trace + [SpiBeginTransaction, SelectLow(spiPin)];
      if h.command != NoByte { trace := trace + [SpiByte(h.command)]; }
      assert trace == t0 + [SpiBeginTransaction, SelectLow(spiPin)] + command;
      if h.extra != NoByte { trace := trace + [SpiByte(h.extra)]; }
      assert trace == t0 + [SpiBeginTransaction, SelectLow(spiPin)] + command + extra;
      if |data| > 0 { trace := trace + [SpiBuffer(data)]; }
      trace := trace + [SelectHigh(spiPin), SpiEndTransaction];
      HeaderWrites(h);
      SpiFrameInParts(t0, spiPin, h, data, command, extra, payload);
    }

    /** The I2C branch of _send. The loop writes the payload a chunk at a time,
        closing the transmission without a stop and reopening it between
        chunks; the first chunk leaves room for the header bytes. */
    method I2cWrite(h: Header, data: seq<bv8>)
      modifies this`trace
      ensures trace == old(trace) + I2cFrame(i2cAddr, h, data)
    {
      ghost var goal := old(trace) + I2cFrame(i2cAddr, h, data);
      var cap := FirstChunk(h);
      I2cOpen(h);
      I2cFrameAfterOpening(old(trace), i2cAddr, h, data);
      I2cChunksAndStop(data, cap, goal);
    }

    /** The chunk loop of the I2C branch of _send and its final stop. */
    method I2cChunksAndStop(data: seq<bv8>, cap0: nat, ghost goal: seq<Event>)
      requires 0 < cap0 <= 32
      requires trace + (I2cChunkEvents(i2cAddr, Chunks(data, cap0)) + [I2cEnd(true)]) == goal
      modifies this`trace
      ensures trace == goal
    {
      var cap := cap0;
      var count := if |data| < cap then |data| else cap;
      var rest := data;
      while |rest| > 0
        invariant 0 < cap <= 32
        invariant count == if |rest| < cap then |rest| else cap
        invariant trace + (I2cChunkEvents(i2cAddr, Chunks(rest, cap)) + [I2cEnd(true)]) == goal
        decreases |rest|
      {
        ghost var before := trace;
        trace := trace + [I2cBuffer(rest[..count])];
        if |rest| == count {
          assert rest[..count] == rest;
          LastChunkTurn(i2cAddr, before, rest, cap, goal);
          break;
        }
        trace := trace + [I2cEnd(false), I2cBegin(i2cAddr)];
        FullChunkTurn(i2cAddr, before, rest, cap, goal);
        rest := rest[count..];
        count := if |rest| < 32 then |rest| else 32;
        cap := 32;
      }
      trace := trace + [I2cEnd(true)];
    }

    /** Opens the first I2C transmission and writes the header bytes that are
        present. */
    method I2cOpen(h: Header)
      modifies this`trace
      ensures trace == old(trace) + [I2cBegin(i2cAddr)] + I2cBytes(HeaderBytes(h))
    {
      HeaderWrites(h);
      trace := trace + [I2cBegin(i2cAddr)];
      if h.command != NoByte { trace := trace + [I2cByte(h.command)]; }
      if h.extra != NoByte { trace := trace + [I2cByte(h.extra)]; }
    }

    // -------------------------------------------------------------------------
    // Oscillators (BuzzKill.cpp:17-71).

    /** setFrequency. The frequency is given as the 16-bit word the driver
        computes from it (16 steps per hertz); a frequency of 4096 Hz or more,
        a word of 65536 or more, is ignored, as is an oscillator above 3. */
    method SetFrequency(oscType: OscType, oscNum: bv8, frequency16: nat)
      modifies this`trace
      ensures oscNum > 3 || frequency16 >= 0x1_0000 ==> trace == old(trace)
      ensures oscNum <= 3 && frequency16 < 0x1_0000 ==>
        trace == old(trace) + Frame(Link(), OscRegister(oscType, oscNum, 0), FrequencyBytes(frequency16))
    {
      if oscNum > 3 || frequency16 >= 0x1_0000 { return; }
      Send(OscRegister(oscType, oscNum, 0), FrequencyBytes(frequency16));
    }

    method SetMidpoint(oscType: OscType, oscNum: bv8, midpoint: bv8)
      modifies this`trace
      ensures oscNum > 3 ==> trace == old(trace)
      ensures oscNum <= 3 ==> trace == old(trace) + Frame(Link(), OscRegister(oscType, oscNum, 2), [midpoint])
    {
      if oscNum > 3 { return; }
      Send(OscRegister(oscType, oscNum, 2), [midpoint]);
    }

    /** setShape: bits 5-7 of the control byte take the shape; nothing else in
        it or in the other shadow bytes changes, and the byte is sent. */
    method SetShape(oscType: OscType, oscNum: bv8, shape: bv8)
      requires Valid() && IsShape(shape)
      modifies this`trace, shadows
      ensures oscNum > 3 ==> shadows[..] == old(shadows[..]) && trace == old(trace)
      ensures oscNum <= 3 ==>
        var i := OscShadow(oscType, oscNum);
        && shadows[..] == Masked(old(shadows[..]), i, ShapeMask, shape)
        && UnpackOsc(shadows[i]) == UnpackOsc(old(shadows[i])).(shape := shape)
        && trace == old(trace) + Frame(Link(), OscRegister(oscType, oscNum, 3), [shadows[i]])
    {
      if oscNum > 3 { return; }
      var i := OscShadow(oscType, oscNum);
      assert UnpackOsc(Place(shadows[i], ShapeMask, shape)) == UnpackOsc(shadows[i]).(shape := shape) by {
        OscSettersOwnTheirField(shadows[i], shape, false, 0);
      }
      shadows[i] := Place(shadows[i], ShapeMask, shape);
      Send(OscRegister(oscType, oscNum, 3), [shadows[i]]);
    }

    /** setInvert: bit 3 of the control byte. */
    method SetInvert(oscType: OscType, oscNum: bv8, invert: bool)
      requires Valid()
      modifies this`trace, shadows
      ensures oscNum > 3 ==> shadows[..] == old(shadows[..]) && trace == old(trace)
      ensures oscNum <= 3 ==>
        var i := OscShadow(oscType, oscNum);
        && shadows[..] == Masked(old(shadows[..]), i, InvertMask, Bit(invert, 8))
        && UnpackOsc(shadows[i]) == UnpackOsc(old(shadows[i])).(invert := invert)
        && trace == old(trace) + Frame(Link(), OscRegister(oscType, oscNum, 3), [shadows[i]])
    {
      if oscNum > 3 { return; }
      var i := OscShadow(oscType, oscNum);
      assert UnpackOsc(Place(shadows[i], InvertMask, Bit(invert, 8))) == UnpackOsc(shadows[i]).(invert := invert) by {
        OscSettersOwnTheirField(shadows[i], ShapeSine, invert, 0);
      }
      shadows[i] := Place(shadows[i], InvertMask, Bit(invert, 8));
      Send(OscRegister(oscType, oscNum, 3), [shadows[i]]);
    }

    /** setReverse: bit 4 of the control byte. */
    method SetReverse(oscType: OscType, oscNum: bv8, reverse: bool)
      requires Valid()
      modifies this`trace, shadows
      ensures oscNum > 3 ==> shadows[..] == old(shadows[..]) && trace == old(trace)
      ensures oscNum <= 3 ==>
        var i := OscShadow(oscType, oscNum);
        && shadows[..] == Masked(old(shadows[..]), i, ReverseMask, Bit(reverse, 16))
        && UnpackOsc(shadows[i]) == UnpackOsc(old(shadows[i])).(reverse := reverse)
        && trace == old(trace) + Frame(Link(), OscRegister(oscType, oscNum, 3), [shadows[i]])
    {
      if oscNum > 3 { return; }
      var i := OscShadow(oscType, oscNum);
      assert UnpackOsc(Place(shadows[i], ReverseMask, Bit(reverse, 16))) == UnpackOsc(shadows[i]).(reverse := reverse) by {
        OscSettersOwnTheirField(shadows[i], ShapeSine, reverse, 0);
      }
      shadows[i] := Place(shadows[i], ReverseMask, Bit(reverse, 16));
      Send(OscRegister(oscType, oscNum, 3), [shadows[i]]);
    }

    /** setStep: bits 0-2 of the control byte. The step is not range-checked,
        so only a step of 0..7 is sure to change the step field alone. */
    method SetStep(oscType: OscType, oscNum: bv8, step: bv8)
      requires Valid()
      modifies this`trace, shadows
      ensures oscNum > 3 ==> shadows[..] == old(shadows[..]) && trace == old(trace)
      ensures oscNum <= 3 ==>
        var i := OscShadow(oscType, oscNum);
        && shadows[..] == Masked(old(shadows[..]), i, StepMask, step)
        && (step <= 7 ==> UnpackOsc(shadows[i]) == UnpackOsc(old(shadows[i])).(step := step))
        && trace == old(trace) + Frame(Link(), OscRegister(oscType, oscNum, 3), [shadows[i]])
    {
      if oscNum > 3 { return; }
      var i := OscShadow(oscType, oscNum);
      assert step <= 7 ==> UnpackOsc(Place(shadows[i], StepMask, step)) == UnpackOsc(shadows[i]).(step := step) by {
        OscSettersOwnTheirField(shadows[i], ShapeSine, false, step);
      }
      shadows[i] := Place(shadows[i], StepMask, step);
      Send(OscRegister(oscType, oscNum, 3), [shadows[i]]);
    }

    /** configureOscillator: all four registers of one oscillator in one write;
        the control byte is stored and decodes to the given settings. */
    method ConfigureOscillator(oscType: OscType, oscNum: bv8, frequency16: nat, shape: bv8,
                               midpoint: bv8, invert: bool, reverse: bool, step: bv8)
      requires Valid() && IsShape(shape)
      modifies this`trace, shadows
      ensures oscNum > 3 || step > 7 || frequency16 >= 0x1_0000 ==>
        shadows[..] == old(shadows[..]) && trace == old(trace)
      ensures oscNum <= 3 && step <= 7 && frequency16 < 0x1_0000 ==>
        var i := OscShadow(oscType, oscNum);
        var control := OscControl(shape, reverse, invert, step);
        && shadows[..] == old(shadows[..])[i := PackOsc(control)]
        && UnpackOsc(shadows[i]) == control
        && trace == old(trace) + Frame(Link(), OscRegister(oscType, oscNum, 0),
                                       FrequencyBytes(frequency16) + [midpoint, PackOsc(control)])
    {
      if oscNum > 3 || step > 7 || frequency16 >= 0x1_0000 { return; }
      var control := OscControl(shape, reverse, invert, step);
      assert UnpackOsc(PackOsc(control)) == control by {
        OscRoundTrip(control, 0);
      }
      var arr := FrequencyBytes(frequency16) + [midpoint, PackOsc(control)];
      shadows[OscShadow(oscType, oscNum)] := arr[3];
      Send(OscRegister(oscType, oscNum, 0), arr);
    }

    method RestartOscillators(restartMask: bv8)
      modifies this`trace
      ensures trace == old(trace) + Frame(Link(), 248, [restartMask])
    {
      Send(248, [restartMask]);
    }

    method HaltOscillators(haltMask: bv8)
      modifies this`trace
      ensures trace == old(trace) + Frame(Link(), 49, [haltMask])
    {
      Send(49, [haltMask]);
    }

    // -------------------------------------------------------------------------
    // Envelopes (BuzzKill.cpp:73-177). Envelope e keeps shadow bytes
    // 8+4e..11+4e, mirrored from registers 32+4e..35+4e.

    /** setCurve: bits 6-7 of the quad's first byte. */
    method SetCurve(envNum: bv8, curve: bv8)
      requires Valid() && IsCurve(curve)
      modifies this`trace, shadows
      ensures envNum > 3 ==> shadows[..] == old(shadows[..]) && trace == old(trace)
      ensures envNum <= 3 ==>
        var i := EnvShadow(envNum, 0);
        && shadows[..] == Masked(old(shadows[..]), i, CurveMask, curve)
        && EnvelopeOf(shadows[..], envNum) == EnvelopeOf(old(shadows[..]), envNum).(curve := curve)
        && trace == old(trace) + Frame(Link(), EnvRegister(envNum, 0), [shadows[i]])
    {
      if envNum > 3 { return; }
      var i := EnvShadow(envNum, 0);
      QuadAt(shadows[..], envNum);
      CurveOwnsItsField(shadows[i..i + 4], curve);
      shadows[i] := Place(shadows[i], CurveMask, curve);
      QuadAt(shadows[..], envNum);
      Send(EnvRegister(envNum, 0), [shadows[i]]);
    }

    /** setAttack: the attack range (bits 0-1 of the first byte) and value (low
        nibble of the second); both bytes are sent. */
    method SetAttack(envNum: bv8, range: bv8, value: bv8)
      requires Valid()
      modifies this`trace, shadows
      ensures envNum > 3 || range > 3 || value > 15 ==> shadows[..] == old(shadows[..]) && trace == old(trace)
      ensures envNum <= 3 && range <= 3 && value <= 15 ==>
        var i := EnvShadow(envNum, 0);
        && shadows[..] == Masked(Masked(old(shadows[..]), i, AttackRangeMask, range), i + 1, LowNibble, value)
        && EnvelopeOf(shadows[..], envNum) == EnvelopeOf(old(shadows[..]), envNum).(attackRange := range, attackValue := value)
        && trace == old(trace) + Frame(Link(), EnvRegister(envNum, 0), shadows[i..i + 2])
    {
      if envNum > 3 || range > 3 || value > 15 { return; }
      var i := EnvShadow(envNum, 0);
      QuadAt(shadows[..], envNum);
      AttackOwnsItsFields(shadows[i..i + 4], range, value);
      shadows[i] := Place(shadows[i], AttackRangeMask, range);
      shadows[i + 1] := Place(shadows[i + 1], LowNibble, value);
      QuadAt(shadows[..], envNum);
      Send(EnvRegister(envNum, 0), shadows[i..i + 2]);
    }

    /** setAttack with a duration in milliseconds, converted to a rate. */
    method SetAttackTime(envNum: bv8, time: nat)
      requires Valid() && time < 0x1_0000
      modifies this`trace, shadows
      ensures envNum > 3 ==> shadows[..] == old(shadows[..]) && trace == old(trace)
      ensures envNum <= 3 ==>
        var i, r := EnvShadow(envNum, 0), TimeConvert(time);
        && shadows[..] == Masked(Masked(old(shadows[..]), i, AttackRangeMask, r.range as bv8), i + 1, LowNibble, r.value as bv8)
        && EnvelopeOf(shadows[..], envNum)
           == EnvelopeOf(old(shadows[..]), envNum).(attackRange := r.range as bv8, attackValue := r.value as bv8)
        && trace == old(trace) + Frame(Link(), EnvRegister(envNum, 0), shadows[i..i + 2])
    {
      var r := TimeConvert(time);
      SetAttack(envNum, r.range as bv8, r.value as bv8);
    }

    /** setDecay: the decay range (bits 2-3 of the first byte) and value (high
        nibble of the second); both bytes are sent. */
    method SetDecay(envNum: bv8, range: bv8, value: bv8)
      requires Valid()
      modifies this`trace, shadows
      ensures envNum > 3 || range > 3 || value > 15 ==> shadows[..] == old(shadows[..]) && trace == old(trace)
      ensures envNum <= 3 && range <= 3 && value <= 15 ==>
        var i := EnvShadow(envNum, 0);
        && shadows[..] == Masked(Masked(old(shadows[..]), i, DecayRangeMask, range << 2), i + 1, HighNibble, value << 4)
        && EnvelopeOf(shadows[..], envNum) == EnvelopeOf(old(shadows[..]), envNum).(decayRange := range, decayValue := value)
        && trace == old(trace) + Frame(Link(), EnvRegister(envNum, 0), shadows[i..i + 2])
    {
      if envNum > 3 || range > 3 || value > 15 { return; }
      var i := EnvShadow(envNum, 0);
      QuadAt(shadows[..], envNum);
      DecayOwnsItsFields(shadows[i..i + 4], range, value);
      shadows[i] := Place(shadows[i], DecayRangeMask, range << 2);
      shadows[i + 1] := Place(shadows[i + 1], HighNibble, value << 4);
      QuadAt(shadows[..], envNum);
      Send(EnvRegister(envNum, 0), shadows[i..i + 2]);
    }

    method SetDecayTime(envNum: bv8, time: nat)
      requires Valid() && time < 0x1_0000
      modifies this`trace, shadows
      ensures envNum > 3 ==> shadows[..] == old(shadows[..]) && trace == old(trace)
      ensures envNum <= 3 ==>
        var i, r := EnvShadow(envNum, 0), TimeConvert(time);
        && shadows[..] == Masked(Masked(old(shadows[..]), i, DecayRangeMask, (r.range as bv8) << 2), i + 1, HighNibble, (r.value as bv8) << 4)
        && EnvelopeOf(shadows[..], envNum)
           == EnvelopeOf(old(shadows[..]), envNum).(decayRange := r.range as bv8, decayValue := r.value as bv8)
        && trace == old(trace) + Frame(Link(), EnvRegister(envNum, 0), shadows[i..i + 2])
    {
      var r := TimeConvert(time);
      SetDecay(envNum, r.range as bv8, r.value as bv8);
    }

    /** setSustain: bits 0-6 of the third byte; the gate bit is kept. */
    method SetSustain(envNum: bv8, sustain: bv8)
      requires Valid()
      modifies this`trace, shadows
      ensures envNum > 3 || sustain > 127 ==> shadows[..] == old(shadows[..]) && trace == old(trace)
      ensures envNum <= 3 && sustain <= 127 ==>
        var i := EnvShadow(envNum, 2);
        && shadows[..] == Masked(old(shadows[..]), i, SustainMask, sustain)
        && EnvelopeOf(shadows[..], envNum) == EnvelopeOf(old(shadows[..]), envNum).(sustain := sustain)
        && trace == old(trace) + Frame(Link(), EnvRegister(envNum, 2), [shadows[i]])
    {
      if envNum > 3 || sustain > 127 { return; }
      var i := EnvShadow(envNum, 2);
      QuadAt(shadows[..], envNum);
      SustainOwnsItsField(shadows[i - 2..i + 2], sustain);
      shadows[i] := Place(shadows[i], SustainMask, sustain);
      QuadAt(shadows[..], envNum);
      Send(EnvRegister(envNum, 2), [shadows[i]]);
    }

    /** setRelease: the release range (bits 4-5 of the first byte) and value
        (low nibble of the fourth), sent as two single-byte writes. */
    method SetRelease(envNum: bv8, range: bv8, value: bv8)
      requires Valid()
      modifies this`trace, shadows
      ensures envNum > 3 || range > 3 || value > 15 ==> shadows[..] == old(shadows[..]) && trace == old(trace)
      ensures envNum <= 3 && range <= 3 && value <= 15 ==>
        var i := EnvShadow(envNum, 0);
        && shadows[..] == Masked(Masked(old(shadows[..]), i, ReleaseRangeMask, range << 4), i + 3, LowNibble, value)
        && EnvelopeOf(shadows[..], envNum) == EnvelopeOf(old(shadows[..]), envNum).(releaseRange := range, releaseValue := value)
        && trace == old(trace) + Frame(Link(), EnvRegister(envNum, 0), [shadows[i]])
                                + Frame(Link(), EnvRegister(envNum, 3), [shadows[i + 3]])
    {
      if envNum > 3 || range > 3 || value > 15 { return; }
      var i := EnvShadow(envNum, 0);
      ReleaseUpdate(shadows[..], envNum, range, value);
      ghost var s1 := Masked(shadows[..], i, ReleaseRangeMask, range << 4);
      shadows[i] := Place(shadows[i], ReleaseRangeMask, range << 4);
      assert shadows[..] == s1;
      shadows[i + 3] := Place(shadows[i + 3], LowNibble, value);
      assert shadows[..] == Masked(s1, i + 3, LowNibble, value);
      Send(EnvRegister(envNum, 0), [shadows[i]]);
      Send(EnvRegister(envNum, 3), [shadows[i + 3]]);
    }

    method SetReleaseTime(envNum: bv8, time: nat)
      requires Valid() && time < 0x1_0000
      modifies this`trace, shadows
      ensures envNum > 3 ==> shadows[..] == old(shadows[..]) && trace == old(trace)
      ensures envNum <= 3 ==>
        var i, r := EnvShadow(envNum, 0), TimeConvert(time);
        && shadows[..] == Masked(Masked(old(shadows[..]), i, ReleaseRangeMask, (r.range as bv8) << 4), i + 3, LowNibble, r.value as bv8)
        && EnvelopeOf(shadows[..], envNum)
           == EnvelopeOf(old(shadows[..]), envNum).(releaseRange := r.range as bv8, releaseValue := r.value as bv8)
        && trace == old(trace) + Frame(Link(), EnvRegister(envNum, 0), [shadows[i]])
                                + Frame(Link(), EnvRegister(envNum, 3), [shadows[i + 3]])
    {
      var r := TimeConvert(time);
      SetRelease(envNum, r.range as bv8, r.value as bv8);
    }

    /** setMixVolume: the high nibble of the fourth byte. */
    method SetMixVolume(envNum: bv8, volume: bv8)
      requires Valid()
      modifies this`trace, shadows
      ensures envNum > 3 || volume > 15 ==> shadows[..] == old(shadows[..]) && trace == old(trace)
      ensures envNum <= 3 && volume <= 15 ==>
        var i := EnvShadow(envNum, 3);
        && shadows[..] == Masked(old(shadows[..]), i, HighNibble, volume << 4)
        && EnvelopeOf(shadows[..], envNum) == EnvelopeOf(old(shadows[..]), envNum).(mixVolume := volume)
        && trace == old(trace) + Frame(Link(), EnvRegister(envNum, 3), [shadows[i]])
    {
      if envNum > 3 || volume > 15 { return; }
      var i := EnvShadow(envNum, 3);
      QuadAt(shadows[..], envNum);
      MixVolumeOwnsItsField(shadows[i - 3..i + 1], volume);
      shadows[i] := Place(shadows[i], HighNibble, volume << 4);
      QuadAt(shadows[..], envNum);
      Send(EnvRegister(envNum, 3), [shadows[i]]);
    }

    /** noteOn(e, gate): bit 7 of the third byte, sent even when unchanged. */
    method NoteOn(envNum: bv8, gate: bool)
      requires Valid()
      modifies this`trace, shadows
      ensures envNum > 3 ==> shadows[..] == old(shadows[..]) && trace == old(trace)
      ensures envNum <= 3 ==>
        var i := EnvShadow(envNum, 2);
        && shadows[..] == Masked(old(shadows[..]), i, GateMask, Bit(gate, 128))
        && EnvelopeOf(shadows[..], envNum) == EnvelopeOf(old(shadows[..]), envNum).(gate := gate)
        && trace == old(trace) + Frame(Link(), EnvRegister(envNum, 2), [shadows[i]])
    {
      if envNum > 3 { return; }
      var i := EnvShadow(envNum, 2);
      shadows[i] := Switch(shadows[i], 128, gate);
      GateUpdate(old(shadows[..]), envNum, gate);
      Send(EnvRegister(envNum, 2), [shadows[i]]);
    }

    method NoteOff(envNum: bv8)
      requires Valid()
      modifies this`trace, shadows
      ensures envNum > 3 ==> shadows[..] == old(shadows[..]) && trace == old(trace)
      ensures envNum <= 3 ==>
        var i := EnvShadow(envNum, 2);
        && shadows[..] == Masked(old(shadows[..]), i, GateMask, 0)
        && !EnvelopeOf(shadows[..], envNum).gate
        && trace == old(trace) + Frame(Link(), EnvRegister(envNum, 2), [shadows[i]])
    {
      NoteOn(envNum, false);
    }

    /** The four-gate noteOn: each envelope whose gate differs from the wanted
        one has its gate bit set or cleared and sent; the others send nothing. */
    method NoteOnAll(gate0: bool, gate1: bool, gate2: bool, gate3: bool)
      requires Valid()
      modifies this`trace, shadows
      ensures shadows[..] == GatesApplied(old(shadows[..]), [gate0, gate1, gate2, gate3], 4)
      ensures trace == old(trace) + GateFrames(Link(), old(shadows[..]), [gate0, gate1, gate2, gate3], 4)
    {
      var gates := [gate0, gate1, gate2, gate3];
      ghost var s0 := shadows[..];
      var x: bv8 := 0;
      while x < 4
        invariant x <= 4
        invariant shadows[..] == GatesApplied(s0, gates, x as nat)
        invariant trace == old(trace) + GateFrames(Link(), s0, gates, x as nat)
      {
        ghost var before := trace;
        GatesStep(s0, gates, x as nat);
        UpdateGate(x, gates[x]);
        Assoc(old(trace), GateFrames(Link(), s0, gates, x as nat), trace[|before|..]);
        x := x + 1;
      }
    }

    /** One turn of the four-gate noteOn (BuzzKill.cpp:148-156): the gate
        byte is sent only when the test changed it. */
    method UpdateGate(envNum: bv8, gate: bool)
      requires Valid() && envNum <= 3
      modifies this`trace, shadows
      ensures var i := EnvShadow(envNum, 2);
        && shadows[..] == old(shadows[..])[i := Place(old(shadows[i]), GateMask, Bit(gate, 128))]
        && trace == old(trace) + GateFrame(Link(), old(shadows[..]), envNum, gate)
    {
      var i := EnvShadow(envNum, 2);
      var changed := TestAndSetGate(i, gate);
      if changed {
        Send(EnvRegister(envNum, 2), [shadows[i]]);
      } else {
        assert trace == old(trace) + [];
      }
    }

    /** The two tests of the four-gate noteOn on gate byte i: set bit 7 of a
        byte below 128 when the gate is wanted, clear it in a byte above 127
        when it is not. */
    method TestAndSetGate(i: nat, gate: bool) returns (changed: bool)
      requires Valid() && i < ShadowCount
      modifies shadows
      ensures shadows[..] == old(shadows[..])[i := Place(old(shadows[i]), GateMask, Bit(gate, 128))]
      ensures changed == (gate != (old(shadows[i]) & GateMask != 0))
    {
      GateTurn(shadows[i], gate);
      changed := false;
      if gate && shadows[i] < 128 {
        shadows[i] := shadows[i] | 128;
        changed := true;
      } else if !gate && shadows[i] > 127 {
        shadows[i] := shadows[i] & !128;
        changed := true;
      }
    }

    /** configureEnvelope: all ten settings at once, stored in the quad and
        sent as one four-byte write; any setting out of range, or an envelope
        above 3, leaves everything as it was. */
    method ConfigureEnvelope(envNum: bv8, curve: bv8, attackRange: bv8, attackValue: bv8,
                             decayRange: bv8, decayValue: bv8, sustain: bv8,
                             releaseRange: bv8, releaseValue: bv8, mixVolume: bv8, gate: bool)
      requires Valid() && IsCurve(curve)
      modifies this`trace, shadows
      ensures var env := Envelope(curve, attackRange, decayRange, releaseRange, attackValue,
                                  decayValue, sustain, gate, releaseValue, mixVolume);
        if envNum > 3 || !ValidEnvelope(env) then
          shadows[..] == old(shadows[..]) && trace == old(trace)
        else
          && shadows[..] == WriteThrough(old(shadows[..]), EnvRegister(envNum, 0) as nat, PackEnvelope(env))
          && EnvelopeOf(shadows[..], envNum) == env
          && trace == old(trace) + Frame(Link(), EnvRegister(envNum, 0), PackEnvelope(env))
    {
      if envNum > 3 || attackRange > 3 || attackValue > 15 || decayRange > 3 || decayValue > 15
         || sustain > 127 || releaseRange > 3 || releaseValue > 15 || mixVolume > 15 {
        return;
      }
      var env := Envelope(curve, attackRange, decayRange, releaseRange, attackValue,
                          decayValue, sustain, gate, releaseValue, mixVolume);
      var arr := PackEnvelope(env);
      StoreQuad(envNum, arr);
      assert EnvelopeOf(shadows[..], envNum) == env by {
        QuadWritten(old(shadows[..]), envNum, arr);
        EnvelopeUnpackPack(env);
      }
      Send(EnvRegister(envNum, 0), arr);
    }

    /** The copy loop of configureEnvelope (BuzzKill.cpp:167): the quad lands
        where a write of envelope e's four registers lands. */
    method StoreQuad(envNum: bv8, arr: seq<bv8>)
      requires Valid() && envNum <= 3 && |arr| == 4
      modifies shadows
      ensures shadows[..] == WriteThrough(old(shadows[..]), EnvRegister(envNum, 0) as nat, arr)
    {
      var i := EnvShadow(envNum, 0);
      ghost var s0 := shadows[..];
      ghost var reg := EnvRegister(envNum, 0) as nat;
      for x := 0 to 4
        invariant shadows[..] == WriteThrough(s0, reg, arr[..x])
      {
        WriteThroughStep(s0, reg, arr[..x], arr[x]);
        SettersUseThePartition(0, 0, envNum as nat, x, 0);
        assert arr[..x + 1] == arr[..x] + [arr[x]];
        shadows[i + x] := arr[x];
      }
      assert arr[..4] == arr;
    }

    /** configureEnvelope with the three durations in milliseconds. */
    method ConfigureEnvelopeTimes(envNum: bv8, curve: bv8, attackTime: nat, decayTime: nat,
                                  sustain: bv8, releaseTime: nat, mixVolume: bv8, gate: bool)
      requires Valid() && IsCurve(curve)
      requires attackTime < 0x1_0000 && decayTime < 0x1_0000 && releaseTime < 0x1_0000
      modifies this`trace, shadows
      ensures var env := TimedEnvelope(curve, attackTime, decayTime, sustain, releaseTime, mixVolume, gate);
        if envNum > 3 || sustain > 127 || mixVolume > 15 then
          shadows[..] == old(shadows[..]) && trace == old(trace)
        else
          && shadows[..] == WriteThrough(old(shadows[..]), EnvRegister(envNum, 0) as nat, PackEnvelope(env))
          && EnvelopeOf(shadows[..], envNum) == env
          && trace == old(trace) + Frame(Link(), EnvRegister(envNum, 0), PackEnvelope(env))
    {
      var env := TimedEnvelope(curve, attackTime, decayTime, sustain, releaseTime, mixVolume, gate);
      TimedEnvelopeIsValid(curve, attackTime, decayTime, sustain, releaseTime, mixVolume, gate);
      ConfigureEnvelope(envNum, curve, env.attackRange, env.attackValue, env.decayRange, env.decayValue,
                        sustain, env.releaseRange, env.releaseValue, mixVolume, gate);
    }

    // -------------------------------------------------------------------------
    // Speech (BuzzKill.cpp:200-269). Phonemes go to the speech buffer
    // through command 60.

    /** addSpeechPhonemes: the first `length` phoneme codes, or when `length`
        is 0 the codes before the 255 terminator; nothing is sent when that
        length is 255 (no terminator among the first 255 bytes, or a given
        length of 255). */
    method AddSpeechPhonemes(phonemes: seq<bv8>, length: bv8)
      requires length == 0 ==> ScanReadable(phonemes)
      requires length != 0 ==> |phonemes| >= length as nat
      modifies this`trace
      ensures var n := if length == 0 then TerminatedLength(phonemes, 0) else length as nat;
        trace == if n < ScanLimit then old(trace) + Frame(Link(), 60, phonemes[..n]) else old(trace)
    {
      var n := length as nat;
      if length == 0 {
        n := ScanPhonemes(phonemes);
      }
      if n < 255 {
        Send(60, phonemes[..n]);
      }
    }

    /** The terminator scan of addSpeechPhonemes (BuzzKill.cpp:201). */
    method ScanPhonemes(phonemes: seq<bv8>) returns (length: nat)
      requires ScanReadable(phonemes)
      ensures length == TerminatedLength(phonemes, 0)
    {
      length := 0;
      while length < 255
        invariant length <= ScanLimit
        invariant forall k :: 0 <= k < length ==> k < |phonemes| && phonemes[k] != Terminator
        invariant |phonemes| >= ScanLimit || (length <= |phonemes| && Terminator in phonemes[length..])
        invariant TerminatedLength(phonemes, length) == TerminatedLength(phonemes, 0)
      {
        if phonemes[length] == 255 { break; }
        assert |phonemes| < ScanLimit ==> Terminator in phonemes[length + 1..] by {
          if |phonemes| < ScanLimit {
            var j :| length <= j < |phonemes| && phonemes[j] == Terminator;
            assert phonemes[length + 1..][j - length - 1] == Terminator;
          }
        }
        length := length + 1;
      }
    }

    /** addSpeechTags: the phoneme codes of the two-letter tags in `tags`.
        With a length of 0 the driver counts the tag letters itself, up to the
        first '.' or NUL, at most 509 counted, and sends nothing for a count
        that is 0 or odd. */
    method AddSpeechTags(tags: string, length: bv8)
      requires length != 0 ==> TagsReadable(tags, 0, length as nat)
      modifies this`trace
      ensures var n := TagsToSend(tags, length);
        trace == if n == 0 then old(trace) else old(trace) + Frame(Link(), 60, TagPhonemes(tags, 0, n))
    {
      var n := length as nat;
      if length == 0 {
        var count := CountTagLetters(tags);
        if count == 0 || count % 2 == 1 { return; }
        n := count / 2;
        CountedLengthIsReadable(tags);
      }
      var arr := TokenizeTags(tags, n);
      Send(60, arr);
    }

    /** The counting pass of addSpeechTags (BuzzKill.cpp:212-213): the
        non-space characters before the first '.' or NUL, stopping at 509. */
    method CountTagLetters(tags: string) returns (count: nat)
      ensures count == if TagChars(tags, 0) < CountLimit then TagChars(tags, 0) else CountLimit
    {
      var p: nat := 0;
      count := 0;
      while count < CountLimit && At(tags, p) != '\0' && At(tags, p) != '.'
        invariant p <= |tags| && count <= CountLimit
        invariant count + TagChars(tags, p) == TagChars(tags, 0)
        decreases |tags| - p
      {
        if At(tags, p) != ' ' { count := count + 1; }
        p := p + 1;
      }
    }

    /** The tokenizing pass of addSpeechTags (BuzzKill.cpp:219-224): n times,
        skip spaces, look the next two characters up and move past them. */
    method TokenizeTags(tags: string, n: nat) returns (arr: seq<bv8>)
      requires TagsReadable(tags, 0, n)
      ensures arr == TagPhonemes(tags, 0, n)
    {
      var p: nat := 0;
      var count: nat := 0;
      arr := [];
      while count < n
        invariant count <= n && p <= |tags| + 1
        invariant TagsReadable(tags, p, n - count)
        invariant arr + TagPhonemes(tags, p, n - count) == TagPhonemes(tags, 0, n)
        decreases n - count
      {
        var q := SkipBlanks(tags, p);
        var code := PhonemeFromTag(At(tags, q), At(tags, q + 1));
        TagStep(tags, p, n - (count + 1), arr, TagPhonemes(tags, 0, n), code);
        arr := arr + [code];
        count := count + 1;
        p := q + 2;
      }
      assert arr + TagPhonemes(tags, p, 0) == arr;
    }

    /** The tokenizer's space skipping (BuzzKill.cpp:220). */
    method SkipBlanks(tags: string, p: nat) returns (q: nat)
      requires p <= |tags|
      ensures q == SkipSpaces(tags, p)
    {
      q := p;
      while At(tags, q) == ' '
        invariant p <= q <= SkipSpaces(tags, p)
        invariant SkipSpaces(tags, q) == SkipSpaces(tags, p)
        decreases |tags| - q
      {
        q := q + 1;
      }
    }

    /** getPhonemeFromTag: the code of the first table tag that the two
        characters spell, ignoring case, or 55 when none does. The driver steps
        through its 110-character string two characters at a time; the model
        steps through the table one tag at a time. */
    method PhonemeFromTag(c0: char, c1: char) returns (code: bv8)
      ensures code == PhonemeCode(c0, c1)
    {
      var k: nat := 0;
      while k < TagCount
        invariant k <= TagCount
        invariant LookupTag(c0, c1, k) == LookupTag(c0, c1, 0)
      {
        LookupAt(c0, c1, k);
        if TagMatches(c0, c1, k) { break; }
        k := k + 1;
      }
      LookupAt(c0, c1, k);
      code := Byte(k);
    }

    /** clearSpeechBuffer: an empty write to the speech buffer. */
    method ClearSpeechBuffer()
      modifies this`trace
      ensures trace == old(trace) + Frame(Link(), 60, [])
    {
      Send(60, []);
    }

    /** setSpeechSpeed: speeds above 253 are ignored. */
    method SetSpeechSpeed(speed: bv8)
      modifies this`trace
      ensures trace == if speed > 253 then old(trace) else old(trace) + Frame(Link(), 244, [speed])
    {
      if speed > 253 { return; }
      Send(244, [speed]);
    }

    /** setSpeechFactors: the four formants' frequency and amplitude factors,
        in that order, as one eight-byte write. */
    method SetSpeechFactors(form1Freq: bv8, form1Amp: bv8, form2Freq: bv8, form2Amp: bv8,
                            form3Freq: bv8, form3Amp: bv8, form4Freq: bv8, form4Amp: bv8)
      modifies this`trace
      ensures trace == old(trace) + Frame(Link(), 245,
        [form1Freq, form1Amp, form2Freq, form2Amp, form3Freq, form3Amp, form4Freq, form4Amp])
    {
      Send(245, [form1Freq, form1Amp, form2Freq, form2Amp, form3Freq, form3Amp, form4Freq, form4Amp]);
    }

    method StartSpeaking()
      modifies this`trace
      ensures trace == old(trace) + Frame(Link(), 247, [])
    {
      Send(247, []);
    }

    method StopSpeaking()
      modifies this`trace
      ensures trace == old(trace) + Frame(Link(), 246, [])
    {
      Send(246, []);
    }

    // -------------------------------------------------------------------------
    // prepareSpeechMode (BuzzKill.cpp:248-261).

    /** prepareSpeechMode: the standard settings for speech, made by the eleven
        setter calls in the driver's order; see SpeechModeShadows for what they
        leave in the shadow bytes and SpeechModeWrites for what they send. */
    method PrepareSpeechMode(pitch16: nat, patchType: bv8)
      requires Valid()
      modifies this`trace, shadows
      ensures shadows[..] == SpeechModeShadows(old(shadows[..]), pitch16, patchType)
      ensures trace == old(trace) + Frames(Link(), SpeechModeWrites(old(shadows[..]), pitch16, patchType))
    {
      ghost var s0, t0 := shadows[..], trace;
      SpeechSound(pitch16);
      SpeechSoundKeepsMixer(s0, pitch16);
      SpeechPatchAndVoices(patchType);
      FramesThenAll(t0, Link(), SpeechSoundWrites(s0, pitch16), SpeechPatchWrites(s0[24], patchType));
    }

    /** The first nine calls of prepareSpeechMode: the oscillators and the
        mix volumes. */
    method SpeechSound(pitch16: nat)
      requires Valid()
      modifies this`trace, shadows
      ensures shadows[..] == SpeechSoundShadows(old(shadows[..]), pitch16)
      ensures trace == old(trace) + Frames(Link(), SpeechSoundWrites(old(shadows[..]), pitch16))
    {
      ghost var t0 := trace;
      SpeechOscillators(pitch16);
      ghost var s1 := shadows[..];
      SpeechMix();
      FramesThenAll(t0, Link(), SpeechOscWrites(pitch16), SpeechMixWrites(s1));
    }

    /** The last three calls of prepareSpeechMode: the patch table cleared,
        the pitch patch added, and all four voices enabled. */
    method SpeechPatchAndVoices(patchType: bv8)
      requires Valid()
      modifies this`trace, shadows
      ensures var patched := SpeechPatchShadows(old(shadows[..]), patchType);
        shadows[..] == patched[24 := Place(patched[24], LowNibble, 15)]
      ensures trace == old(trace) + Frames(Link(), SpeechPatchWrites(old(shadows[24]), patchType))
    {
      ghost var t0, s0 := trace, shadows[..];
      SpeechPatch(patchType);
      assert shadows[24] == s0[24];
      SpeechVoices();
      FramesThen(t0, Link(), SpeechPatchTableWrites(patchType), SpeechVoicesWrite(s0[24]));
    }

    /** clearPatches and then the pitch patch in slot 0, which is then free. */
    method SpeechPatch(patchType: bv8)
      requires Valid()
      modifies this`trace, shadows
      ensures shadows[..] == SpeechPatchShadows(old(shadows[..]), patchType)
      ensures trace == old(trace) + Frames(Link(), SpeechPatchTableWrites(patchType))
    {
      ghost var t0 := trace;
      ClearPatches();
      ghost var t1, c := trace, shadows[..];
      FramesOne(Link(), Write(50, []));
      assert FirstFreeSlot(c, 0) == 0;
      var slot := AddPatch(0, 0, patchType, 255);
      if patchType <= 15 {
        ghost var w := Write(PatchRegister(0), [PackPatch(Patch(0, 0, patchType)), 255]);
        assert slot == 0;
        assert trace == t1 + Frame(Link(), w.command, w.data);
        FramesThen(t0, Link(), [Write(50, [])], w);
      } else {
        assert SpeechPatchTableWrites(patchType) == [Write(50, [])];
      }
    }

    /** The five oscillator calls of prepareSpeechMode. */
    method SpeechOscillators(pitch16: nat)
      requires Valid()
      modifies this`trace, shadows
      ensures shadows[..] == SpeechOscShadows(old(shadows[..]), pitch16)
      ensures trace == old(trace) + Frames(Link(), SpeechOscWrites(pitch16))
    {
      ghost var t0 := trace;
      SpeechVoiceOscillators();
      SpeechOscillator(Mod, 0, pitch16, ShapeHilltop);
      if pitch16 < 0x1_0000 {
        FramesThen(t0, Link(), SpeechVoiceWrites(), SpeechOscWrite(Mod, 0, pitch16, ShapeHilltop));
      } else {
        assert SpeechOscWrites(pitch16) == SpeechVoiceWrites();
      }
    }

    /** The four voice-oscillator calls of prepareSpeechMode. */
    method SpeechVoiceOscillators()
      requires Valid()
      modifies this`trace, shadows
      ensures shadows[..] == SpeechVoiceShadows(old(shadows[..]))
      ensures trace == old(trace) + Frames(Link(), SpeechVoiceWrites())
    {
      ghost var t0 := trace;
      SpeechOscillator(Voice, 0, 0, ShapeSine);
      ghost var t1 := trace;
      SpeechOscillator(Voice, 1, 0, ShapeSine);
      ghost var t2 := trace;
      SpeechOscillator(Voice, 2, 0, ShapeSine);
      ghost var t3 := trace;
      SpeechOscillator(Voice, 3, 0, ShapeNoise);
      FourFrames(Link(), t0, t1, t2, t3, trace,
        SpeechOscWrite(Voice, 0, 0, ShapeSine), SpeechOscWrite(Voice, 1, 0, ShapeSine),
        SpeechOscWrite(Voice, 2, 0, ShapeSine), SpeechOscWrite(Voice, 3, 0, ShapeNoise));
    }

    /** configureOscillator with its optional arguments at their defaults. */
    method SpeechOscillator(oscType: OscType, oscNum: bv8, frequency16: nat, shape: bv8)
      requires Valid() && oscNum <= 3 && IsShape(shape)
      modifies this`trace, shadows
      ensures frequency16 >= 0x1_0000 ==> shadows[..] == old(shadows[..]) && trace == old(trace)
      ensures frequency16 < 0x1_0000 ==>
        var w := SpeechOscWrite(oscType, oscNum, frequency16, shape);
        && shadows[..] == old(shadows[..])[OscShadow(oscType, oscNum) := PackOsc(SpeechControl(shape))]
        && trace == old(trace) + Frame(Link(), w.command, w.data)
    {
      ConfigureOscillator(oscType, oscNum, frequency16, shape, 128, false, false, 0);
    }

    /** The four mix-volume calls of prepareSpeechMode. */
    method SpeechMix()
      requires Valid()
      modifies this`trace, shadows
      ensures shadows[..] == SpeechMixShadows(old(shadows[..]))
      ensures trace == old(trace) + Frames(Link(), SpeechMixWrites(old(shadows[..])))
    {
      ghost var s0, t0 := shadows[..], trace;
      SpeechMixVolume(0, 5);
      ghost var s1, t1 := shadows[..], trace;
      SpeechMixVolume(1, 5);
      ghost var s2, t2 := shadows[..], trace;
      SpeechMixVolume(2, 5);
      ghost var s3, t3 := shadows[..], trace;
      SpeechMixVolume(3, 3);
      FourFrames(Link(), t0, t1, t2, t3, trace,
        SpeechMixWrite(s0, 0, 5), SpeechMixWrite(s1, 1, 5), SpeechMixWrite(s2, 2, 5), SpeechMixWrite(s3, 3, 3));
      SpeechMixSteps(s0, s1, s2, s3);
    }

    /** One mix-volume call of prepareSpeechMode: the high nibble of the
        envelope's fourth byte set, and its write. */
    method SpeechMixVolume(envNum: bv8, volume: bv8)
      requires Valid() && envNum <= 3 && volume <= 15
      modifies this`trace, shadows
      ensures var i, w := EnvShadow(envNum, 3), SpeechMixWrite(old(shadows[..]), envNum, volume);
        && shadows[..] == old(shadows[..])[i := Place(old(shadows[i]), HighNibble, volume << 4)]
        && trace == old(trace) + Frame(Link(), w.command, w.data)
    {
      SetMixVolume(envNum, volume);

    }

    /** The closing call of prepareSpeechMode: all four voices enabled. */
    method SpeechVoices()
      requires Valid()
      modifies this`trace, shadows
      ensures shadows[..] == Masked(old(shadows[..]), 24, LowNibble, 15)
      ensures trace == old(trace) + Frame(Link(), 48, [Place(old(shadows[24]), LowNibble, 15)])
    {
      assert VoiceMask([true, true, true, true]) == 15;
      EnableVoices(true, true, true, true);
    }

    // -------------------------------------------------------------------------
    // The mixer byte, shadow 24, mirrored from register 48
    // (BuzzKill.cpp:271-291).

    /** enableVoice(v, enable): voice v's enable bit alone. */
    method EnableVoice(voiceNum: bv8, enable: bool)
      requires Valid()
      modifies this`trace, shadows
      ensures voiceNum > 3 ==> shadows[..] == old(shadows[..]) && trace == old(trace)
      ensures voiceNum <= 3 ==>
        && shadows[..] == Masked(old(shadows[..]), 24, VoiceBit(voiceNum), Bit(enable, VoiceBit(voiceNum)))
        && VoiceEnabled(shadows[24], voiceNum) == enable
        && (forall w: bv8 :: w <= 3 && w != voiceNum ==>
              VoiceEnabled(shadows[24], w) == VoiceEnabled(old(shadows[24]), w))
        && MasterVolume(shadows[24]) == MasterVolume(old(shadows[24]))
        && trace == old(trace) + Frame(Link(), 48, [shadows[24]])
    {
      if voiceNum > 3 { return; }
      SetVoiceBit(voiceNum, enable);
      Send(48, [shadows[24]]);
    }

    /** The shadow half of enableVoice(v, enable) (BuzzKill.cpp:273). */
    method SetVoiceBit(voiceNum: bv8, enable: bool)
      requires Valid() && voiceNum <= 3
      modifies shadows
      ensures shadows[..] == Masked(old(shadows[..]), 24, VoiceBit(voiceNum), Bit(enable, VoiceBit(voiceNum)))
      ensures VoiceEnabled(shadows[24], voiceNum) == enable
      ensures forall w: bv8 :: w <= 3 && w != voiceNum ==>
        VoiceEnabled(shadows[24], w) == VoiceEnabled(old(shadows[24]), w)
      ensures MasterVolume(shadows[24]) == MasterVolume(old(shadows[24]))
    {
      var bit := VoiceBit(voiceNum);
      ghost var b0 := shadows[24];
      shadows[24] := Switch(shadows[24], bit, enable);
      VoiceSwitch(b0, voiceNum, enable);
    }

    /** The four-flag enableVoice: the low nibble becomes the four flags, the
        master volume is kept. */
    method EnableVoices(voice0: bool, voice1: bool, voice2: bool, voice3: bool)
      requires Valid()
      modifies this`trace, shadows
      ensures shadows[..] == Masked(old(shadows[..]), 24, LowNibble, VoiceMask([voice0, voice1, voice2, voice3]))
      ensures forall w: bv8 :: w <= 3 ==> VoiceEnabled(shadows[24], w) == [voice0, voice1, voice2, voice3][w]
      ensures MasterVolume(shadows[24]) == MasterVolume(old(shadows[24]))
      ensures trace == old(trace) + Frame(Link(), 48, [shadows[24]])
    {
      var mask := VoiceMask([voice0, voice1, voice2, voice3]);
      var b := Place(shadows[24], LowNibble, mask);
      forall w: bv8 | w <= 3
        ensures VoiceEnabled(b, w) == VoiceEnabled(mask, w)
        ensures MasterVolume(b) == MasterVolume(shadows[24])
      {
        VoiceMaskOwnsLowNibble(shadows[24], w, mask);
      }
      shadows[24] := b;
      Send(48, [shadows[24]]);
    }

    method DisableVoice(voiceNum: bv8)
      requires Valid()
      modifies this`trace, shadows
      ensures voiceNum > 3 ==> shadows[..] == old(shadows[..]) && trace == old(trace)
      ensures voiceNum <= 3 ==>
        && shadows[..] == Masked(old(shadows[..]), 24, VoiceBit(voiceNum), 0)
        && !VoiceEnabled(shadows[24], voiceNum)
        && trace == old(trace) + Frame(Link(), 48, [shadows[24]])
    {
      EnableVoice(voiceNum, false);
    }

    /** setMasterVolume: the high nibble; the enable bits are kept. */
    method SetMasterVolume(volume: bv8)
      requires Valid()
      modifies this`trace, shadows
      ensures volume > 15 ==> shadows[..] == old(shadows[..]) && trace == old(trace)
      ensures volume <= 15 ==>
        && shadows[..] == Masked(old(shadows[..]), 24, HighNibble, volume << 4)
        && MasterVolume(shadows[24]) == volume
        && (forall w: bv8 :: w <= 3 ==> VoiceEnabled(shadows[24], w) == VoiceEnabled(old(shadows[24]), w))
        && trace == old(trace) + Frame(Link(), 48, [shadows[24]])
    {
      if volume > 15 { return; }
      var b := Place(shadows[24], HighNibble, volume << 4);
      forall w: bv8 | w <= 3
        ensures VoiceEnabled(b, w) == VoiceEnabled(shadows[24], w) && MasterVolume(b) == volume
      {
        MasterVolumeOwnsItsField(shadows[24], w, volume);
      }
      shadows[24] := b;
      Send(48, [shadows[24]]);
    }

    // -------------------------------------------------------------------------
    // Modulation patches (BuzzKill.cpp:179-198). Slot j is shadow byte 25+j,
    // mirrored from register 50+2j; its parameter goes to register 51+2j.

    /** addPatch: the patch goes into the first free slot, and its byte and
        parameter are sent; bad arguments or a full table give 255. */
    method AddPatch(srcMod: bv8, destVoice: bv8, patchType: bv8, patchParam: bv8) returns (slot: bv8)
      requires Valid()
      modifies this`trace, shadows
      ensures var free, p := FirstFreeSlot(old(shadows[..]), 0), Patch(destVoice, srcMod, patchType);
        if srcMod > 3 || destVoice > 3 || patchType > 15 || free == 5 then
          slot == 255 && shadows[..] == old(shadows[..]) && trace == old(trace)
        else
          && slot as nat == free
          && shadows[..] == old(shadows[..])[25 + free := PackPatch(p)]
          && UnpackPatch(shadows[25 + free]) == p
          && trace == old(trace) + Frame(Link(), PatchRegister(slot), [PackPatch(p), patchParam])
    {
      if srcMod > 3 || destVoice > 3 || patchType > 15 { return 255; }
      ghost var s0 := shadows[..];
      slot := 0;
      while slot < 5
        invariant slot <= 5
        invariant FirstFreeSlot(s0, slot as nat) == FirstFreeSlot(s0, 0)
      {
        if shadows[slot as nat + 25] & LowNibble == 0 { break; }
        slot := slot + 1;
      }
      if slot > 4 { return 255; }
      var p := Patch(destVoice, srcMod, patchType);
      shadows[slot as nat + 25] := PackPatch(p);
      PatchRoundTrip(p, 0);
      Send(PatchRegister(slot), [PackPatch(p), patchParam]);
    }

    /** removePatch: the slot byte becomes 0, which frees the slot. */
    method RemovePatch(patchSlot: bv8)
      requires Valid()
      modifies this`trace, shadows
      ensures patchSlot > 4 ==> shadows[..] == old(shadows[..]) && trace == old(trace)
      ensures patchSlot <= 4 ==>
        && shadows[..] == old(shadows[..])[25 + patchSlot as nat := 0]
        && SlotFree(shadows[25 + patchSlot as nat])
        && trace == old(trace) + Frame(Link(), PatchRegister(patchSlot), [0])
    {
      if patchSlot > 4 { return; }
      shadows[patchSlot as nat + 25] := 0;
      Send(PatchRegister(patchSlot), [shadows[patchSlot as nat + 25]]);
    }

    /** clearPatches: a reset from register 50, which frees every slot and
        keeps every other shadow byte. */
    method ClearPatches()
      requires Valid()
      modifies this`trace, shadows
      ensures shadows[..] == ResetFrom(old(shadows[..]), 50)
      ensures forall i :: 25 <= i < ShadowCount ==> SlotFree(shadows[i])
      ensures forall i :: 0 <= i < 25 ==> shadows[i] == old(shadows[i])
      ensures trace == old(trace) + Frame(Link(), 50, [])
    {
      ResetRanges(shadows[..]);
      ResetRegisters(50);
    }

    // -------------------------------------------------------------------------
    // Register access (BuzzKill.cpp:293-323).

    /** resetRegisters: the shadow bytes from regStart on go back to their
        power-up values and the device is told to do the same; a start above
        59 does nothing. */
    method ResetRegisters(regStart: bv8)
      requires Valid()
      modifies this`trace, shadows
      ensures regStart > 59 ==> shadows[..] == old(shadows[..]) && trace == old(trace)
      ensures regStart <= 59 ==>
        && shadows[..] == ResetFrom(old(shadows[..]), regStart as nat)
        && trace == old(trace) + Frame(Link(), regStart, [])
    {
      if regStart > 59 { return; }
      ResetShadows(regStart);
      Send(regStart, []);
    }

    /** setRegister: val1 and then the following values up to the first
        negative one are written to consecutive registers from regStart, the
        one-byte register counter wrapping after 255, and sent as one write.
        The driver does not check that the shadow writes stay in the store, so
        the model requires it. */
    method SetRegister(regStart: bv8, val1: bv8, vals: seq<int>)
      requires Valid() && |vals| == 9
      requires Writable(regStart as nat, |LeadingBytes([val1 as int] + vals)|)
      modifies this`trace, shadows
      ensures var data := LeadingBytes([val1 as int] + vals);
        && shadows[..] == StoreAll(old(shadows[..]), regStart as nat, data)
        && trace == old(trace) + Frame(Link(), regStart, data)
    {
      var arr8 := StoreLeading(regStart, [val1 as int] + vals);
      Send(regStart, arr8);
    }

    /** The copy loop of setRegister (BuzzKill.cpp:302-309): it stops at the
        tenth value or the first negative one, whichever comes first. */
    method StoreLeading(regStart: bv8, arr16: seq<int>) returns (arr8: seq<bv8>)
      requires Valid() && |arr16| == 10 && Writable(regStart as nat, |LeadingBytes(arr16)|)
      modifies shadows
      ensures arr8 == LeadingBytes(arr16)
      ensures shadows[..] == StoreAll(old(shadows[..]), regStart as nat, arr8)
    {
      ghost var data := LeadingBytes(arr16);
      ghost var s0 := shadows[..];
      var reg: nat := regStart as nat;
      ghost var start := reg;
      arr8 := [];
      var count := 0;
      while count < 10 && arr16[count] >= 0
        invariant count <= 10 && |arr8| == count
        invariant arr8 + LeadingBytes(arr16[count..]) == data
        invariant reg == RegisterAfter(start, count)
        invariant Writable(start, count)
        invariant shadows[..] == StoreAll(s0, start, arr8)
        decreases 10 - count
      {
        var b := LowByte(arr16[count]);
        LeadingLoopStep(arr16, count, arr8, data);
        StoreLoopStep(s0, start, arr8, b, |data|);
        StoreRegister(reg, b);
        arr8 := arr8 + [b];
        count := count + 1;
        reg := NextRegister(reg);
      }
      assert LeadingBytes(arr16[count..]) == [];
    }

    /** writeRegisters: `length` bytes to consecutive registers from regStart,
        each landing in its shadow byte, then sent; nothing happens for an
        empty write or one reaching register 60. */
    method WriteRegisters(regStart: bv8, regData: seq<bv8>, length: bv8)
      requires Valid() && |regData| >= length as nat
      modifies this`trace, shadows
      ensures length == 0 || regStart as nat + length as nat > 60 ==>
        shadows[..] == old(shadows[..]) && trace == old(trace)
      ensures length != 0 && regStart as nat + length as nat <= 60 ==>
        && shadows[..] == WriteThrough(old(shadows[..]), regStart as nat, regData[..length])
        && trace == old(trace) + Frame(Link(), regStart, regData[..length])
    {
      if length < 1 || regStart as int > 60 - length as int { return; }
      StoreThrough(regStart as nat, regData[..length]);
      Send(regStart, regData[..length]);
    }

    /** The copy loop of writeRegisters (BuzzKill.cpp:315-321). */
    method StoreThrough(regStart: nat, data: seq<bv8>)
      requires Valid() && regStart + |data| <= 60
      modifies shadows
      ensures shadows[..] == WriteThrough(old(shadows[..]), regStart, data)
    {
      ghost var s0 := shadows[..];
      var reg: nat := regStart;
      var count: nat := 0;
      while reg < regStart + |data|
        invariant reg == regStart + count && count <= |data|
        invariant shadows[..] == WriteThrough(s0, regStart, data[..count])
      {
        WriteThroughStep(s0, regStart, data[..count], data[count]);
        assert data[..count + 1] == data[..count] + [data[count]];
        StoreRegister(reg, data[count]);
        reg := reg + 1;
        count := count + 1;
      }
      assert data[..count] == data;
    }

    /** One shadow write of the copy loops (BuzzKill.cpp:304-308, 316-320). */
    method StoreRegister(reg: nat, v: bv8)
      requires Valid() && InStore(reg)
      modifies shadows
      ensures shadows[..] == Store(old(shadows[..]), reg, v)
    {
      if reg > 48 {
        if reg % 2 == 0 { shadows[reg / 2] := v; }
      } else if reg > 31 {
        shadows[reg - 24] := v;
      } else if reg % 4 == 3 {
        shadows[reg / 4] := v;
      }
    }

    // -------------------------------------------------------------------------
    // Board control (BuzzKill.cpp:329-356).

    method BoardSleep()
      modifies this`trace
      ensures trace == old(trace) + Frame(Link(), 251, [])
    {
      Send(251, []);
    }

    /** boardWake: not a write but a pulse that wakes the board, a short low
        pulse on the select line over SPI, or a transmission of the single
        byte 255 over I2C. */
    method BoardWake()
      modifies this`trace
      ensures trace == old(trace) + WakeEvents(Link())
    {
      if spi {
        trace := trace + [SelectLow(spiPin), Pause(1), SelectHigh(spiPin)];
      } else if i2c {
        trace := trace + [I2cBegin(i2cAddr), I2cByte(255), I2cEnd(true)];
      }
    }

    /** storeCustomWave: 256 wave bytes, the first half to command 249 and the
        second half to command 255. The driver reads 256 bytes whatever it is
        given, so the model requires them. */
    method StoreCustomWave(wave: seq<bv8>)
      requires |wave| >= 256
      modifies this`trace
      ensures trace == old(trace) + Frame(Link(), 249, wave[..128]) + Frame(Link(), 255, wave[128..256])
    {
      Send(249, wave[..128]);
      Send(255, wave[128..256]);
    }

    /** changeI2CAddress: addresses 8..119 are sent, with their two check
        bytes, at the old address, which the driver then replaces; any other
        address is ignored. */
    method ChangeI2cAddress(newAddr: bv8)
      modifies this`trace, this`i2cAddr
      ensures newAddr < 8 || newAddr > 119 ==> trace == old(trace) && i2cAddr == old(i2cAddr)
      ensures 8 <= newAddr <= 119 ==>
        && trace == old(trace) + Frame(old(Link()), 250, AddressPayload(newAddr))
        && i2cAddr == newAddr
    {
      if newAddr < 8 || newAddr > 119 { return; }
      Send(250, AddressPayload(newAddr));
      i2cAddr := newAddr;
    }

    // -------------------------------------------------------------------------
    // _resetShadows (BuzzKill.cpp:358-367).

    /** Puts back the power-up value of every shadow byte whose owning register
        is `regStart` or above; one loop per group of bytes, as the driver has. */
    method ResetShadows(regStart: bv8)
      requires Valid()
      modifies shadows
      ensures shadows[..] == ResetFrom(old(shadows[..]), regStart as nat)
    {
      ghost var s0 := shadows[..];
      ResetOscillators(regStart);
      ghost var s1 := shadows[..];
      ResetEnvelopes(regStart);
      ghost var s2 := shadows[..];
      if regStart <= 48 { shadows[24] := 240; }
      ghost var s3 := shadows[..];
      ResetPatchSlots(regStart);
      forall k | 0 <= k < ShadowCount
        ensures shadows[k] == ResetFrom(s0, regStart as nat)[k]
      {
        if k < 8 {
          assert shadows[k] == s3[k] == s2[k] == s1[k];
        } else if k < 24 {
          assert shadows[k] == s3[k] == s2[k] && s1[k] == s0[k];
        } else if k == 24 {
          assert s2[k] == s1[k] == s0[k];
        } else {
          assert s3[k] == s2[k] == s1[k] == s0[k];
        }
      }
    }

    /** The oscillator reset loop: each control byte is reset when its
        register is `regStart` or above, and nothing else changes. */
    method ResetOscillators(regStart: bv8)
      requires Valid()
      modifies shadows
      ensures forall k :: 0 <= k < ShadowCount ==>
        shadows[k] == if k < 8 then ResetByte(k, regStart as nat, old(shadows[k])) else old(shadows[k])
    {
      var index: nat := 0;
      while index < 8
        invariant index <= 8
        invariant forall k :: 0 <= k < ShadowCount ==>
          shadows[k] == if k < index then ResetByte(k, regStart as nat, old(shadows[k])) else old(shadows[k])
      {
        if regStart as nat <= index * 4 + 3 { shadows[index] := 0; }
        index := index + 1;
      }
    }

    /** The patch-slot reset loop: each slot is cleared when its register is
        `regStart` or above, and nothing else changes. */
    method ResetPatchSlots(regStart: bv8)
      requires Valid()
      modifies shadows
      ensures forall k :: 0 <= k < ShadowCount ==>
        shadows[k] == if 25 <= k then ResetByte(k, regStart as nat, old(shadows[k])) else old(shadows[k])
    {
      var index: nat := 0;
      while index < 5
        invariant index <= 5
        invariant forall k :: 0 <= k < ShadowCount ==>
          shadows[k] == if 25 <= k < 25 + index then ResetByte(k, regStart as nat, old(shadows[k])) else old(shadows[k])
      {
        if regStart as nat <= index * 2 + 50 { shadows[index + 25] := 0; }
        index := index + 1;
      }
    }

    /** The four envelope reset loops together: every quad byte is reset when
        its register is `regStart` or above, and nothing else changes. */
    method ResetEnvelopes(regStart: bv8)
      requires Valid()
      modifies shadows
      ensures forall k :: 0 <= k < ShadowCount ==>
        shadows[k] == if 8 <= k < 24 then ResetByte(k, regStart as nat, old(shadows[k])) else old(shadows[k])
    {
      ghost var s0 := shadows[..];
      ResetColumn(regStart, 0, 0);
      ghost var s1 := shadows[..];
      ResetColumn(regStart, 1, 0);
      ghost var s2 := shadows[..];
      ResetColumn(regStart, 2, 127);
      ghost var s3 := shadows[..];
      ResetColumn(regStart, 3, 240);
      forall k | 0 <= k < ShadowCount
        ensures shadows[k] == if 8 <= k < 24 then ResetByte(k, regStart as nat, s0[k]) else s0[k]
      {
        if 8 <= k < 24 {
          assert (k - 8) % 4 < 4;
        }
      }
    }

    /** One of the four envelope reset loops: byte `column` of every quad takes
        its default `value` when its register is `regStart` or above. */
    method ResetColumn(regStart: bv8, column: nat, value: bv8)
      requires Valid() && column < 4 && value == Default(8 + column)
      modifies shadows
      ensures forall k :: 0 <= k < ShadowCount ==>
        shadows[k] == if 8 <= k < 24 && (k - 8) % 4 == column then ResetByte(k, regStart as nat, old(shadows[k])) else old(shadows[k])
    {
      var index := column;
      while index < 16
        invariant index % 4 == column && index <= 16 + column
        invariant forall k :: 0 <= k < ShadowCount ==>
          shadows[k] == if 8 <= k < 8 + index && (k - 8) % 4 == column then ResetByte(k, regStart as nat, old(shadows[k])) else old(shadows[k])
      {
        if regStart as nat <= index + 32 { shadows[index + 8] := value; }
        index := index + 4;
      }
    }
  }

  /** The shadow byte of oscillator `oscNum`: 0..3 for modulation, 4..7 for voice. */
  function OscShadow(oscType: OscType, oscNum: bv8): (i: nat)
    requires oscNum <= 3
    ensures i < 8 && i == (if oscType == Voice then 4 else 0) + oscNum as nat
  {
    (OscCode(oscType) >> 2) as nat + oscNum as nat
  }

  /** Register k (0 frequency, 2 midpoint, 3 control) of an oscillator. */
  function OscRegister(oscType: OscType, oscNum: bv8, k: bv8): (reg: bv8)
    requires oscNum <= 3 && k <= 3
    ensures reg as nat == OscCode(oscType) as nat + 4 * oscNum as nat + k as nat
  {
    OscCode(oscType) + (oscNum << 2) + k
  }

  /** The 16-bit frequency word, least significant byte first. */
  function FrequencyBytes(word: nat): (bs: seq<bv8>)
    requires word < 0x1_0000
    ensures |bs| == 2
  {
    [(word % 256) as bv8, (word / 256) as bv8]
  }

  /** Shadow bytes `s` after the masked write of `v` into byte i. */
  function Masked(s: seq<bv8>, i: nat, mask: bv8, v: bv8): (r: seq<bv8>)
    requires i < |s|
    ensures |r| == |s| && r[i] == Place(s[i], mask, v)
    ensures forall k :: 0 <= k < |s| && k != i ==> r[k] == s[k]
  {
    s[i := Place(s[i], mask, v)]
  }

  /** Byte k (0..3) of envelope e's quad in the shadow store. */
  function EnvShadow(envNum: bv8, k: nat): (i: nat)
    requires envNum <= 3 && k <= 3
    ensures 8 <= i < 24 && i == 8 + 4 * envNum as nat + k
  {
    8 + 4 * envNum as nat + k
  }

  /** Register k (0..3) of envelope e. */
  function EnvRegister(envNum: bv8, k: bv8): (reg: bv8)
    requires envNum <= 3 && k <= 3
    ensures reg as nat == 32 + 4 * envNum as nat + k as nat
  {
    (envNum << 2) + 32 + k
  }

  /** The settings of envelope e, read from its quad of shadow bytes. */
  function EnvelopeOf(s: seq<bv8>, envNum: bv8): Envelope
    requires |s| == ShadowCount && envNum <= 3
  {
    var i := EnvShadow(envNum, 0);
    UnpackEnvelope(s[i..i + 4])
  }

  lemma QuadAt(s: seq<bv8>, envNum: bv8)
    requires |s| == ShadowCount && envNum <= 3
    ensures var i := EnvShadow(envNum, 0);
      s[i..i + 4] == Quad(s[i], s[i + 1], s[i + 2], s[i + 3])
  {
  }

  /** The two release writes change exactly the envelope's release range and
      value. */
  lemma ReleaseUpdate(s: seq<bv8>, envNum: bv8, range: bv8, value: bv8)
    requires |s| == ShadowCount && envNum <= 3 && range <= 3 && value <= 15
    ensures var i := EnvShadow(envNum, 0);
      EnvelopeOf(Masked(Masked(s, i, ReleaseRangeMask, range << 4), i + 3, LowNibble, value), envNum)
      == EnvelopeOf(s, envNum).(releaseRange := range, releaseValue := value)
  {
    var i := EnvShadow(envNum, 0);
    var r := Masked(Masked(s, i, ReleaseRangeMask, range << 4), i + 3, LowNibble, value);
    QuadAt(s, envNum);
    QuadAt(r, envNum);
    ReleaseOwnsItsFields(s[i..i + 4], range, value);
  }

  /** Placing the gate bit changes exactly the envelope's gate. */
  lemma GateUpdate(s: seq<bv8>, envNum: bv8, gate: bool)
    requires |s| == ShadowCount && envNum <= 3
    ensures EnvelopeOf(Masked(s, EnvShadow(envNum, 2), GateMask, Bit(gate, 128)), envNum)
         == EnvelopeOf(s, envNum).(gate := gate)
  {
    var i := EnvShadow(envNum, 0);
    QuadAt(s, envNum);
    QuadAt(Masked(s, i + 2, GateMask, Bit(gate, 128)), envNum);
    GateOwnsItsField(s[i..i + 4], gate);
  }

  /** Whether shadow byte i is the gate byte of one of envelopes 0..n-1. */
  predicate GateByteBelow(i: nat, n: nat)
  {
    8 <= i < 8 + 4 * n && (i - 8) % 4 == 2
  }

  /** The shadow bytes once envelopes 0..n-1 have the given gates. */
  function GatesApplied(s: seq<bv8>, gates: seq<bool>, n: nat): (r: seq<bv8>)
    requires |s| == ShadowCount && n <= |gates| == 4
    ensures |r| == ShadowCount
  {
    seq(ShadowCount, i requires 0 <= i < ShadowCount =>
      if GateByteBelow(i, n) then Place(s[i], GateMask, Bit(gates[(i - 8) / 4], 128)) else s[i])
  }

  /** The writes the four-gate noteOn makes for envelopes 0..n-1: one
      single-byte write of the gate byte for each envelope whose gate changes,
      none for the others. */
  function GateFrames(link: Link, s: seq<bv8>, gates: seq<bool>, n: nat): seq<Event>
    requires |s| == ShadowCount && n <= |gates| == 4
  {
    if n == 0 then []
    else
      var x := n - 1;
      var i := EnvShadow(x as bv8, 2);
      GateFrames(link, s, gates, x)
      + (if gates[x] != (s[i] & GateMask != 0)
         then Frame(link, EnvRegister(x as bv8, 2), [Place(s[i], GateMask, Bit(gates[x], 128))])
         else [])
  }

  /** One changed gate byte, or nothing, for envelope e. */
  function GateFrame(link: Link, s: seq<bv8>, envNum: bv8, gate: bool): seq<Event>
    requires |s| == ShadowCount && envNum <= 3
  {
    var i := EnvShadow(envNum, 2);
    if gate != (s[i] & GateMask != 0)
    then Frame(link, EnvRegister(envNum, 2), [Place(s[i], GateMask, Bit(gate, 128))])
    else []
  }

  lemma GatesStep(s: seq<bv8>, gates: seq<bool>, x: nat)
    requires |s| == ShadowCount && x < |gates| == 4
    ensures var i := EnvShadow(x as bv8, 2);
      GatesApplied(s, gates, x + 1) == GatesApplied(s, gates, x)[i := Place(s[i], GateMask, Bit(gates[x], 128))]
      && GatesApplied(s, gates, x)[i] == s[i]
  {
  }

  /** After the four-gate noteOn every envelope has its wanted gate and
      keeps all its other settings. */
  lemma GatesAppliedSetsGates(s: seq<bv8>, gates: seq<bool>, envNum: bv8)
    requires |s| == ShadowCount && |gates| == 4 && envNum <= 3
    ensures EnvelopeOf(GatesApplied(s, gates, 4), envNum) == EnvelopeOf(s, envNum).(gate := gates[envNum])
  {
    var i := EnvShadow(envNum, 0);
    var t := GatesApplied(s, gates, 4);
    assert !GateByteBelow(i, 4) && !GateByteBelow(i + 1, 4) && !GateByteBelow(i + 3, 4);
    assert GateByteBelow(i + 2, 4) && (i + 2 - 8) / 4 == envNum as nat;
    assert t[i] == s[i] && t[i + 1] == s[i + 1] && t[i + 3] == s[i + 3];
    assert t[i + 2] == Place(s[i + 2], GateMask, Bit(gates[envNum], 128));
    QuadAt(t, envNum);
    QuadAt(s, envNum);
    GateOwnsItsField(s[i..i + 4], gates[envNum]);
  }

  /** Asking again for the gates just set sends nothing. */
  lemma {:induction false} GatesAgainSendNothing(link: Link, s: seq<bv8>, gates: seq<bool>, n: nat)
    requires |s| == ShadowCount && n <= |gates| == 4
    ensures GateFrames(link, GatesApplied(s, gates, 4), gates, n) == []
  {
    if n > 0 {
      GatesAgainSendNothing(link, s, gates, n - 1);
      GatesAgainStep(link, s, gates, n);
    }
  }

  lemma GatesAgainStep(link: Link, s: seq<bv8>, gates: seq<bool>, n: nat)
    requires |s| == ShadowCount && 0 < n <= |gates| == 4
    requires GateFrames(link, GatesApplied(s, gates, 4), gates, n - 1) == []
    ensures GateFrames(link, GatesApplied(s, gates, 4), gates, n) == []
  {
    EnvNumberByte(n - 1);
    var i := EnvShadow((n - 1) as bv8, 2);
    assert GateByteBelow(i, 4) && (i - 8) / 4 == n - 1;
    PlacedGateReads(s[i], gates[n - 1]);
  }

  /** An envelope number below 4 survives the round trip through a byte. */
  lemma EnvNumberByte(x: nat)
    requires x < 4
    ensures (x as bv8) as nat == x
  {
    if x == 0 {} else if x == 1 {} else if x == 2 {} else {}
  }

  /** Writing a quad through envelope e's registers puts it in e's four bytes. */
  lemma QuadWritten(s: seq<bv8>, envNum: bv8, q: seq<bv8>)
    requires |s| == ShadowCount && envNum <= 3 && |q| == 4
    ensures var t, i := WriteThrough(s, EnvRegister(envNum, 0) as nat, q), EnvShadow(envNum, 0);
      t[i..i + 4] == q && EnvelopeOf(t, envNum) == UnpackEnvelope(q)
  {
  }

  /** The envelope the timed configureEnvelope asks for: each duration becomes
      a rate setting. */
  function TimedEnvelope(curve: bv8, attackTime: nat, decayTime: nat, sustain: bv8,
                         releaseTime: nat, mixVolume: bv8, gate: bool): (env: Envelope)
    requires attackTime < 0x1_0000 && decayTime < 0x1_0000 && releaseTime < 0x1_0000
  {
    var a, d, r := TimeConvert(attackTime), TimeConvert(decayTime), TimeConvert(releaseTime);
    Envelope(curve, a.range as bv8, d.range as bv8, r.range as bv8, a.value as bv8,
             d.value as bv8, sustain, gate, r.value as bv8, mixVolume)
  }

  /** Every duration gives a valid rate, so the timed configureEnvelope
      rejects only a sustain or mix volume out of range. */
  lemma TimedEnvelopeIsValid(curve: bv8, attackTime: nat, decayTime: nat, sustain: bv8,
                             releaseTime: nat, mixVolume: bv8, gate: bool)
    requires IsCurve(curve)
    requires attackTime < 0x1_0000 && decayTime < 0x1_0000 && releaseTime < 0x1_0000
    ensures var a, d, r := TimeConvert(attackTime), TimeConvert(decayTime), TimeConvert(releaseTime);
      && a.range as bv8 <= 3 && a.value as bv8 <= 15 && d.range as bv8 <= 3 && d.value as bv8 <= 15
      && r.range as bv8 <= 3 && r.value as bv8 <= 15
      && (ValidEnvelope(TimedEnvelope(curve, attackTime, decayTime, sustain, releaseTime, mixVolume, gate))
          <==> sustain <= 127 && mixVolume <= 15)
  {
    var a, d, r := TimeConvert(attackTime), TimeConvert(decayTime), TimeConvert(releaseTime);
    SmallByte(a.range); SmallByte(a.value); SmallByte(d.range);
    SmallByte(d.value); SmallByte(r.range); SmallByte(r.value);
  }

  lemma SmallByte(n: nat)
    requires n <= 15
    ensures n as bv8 <= 15 && (n <= 3 ==> n as bv8 <= 3)
  {
  }

  /** The first free patch slot from `from` on, or 5 when all are taken. */
  function FirstFreeSlot(s: seq<bv8>, from: nat): (slot: nat)
    requires |s| == ShadowCount && from <= 5
    ensures from <= slot <= 5
    ensures slot < 5 ==> SlotFree(s[25 + slot])
    ensures forall i :: 25 + from <= i < 25 + slot ==> !SlotFree(s[i])
    decreases 5 - from
  {
    if from == 5 then 5
    else if SlotFree(s[25 + from]) then from
    else FirstFreeSlot(s, from + 1)
  }

  /** Adding a patch of a real type moves the first free slot past the one
      it took, so five such additions fill the table and the sixth is
      refused; a patch of type none leaves its slot free, so the next
      addition takes the same slot. */
  lemma AddingTakesTheFirstFreeSlot(s: seq<bv8>, p: Patch)
    requires |s| == ShadowCount && ValidPatch(p) && FirstFreeSlot(s, 0) < 5
    ensures var f := FirstFreeSlot(s, 0);
      p.patchType != PatchNone <==> FirstFreeSlot(s[25 + f := PackPatch(p)], 0) > f
    ensures var f := FirstFreeSlot(s, 0);
      p.patchType == PatchNone ==> FirstFreeSlot(s[25 + f := PackPatch(p)], 0) == f
  {
    var f := FirstFreeSlot(s, 0);
    var t := s[25 + f := PackPatch(p)];
    PatchRoundTrip(p, 0);
    assert forall i :: 25 <= i < 25 + f ==> t[i] == s[i] && !SlotFree(t[i]);
  }

  /** Removing a patch frees its slot, so the next addition takes that slot
      or an earlier one. */
  lemma RemovingFreesTheSlot(s: seq<bv8>, slot: nat)
    requires |s| == ShadowCount && slot <= 4
    ensures FirstFreeSlot(s[25 + slot := 0], 0) <= slot
  {
    var t := s[25 + slot := 0];
    assert SlotFree(t[25 + slot]);
  }

  /** The first free slot is n when the n slots before it are taken and
      slot n, if there is one, is free. */
  lemma FirstFreeSlotIs(s: seq<bv8>, n: nat)
    requires |s| == ShadowCount && n <= 5
    requires forall i :: 25 <= i < 25 + n ==> !SlotFree(s[i])
    requires n < 5 ==> SlotFree(s[25 + n])
    ensures FirstFreeSlot(s, 0) == n
  {
  }

  /** On a full table, removing the patch in a slot makes that slot the one
      the next addition takes. */
  lemma RemovingFromAFullTable(s: seq<bv8>, slot: nat)
    requires |s| == ShadowCount && slot <= 4 && FirstFreeSlot(s, 0) == 5
    ensures FirstFreeSlot(s[25 + slot := 0], 0) == slot
  {
    var t := s[25 + slot := 0];
    assert forall i :: 25 <= i < 25 + slot ==> t[i] == s[i];
    FirstFreeSlotIs(t, slot);
  }

  /** The slot table after an addPatch call with valid arguments, as
      AddPatch's postcondition states it. */
  function AfterAdding(s: seq<bv8>, p: Patch): (t: seq<bv8>)
    requires |s| == ShadowCount
    ensures |t| == ShadowCount
  {
    var f := FirstFreeSlot(s, 0);
    if f == 5 then s else s[25 + f := PackPatch(p)]
  }

  /** The slot table after adding the patches of ps in turn. */
  function AfterAddingAll(s: seq<bv8>, ps: seq<Patch>): (t: seq<bv8>)
    requires |s| == ShadowCount
    ensures |t| == ShadowCount
  {
    if ps == [] then s else AfterAdding(AfterAddingAll(s, ps[..|ps| - 1]), ps[|ps| - 1])
  }

  /** One addition to a table whose first n slots are taken and the rest
      free takes slot n and leaves the first n + 1 taken and the rest free. */
  lemma FillStep(u: seq<bv8>, n: nat, p: Patch)
    requires |u| == ShadowCount && n < 5
    requires forall i :: 25 <= i < 25 + n ==> !SlotFree(u[i])
    requires forall i :: 25 + n <= i < ShadowCount ==> SlotFree(u[i])
    requires ValidPatch(p) && p.patchType != PatchNone
    ensures FirstFreeSlot(u, 0) == n
    ensures var t := u[25 + n := PackPatch(p)];
      && (forall i :: 25 <= i < 26 + n ==> !SlotFree(t[i]))
      && (forall i :: 26 + n <= i < ShadowCount ==> SlotFree(t[i]))
  {
    FirstFreeSlotIs(u, n);
    PatchRoundTrip(p, 0);
  }

  /** On a table with every slot free, patches of real types go into slots
      0, 1, 2, 3, 4 in the order they are added: after k additions the first
      k slots hold them and the first free slot is k, so after five the
      table is full and a sixth addition is refused. */
  lemma {:induction false} FillingAnEmptyTable(s: seq<bv8>, ps: seq<Patch>)
    requires |s| == ShadowCount && |ps| <= 5
    requires forall i :: 25 <= i < ShadowCount ==> SlotFree(s[i])
    requires forall k :: 0 <= k < |ps| ==> ValidPatch(ps[k]) && ps[k].patchType != PatchNone
    ensures var t := AfterAddingAll(s, ps);
      && FirstFreeSlot(t, 0) == |ps|
      && (forall k :: 0 <= k < |ps| ==> t[25 + k] == PackPatch(ps[k]))
      && (forall i :: 25 <= i < 25 + |ps| ==> !SlotFree(t[i]))
      && (forall i :: 25 + |ps| <= i < ShadowCount ==> SlotFree(t[i]))
  {
    if ps == [] {
      FirstFreeSlotIs(s, 0);
    } else {
      var n := |ps| - 1;
      FillingAnEmptyTable(s, ps[..n]);
      var u := AfterAddingAll(s, ps[..n]);
      FillStep(u, n, ps[n]);
      var t := u[25 + n := PackPatch(ps[n])];
      assert AfterAddingAll(s, ps) == t by {
        assert ps[..|ps| - 1] == ps[..n] && ps[|ps| - 1] == ps[n];
        assert AfterAdding(u, ps[n]) == t;
      }
      FirstFreeSlotIs(t, n + 1);
      forall k | 0 <= k < |ps|
        ensures t[25 + k] == PackPatch(ps[k])
      {
        if k < n { assert ps[..n][k] == ps[k]; }
      }
    }
  }

  /** The register of patch slot j. */
  function PatchRegister(slot: bv8): (reg: bv8)
    requires slot <= 4
    ensures reg as nat == 50 + 2 * slot as nat
  {
    (slot << 1) + 50
  }

  /** The bytes setRegister writes: its values up to the first negative one,
      each cut to its low byte. */
  function LeadingBytes(vals: seq<int>): (data: seq<bv8>)
    ensures |data| <= |vals|
  {
    if vals == [] || vals[0] < 0 then [] else [LowByte(vals[0])] + LeadingBytes(vals[1..])
  }

  /** The leading bytes are the low bytes of the values before the first
      negative one, and there they stop. */
  lemma {:induction false} LeadingBytesStopAtNegative(vals: seq<int>)
    ensures var data := LeadingBytes(vals);
      && (forall k :: 0 <= k < |data| ==> vals[k] >= 0 && data[k] == LowByte(vals[k]))
      && (|data| < |vals| ==> vals[|data|] < 0)
  {
    if vals != [] && vals[0] >= 0 {
      LeadingBytesStopAtNegative(vals[1..]);
    }
  }

  /** One turn of setRegister's copy loop takes one more leading byte. */
  lemma LeadingLoopStep(vals: seq<int>, count: nat, taken: seq<bv8>, data: seq<bv8>)
    requires count < |vals| && vals[count] >= 0 && taken + LeadingBytes(vals[count..]) == data
    ensures (taken + [LowByte(vals[count])]) + LeadingBytes(vals[count + 1..]) == data
    ensures |taken| < |data|
  {
    LeadingStep(vals, count);
    Assoc(taken, [LowByte(vals[count])], LeadingBytes(vals[count + 1..]));
  }

  /** One turn of setRegister's copy loop stores one more byte at the
      counter's next register. */
  lemma StoreLoopStep(s: seq<bv8>, start: nat, stored: seq<bv8>, b: bv8, total: nat)
    requires |s| == ShadowCount && Writable(start, total) && |stored| < total
    ensures Writable(start, |stored| + 1) && Writable(start, |stored|) && InStore(RegisterAfter(start, |stored|))
    ensures StoreAll(s, start, stored + [b]) == Store(StoreAll(s, start, stored), RegisterAfter(start, |stored|), b)
    ensures RegisterAfter(start, |stored| + 1) == NextRegister(RegisterAfter(start, |stored|))
  {
    WritablePrefix(start, total, |stored| + 1);
    StoreAllAppend(s, start, stored, b);
    RegisterAfterStep(start, |stored|);
  }

  lemma LeadingStep(vals: seq<int>, count: nat)
    requires count < |vals| && vals[count] >= 0
    ensures LeadingBytes(vals[count..]) == [LowByte(vals[count])] + LeadingBytes(vals[count + 1..])
  {
    assert vals[count..][0] == vals[count] && vals[count..][1..] == vals[count + 1..];
  }

  /** The conversion of a non-negative int to a byte: its value modulo 256. */
  function LowByte(x: int): (b: bv8)
    requires x >= 0
  {
    (x % 256) as bv8
  }

  /** addSpeechPhonemes with length 0 sends an empty list exactly when the
      first byte is the terminator, and that write is the same one
      clearSpeechBuffer makes. */
  lemma EmptyPhonemeListClearsTheBuffer(link: Link, phonemes: seq<bv8>)
    requires ScanReadable(phonemes)
    ensures |phonemes| > 0
    ensures TerminatedLength(phonemes, 0) == 0 <==> phonemes[0] == Terminator
    ensures phonemes[0] == Terminator ==>
      Frame(link, 60, phonemes[..TerminatedLength(phonemes, 0)]) == Frame(link, 60, [])
  {
  }

  // ---------------------------------------------------------------------------
  // What prepareSpeechMode leaves behind (BuzzKill.cpp:248-261).

  /** The oscillator control byte prepareSpeechMode gives a shape: default
      midpoint 128, no inversion, no reversal, step 0. */
  function SpeechControl(shape: bv8): OscControl
  {
    OscControl(shape, false, false, 0)
  }

  /** The write of configureOscillator with the optional arguments left at
      their defaults. */
  function SpeechOscWrite(oscType: OscType, oscNum: bv8, frequency16: nat, shape: bv8): Write
    requires oscNum <= 3 && frequency16 < 0x1_0000
  {
    Write(OscRegister(oscType, oscNum, 0), FrequencyBytes(frequency16) + [128, PackOsc(SpeechControl(shape))])
  }

  /** The oscillator writes: three silent sines and a silent noise on the
      voice oscillators, then a hilltop at the pitch on modulation oscillator
      0, which configureOscillator ignores when the pitch is out of range. */
  function SpeechOscWrites(pitch16: nat): seq<Write>
  {
    SpeechVoiceWrites() + (if pitch16 < 0x1_0000 then [SpeechOscWrite(Mod, 0, pitch16, ShapeHilltop)] else [])
  }

  function SpeechVoiceWrites(): seq<Write>
  {
    [SpeechOscWrite(Voice, 0, 0, ShapeSine)] + [SpeechOscWrite(Voice, 1, 0, ShapeSine)]
    + [SpeechOscWrite(Voice, 2, 0, ShapeSine)] + [SpeechOscWrite(Voice, 3, 0, ShapeNoise)]
  }

  function SpeechOscShadows(s: seq<bv8>, pitch16: nat): (r: seq<bv8>)
    requires |s| == ShadowCount
    ensures |r| == ShadowCount
  {
    var voices := SpeechVoiceShadows(s);
    if pitch16 < 0x1_0000 then voices[0 := PackOsc(SpeechControl(ShapeHilltop))] else voices
  }

  function SpeechVoiceShadows(s: seq<bv8>): (r: seq<bv8>)
    requires |s| == ShadowCount
    ensures |r| == ShadowCount
  {
    s[4 := PackOsc(SpeechControl(ShapeSine))][5 := PackOsc(SpeechControl(ShapeSine))]
     [6 := PackOsc(SpeechControl(ShapeSine))][7 := PackOsc(SpeechControl(ShapeNoise))]
  }

  /** The mix-volume writes: 5, 5, 5 and 3 into the fourth byte of each
      envelope. */
  function SpeechMixShadows(s: seq<bv8>): (r: seq<bv8>)
    requires |s| == ShadowCount
    ensures |r| == ShadowCount
  {
    s[11 := Place(s[11], HighNibble, 0x50)][15 := Place(s[15], HighNibble, 0x50)]
     [19 := Place(s[19], HighNibble, 0x50)][23 := Place(s[23], HighNibble, 0x30)]
  }

  /** The write of setMixVolume(e, volume) from shadow bytes s. */
  function SpeechMixWrite(s: seq<bv8>, envNum: bv8, volume: bv8): Write
    requires |s| == ShadowCount && envNum <= 3
  {
    Write(EnvRegister(envNum, 3), [Place(s[EnvShadow(envNum, 3)], HighNibble, volume << 4)])
  }

  /** The four mix-volume calls one after another: each write reads only its
      own envelope's byte, which the calls before it leave alone, so together
      they make SpeechMixWrites and SpeechMixShadows. */
  lemma SpeechMixSteps(s0: seq<bv8>, s1: seq<bv8>, s2: seq<bv8>, s3: seq<bv8>)
    requires |s0| == ShadowCount
    requires s1 == s0[11 := Place(s0[11], HighNibble, 5 << 4)]
    requires s2 == s1[15 := Place(s1[15], HighNibble, 5 << 4)]
    requires s3 == s2[19 := Place(s2[19], HighNibble, 5 << 4)]
    ensures [SpeechMixWrite(s0, 0, 5)] + [SpeechMixWrite(s1, 1, 5)] + [SpeechMixWrite(s2, 2, 5)] + [SpeechMixWrite(s3, 3, 3)]
      == SpeechMixWrites(s0)
    ensures s3[23 := Place(s3[23], HighNibble, 3 << 4)] == SpeechMixShadows(s0)
  {
    assert s1[15] == s0[15] && s2[19] == s0[19] && s3[23] == s0[23];
  }

  function SpeechMixWrites(s: seq<bv8>): seq<Write>
    requires |s| == ShadowCount
  {
    [SpeechMixWrite(s, 0, 5)] + [SpeechMixWrite(s, 1, 5)] + [SpeechMixWrite(s, 2, 5)] + [SpeechMixWrite(s, 3, 3)]
  }

  /** The shadow bytes after prepareSpeechMode: the oscillator and mix writes,
      the patch table reset, the pitch patch in slot 0 (when its type is one
      addPatch accepts), and the four enable bits set. */
  function SpeechModeShadows(s: seq<bv8>, pitch16: nat, patchType: bv8): (r: seq<bv8>)
    requires |s| == ShadowCount
    ensures |r| == ShadowCount
  {
    var patched := SpeechPatchShadows(SpeechSoundShadows(s, pitch16), patchType);
    patched[24 := Place(patched[24], LowNibble, 15)]
  }

  /** The patch table reset, then the pitch patch in slot 0 when its type is
      one addPatch accepts. */
  function SpeechPatchShadows(s: seq<bv8>, patchType: bv8): (r: seq<bv8>)
    requires |s| == ShadowCount
    ensures |r| == ShadowCount
  {
    var cleared := ResetFrom(s, 50);
    if patchType <= 15 then cleared[25 := PackPatch(Patch(0, 0, patchType))] else cleared
  }

  /** After prepareSpeechMode the voice oscillators hold three sines and a
      noise and modulation oscillator 0 a hilltop (when the pitch was in
      range), all at the default control settings; the other modulation
      oscillators are kept. */
  lemma SpeechModeOscillators(s: seq<bv8>, pitch16: nat, patchType: bv8)
    requires |s| == ShadowCount
    ensures var r := SpeechModeShadows(s, pitch16, patchType);
      && (forall i :: 4 <= i < 7 ==> UnpackOsc(r[i]) == SpeechControl(ShapeSine))
      && UnpackOsc(r[7]) == SpeechControl(ShapeNoise)
      && (pitch16 < 0x1_0000 ==> UnpackOsc(r[0]) == SpeechControl(ShapeHilltop))
      && (pitch16 >= 0x1_0000 ==> r[0] == s[0])
      && r[1] == s[1] && r[2] == s[2] && r[3] == s[3]
  {
    OscRoundTrip(SpeechControl(ShapeSine), 0);
    OscRoundTrip(SpeechControl(ShapeNoise), 0);
    OscRoundTrip(SpeechControl(ShapeHilltop), 0);
  }

  /** After prepareSpeechMode the mix volumes are 5, 5, 5 and 3, and every
      other envelope setting is kept. */
  lemma SpeechModeEnvelopes(s: seq<bv8>, pitch16: nat, patchType: bv8, envNum: bv8)
    requires |s| == ShadowCount && envNum <= 3
    ensures EnvelopeOf(SpeechModeShadows(s, pitch16, patchType), envNum)
         == EnvelopeOf(s, envNum).(mixVolume := if envNum == 3 then 3 else 5)
  {
    var volume: bv8 := if envNum == 3 then 3 else 5;
    EnvNumberNat(envNum);
    SpeechModeQuad(s, pitch16, patchType, envNum as nat, volume);
    MixVolumeSet(SpeechModeShadows(s, pitch16, patchType), s, envNum, volume);
  }

  /** An envelope number as a number: at most 3, and 3 exactly when it is 3. */
  lemma EnvNumberNat(envNum: bv8)
    requires envNum <= 3
    ensures envNum as nat <= 3 && (envNum == 3 <==> envNum as nat == 3)
  {
    if envNum == 0 {} else if envNum == 1 {} else if envNum == 2 {} else {}
  }

  /** Shadow bytes r whose quad for envelope e is s's with a new mix volume
      hold s's envelope e with that mix volume. */
  lemma MixVolumeSet(r: seq<bv8>, s: seq<bv8>, envNum: bv8, volume: bv8)
    requires |r| == |s| == ShadowCount && envNum <= 3 && volume <= 15
    requires var i := 8 + 4 * envNum as nat;
      r[i..i + 4] == Quad(s[i], s[i + 1], s[i + 2], Place(s[i + 3], HighNibble, volume << 4))
    ensures EnvelopeOf(r, envNum) == EnvelopeOf(s, envNum).(mixVolume := volume)
  {
    var i := EnvShadow(envNum, 0);
    QuadAt(s, envNum);
    MixVolumeOwnsItsField(s[i..i + 4], volume);
  }

  lemma SpeechModeQuad(s: seq<bv8>, pitch16: nat, patchType: bv8, e: nat, volume: bv8)
    requires |s| == ShadowCount && e <= 3 && volume == if e == 3 then 3 else 5
    ensures var i := 8 + 4 * e;
      SpeechModeShadows(s, pitch16, patchType)[i..i + 4]
      == Quad(s[i], s[i + 1], s[i + 2], Place(s[i + 3], HighNibble, volume << 4))
  {
    var i := 8 + 4 * e;
    SpeechModeKeepsByte(s, pitch16, patchType, e, 0);
    SpeechModeKeepsByte(s, pitch16, patchType, e, 1);
    SpeechModeKeepsByte(s, pitch16, patchType, e, 2);
    SpeechModeMixByte(s, pitch16, patchType, e, volume);
    QuadFrom(SpeechModeShadows(s, pitch16, patchType), i, s[i], s[i + 1], s[i + 2],
             Place(s[i + 3], HighNibble, volume << 4));
  }

  /** prepareSpeechMode keeps the first three bytes of each envelope quad. */
  lemma SpeechModeKeepsByte(s: seq<bv8>, pitch16: nat, patchType: bv8, e: nat, j: nat)
    requires |s| == ShadowCount && e <= 3 && j < 3
    ensures SpeechModeShadows(s, pitch16, patchType)[8 + 4 * e + j] == s[8 + 4 * e + j]
  {
    var k := 8 + 4 * e + j;
    var o := SpeechOscShadows(s, pitch16);
    assert o[k] == s[k];
    var m := SpeechMixShadows(o);
    assert ResetFrom(m, 50)[k] == m[k];
  }

  /** prepareSpeechMode sets the mix volume nibble of each envelope's fourth
      byte. */
  lemma SpeechModeMixByte(s: seq<bv8>, pitch16: nat, patchType: bv8, e: nat, volume: bv8)
    requires |s| == ShadowCount && e <= 3 && volume == if e == 3 then 3 else 5
    ensures SpeechModeShadows(s, pitch16, patchType)[11 + 4 * e] == Place(s[11 + 4 * e], HighNibble, volume << 4)
  {
    var k := 11 + 4 * e;
    var o := SpeechOscShadows(s, pitch16);
    assert o[k] == s[k];
    var m := SpeechMixShadows(o);
    assert volume << 4 == if e == 3 then 0x30 else 0x50;
    assert ResetFrom(m, 50)[k] == m[k];
  }

  lemma QuadFrom(r: seq<bv8>, i: nat, b0: bv8, b1: bv8, b2: bv8, b3: bv8)
    requires i + 4 <= |r| && r[i] == b0 && r[i + 1] == b1 && r[i + 2] == b2 && r[i + 3] == b3
    ensures r[i..i + 4] == Quad(b0, b1, b2, b3)
  {
  }

  /** After prepareSpeechMode slot 0 routes modulation oscillator 0 to voice 0
      with the given patch type (when addPatch accepts it) and every other
      slot is empty. */
  lemma SpeechModePatches(s: seq<bv8>, pitch16: nat, patchType: bv8)
    requires |s| == ShadowCount
    ensures var r := SpeechModeShadows(s, pitch16, patchType);
      && (patchType <= 15 ==> UnpackPatch(r[25]) == Patch(0, 0, patchType))
      && (patchType > 15 ==> r[25] == 0)
      && (forall i :: 26 <= i < ShadowCount ==> r[i] == 0)
  {
    PatchRoundTrip(Patch(0, 0, patchType), 0);
  }

  /** After prepareSpeechMode all four voices are enabled and the master
      volume is kept. */
  lemma SpeechModeVoices(s: seq<bv8>, pitch16: nat, patchType: bv8)
    requires |s| == ShadowCount
    ensures var r := SpeechModeShadows(s, pitch16, patchType);
      && (forall w: bv8 :: w <= 3 ==> VoiceEnabled(r[24], w))
      && MasterVolume(r[24]) == MasterVolume(s[24])
  {
    var r := SpeechModeShadows(s, pitch16, patchType);
    assert r[24] == Place(s[24], LowNibble, 15);
    forall w: bv8 | w <= 3
      ensures VoiceEnabled(r[24], w)
    {
      VoiceMaskOwnsLowNibble(s[24], w, 15);
      assert VoiceEnabled(15, w) by {
        assert VoiceMask([true, true, true, true]) == 15;
      }
    }
    VoiceMaskOwnsLowNibble(s[24], 0, 15);
  }

  // ---------------------------------------------------------------------------
  // Board control (BuzzKill.cpp:333-356).

  /** The wake pulse: over SPI the select line low for 1 ms; over I2C a
      transmission of the byte 255; with no bus, nothing. */
  function WakeEvents(link: Link): seq<Event>
  {
    if link.spi then [SelectLow(link.spiPin), Pause(1), SelectHigh(link.spiPin)]
    else if link.i2c then [I2cBegin(link.i2cAddr), I2cByte(255), I2cEnd(true)]
    else []
  }

  /** Over I2C the wake pulse is one stopped transmission of the byte 255 to
      the board's address, and over SPI it carries no clocked byte at all. */
  lemma WakeTransmission(link: Link)
    ensures !link.spi && link.i2c ==>
      Transmissions(WakeEvents(link), Idle) == [Transmission(link.i2cAddr, [255], true)]
    ensures link.spi ==> forall e :: e in WakeEvents(link) ==> e.SelectLow? || e.SelectHigh? || e.Pause?
  {
    if !link.spi && link.i2c {
      var evs := WakeEvents(link);
      var a := link.i2cAddr;
      assert evs[1..] == [I2cByte(255), I2cEnd(true)];
      assert evs[1..][1..] == [I2cEnd(true)];
      assert Transmissions([I2cEnd(true)], Receiving(a, [255])) == [Transmission(a, [255], true)] by {
        assert [I2cEnd(true)][1..] == [];
      }
      assert Accept(Receiving(a, []), [255]) == Receiving(a, [255]) by {
        assert [] + [255 as bv8] == [255];
      }
      assert Transmissions(evs[1..], Receiving(a, [])) == Transmissions(evs[1..][1..], Receiving(a, [255]));
    }
  }

  /** The payload of an address change: the address and its two check bytes. */
  function AddressPayload(addr: bv8): (p: seq<bv8>)
    ensures |p| == 3 && p[0] == addr
  {
    [addr, addr ^ 0x55, addr ^ 0xAA]
  }

  /** The check bytes let the board tell an intended address change from
      noise: a three-byte payload has valid check bytes exactly when it is the
      payload of its first byte, and the two check bytes are complements. */
  lemma AddressPayloadCheck(p: seq<bv8>)
    requires |p| == 3
    ensures p == AddressPayload(p[0]) <==> (p[1] ^ p[0] == 0x55 && p[2] ^ p[0] == 0xAA)
    ensures p == AddressPayload(p[0]) ==> p[1] ^ p[2] == 0xFF
  {
    if p[1] ^ p[0] == 0x55 && p[2] ^ p[0] == 0xAA {
      assert p[1] == p[0] ^ 0x55 && p[2] == p[0] ^ 0xAA;
      assert p == [p[0], p[0] ^ 0x55, p[0] ^ 0xAA];
    }
  }

  /** The writes of clearPatches and of addPatch(0, 0, patchType, 255) on a
      cleared table; addPatch sends nothing for a type above 15. */
  function SpeechPatchTableWrites(patchType: bv8): seq<Write>
  {
    [Write(50, [])] + (if patchType <= 15 then [Write(PatchRegister(0), [PackPatch(Patch(0, 0, patchType)), 255])] else [])
  }

  /** The write of enableVoice for all four voices, from mixer byte `mixer`. */
  function SpeechVoicesWrite(mixer: bv8): Write
  {
    Write(48, [Place(mixer, LowNibble, 15)])
  }

  /** The writes of the last three calls of prepareSpeechMode, given the
      mixer byte they start from. */
  function SpeechPatchWrites(mixer: bv8, patchType: bv8): seq<Write>
  {
    SpeechPatchTableWrites(patchType) + [SpeechVoicesWrite(mixer)]
  }

  /** The oscillator and mix-volume calls leave the mixer byte alone. */
  lemma SpeechSoundKeepsMixer(s: seq<bv8>, pitch16: nat)
    requires |s| == ShadowCount
    ensures SpeechSoundShadows(s, pitch16)[24] == s[24]
  {
    assert SpeechOscShadows(s, pitch16)[24] == s[24];
  }

  /** The writes of prepareSpeechMode, in its order. */
  function SpeechModeWrites(s: seq<bv8>, pitch16: nat, patchType: bv8): seq<Write>
    requires |s| == ShadowCount
  {
    SpeechSoundWrites(s, pitch16) + SpeechPatchWrites(s[24], patchType)
  }

  /** The oscillator and mix-volume writes of prepareSpeechMode. */
  function SpeechSoundWrites(s: seq<bv8>, pitch16: nat): seq<Write>
    requires |s| == ShadowCount
  {
    SpeechOscWrites(pitch16) + SpeechMixWrites(SpeechOscShadows(s, pitch16))
  }

  function SpeechSoundShadows(s: seq<bv8>, pitch16: nat): (r: seq<bv8>)
    requires |s| == ShadowCount
    ensures |r| == ShadowCount
  {
    SpeechMixShadows(SpeechOscShadows(s, pitch16))
  }

  /** One turn of the tokenizing loop keeps its invariant: the codes so far
      followed by the codes still to come are all the codes. */
  lemma TagStep(s: string, p: nat, left: nat, done: seq<bv8>, all: seq<bv8>, code: bv8)
    requires TagsReadable(s, p, left + 1) && done + TagPhonemes(s, p, left + 1) == all
    requires code == PhonemeCode(At(s, SkipSpaces(s, p)), At(s, SkipSpaces(s, p) + 1))
    ensures SkipSpaces(s, p) + 2 <= |s| + 1
    ensures TagsReadable(s, SkipSpaces(s, p) + 2, left)
    ensures (done + [code]) + TagPhonemes(s, SkipSpaces(s, p) + 2, left) == all
  {
    var q := SkipSpaces(s, p);
    TagPhonemesFirst(s, p, left);
    Assoc(done, [code], TagPhonemes(s, q + 2, left));
  }
}
