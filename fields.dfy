/** The bit layouts of the shadowed registers and the masked writes the
    setters perform on them (src/BuzzKill.cpp:29-169, 179-194, 271-291). */
module Fields {
  import opened Constants

  /** The masked read-modify-write every setter performs: the bits outside
      `mask` are kept from `b` and `v` is or-ed in. When `v` fits the mask, the
      masked bits become `v` and no other bit changes; `v` itself is not masked,
      exactly as in the driver. */
  function Place(b: bv8, mask: bv8, v: bv8): (r: bv8)
    ensures v & !mask == 0 ==> r & mask == v && r & !mask == b & !mask
    ensures r & v == v
  {
    (b & !mask) | v
  }

  function Bit(on: bool, bit: bv8): bv8
  {
    if on then bit else 0
  }

  // ---------------------------------------------------------------------------
  // Oscillator control byte: shape in bits 5-7, reverse bit 4, invert bit 3,
  // step in bits 0-2 (BuzzKill.cpp:32-53, 60).

  const ShapeMask: bv8 := 0xE0
  const ReverseMask: bv8 := 0x10
  const InvertMask: bv8 := 0x08
  const StepMask: bv8 := 0x07

  datatype OscControl = OscControl(shape: bv8, reverse: bool, invert: bool, step: bv8)

  predicate ValidOscControl(c: OscControl)
  {
    IsShape(c.shape) && c.step <= 7
  }

  /** The byte configureOscillator stores and sends (BuzzKill.cpp:60). */
  function PackOsc(c: OscControl): bv8
  {
    c.shape | Bit(c.reverse, 16) | Bit(c.invert, 8) | c.step
  }

  function UnpackOsc(b: bv8): (c: OscControl)
    ensures ValidOscControl(c)
  {
    OscControl(b & ShapeMask, b & ReverseMask != 0, b & InvertMask != 0, b & StepMask)
  }

  /** Packing and unpacking the oscillator byte are inverse bijections. */
  lemma OscRoundTrip(c: OscControl, b: bv8)
    ensures ValidOscControl(c) ==> UnpackOsc(PackOsc(c)) == c
    ensures PackOsc(UnpackOsc(b)) == b
  {
    ShapesAreTopThreeBits(c.shape);
    ShapesAreTopThreeBits(b & ShapeMask);
  }

  /** setShape, setReverse, setInvert and setStep each change only their own
      field of the control byte (BuzzKill.cpp:32, 39, 46, 53); setStep only
      while the step is in 0..7, since the driver does not check it. */
  lemma OscSettersOwnTheirField(b: bv8, shape: bv8, flag: bool, step: bv8)
    requires IsShape(shape)
    ensures UnpackOsc(Place(b, ShapeMask, shape)) == UnpackOsc(b).(shape := shape)
    ensures UnpackOsc(Place(b, ReverseMask, Bit(flag, 16))) == UnpackOsc(b).(reverse := flag)
    ensures UnpackOsc(Place(b, InvertMask, Bit(flag, 8))) == UnpackOsc(b).(invert := flag)
    ensures step <= 7 ==> UnpackOsc(Place(b, StepMask, step)) == UnpackOsc(b).(step := step)
  {
    ShapesAreTopThreeBits(shape);
  }

  /** The driver's setStep writes `(b & ~7) | step`: a step of 8 or more also
      sets bits the step does not own, so setStep(.., 8) turns the invert flag on. */
  lemma UncheckedStepSetsInvert(b: bv8)
    ensures UnpackOsc(Place(b, StepMask, 8)).invert
    ensures UnpackOsc(Place(b, StepMask, 8)).step == 0
  {
  }

  // ---------------------------------------------------------------------------
  // Envelope quad, shadow bytes 8+4e .. 11+4e (BuzzKill.cpp:73-169):
  //   byte 0: curve bits 6-7, release range 4-5, decay range 2-3, attack range 0-1
  //   byte 1: decay value high nibble, attack value low nibble
  //   byte 2: gate bit 7, sustain bits 0-6
  //   byte 3: mix volume high nibble, release value low nibble

  const CurveMask: bv8 := 0xC0
  const ReleaseRangeMask: bv8 := 0x30
  const DecayRangeMask: bv8 := 0x0C
  const AttackRangeMask: bv8 := 0x03
  const LowNibble: bv8 := 0x0F
  const HighNibble: bv8 := 0xF0
  const GateMask: bv8 := 0x80
  const SustainMask: bv8 := 0x7F

  datatype Envelope = Envelope(
    curve: bv8, attackRange: bv8, decayRange: bv8, releaseRange: bv8,
    attackValue: bv8, decayValue: bv8, sustain: bv8, gate: bool,
    releaseValue: bv8, mixVolume: bv8)

  predicate ValidEnvelope(e: Envelope)
  {
    IsCurve(e.curve) && e.attackRange <= 3 && e.decayRange <= 3 && e.releaseRange <= 3 &&
    e.attackValue <= 15 && e.decayValue <= 15 && e.sustain <= 127 &&
    e.releaseValue <= 15 && e.mixVolume <= 15
  }

  /** The four bytes configureEnvelope stores and sends (BuzzKill.cpp:166). */
  function PackEnvelope(e: Envelope): (q: seq<bv8>)
    ensures |q| == 4
  {
    [ e.curve | (e.releaseRange << 4) | (e.decayRange << 2) | e.attackRange,
      (e.decayValue << 4) | e.attackValue,
      Bit(e.gate, 128) | e.sustain,
      (e.mixVolume << 4) | e.releaseValue ]
  }

  function UnpackEnvelope(q: seq<bv8>): (e: Envelope)
    requires |q| == 4
    ensures ValidEnvelope(e)
  {
    Envelope(
      q[0] & CurveMask, q[0] & AttackRangeMask, (q[0] >> 2) & 3, (q[0] >> 4) & 3,
      q[1] & LowNibble, q[1] >> 4, q[2] & SustainMask, q[2] & GateMask != 0,
      q[3] & LowNibble, q[3] >> 4)
  }

  /** Every field of the quad has its own bits: packing a valid envelope and
      unpacking it gives it back. */
  lemma EnvelopeUnpackPack(e: Envelope)
    requires ValidEnvelope(e)
    ensures UnpackEnvelope(PackEnvelope(e)) == e
  {
    CurvesAreTopTwoBits(e.curve);
    RangesByteFields(e.curve, e.releaseRange, e.decayRange, e.attackRange);
    NibblePairFields(e.decayValue, e.attackValue);
    NibblePairFields(e.mixVolume, e.releaseValue);
  }

  lemma RangesByteFields(c: bv8, r: bv8, d: bv8, a: bv8)
    requires c & 0x3F == 0 && r <= 3 && d <= 3 && a <= 3
    ensures var x := c | (r << 4) | (d << 2) | a;
      x & CurveMask == c && x & AttackRangeMask == a && (x >> 2) & 3 == d && (x >> 4) & 3 == r
  {
  }

  lemma NibblePairFields(hi: bv8, lo: bv8)
    requires hi <= 15 && lo <= 15
    ensures ((hi << 4) | lo) & LowNibble == lo && ((hi << 4) | lo) >> 4 == hi
  {
  }

  /** Every four bytes are the packing of the envelope they unpack to. */
  lemma EnvelopePackUnpack(q: seq<bv8>)
    requires |q| == 4
    ensures PackEnvelope(UnpackEnvelope(q)) == q
  {
    var e := UnpackEnvelope(q);
    var p := PackEnvelope(e);
    assert p[0] == q[0] by {
      assert p[0] == (q[0] & CurveMask) | (((q[0] >> 4) & 3) << 4) | (((q[0] >> 2) & 3) << 2) | (q[0] & AttackRangeMask);
    }
    assert p[1] == q[1];
    assert p[2] == q[2];
    assert p[3] == q[3];
  }

  /** Worked example: a linear envelope with attack range 1, decay range 2,
      release range 0, attack 5, decay 3, sustain 64, gate on, release 2 and
      mix volume 8 packs to 09 35 C0 82. */
  lemma EnvelopeExample()
    ensures PackEnvelope(Envelope(CurveLinear, 1, 2, 0, 5, 3, 64, true, 2, 8)) == [0x09, 0x35, 0xC0, 0x82]
    ensures UnpackEnvelope([0x09, 0x35, 0xC0, 0x82]) == Envelope(CurveLinear, 1, 2, 0, 5, 3, 64, true, 2, 8)
  {
  }

  /** The quad written at shadow bytes 0..3 of one envelope, with `b0`..`b3` in place. */
  function Quad(b0: bv8, b1: bv8, b2: bv8, b3: bv8): seq<bv8>
  {
    [b0, b1, b2, b3]
  }

  // Each envelope setter's masked writes change exactly the fields it names.

  /** setCurve (BuzzKill.cpp:76). */
  lemma CurveOwnsItsField(q: seq<bv8>, curve: bv8)
    requires |q| == 4 && IsCurve(curve)
    ensures UnpackEnvelope(Quad(Place(q[0], CurveMask, curve), q[1], q[2], q[3]))
         == UnpackEnvelope(q).(curve := curve)
  {
    CurvesAreTopTwoBits(curve);
  }

  /** setAttack (BuzzKill.cpp:83-84). */
  lemma AttackOwnsItsFields(q: seq<bv8>, range: bv8, value: bv8)
    requires |q| == 4 && range <= 3 && value <= 15
    ensures UnpackEnvelope(Quad(Place(q[0], AttackRangeMask, range), Place(q[1], LowNibble, value), q[2], q[3]))
         == UnpackEnvelope(q).(attackRange := range, attackValue := value)
  {
  }

  /** setDecay (BuzzKill.cpp:97-98). */
  lemma DecayOwnsItsFields(q: seq<bv8>, range: bv8, value: bv8)
    requires |q| == 4 && range <= 3 && value <= 15
    ensures UnpackEnvelope(Quad(Place(q[0], DecayRangeMask, range << 2), Place(q[1], HighNibble, value << 4), q[2], q[3]))
         == UnpackEnvelope(q).(decayRange := range, decayValue := value)
  {
  }

  /** setSustain (BuzzKill.cpp:111). */
  lemma SustainOwnsItsField(q: seq<bv8>, sustain: bv8)
    requires |q| == 4 && sustain <= 127
    ensures UnpackEnvelope(Quad(q[0], q[1], Place(q[2], SustainMask, sustain), q[3]))
         == UnpackEnvelope(q).(sustain := sustain)
  {
  }

  /** setRelease (BuzzKill.cpp:118-119). */
  lemma ReleaseOwnsItsFields(q: seq<bv8>, range: bv8, value: bv8)
    requires |q| == 4 && range <= 3 && value <= 15
    ensures UnpackEnvelope(Quad(Place(q[0], ReleaseRangeMask, range << 4), q[1], q[2], Place(q[3], LowNibble, value)))
         == UnpackEnvelope(q).(releaseRange := range, releaseValue := value)
  {
  }

  /** setMixVolume (BuzzKill.cpp:133). */
  lemma MixVolumeOwnsItsField(q: seq<bv8>, volume: bv8)
    requires |q| == 4 && volume <= 15
    ensures UnpackEnvelope(Quad(q[0], q[1], q[2], Place(q[3], HighNibble, volume << 4)))
         == UnpackEnvelope(q).(mixVolume := volume)
  {
  }

  /** noteOn / noteOff (BuzzKill.cpp:140, 149-155). The four-gate noteOn's
      tests: it sets bit 7 of a byte below 128 and clears it in a byte above
      127, which is exactly when the gate differs from the stored one; a byte
      it does not touch already holds its gate. */
  lemma GateTurn(b: bv8, gate: bool)
    ensures (gate && b < 128) || (!gate && b > 127) <==> gate != (b & GateMask != 0)
    ensures gate && b < 128 ==> b | 128 == Place(b, GateMask, Bit(gate, 128))
    ensures !gate && b > 127 ==> b & !128 == Place(b, GateMask, Bit(gate, 128))
    ensures gate == (b & GateMask != 0) ==> Place(b, GateMask, Bit(gate, 128)) == b
  {
  }

  /** The gate bit placed in a byte reads back. */
  lemma PlacedGateReads(b: bv8, gate: bool)
    ensures (Place(b, GateMask, Bit(gate, 128)) & GateMask != 0) == gate
  {
  }

  lemma GateOwnsItsField(q: seq<bv8>, gate: bool)
    requires |q| == 4
    ensures UnpackEnvelope(Quad(q[0], q[1], Place(q[2], GateMask, Bit(gate, 128)), q[3]))
         == UnpackEnvelope(q).(gate := gate)
  {
  }

  // ---------------------------------------------------------------------------
  // Mixer byte, shadow 24: master volume in the high nibble, the enable bit of
  // voice v in bit v (BuzzKill.cpp:271-291).

  function VoiceBit(v: bv8): (m: bv8)
    requires v <= 3
    ensures m & HighNibble == 0 && m != 0
  {
    (1 as bv8) << v
  }

  function VoiceEnabled(b: bv8, v: bv8): bool
    requires v <= 3
  {
    b & VoiceBit(v) != 0
  }

  function MasterVolume(b: bv8): bv8
  {
    b >> 4
  }

  /** enableVoice(v, e) changes voice v's bit alone (BuzzKill.cpp:273). */
  lemma EnableVoiceOwnsItsBit(b: bv8, v: bv8, w: bv8, on: bool)
    requires v <= 3 && w <= 3
    ensures VoiceEnabled(Place(b, VoiceBit(v), Bit(on, VoiceBit(v))), v) == on
    ensures w != v ==> VoiceEnabled(Place(b, VoiceBit(v), Bit(on, VoiceBit(v))), w) == VoiceEnabled(b, w)
    ensures MasterVolume(Place(b, VoiceBit(v), Bit(on, VoiceBit(v)))) == MasterVolume(b)
  {
  }

  /** Setting a bit with `|` or clearing it with `& ~bit`, as enableVoice
      does to the mixer byte: the same as placing the bit's new value. */
  function Switch(b: bv8, bit: bv8, on: bool): (r: bv8)
    ensures r == Place(b, bit, Bit(on, bit))
  {
    if on then b | bit else b & !bit
  }

  /** The four-flag enableVoice's mask: flag v in bit v, nothing above. */
  function VoiceMask(flags: seq<bool>): (m: bv8)
    requires |flags| == 4
    ensures m <= 15
    ensures forall v: bv8 :: v <= 3 ==> VoiceEnabled(m, v) == flags[v]
  {
    Bit(flags[3], 8) | Bit(flags[2], 4) | Bit(flags[1], 2) | Bit(flags[0], 1)
  }

  /** enableVoice(v, on) for every other voice at once. */
  lemma VoiceSwitch(b: bv8, v: bv8, on: bool)
    requires v <= 3
    ensures VoiceEnabled(Place(b, VoiceBit(v), Bit(on, VoiceBit(v))), v) == on
    ensures forall w: bv8 :: w <= 3 && w != v ==>
      VoiceEnabled(Place(b, VoiceBit(v), Bit(on, VoiceBit(v))), w) == VoiceEnabled(b, w)
    ensures MasterVolume(Place(b, VoiceBit(v), Bit(on, VoiceBit(v)))) == MasterVolume(b)
  {
    forall w: bv8 | w <= 3
      ensures w != v ==> VoiceEnabled(Place(b, VoiceBit(v), Bit(on, VoiceBit(v))), w) == VoiceEnabled(b, w)
    {
      EnableVoiceOwnsItsBit(b, v, w, on);
    }
    EnableVoiceOwnsItsBit(b, v, v, on);
  }

  /** setMasterVolume changes the high nibble alone (BuzzKill.cpp:289). */
  lemma MasterVolumeOwnsItsField(b: bv8, w: bv8, volume: bv8)
    requires w <= 3 && volume <= 15
    ensures MasterVolume(Place(b, HighNibble, volume << 4)) == volume
    ensures VoiceEnabled(Place(b, HighNibble, volume << 4), w) == VoiceEnabled(b, w)
  {
  }

  /** The four-flag enableVoice replaces the low nibble alone (BuzzKill.cpp:278-279). */
  lemma VoiceMaskOwnsLowNibble(b: bv8, w: bv8, mask: bv8)
    requires w <= 3 && mask <= 15
    ensures MasterVolume(Place(b, LowNibble, mask)) == MasterVolume(b)
    ensures VoiceEnabled(Place(b, LowNibble, mask), w) == VoiceEnabled(mask, w)
  {
  }

  // ---------------------------------------------------------------------------
  // Patch slot byte, shadow 25+i: destination voice bits 6-7, source modulator
  // bits 4-5, patch type bits 0-3; type 0 (NONE) marks the slot free
  // (BuzzKill.cpp:182-184).

  datatype Patch = Patch(destVoice: bv8, srcMod: bv8, patchType: bv8)

  predicate ValidPatch(p: Patch)
  {
    p.destVoice <= 3 && p.srcMod <= 3 && p.patchType <= 15
  }

  function PackPatch(p: Patch): bv8
  {
    (p.destVoice << 6) | (p.srcMod << 4) | p.patchType
  }

  function UnpackPatch(b: bv8): (p: Patch)
    ensures ValidPatch(p)
  {
    Patch(b >> 6, (b >> 4) & 3, b & LowNibble)
  }

  predicate SlotFree(b: bv8)
  {
    b & LowNibble == 0
  }

  /** The slot byte is a bijective packing, and a packed patch leaves its slot
      free exactly when its type is NONE. */
  lemma PatchRoundTrip(p: Patch, b: bv8)
    ensures ValidPatch(p) ==> UnpackPatch(PackPatch(p)) == p
    ensures ValidPatch(p) ==> (SlotFree(PackPatch(p)) <==> p.patchType == PatchNone)
    ensures PackPatch(UnpackPatch(b)) == b
  {
  }
}
