/** The enumerations of the BuzzKill driver (src/BuzzKill.h:20-60).

    Every enumeration is declared `: byte` in the driver, so its constants are
    bytes here as well; the predicates name the set of declared constants. */
module Constants {

  /** Oscillator types (buzzkill_osctype_t). Only these two exist: the driver
      derives a shadow index from the code, so other bytes are not modelled. */
  datatype OscType = Mod | Voice

  /** The byte value of an oscillator type: 0x00 for modulation, 0x10 for voice. */
  function OscCode(t: OscType): (c: bv8)
    ensures c & 0x0F == 0 && c <= 0x10
  {
    match t
    case Mod => 0x00
    case Voice => 0x10
  }

  // Waveform shapes (buzzkill_shape_t).
  const ShapeSine: bv8 := 0x00
  const ShapeRamp: bv8 := 0x20
  const ShapeTriangle: bv8 := 0x40
  const ShapePulse: bv8 := 0x60
  const ShapeExpon: bv8 := 0x80
  const ShapeNoise: bv8 := 0xa0
  const ShapeCustom: bv8 := 0xc0
  const ShapeHilltop: bv8 := 0xe0

  predicate IsShape(s: bv8)
  {
    s == ShapeSine || s == ShapeRamp || s == ShapeTriangle || s == ShapePulse ||
    s == ShapeExpon || s == ShapeNoise || s == ShapeCustom || s == ShapeHilltop
  }

  // Envelope curves (buzzkill_curve_t).
  const CurveLinear: bv8 := 0x00
  const CurveInvAtt: bv8 := 0x40
  const CurveInvDec: bv8 := 0x80
  const CurveNatural: bv8 := 0xc0

  predicate IsCurve(c: bv8)
  {
    c == CurveLinear || c == CurveInvAtt || c == CurveInvDec || c == CurveNatural
  }

  // Patch types (buzzkill_patch_t); NONE marks a free patch slot.
  const PatchNone: bv8 := 0x00
  const PatchFreqScale: bv8 := 0x01
  const PatchFreqShift: bv8 := 0x02
  const PatchMidShift: bv8 := 0x03
  const PatchAmpScale: bv8 := 0x04
  const PatchAmpLevel: bv8 := 0x05
  const PatchEnvGate: bv8 := 0x06
  const PatchHardSync: bv8 := 0x07
  const PatchSoftSync: bv8 := 0x08
  const PatchRingMod: bv8 := 0x09
  const PatchAmpScaleMulti: bv8 := 0x0a
  const PatchAmpLevelMulti: bv8 := 0x0b
  const PatchEnvGateMulti: bv8 := 0x0c
  const PatchHardSyncMulti: bv8 := 0x0d
  const PatchSoftSyncMulti: bv8 := 0x0e
  const PatchOutputPin: bv8 := 0x0f

  const PatchTypes: seq<bv8> := [
    PatchNone, PatchFreqScale, PatchFreqShift, PatchMidShift,
    PatchAmpScale, PatchAmpLevel, PatchEnvGate, PatchHardSync,
    PatchSoftSync, PatchRingMod, PatchAmpScaleMulti, PatchAmpLevelMulti,
    PatchEnvGateMulti, PatchHardSyncMulti, PatchSoftSyncMulti, PatchOutputPin]

  /** The shapes are exactly the bytes whose bits 0-4 are clear: a shape
      occupies bits 5-7 only, and every such byte is a declared shape. */
  lemma ShapesAreTopThreeBits(s: bv8)
    ensures IsShape(s) <==> s & 0x1F == 0
  {
  }

  /** The curves are exactly the bytes whose bits 0-5 are clear. */
  lemma CurvesAreTopTwoBits(c: bv8)
    ensures IsCurve(c) <==> c & 0x3F == 0
  {
  }

  /** The sixteen patch types are 0..15 in declaration order, so each fits the
      low nibble of a slot byte, and only NONE is zero. */
  lemma PatchTypesAreLowNibble()
    ensures |PatchTypes| == 16
    ensures forall k :: 0 <= k < 16 ==> PatchTypes[k] as int == k
    ensures forall k :: 0 <= k < 16 ==> PatchTypes[k] & 0xF0 == 0
    ensures forall k :: 0 <= k < 16 ==> (PatchTypes[k] == 0 <==> PatchTypes[k] == PatchNone)
  {
  }
}
