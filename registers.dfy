/** The relation between device registers and the 30 shadow bytes
    (src/BuzzKill.cpp:293-323, 358-367).

    Shadow layout: 0..3 modulation oscillators, 4..7 voice oscillators (their
    control bytes), 8..23 four envelope quads, 24 the mixer byte, 25..29 the
    five patch slots. */
module Registers {

  const ShadowCount: nat := 30

  /** Where a write to register `reg` lands in the shadow store, if anywhere. */
  datatype ShadowRef = NoShadow | Shadow(index: nat)

  /** The copy loops' partition (BuzzKill.cpp:304-308 and 316-320): an even
      register above 48 lands at reg/2, registers 32..48 at reg-24, a register
      below 32 at reg/4 when reg % 4 == 3, and every other register has no
      shadow byte. It is defined for every byte, as the loops are. */
  function ShadowOf(reg: nat): ShadowRef
  {
    if reg > 48 then (if reg % 2 == 0 then Shadow(reg / 2) else NoShadow)
    else if reg > 31 then Shadow(reg - 24)
    else if reg % 4 == 3 then Shadow(reg / 4)
    else NoShadow
  }

  /** The register whose writes a shadow byte mirrors, which is also the
      register from which a reset must start for the byte to be reset
      (BuzzKill.cpp:360-366). */
  function Owner(i: nat): (reg: nat)
    requires i < ShadowCount
    ensures reg < 60
  {
    if i < 8 then 4 * i + 3
    else if i <= 24 then i + 24
    else 2 * i
  }

  /** The power-up value of each shadow byte (BuzzKill.cpp:360-366): zero for
      oscillators and patch slots; per envelope 0, 0, 127 (sustain 127, gate
      off), 240 (mix volume 15); 240 for the mixer (master volume 15, voices
      off). */
  function Default(i: nat): bv8
    requires i < ShadowCount
  {
    if i < 8 then 0
    else if i < 24 then
      (if (i - 8) % 4 == 2 then 127 else if (i - 8) % 4 == 3 then 240 else 0)
    else if i == 24 then 240
    else 0
  }

  /** The partition and the owners agree: below 60, a register writes shadow
      byte i exactly when it is i's owner, and every shadow byte it reaches is
      one of the 30. */
  lemma PartitionMatchesOwners(reg: nat, i: nat)
    requires reg < 60 && i < ShadowCount
    ensures ShadowOf(reg) == Shadow(i) <==> reg == Owner(i)
    ensures ShadowOf(reg).Shadow? ==> ShadowOf(reg).index < ShadowCount
  {
  }

  /** Every shadow byte is reached by its owner and by no other register. */
  lemma OwnerReachesShadow(i: nat)
    requires i < ShadowCount
    ensures ShadowOf(Owner(i)) == Shadow(i)
  {
  }

  /** From register 60 on, an even register lands outside the shadow store:
      the copy loops stay in bounds only while they stop below 60. */
  lemma PartitionLeavesStoreAt60(reg: nat)
    requires reg >= 60 && reg % 2 == 0
    ensures ShadowOf(reg).Shadow? && ShadowOf(reg).index >= ShadowCount
  {
  }

  /** The shadow bytes after a reset from register `regStart`: byte i goes back
      to its default exactly when `regStart` is at most its owner. */
  function ResetFrom(s: seq<bv8>, regStart: nat): (r: seq<bv8>)
    requires |s| == ShadowCount
    ensures |r| == ShadowCount
  {
    seq(ShadowCount, i requires 0 <= i < ShadowCount => ResetByte(i, regStart, s[i]))
  }

  /** Shadow byte i, holding v, after a reset from register `regStart`. */
  function ResetByte(i: nat, regStart: nat, v: bv8): bv8
    requires i < ShadowCount
  {
    if regStart <= Owner(i) then Default(i) else v
  }

  /** A reset from 50 (clearPatches) resets exactly the patch slots 25..29,
      and to zero. A reset from 0 resets everything. */
  lemma ResetRanges(s: seq<bv8>)
    requires |s| == ShadowCount
    ensures forall i :: 0 <= i < ShadowCount ==> (ResetFrom(s, 50)[i] == if i >= 25 then 0 else s[i])
    ensures forall i :: 0 <= i < ShadowCount ==> ResetFrom(s, 0)[i] == Default(i)
  {
  }

  /** The shadow bytes after writing `data` to the registers from `regStart`
      on, through the partition: each byte whose owner is among the written
      registers takes its value, the rest are kept. */
  function WriteThrough(s: seq<bv8>, regStart: nat, data: seq<bv8>): (r: seq<bv8>)
    requires |s| == ShadowCount && regStart + |data| <= 60
    ensures |r| == ShadowCount
  {
    seq(ShadowCount, i requires 0 <= i < ShadowCount =>
      if regStart <= Owner(i) < regStart + |data| then data[Owner(i) - regStart] else s[i])
  }

  /** Writing one more register extends a write-through: the register's own
      shadow byte, if it has one, takes the new value. */
  lemma WriteThroughStep(s: seq<bv8>, regStart: nat, data: seq<bv8>, v: bv8)
    requires |s| == ShadowCount && regStart + |data| < 60
    ensures ShadowOf(regStart + |data|).Shadow? ==>
      ShadowOf(regStart + |data|).index < ShadowCount &&
      WriteThrough(s, regStart, data + [v])
      == WriteThrough(s, regStart, data)[ShadowOf(regStart + |data|).index := v]
    ensures ShadowOf(regStart + |data|).NoShadow? ==>
      WriteThrough(s, regStart, data + [v]) == WriteThrough(s, regStart, data)
  {
    var reg := regStart + |data|;
    var a, b := WriteThrough(s, regStart, data + [v]), WriteThrough(s, regStart, data);
    forall i | 0 <= i < ShadowCount
      ensures a[i] == if ShadowOf(reg) == Shadow(i) then v else b[i]
    {
      PartitionMatchesOwners(reg, i);
    }
    PartitionMatchesOwners(reg, 0);
  }

  /** The register writes agree with the setters' shadow indices: oscillator
      n of type base (0 or 16) keeps its control byte at base/4 + n, written
      through register base + 4n + 3; envelope e's quad at 8 + 4e + k through
      32 + 4e + k; the mixer at 24 through 48; patch slot j at 25 + j through
      50 + 2j. */
  lemma SettersUseThePartition(base: nat, n: nat, e: nat, k: nat, j: nat)
    requires (base == 0 || base == 16) && n <= 3 && e <= 3 && k <= 3 && j <= 4
    ensures ShadowOf(base + 4 * n + 3) == Shadow(base / 4 + n)
    ensures ShadowOf(32 + 4 * e + k) == Shadow(8 + 4 * e + k)
    ensures ShadowOf(48) == Shadow(24)
    ensures ShadowOf(50 + 2 * j) == Shadow(25 + j)
  {
  }

  // ---------------------------------------------------------------------------
  // Register-by-register writes with a one-byte register counter, as
  // setRegister makes them (BuzzKill.cpp:299-311).

  /** Whether a write to `reg` stays inside the shadow store (a register with
      no shadow byte always does). */
  predicate InStore(reg: nat)
  {
    ShadowOf(reg).Shadow? ==> ShadowOf(reg).index < ShadowCount
  }

  /** The shadow bytes after writing v to register `reg`. */
  function Store(s: seq<bv8>, reg: nat, v: bv8): (r: seq<bv8>)
    requires |s| == ShadowCount && InStore(reg)
    ensures |r| == ShadowCount
  {
    match ShadowOf(reg)
    case NoShadow => s
    case Shadow(i) => s[i := v]
  }

  /** The register after `reg` on a one-byte counter. */
  function NextRegister(reg: nat): (next: nat)
    ensures next < 256
  {
    (reg + 1) % 256
  }

  /** Whether n writes from `reg` on, the register counter wrapping from 255
      to 0, all stay inside the shadow store. */
  predicate Writable(reg: nat, n: nat)
    decreases n
  {
    n == 0 || (InStore(reg) && Writable(NextRegister(reg), n - 1))
  }

  /** The register reached after n steps of the counter. */
  function RegisterAfter(reg: nat, n: nat): nat
    decreases n
  {
    if n == 0 then reg else RegisterAfter(NextRegister(reg), n - 1)
  }

  /** One more step of the counter is one more NextRegister. */
  lemma {:induction false} RegisterAfterStep(reg: nat, n: nat)
    ensures RegisterAfter(reg, n + 1) == NextRegister(RegisterAfter(reg, n))
    decreases n
  {
    if n > 0 {
      RegisterAfterStep(NextRegister(reg), n - 1);
    }
  }

  /** The shadow bytes after writing `data` one register at a time from `reg`. */
  function StoreAll(s: seq<bv8>, reg: nat, data: seq<bv8>): (r: seq<bv8>)
    requires |s| == ShadowCount && Writable(reg, |data|)
    ensures |r| == ShadowCount
    decreases |data|
  {
    if data == [] then s else StoreAll(Store(s, reg, data[0]), NextRegister(reg), data[1..])
  }

  /** Writing one more byte at the end is one more single-register store. */
  lemma {:induction false} StoreAllAppend(s: seq<bv8>, reg: nat, data: seq<bv8>, v: bv8)
    requires |s| == ShadowCount && Writable(reg, |data| + 1)
    ensures Writable(reg, |data|)
    ensures InStore(RegisterAfter(reg, |data|))
    ensures StoreAll(s, reg, data + [v]) == Store(StoreAll(s, reg, data), RegisterAfter(reg, |data|), v)
    decreases |data|
  {
    if data == [] {
      assert ([] + [v])[1..] == [];
    } else {
      assert (data + [v])[0] == data[0] && (data + [v])[1..] == data[1..] + [v];
      StoreAllAppend(Store(s, reg, data[0]), NextRegister(reg), data[1..], v);
      assert RegisterAfter(NextRegister(reg), |data| - 1) == RegisterAfter(reg, |data|);
    }
  }

  /** Below register 60 no write wraps or leaves the store, and writing one
      register at a time is the same as writing through the partition. */
  lemma {:induction false} StoreAllIsWriteThrough(s: seq<bv8>, regStart: nat, data: seq<bv8>)
    requires |s| == ShadowCount && regStart + |data| <= 60
    ensures Writable(regStart, |data|)
    ensures StoreAll(s, regStart, data) == WriteThrough(s, regStart, data)
    decreases |data|
  {
    if data != [] {
      PartitionMatchesOwners(regStart, 0);
      assert NextRegister(regStart) == regStart + 1;
      StoreAllIsWriteThrough(Store(s, regStart, data[0]), regStart + 1, data[1..]);
      var a, b := WriteThrough(Store(s, regStart, data[0]), regStart + 1, data[1..]), WriteThrough(s, regStart, data);
      forall i | 0 <= i < ShadowCount
        ensures a[i] == b[i]
      {
        PartitionMatchesOwners(regStart, i);
      }
    }
  }

  lemma {:induction false} WritablePrefix(reg: nat, n: nat, m: nat)
    requires Writable(reg, n) && m <= n
    ensures Writable(reg, m)
    decreases m
  {
    if m > 0 {
      WritablePrefix(NextRegister(reg), n - 1, m - 1);
    }
  }
}
