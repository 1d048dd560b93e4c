# BuzzKill driver model

A Dafny model of the Arduino driver for the BuzzKill sound-effects board
(`src/BuzzKill.cpp`, `src/BuzzKill.h`). The board is a synthesizer with
four modulation oscillators, four voice oscillators, four ADSR envelopes,
a mixer, five modulation patch slots, a phoneme speech engine and a board
control channel. It is driven through write-only registers. The driver
keeps a shadow copy of the 30 register bytes it updates bit by bit, and it
sends every change as one framed write over SPI or I2C.

The model has seven modules.

- `Constants`: the enumerations of the header (oscillator types, shapes,
  envelope curves, patch types).
- `Timing`: the millisecond-to-rate converter `_timeConvert`.
- `Fields`: the bit layouts of the shadowed bytes. It has pack and unpack
  functions for the oscillator control byte, the four-byte envelope quad,
  the mixer byte and the patch-slot byte, and it proves that each setter's
  masked write changes its own field and nothing else.
- `Registers`: how register numbers map to shadow bytes (the copy loops of
  `setRegister` and `writeRegisters`), the reset values of
  `_resetShadows`, and the one-byte register counter of `setRegister`.
- `Wire`: `_send`, meaning the command encoding (a register below 61 is
  `reg << 2 | length` with an optional explicit length byte, 255 means
  "no byte"), the SPI transaction and the I2C chunking. It also has two
  independent readings used as references: the board's command decoder
  and a bus analyser that groups I2C events into transmissions.
- `Speech`: the phoneme terminator scan, the 55-entry tag table, the
  case-insensitive tag lookup and the tag tokenizer of `addSpeechTags`.
- `Driver`: the class `BuzzKill`. Its shadow bytes are an `array<bv8>`
  that the setters update in place. It also holds the transport it was
  given and a `trace` of every call it has made into the bus primitives.
  Each method's `ensures` gives the whole new shadow state and the events
  appended to the trace.

Conventions:
- Bus calls and `delay` are `Wire.Event` values appended to the trace.
- A frequency is given as the 16-bit word the driver computes from it
  (`frequency * 16`).
- A C string is a `string` followed by an implied NUL.
- A caller's array is a `seq` that must hold the bytes the
  driver reads.

## Model

| member | source | states |
|---|---|---|
| Constants.OscCode | src/BuzzKill.h:20-22 | the two oscillator types are register bases 0x00 and 0x10, with a clear low nibble |
| Constants.ShapesAreTopThreeBits | src/BuzzKill.h:25-33 | a byte is one of the eight shapes exactly when bits 0-4 are clear |
| Constants.CurvesAreTopTwoBits | src/BuzzKill.h:36-40 | a byte is one of the four curves exactly when bits 0-5 are clear |
| Constants.PatchTypesAreLowNibble | src/BuzzKill.h:43-59 | the sixteen patch types are 0..15 in order, each fits the low nibble, and only NONE is 0 |
| Timing.TimeConvert | src/BuzzKill.cpp:403-409 | range at most 3 and value at most 15; the range is chosen by the thresholds 123, 490 and 1478 ms; 5000 ms or more saturates at (3, 15) |
| Timing.TimeConvertMonotone | src/BuzzKill.cpp:403-409 | a longer duration never gets a lexicographically smaller (range, value) |
| Timing.TimeConvertBoundaries | src/BuzzKill.cpp:403-409 | the rate at each segment boundary: 0, 122/123, 489/490, 1477/1478, 4999/5000 and 65535 ms |
| Fields.Place | src/BuzzKill.cpp:29-34 | the masked read-modify-write: a value inside the mask becomes the masked bits, and the bits outside the mask are kept |
| Fields.UnpackOsc | src/BuzzKill.cpp:57-63 | every control byte reads as a valid shape, reverse flag, invert flag and step 0..7 |
| Fields.OscRoundTrip | src/BuzzKill.cpp:57-63 | packing and unpacking the oscillator control byte are inverse bijections |
| Fields.OscSettersOwnTheirField | src/BuzzKill.cpp:29-55 | setShape, setReverse and setInvert each change only their own field; setStep does too for steps 0..7 |
| Fields.UncheckedStepSetsInvert | src/BuzzKill.cpp:50-55 | the unchecked step 8 sets the invert bit and leaves step 0 |
| Fields.UnpackEnvelope | src/BuzzKill.cpp:164-169 | every quad reads as an envelope whose fields are all in range |
| Fields.EnvelopeUnpackPack | src/BuzzKill.cpp:164-169 | the quad configureEnvelope builds from in-range settings reads back as those settings |
| Fields.EnvelopePackUnpack | src/BuzzKill.cpp:164-169 | every quad is the packing of the envelope it reads as, so the packing is a bijection |
| Fields.EnvelopeExample | src/BuzzKill.cpp:164-169 | a sample linear envelope packs to the bytes 09 35 C0 82 and reads back from them |
| Fields.CurveOwnsItsField | src/BuzzKill.cpp:73-78 | setCurve's write changes the curve and no other envelope field |
| Fields.AttackOwnsItsFields | src/BuzzKill.cpp:80-86 | setAttack's two writes change the attack range and value only |
| Fields.DecayOwnsItsFields | src/BuzzKill.cpp:94-100 | setDecay's two writes change the decay range and value only |
| Fields.SustainOwnsItsField | src/BuzzKill.cpp:108-113 | setSustain's write changes the sustain level only; the gate is kept |
| Fields.ReleaseOwnsItsFields | src/BuzzKill.cpp:115-122 | setRelease's two writes change the release range and value only |
| Fields.MixVolumeOwnsItsField | src/BuzzKill.cpp:130-135 | setMixVolume's write changes the mix volume only |
| Fields.GateTurn | src/BuzzKill.cpp:144-158 | the four-gate noteOn's two tests fire exactly when the wanted gate differs from the stored one; each then equals the masked gate write, and an untouched byte already holds the gate |
| Fields.PlacedGateReads | src/BuzzKill.cpp:137-142 | the gate bit written reads back as the gate asked for |
| Fields.GateOwnsItsField | src/BuzzKill.cpp:137-142 | the gate write changes the gate and no other envelope field |
| Fields.VoiceBit | src/BuzzKill.cpp:271-275 | a voice's enable bit is a non-zero bit in the low nibble |
| Fields.EnableVoiceOwnsItsBit | src/BuzzKill.cpp:271-275 | enableVoice sets voice v's flag as asked, keeps every other voice's flag and the master volume |
| Fields.Switch | src/BuzzKill.cpp:271-275 | setting a bit with `\|` or clearing it with `& ~bit` is the masked write of that bit |
| Fields.VoiceMask | src/BuzzKill.cpp:277-281 | the four-flag mask is at most 15 and has voice v's bit set exactly when flag v is |
| Fields.VoiceSwitch | src/BuzzKill.cpp:271-275 | the single-voice write, for all other voices at once |
| Fields.MasterVolumeOwnsItsField | src/BuzzKill.cpp:287-291 | setMasterVolume sets the master volume and keeps every voice flag |
| Fields.VoiceMaskOwnsLowNibble | src/BuzzKill.cpp:277-281 | the four-flag enableVoice makes the flags the mask's and keeps the master volume |
| Fields.UnpackPatch | src/BuzzKill.cpp:179-188 | every slot byte reads as a valid patch (voice, source, type) |
| Fields.PatchRoundTrip | src/BuzzKill.cpp:179-188 | the slot byte is a bijective packing, and a packed patch leaves its slot free exactly when its type is NONE |
| Registers.Owner | src/BuzzKill.cpp:358-367 | each shadow byte's own register is below 60 |
| Registers.PartitionMatchesOwners | src/BuzzKill.cpp:299-323 | below register 60 the copy loops write shadow byte i exactly from i's owner register, and never outside the 30 bytes |
| Registers.OwnerReachesShadow | src/BuzzKill.cpp:299-323 | every shadow byte is reached by its owner register |
| Registers.PartitionLeavesStoreAt60 | src/BuzzKill.cpp:313-323 | an even register from 60 up would land outside the shadow store, which is why writeRegisters stops below 60 |
| Registers.ResetRanges | src/BuzzKill.cpp:358-367 | a reset from 50 zeroes exactly the five patch slots, and a reset from 0 restores every power-up value |
| Registers.WriteThroughStep | src/BuzzKill.cpp:316-320 | writing one more register updates exactly that register's shadow byte, if it has one |
| Registers.SettersUseThePartition | src/BuzzKill.cpp:304-308 | the shadow indices the setters use are those the register copy loops give their registers |
| Registers.NextRegister | src/BuzzKill.cpp:299-311 | setRegister's register counter is one byte and wraps after 255 |
| Registers.StoreAllAppend | src/BuzzKill.cpp:299-311 | writing one more value at the end is one more single-register store at the counter's next register |
| Registers.StoreAllIsWriteThrough | src/BuzzKill.cpp:299-323 | below register 60, storing one register at a time cannot wrap, stays in the store and equals the write-through of the whole block |
| Wire.HeaderBytes | src/BuzzKill.cpp:370-374 | a write opens with at most two command bytes |
| Wire.EncodeDecode | src/BuzzKill.cpp:370-374 | the board's decoder reads back the register and length (folded when 1..3, explicit otherwise) or a control command from 244 to 254, and never consumes payload |
| Wire.CommandBytesExamples | src/BuzzKill.cpp:370-374 | worked encodings, including the raw continuation command 255 that sends no command byte |
| Wire.LengthSentinelCollision | src/BuzzKill.cpp:370-374 | a length of 255 to a register below 61 sends no length byte, so the board's decoder finds the command truncated |
| Wire.Chunks | src/BuzzKill.cpp:384-400 | the I2C chunks concatenate to the payload; none is empty; the first holds at most the first budget and each later one at most 32; all but the last are full |
| Wire.FirstChunk | src/BuzzKill.cpp:384-386 | the first chunk leaves room for the command bytes within 32 |
| Wire.ChunkStep | src/BuzzKill.cpp:390-398 | one turn of the I2C loop: the last chunk and the end, or a full chunk, a non-final stop, a restart and the rest in 32-byte chunks |
| Wire.ChunkTransmissions | src/BuzzKill.cpp:384-400 | one transmission per chunk, all to the address; the first also carries the command bytes; only the last ends with a stop |
| Wire.ChunkTransmissionsCarryAll | src/BuzzKill.cpp:384-400 | those transmissions carry the command bytes and then the whole payload, in order |
| Wire.TransmissionsOfChunks | src/BuzzKill.cpp:390-400 | the bus analyser's reading of the chunk events is exactly those transmissions |
| Wire.I2cFraming | src/BuzzKill.cpp:384-400 | over I2C a write is a non-empty run of stop-free transmissions closed by one with a stop, each at most 32 bytes, all to the address; together they carry the command bytes then the payload |
| Wire.SpiFraming | src/BuzzKill.cpp:375-383 | over SPI a write is one transaction: select low first and high last, the command bytes one by one, then the payload as one buffer |
| Wire.NoTransportIsSilent | src/BuzzKill.cpp:369-401 | with no bus given, a write emits nothing |
| Wire.WaveUploadChunks | src/BuzzKill.cpp:346-349 | each 128-byte wave half that storeCustomWave writes goes out over I2C in chunks of 31, 32, 32, 32 and 1 |
| Speech.TerminatedLength | src/BuzzKill.cpp:200-203 | the bytes before the first 255 among the first 255, or 255 when there is none |
| Speech.Lookup | src/BuzzKill.cpp:228-232 | the lookup stops inside the table or at its end |
| Speech.LookupStopsAtMatch | src/BuzzKill.cpp:228-232 | a lookup that stops before the end stops at a tag the two characters spell |
| Speech.LookupSkipsNonMatches | src/BuzzKill.cpp:228-232 | every tag it passes over is not spelled, so it finds the first match, and the end means there is no match |
| Speech.PhonemeCodeIsLookup | src/BuzzKill.cpp:228-232 | getPhonemeFromTag returns the index of the tag found, 55 when there is none |
| Speech.LookupIgnoresCase | src/BuzzKill.cpp:228-232 | a tag written in either case finds the same entry |
| Speech.LookupExamples | src/BuzzKill.h:611 | the first table tags, found in upper and lower case |
| Speech.SkipSpaces | src/BuzzKill.cpp:219-220 | the tokenizer stops at a non-space character and not past the NUL |
| Speech.SkipSpacesSkipsOnlySpaces | src/BuzzKill.cpp:219-220 | everything it steps over is a space |
| Speech.TagPhonemes | src/BuzzKill.cpp:218-224 | n tags give n phoneme codes |
| Speech.TagsToSend | src/BuzzKill.cpp:209-216 | a given length is used as is; otherwise half the non-space characters before '.' or NUL, and nothing for a count of 0, an odd count or 509 characters counted |
| Speech.CountedTagsAreReadable | src/BuzzKill.cpp:209-226 | with 2n countable characters ahead, taking n tags reads only the string and its NUL |
| Speech.CountedLengthIsReadable | src/BuzzKill.cpp:209-226 | when addSpeechTags counts the tags itself, its tokenizer stays inside the string |
| Speech.TagExamples | src/BuzzKill.cpp:209-226 | "OW AW." counts two tags and gives codes 0 and 1 |
| Speech.OddTagExamples | src/BuzzKill.cpp:213-214 | an odd count or an empty string sends nothing |
| Driver.BuzzKill.constructor | src/BuzzKill.cpp:3-5 | a new driver has no bus, an empty trace and every shadow byte at its power-up value |
| Driver.BuzzKill.BeginSpi | src/BuzzKill.cpp:7-10 | the SPI bus and select pin are recorded |
| Driver.BuzzKill.BeginI2c | src/BuzzKill.cpp:12-15 | the I2C bus and address are recorded |
| Driver.BuzzKill.Send | src/BuzzKill.cpp:369-401 | the trace grows by one frame on the chosen bus: SPI if given, else I2C, else nothing |
| Driver.BuzzKill.SpiWrite | src/BuzzKill.cpp:375-383 | the SPI branch appends one SPI frame |
| Driver.BuzzKill.I2cWrite | src/BuzzKill.cpp:384-400 | the I2C branch appends one I2C frame |
| Driver.BuzzKill.I2cChunksAndStop | src/BuzzKill.cpp:390-399 | the chunk loop and the final stop complete the I2C frame |
| Driver.BuzzKill.I2cOpen | src/BuzzKill.cpp:387-389 | the transmission opens with the command bytes that are present |
| Driver.BuzzKill.SetFrequency | src/BuzzKill.cpp:17-22 | an oscillator above 3 or a word from 65536 up sends nothing; otherwise the word goes low byte first to the oscillator's register 0 |
| Driver.BuzzKill.SetMidpoint | src/BuzzKill.cpp:24-27 | the midpoint goes to the oscillator's register 2; an oscillator above 3 sends nothing |
| Driver.BuzzKill.SetShape | src/BuzzKill.cpp:29-34 | only the control byte's shape changes, and the byte goes to register 3; an oscillator above 3 changes nothing |
| Driver.BuzzKill.SetInvert | src/BuzzKill.cpp:36-41 | only the invert flag changes, and the byte is sent |
| Driver.BuzzKill.SetReverse | src/BuzzKill.cpp:43-48 | only the reverse flag changes, and the byte is sent |
| Driver.BuzzKill.SetStep | src/BuzzKill.cpp:50-55 | the step bits take the step, changing only the step when it is 0..7, and the byte is sent |
| Driver.BuzzKill.ConfigureOscillator | src/BuzzKill.cpp:57-63 | a bad oscillator, step or frequency changes nothing; otherwise the control byte is stored and reads back as the settings, and all four registers go in one write |
| Driver.BuzzKill.RestartOscillators | src/BuzzKill.cpp:65-67 | the mask goes to command 248 |
| Driver.BuzzKill.HaltOscillators | src/BuzzKill.cpp:69-71 | the mask goes to register 49 |
| Driver.BuzzKill.SetCurve | src/BuzzKill.cpp:73-78 | the envelope's curve alone changes, and its first byte is sent; an envelope above 3 changes nothing |
| Driver.BuzzKill.SetAttack | src/BuzzKill.cpp:80-86 | the attack range and value alone change, and both bytes are sent; out-of-range arguments change nothing |
| Driver.BuzzKill.SetAttackTime | src/BuzzKill.cpp:88-92 | as SetAttack with the converted rate |
| Driver.BuzzKill.SetDecay | src/BuzzKill.cpp:94-100 | the decay range and value alone change, and both bytes are sent |
| Driver.BuzzKill.SetDecayTime | src/BuzzKill.cpp:102-106 | as SetDecay with the converted rate |
| Driver.BuzzKill.SetSustain | src/BuzzKill.cpp:108-113 | the sustain level alone changes, and the third byte is sent |
| Driver.BuzzKill.SetRelease | src/BuzzKill.cpp:115-122 | the release range and value alone change, sent as two one-byte writes |
| Driver.BuzzKill.SetReleaseTime | src/BuzzKill.cpp:124-128 | as SetRelease with the converted rate |
| Driver.BuzzKill.SetMixVolume | src/BuzzKill.cpp:130-135 | the mix volume alone changes, and the fourth byte is sent |
| Driver.BuzzKill.NoteOn | src/BuzzKill.cpp:137-142 | the gate alone changes, and the gate byte is sent even when unchanged |
| Driver.BuzzKill.NoteOff | src/BuzzKill.cpp:160-162 | the gate is cleared, and the byte is sent |
| Driver.BuzzKill.NoteOnAll | src/BuzzKill.cpp:144-158 | the shadows are the four gates applied, and only the gate bytes that changed are sent, in envelope order |
| Driver.BuzzKill.UpdateGate | src/BuzzKill.cpp:148-156 | one loop turn: the gate is placed, and its byte is sent only if it changed |
| Driver.BuzzKill.TestAndSetGate | src/BuzzKill.cpp:149-155 | the gate is placed, and the test reports a change exactly when the wanted gate differed from the stored one |
| Driver.BuzzKill.ConfigureEnvelope | src/BuzzKill.cpp:164-169 | any out-of-range setting changes nothing; otherwise the quad is written through the envelope's registers, reads back as the settings, and is sent as one four-byte write |
| Driver.BuzzKill.StoreQuad | src/BuzzKill.cpp:167 | the copy loop puts the quad where a write to the envelope's registers lands |
| Driver.BuzzKill.ConfigureEnvelopeTimes | src/BuzzKill.cpp:171-177 | the timed form is rejected only for a bad envelope, sustain or mix volume, and otherwise configures the converted envelope |
| Driver.BuzzKill.AddSpeechPhonemes | src/BuzzKill.cpp:200-203 | the given count, or the bytes before the terminator, go to command 60; a count of 255 sends nothing |
| Driver.BuzzKill.ScanPhonemes | src/BuzzKill.cpp:201 | the scan loop computes TerminatedLength |
| Driver.BuzzKill.AddSpeechTags | src/BuzzKill.cpp:209-226 | the codes of the tags to send go to command 60, and nothing is sent when there are none |
| Driver.BuzzKill.CountTagLetters | src/BuzzKill.cpp:212-213 | the counting loop gives the non-space characters before '.' or NUL, capped at 509 |
| Driver.BuzzKill.TokenizeTags | src/BuzzKill.cpp:218-224 | the tokenizing loop gives the phoneme codes of the n tags |
| Driver.BuzzKill.SkipBlanks | src/BuzzKill.cpp:220 | the space-skipping loop stops where SkipSpaces does |
| Driver.BuzzKill.PhonemeFromTag | src/BuzzKill.cpp:228-232 | the table scan gives the first matching tag's code, or 55 |
| Driver.BuzzKill.ClearSpeechBuffer | src/BuzzKill.cpp:234-236 | an empty write to command 60 |
| Driver.EmptyPhonemeListClearsTheBuffer | src/BuzzKill.cpp:200-203 | with length 0, an empty list is sent exactly when the first byte is the terminator, and that frame is the one clearSpeechBuffer sends |
| Driver.BuzzKill.SetSpeechSpeed | src/BuzzKill.cpp:238-241 | speeds above 253 send nothing; others go to command 244 |
| Driver.BuzzKill.SetSpeechFactors | src/BuzzKill.cpp:243-246 | the eight factors go to command 245 in order |
| Driver.BuzzKill.StartSpeaking | src/BuzzKill.cpp:263-265 | an empty write to command 247 |
| Driver.BuzzKill.StopSpeaking | src/BuzzKill.cpp:267-269 | an empty write to command 246 |
| Driver.BuzzKill.PrepareSpeechMode | src/BuzzKill.cpp:248-261 | the shadows become SpeechModeShadows and the trace grows by the frames of SpeechModeWrites, in the driver's order |
| Driver.BuzzKill.SpeechSound | src/BuzzKill.cpp:249-257 | the oscillator and mix-volume calls: their shadows and frames |
| Driver.BuzzKill.SpeechPatchAndVoices | src/BuzzKill.cpp:258-260 | the patch table reset, the pitch patch, and the four enable bits set |
| Driver.BuzzKill.SpeechPatch | src/BuzzKill.cpp:258-259 | clearPatches then addPatch of the pitch patch |
| Driver.BuzzKill.SpeechOscillators | src/BuzzKill.cpp:249-253 | the five configureOscillator calls: their shadows and frames |
| Driver.BuzzKill.SpeechVoiceOscillators | src/BuzzKill.cpp:249-252 | the four voice oscillators configured in order |
| Driver.BuzzKill.SpeechOscillator | src/BuzzKill.cpp:57-63 | configureOscillator with the default arguments |
| Driver.BuzzKill.SpeechMix | src/BuzzKill.cpp:254-257 | the four mix-volume calls: their shadows and frames |
| Driver.BuzzKill.SpeechMixVolume | src/BuzzKill.cpp:130-135 | one in-range setMixVolume |
| Driver.BuzzKill.SpeechVoices | src/BuzzKill.cpp:260 | the low nibble of the mixer set, and the byte sent |
| Driver.BuzzKill.EnableVoice | src/BuzzKill.cpp:271-275 | voice v's flag alone changes; the other flags and the master volume are kept, and the mixer byte is sent |
| Driver.BuzzKill.SetVoiceBit | src/BuzzKill.cpp:273 | the shadow half of enableVoice |
| Driver.BuzzKill.EnableVoices | src/BuzzKill.cpp:277-281 | the four flags become the voice flags, the master volume is kept, and the byte is sent |
| Driver.BuzzKill.DisableVoice | src/BuzzKill.cpp:283-285 | voice v's flag is cleared, and the byte is sent |
| Driver.BuzzKill.SetMasterVolume | src/BuzzKill.cpp:287-291 | the master volume is set and the voice flags are kept; a volume above 15 changes nothing |
| Driver.BuzzKill.AddPatch | src/BuzzKill.cpp:179-188 | bad arguments or a full table give 255 and change nothing; otherwise the first free slot takes the patch, which reads back, and its byte and parameter are sent |
| Driver.BuzzKill.RemovePatch | src/BuzzKill.cpp:190-194 | the slot becomes 0, which is free, and is sent |
| Driver.BuzzKill.ClearPatches | src/BuzzKill.cpp:196-198 | every slot is freed, every other shadow byte is kept, and a reset from 50 is sent |
| Driver.BuzzKill.ResetRegisters | src/BuzzKill.cpp:293-297 | the shadows reset from regStart and the empty write to regStart sent; a start above 59 does nothing |
| Driver.BuzzKill.SetRegister | src/BuzzKill.cpp:299-311 | the leading non-negative values, cut to bytes, are stored one register at a time and sent as one write |
| Driver.BuzzKill.StoreLeading | src/BuzzKill.cpp:302-309 | the copy loop gives the leading bytes and stores them |
| Driver.BuzzKill.WriteRegisters | src/BuzzKill.cpp:313-323 | an empty write, or one reaching register 60, does nothing; otherwise the bytes are written through to the shadows and sent |
| Driver.BuzzKill.StoreThrough | src/BuzzKill.cpp:315-321 | the copy loop gives the write-through |
| Driver.BuzzKill.StoreRegister | src/BuzzKill.cpp:304-308 | one register's shadow write, through the partition |
| Driver.BuzzKill.BoardSleep | src/BuzzKill.cpp:329-331 | an empty write to command 251 |
| Driver.BuzzKill.BoardWake | src/BuzzKill.cpp:333-344 | the wake events are appended |
| Driver.BuzzKill.StoreCustomWave | src/BuzzKill.cpp:346-349 | the first 128 bytes go to command 249 and the next 128 as a raw continuation (command 255) |
| Driver.BuzzKill.ChangeI2cAddress | src/BuzzKill.cpp:351-356 | addresses outside 8..119 are ignored; otherwise the address and its check bytes go out at the old address, which is then replaced |
| Driver.BuzzKill.ResetShadows | src/BuzzKill.cpp:358-367 | every shadow byte whose register is regStart or above gets its power-up value, and the rest are kept |
| Driver.BuzzKill.ResetOscillators | src/BuzzKill.cpp:360 | the oscillator loop resets bytes 0..7 as ResetFrom does and keeps the rest |
| Driver.BuzzKill.ResetEnvelopes | src/BuzzKill.cpp:361-364 | the four envelope loops reset bytes 8..23 as ResetFrom does and keep the rest |
| Driver.BuzzKill.ResetColumn | src/BuzzKill.cpp:361-364 | one envelope loop resets its column of quad bytes |
| Driver.BuzzKill.ResetPatchSlots | src/BuzzKill.cpp:366 | the slot loop resets bytes 25..29 as ResetFrom does and keeps the rest |
| Driver.OscShadow | src/BuzzKill.cpp:31-33 | oscillator n's control byte is shadow n, or 4 + n for a voice |
| Driver.OscRegister | src/BuzzKill.cpp:17-63 | oscillator register k is the type's base + 4n + k |
| Driver.EnvShadow | src/BuzzKill.cpp:73-142 | envelope e's quad is shadow bytes 8 + 4e .. 11 + 4e |
| Driver.EnvRegister | src/BuzzKill.cpp:73-142 | envelope register k is 32 + 4e + k |
| Driver.PatchRegister | src/BuzzKill.cpp:186 | slot j's register is 50 + 2j |
| Driver.ReleaseUpdate | src/BuzzKill.cpp:115-122 | the two release writes change exactly the release range and value |
| Driver.GateUpdate | src/BuzzKill.cpp:137-142 | the gate write changes exactly the envelope's gate |
| Driver.GatesAppliedSetsGates | src/BuzzKill.cpp:144-158 | after the four-gate noteOn every envelope has its wanted gate and keeps its other settings |
| Driver.GatesAgainSendNothing | src/BuzzKill.cpp:144-158 | asking again for the gates just set sends nothing |
| Driver.QuadWritten | src/BuzzKill.cpp:164-169 | a quad written through envelope e's registers lands in e's four bytes and reads as e's envelope |
| Driver.TimedEnvelopeIsValid | src/BuzzKill.cpp:171-177 | every duration becomes an in-range rate, so only sustain and mix volume can make the timed form invalid |
| Driver.FirstFreeSlot | src/BuzzKill.cpp:182 | the first slot with a zero type nibble, with all slots before it taken, or 5 when all are taken |
| Driver.AddingTakesTheFirstFreeSlot | src/BuzzKill.cpp:179-188 | adding a real patch moves the first free slot past it; a NONE patch leaves the slot free |
| Driver.RemovingFreesTheSlot | src/BuzzKill.cpp:190-194 | after a removal the next addition takes that slot or an earlier one |
| Driver.FirstFreeSlotIs | src/BuzzKill.cpp:182-184 | the lowest free slot is n exactly when slots below n are taken and slot n is free |
| Driver.RemovingFromAFullTable | src/BuzzKill.cpp:182-194 | on a full table, removing slot j makes j the slot the next addition gets |
| Driver.FillingAnEmptyTable | src/BuzzKill.h:373-374 | on an empty table, real patches take slots 0, 1, 2, 3, 4 in turn, and after five the table is full and a sixth is refused |
| Driver.LeadingBytesStopAtNegative | src/BuzzKill.cpp:302-309 | setRegister's data are the low bytes of the values before the first negative one, and stop there |
| Driver.SpeechModeOscillators | src/BuzzKill.cpp:248-261 | after prepareSpeechMode the voice oscillators are three sines and a noise, modulation oscillator 0 is a hilltop when the pitch is in range, and the others are kept |
| Driver.SpeechModeEnvelopes | src/BuzzKill.cpp:248-261 | the mix volumes become 5, 5, 5 and 3, and every other envelope setting is kept |
| Driver.SpeechModePatches | src/BuzzKill.cpp:248-261 | slot 0 routes modulation 0 to voice 0 with the given type (empty for a bad type), and the other slots are empty |
| Driver.SpeechModeVoices | src/BuzzKill.cpp:248-261 | all four voices are enabled and the master volume is kept |
| Driver.WakeTransmission | src/BuzzKill.cpp:333-344 | over I2C the wake is one stopped transmission of 255 to the address; over SPI it clocks no byte |
| Driver.AddressPayload | src/BuzzKill.cpp:351-356 | three bytes, the first the address |
| Driver.AddressPayloadCheck | src/BuzzKill.cpp:351-356 | a payload is an address change exactly when its check bytes are the address XOR 0x55 and XOR 0xAA, and the two check bytes are complements |

## Left out

- The Arduino primitives (`SPI`, `Wire`, `digitalWrite`, `delay`) are not executed. The model records each call as an event, and the bytes the bus returns are not modelled.
- `SPI.transfer(buffer, n)` exchanges the buffer in place on the host. The model treats the payload as read-only, so a shadow byte sent in place is not overwritten with the bytes the board clocks back.
- `SPISettings(400000, MSBFIRST, SPI_MODE0)` is one event with no parameters.
- The frequency setters take a `double` and convert `frequency * 16` to a word. The floating-point conversion is left out: the model takes the word, and a word of 65536 or more stands for a frequency of 4096 Hz or more. The undefined conversion of a negative frequency is not modelled.
- The `char[]` overloads of addSpeechPhonemes and writeRegisters (src/BuzzKill.cpp:205-207, 325-327) only cast the array type; the model has the byte forms only.
- PROGMEM storage of the tag table and `strncasecmp_P` are modelled as ASCII case folding over the 55 tags, one tag at a time. The bytes are not read two at a time from a 110-character string.
- Reads past the end of a caller's array are undefined in C++. The model makes them preconditions: `ScanReadable` for addSpeechPhonemes, `TagsReadable` for addSpeechTags with a given length, 256 bytes for storeCustomWave, and `length` bytes for writeRegisters.
- Driver.BuzzKill.SetRegister: the driver does not stop its shadow writes at the store's end. A block that reaches an even register from 60 up, possibly after the byte counter wraps, writes outside `_shadows`. The model requires `Writable` rather than modelling that memory.
- Driver.BuzzKill.SetRegister: the nine optional 16-bit values (default -1) become a sequence of nine unbounded `int`s. The 16-bit range is not enforced, which does not matter: only the non-negative values are stored, as their low byte.
- The SPI and I2C bus objects passed to beginSPI and beginI2C are booleans. Their default pin and address are left to the caller.
- Driver.BuzzKill.constructor: the select pin and I2C address start uninitialised in C++; the model starts them at 0.
- Timing: the time parameter is a 16-bit word, so `TimeConvert` requires `time < 65536`.
