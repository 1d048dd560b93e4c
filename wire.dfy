/** The wire protocol: command encoding and framing over SPI or I2C
    (_send, src/BuzzKill.cpp:369-401).

    The bus primitives of the host are not modelled; each call the driver
    makes into them is an `Event`, and a transaction is the list of events it
    produces. */
module Wire {

  /** One call into the host's bus primitives. */
  datatype Event =
    | SpiBeginTransaction             // SPI.beginTransaction(400 kHz, MSB first, mode 0)
    | SelectLow(pin: bv8)             // digitalWrite(pin, LOW)
    | SelectHigh(pin: bv8)            // digitalWrite(pin, HIGH)
    | SpiByte(b: bv8)                 // SPI.transfer(b)
    | SpiBuffer(bytes: seq<bv8>)      // SPI.transfer(buffer, length)
    | SpiEndTransaction
    | Pause(ms: nat)                  // delay(ms)
    | I2cBegin(addr: bv8)             // Wire.beginTransmission(addr)
    | I2cByte(b: bv8)                 // Wire.write(b)
    | I2cBuffer(bytes: seq<bv8>)      // Wire.write(buffer, count)
    | I2cEnd(stop: bool)              // Wire.endTransmission(stop)

  /** The transport configuration: whether an SPI and an I2C bus object were
      handed to the driver, the select pin and the I2C address. */
  datatype Link = Link(spi: bool, spiPin: bv8, i2c: bool, i2cAddr: bv8)

  /** The marker for "no byte" in both header positions. */
  const NoByte: bv8 := 255

  /** The compact register range: command byte = register << 2 | length. */
  const CompactLimit: bv8 := 61

  /** The command byte and the explicit length byte of a write; either may be
      NoByte, meaning it is not sent. */
  datatype Header = Header(command: bv8, extra: bv8)

  function EncodeHeader(command: bv8, length: bv8): Header
  {
    if command < CompactLimit then
      if 0 < length < 4 then Header((command << 2) + length, NoByte)
      else Header(command << 2, length)
    else Header(command, NoByte)
  }

  function HeaderBytes(h: Header): (bs: seq<bv8>)
    ensures |bs| <= 2
  {
    (if h.command != NoByte then [h.command] else []) + (if h.extra != NoByte then [h.extra] else [])
  }

  /** The bytes that open a write of `length` payload bytes to `command`. */
  function CommandBytes(command: bv8, length: bv8): seq<bv8>
  {
    HeaderBytes(EncodeHeader(command, length))
  }

  // ---------------------------------------------------------------------------
  // The board's reading of a command: an independent reference for the encoder.

  /** What the board makes of the bytes that open a write. */
  datatype Command =
    | Compact(register: bv8, length: bv8)   // registers 0..60
    | Control(code: bv8)                    // literal command bytes 244..254
    | Truncated

  /** Decode the opening bytes: a byte below 244 is `register << 2 | n`; when
      n is 0 the next byte holds the length. Returns the command and the
      number of bytes it used. */
  function DecodeCommand(bytes: seq<bv8>): (Command, nat)
  {
    if |bytes| == 0 then (Truncated, 0)
    else if bytes[0] < CompactLimit << 2 then
      if bytes[0] & 3 != 0 then (Compact(bytes[0] >> 2, bytes[0] & 3), 1)
      else if |bytes| >= 2 then (Compact(bytes[0] >> 2, bytes[1]), 2)
      else (Truncated, 1)
    else (Control(bytes[0]), 1)
  }

  /** Encoding round-trips through the board's decoding: a register below 61
      comes back with its length (folded when 1..3, explicit otherwise), and a
      control command from 244 up comes back as itself. The payload that
      follows is never consumed as part of the command. */
  lemma EncodeDecode(command: bv8, length: bv8, payload: seq<bv8>)
    requires command < CompactLimit ==> length != NoByte
    requires command >= CompactLimit ==> command >= CompactLimit << 2 && command != NoByte
    ensures var bs := CommandBytes(command, length);
      DecodeCommand(bs + payload) ==
        (if command < CompactLimit then (Compact(command, length), |bs|) else (Control(command), 1))
  {
    var bs := CommandBytes(command, length);
    if command < CompactLimit {
      if 0 < length < 4 {
        assert bs == [(command << 2) + length];
      } else {
        assert bs == [command << 2, length];
      }
    } else {
      assert bs == [command];
    }
    assert (bs + payload)[..|bs|] == bs;
  }

  /** Worked examples of the encoding (the values the protocol documents). */
  lemma CommandBytesExamples()
    ensures CommandBytes(10, 2) == [42]
    ensures CommandBytes(10, 0) == [40, 0]
    ensures CommandBytes(32, 4) == [128, 4]
    ensures CommandBytes(249, 128) == [249]
    ensures CommandBytes(255, 128) == []
  {
  }

  /** A length of 255 to a compact register collides with the "no byte" marker:
      the command byte goes out with no length byte at all. */
  lemma LengthSentinelCollision(command: bv8)
    requires command < CompactLimit
    ensures CommandBytes(command, 255) == [command << 2]
    ensures DecodeCommand(CommandBytes(command, 255)).0 == Truncated
  {
  }

  // ---------------------------------------------------------------------------
  // I2C chunking.

  function Flatten(cs: seq<seq<bv8>>): seq<bv8>
  {
    if cs == [] then [] else cs[0] + Flatten(cs[1..])
  }

  /** The payload split as the I2C loop writes it: at most `cap` bytes in the
      first chunk, at most 32 in each later one, no chunk empty, and the chunks
      concatenate back to the payload. */
  function Chunks(data: seq<bv8>, cap: nat): (cs: seq<seq<bv8>>)
    requires 0 < cap <= 32
    ensures Flatten(cs) == data
    ensures (data == []) == (cs == [])
    ensures forall i :: 0 <= i < |cs| ==> 0 < |cs[i]| <= (if i == 0 then cap else 32)
    ensures forall i :: 0 <= i < |cs| - 1 ==> |cs[i]| == (if i == 0 then cap else 32)
    decreases |data|
  {
    if data == [] then []
    else if |data| <= cap then [data]
    else
      var rest := Chunks(data[cap..], 32);
      assert data == data[..cap] + data[cap..];
      [data[..cap]] + rest
  }

  /** The first chunk's budget: 31 bytes when the length is folded into the
      command byte (or there is no length byte), else 30. */
  function FirstChunk(h: Header): (n: nat)
    ensures 0 < n <= 32 && |HeaderBytes(h)| + n <= 32
  {
    if h.extra == NoByte then 31 else 30
  }

  /** The events for the chunks of one I2C write, starting inside an open
      transmission: each chunk but the last is ended with a non-final
      endTransmission and a new beginTransmission. */
  function I2cChunkEvents(addr: bv8, cs: seq<seq<bv8>>): seq<Event>
  {
    if cs == [] then []
    else if |cs| == 1 then [I2cBuffer(cs[0])]
    else [I2cBuffer(cs[0]), I2cEnd(false), I2cBegin(addr)] + I2cChunkEvents(addr, cs[1..])
  }

  /** One turn of the I2C write loop: the first chunk's events, and either
      the end or a non-final stop, a restart and the rest in chunks of 32. */
  lemma ChunkStep(addr: bv8, rest: seq<bv8>, cap: nat)
    requires 0 < cap <= 32 && rest != []
    ensures |rest| <= cap ==> I2cChunkEvents(addr, Chunks(rest, cap)) == [I2cBuffer(rest)]
    ensures |rest| > cap ==>
      I2cChunkEvents(addr, Chunks(rest, cap))
      == [I2cBuffer(rest[..cap]), I2cEnd(false), I2cBegin(addr)] + I2cChunkEvents(addr, Chunks(rest[cap..], 32))
  {
    if |rest| > cap {
      var cs := Chunks(rest, cap);
      assert cs == [rest[..cap]] + Chunks(rest[cap..], 32);
      assert cs[1..] == Chunks(rest[cap..], 32);
    }
  }

  /** The I2C write loop's last turn: the remaining chunk goes out and the
      final stop completes the expected events. */
  lemma LastChunkTurn(addr: bv8, before: seq<Event>, rest: seq<bv8>, cap: nat, goal: seq<Event>)
    requires 0 < cap <= 32 && 0 < |rest| <= cap
    requires before + (I2cChunkEvents(addr, Chunks(rest, cap)) + [I2cEnd(true)]) == goal
    ensures before + [I2cBuffer(rest)] + [I2cEnd(true)] == goal
  {
    ChunkStep(addr, rest, cap);
    Assoc(before, [I2cBuffer(rest)], [I2cEnd(true)]);
  }

  /** A turn of the I2C write loop that is not the last: a full chunk, a
      non-final stop and a restart, leaving the rest in chunks of 32. */
  lemma FullChunkTurn(addr: bv8, before: seq<Event>, rest: seq<bv8>, cap: nat, goal: seq<Event>)
    requires 0 < cap <= 32 && |rest| > cap
    requires before + (I2cChunkEvents(addr, Chunks(rest, cap)) + [I2cEnd(true)]) == goal
    ensures before + [I2cBuffer(rest[..cap])] + [I2cEnd(false), I2cBegin(addr)]
          + (I2cChunkEvents(addr, Chunks(rest[cap..], 32)) + [I2cEnd(true)]) == goal
  {
    ChunkStep(addr, rest, cap);
    var q := [I2cBuffer(rest[..cap])];
    var r := [I2cEnd(false), I2cBegin(addr)];
    var y := I2cChunkEvents(addr, Chunks(rest[cap..], 32));
    var e := [I2cEnd(true)];
    Assoc(before + q, r, y + e);
    Assoc(before, q, r + (y + e));
    Assoc(q + r, y, e);
    Assoc(q, r, y + e);
    assert [I2cBuffer(rest[..cap]), I2cEnd(false), I2cBegin(addr)] == q + r;
  }

  /** After the opening of an I2C write, the chunks and the final stop are
      what completes its frame. */
  lemma I2cFrameAfterOpening(before: seq<Event>, addr: bv8, h: Header, data: seq<bv8>)
    ensures (before + [I2cBegin(addr)] + I2cBytes(HeaderBytes(h)))
      + (I2cChunkEvents(addr, Chunks(data, FirstChunk(h))) + [I2cEnd(true)])
      == before + I2cFrame(addr, h, data)
  {
    var p := [I2cBegin(addr)] + I2cBytes(HeaderBytes(h));
    var c := I2cChunkEvents(addr, Chunks(data, FirstChunk(h)));
    var e := [I2cEnd(true)];
    Assoc(p, c, e);
    Assoc(before, p, c + e);
  }

  lemma Assoc<T>(a: seq<T>, b: seq<T>, c: seq<T>)
    ensures (a + b) + c == a + (b + c)
  {
  }

  function SpiBytes(bs: seq<bv8>): seq<Event>
  {
    if bs == [] then [] else [SpiByte(bs[0])] + SpiBytes(bs[1..])
  }

  function I2cBytes(bs: seq<bv8>): seq<Event>
  {
    if bs == [] then [] else [I2cByte(bs[0])] + I2cBytes(bs[1..])
  }

  /** The events of one write of `data` to `command`: SPI when an SPI bus was
      given (even if an I2C bus was too), else I2C, else nothing. */
  function Frame(link: Link, command: bv8, data: seq<bv8>): seq<Event>
    requires |data| < 256
  {
    var h := EncodeHeader(command, |data| as bv8);
    if link.spi then SpiFrame(link.spiPin, h, data)
    else if link.i2c then I2cFrame(link.i2cAddr, h, data)
    else []
  }

  /** The SPI events of one write: one transaction with select held low
      around the header bytes and the payload. */
  function SpiFrame(pin: bv8, h: Header, data: seq<bv8>): seq<Event>
  {
    [SpiBeginTransaction, SelectLow(pin)] + SpiBytes(HeaderBytes(h))
    + (if |data| > 0 then [SpiBuffer(data)] else [])
    + [SelectHigh(pin), SpiEndTransaction]
  }

  /** An SPI frame is the events of its steps, one after the other. */
  lemma SpiFrameInParts(t0: seq<Event>, pin: bv8, h: Header, data: seq<bv8>,
                        command: seq<Event>, extra: seq<Event>, payload: seq<Event>)
    requires SpiBytes(HeaderBytes(h)) == command + extra
    requires payload == if |data| > 0 then [SpiBuffer(data)] else []
    ensures t0 + [SpiBeginTransaction, SelectLow(pin)] + command + extra + payload + [SelectHigh(pin), SpiEndTransaction]
         == t0 + SpiFrame(pin, h, data)
  {
    var open, close := [SpiBeginTransaction, SelectLow(pin)], [SelectHigh(pin), SpiEndTransaction];
    assert t0 + open + command + extra + payload + close == t0 + (open + (command + extra) + payload + close);
  }

  /** The I2C events of one write: one transmission opened with the command
      bytes, the payload in chunks, and a final stop. */
  function I2cFrame(addr: bv8, h: Header, data: seq<bv8>): seq<Event>
  {
    [I2cBegin(addr)] + I2cBytes(HeaderBytes(h))
    + I2cChunkEvents(addr, Chunks(data, FirstChunk(h)))
    + [I2cEnd(true)]
  }

  /** A payload the one-byte length field can count. */
  type Payload = d: seq<bv8> | |d| < 256

  /** One call of _send as a value: the command byte and its payload. */
  datatype Write = Write(command: bv8, data: Payload)

  /** The events of several writes, one frame after another. */
  function Frames(link: Link, ws: seq<Write>): seq<Event>
    decreases |ws|
  {
    if ws == [] then [] else Frame(link, ws[0].command, ws[0].data) + Frames(link, ws[1..])
  }

  /** Two runs of writes in a row make their frames in a row. */
  lemma {:induction false} FramesAppend(link: Link, a: seq<Write>, b: seq<Write>)
    ensures Frames(link, a + b) == Frames(link, a) + Frames(link, b)
    decreases |a|
  {
    if a == [] {
      assert a + b == b;
    } else {
      var head, tail := Frame(link, a[0].command, a[0].data), a[1..];
      FramesCons(link, a[0], tail + b);
      assert a + b == [a[0]] + (tail + b);
      FramesAppend(link, tail, b);
      Assoc(head, Frames(link, tail), Frames(link, b));
    }
  }

  /** The frames of a list are its first write's frame, then the rest's. */
  lemma FramesCons(link: Link, w: Write, ws: seq<Write>)
    ensures Frames(link, [w] + ws) == Frame(link, w.command, w.data) + Frames(link, ws)
  {
    assert ([w] + ws)[0] == w && ([w] + ws)[1..] == ws;
  }

  /** A single write's frame is the frames of the one-write list. */
  lemma FramesOne(link: Link, w: Write)
    ensures Frames(link, [w]) == Frame(link, w.command, w.data)
  {
    assert [w][1..] == [];
  }

  /** A trace ending in the frames of `ws`, followed by the frame of w, ends
      in the frames of ws + [w]. */
  lemma FramesThen(before: seq<Event>, link: Link, ws: seq<Write>, w: Write)
    ensures (before + Frames(link, ws)) + Frame(link, w.command, w.data) == before + Frames(link, ws + [w])
  {
    FramesOne(link, w);
    FramesAppend(link, ws, [w]);
    Assoc(before, Frames(link, ws), Frames(link, [w]));
  }

  /** Four writes in a row, each appending its frame, append the frames of
      the four. */
  lemma FourFrames(link: Link, t0: seq<Event>, t1: seq<Event>, t2: seq<Event>, t3: seq<Event>, t4: seq<Event>,
                   w0: Write, w1: Write, w2: Write, w3: Write)
    requires t1 == t0 + Frame(link, w0.command, w0.data)
    requires t2 == t1 + Frame(link, w1.command, w1.data)
    requires t3 == t2 + Frame(link, w2.command, w2.data)
    requires t4 == t3 + Frame(link, w3.command, w3.data)
    ensures t4 == t0 + Frames(link, [w0] + [w1] + [w2] + [w3])
  {
    FramesOne(link, w0);
    FramesThen(t0, link, [w0], w1);
    FramesThen(t0, link, [w0] + [w1], w2);
    FramesThen(t0, link, [w0] + [w1] + [w2], w3);
  }

  /** The same for a whole run of writes. */
  lemma FramesThenAll(before: seq<Event>, link: Link, a: seq<Write>, b: seq<Write>)
    ensures (before + Frames(link, a)) + Frames(link, b) == before + Frames(link, a + b)
  {
    FramesAppend(link, a, b);
    Assoc(before, Frames(link, a), Frames(link, b));
  }

  // ---------------------------------------------------------------------------
  // A bus analyser's view, the reference the framing is checked against.

  /** One I2C transmission as the bus sees it. */
  datatype Transmission = Transmission(addr: bv8, bytes: seq<bv8>, stop: bool)

  /** The receiver's state: between transmissions, or inside one. */
  datatype Receiver = Idle | Receiving(addr: bv8, bytes: seq<bv8>)

  function Accept(r: Receiver, bs: seq<bv8>): Receiver
  {
    match r
    case Idle => Idle
    case Receiving(a, got) => Receiving(a, got + bs)
  }

  /** The transmissions an I2C bus carries for a list of events. */
  function Transmissions(evs: seq<Event>, r: Receiver): seq<Transmission>
    decreases |evs|
  {
    if evs == [] then []
    else match evs[0]
      case I2cBegin(a) => Transmissions(evs[1..], Receiving(a, []))
      case I2cByte(b) => Transmissions(evs[1..], Accept(r, [b]))
      case I2cBuffer(bs) => Transmissions(evs[1..], Accept(r, bs))
      case I2cEnd(stop) =>
        (if r.Receiving? then [Transmission(r.addr, r.bytes, stop)] else [])
        + Transmissions(evs[1..], Idle)
      case _ => Transmissions(evs[1..], r)
  }

  function AllBytes(ts: seq<Transmission>): seq<bv8>
  {
    if ts == [] then [] else ts[0].bytes + AllBytes(ts[1..])
  }

  lemma TransmissionsBytes(a: bv8, got: seq<bv8>, bs: seq<bv8>, rest: seq<Event>)
    ensures Transmissions(I2cBytes(bs) + rest, Receiving(a, got)) == Transmissions(rest, Receiving(a, got + bs))
    decreases |bs|
  {
    if bs != [] {
      assert (I2cBytes(bs) + rest)[0] == I2cByte(bs[0]);
      assert (I2cBytes(bs) + rest)[1..] == I2cBytes(bs[1..]) + rest;
      TransmissionsBytes(a, got + [bs[0]], bs[1..], rest);
      assert got + [bs[0]] + bs[1..] == got + bs;
    } else {
      assert I2cBytes(bs) + rest == rest;
      assert got + bs == got;
    }
  }

  /** The transmissions a receiver should see for chunks `cs` sent inside a
      transmission that already carries `got`: one per chunk (the first one
      also carrying `got`), all to `a`, only the last one ended with a stop. */
  function ChunkTransmissions(a: bv8, got: seq<bv8>, cs: seq<seq<bv8>>): (ts: seq<Transmission>)
    ensures |ts| == (if cs == [] then 1 else |cs|)
    ensures ts[0].bytes == got + (if cs == [] then [] else cs[0])
    ensures forall i :: 1 <= i < |ts| ==> ts[i].bytes == cs[i]
    ensures forall i :: 0 <= i < |ts| ==> ts[i].addr == a && ts[i].stop == (i == |ts| - 1)
    decreases |cs|
  {
    if cs == [] then
      assert got + [] == got;
      [Transmission(a, got, true)]
    else if |cs| == 1 then
      [Transmission(a, got + cs[0], true)]
    else
      var rest := ChunkTransmissions(a, [], cs[1..]);
      var ts := [Transmission(a, got + cs[0], false)] + rest;
      assert forall i :: 1 <= i < |ts| ==> ts[i] == rest[i - 1] && cs[1..][i - 1] == cs[i];
      ts
  }

  lemma AllBytesCons(t: Transmission, ts: seq<Transmission>)
    ensures AllBytes([t] + ts) == t.bytes + AllBytes(ts)
  {
    assert ([t] + ts)[1..] == ts;
  }

  /** Together those transmissions carry `got` and then every chunk, in order. */
  lemma {:induction false} ChunkTransmissionsCarryAll(a: bv8, got: seq<bv8>, cs: seq<seq<bv8>>)
    ensures AllBytes(ChunkTransmissions(a, got, cs)) == got + Flatten(cs)
    decreases |cs|
  {
    if |cs| >= 2 {
      ChunkTransmissionsCarryAll(a, [], cs[1..]);
      ChunkCarryStep(a, got, cs);
    } else {
      ChunkCarryLast(a, got, cs);
    }
  }

  lemma ChunkCarryLast(a: bv8, got: seq<bv8>, cs: seq<seq<bv8>>)
    requires |cs| <= 1
    ensures AllBytes(ChunkTransmissions(a, got, cs)) == got + Flatten(cs)
  {
    var ts := ChunkTransmissions(a, got, cs);
    if cs == [] {
      assert AllBytes(ts) == got + AllBytes([]);
    } else {
      assert Flatten(cs) == cs[0] + Flatten(cs[1..]);
      assert AllBytes(ts) == got + cs[0] + AllBytes([]);
    }
  }

  lemma ChunkCarryStep(a: bv8, got: seq<bv8>, cs: seq<seq<bv8>>)
    requires |cs| >= 2
    requires AllBytes(ChunkTransmissions(a, [], cs[1..])) == [] + Flatten(cs[1..])
    ensures AllBytes(ChunkTransmissions(a, got, cs)) == got + Flatten(cs)
  {
    var rest := ChunkTransmissions(a, [], cs[1..]);
    assert ChunkTransmissions(a, got, cs) == [Transmission(a, got + cs[0], false)] + rest;
    AllBytesCons(Transmission(a, got + cs[0], false), rest);
    assert [] + Flatten(cs[1..]) == Flatten(cs[1..]);
    assert Flatten(cs) == cs[0] + Flatten(cs[1..]);
    Assoc(got, cs[0], Flatten(cs[1..]));
  }

  /** The receiver's reading of the chunk events is the expected one. */
  lemma {:induction false} TransmissionsOfChunks(a: bv8, got: seq<bv8>, cs: seq<seq<bv8>>)
    ensures Transmissions(I2cChunkEvents(a, cs) + [I2cEnd(true)], Receiving(a, got))
         == ChunkTransmissions(a, got, cs)
    decreases |cs|
  {
    var evs := I2cChunkEvents(a, cs) + [I2cEnd(true)];
    if cs == [] {
      assert evs == [I2cEnd(true)];
      assert evs[1..] == [];
    } else if |cs| == 1 {
      assert evs == [I2cBuffer(cs[0]), I2cEnd(true)];
      assert evs[1..] == [I2cEnd(true)];
      assert evs[1..][1..] == [];
      assert Transmissions(evs, Receiving(a, got)) == Transmissions(evs[1..], Receiving(a, got + cs[0]));
    } else {
      var tail := I2cChunkEvents(a, cs[1..]) + [I2cEnd(true)];
      assert evs == [I2cBuffer(cs[0]), I2cEnd(false), I2cBegin(a)] + tail;
      assert evs[1..] == [I2cEnd(false), I2cBegin(a)] + tail;
      assert evs[1..][1..] == [I2cBegin(a)] + tail;
      assert evs[1..][1..][1..] == tail;
      TransmissionsOfChunks(a, [], cs[1..]);
      assert Transmissions(evs, Receiving(a, got)) == Transmissions(evs[1..], Receiving(a, got + cs[0]));
      assert Transmissions(evs[1..], Receiving(a, got + cs[0]))
          == [Transmission(a, got + cs[0], false)] + Transmissions(evs[1..][1..], Idle);
    }
  }

  /** Over I2C, a write is a run of transmissions to the current address that
      together carry the command bytes and then the payload; each carries at
      most 32 bytes; all but the last end without a stop and the last ends with
      one; an empty payload is one header-only transmission. */
  lemma I2cFraming(link: Link, command: bv8, data: seq<bv8>)
    requires |data| < 256 && !link.spi && link.i2c
    ensures var ts := Transmissions(Frame(link, command, data), Idle);
      var hb := CommandBytes(command, |data| as bv8);
      && |ts| > 0
      && AllBytes(ts) == hb + data
      && (forall i :: 0 <= i < |ts| ==> |ts[i].bytes| <= 32)
      && (forall i :: 0 <= i < |ts| ==> ts[i].addr == link.i2cAddr && ts[i].stop == (i == |ts| - 1))
      && (data == [] ==> ts == [Transmission(link.i2cAddr, hb, true)])
  {
    var h := EncodeHeader(command, |data| as bv8);
    var cs := Chunks(data, FirstChunk(h));
    I2cFrameReading(link, command, data);
    ChunkTransmissionsCarryAll(link.i2cAddr, HeaderBytes(h), cs);
  }

  /** The receiver's reading of an I2C frame: the chunk transmissions, the
      first one opened by the command bytes. */
  lemma I2cFrameReading(link: Link, command: bv8, data: seq<bv8>)
    requires |data| < 256 && !link.spi && link.i2c
    ensures var h := EncodeHeader(command, |data| as bv8);
      Transmissions(Frame(link, command, data), Idle)
      == ChunkTransmissions(link.i2cAddr, HeaderBytes(h), Chunks(data, FirstChunk(h)))
  {
    var h := EncodeHeader(command, |data| as bv8);
    assert Frame(link, command, data) == I2cFrame(link.i2cAddr, h, data);
    I2cEventsReading(link.i2cAddr, h, data);
  }

  lemma I2cEventsReading(a: bv8, h: Header, data: seq<bv8>)
    ensures Transmissions(I2cFrame(a, h, data), Idle)
         == ChunkTransmissions(a, HeaderBytes(h), Chunks(data, FirstChunk(h)))
  {
    var hb := HeaderBytes(h);
    var cs := Chunks(data, FirstChunk(h));
    var body := I2cChunkEvents(a, cs) + [I2cEnd(true)];
    var evs := I2cFrame(a, h, data);
    assert evs == [I2cBegin(a)] + (I2cBytes(hb) + body);
    assert evs[1..] == I2cBytes(hb) + body;
    TransmissionsBytes(a, [], hb, body);
    assert [] + hb == hb;
    TransmissionsOfChunks(a, hb, cs);
  }

  /** The header bytes as separate bus writes, each one present unless it
      is NoByte. */
  lemma HeaderWrites(h: Header)
    ensures SpiBytes(HeaderBytes(h))
         == (if h.command != NoByte then [SpiByte(h.command)] else [])
          + (if h.extra != NoByte then [SpiByte(h.extra)] else [])
    ensures I2cBytes(HeaderBytes(h))
         == (if h.command != NoByte then [I2cByte(h.command)] else [])
          + (if h.extra != NoByte then [I2cByte(h.extra)] else [])
  {
    var bs := HeaderBytes(h);
    if |bs| == 2 {
      assert bs == [h.command, h.extra] && bs[1..] == [h.extra] && bs[1..][1..] == [];
      assert SpiBytes(bs[1..]) == [SpiByte(h.extra)];
      assert I2cBytes(bs[1..]) == [I2cByte(h.extra)];
    } else if |bs| == 1 {
      assert bs[1..] == [];
    }
  }

  lemma SpiBytesSent(bs: seq<bv8>)
    ensures |SpiBytes(bs)| == |bs|
    ensures forall i :: 0 <= i < |bs| ==> SpiBytes(bs)[i] == SpiByte(bs[i])
    decreases |bs|
  {
    if bs != [] {
      SpiBytesSent(bs[1..]);
    }
  }

  /** Over SPI (chosen whenever an SPI bus was given), a write is one
      transaction: select goes low first and high last, and in between the
      command bytes go out one by one and then the payload as one buffer. */
  lemma SpiFraming(link: Link, command: bv8, data: seq<bv8>)
    requires |data| < 256 && link.spi
    ensures var evs := Frame(link, command, data);
      var hb := CommandBytes(command, |data| as bv8);
      && |evs| == 4 + |hb| + (if data == [] then 0 else 1)
      && evs[..2] == [SpiBeginTransaction, SelectLow(link.spiPin)]
      && evs[|evs| - 2..] == [SelectHigh(link.spiPin), SpiEndTransaction]
      && (forall i :: 0 <= i < |hb| ==> evs[2 + i] == SpiByte(hb[i]))
      && (data != [] ==> evs[2 + |hb|] == SpiBuffer(data))
  {
    SpiBytesSent(CommandBytes(command, |data| as bv8));
  }

  /** With no bus given, a write emits nothing. */
  lemma NoTransportIsSilent(link: Link, command: bv8, data: seq<bv8>)
    requires |data| < 256 && !link.spi && !link.i2c
    ensures Frame(link, command, data) == []
  {
  }

  /** Worked example: the two writes of storeCustomWave, each a 128-byte
      half of the wave, go out over I2C in chunks of 31, 32, 32, 32 and 1
      bytes. */
  lemma WaveUploadChunks(data: seq<bv8>)
    requires |data| == 128
    ensures var cs := Chunks(data, FirstChunk(EncodeHeader(249, 128)));
      |cs| == 5 && |cs[0]| == 31 && |cs[1]| == 32 && |cs[2]| == 32 && |cs[3]| == 32 && |cs[4]| == 1
  {
    var cs := Chunks(data, 31);
    assert cs == [data[..31]] + Chunks(data[31..], 32);
    var c1 := Chunks(data[31..], 32);
    assert c1 == [data[31..][..32]] + Chunks(data[31..][32..], 32);
    var c2 := Chunks(data[31..][32..], 32);
    assert c2 == [data[31..][32..][..32]] + Chunks(data[31..][32..][32..], 32);
    var c3 := Chunks(data[31..][32..][32..], 32);
    assert c3 == [data[31..][32..][32..][..32]] + Chunks(data[31..][32..][32..][32..], 32);
  }
}
