/** The C++ frame engine: `ProtoFrame` with the `send` and `processQueue`
    of its subclass `C110PSerial`.

    Commands are nanopb `C110PCommand` structs; the nanopb encoder and
    decoder are not part of this model and are parameters of the
    configuration (`encode`, `decode`), as are the clock and the callbacks.
    As on the Python side, each operation is a function on the value
    `State` and a method of the class `C110PSerial` proved to change the
    object exactly as that function says. */
module ProtoFrameCpp {
  import opened Common
  import History
  import opened Crc8Spec
  import RingBufferCpp
  import Crc8Cpp

  const START_BYTE: byte := 0xAA
  const MAX_SIZE: nat := 128
  const BUFFER_MESSAGE_MAX_SIZE: nat := 256

  /** `which_data`: 0 when no member of the `data` oneof is set. */
  datatype Tag = NoData | AckTag | LedTag | MoveTag | SoundTag

  datatype AckCommand = AckCommand(acknowledged: bool, reason: string)
  datatype LedCommand = LedCommand(start: u32, end: u32, duration: u32)
  datatype MoveCommand = MoveCommand(target: int, x: u32, y: u32, z: u32)
  datatype SoundCommand = SoundCommand(id: u32, play: bool, syncToLeds: bool)

  /** `C110PCommand`: the header fields, the oneof tag and the members of
      the `data` union, each kept in its own field. */
  datatype Cmd = Cmd(
    id: u32, source: int, target: int, which: Tag,
    ack: AckCommand, led: LedCommand, move: MoveCommand, sound: SoundCommand)

  /** `C110PCommand_init_default`: every field zero, no oneof member set. */
  const INIT_DEFAULT: Cmd :=
    Cmd(0, 0, 0, NoData, AckCommand(false, ""), LedCommand(0, 0, 0), MoveCommand(0, 0, 0, 0), SoundCommand(0, false, false))

  function Id(m: Cmd): u32 {
    m.id
  }

  /** An entry of `m_messageInfoMap`. */
  datatype Info = Info(lastProcessedTimestamp: u32, retryCount: nat)

  /** A user callback made, with its argument. */
  datatype Call = LedCall(led: LedCommand) | MoveCall(move: MoveCommand) | SoundCall(sound: SoundCommand)

  /** What the object is built with: the timeout and the retry limit, the
      timestamp provider indexed by the number of readings taken before,
      nanopb's `pb_encode` (None when it fails) and `pb_decode` (None when
      it fails), and whether each callback is set. */
  datatype Config = Config(
    timeout: nat, maxRetries: nat, clock: nat -> u32,
    encode: Cmd -> Option<seq<byte>>, decode: seq<byte> -> Option<Cmd>,
    ledCallback: bool, moveCallback: bool, soundCallback: bool)

  /** The frame assembler: `m_inputIndex`, `m_inputLength`, `m_inputCrc`
      and the contents of `m_inputBuffer`. */
  datatype Asm = Asm(index: int, length: int, crc: byte, buf: seq<byte>)

  datatype State = State(
    sent: seq<Cmd>, received: seq<Cmd>, pending: map<u32, Info>,
    asm: Asm, input: seq<byte>, out: seq<byte>, script: seq<bool>, ticks: nat, calls: seq<Call>)

  predicate AsmOk(a: Asm) {
    |a.buf| == BUFFER_MESSAGE_MAX_SIZE && 0 <= a.index < BUFFER_MESSAGE_MAX_SIZE &&
    0 <= a.length < MAX_SIZE
  }

  function Idle(a: Asm): Asm {
    a.(index := 0, length := 0, crc := 0)
  }

  /** `getSafeTimestamp` at reading `t`. */
  function Reading(c: Config, t: nat): u32 {
    c.clock(t)
  }

  /** `pb_encode` into the `MAX_SIZE` buffer of `send`: it fails when the
      encoder fails or the encoding does not fit. */
  function PbEncode(c: Config, m: Cmd): (r: Option<seq<byte>>)
    ensures r.Some? <==> c.encode(m).Some? && |c.encode(m).value| <= MAX_SIZE
    ensures r.Some? ==> r.value == c.encode(m).value
  {
    match c.encode(m)
    case Some(b) => if |b| <= MAX_SIZE then Some(b) else None
    case None => None
  }

  // ---------------------------------------------------------------------
  // Specification of each operation

  /** The bookkeeping `send` does before writing: the message enters the
      sent history and its id gets a fresh entry `{now, 0}`, whatever entry
      it had. */
  function Book(c: Config, s: State, m: Cmd): State {
    s.(sent := History.Add(s.sent, Id, m),
       pending := s.pending[m.id := Info(Reading(c, s.ticks), 0)],
       ticks := s.ticks + 1)
  }

  /** One `write` on the stream: the next scripted outcome (a stream with no
      script left accepts) decides whether the bytes go out; the result is
      the number of bytes written, so writing nothing returns 0. */
  function WriteSpec(s: State, data: seq<byte>): (State, nat) {
    var ok := |s.script| == 0 || s.script[0];
    (s.(out := if ok then s.out + data else s.out, script := if |s.script| == 0 then [] else s.script[1..]),
     if ok then |data| else 0)
  }

  /** The writes of `send`: start byte, length, payload, checksum, stopping
      at the first that returns 0. */
  function FrameSpec(s: State, p: seq<byte>): (State, bool)
    requires |p| <= MAX_SIZE
  {
    var w1 := WriteSpec(s, [START_BYTE]);
    if w1.1 == 0 then (w1.0, false) else
    var w2 := WriteSpec(w1.0, [|p| as bv8]);
    if w2.1 == 0 then (w2.0, false) else
    var w3 := WriteSpec(w2.0, p);
    if w3.1 == 0 then (w3.0, false) else
    var w4 := WriteSpec(w3.0, [Checksum(p)]);
    (w4.0, w4.1 != 0)
  }

  /** `C110PSerial::send`: encode; on success book the message, then write
      the frame. */
  function SendSpec(c: Config, s: State, m: Cmd): (State, bool) {
    var e := PbEncode(c, m);
    if e.None? then (s, false) else FrameSpec(Book(c, s, m), e.value)
  }

  /** The command `sendAck` builds, as written: `C110PCommand_init_default`
      with the id and the ack member set, and `which_data` left at 0. */
  function AckCommandAsWritten(id: u32): Cmd {
    INIT_DEFAULT.(id := id, ack := AckCommand(true, ""))
  }

  /** The command `sendNack` builds, as written. */
  function NackCommandAsWritten(id: u32, reason: string): Cmd {
    INIT_DEFAULT.(id := id, ack := AckCommand(false, reason))
  }

  /** The ack with its oneof tag set, as a receiver needs it. */
  function AckMessage(id: u32): (r: Cmd)
    ensures r == AckCommandAsWritten(id).(which := AckTag)
  {
    INIT_DEFAULT.(id := id, which := AckTag, ack := AckCommand(true, ""))
  }

  /** The NACK with its oneof tag set. */
  function NackMessage(id: u32, reason: string): (r: Cmd)
    ensures r == NackCommandAsWritten(id, reason).(which := AckTag)
  {
    INIT_DEFAULT.(id := id, which := AckTag, ack := AckCommand(false, reason))
  }

  /** `sendAck`. */
  function SendAckSpec(c: Config, s: State, id: u32): State {
    SendSpec(c, s, AckMessage(id)).0
  }

  /** `sendNack`. */
  function SendNackSpec(c: Config, s: State, id: u32, reason: string): State {
    SendSpec(c, s, NackMessage(id, reason)).0
  }

  /** `handleAck`: erase the entry. */
  function HandleAckSpec(s: State, id: u32): State {
    s.(pending := s.pending - {id})
  }

  /** `resendMessage`: a pending entry gets a new timestamp and one more
      retry, then the message is sent. */
  function ResendSpec(c: Config, s: State, m: Cmd): State {
    SendSpec(c, Refresh(c, s, m.id), m).0
  }

  /** The first part of `resendMessage`: a pending entry gets a new
      timestamp and one more retry. */
  function Refresh(c: Config, s: State, id: u32): State {
    if id in s.pending then
      s.(pending := s.pending[id := Info(Reading(c, s.ticks), s.pending[id].retryCount + 1)],
         ticks := s.ticks + 1)
    else s
  }

  /** `handleNack`: resend a stored message whose id is pending. */
  function HandleNackSpec(c: Config, s: State, id: u32): State {
    var m := History.Find(s.sent, Id, id);
    if m.Some? && id in s.pending then ResendSpec(c, s, m.value) else s
  }

  /** `processCallback`: dispatch on `which_data`. */
  function ProcessCallbackSpec(c: Config, s: State, m: Cmd): State {
    match m.which
    case AckTag => if m.ack.acknowledged then HandleAckSpec(s, m.id) else HandleNackSpec(c, s, m.id)
    case LedTag => if c.ledCallback then s.(calls := s.calls + [LedCall(m.led)]) else s
    case MoveTag => if c.moveCallback then s.(calls := s.calls + [MoveCall(m.move)]) else s
    case SoundTag => if c.soundCallback then s.(calls := s.calls + [SoundCall(m.sound)]) else s
    case NoData => s
  }

  /** `receiveMessage`: a payload that does not decode is dropped silently;
      a known id is acked again; a new one is stored, acked and
      dispatched. */
  function ReceiveMessageSpec(c: Config, s: State, raw: seq<byte>): State {
    var d := c.decode(raw);
    if d.None? then s
    else if History.Has(s.received, Id, d.value.id) then SendAckSpec(c, s, d.value.id)
    else
      var s1 := s.(received := History.Add(s.received, Id, d.value));
      ProcessCallbackSpec(c, SendAckSpec(c, s1, d.value.id), d.value)
  }

  /** What feeding one byte to the assembler does. */
  datatype Event = Next | TooLong | Checked(payload: seq<byte>, matches: bool)

  /** One byte of `readFrame` after the read: a START byte opens a frame;
      the next byte is the length, where a byte of 0x80 or more is a
      negative `int8_t` that becomes a huge `size_t`, so every length above
      MAX_SIZE - 1 is refused; the byte after `length` payload bytes is the
      checksum; payload bytes are stored while the buffer has room. */
  function Feed(a: Asm, b: byte): (r: (Asm, Event))
    requires AsmOk(a)
    ensures AsmOk(r.0)
  {
    if a.index == 0 && b == START_BYTE then (a.(index := 1), Next)
    else if a.index == 1 then
      if b as int > MAX_SIZE - 1 then (Idle(a), TooLong)
      else (a.(length := b as int, index := 2), Next)
    else if a.index == a.length + 2 then
      var payload := a.buf[..a.length];
      (a.(crc := b), Checked(payload, Checksum(payload) == b))
    else if a.index > 1 then
      if a.index < BUFFER_MESSAGE_MAX_SIZE - 1 then (a.(buf := a.buf[a.index - 2 := b], index := a.index + 1), Next)
      else (a.(index := 0), Next)
    else (a, Next)
  }

  /** How a call of `readFrame` ends. */
  datatype End = Exhausted | TimedOut | ReadFailed | BadLength | BadCrc | Complete(payload: seq<byte>)

  datatype Scanned = Scanned(asm: Asm, rest: seq<byte>, ticks: nat, end: End)

  /** The loop of `readFrame` from assembler `a` over the unread bytes,
      with the call's first reading `start` and the next reading `t`. Each
      round reads the clock and stops once more than `timeout` has passed
      (32-bit wrapping subtraction). With `stopAtFF`, a byte 0xFF stops the
      loop: `read()` is stored in an `int8_t`, where 0xFF is -1, the value
      that means nothing was read. */
  function ScanWith(c: Config, a: Asm, input: seq<byte>, start: u32, t: nat, stopAtFF: bool): (r: Scanned)
    requires AsmOk(a)
    ensures AsmOk(r.asm)
    decreases |input|
  {
    if |input| == 0 then Scanned(a, input, t, Exhausted)
    else if Sub32(Reading(c, t), start) > c.timeout then Scanned(a, input, t + 1, TimedOut)
    else if stopAtFF && input[0] == 0xFF then Scanned(a, input[1..], t + 1, ReadFailed)
    else
      var f := Feed(a, input[0]);
      match f.1
      case Next => ScanWith(c, f.0, input[1..], start, t + 1, stopAtFF)
      case TooLong => Scanned(f.0, input[1..], t + 1, BadLength)
      case Checked(p, ok) =>
        if ok then Scanned(f.0, input[1..], t + 1, Complete(p))
        else Scanned(Idle(f.0), input[1..], t + 1, BadCrc)
  }

  /** The loop as written: a data byte 0xFF ends it. */
  function ScanAsWritten(c: Config, a: Asm, input: seq<byte>, start: u32, t: nat): Scanned
    requires AsmOk(a)
  {
    ScanWith(c, a, input, start, t, true)
  }

  /** The loop with the read checked before it is narrowed to a byte, so
      that every data byte is handled. */
  function Scan(c: Config, a: Asm, input: seq<byte>, start: u32, t: nat): Scanned
    requires AsmOk(a)
  {
    ScanWith(c, a, input, start, t, false)
  }

  /** `readFrame`: scan; on a complete frame, hand its payload to
      `receiveMessage`, then return the assembler to idle. */
  function ReadFrameSpec(c: Config, s: State): (State, bool)
    requires AsmOk(s.asm)
  {
    var sc := Scan(c, s.asm, s.input, Reading(c, s.ticks), s.ticks + 1);
    var s1 := s.(asm := sc.asm, input := sc.rest, ticks := sc.ticks);
    if sc.end.Complete? then
      var s2 := ReceiveMessageSpec(c, s1, sc.end.payload);
      (s2.(asm := Idle(s2.asm)), true)
    else (s1, false)
  }

  /** One entry of the `retryMessages` sweep: a stored message whose time
      is up (64-bit wrapping subtraction) and whose retries are not used up
      is resent; a stored message whose retries are used up has its entry
      erased; an entry whose message has left the history stays. */
  function RetryStep(c: Config, s: State, now: u32, k: u32, info: Info): State {
    var m := History.Find(s.sent, Id, k);
    if m.Some? && Sub64(now, info.lastProcessedTimestamp) >= c.timeout && info.retryCount < c.maxRetries then
      ResendSpec(c, s, m.value)
    else if m.Some? && info.retryCount >= c.maxRetries then s.(pending := s.pending - {k})
    else s
  }

  /** The sweep over the entries of a snapshot of the table, in `keys`
      order. */
  function RetryLoop(c: Config, s: State, now: u32, keys: seq<u32>, snap: map<u32, Info>): State
    requires forall k <- keys :: k in snap
    decreases |keys|
  {
    if |keys| == 0 then s
    else RetryLoop(c, RetryStep(c, s, now, keys[0], snap[keys[0]]), now, keys[1..], snap)
  }

  /** `keys` lists every pending id once: the iteration order of the map. */
  predicate Enumerates(keys: seq<u32>, m: map<u32, Info>) {
    Distinct(keys) && (forall k <- keys :: k in m) && (forall k <- m :: k in keys)
  }

  /** `retryMessages`: one clock reading, then the sweep. */
  function RetrySpec(c: Config, s: State, keys: seq<u32>): State
    requires Enumerates(keys, s.pending)
  {
    RetryLoop(c, s.(ticks := s.ticks + 1), Reading(c, s.ticks), keys, s.pending)
  }

  // ---------------------------------------------------------------------
  // The object

  class C110PSerial {
    const cfg: Config
    /** `m_sentMessageBuffer`. */
    const sent: RingBufferCpp.RingBuffer<Cmd>
    /** `m_receivedMessageBuffer`. */
    const received: RingBufferCpp.RingBuffer<Cmd>
    /** `m_inputBuffer[BUFFER_MESSAGE_MAX_SIZE]`. */
    const inputBuffer: array<byte>
    const crc8: Crc8Cpp.Crc8

    /** `m_messageInfoMap`. */
    var pending: map<u32, Info>
    var inputIndex: int
    var inputLength: int
    var inputCrc: byte
    /** The stream: bytes not yet read, bytes written, and the outcomes of
        the next writes. */
    var input: seq<byte>
    var out: seq<byte>
    var script: seq<bool>
    /** Clock readings taken so far. */
    var ticks: nat
    /** Callbacks made so far. */
    var calls: seq<Call>

    ghost function Repr(): set<object> {
      {this, sent, sent.buffer, received, received.buffer, inputBuffer}
    }

    ghost predicate Valid()
      reads this, sent, sent.buffer, received, received.buffer, inputBuffer, crc8, crc8.table
    {
      sent.Valid() && received.Valid() &&
      sent.idOf == Id && received.idOf == Id &&
      sent != received && sent.buffer != received.buffer &&
      AsmValid()
    }

    /** The part of `Valid` the frame assembler relies on. */
    ghost predicate AsmValid()
      reads this, inputBuffer, crc8, crc8.table
    {
      crc8.Valid() && inputBuffer.Length == BUFFER_MESSAGE_MAX_SIZE && AsmOk(AsmOf()) &&
      crc8.table != inputBuffer
    }

    ghost function AsmOf(): Asm
      reads this, inputBuffer
    {
      Asm(inputIndex, inputLength, inputCrc, inputBuffer[..])
    }

    ghost function Abs(): State
      reads this, sent, received, inputBuffer
    {
      State(sent.Window, received.Window, pending, AsmOf(), input, out, script, ticks, calls)
    }

    constructor(cfg: Config, input: seq<byte>, script: seq<bool>)
      ensures Valid() && this.cfg == cfg
      ensures Abs() == State([], [], map[], Asm(0, 0, 0, seq(BUFFER_MESSAGE_MAX_SIZE, _ => 0)), input, [], script, 0, [])
    {
      this.cfg := cfg;
      sent := new RingBufferCpp.RingBuffer(Id, INIT_DEFAULT);
      received := new RingBufferCpp.RingBuffer(Id, INIT_DEFAULT);
      inputBuffer := new byte[BUFFER_MESSAGE_MAX_SIZE](_ => 0);
      crc8 := new Crc8Cpp.Crc8();
      pending := map[];
      inputIndex, inputLength, inputCrc := 0, 0, 0;
      this.input, out, this.script := input, [], script;
      ticks := 0;
      calls := [];
    }

    /** `getSafeTimestamp`. */
    method GetSafeTimestamp() returns (t: u32)
      requires Valid()
      modifies this
      ensures Valid()
      ensures t == Reading(cfg, old(ticks)) && Abs() == old(Abs()).(ticks := old(ticks) + 1)
    {
      t := cfg.clock(ticks);
      ticks := ticks + 1;
    }

    /** `m_stream->write`. */
    method Write(data: seq<byte>) returns (n: nat)
      requires Valid()
      modifies this
      ensures Valid()
      ensures (Abs(), n) == WriteSpec(old(Abs()), data)
    {
      var ok := |script| == 0 || script[0];
      if ok {
        out := out + data;
        n := |data|;
      } else {
        n := 0;
      }
      if |script| > 0 {
        script := script[1..];
      }
    }

    /** The two bookkeeping lines of `send`. */
    method BookMessage(m: Cmd)
      requires Valid()
      modifies Repr()
      ensures Valid() && Abs() == Book(cfg, old(Abs()), m)
    {
      sent.Add(m);
      var now := GetSafeTimestamp();
      pending := pending[m.id := Info(now, 0)];
    }

    /** The checksum and the writes of `send`, over the encoder's buffer. */
    method WriteFrame(payload: seq<byte>) returns (written: bool)
      requires Valid() && |payload| <= MAX_SIZE
      modifies this
      ensures Valid() && (Abs(), written) == FrameSpec(old(Abs()), payload)
    {
      var buffer := new byte[MAX_SIZE](i requires 0 <= i < MAX_SIZE => if i < |payload| then payload[i] else 0);
      assert buffer[..|payload|] == payload;
      var crc := crc8.Calculate(buffer, |payload|);
      var n := Write([START_BYTE]);
      if n == 0 {
        return false;
      }
      n := Write([|payload| as bv8]);
      if n == 0 {
        return false;
      }
      n := Write(payload);
      if n == 0 {
        return false;
      }
      n := Write([crc]);
      written := n != 0;
    }

    /** `C110PSerial::send`. */
    method Send(m: Cmd) returns (ok: bool)
      requires Valid()
      modifies Repr()
      ensures Valid() && (Abs(), ok) == SendSpec(cfg, old(Abs()), m)
    {
      var e := cfg.encode(m);
      if e.None? || |e.value| > MAX_SIZE {
        return false;
      }
      BookMessage(m);
      ok := WriteFrame(e.value);
    }

    /** `sendAck`, with the oneof tag set. */
    method SendAck(id: u32)
      requires Valid()
      modifies Repr()
      ensures Valid() && Abs() == SendAckSpec(cfg, old(Abs()), id)
    {
      var _ := Send(AckMessage(id));
    }

    /** `sendNack`, with the oneof tag set. */
    method SendNack(id: u32, reason: string)
      requires Valid()
      modifies Repr()
      ensures Valid() && Abs() == SendNackSpec(cfg, old(Abs()), id, reason)
    {
      var _ := Send(NackMessage(id, reason));
    }

    /** `handleAck`. */
    method HandleAck(id: u32)
      requires Valid()
      modifies this
      ensures Valid() && Abs() == HandleAckSpec(old(Abs()), id)
    {
      pending := pending - {id};
    }

    /** `resendMessage`. */
    method ResendMessage(m: Cmd)
      requires Valid()
      modifies Repr()
      ensures Valid() && Abs() == ResendSpec(cfg, old(Abs()), m)
    {
      RefreshEntry(m.id);
      var _ := Send(m);
    }

    /** The entry update of `resendMessage`. */
    method RefreshEntry(id: u32)
      requires Valid()
      modifies this
      ensures Valid() && Abs() == Refresh(cfg, old(Abs()), id)
    {
      if id in pending {
        var now := GetSafeTimestamp();
        pending := pending[id := Info(now, pending[id].retryCount + 1)];
      }
    }

    /** `handleNack`. */
    method HandleNack(id: u32)
      requires Valid()
      modifies Repr()
      ensures Valid() && Abs() == HandleNackSpec(cfg, old(Abs()), id)
    {
      var m := sent.Get(id);
      if m.Some? && id in pending {
        ResendMessage(m.value);
      }
    }

    /** `processCallback`. */
    method ProcessCallback(m: Cmd)
      requires Valid()
      modifies Repr()
      ensures Valid() && Abs() == ProcessCallbackSpec(cfg, old(Abs()), m)
    {
      match m.which {
        case AckTag =>
          if m.ack.acknowledged {
            HandleAck(m.id);
          } else {
            HandleNack(m.id);
          }
        case LedTag =>
          if cfg.ledCallback {
            calls := calls + [LedCall(m.led)];
          }
        case MoveTag =>
          if cfg.moveCallback {
            calls := calls + [MoveCall(m.move)];
          }
        case SoundTag =>
          if cfg.soundCallback {
            calls := calls + [SoundCall(m.sound)];
          }
        case NoData =>
      }
    }

    /** `receiveMessage`. */
    method ReceiveMessage(raw: seq<byte>)
      requires Valid()
      modifies Repr()
      ensures Valid() && Abs() == ReceiveMessageSpec(cfg, old(Abs()), raw)
    {
      var d := cfg.decode(raw);
      if d.None? {
        return;
      }
      var known := received.Contains(d.value.id);
      if known {
        SendAck(d.value.id);
      } else {
        received.Add(d.value);
        SendAck(d.value.id);
        ProcessCallback(d.value);
      }
    }

    /** The branches of the `readFrame` loop body after a byte is read. */
    method Consume(b: byte) returns (ev: Event)
      requires AsmValid()
      modifies this, inputBuffer
      ensures AsmValid()
      ensures (AsmOf(), ev) == Feed(old(AsmOf()), b)
      ensures input == old(input) && ticks == old(ticks)
      ensures pending == old(pending) && out == old(out) && script == old(script) && calls == old(calls)
    {
      if inputIndex == 0 && b == START_BYTE {
        inputIndex := 1;
        return Next;
      } else if inputIndex == 1 {
        if b as int > MAX_SIZE - 1 {
          inputIndex, inputLength, inputCrc := 0, 0, 0;
          return TooLong;
        }
        inputLength := b as int;
        inputIndex := inputIndex + 1;
        return Next;
      } else if inputIndex == inputLength + 2 {
        inputCrc := b;
        var crc := crc8.Calculate(inputBuffer, inputLength);
        return Checked(inputBuffer[..inputLength], crc == inputCrc);
      } else if inputIndex > 1 {
        if inputIndex < BUFFER_MESSAGE_MAX_SIZE - 1 {
          inputBuffer[inputIndex - 2] := b;
          inputIndex := inputIndex + 1;
        } else {
          inputIndex := 0;
        }
        return Next;
      }
      return Next;
    }

    /** The loop of `readFrame` up to the point where it returns, every data
        byte handled (the corrected read). */
    method ScanInput(timestamp: u32) returns (end: End)
      requires AsmValid()
      modifies this, inputBuffer
      ensures AsmValid()
      ensures var sc := Scan(cfg, old(AsmOf()), old(input), timestamp, old(ticks));
        end == sc.end && AsmOf() == sc.asm && input == sc.rest && ticks == sc.ticks
      ensures pending == old(pending) && out == old(out) && script == old(script) && calls == old(calls)
    {
      ghost var goal := Scan(cfg, AsmOf(), input, timestamp, ticks);
      while |input| > 0
        invariant AsmValid()
        invariant Scan(cfg, AsmOf(), input, timestamp, ticks) == goal
        invariant pending == old(pending) && out == old(out) && script == old(script) && calls == old(calls)
        decreases |input|
      {
        var now := cfg.clock(ticks);
        ticks := ticks + 1;
        if Sub32(now, timestamp) > cfg.timeout {
          return TimedOut;
        }
        var c := input[0];
        input := input[1..];
        var ev := Consume(c);
        match ev {
          case Next =>
          case TooLong =>
            return BadLength;
          case Checked(payload, matches) =>
            if matches {
              return Complete(payload);
            }
            inputIndex, inputLength, inputCrc := 0, 0, 0;
            return BadCrc;
        }
      }
      return Exhausted;
    }

    /** `readFrame`. The payload of a complete frame goes to
        `receiveMessage` before the assembler returns to idle, as in the
        loop body; the call is placed after the loop, which it ends. */
    method ReadFrame() returns (r: bool)
      requires Valid()
      modifies Repr()
      ensures Valid() && (Abs(), r) == ReadFrameSpec(cfg, old(Abs()))
    {
      var timestamp := GetSafeTimestamp();
      var end := ScanInput(timestamp);
      if end.Complete? {
        ReceiveMessage(end.payload);
        inputIndex, inputLength, inputCrc := 0, 0, 0;
        return true;
      }
      return false;
    }

    /** One entry of the `retryMessages` loop. */
    method RetryEntry(currentTime: u32, timestamp: u32, info: Info)
      requires Valid()
      modifies Repr()
      ensures Valid() && Abs() == RetryStep(cfg, old(Abs()), currentTime, timestamp, info)
    {
      var m := sent.Get(timestamp);
      if m.Some? && Sub64(currentTime, info.lastProcessedTimestamp) >= cfg.timeout && info.retryCount < cfg.maxRetries {
        ResendMessage(m.value);
      } else if m.Some? && info.retryCount >= cfg.maxRetries {
        pending := pending - {timestamp};
      }
    }

    /** The loop of `retryMessages` over the snapshot, in `order`. */
    method Sweep(currentTime: u32, order: seq<u32>, snapshot: map<u32, Info>)
      requires Valid() && forall k <- order :: k in snapshot
      modifies Repr()
      ensures Valid() && Abs() == RetryLoop(cfg, old(Abs()), currentTime, order, snapshot)
    {
      ghost var goal := RetryLoop(cfg, Abs(), currentTime, order, snapshot);
      var i := 0;
      while i < |order|
        invariant Valid() && 0 <= i <= |order|
        invariant RetryLoop(cfg, Abs(), currentTime, order[i..], snapshot) == goal
        decreases |order| - i
      {
        assert order[i..][1..] == order[i + 1..];
        RetryEntry(currentTime, order[i], snapshot[order[i]]);
        i := i + 1;
      }
    }

    /** `retryMessages`. `order` is the order in which the loop visits
        `m_messageInfoMap`. */
    method RetryMessages(order: seq<u32>)
      requires Valid() && Enumerates(order, pending)
      modifies Repr()
      ensures Valid() && Abs() == RetrySpec(cfg, old(Abs()), order)
    {
      var currentTime := GetSafeTimestamp();
      Sweep(currentTime, order, pending);
    }

    /** `C110PSerial::processQueue`: `readFrame`, then `retryMessages`;
        `order` lists the table as `retryMessages` finds it. */
    method ProcessQueue(order: seq<u32>)
      requires Valid() && Enumerates(order, ReadFrameSpec(cfg, Abs()).0.pending)
      modifies Repr()
      ensures Valid() && Abs() == RetrySpec(cfg, ReadFrameSpec(cfg, old(Abs())).0, order)
    {
      var _ := ReadFrame();
      RetryMessages(order);
    }
  }
}
