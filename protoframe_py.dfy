/** The Python frame engine: `ProtoFrame` with the `send` and `processQueue`
    of its subclass `C110PSerial`, which is how the engine runs on a device.

    The engine's observable state is the value `State`: the two histories,
    the pending-acknowledgement table, the frame assembler, the stream (the
    bytes not yet read, the bytes written, and the outcomes scripted for the
    next writes), the number of clock readings taken and the callbacks made.
    Each operation is first a function on `State` (the specification) and
    then a method of the class `C110PSerial` proved to change the object
    exactly as that function says. */
module ProtoFramePy {
  import opened Common
  import History
  import opened Crc8Spec
  import opened ProtoEncode
  import opened ProtoDecode
  import RingBufferPy
  import Crc8Py

  const START_BYTE: u8 := 0xAA
  const MAX_SIZE: nat := 128
  const BUFFER_MESSAGE_MAX_SIZE: nat := 256

  /** An entry of `m_messageInfoMap`. */
  datatype Info = Info(lastProcessedTimestamp: int, retryCount: int)

  /** A user callback made, with its argument. */
  datatype Call = LedCall(led: LedArgs) | MoveCall(move: MoveArgs) | SoundCall(sound: SoundArgs)

  /** What the object is built with. `provider` is the timestamp provider and
      `wall` is `time.time()` truncated to whole seconds, both indexed by the
      number of clock readings taken before; the three flags say whether each
      callback is set to something truthy. */
  datatype Config = Config(
    timeout: int, maxRetries: int,
    provider: nat -> int, wall: nat -> nat,
    ledCallback: bool, moveCallback: bool, soundCallback: bool)

  /** The frame assembler: `m_inputIndex`, `m_inputLength`, `m_inputCrc` and
      the contents of `m_inputBuffer`. */
  datatype Asm = Asm(index: int, length: int, crc: int, buf: seq<u8>)

  datatype State = State(
    sent: seq<Command>, received: seq<Decoded>, pending: map<int, Info>,
    asm: Asm, input: seq<u8>, out: seq<u8>, script: seq<bool>, ticks: nat, calls: seq<Call>)

  /** The assembler's ranges: a length is only stored when it is below
      MAX_SIZE, and the index never passes the last buffer slot. */
  predicate AsmOk(a: Asm) {
    |a.buf| == BUFFER_MESSAGE_MAX_SIZE && 0 <= a.index < BUFFER_MESSAGE_MAX_SIZE &&
    0 <= a.length < MAX_SIZE && 0 <= a.crc < 256
  }

  function Idle(a: Asm): Asm {
    a.(index := 0, length := 0, crc := 0)
  }

  /** `message['id']` of a sent command dict; every command the engine
      stores has been through `encode_command`, which sets it. */
  function IdOf(m: Command): int {
    if m.id.Some? then m.id.value else 0
  }

  /** `message['id']` of a decoded dict. */
  function DecodedId(d: Decoded): int {
    d.id
  }

  /** The values of `bytes` as the checksum takes them. */
  function ToBytes(s: seq<u8>): (r: seq<byte>)
    ensures |r| == |s|
  {
    seq(|s|, i requires 0 <= i < |s| => s[i] as bv8)
  }

  /** `getSafeTimestamp` at reading `t`: the provider's value masked to 32 bits. */
  function Reading(c: Config, t: nat): u32 {
    c.provider(t) % TWO_TO_32
  }

  // ---------------------------------------------------------------------
  // Specification of each operation

  /** `trackMessage`: the message enters the sent history; a new id gets
      `{now, 0}`, a pending id has its timestamp refreshed and its retry
      count increased. */
  function Track(c: Config, s: State, msg: Command): State {
    var id := IdOf(msg);
    var t := Reading(c, s.ticks);
    var info := if id in s.pending then Info(t, s.pending[id].retryCount + 1) else Info(t, 0);
    s.(sent := History.Add(s.sent, IdOf, msg), pending := s.pending[id := info], ticks := s.ticks + 1)
  }

  /** One `write` on the stream: the next scripted outcome (a stream with no
      script left accepts) decides whether the bytes go out; the result is
      the number of bytes written. */
  function WriteSpec(s: State, data: seq<u8>): (State, nat) {
    var ok := |s.script| == 0 || s.script[0];
    (s.(out := if ok then s.out + data else s.out, script := if |s.script| == 0 then [] else s.script[1..]),
     if ok then |data| else 0)
  }

  /** Whether `encode_command` asks the clock for an id. */
  function Stamped(msg: Command): bool {
    msg.id.None? || msg.id.value == 0
  }

  /** The encoding step of `C110PSerial.send`: `encode_command` reads the
      clock only for a message without a usable id. */
  function EncodeSpec(c: Config, s: State, msg: Command): (State, Encoded) {
    if Stamped(msg) then (s.(ticks := s.ticks + 1), EncodeCommand(msg, c.wall(s.ticks)))
    else (s, EncodeCommand(msg, 0))
  }

  /** The four writes of `C110PSerial.send`, all performed: the start byte,
      the length, the payload and its checksum. The second component says
      whether any of them wrote something. */
  function FrameSpec(s: State, payload: seq<u8>): (State, bool)
    requires |payload| <= MAX_SIZE
  {
    var w1 := WriteSpec(s, [START_BYTE]);
    var w2 := WriteSpec(w1.0, [|payload|]);
    var w3 := WriteSpec(w2.0, payload);
    var w4 := WriteSpec(w3.0, [Checksum(ToBytes(payload)) as int]);
    (w4.0, !(w1.1 == 0 && w2.1 == 0 && w3.1 == 0 && w4.1 == 0))
  }

  /** `C110PSerial.send`: encode; refuse an encoding longer than MAX_SIZE or
      an encoding error; otherwise write the frame and track the message
      unless every write returned nothing. */
  function SendSpec(c: Config, s: State, msg: Command): (State, bool) {
    var (s0, e) := EncodeSpec(c, s, msg);
    if |e.bytes| > MAX_SIZE || e.isError then (s0, false)
    else
      var w := FrameSpec(s0, e.bytes);
      if !w.1 then (w.0, false) else (Track(c, w.0, e.msg), true)
  }

  /** The dict `sendAck` builds; a reason of `None` encodes as the empty one. */
  function AckMessage(id: int): Command {
    Command(Some(id), 0, 0, Some(AckArgs(true, "")), None, None, None, [])
  }

  /** The dict `sendNack` builds. */
  function NackMessage(id: int, reason: string): Command {
    Command(Some(id), 0, 0, Some(AckArgs(false, reason)), None, None, None, [])
  }

  /** `sendAck`: send the ack, then drop the id from the pending table. */
  function SendAckSpec(c: Config, s: State, id: int): State {
    var s1 := SendSpec(c, s, AckMessage(id)).0;
    s1.(pending := s1.pending - {id})
  }

  /** `sendNack`. */
  function SendNackSpec(c: Config, s: State, id: int, reason: string): State {
    SendSpec(c, s, NackMessage(id, reason)).0
  }

  /** `handleAck`: `pop(timestamp, None)`. */
  function HandleAckSpec(s: State, id: int): State {
    s.(pending := s.pending - {id})
  }

  /** `resendMessage` of what the sent history returned for an id; `None`
      (an evicted message) makes `encode_command` raise a TypeError, reported
      as the second component. */
  function ResendSpec(c: Config, s: State, m: Option<Command>): (State, bool) {
    if m.None? then (s, true) else (SendSpec(c, s, m.value).0, false)
  }

  /** `handleNack`: resend only an id that is both stored and pending. */
  function HandleNackSpec(c: Config, s: State, id: int): State {
    if History.Has(s.sent, IdOf, id) && id in s.pending then ResendSpec(c, s, History.Find(s.sent, IdOf, id)).0
    else s
  }

  /** `processCallback`: an ack first, then the first of led, move and sound
      that is present with a truthy callback. */
  function ProcessCallbackSpec(c: Config, s: State, d: Decoded): State {
    if d.ack.Some? then
      if d.ack.value.acknowledged then HandleAckSpec(s, d.id) else HandleNackSpec(c, s, d.id)
    else if d.led.Some? && c.ledCallback then s.(calls := s.calls + [LedCall(d.led.value)])
    else if d.move.Some? && c.moveCallback then s.(calls := s.calls + [MoveCall(d.move.value)])
    else if d.sound.Some? && c.soundCallback then s.(calls := s.calls + [SoundCall(d.sound.value)])
    else s
  }

  /** `receive`: the decoded message enters the received history. */
  function ReceiveSpec(s: State, d: Decoded): State {
    s.(received := History.Add(s.received, DecodedId, d))
  }

  /** `receiveMessage`: a payload that does not decode is NACKed when its id
      is not 0; a known id is ACKed again; a new one is recorded, ACKed and
      dispatched. */
  function ReceiveMessageSpec(c: Config, s: State, raw: seq<u8>): State {
    var dec := Decode(raw);
    var d := dec.1;
    if dec.0 then (if d.id != 0 then SendNackSpec(c, s, d.id, "Invalid message") else s)
    else if History.Has(s.received, DecodedId, d.id) then SendAckSpec(c, s, d.id)
    else ProcessCallbackSpec(c, SendAckSpec(c, ReceiveSpec(s, d), d.id), d)
  }

  /** What feeding one byte to the assembler does. */
  datatype Event = Next | TooLong | Checked(payload: seq<u8>, matches: bool)

  /** One byte of `readFrame`: a START byte opens a frame, the next byte is
      the length (rejected above MAX_SIZE - 1), the byte after `length`
      payload bytes is the checksum, and payload bytes are stored while the
      buffer has room. Any other byte in the idle state is dropped. */
  function Feed(a: Asm, b: u8): (r: (Asm, Event))
    requires AsmOk(a)
    ensures AsmOk(r.0)
  {
    if a.index == 0 && b == START_BYTE then (a.(index := 1), Next)
    else if a.index == 1 then
      if b > MAX_SIZE - 1 then (Idle(a), TooLong)
      else (a.(length := b, index := 2), Next)
    else if a.index == a.length + 2 then
      var payload := a.buf[..a.length];
      (a.(crc := b), Checked(payload, Checksum(ToBytes(payload)) as int == b))
    else if a.index > 1 then
      if a.index < BUFFER_MESSAGE_MAX_SIZE - 1 then (a.(buf := a.buf[a.index - 2 := b], index := a.index + 1), Next)
      else (a.(index := 0), Next)
    else (a, Next)
  }

  /** How a call of `readFrame` ends. */
  datatype End = Exhausted | TimedOut | ZeroByte | BadLength | BadCrc | Complete(payload: seq<u8>)

  datatype Scanned = Scanned(asm: Asm, rest: seq<u8>, ticks: nat, end: End)

  /** The loop of `readFrame` from assembler `a` over the unread bytes
      `input`, with the call's first reading `start` and the next reading
      `t`. Each round reads the clock and stops once more than `timeout`
      has passed; a byte that is 0 is falsy and stops the loop too. */
  function Scan(c: Config, a: Asm, input: seq<u8>, start: u32, t: nat): (r: Scanned)
    requires AsmOk(a)
    ensures AsmOk(r.asm)
    decreases |input|
  {
    if |input| == 0 then Scanned(a, input, t, Exhausted)
    else if Reading(c, t) - start > c.timeout then Scanned(a, input, t + 1, TimedOut)
    else if input[0] == 0 then Scanned(a, input[1..], t + 1, ZeroByte)
    else
      var f := Feed(a, input[0]);
      match f.1
      case Next => Scan(c, f.0, input[1..], start, t + 1)
      case TooLong => Scanned(f.0, input[1..], t + 1, BadLength)
      case Checked(p, ok) =>
        if ok then Scanned(f.0, input[1..], t + 1, Complete(p))
        else Scanned(Idle(f.0), input[1..], t + 1, BadCrc)
  }

  /** `readFrame`: scan; on a complete frame, hand its payload to
      `receiveMessage`, then return the assembler to idle. */
  function ReadFrameSpec(c: Config, s: State): (State, bool)
    requires AsmOk(s.asm)
  {
    var sc := Scan(c, s.asm, s.input, Reading(c, s.ticks), s.ticks + 1);
    var s1 := s.(asm := sc.asm, input := sc.rest, ticks := sc.ticks);
    if sc.end.Complete? then
      var s2 := ReceiveMessageSpec(c, s1, sc.end.payload);
      (s2.(asm := Idle(s2.asm)), true)
    else (s1, false)
  }

  /** One entry of the `retryMessages` sweep, with the entry's values as
      the snapshot holds them: an entry whose time is up and whose retries
      are not used up is resent; one whose retries are used up is deleted.
      The second component reports a resend that raised. */
  function RetryStep(c: Config, s: State, now: int, k: int, info: Info): (State, bool) {
    if now - info.lastProcessedTimestamp >= c.timeout && info.retryCount < c.maxRetries then
      ResendSpec(c, s, History.Find(s.sent, IdOf, k))
    else if info.retryCount >= c.maxRetries then (s.(pending := s.pending - {k}), false)
    else (s, false)
  }

  /** The sweep of `retryMessages` over a snapshot of the pending table,
      visiting `keys` in order; a resend that raises ends it. */
  function RetryLoop(c: Config, s: State, now: int, keys: seq<int>, snap: map<int, Info>): (State, bool)
    requires forall k <- keys :: k in snap
    decreases |keys|
  {
    if |keys| == 0 then (s, false)
    else
      var r := RetryStep(c, s, now, keys[0], snap[keys[0]]);
      if r.1 then r else RetryLoop(c, r.0, now, keys[1..], snap)
  }

  /** `keys` lists every pending id once: the order of a dict's items. */
  predicate Enumerates(keys: seq<int>, m: map<int, Info>) {
    Distinct(keys) && (forall k <- keys :: k in m) && (forall k <- m :: k in keys)
  }

  /** `retryMessages`: one clock reading, then the sweep. */
  function RetrySpec(c: Config, s: State, keys: seq<int>): (State, bool)
    requires Enumerates(keys, s.pending)
  {
    RetryLoop(c, s.(ticks := s.ticks + 1), Reading(c, s.ticks), keys, s.pending)
  }

  /** `reset`. */
  function ResetSpec(s: State): State {
    s.(sent := [], received := [], pending := map[], asm := Idle(s.asm))
  }

  // ---------------------------------------------------------------------
  // The object

  class C110PSerial {
    const cfg: Config
    /** `m_sentMessageBuffer`. */
    const sent: RingBufferPy.RingBuffer<Command>
    /** `m_receivedMessageBuffer`. */
    const received: RingBufferPy.RingBuffer<Decoded>
    /** `m_inputBuffer`, a bytearray of BUFFER_MESSAGE_MAX_SIZE. */
    const inputBuffer: array<u8>
    const crc8: Crc8Py.Crc8

    /** `m_messageInfoMap`. */
    var pending: map<int, Info>
    var inputIndex: int
    var inputLength: int
    var inputCrc: int
    /** The stream: bytes not yet read, bytes written, and the outcomes of
        the next writes. */
    var input: seq<u8>
    var out: seq<u8>
    var script: seq<bool>
    /** Clock readings taken so far. */
    var ticks: nat
    /** Callbacks made so far. */
    var calls: seq<Call>

    ghost function Repr(): set<object> {
      {this, sent, sent.buffer, received, received.buffer, inputBuffer}
    }

    ghost predicate Valid()
      reads this, sent, sent.buffer, received, received.buffer, inputBuffer, crc8
    {
      sent.Valid() && received.Valid() &&
      sent.idOf == IdOf && received.idOf == DecodedId &&
      AsmValid()
    }

    /** The part of `Valid` the frame assembler relies on. */
    ghost predicate AsmValid()
      reads this, inputBuffer, crc8
    {
      crc8.Valid() && inputBuffer.Length == BUFFER_MESSAGE_MAX_SIZE && AsmOk(AsmOf())
    }

    ghost function AsmOf(): Asm
      reads this, inputBuffer
    {
      Asm(inputIndex, inputLength, inputCrc, inputBuffer[..])
    }

    ghost function Abs(): State
      reads this, sent, received, inputBuffer
    {
      State(sent.Window, received.Window, pending, AsmOf(), input, out, script, ticks, calls)
    }

    /** `__init__`: empty histories and table, an idle assembler over a
        zeroed buffer. */
    constructor(cfg: Config, input: seq<u8>, script: seq<bool>)
      ensures Valid() && this.cfg == cfg
      ensures Abs() == State([], [], map[], Asm(0, 0, 0, seq(BUFFER_MESSAGE_MAX_SIZE, _ => 0)), input, [], script, 0, [])
    {
      this.cfg := cfg;
      sent := new RingBufferPy.RingBuffer(IdOf);
      received := new RingBufferPy.RingBuffer(DecodedId);
      inputBuffer := new u8[BUFFER_MESSAGE_MAX_SIZE](_ => 0);
      crc8 := new Crc8Py.Crc8();
      pending := map[];
      inputIndex, inputLength, inputCrc := 0, 0, 0;
      this.input, out, this.script := input, [], script;
      ticks := 0;
      calls := [];
    }

    /** `reset`. */
    method Reset()
      requires Valid()
      modifies Repr()
      ensures Valid() && Abs() == ResetSpec(old(Abs()))
    {
      sent.Reset();
      received.Reset();
      pending := map[];
      inputIndex, inputLength, inputCrc := 0, 0, 0;
    }

    /** `getSafeTimestamp`. */
    method GetSafeTimestamp() returns (t: u32)
      requires Valid()
      modifies this
      ensures Valid()
      ensures t == Reading(cfg, old(ticks)) && Abs() == old(Abs()).(ticks := old(ticks) + 1)
    {
      t := cfg.provider(ticks) % TWO_TO_32;
      ticks := ticks + 1;
    }

    /** `int(time.time())`, as `encode_command` reads it. */
    method WallClock() returns (t: nat)
      requires Valid()
      modifies this
      ensures Valid()
      ensures t == cfg.wall(old(ticks)) && Abs() == old(Abs()).(ticks := old(ticks) + 1)
    {
      t := cfg.wall(ticks);
      ticks := ticks + 1;
    }

    /** `m_stream.write`. */
    method Write(data: seq<u8>) returns (n: nat)
      requires Valid()
      modifies this
      ensures Valid()
      ensures (Abs(), n) == WriteSpec(old(Abs()), data)
    {
      var ok := |script| == 0 || script[0];
      if ok {
        out := out + data;
        n := |data|;
      } else {
        n := 0;
      }
      if |script| > 0 {
        script := script[1..];
      }
    }

    /** `trackMessage`; the dict must have an `id` key. */
    method TrackMessage(msg: Command)
      requires Valid() && msg.id.Some?
      modifies Repr()
      ensures Valid() && Abs() == Track(cfg, old(Abs()), msg)
    {
      sent.Add(Some(msg));
      var id := msg.id.value;
      var t := GetSafeTimestamp();
      if id !in pending {
        pending := pending[id := Info(t, 0)];
      } else {
        pending := pending[id := Info(t, pending[id].retryCount + 1)];
      }
    }

    /** `encode_command` as `send` calls it. */
    method Encode(msg: Command) returns (e: Encoded)
      requires Valid()
      modifies this
      ensures Valid() && (Abs(), e) == EncodeSpec(cfg, old(Abs()), msg)
    {
      if Stamped(msg) {
        var now := WallClock();
        e := EncodeCommand(msg, now);
      } else {
        e := EncodeCommand(msg, 0);
      }
    }

    /** The four writes of `send`. */
    method WriteFrame(payload: seq<u8>) returns (written: bool)
      requires Valid() && |payload| <= MAX_SIZE
      modifies this
      ensures Valid() && (Abs(), written) == FrameSpec(old(Abs()), payload)
    {
      var crc := crc8.Calculate(ToBytes(payload));
      var w1 := Write([START_BYTE]);
      var w2 := Write([|payload|]);
      var w3 := Write(payload);
      var w4 := Write([crc as int]);
      written := !(w1 == 0 && w2 == 0 && w3 == 0 && w4 == 0);
    }

    /** `C110PSerial.send`. */
    method Send(msg: Command) returns (ok: bool)
      requires Valid()
      modifies Repr()
      ensures Valid() && (Abs(), ok) == SendSpec(cfg, old(Abs()), msg)
    {
      var e := Encode(msg);
      if |e.bytes| > MAX_SIZE {
        return false;
      }
      if e.isError {
        return false;
      }
      var written := WriteFrame(e.bytes);
      if !written {
        return false;
      }
      TrackMessage(e.msg);
      ok := true;
    }

    /** `sendAck`. */
    method SendAck(id: int)
      requires Valid()
      modifies Repr()
      ensures Valid() && Abs() == SendAckSpec(cfg, old(Abs()), id)
    {
      var _ := Send(AckMessage(id));
      pending := pending - {id};
    }

    /** `sendNack`. */
    method SendNack(id: int, reason: string)
      requires Valid()
      modifies Repr()
      ensures Valid() && Abs() == SendNackSpec(cfg, old(Abs()), id, reason)
    {
      var _ := Send(NackMessage(id, reason));
    }

    /** `handleAck`. */
    method HandleAck(id: int)
      requires Valid()
      modifies this
      ensures Valid() && Abs() == HandleAckSpec(old(Abs()), id)
    {
      pending := pending - {id};
    }

    /** `resendMessage`; `raised` reports the TypeError of sending `None`. */
    method ResendMessage(m: Option<Command>) returns (raised: bool)
      requires Valid()
      modifies Repr()
      ensures Valid() && (Abs(), raised) == ResendSpec(cfg, old(Abs()), m)
    {
      if m.None? {
        return true;
      }
      var _ := Send(m.value);
      raised := false;
    }

    /** `handleNack`. */
    method HandleNack(id: int)
      requires Valid()
      modifies Repr()
      ensures Valid() && Abs() == HandleNackSpec(cfg, old(Abs()), id)
    {
      var stored := sent.Contains(id);
      if stored && id in pending {
        var m := sent.Get(id);
        var _ := ResendMessage(m);
      }
    }

    /** `processCallback`. */
    method ProcessCallback(d: Decoded)
      requires Valid()
      modifies Repr()
      ensures Valid() && Abs() == ProcessCallbackSpec(cfg, old(Abs()), d)
    {
      if d.ack.Some? {
        if d.ack.value.acknowledged {
          HandleAck(d.id);
        } else {
          HandleNack(d.id);
        }
      } else if d.led.Some? && cfg.ledCallback {
        calls := calls + [LedCall(d.led.value)];
      } else if d.move.Some? && cfg.moveCallback {
        calls := calls + [MoveCall(d.move.value)];
      } else if d.sound.Some? && cfg.soundCallback {
        calls := calls + [SoundCall(d.sound.value)];
      }
    }

    /** `receive`. */
    method Receive(d: Decoded) returns (r: bool)
      requires Valid()
      modifies Repr()
      ensures Valid() && Abs() == ReceiveSpec(old(Abs()), d) && r
    {
      received.Add(Some(d));
      r := true;
    }

    /** `receiveMessage`. */
    method ReceiveMessage(raw: seq<u8>)
      requires Valid()
      modifies Repr()
      ensures Valid() && Abs() == ReceiveMessageSpec(cfg, old(Abs()), raw)
    {
      var err, d := DecodeCommand(raw);
      if err {
        if d.id != 0 {
          SendNack(d.id, "Invalid message");
        }
        return;
      }
      var known := received.Contains(d.id);
      if known {
        SendAck(d.id);
      } else {
        var _ := Receive(d);
        SendAck(d.id);
        ProcessCallback(d);
      }
    }

    /** The branches of the `readFrame` loop body after a byte is read. */
    method Consume(b: u8) returns (ev: Event)
      requires AsmValid()
      modifies this, inputBuffer
      ensures AsmValid()
      ensures (AsmOf(), ev) == Feed(old(AsmOf()), b)
      ensures input == old(input) && ticks == old(ticks)
      ensures pending == old(pending) && out == old(out) && script == old(script) && calls == old(calls)
    {
      if inputIndex == 0 && b == START_BYTE {
        inputIndex := 1;
        return Next;
      } else if inputIndex == 1 {
        inputLength := b;
        if inputLength > MAX_SIZE - 1 {
          inputIndex, inputLength, inputCrc := 0, 0, 0;
          return TooLong;
        }
        inputIndex := inputIndex + 1;
        return Next;
      } else if inputIndex == inputLength + 2 {
        inputCrc := b;
        var payload := inputBuffer[..inputLength];
        var crc := crc8.Calculate(ToBytes(payload));
        return Checked(payload, crc as int == inputCrc);
      } else if inputIndex > 1 {
        if inputIndex < BUFFER_MESSAGE_MAX_SIZE - 1 {
          inputBuffer[inputIndex - 2] := b;
          inputIndex := inputIndex + 1;
        } else {
          inputIndex := 0;
        }
        return Next;
      }
      return Next;
    }

    /** The loop of `readFrame` up to the point where it returns. */
    method ScanInput(timestamp: u32) returns (end: End)
      requires AsmValid()
      modifies this, inputBuffer
      ensures AsmValid()
      ensures var sc := Scan(cfg, old(AsmOf()), old(input), timestamp, old(ticks));
        end == sc.end && AsmOf() == sc.asm && input == sc.rest && ticks == sc.ticks
      ensures pending == old(pending) && out == old(out) && script == old(script) && calls == old(calls)
    {
      ghost var goal := Scan(cfg, AsmOf(), input, timestamp, ticks);
      while |input| > 0
        invariant AsmValid()
        invariant Scan(cfg, AsmOf(), input, timestamp, ticks) == goal
        invariant pending == old(pending) && out == old(out) && script == old(script) && calls == old(calls)
        decreases |input|
      {
        var now := cfg.provider(ticks) % TWO_TO_32;
        ticks := ticks + 1;
        if now - timestamp > cfg.timeout {
          return TimedOut;
        }
        var c := input[0];
        input := input[1..];
        if c == 0 {
          return ZeroByte;
        }
        var ev := Consume(c);
        match ev {
          case Next =>
          case TooLong =>
            return BadLength;
          case Checked(payload, matches) =>
            if matches {
              return Complete(payload);
            }
            inputIndex, inputLength, inputCrc := 0, 0, 0;
            return BadCrc;
        }
      }
      return Exhausted;
    }

    /** `readFrame`. The payload of a complete frame goes to
        `receiveMessage` before the assembler returns to idle, as in the
        loop body; the call is placed after the loop, which it ends. */
    method ReadFrame() returns (r: bool)
      requires Valid()
      modifies Repr()
      ensures Valid() && (Abs(), r) == ReadFrameSpec(cfg, old(Abs()))
    {
      ghost var s0 := Abs();
      var timestamp := GetSafeTimestamp();
      var end := ScanInput(timestamp);
      ghost var sc := Scan(cfg, s0.asm, s0.input, Reading(cfg, s0.ticks), s0.ticks + 1);
      assert Abs() == s0.(asm := sc.asm, input := sc.rest, ticks := sc.ticks);
      if end.Complete? {
        ReceiveMessage(end.payload);
        ghost var s2 := Abs();
        inputIndex, inputLength, inputCrc := 0, 0, 0;
        assert Abs() == s2.(asm := Idle(s2.asm));
        assert ReadFrameSpec(cfg, s0) == (Abs(), true);
        return true;
      }
      assert ReadFrameSpec(cfg, s0) == (Abs(), false);
      return false;
    }

    /** One entry of the `retryMessages` loop. */
    method RetryEntry(currentTime: int, timestamp: int, info: Info) returns (raised: bool)
      requires Valid()
      modifies Repr()
      ensures Valid() && (Abs(), raised) == RetryStep(cfg, old(Abs()), currentTime, timestamp, info)
    {
      if currentTime - info.lastProcessedTimestamp >= cfg.timeout && info.retryCount < cfg.maxRetries {
        var m := sent.Get(timestamp);
        raised := ResendMessage(m);
      } else if info.retryCount >= cfg.maxRetries {
        pending := pending - {timestamp};
        raised := false;
      } else {
        raised := false;
      }
    }

    /** `retryMessages`. `order` is the order in which
        `list(self.m_messageInfoMap.items())` lists the table. */
    method RetryMessages(order: seq<int>) returns (raised: bool)
      requires Valid() && Enumerates(order, pending)
      modifies Repr()
      ensures Valid() && (Abs(), raised) == RetrySpec(cfg, old(Abs()), order)
    {
      ghost var s0 := Abs();
      var currentTime := GetSafeTimestamp();
      var snapshot := pending;
      var i := 0;
      while i < |order|
        invariant Valid() && 0 <= i <= |order|
        invariant RetryLoop(cfg, Abs(), currentTime, order[i..], snapshot) ==
                  RetryLoop(cfg, s0.(ticks := s0.ticks + 1), currentTime, order, snapshot)
        decreases |order| - i
      {
        assert order[i..][1..] == order[i + 1..];
        raised := RetryEntry(currentTime, order[i], snapshot[order[i]]);
        if raised {
          return;
        }
        i := i + 1;
      }
      raised := false;
    }

    /** `C110PSerial.processQueue`: `readFrame`, then `retryMessages`;
        `order` lists the table as `retryMessages` finds it. */
    method ProcessQueue(order: seq<int>) returns (raised: bool)
      requires Valid() && Enumerates(order, ReadFrameSpec(cfg, Abs()).0.pending)
      modifies Repr()
      ensures Valid()
      ensures (Abs(), raised) == RetrySpec(cfg, ReadFrameSpec(cfg, old(Abs())).0, order)
    {
      var _ := ReadFrame();
      raised := RetryMessages(order);
    }

    /** `getSentMessageBufferSize`. */
    method GetSentMessageBufferSize() returns (n: int)
      requires Valid()
      ensures n == |Abs().sent| && n <= History.CAPACITY
    {
      n := sent.Size();
    }

    /** `getReceivedMessageBufferSize`. */
    method GetReceivedMessageBufferSize() returns (n: int)
      requires Valid()
      ensures n == |Abs().received| && n <= History.CAPACITY
    {
      n := received.Size();
    }

    /** `getUnacknowledgedMessagesSize`. */
    method GetUnacknowledgedMessagesSize() returns (n: int)
      requires Valid()
      ensures n == |Abs().pending|
    {
      n := |pending|;
    }

    /** `getUnacknowledgedMessage`: the id itself when pending, else 0. */
    method GetUnacknowledgedMessage(timestamp: int) returns (r: int)
      requires Valid()
      ensures timestamp in Abs().pending ==> r == timestamp
      ensures timestamp !in Abs().pending ==> r == 0
    {
      r := if timestamp in pending then timestamp else 0;
    }

    /** `getLastSentMessage`. */
    method GetLastSentMessage() returns (r: Option<Command>)
      requires Valid()
      ensures r == History.Current(Abs().sent)
    {
      r := sent.GetCurrentValue();
    }

    /** `getLastReceivedMessage`. */
    method GetLastReceivedMessage() returns (r: Option<Decoded>)
      requires Valid()
      ensures r == History.Current(Abs().received)
    {
      r := received.GetCurrentValue();
    }
  }
}
