/** What the Python frame engine promises, proved on the specification
    functions of ProtoFramePy (and therefore about the object, whose
    methods are proved equal to them). */
module ProtoFramePyProps {
  import opened Common
  import History
  import opened Crc8Spec
  import opened ProtoEncode
  import opened ProtoDecode
  import opened ProtoRoundTrip
  import opened ProtoFramePy

  // ---------------------------------------------------------------------
  // Frames on the wire

  /** The bytes `send` writes for a payload: the start byte, the length,
      the payload and its CRC-8. */
  function FrameOf(p: seq<u8>): (r: seq<u8>)
    requires |p| <= MAX_SIZE
    ensures |r| == |p| + 3 && r[0] == START_BYTE && r[1] == |p|
  {
    [START_BYTE, |p|] + p + [Checksum(ToBytes(p)) as int]
  }

  /** A stream that accepts every write. */
  predicate Accepting(s: State) {
    |s.script| == 0
  }

  /** With a stream that accepts everything, the four writes append exactly
      one frame and report success. */
  lemma FrameAccepted(s: State, p: seq<u8>)
    requires |p| <= MAX_SIZE && Accepting(s)
    ensures FrameSpec(s, p) == (s.(out := s.out + FrameOf(p)), true)
  {
    var crc := Checksum(ToBytes(p)) as int;
    assert s.out + [START_BYTE] + [|p|] + p + [crc] == s.out + FrameOf(p);
  }

  /** When the next four writes all return nothing, no byte goes out and
      the frame counts as not written. */
  lemma FrameRefused(s: State, p: seq<u8>)
    requires |p| <= MAX_SIZE && |s.script| >= 4
    requires !s.script[0] && !s.script[1] && !s.script[2] && !s.script[3]
    ensures FrameSpec(s, p) == (s.(script := s.script[4..]), false)
  {
    assert s.script[1..][1..][1..][1..] == s.script[4..];
  }

  /** No reading of the clock within `n` readings from `t` is more than
      `timeout` after `start`. */
  predicate InTime(c: Config, start: u32, t: nat, n: nat) {
    forall k :: t <= k < t + n ==> Reading(c, k) - start <= c.timeout
  }

  /** A byte sequence without the value 0, which ends `readFrame`. */
  predicate NoZero(p: seq<u8>) {
    forall i :: 0 <= i < |p| ==> p[i] != 0
  }

  /** The payload bytes from position `k` on, then the checksum: the
      assembler, having stored the first `k` bytes, completes the frame. */
  lemma {:induction false} ScanPayload(c: Config, a: Asm, p: seq<u8>, k: nat, rest: seq<u8>, start: u32, t: nat)
    requires AsmOk(a) && |p| < MAX_SIZE && k <= |p|
    requires a.index == k + 2 && a.length == |p| && a.buf[..k] == p[..k]
    requires NoZero(p) && Checksum(ToBytes(p)) != 0
    requires InTime(c, start, t, |p| - k + 1)
    ensures var sc := Scan(c, a, p[k..] + [Checksum(ToBytes(p)) as int] + rest, start, t);
      sc.end == Complete(p) && sc.rest == rest && sc.ticks == t + (|p| - k) + 1
    decreases |p| - k
  {
    var crc := Checksum(ToBytes(p)) as int;
    var input := p[k..] + [crc] + rest;
    assert Reading(c, t) - start <= c.timeout;
    if k == |p| {
      assert input[0] == crc && input[1..] == rest;
      assert a.buf[..a.length] == p;
    } else {
      assert input[0] == p[k] && input[1..] == p[k + 1..] + [crc] + rest;
      var a' := a.(buf := a.buf[k := p[k]], index := k + 3);
      assert Feed(a, p[k]) == (a', Next);
      assert a'.buf[..k + 1] == p[..k + 1];
      ScanPayload(c, a', p, k + 1, rest, start, t + 1);
    }
  }

  /** An idle assembler reading a well-formed frame returns its payload,
      having consumed exactly the frame: provided the clock does not run
      out, the payload is shorter than MAX_SIZE and no byte of the frame is
      0 (a zero read ends `readFrame`). */
  lemma {:induction false} ScanFrame(c: Config, a: Asm, p: seq<u8>, rest: seq<u8>, start: u32, t: nat)
    requires AsmOk(a) && a.index == 0
    requires 0 < |p| < MAX_SIZE && NoZero(p) && Checksum(ToBytes(p)) != 0
    requires InTime(c, start, t, |p| + 3)
    ensures var sc := Scan(c, a, FrameOf(p) + rest, start, t);
      sc.end == Complete(p) && sc.rest == rest && sc.ticks == t + |p| + 3
  {
    var crc := Checksum(ToBytes(p)) as int;
    var input := FrameOf(p) + rest;
    assert Reading(c, t) - start <= c.timeout && Reading(c, t + 1) - start <= c.timeout;
    var a1 := a.(index := 1);
    assert Feed(a, START_BYTE) == (a1, Next);
    assert input[0] == START_BYTE && input[1..][0] == |p|;
    var a2 := a1.(length := |p|, index := 2);
    assert Feed(a1, |p|) == (a2, Next);
    assert input[1..][1..] == p[0..] + [crc] + rest;
    assert a2.buf[..0] == p[..0];
    ScanPayload(c, a2, p, 0, rest, start, t + 2);
  }

  /** A frame announcing MAX_SIZE payload bytes is refused at its length
      byte: the receiver accepts lengths up to MAX_SIZE - 1 only. */
  lemma ScanMaxSizeRejected(c: Config, a: Asm, p: seq<u8>, rest: seq<u8>, start: u32, t: nat)
    requires AsmOk(a) && a.index == 0
    requires |p| == MAX_SIZE && InTime(c, start, t, 2)
    ensures var sc := Scan(c, a, FrameOf(p) + rest, start, t);
      sc.end == BadLength && sc.rest == p + [Checksum(ToBytes(p)) as int] + rest && sc.asm == Idle(a)
  {
    var input := FrameOf(p) + rest;
    assert Reading(c, t) - start <= c.timeout && Reading(c, t + 1) - start <= c.timeout;
    assert input[0] == START_BYTE && input[1..][0] == MAX_SIZE;
    assert input[1..][1..] == p + [Checksum(ToBytes(p)) as int] + rest;
  }

  /** The assembler's index stays within the announced frame once the
      length is read. */
  predicate Shaped(a: Asm) {
    a.index <= 1 || a.index <= a.length + 2
  }

  /** The branch of `readFrame` that resets the index when the buffer is
      full is never taken: an assembler in shape stays in shape, and its
      index is then always below BUFFER_MESSAGE_MAX_SIZE - 1. */
  lemma {:induction false} ScanShaped(c: Config, a: Asm, input: seq<u8>, start: u32, t: nat)
    requires AsmOk(a) && Shaped(a)
    ensures Shaped(Scan(c, a, input, start, t).asm)
    ensures a.index > 1 ==> a.index < BUFFER_MESSAGE_MAX_SIZE - 1
    decreases |input|
  {
    if |input| > 0 && Reading(c, t) - start <= c.timeout && input[0] != 0 {
      var f := Feed(a, input[0]);
      assert Shaped(f.0);
      if f.1.Next? {
        ScanShaped(c, f.0, input[1..], start, t + 1);
      }
    }
  }

  // ---------------------------------------------------------------------
  // Sending

  /** What a send leaves alone: the received history, the callbacks, the
      assembler and the unread input; written bytes are only appended. */
  predicate Keeps(s: State, r: State) {
    r.received == s.received && r.calls == s.calls && r.asm == s.asm &&
    r.input == s.input && s.out <= r.out
  }

  lemma {:induction false} SendKeeps(c: Config, s: State, m: Command)
    ensures Keeps(s, SendSpec(c, s, m).0)
  {
    var (s0, e) := EncodeSpec(c, s, m);
    if |e.bytes| <= MAX_SIZE && !e.isError {
      var w1 := WriteSpec(s0, [START_BYTE]);
      var w2 := WriteSpec(w1.0, [|e.bytes|]);
      var w3 := WriteSpec(w2.0, e.bytes);
      var w4 := WriteSpec(w3.0, [Checksum(ToBytes(e.bytes)) as int]);
      assert Keeps(s, w1.0) && Keeps(w1.0, w2.0) && Keeps(w2.0, w3.0) && Keeps(w3.0, w4.0);
    }
  }

  /** `C110PSerial.send` succeeds exactly when the encoding is accepted and
      some write returns something; only then is the message booked (its
      id pending and stored in the sent history). A refused or unwritten
      message leaves both untouched. */
  lemma {:induction false} SendBooking(c: Config, s: State, m: Command)
    ensures var (s0, e) := EncodeSpec(c, s, m); var r := SendSpec(c, s, m);
      (r.1 <==> !e.isError && |e.bytes| <= MAX_SIZE && FrameSpec(s0, e.bytes).1) &&
      (r.1 ==> IdOf(e.msg) in r.0.pending && History.Has(r.0.sent, IdOf, IdOf(e.msg))) &&
      (!r.1 ==> r.0.sent == s.sent && r.0.pending == s.pending)
  {
    var (s0, e) := EncodeSpec(c, s, m);
    if !e.isError && |e.bytes| <= MAX_SIZE && FrameSpec(s0, e.bytes).1 {
      History.AddHasNew(FrameSpec(s0, e.bytes).0.sent, IdOf, e.msg);
    }
  }

  /** With a stream that accepts everything, a command with a payload whose
      encoding fits is written as one frame around its encoding and
      booked. */
  lemma {:induction false} SendWritesFrame(c: Config, s: State, m: Command)
    requires Accepting(s) && HasPayload(m)
    requires |EncodeSpec(c, s, m).1.bytes| <= MAX_SIZE
    ensures var e := EncodeSpec(c, s, m).1; var r := SendSpec(c, s, m);
      r.1 && r.0.out == s.out + FrameOf(e.bytes)
  {
    var (s0, e) := EncodeSpec(c, s, m);
    FrameAccepted(s0, e.bytes);
  }

  /** A command without a payload is never written: only the clock reading
      for its id may have been taken. */
  lemma SendWithoutPayload(c: Config, s: State, m: Command)
    requires !HasPayload(m)
    ensures var r := SendSpec(c, s, m);
      !r.1 && r.0 == s.(ticks := r.0.ticks)
  {
  }

  /** The sender accepts an encoding of exactly MAX_SIZE bytes, which the
      receiving `readFrame` then refuses (ScanMaxSizeRejected): the two
      limits differ by one. */
  lemma {:induction false} SendAcceptsMaxSize(c: Config, s: State, m: Command)
    requires Accepting(s) && HasPayload(m)
    requires |EncodeSpec(c, s, m).1.bytes| == MAX_SIZE
    ensures SendSpec(c, s, m).1
  {
    SendWritesFrame(c, s, m);
  }

  /** A message sent while its id is pending has its retry count raised by
      one (the Python `trackMessage` increments it) and its timestamp
      refreshed. */
  lemma {:induction false} ResendCountsRetry(c: Config, s: State, m: Command)
    requires m.id.Some? && m.id.value != 0 && m.id.value in s.pending
    requires SendSpec(c, s, m).1
    ensures var k := m.id.value; var r := SendSpec(c, s, m).0;
      k in r.pending && r.pending[k].retryCount == s.pending[k].retryCount + 1
  {
    var (s0, e) := EncodeSpec(c, s, m);
    assert e.msg == m && s0 == s;
    FrameSpecKeepsPending(s0, e.bytes);
  }

  lemma FrameSpecKeepsPending(s: State, p: seq<u8>)
    requires |p| <= MAX_SIZE
    ensures FrameSpec(s, p).0.pending == s.pending && FrameSpec(s, p).0.sent == s.sent
  {
  }

  /** A send of a message with a usable id leaves the pending table with
      no new id but that one. */
  lemma {:induction false} SendPendingKeys(c: Config, s: State, m: Command)
    requires m.id.Some? && m.id.value != 0
    ensures SendSpec(c, s, m).0.pending.Keys <= s.pending.Keys + {m.id.value}
  {
    var (s0, e) := EncodeSpec(c, s, m);
    assert e.msg == m && s0 == s;
    if |e.bytes| <= MAX_SIZE {
      FrameSpecKeepsPending(s0, e.bytes);
    }
  }

  // ---------------------------------------------------------------------
  // Acknowledgements

  /** `sendAck` leaves the id not pending, even though `send` has just
      booked the ack under that id. */
  lemma SendAckClears(c: Config, s: State, id: int)
    ensures id !in SendAckSpec(c, s, id).pending
  {
  }

  /** `sendNack` books the NACK under the id it answers, so that id is
      pending afterwards whenever the NACK was sent. */
  lemma {:induction false} SendNackBooks(c: Config, s: State, id: int, reason: string)
    requires id != 0 && SendSpec(c, s, NackMessage(id, reason)).1
    ensures id in SendNackSpec(c, s, id, reason).pending
  {
    SendBooking(c, s, NackMessage(id, reason));
  }

  /** The encoding of the ack for `id`. */
  function AckBytes(id: int): seq<u8> {
    EncodeCommand(AckMessage(id), 0).bytes
  }

  /** With a stream that accepts everything, `sendAck` writes exactly the
      frame of the ack. */
  lemma {:induction false} SendAckWrites(c: Config, s: State, id: int)
    requires Accepting(s) && id != 0 && |AckBytes(id)| <= MAX_SIZE
    ensures var r := SendAckSpec(c, s, id);
      r.out == s.out + FrameOf(AckBytes(id)) && Accepting(r) && Keeps(s, r)
  {
    assert EncodeSpec(c, s, AckMessage(id)) == (s, EncodeCommand(AckMessage(id), 0));
    SendWritesFrame(c, s, AckMessage(id));
    SendKeeps(c, s, AckMessage(id));
  }

  /** `handleAck` and `handleNack` make no callback and only append to the
      output. */
  lemma {:induction false} AckHandlingKeeps(c: Config, s: State, d: Decoded)
    requires d.ack.Some?
    ensures Keeps(s, ProcessCallbackSpec(c, s, d))
  {
    if !d.ack.value.acknowledged && History.Has(s.sent, IdOf, d.id) && d.id in s.pending {
      var m := History.Find(s.sent, IdOf, d.id);
      if m.Some? {
        SendKeeps(c, s, m.value);
      }
    }
  }

  /** Every message that decodes is answered first with an ack frame for
      its id, duplicate or not. When the message is itself an ack, that
      frame is all that is written: an ack is acked, so two engines
      answer each other's acks for as long as they run. */
  lemma {:induction false} ReceivedMessageIsAcked(c: Config, s: State, raw: seq<u8>)
    requires Accepting(s) && !Decode(raw).0
    requires Decode(raw).1.id != 0 && |AckBytes(Decode(raw).1.id)| <= MAX_SIZE
    ensures var d := Decode(raw).1; var r := ReceiveMessageSpec(c, s, raw);
      s.out + FrameOf(AckBytes(d.id)) <= r.out &&
      (d.ack.Some? && d.ack.value.acknowledged ==> r.out == s.out + FrameOf(AckBytes(d.id)))
  {
    var d := Decode(raw).1;
    if History.Has(s.received, DecodedId, d.id) {
      SendAckWrites(c, s, d.id);
    } else {
      var s1 := ReceiveSpec(s, d);
      SendAckWrites(c, s1, d.id);
      var s2 := SendAckSpec(c, s1, d.id);
      if d.ack.Some? {
        AckHandlingKeeps(c, s2, d);
      }
    }
  }

  // ---------------------------------------------------------------------
  // Receiving and dispatching

  /** `processCallback` makes at most one callback, none for an ack, and
      the one it makes carries the payload of the message under a callback
      that is set. */
  lemma {:induction false} ProcessCallbackDispatch(c: Config, s: State, d: Decoded)
    ensures var r := ProcessCallbackSpec(c, s, d);
      r.received == s.received && s.calls <= r.calls && |r.calls| <= |s.calls| + 1 &&
      (d.ack.Some? ==> r.calls == s.calls) &&
      (|r.calls| == |s.calls| + 1 ==>
        var x := r.calls[|s.calls|];
        (x.LedCall? && d.led == Some(x.led) && c.ledCallback) ||
        (x.MoveCall? && d.move == Some(x.move) && c.moveCallback) ||
        (x.SoundCall? && d.sound == Some(x.sound) && c.soundCallback))
  {
    if d.ack.Some? {
      AckHandlingKeeps(c, s, d);
    }
  }

  /** `receiveMessage`: a payload that does not decode is not recorded and
      calls nothing (and with id 0 nothing at all happens); a known id is
      only acked again; a new id is recorded and dispatched at most once. */
  lemma {:induction false} ReceiveMessageOutcome(c: Config, s: State, raw: seq<u8>)
    ensures var (err, d) := Decode(raw); var r := ReceiveMessageSpec(c, s, raw);
      (err && d.id == 0 ==> r == s) &&
      (err || History.Has(s.received, DecodedId, d.id) ==> r.received == s.received && r.calls == s.calls) &&
      (!err && !History.Has(s.received, DecodedId, d.id) ==>
        r.received == History.Add(s.received, DecodedId, d) &&
        s.calls <= r.calls && |r.calls| <= |s.calls| + 1)
  {
    var (err, d) := Decode(raw);
    if err {
      if d.id != 0 {
        SendKeeps(c, s, NackMessage(d.id, "Invalid message"));
      }
    } else if History.Has(s.received, DecodedId, d.id) {
      SendKeeps(c, s, AckMessage(d.id));
    } else {
      var s1 := ReceiveSpec(s, d);
      SendKeeps(c, s1, AckMessage(d.id));
      ProcessCallbackDispatch(c, SendAckSpec(c, s1, d.id), d);
    }
  }

  /** The same payload received twice in a row is dispatched once: the
      second time its id is in the received history. */
  lemma {:induction false} ReceiveTwiceDispatchesOnce(c: Config, s: State, raw: seq<u8>)
    ensures var r1 := ReceiveMessageSpec(c, s, raw); var r2 := ReceiveMessageSpec(c, r1, raw);
      r2.calls == r1.calls && r2.received == r1.received
  {
    var (err, d) := Decode(raw);
    ReceiveMessageOutcome(c, s, raw);
    var r1 := ReceiveMessageSpec(c, s, raw);
    if !err && !History.Has(s.received, DecodedId, d.id) {
      History.AddHasNew(s.received, DecodedId, d);
    }
    ReceiveMessageOutcome(c, r1, raw);
  }

  // ---------------------------------------------------------------------
  // The retry sweep

  /** A due entry whose message has left the sent history makes
      `resendMessage(None)` raise, which ends the sweep. */
  lemma {:induction false} RetryEvictedRaises(c: Config, s: State, now: int, k: int, info: Info)
    requires now - info.lastProcessedTimestamp >= c.timeout && info.retryCount < c.maxRetries
    requires !History.Has(s.sent, IdOf, k)
    ensures RetryStep(c, s, now, k, info) == (s, true)
  {
    History.FindSpec(s.sent, IdOf, k);
  }

  /** One step of the sweep adds no pending id but its own. */
  lemma {:induction false} RetryStepKeys(c: Config, s: State, now: int, k: int, info: Info)
    requires k != 0
    ensures RetryStep(c, s, now, k, info).0.pending.Keys <= s.pending.Keys + {k}
  {
    if now - info.lastProcessedTimestamp >= c.timeout && info.retryCount < c.maxRetries {
      var m := History.Find(s.sent, IdOf, k);
      History.FindSpec(s.sent, IdOf, k);
      if m.Some? {
        assert IdOf(m.value) == k;
        SendPendingKeys(c, s, m.value);
      }
    }
  }

  /** An id the sweep does not visit and that is not pending stays so. */
  lemma {:induction false} RetryLoopAbsent(c: Config, s: State, now: int, keys: seq<int>, snap: map<int, Info>, k: int)
    requires forall j <- keys :: j in snap
    requires 0 !in keys && k !in keys && k !in s.pending
    ensures k !in RetryLoop(c, s, now, keys, snap).0.pending
    decreases |keys|
  {
    if |keys| > 0 {
      RetryStepKeys(c, s, now, keys[0], snap[keys[0]]);
      var r := RetryStep(c, s, now, keys[0], snap[keys[0]]);
      if !r.1 {
        RetryLoopAbsent(c, r.0, now, keys[1..], snap, k);
      }
    }
  }

  /** A sweep that does not raise erases every visited entry whose retries
      were used up in the snapshot. */
  lemma {:induction false} RetryLoopErases(c: Config, s: State, now: int, keys: seq<int>, snap: map<int, Info>, k: int)
    requires forall j <- keys :: j in snap
    requires Distinct(keys) && 0 !in keys
    requires k in keys && snap[k].retryCount >= c.maxRetries
    ensures var r := RetryLoop(c, s, now, keys, snap); !r.1 ==> k !in r.0.pending
    decreases |keys|
  {
    var r := RetryStep(c, s, now, keys[0], snap[keys[0]]);
    if !r.1 {
      if keys[0] == k {
        assert k !in keys[1..] by {
          forall i | 0 <= i < |keys[1..]| ensures keys[1..][i] != k {
            assert keys[1..][i] == keys[i + 1];
          }
        }
        RetryLoopAbsent(c, r.0, now, keys[1..], snap, k);
      } else {
        assert Distinct(keys[1..]) by {
          forall i, j | 0 <= i < j < |keys[1..]| ensures keys[1..][i] != keys[1..][j] {
            assert keys[1..][i] == keys[i + 1] && keys[1..][j] == keys[j + 1];
          }
        }
        RetryLoopErases(c, r.0, now, keys[1..], snap, k);
      }
    }
  }

  /** `retryMessages`: unless a resend raises, no entry whose retries were
      used up survives the sweep. */
  lemma {:induction false} RetryErasesExhausted(c: Config, s: State, keys: seq<int>, k: int)
    requires Enumerates(keys, s.pending) && 0 !in s.pending
    requires k in s.pending && s.pending[k].retryCount >= c.maxRetries
    ensures var r := RetrySpec(c, s, keys); !r.1 ==> k !in r.0.pending
  {
    assert 0 !in keys && k in keys;
    RetryLoopErases(c, s.(ticks := s.ticks + 1), Reading(c, s.ticks), keys, s.pending, k);
  }

  // ---------------------------------------------------------------------
  // What the retry sweep resends

  /** An entry's time is up at `now`. */
  predicate Due(c: Config, now: int, info: Info) {
    now - info.lastProcessedTimestamp >= c.timeout
  }

  /** A stored message that `send` writes: its encoding is not an error and
      fits in MAX_SIZE bytes. */
  predicate Sendable(m: Command) {
    var e := EncodeCommand(m, 0);
    !e.isError && |e.bytes| <= MAX_SIZE
  }

  /** What a stream that accepts everything receives from `send` of a
      stored message. */
  function SendBytes(m: Command): (r: seq<u8>)
    ensures Sendable(m) <==> |r| > 0
  {
    var e := EncodeCommand(m, 0);
    if !e.isError && |e.bytes| <= MAX_SIZE then FrameOf(e.bytes) else []
  }

  /** The visit of entry `k` raises: it is due, under the limit, and its
      message has left the sent history. */
  predicate Raises(c: Config, sent: seq<Command>, now: int, k: int, info: Info) {
    Due(c, now, info) && info.retryCount < c.maxRetries && History.Find(sent, IdOf, k).None?
  }

  /** What the visit of entry `k` writes on a stream that accepts
      everything. */
  function RetryBytes(c: Config, sent: seq<Command>, now: int, k: int, info: Info): seq<u8> {
    var m := History.Find(sent, IdOf, k);
    if Due(c, now, info) && info.retryCount < c.maxRetries && m.Some? then SendBytes(m.value) else []
  }

  /** Some entry of `keys` raises when visited. */
  predicate SweepRaises(c: Config, sent: seq<Command>, now: int, keys: seq<int>, snap: map<int, Info>)
    requires forall k <- keys :: k in snap
    decreases |keys|
  {
    |keys| > 0 && (Raises(c, sent, now, keys[0], snap[keys[0]]) || SweepRaises(c, sent, now, keys[1..], snap))
  }

  /** What the sweep writes, entry by entry in `keys` order, up to the
      first entry that raises. */
  function ResentBytes(c: Config, sent: seq<Command>, now: int, keys: seq<int>, snap: map<int, Info>): seq<u8>
    requires forall k <- keys :: k in snap
    decreases |keys|
  {
    if |keys| == 0 || Raises(c, sent, now, keys[0], snap[keys[0]]) then []
    else RetryBytes(c, sent, now, keys[0], snap[keys[0]]) + ResentBytes(c, sent, now, keys[1..], snap)
  }

  /** `send` of a message whose id is stored keeps the sent history (the
      history ignores an id it holds), only moves the clock on, changes no
      entry but the message's own, and an accepting stream receives
      exactly SendBytes. */
  lemma {:induction false} SendEffect(c: Config, s: State, m: Command)
    requires IdOf(m) != 0 && History.Has(s.sent, IdOf, IdOf(m))
    ensures var r := SendSpec(c, s, m).0;
      r.sent == s.sent && s.ticks <= r.ticks && r.pending - {IdOf(m)} == s.pending - {IdOf(m)} &&
      (Accepting(s) ==> Accepting(r) && r.out == s.out + SendBytes(m))
  {
    var e := EncodeCommand(m, 0);
    assert EncodeSpec(c, s, m) == (s, e) && e.msg == m;
    if Sendable(m) {
      var w := FrameSpec(s, e.bytes);
      FrameSpecKeepsPending(s, e.bytes);
      TrackStored(c, w.0, m);
      assert SendSpec(c, s, m).0 == if w.1 then Track(c, w.0, m) else w.0;
      if Accepting(s) {
        SendStored(c, s, m);
      }
    }
  }

  /** Tracking a message whose id is stored changes only its own entry
      and the clock. */
  lemma TrackStored(c: Config, s: State, m: Command)
    requires History.Has(s.sent, IdOf, IdOf(m))
    ensures var r := Track(c, s, m);
      r == s.(pending := r.pending, ticks := s.ticks + 1) && r.pending - {IdOf(m)} == s.pending - {IdOf(m)}
  {
  }

  /** `send` of a sendable message with an id over an accepting stream
      writes its frame and then tracks it. */
  lemma {:induction false} SendStored(c: Config, s: State, m: Command)
    requires IdOf(m) != 0 && Accepting(s) && Sendable(m)
    ensures SendSpec(c, s, m) == (Track(c, s.(out := s.out + SendBytes(m)), m), true)
  {
    var e := EncodeCommand(m, 0);
    assert EncodeSpec(c, s, m) == (s, e) && e.msg == m;
    FrameAccepted(s, e.bytes);
  }

  /** One step of the sweep raises exactly when Raises says, and then
      changes nothing; otherwise it keeps the sent history, only moves the
      clock on, changes no entry but the visited one, and an accepting
      stream receives exactly RetryBytes. */
  lemma {:induction false} RetryStepEffect(c: Config, s: State, now: int, k: int, info: Info)
    requires k != 0
    ensures var r := RetryStep(c, s, now, k, info);
      (r.1 <==> Raises(c, s.sent, now, k, info)) && (r.1 ==> r.0 == s) &&
      r.0.sent == s.sent && s.ticks <= r.0.ticks && r.0.pending - {k} == s.pending - {k} &&
      (Accepting(s) ==> Accepting(r.0) && r.0.out == s.out + RetryBytes(c, s.sent, now, k, info))
  {
    var m := History.Find(s.sent, IdOf, k);
    if Due(c, now, info) && info.retryCount < c.maxRetries {
      History.FindSpec(s.sent, IdOf, k);
      if m.Some? {
        SendEffect(c, s, m.value);
      }
    } else if info.retryCount >= c.maxRetries {
      assert RetryStep(c, s, now, k, info).0.pending - {k} == s.pending - {k};
    }
  }

  /** A due entry under the limit whose stored message is sendable is
      resent over an accepting stream: the entry is refreshed by the last
      reading taken and its count is one more than before (0 for an entry
      no longer pending). */
  lemma {:induction false} RetryStepResends(c: Config, s: State, now: int, k: int, info: Info)
    requires k != 0 && Accepting(s)
    requires History.Find(s.sent, IdOf, k).Some? && Sendable(History.Find(s.sent, IdOf, k).value)
    requires Due(c, now, info) && info.retryCount < c.maxRetries
    ensures var r := RetryStep(c, s, now, k, info);
      !r.1 && s.ticks < r.0.ticks && k in r.0.pending &&
      r.0.pending[k] == Info(Reading(c, r.0.ticks - 1), if k in s.pending then s.pending[k].retryCount + 1 else 0)
  {
    var m := History.Find(s.sent, IdOf, k).value;
    History.FindSpec(s.sent, IdOf, k);
    SendStored(c, s, m);
    var t := Track(c, s.(out := s.out + SendBytes(m)), m);
    assert RetryStep(c, s, now, k, info) == (t, false);
    assert t.pending[k] == Info(Reading(c, s.ticks), if k in s.pending then s.pending[k].retryCount + 1 else 0);
  }

  /** What a step that does not raise and the rest of the sweep each keep,
      the two keep together. */
  lemma EffectCompose(s: State, r1: State, r: State, k: int, rest: set<int>, b: seq<u8>, bs: seq<u8>)
    requires r1.sent == s.sent && s.ticks <= r1.ticks && r1.pending - {k} == s.pending - {k}
    requires Accepting(s) ==> Accepting(r1) && r1.out == s.out + b
    requires r.sent == r1.sent && r1.ticks <= r.ticks && r.pending - rest == r1.pending - rest
    requires Accepting(r1) ==> Accepting(r) && r.out == r1.out + bs
    ensures r.sent == s.sent && s.ticks <= r.ticks && r.pending - ({k} + rest) == s.pending - ({k} + rest)
    ensures Accepting(s) ==> Accepting(r) && r.out == s.out + (b + bs)
  {
    MinusCompose(s.pending, r1.pending, r.pending, {k}, rest);
  }

  /** The sweep raises exactly when some visited entry Raises; it keeps
      the sent history, only moves the clock on, changes no entry it does
      not visit, and an accepting stream receives exactly ResentBytes. */
  lemma {:induction false} RetryLoopEffect(c: Config, s: State, now: int, keys: seq<int>, snap: map<int, Info>)
    requires forall k <- keys :: k in snap
    requires 0 !in keys
    ensures var r := RetryLoop(c, s, now, keys, snap);
      (r.1 <==> SweepRaises(c, s.sent, now, keys, snap)) &&
      r.0.sent == s.sent && s.ticks <= r.0.ticks && r.0.pending - Elements(keys) == s.pending - Elements(keys) &&
      (Accepting(s) ==> Accepting(r.0) && r.0.out == s.out + ResentBytes(c, s.sent, now, keys, snap))
    decreases |keys|
  {
    if |keys| > 0 {
      var r1 := RetryStep(c, s, now, keys[0], snap[keys[0]]);
      RetryStepEffect(c, s, now, keys[0], snap[keys[0]]);
      if r1.1 {
        assert s.out + [] == s.out;
      } else {
        RetryLoopEffect(c, r1.0, now, keys[1..], snap);
        assert Elements(keys) == {keys[0]} + Elements(keys[1..]);
        EffectCompose(s, r1.0, RetryLoop(c, r1.0, now, keys[1..], snap).0, keys[0], Elements(keys[1..]),
          RetryBytes(c, s.sent, now, keys[0], snap[keys[0]]), ResentBytes(c, s.sent, now, keys[1..], snap));
      }
    }
  }

  /** In a sweep over an accepting stream that does not raise, a due entry
      under the limit whose stored message is sendable ends up refreshed
      by a reading taken during the sweep, its count one more than before
      (0 for an id that was not pending). */
  lemma {:induction false} RetryLoopResends(c: Config, s: State, now: int, keys: seq<int>, snap: map<int, Info>, k: int)
    requires forall j <- keys :: j in snap
    requires Distinct(keys) && 0 !in keys && k in keys && Accepting(s)
    requires History.Find(s.sent, IdOf, k).Some? && Sendable(History.Find(s.sent, IdOf, k).value)
    requires Due(c, now, snap[k]) && snap[k].retryCount < c.maxRetries
    ensures var r := RetryLoop(c, s, now, keys, snap);
      !r.1 ==> (k in r.0.pending &&
        r.0.pending[k].retryCount == (if k in s.pending then s.pending[k].retryCount + 1 else 0) &&
        exists t :: s.ticks <= t < r.0.ticks && r.0.pending[k].lastProcessedTimestamp == Reading(c, t))
    decreases |keys|
  {
    var r1 := RetryStep(c, s, now, keys[0], snap[keys[0]]);
    var r := RetryLoop(c, s, now, keys, snap);
    RetryStepEffect(c, s, now, keys[0], snap[keys[0]]);
    DistinctTail(keys);
    if !r1.1 {
      RetryLoopEffect(c, r1.0, now, keys[1..], snap);
      if keys[0] == k {
        RetryStepResends(c, s, now, k, snap[k]);
        MinusAgree(r.0.pending, r1.0.pending, Elements(keys[1..]), k);
        assert s.ticks <= r1.0.ticks - 1 < r.0.ticks;
      } else {
        MinusAgree(r1.0.pending, s.pending, {keys[0]}, k);
        RetryLoopResends(c, r1.0, now, keys[1..], snap, k);
      }
    }
  }

  /** In the sweep, an entry under the limit that is not due, or whose
      message has left the sent history, is left exactly as it was, raise
      or not. */
  lemma {:induction false} RetryLoopKeeps(c: Config, s: State, now: int, keys: seq<int>, snap: map<int, Info>, k: int)
    requires forall j <- keys :: j in snap
    requires Distinct(keys) && 0 !in keys && k in keys
    requires snap[k].retryCount < c.maxRetries
    requires !Due(c, now, snap[k]) || History.Find(s.sent, IdOf, k).None?
    ensures var r := RetryLoop(c, s, now, keys, snap);
      (k in r.0.pending <==> k in s.pending) && (k in s.pending ==> r.0.pending[k] == s.pending[k])
    decreases |keys|
  {
    var r1 := RetryStep(c, s, now, keys[0], snap[keys[0]]);
    var r := RetryLoop(c, s, now, keys, snap);
    RetryStepEffect(c, s, now, keys[0], snap[keys[0]]);
    DistinctTail(keys);
    if keys[0] == k {
      assert r1.0 == s;
      if !r1.1 {
        RetryLoopEffect(c, r1.0, now, keys[1..], snap);
        MinusAgree(r.0.pending, r1.0.pending, Elements(keys[1..]), k);
      }
    } else {
      MinusAgree(r1.0.pending, s.pending, {keys[0]}, k);
      if !r1.1 {
        RetryLoopKeeps(c, r1.0, now, keys[1..], snap, k);
      }
    }
  }

  /** `retryMessages`: over an accepting stream, unless the sweep raises, a
      pending entry under the limit whose stored message is sendable and
      whose time is up is resent, refreshed by a reading taken after the
      sweep's own and with its count one higher; an entry under the limit
      that is not due, or whose message has left the sent history, is left
      exactly as it was. */
  lemma {:induction false} RetryResends(c: Config, s: State, keys: seq<int>, k: int)
    requires Enumerates(keys, s.pending) && 0 !in s.pending && k in s.pending
    ensures var r := RetrySpec(c, s, keys); var now := Reading(c, s.ticks);
      var info := s.pending[k]; var m := History.Find(s.sent, IdOf, k);
      (Accepting(s) && m.Some? && Sendable(m.value) && Due(c, now, info) && info.retryCount < c.maxRetries && !r.1 ==>
        k in r.0.pending && r.0.pending[k].retryCount == info.retryCount + 1 &&
        exists t :: s.ticks < t < r.0.ticks && r.0.pending[k].lastProcessedTimestamp == Reading(c, t)) &&
      (info.retryCount < c.maxRetries && (!Due(c, now, info) || m.None?) ==>
        k in r.0.pending && r.0.pending[k] == info)
  {
    var s1, now := s.(ticks := s.ticks + 1), Reading(c, s.ticks);
    var info, m := s.pending[k], History.Find(s.sent, IdOf, k);
    assert 0 !in keys && k in keys;
    assert RetrySpec(c, s, keys) == RetryLoop(c, s1, now, keys, s.pending);
    if Accepting(s) && m.Some? && Sendable(m.value) && Due(c, now, info) && info.retryCount < c.maxRetries {
      RetryLoopResends(c, s1, now, keys, s.pending, k);
    }
    if info.retryCount < c.maxRetries && (!Due(c, now, info) || m.None?) {
      RetryLoopKeeps(c, s1, now, keys, s.pending, k);
    }
  }

  /** `retryMessages` raises exactly when some entry of the table Raises,
      keeps the sent history, and over an accepting stream writes exactly
      the frames of the resent messages, in the order the table is
      visited, up to the entry that raises. */
  lemma {:induction false} RetryWrites(c: Config, s: State, keys: seq<int>)
    requires Enumerates(keys, s.pending) && 0 !in s.pending
    ensures var r := RetrySpec(c, s, keys); var now := Reading(c, s.ticks);
      (r.1 <==> SweepRaises(c, s.sent, now, keys, s.pending)) && r.0.sent == s.sent &&
      (Accepting(s) ==> r.0.out == s.out + ResentBytes(c, s.sent, now, keys, s.pending))
  {
    var s1, now := s.(ticks := s.ticks + 1), Reading(c, s.ticks);
    assert 0 !in keys;
    assert RetrySpec(c, s, keys) == RetryLoop(c, s1, now, keys, s.pending);
    RetryLoopEffect(c, s1, now, keys, s.pending);
  }
}
