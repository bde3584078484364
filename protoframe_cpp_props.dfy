/** What the C++ frame engine promises, and where it departs from the
    Python one, proved on the specification functions of ProtoFrameCpp. */
module ProtoFrameCppProps {
  import opened Common
  import History
  import opened Crc8Spec
  import opened ProtoFrameCpp

  // ---------------------------------------------------------------------
  // Frames on the wire

  /** The bytes `send` writes for a payload. */
  function FrameOf(p: seq<byte>): (r: seq<byte>)
    requires |p| <= MAX_SIZE
    ensures |r| == |p| + 3 && r[0] == START_BYTE && r[1] == |p| as bv8
  {
    [START_BYTE, |p| as bv8] + p + [Checksum(p)]
  }

  predicate Accepting(s: State) {
    |s.script| == 0
  }

  /** With a stream that accepts everything, a non-empty payload is written
      as one frame and the writes succeed. */
  lemma FrameAccepted(s: State, p: seq<byte>)
    requires 0 < |p| <= MAX_SIZE && Accepting(s)
    ensures FrameSpec(s, p) == (s.(out := s.out + FrameOf(p)), true)
  {
    assert s.out + [START_BYTE] + [|p| as bv8] + p + [Checksum(p)] == s.out + FrameOf(p);
  }

  /** An empty payload makes `write(buffer, 0)` return 0, which `send`
      reports as a failed write after the start and length bytes went out. */
  lemma EmptyPayloadFails(s: State)
    requires Accepting(s)
    ensures FrameSpec(s, []) == (s.(out := s.out + [START_BYTE, 0]), false)
  {
    assert s.out + [START_BYTE] + [0] + [] == s.out + [START_BYTE, 0];
  }

  /** The first write that returns 0 ends the frame: the bytes after it are
      not written. */
  lemma FirstWriteRefused(s: State, p: seq<byte>)
    requires |p| <= MAX_SIZE && |s.script| > 0 && !s.script[0]
    ensures FrameSpec(s, p) == (s.(script := s.script[1..]), false)
  {
  }

  /** No reading within `n` readings from `t` is more than `timeout` after
      `start`, in 32-bit wrapping arithmetic. */
  predicate InTime(c: Config, start: u32, t: nat, n: nat) {
    forall k :: t <= k < t + n ==> Sub32(Reading(c, k), start) <= c.timeout
  }

  /** No byte of `p` is 0xFF, the byte the read as written takes for a
      failed read. */
  predicate NoFF(p: seq<byte>) {
    forall i :: 0 <= i < |p| ==> p[i] != 0xFF
  }

  /** The payload from position `k` on, then its checksum, completes the
      frame in an assembler that has stored the first `k` bytes. */
  lemma {:induction false} ScanPayload(c: Config, a: Asm, p: seq<byte>, k: nat, rest: seq<byte>, start: u32, t: nat, stopAtFF: bool)
    requires AsmOk(a) && |p| < MAX_SIZE && k <= |p|
    requires a.index == k + 2 && a.length == |p| && a.buf[..k] == p[..k]
    requires stopAtFF ==> NoFF(p) && Checksum(p) != 0xFF
    requires InTime(c, start, t, |p| - k + 1)
    ensures var sc := ScanWith(c, a, p[k..] + [Checksum(p)] + rest, start, t, stopAtFF);
      sc.end == Complete(p) && sc.rest == rest && sc.ticks == t + (|p| - k) + 1
    decreases |p| - k
  {
    var input := p[k..] + [Checksum(p)] + rest;
    assert Sub32(Reading(c, t), start) <= c.timeout;
    if k == |p| {
      assert input[0] == Checksum(p) && input[1..] == rest;
      assert a.buf[..a.length] == p;
    } else {
      assert input[0] == p[k] && input[1..] == p[k + 1..] + [Checksum(p)] + rest;
      var a' := a.(buf := a.buf[k := p[k]], index := k + 3);
      assert Feed(a, p[k]) == (a', Next);
      assert a'.buf[..k + 1] == p[..k + 1];
      ScanPayload(c, a', p, k + 1, rest, start, t + 1, stopAtFF);
    }
  }

  /** An idle assembler reading a well-formed frame returns its payload,
      having consumed exactly the frame: the read checked before it is
      narrowed does so whatever bytes the payload holds, the read as
      written when neither the payload nor its checksum holds 0xFF. */
  lemma {:induction false} ScanFrame(c: Config, a: Asm, p: seq<byte>, rest: seq<byte>, start: u32, t: nat, stopAtFF: bool)
    requires AsmOk(a) && a.index == 0 && |p| < MAX_SIZE
    requires stopAtFF ==> NoFF(p) && Checksum(p) != 0xFF
    requires InTime(c, start, t, |p| + 3)
    ensures var sc := ScanWith(c, a, FrameOf(p) + rest, start, t, stopAtFF);
      sc.end == Complete(p) && sc.rest == rest && sc.ticks == t + |p| + 3
  {
    var input := FrameOf(p) + rest;
    assert Sub32(Reading(c, t), start) <= c.timeout && Sub32(Reading(c, t + 1), start) <= c.timeout;
    var a1 := a.(index := 1);
    assert Feed(a, START_BYTE) == (a1, Next);
    assert input[0] == START_BYTE && input[1..][0] == |p| as bv8;
    var a2 := a1.(length := |p|, index := 2);
    assert Feed(a1, |p| as bv8) == (a2, Next);
    assert input[1..][1..] == p[0..] + [Checksum(p)] + rest;
    assert a2.buf[..0] == p[..0];
    assert ScanWith(c, a, input, start, t, stopAtFF) == ScanWith(c, a1, input[1..], start, t + 1, stopAtFF);
    assert ScanWith(c, a1, input[1..], start, t + 1, stopAtFF) == ScanWith(c, a2, input[1..][1..], start, t + 2, stopAtFF);
    ScanPayload(c, a2, p, 0, rest, start, t + 2, stopAtFF);
  }

  /** A frame announcing MAX_SIZE bytes, which `send` produces for an
      encoding that fills its buffer, is refused at the length byte. */
  lemma ScanMaxSizeRejected(c: Config, a: Asm, p: seq<byte>, rest: seq<byte>, start: u32, t: nat)
    requires AsmOk(a) && a.index == 0
    requires |p| == MAX_SIZE && InTime(c, start, t, 2)
    ensures var sc := Scan(c, a, FrameOf(p) + rest, start, t);
      sc.end == BadLength && sc.rest == p + [Checksum(p)] + rest && sc.asm == Idle(a)
  {
    var input := FrameOf(p) + rest;
    assert Sub32(Reading(c, t), start) <= c.timeout && Sub32(Reading(c, t + 1), start) <= c.timeout;
    assert input[0] == START_BYTE && input[1..][0] == 128;
    assert input[1..][1..] == p + [Checksum(p)] + rest;
    assert ScanWith(c, a, input, start, t, false) == ScanWith(c, a.(index := 1), input[1..], start, t + 1, false);
  }

  /** The loop as written stops at a data byte 0xFF: the one-byte payload
      0xFF, correctly framed, is never delivered, where the corrected loop
      delivers it. */
  lemma ReadFrameStopsAtFF(c: Config, a: Asm, start: u32, t: nat)
    requires AsmOk(a) && a.index == 0 && InTime(c, start, t, 4)
    ensures ScanAsWritten(c, a, FrameOf([0xFF]), start, t).end == ReadFailed
    ensures Scan(c, a, FrameOf([0xFF]), start, t).end == Complete([0xFF])
  {
    var input := FrameOf([0xFF]);
    assert Sub32(Reading(c, t), start) <= c.timeout && Sub32(Reading(c, t + 1), start) <= c.timeout;
    assert Sub32(Reading(c, t + 2), start) <= c.timeout;
    assert input[1..][1..][0] == 0xFF;
    ScanFrame(c, a, [0xFF], [], start, t, false);
    assert FrameOf([0xFF]) + [] == FrameOf([0xFF]);
  }

  // ---------------------------------------------------------------------
  // Sending

  /** `C110PSerial::send` books a message as soon as it encodes, before any
      write: the id is pending with no retries and the message is stored,
      whether or not the writes then succeed. A message that does not
      encode changes nothing. */
  lemma {:induction false} SendBooksFirst(c: Config, s: State, m: Cmd)
    ensures var r := SendSpec(c, s, m);
      (PbEncode(c, m).Some? ==>
        m.id in r.0.pending && r.0.pending[m.id].retryCount == 0 &&
        History.Has(r.0.sent, Id, m.id)) &&
      (PbEncode(c, m).None? ==> r == (s, false))
  {
    if PbEncode(c, m).Some? {
      var b := Book(c, s, m);
      History.AddHasNew(s.sent, Id, m);
      FrameKeepsBooks(b, PbEncode(c, m).value);
    }
  }

  lemma FrameKeepsBooks(s: State, p: seq<byte>)
    requires |p| <= MAX_SIZE
    ensures FrameSpec(s, p).0.pending == s.pending && FrameSpec(s, p).0.sent == s.sent
  {
  }

  /** With a stream that accepts everything, a message with a non-empty
      encoding is written as one frame around it. */
  lemma {:induction false} SendWritesFrame(c: Config, s: State, m: Cmd)
    requires Accepting(s) && PbEncode(c, m).Some? && |PbEncode(c, m).value| > 0
    ensures var r := SendSpec(c, s, m);
      r.1 && r.0.out == s.out + FrameOf(PbEncode(c, m).value)
  {
    FrameAccepted(Book(c, s, m), PbEncode(c, m).value);
  }

  /** `sendAck` leaves the acknowledged id pending: the ack is booked under
      that id like any sent message (the Python `sendAck` pops it). */
  lemma {:induction false} SendAckBooks(c: Config, s: State, id: u32)
    requires PbEncode(c, AckMessage(id)).Some?
    ensures id in SendAckSpec(c, s, id).pending
  {
    SendBooksFirst(c, s, AckMessage(id));
  }

  // ---------------------------------------------------------------------
  // Acknowledgements as written

  /** An ack or NACK as `sendAck` and `sendNack` build it carries no oneof
      tag, so the engine receiving it reaches neither `handleAck` nor
      `handleNack`: the entry for the id is the one its own reply has just
      booked, it is not erased, and no callback is made. */
  lemma {:induction false} UntaggedAckIgnored(c: Config, s: State, raw: seq<byte>, id: u32, reason: string)
    requires c.decode(raw) == Some(AckCommandAsWritten(id)) || c.decode(raw) == Some(NackCommandAsWritten(id, reason))
    requires PbEncode(c, AckMessage(id)).Some?
    ensures var r := ReceiveMessageSpec(c, s, raw);
      id in r.pending && r.pending[id] == Info(Reading(c, s.ticks), 0) && r.calls == s.calls
  {
    var d := c.decode(raw).value;
    var s1 := if History.Has(s.received, Id, id) then s else s.(received := History.Add(s.received, Id, d));
    FrameKeepsBooks(Book(c, s1, AckMessage(id)), PbEncode(c, AckMessage(id)).value);
  }

  /** With the tag set, an ack received as a new message erases the
      acknowledged entry, even though the reply to it has just booked the
      same id. */
  lemma {:induction false} TaggedAckClears(c: Config, s: State, raw: seq<byte>, id: u32)
    requires c.decode(raw) == Some(AckMessage(id)) && !History.Has(s.received, Id, id)
    ensures ReceiveMessageSpec(c, s, raw).pending == s.pending - {id}
  {
    var s1 := s.(received := History.Add(s.received, Id, AckMessage(id)));
    var e := PbEncode(c, AckMessage(id));
    if e.Some? {
      FrameKeepsBooks(Book(c, s1, AckMessage(id)), e.value);
      assert s1.pending[id := Info(Reading(c, s1.ticks), 0)] - {id} == s.pending - {id};
    }
  }

  // ---------------------------------------------------------------------
  // Retry counts

  /** Every pending entry has a retry count of 0, and every stored message
      encodes. */
  predicate Inv(c: Config, s: State) {
    (forall k <- s.pending :: s.pending[k].retryCount == 0) &&
    (forall i :: 0 <= i < |s.sent| ==> PbEncode(c, s.sent[i]).Some?)
  }

  lemma AddKeepsEncodable(c: Config, w: seq<Cmd>, m: Cmd)
    requires forall i :: 0 <= i < |w| ==> PbEncode(c, w[i]).Some?
    requires PbEncode(c, m).Some?
    ensures var r := History.Add(w, Id, m); forall i :: 0 <= i < |r| ==> PbEncode(c, r[i]).Some?
  {
    var r := History.Add(w, Id, m);
    forall i | 0 <= i < |r| ensures PbEncode(c, r[i]).Some? {
      if !History.Has(w, Id, m.id) && |w| >= History.CAPACITY && i < |r| - 1 {
        assert r[i] == w[i + 1];
      }
    }
  }

  /** `send` keeps the invariant: it stores only messages that encode and
      books them with no retries. */
  lemma {:induction false} SendInv(c: Config, s: State, m: Cmd)
    requires Inv(c, s)
    ensures Inv(c, SendSpec(c, s, m).0)
  {
    var e := PbEncode(c, m);
    if e.Some? {
      AddKeepsEncodable(c, s.sent, m);
      FrameKeepsBooks(Book(c, s, m), e.value);
    }
  }

  /** `resendMessage` of a message that encodes keeps the invariant: the
      count it raises is reset to 0 by the `send` that follows. */
  lemma {:induction false} ResendInv(c: Config, s: State, m: Cmd)
    requires Inv(c, s) && PbEncode(c, m).Some?
    ensures Inv(c, ResendSpec(c, s, m))
    ensures s.pending.Keys + {m.id} == ResendSpec(c, s, m).pending.Keys
  {
    var s1 := Refresh(c, s, m.id);
    AddKeepsEncodable(c, s1.sent, m);
    FrameKeepsBooks(Book(c, s1, m), PbEncode(c, m).value);
  }

  /** A message found in the sent history under `k` carries id `k` and
      encodes. */
  lemma FoundEncodes(c: Config, s: State, k: u32)
    requires Inv(c, s) && History.Find(s.sent, Id, k).Some?
    ensures var m := History.Find(s.sent, Id, k).value; m.id == k && PbEncode(c, m).Some?
  {
    History.FindSpec(s.sent, Id, k);
    var m := History.Find(s.sent, Id, k).value;
    var i :| 0 <= i < |s.sent| && s.sent[i] == m;
  }

  lemma {:induction false} ProcessCallbackInv(c: Config, s: State, m: Cmd)
    requires Inv(c, s)
    ensures Inv(c, ProcessCallbackSpec(c, s, m))
  {
    if m.which == AckTag && !m.ack.acknowledged {
      var f := History.Find(s.sent, Id, m.id);
      if f.Some? && m.id in s.pending {
        FoundEncodes(c, s, m.id);
        ResendInv(c, s, f.value);
      }
    }
  }

  /** `receiveMessage` keeps the invariant. */
  lemma {:induction false} ReceiveMessageInv(c: Config, s: State, raw: seq<byte>)
    requires Inv(c, s)
    ensures Inv(c, ReceiveMessageSpec(c, s, raw))
  {
    var d := c.decode(raw);
    if d.Some? {
      if History.Has(s.received, Id, d.value.id) {
        SendInv(c, s, AckMessage(d.value.id));
      } else {
        var s1 := s.(received := History.Add(s.received, Id, d.value));
        SendInv(c, s1, AckMessage(d.value.id));
        ProcessCallbackInv(c, SendAckSpec(c, s1, d.value.id), d.value);
      }
    }
  }

  /** `readFrame` keeps the invariant. */
  lemma {:induction false} ReadFrameInv(c: Config, s: State)
    requires AsmOk(s.asm) && Inv(c, s)
    ensures Inv(c, ReadFrameSpec(c, s).0)
  {
    var sc := Scan(c, s.asm, s.input, Reading(c, s.ticks), s.ticks + 1);
    var s1 := s.(asm := sc.asm, input := sc.rest, ticks := sc.ticks);
    assert Inv(c, s1);
    if sc.end.Complete? {
      var s2 := ReceiveMessageSpec(c, s1, sc.end.payload);
      ReceiveMessageInv(c, s1, sc.end.payload);
      assert ReadFrameSpec(c, s).0 == s2.(asm := Idle(s2.asm));
    } else {
      assert ReadFrameSpec(c, s).0 == s1;
    }
  }

  /** With a positive retry limit, a step of the sweep keeps the invariant
      and erases no entry. */
  lemma {:induction false} RetryStepInv(c: Config, s: State, now: u32, k: u32, info: Info)
    requires Inv(c, s) && c.maxRetries > 0 && info.retryCount == 0
    ensures var r := RetryStep(c, s, now, k, info); Inv(c, r) && s.pending.Keys <= r.pending.Keys
  {
    var m := History.Find(s.sent, Id, k);
    if m.Some? {
      FoundEncodes(c, s, k);
      if Sub64(now, info.lastProcessedTimestamp) >= c.timeout {
        ResendInv(c, s, m.value);
      }
    }
  }

  lemma {:induction false} RetryLoopInv(c: Config, s: State, now: u32, keys: seq<u32>, snap: map<u32, Info>)
    requires forall k <- keys :: k in snap
    requires forall k <- snap :: snap[k].retryCount == 0
    requires Inv(c, s) && c.maxRetries > 0
    ensures var r := RetryLoop(c, s, now, keys, snap); Inv(c, r) && s.pending.Keys <= r.pending.Keys
    decreases |keys|
  {
    if |keys| > 0 {
      RetryStepInv(c, s, now, keys[0], snap[keys[0]]);
      RetryLoopInv(c, RetryStep(c, s, now, keys[0], snap[keys[0]]), now, keys[1..], snap);
    }
  }

  /** With a positive retry limit, `retryMessages` never gives up on a
      message: every retry count stays 0 because `send` resets the count
      that `resendMessage` raised, so no entry is ever erased for running
      out of retries. */
  lemma {:induction false} RetryNeverErases(c: Config, s: State, keys: seq<u32>)
    requires Enumerates(keys, s.pending) && Inv(c, s) && c.maxRetries > 0
    ensures var r := RetrySpec(c, s, keys); Inv(c, r) && s.pending.Keys <= r.pending.Keys
  {
    RetryLoopInv(c, s.(ticks := s.ticks + 1), Reading(c, s.ticks), keys, s.pending);
  }

  /** `processQueue` keeps the invariant, so it holds for the whole life of
      an object, which starts with empty tables. */
  lemma {:induction false} ProcessQueueInv(c: Config, s: State, keys: seq<u32>)
    requires AsmOk(s.asm) && Inv(c, s) && c.maxRetries > 0
    requires Enumerates(keys, ReadFrameSpec(c, s).0.pending)
    ensures Inv(c, RetrySpec(c, ReadFrameSpec(c, s).0, keys))
  {
    ReadFrameInv(c, s);
    RetryNeverErases(c, ReadFrameSpec(c, s).0, keys);
  }

  // ---------------------------------------------------------------------
  // What the retry sweep resends

  /** An entry's time is up at `now` (64-bit wrapping subtraction). */
  predicate Due(c: Config, now: u32, info: Info) {
    Sub64(now, info.lastProcessedTimestamp) >= c.timeout
  }

  /** What a stream that accepts everything receives from the writes of
      `send` for a payload: the frame, or only the start and length bytes
      when the payload is empty (EmptyPayloadFails). */
  function Written(p: seq<byte>): (r: seq<byte>)
    requires |p| <= MAX_SIZE
    ensures |r| >= 2 && r[0] == START_BYTE && r[1] == |p| as bv8
  {
    if |p| > 0 then FrameOf(p) else [START_BYTE, 0]
  }

  /** What the sweep writes for one entry: the frame of its stored message
      when the entry is due, under the limit and the message encodes. */
  function RetryBytes(c: Config, sent: seq<Cmd>, now: u32, k: u32, info: Info): seq<byte> {
    var m := History.Find(sent, Id, k);
    if m.Some? && Due(c, now, info) && info.retryCount < c.maxRetries && PbEncode(c, m.value).Some? then
      Written(PbEncode(c, m.value).value)
    else []
  }

  /** What the sweep writes, entry by entry in `keys` order. */
  function ResentBytes(c: Config, sent: seq<Cmd>, now: u32, keys: seq<u32>, snap: map<u32, Info>): seq<byte>
    requires forall k <- keys :: k in snap
    decreases |keys|
  {
    if |keys| == 0 then []
    else RetryBytes(c, sent, now, keys[0], snap[keys[0]]) + ResentBytes(c, sent, now, keys[1..], snap)
  }

  /** `send` of a message whose id is stored keeps the sent history, only
      moves the clock on, changes no entry but the message's own, and an
      accepting stream receives exactly what Written says. */
  lemma {:induction false} SendEffect(c: Config, s: State, m: Cmd)
    requires History.Has(s.sent, Id, m.id)
    ensures var r := SendSpec(c, s, m).0;
      r.sent == s.sent && s.ticks <= r.ticks && r.pending - {m.id} == s.pending - {m.id} &&
      (Accepting(s) ==> Accepting(r) && r.out == s.out + (if PbEncode(c, m).Some? then Written(PbEncode(c, m).value) else []))
  {
    var e := PbEncode(c, m);
    if e.Some? {
      var b := Book(c, s, m);
      assert b.pending - {m.id} == s.pending - {m.id};
      FrameKeepsBooks(b, e.value);
      if Accepting(s) {
        if |e.value| > 0 {
          FrameAccepted(b, e.value);
        } else {
          EmptyPayloadFails(b);
        }
      }
    }
  }

  /** One step of the sweep keeps the sent history, only moves the clock
      on, changes no entry but the visited one, and an accepting stream
      receives exactly RetryBytes. */
  lemma {:induction false} RetryStepEffect(c: Config, s: State, now: u32, k: u32, info: Info)
    ensures var r := RetryStep(c, s, now, k, info);
      r.sent == s.sent && s.ticks <= r.ticks && r.pending - {k} == s.pending - {k} &&
      (Accepting(s) ==> Accepting(r) && r.out == s.out + RetryBytes(c, s.sent, now, k, info))
  {
    var m := History.Find(s.sent, Id, k);
    if m.Some? && Due(c, now, info) && info.retryCount < c.maxRetries {
      History.FindSpec(s.sent, Id, k);
      var s1 := Refresh(c, s, k);
      assert s1.pending - {k} == s.pending - {k};
      SendEffect(c, s1, m.value);
      assert RetryStep(c, s, now, k, info) == SendSpec(c, s1, m.value).0;
    } else if m.Some? && info.retryCount >= c.maxRetries {
      assert RetryStep(c, s, now, k, info).pending - {k} == s.pending - {k};
    }
  }

  /** A due entry under the limit whose stored message encodes is resent:
      the entry is refreshed by the last reading taken, and the `send` of
      the resend puts its count back at 0. */
  lemma {:induction false} RetryStepResends(c: Config, s: State, now: u32, k: u32, info: Info)
    requires History.Find(s.sent, Id, k).Some? && PbEncode(c, History.Find(s.sent, Id, k).value).Some?
    requires Due(c, now, info) && info.retryCount < c.maxRetries
    ensures var r := RetryStep(c, s, now, k, info);
      s.ticks < r.ticks && k in r.pending && r.pending[k] == Info(Reading(c, r.ticks - 1), 0)
  {
    var m := History.Find(s.sent, Id, k).value;
    History.FindSpec(s.sent, Id, k);
    var b := Book(c, Refresh(c, s, k), m);
    FrameKeepsBooks(b, PbEncode(c, m).value);
  }

  /** What a step and the rest of the sweep each keep, the two keep
      together. */
  lemma EffectCompose(s: State, r1: State, r: State, k: u32, rest: set<u32>, b: seq<byte>, bs: seq<byte>)
    requires r1.sent == s.sent && s.ticks <= r1.ticks && r1.pending - {k} == s.pending - {k}
    requires Accepting(s) ==> Accepting(r1) && r1.out == s.out + b
    requires r.sent == r1.sent && r1.ticks <= r.ticks && r.pending - rest == r1.pending - rest
    requires Accepting(r1) ==> Accepting(r) && r.out == r1.out + bs
    ensures r.sent == s.sent && s.ticks <= r.ticks && r.pending - ({k} + rest) == s.pending - ({k} + rest)
    ensures Accepting(s) ==> Accepting(r) && r.out == s.out + (b + bs)
  {
    MinusCompose(s.pending, r1.pending, r.pending, {k}, rest);
  }

  /** The sweep keeps the sent history, only moves the clock on, changes
      no entry it does not visit, and an accepting stream receives exactly
      ResentBytes. */
  lemma {:induction false} RetryLoopEffect(c: Config, s: State, now: u32, keys: seq<u32>, snap: map<u32, Info>)
    requires forall k <- keys :: k in snap
    ensures var r := RetryLoop(c, s, now, keys, snap);
      r.sent == s.sent && s.ticks <= r.ticks && r.pending - Elements(keys) == s.pending - Elements(keys) &&
      (Accepting(s) ==> Accepting(r) && r.out == s.out + ResentBytes(c, s.sent, now, keys, snap))
    decreases |keys|
  {
    if |keys| > 0 {
      var r1 := RetryStep(c, s, now, keys[0], snap[keys[0]]);
      RetryStepEffect(c, s, now, keys[0], snap[keys[0]]);
      RetryLoopEffect(c, r1, now, keys[1..], snap);
      assert Elements(keys) == {keys[0]} + Elements(keys[1..]);
      EffectCompose(s, r1, RetryLoop(c, r1, now, keys[1..], snap), keys[0], Elements(keys[1..]),
        RetryBytes(c, s.sent, now, keys[0], snap[keys[0]]), ResentBytes(c, s.sent, now, keys[1..], snap));
    }
  }

  /** In the sweep, a due entry under the limit whose stored message
      encodes ends up refreshed by a reading taken during the sweep, with
      its count at 0. */
  lemma {:induction false} RetryLoopResends(c: Config, s: State, now: u32, keys: seq<u32>, snap: map<u32, Info>, k: u32)
    requires forall j <- keys :: j in snap
    requires Distinct(keys) && k in keys
    requires History.Find(s.sent, Id, k).Some? && PbEncode(c, History.Find(s.sent, Id, k).value).Some?
    requires Due(c, now, snap[k]) && snap[k].retryCount < c.maxRetries
    ensures var r := RetryLoop(c, s, now, keys, snap);
      k in r.pending && r.pending[k].retryCount == 0 &&
      exists t :: s.ticks <= t < r.ticks && r.pending[k].lastProcessedTimestamp == Reading(c, t)
    decreases |keys|
  {
    var r1 := RetryStep(c, s, now, keys[0], snap[keys[0]]);
    var r := RetryLoop(c, s, now, keys, snap);
    RetryStepEffect(c, s, now, keys[0], snap[keys[0]]);
    RetryLoopEffect(c, r1, now, keys[1..], snap);
    DistinctTail(keys);
    if keys[0] == k {
      RetryStepResends(c, s, now, k, snap[k]);
      MinusAgree(r.pending, r1.pending, Elements(keys[1..]), k);
      assert s.ticks <= r1.ticks - 1 < r.ticks;
    } else {
      RetryLoopResends(c, r1, now, keys[1..], snap, k);
    }
  }

  /** In the sweep, an entry under the limit that is not due, or whose
      message has left the sent history, is left exactly as it was. */
  lemma {:induction false} RetryLoopKeeps(c: Config, s: State, now: u32, keys: seq<u32>, snap: map<u32, Info>, k: u32)
    requires forall j <- keys :: j in snap
    requires Distinct(keys) && k in keys
    requires snap[k].retryCount < c.maxRetries
    requires !Due(c, now, snap[k]) || History.Find(s.sent, Id, k).None?
    ensures var r := RetryLoop(c, s, now, keys, snap);
      (k in r.pending <==> k in s.pending) && (k in s.pending ==> r.pending[k] == s.pending[k])
    decreases |keys|
  {
    var r1 := RetryStep(c, s, now, keys[0], snap[keys[0]]);
    var r := RetryLoop(c, s, now, keys, snap);
    RetryStepEffect(c, s, now, keys[0], snap[keys[0]]);
    RetryLoopEffect(c, r1, now, keys[1..], snap);
    DistinctTail(keys);
    if keys[0] == k {
      assert r1 == s;
      MinusAgree(r.pending, r1.pending, Elements(keys[1..]), k);
    } else {
      MinusAgree(r1.pending, s.pending, {keys[0]}, k);
      RetryLoopKeeps(c, r1, now, keys[1..], snap, k);
    }
  }

  /** `retryMessages`: a pending entry under the limit whose stored message
      encodes and whose time is up is resent, refreshed by a reading taken
      after the sweep's own and with its count back at 0; an entry under
      the limit that is not due, or whose message has left the sent
      history, is left exactly as it was. */
  lemma {:induction false} RetryResends(c: Config, s: State, keys: seq<u32>, k: u32)
    requires Enumerates(keys, s.pending) && k in s.pending
    ensures var r := RetrySpec(c, s, keys); var now := Reading(c, s.ticks);
      var info := s.pending[k]; var m := History.Find(s.sent, Id, k);
      (m.Some? && PbEncode(c, m.value).Some? && Due(c, now, info) && info.retryCount < c.maxRetries ==>
        k in r.pending && r.pending[k].retryCount == 0 &&
        exists t :: s.ticks < t < r.ticks && r.pending[k].lastProcessedTimestamp == Reading(c, t)) &&
      (info.retryCount < c.maxRetries && (!Due(c, now, info) || m.None?) ==>
        k in r.pending && r.pending[k] == info)
  {
    var s1, now := s.(ticks := s.ticks + 1), Reading(c, s.ticks);
    var info, m := s.pending[k], History.Find(s.sent, Id, k);
    if m.Some? && PbEncode(c, m.value).Some? && Due(c, now, info) && info.retryCount < c.maxRetries {
      RetryLoopResends(c, s1, now, keys, s.pending, k);
    }
    if info.retryCount < c.maxRetries && (!Due(c, now, info) || m.None?) {
      RetryLoopKeeps(c, s1, now, keys, s.pending, k);
    }
  }

  /** `retryMessages` on a stream that accepts everything writes exactly
      the frames of the resent messages, in the order the table is
      visited, and keeps the sent history. */
  lemma {:induction false} RetryWrites(c: Config, s: State, keys: seq<u32>)
    requires Enumerates(keys, s.pending) && Accepting(s)
    ensures var r := RetrySpec(c, s, keys);
      r.out == s.out + ResentBytes(c, s.sent, Reading(c, s.ticks), keys, s.pending) && r.sent == s.sent
  {
    RetryLoopEffect(c, s.(ticks := s.ticks + 1), Reading(c, s.ticks), keys, s.pending);
  }

  // ---------------------------------------------------------------------
  // Receiving and dispatching

  /** What a send leaves alone. */
  predicate Keeps(s: State, r: State) {
    r.received == s.received && r.calls == s.calls && r.asm == s.asm && r.input == s.input
  }

  lemma SendKeeps(c: Config, s: State, m: Cmd)
    ensures Keeps(s, SendSpec(c, s, m).0)
  {
  }

  /** `processCallback` makes at most one callback: none for an ack or an
      untagged message, and the one it makes carries the member its tag
      names, under a callback that is set. */
  lemma {:induction false} ProcessCallbackDispatch(c: Config, s: State, m: Cmd)
    ensures var r := ProcessCallbackSpec(c, s, m);
      r.received == s.received && s.calls <= r.calls && |r.calls| <= |s.calls| + 1 &&
      (m.which in {NoData, AckTag} ==> r.calls == s.calls) &&
      (|r.calls| == |s.calls| + 1 ==>
        r.calls[|s.calls|] ==
          (if m.which == LedTag then LedCall(m.led)
           else if m.which == MoveTag then MoveCall(m.move) else SoundCall(m.sound)))
  {
    if m.which == AckTag && !m.ack.acknowledged {
      var f := History.Find(s.sent, Id, m.id);
      if f.Some? && m.id in s.pending {
        SendKeeps(c, Refresh(c, s, m.id), f.value);
      }
    }
  }

  /** A payload that does not decode is dropped without a reply (the
      Python engine NACKs it); a known id is acked again and dispatched no
      further; a new one is stored. */
  lemma {:induction false} ReceiveMessageOutcome(c: Config, s: State, raw: seq<byte>)
    ensures var d := c.decode(raw); var r := ReceiveMessageSpec(c, s, raw);
      (d.None? ==> r == s) &&
      (d.None? || History.Has(s.received, Id, d.value.id) ==> r.received == s.received && r.calls == s.calls) &&
      (d.Some? && !History.Has(s.received, Id, d.value.id) ==>
        r.received == History.Add(s.received, Id, d.value) && s.calls <= r.calls && |r.calls| <= |s.calls| + 1)
  {
    var d := c.decode(raw);
    if d.Some? {
      if History.Has(s.received, Id, d.value.id) {
        SendKeeps(c, s, AckMessage(d.value.id));
      } else {
        var s1 := s.(received := History.Add(s.received, Id, d.value));
        SendKeeps(c, s1, AckMessage(d.value.id));
        ProcessCallbackDispatch(c, SendAckSpec(c, s1, d.value.id), d.value);
      }
    }
  }

  /** The same payload received twice in a row is dispatched once. */
  lemma {:induction false} ReceiveTwiceDispatchesOnce(c: Config, s: State, raw: seq<byte>)
    ensures var r1 := ReceiveMessageSpec(c, s, raw); var r2 := ReceiveMessageSpec(c, r1, raw);
      r2.calls == r1.calls && r2.received == r1.received
  {
    var d := c.decode(raw);
    ReceiveMessageOutcome(c, s, raw);
    if d.Some? && !History.Has(s.received, Id, d.value.id) {
      History.AddHasNew(s.received, Id, d.value);
    }
    ReceiveMessageOutcome(c, ReceiveMessageSpec(c, s, raw), raw);
  }
}
