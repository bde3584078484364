/** What the Python decoder recovers from what the Python encoder writes:
    every varint, key, length-delimited value, payload and command comes back
    as it was sent, provided the integers are non-negative. */
module ProtoRoundTrip {
  import opened Common
  import opened ProtoEncode
  import opened ProtoDecode

  /** `buf` holds `s` at `pos`. */
  predicate At(buf: seq<u8>, pos: nat, s: seq<u8>) {
    pos + |s| <= |buf| && buf[pos..pos + |s|] == s
  }

  /** Splitting the rest of the input after `pos` into a leading part and
      what follows it. */
  lemma {:induction false} Peel(buf: seq<u8>, pos: nat, s: seq<u8>, rest: seq<u8>)
    requires pos <= |buf| && buf[pos..] == s + rest
    ensures At(buf, pos, s) && buf[pos + |s|..] == rest
  {
    assert buf[pos..pos + |s|] == buf[pos..][..|s|];
    assert buf[pos + |s|..] == buf[pos..][|s|..];
  }

  /** A varint of a non-negative value reads back as that value, and the
      position moves past exactly its bytes. */
  lemma {:induction false} VarintRoundTrip(buf: seq<u8>, pos: nat, v: int)
    requires v >= 0 && At(buf, pos, Varint(v))
    ensures VarintAt(buf, pos) == (v, pos + |Varint(v)|)
    decreases v
  {
    assert buf[pos] == buf[pos..pos + |Varint(v)|][0];
    if v > 0x7F {
      var first: seq<u8> := [v % 128 + 128];
      assert buf[pos + 1..pos + |Varint(v)|] == buf[pos..pos + |Varint(v)|][1..];
      VarintRoundTrip(buf, pos + 1, v / 128);
    }
  }

  /** A negative value is encoded as one byte, `v & 0x7F`, and reads back as
      that byte: its value is lost. */
  lemma {:induction false} NegativeVarint(v: int)
    requires v < 0
    ensures Varint(v) == [v % 128]
    ensures VarintAt(Varint(v), 0) == (v % 128, 1)
    ensures VarintAt(Varint(v), 0).0 != v
  {
  }

  /** A key reads back as its field number and wire type. */
  lemma {:induction false} KeyRoundTrip(buf: seq<u8>, pos: nat, field: nat, wire: nat)
    requires wire < 8 && At(buf, pos, Key(field, wire))
    ensures KeyAt(buf, pos) == (field, wire, pos + |Key(field, wire)|)
  {
    VarintRoundTrip(buf, pos, field * 8 + wire);
  }

  /** A length prefix and the bytes it counts read back as those bytes. */
  lemma {:induction false} LengthDelimitedRoundTrip(buf: seq<u8>, pos: nat, data: seq<u8>, rest: seq<u8>)
    requires pos <= |buf| && buf[pos..] == Varint(|data|) + data + rest
    ensures LengthDelimitedAt(buf, pos) == (data, pos + |Varint(|data|)| + |data|)
  {
    Peel(buf, pos, Varint(|data|), data + rest);
    VarintRoundTrip(buf, pos, |data|);
    Peel(buf, pos + |Varint(|data|)|, data, rest);
  }

  /** A varint field at `pos` reads back as its field number and value,
      and reading stops where `rest` begins. */
  lemma {:induction false} VarintFieldRoundTrip(buf: seq<u8>, pos: nat, field: nat, v: int, rest: seq<u8>)
    requires v >= 0
    requires pos <= |buf| && buf[pos..] == Key(field, VARINT) + Varint(v) + rest
    ensures pos < pos + |Key(field, VARINT)| < pos + |Key(field, VARINT)| + |Varint(v)| == |buf| - |rest|
    ensures buf[|buf| - |rest|..] == rest
    ensures KeyAt(buf, pos) == (field, VARINT, pos + |Key(field, VARINT)|)
    ensures VarintAt(buf, pos + |Key(field, VARINT)|) == (v, |buf| - |rest|)
  {
    var key := Key(field, VARINT);
    assert buf[pos..] == key + (Varint(v) + rest);
    Peel(buf, pos, key, Varint(v) + rest);
    KeyRoundTrip(buf, pos, field, VARINT);
    Peel(buf, pos + |key|, Varint(v), rest);
    VarintRoundTrip(buf, pos + |key|, v);
  }

  /** One led, move or sound field at `pos`: the loop continues after it
      with the field's value recorded. */
  lemma {:induction false} FieldsStep(buf: seq<u8>, pos: nat, field: nat, v: int, rest: seq<u8>, acc: seq<int>, acc': seq<int>)
    requires 1 <= field <= |acc| && v >= 0 && acc' == acc[field - 1 := v]
    requires pos <= |buf| && buf[pos..] == Key(field, VARINT) + Varint(v) + rest
    ensures pos < |buf| - |rest| && buf[|buf| - |rest|..] == rest
    ensures FieldsAt(buf, pos, acc) == FieldsAt(buf, |buf| - |rest|, acc')
  {
    VarintFieldRoundTrip(buf, pos, field, v, rest);
    FieldsAtVarint(buf, pos, field, pos + |Key(field, VARINT)|, v, |buf| - |rest|, acc, acc');
  }

  /** The field loop on a key of a known field at `pos`. */
  lemma {:induction false} FieldsAtVarint(buf: seq<u8>, pos: nat, field: nat, next: nat, v: int, after: nat, acc: seq<int>, acc': seq<int>)
    requires 1 <= field <= |acc| && pos < |buf| && KeyAt(buf, pos) == (field, VARINT, next)
    requires VarintAt(buf, next) == (v, after) && acc' == acc[field - 1 := v]
    ensures FieldsAt(buf, pos, acc) == FieldsAt(buf, after, acc')
  {
  }

  /** The values the loop has found once fields 1 to `i` are behind it:
      those fields' values, and 0 for the rest. */
  function Partial(vals: seq<int>, i: nat): (r: seq<int>)
    requires i <= |vals|
    ensures |r| == |vals|
  {
    vals[..i] + seq(|vals| - i, _ => 0)
  }

  lemma {:induction false} PartialStep(vals: seq<int>, i: nat)
    requires i < |vals|
    ensures Partial(vals, i)[i := vals[i]] == Partial(vals, i + 1)
    ensures vals[i] == 0 ==> Partial(vals, i) == Partial(vals, i + 1)
  {
    var a, b := Partial(vals, i), Partial(vals, i + 1);
    assert forall j :: 0 <= j < |vals| ==> a[i := vals[i]][j] == b[j];
    assert forall j :: 0 <= j < |vals| && vals[i] == 0 ==> a[j] == b[j];
  }

  /** All values are non-negative. */
  predicate NonNegatives(vals: seq<int>) {
    forall j :: 0 <= j < |vals| ==> vals[j] >= 0
  }

  /** The first field of `FieldsFrom(vals, i)` when it is written. */
  lemma {:induction false} FieldsFromStep(buf: seq<u8>, pos: nat, vals: seq<int>, i: nat, rest: seq<u8>)
    requires i < |vals| && vals[i] > 0 && rest == FieldsFrom(vals, i + 1)
    requires pos <= |buf| && buf[pos..] == FieldsFrom(vals, i)
    ensures pos < |buf| - |rest| && buf[|buf| - |rest|..] == rest
    ensures FieldsAt(buf, pos, Partial(vals, i)) == FieldsAt(buf, |buf| - |rest|, Partial(vals, i + 1))
  {
    assert buf[pos..] == Key(i + 1, VARINT) + Varint(vals[i]) + rest;
    PartialStep(vals, i);
    FieldsStep(buf, pos, i + 1, vals[i], rest, Partial(vals, i), Partial(vals, i + 1));
  }

  /** Where the fields after a written field `i + 1` start. */
  lemma {:induction false} FieldsFromPosition(buf: seq<u8>, pos: nat, vals: seq<int>, i: nat, rest: seq<u8>)
    requires i < |vals| && vals[i] > 0 && rest == FieldsFrom(vals, i + 1)
    requires pos <= |buf| && buf[pos..] == FieldsFrom(vals, i)
    ensures pos < |buf| - |rest| && buf[|buf| - |rest|..] == rest
  {
    FieldsFromStep(buf, pos, vals, i, rest);
  }

  /** Once the fields after field `i + 1` read back, so do those from it. */
  lemma {:induction false} FieldsFromThen(buf: seq<u8>, pos: nat, vals: seq<int>, i: nat, rest: seq<u8>)
    requires i < |vals| && vals[i] > 0 && rest == FieldsFrom(vals, i + 1)
    requires pos <= |buf| && buf[pos..] == FieldsFrom(vals, i)
    requires |rest| <= |buf| && FieldsAt(buf, |buf| - |rest|, Partial(vals, i + 1)) == vals
    ensures FieldsAt(buf, pos, Partial(vals, i)) == vals
  {
    FieldsFromStep(buf, pos, vals, i, rest);
  }

  /** A field whose value is 0 is not written, and the loop does not
      change its 0. */
  lemma {:induction false} FieldsFromZero(buf: seq<u8>, pos: nat, vals: seq<int>, i: nat)
    requires i < |vals| && vals[i] == 0
    requires pos <= |buf| && buf[pos..] == FieldsFrom(vals, i)
    ensures buf[pos..] == FieldsFrom(vals, i + 1)
    ensures Partial(vals, i) == Partial(vals, i + 1)
  {
    PartialStep(vals, i);
  }

  /** The field loop over an encoding of fields `i + 1`, ... finds all the
      values. */
  lemma {:induction false} FieldsRoundTripFrom(buf: seq<u8>, pos: nat, vals: seq<int>, i: nat)
    requires i <= |vals| && NonNegatives(vals)
    requires pos <= |buf| && buf[pos..] == FieldsFrom(vals, i)
    ensures FieldsAt(buf, pos, Partial(vals, i)) == vals
    decreases |vals| - i
  {
    if i == |vals| {
      assert pos == |buf|;
      assert Partial(vals, i) == vals;
    } else {
      var rest := FieldsFrom(vals, i + 1);
      var v := vals[i];
      assert v >= 0;
      if v != 0 {
        FieldsFromPosition(buf, pos, vals, i, rest);
        FieldsRoundTripFrom(buf, |buf| - |rest|, vals, i + 1);
        FieldsFromThen(buf, pos, vals, i, rest);
      } else {
        FieldsFromZero(buf, pos, vals, i);
        FieldsRoundTripFrom(buf, pos, vals, i + 1);
      }
    }
  }

  /** Field values written with zeros left out read back exactly. */
  lemma {:induction false} FieldsRoundTrip(vals: seq<int>)
    requires NonNegatives(vals)
    ensures FieldValues(Fields(vals), |vals|) == vals
  {
    assert Partial(vals, 0) == seq(|vals|, _ => 0);
    FieldsRoundTripFrom(Fields(vals), 0, vals, 0);
  }

  /** `parse_led(encode_led_command(...))` gives back the arguments. */
  lemma {:induction false} LedRoundTrip(a: LedArgs)
    requires a.start >= 0 && a.end >= 0 && a.duration >= 0
    ensures LedOf(EncodeLed(a)) == a
  {
    FieldsRoundTrip([a.start, a.end, a.duration]);
  }

  /** `parse_move(encode_movement_command(...))` gives back the arguments. */
  lemma {:induction false} MoveRoundTrip(a: MoveArgs)
    requires a.target >= 0 && a.x >= 0 && a.y >= 0 && a.z >= 0
    ensures MoveOf(EncodeMove(a)) == a
  {
    FieldsRoundTrip([a.target, a.x, a.y, a.z]);
  }

  /** `parse_sound(encode_sound_command(...))` gives back the arguments. */
  lemma {:induction false} SoundRoundTrip(a: SoundArgs)
    requires a.id >= 0
    ensures SoundOf(EncodeSound(a)) == a
  {
    FieldsRoundTrip([a.id, BoolValue(a.play), BoolValue(a.syncToLeds)]);
  }

  /** The ack dict the decoder makes of an ack: a reason that was left out
      (empty) comes back as `None`, any other as its UTF-8 bytes. */
  function AckDecoded(a: AckArgs): AckFields {
    AckFields(a.acknowledged, if a.reason == "" then None else Some(Utf8(a.reason)))
  }

  /** The reason field read back from the corrected ack encoder. */
  lemma {:induction false} AckReasonRoundTrip(buf: seq<u8>, pos: nat, reason: seq<u8>, acc: AckFields, acc': AckFields)
    requires acc' == acc.(reason := Some(reason))
    requires pos <= |buf| && buf[pos..] == LengthDelimited(2, reason)
    ensures AckAt(buf, pos, acc) == acc'
  {
    var key := Key(2, LENGTH_DELIMITED);
    Peel(buf, pos, key, Varint(|reason|) + reason);
    KeyRoundTrip(buf, pos, 2, LENGTH_DELIMITED);
    LengthDelimitedRoundTrip(buf, pos + |key|, reason, []);
  }

  /** The `acknowledged` field at the start of an ack. */
  lemma {:induction false} AckFlagStep(buf: seq<u8>, rest: seq<u8>, acc: AckFields, acc': AckFields)
    requires acc' == acc.(acknowledged := true)
    requires buf[0..] == Key(1, VARINT) + Varint(1) + rest
    ensures 0 < |buf| - |rest| && buf[|buf| - |rest|..] == rest
    ensures AckAt(buf, 0, acc) == AckAt(buf, |buf| - |rest|, acc')
  {
    VarintFieldRoundTrip(buf, 0, 1, 1, rest);
  }

  /** The reason part of an ack: absent when the reason is empty. */
  function ReasonPart(reason: string): seq<u8> {
    if reason != "" then LengthDelimited(2, Utf8(reason)) else []
  }

  /** What is left of an ack after the `acknowledged` field reads back as
      the reason. */
  lemma {:induction false} AckReasonPartRoundTrip(buf: seq<u8>, pos: nat, reason: string, acc: AckFields)
    requires acc.reason == None
    requires pos <= |buf| && buf[pos..] == ReasonPart(reason)
    ensures AckAt(buf, pos, acc) == acc.(reason := if reason == "" then None else Some(Utf8(reason)))
  {
    if reason != "" {
      AckReasonRoundTrip(buf, pos, Utf8(reason), acc, acc.(reason := Some(Utf8(reason))));
    } else {
      assert pos == |buf|;
    }
  }

  /** `parse_ack(encode_ack_command(...))` gives back the arguments, whatever
      characters the reason holds. */
  lemma {:induction false} AckRoundTrip(a: AckArgs)
    ensures AckOf(EncodeAck(a)) == AckDecoded(a)
  {
    var buf := EncodeAck(a);
    var tail := ReasonPart(a.reason);
    var init := AckFields(false, None);
    if a.acknowledged {
      var acc := init.(acknowledged := true);
      assert buf[0..] == Key(1, VARINT) + Varint(1) + tail;
      AckFlagStep(buf, tail, init, acc);
      AckReasonPartRoundTrip(buf, |buf| - |tail|, a.reason, acc);
    } else {
      assert buf[0..] == tail;
      AckReasonPartRoundTrip(buf, 0, a.reason, init);
    }
  }

  /** A non-ASCII reason defeats the ack encoder as written: "é" is one
      character but two UTF-8 bytes, so the prefix claims one byte, the
      reason comes back as the lone byte 0xC3 (not valid UTF-8, which
      `.decode()` rejects), and the byte 0xA9 is then read as a key. */
  lemma {:induction false} AckAsWrittenNonAscii()
    ensures EncodeAckAsWritten(AckArgs(false, "é")) == [0x12, 0x01, 0xC3, 0xA9]
    ensures AckOf(EncodeAckAsWritten(AckArgs(false, "é"))) == AckFields(false, Some([0xC3]))
    ensures AckOf(EncodeAckAsWritten(AckArgs(false, "é"))) != AckDecoded(AckArgs(false, "é"))
  {
    var buf: seq<u8> := [0x12, 0x01, 0xC3, 0xA9];
    assert Utf8("é") == [0xC3, 0xA9];
    assert EncodeAckAsWritten(AckArgs(false, "é")) == buf;
    assert KeyAt(buf, 0) == (2, 2, 1);
    assert VarintAt(buf, 1) == (1, 2);
    assert buf[2..3] == [0xC3];
    assert LengthDelimitedAt(buf, 1) == ([0xC3], 3);
    assert VarintAt(buf, 3) == (0x29, 4);
    assert KeyAt(buf, 3) == (5, 1, 4);
  }

  /** The decoded dict of a command the encoder accepted: the id it chose,
      source and target, and the first payload present in the order ack,
      led, move, sound; no error message. */
  function Expected(m: Command, id: int): Decoded {
    Decoded(
      id, m.source, m.target,
      if m.ack.Some? then Some(AckDecoded(m.ack.value)) else None,
      if m.ack.None? then m.led else None,
      if m.ack.None? && m.led.None? then m.move else None,
      if m.ack.None? && m.led.None? && m.move.None? then m.sound else None,
      None)
  }

  /** The integers in a command are non-negative: the domain on which the
      encoding is faithful. */
  predicate NonNegative(m: Command) {
    m.source >= 0 && m.target >= 0 && (m.id.Some? ==> m.id.value >= 0) &&
    (m.led.Some? ==> m.led.value.start >= 0 && m.led.value.end >= 0 && m.led.value.duration >= 0) &&
    (m.move.Some? ==> m.move.value.target >= 0 && m.move.value.x >= 0 && m.move.value.y >= 0 && m.move.value.z >= 0) &&
    (m.sound.Some? ==> m.sound.value.id >= 0)
  }

  /** Setting one of the varint fields of the decoded dict. */
  function SetVarint(d: Decoded, field: nat, v: int): Decoded {
    if field == FIELD_ID then d.(id := v)
    else if field == FIELD_SOURCE then d.(source := v)
    else if field == FIELD_TARGET then d.(target := v)
    else d
  }

  /** The decoder's loop on an id, source or target key at `pos`. */
  lemma {:induction false} CommandAtVarint(buf: seq<u8>, pos: nat, field: nat, next: nat, v: int, after: nat, acc: Decoded)
    requires 1 <= field <= 3 && pos < |buf| && KeyAt(buf, pos) == (field, VARINT, next)
    requires VarintAt(buf, next) == (v, after)
    ensures CommandAt(buf, pos, acc) == CommandAt(buf, after, SetVarint(acc, field, v))
  {
  }

  /** One id, source or target field at `pos`: once the loop reads `r`
      from what follows, it reads `r` from the field on. */
  lemma {:induction false} CommandVarintStep(buf: seq<u8>, pos: nat, field: nat, v: int, rest: seq<u8>, next: nat, acc: Decoded, acc': Decoded, r: Decoded)
    requires 1 <= field <= 3 && v >= 0 && acc' == SetVarint(acc, field, v)
    requires pos <= |buf| && buf[pos..] == Key(field, VARINT) + Varint(v) + rest
    requires next == |buf| - |rest| && CommandAt(buf, next, acc') == r
    ensures CommandAt(buf, pos, acc) == r
  {
    VarintFieldRoundTrip(buf, pos, field, v, rest);
    CommandAtVarint(buf, pos, field, pos + |Key(field, VARINT)|, v, next, acc);
  }

  /** A source or target field, left out when 0. */
  lemma {:induction false} CommandOptionalStep(buf: seq<u8>, pos: nat, field: nat, v: int, rest: seq<u8>, next: nat, acc: Decoded, acc': Decoded, r: Decoded)
    requires 2 <= field <= 3 && v >= 0 && acc' == SetVarint(acc, field, v)
    requires field == FIELD_SOURCE ==> acc.source == 0
    requires field == FIELD_TARGET ==> acc.target == 0
    requires pos <= |buf| && buf[pos..] == VarintField(field, v) + rest
    requires next == |buf| - |rest| && CommandAt(buf, next, acc') == r
    ensures CommandAt(buf, pos, acc) == r
  {
    if v != 0 {
      CommandVarintStep(buf, pos, field, v, rest, next, acc, acc', r);
    } else {
      assert acc' == acc;
      assert pos == next;
    }
  }

  /** The decoded dict once the payload sub-message `payload` of field
      `field` is parsed into it. */
  function PayloadDecoded(acc: Decoded, field: nat, payload: seq<u8>): Decoded {
    if field == FIELD_ACK then acc.(ack := Some(AckOf(payload)))
    else if field == FIELD_LED then acc.(led := Some(LedOf(payload)))
    else if field == FIELD_MOVE then acc.(move := Some(MoveOf(payload)))
    else acc.(sound := Some(SoundOf(payload)))
  }

  /** The payload field that ends the encoding. */
  lemma {:induction false} CommandPayloadStep(buf: seq<u8>, pos: nat, field: nat, payload: seq<u8>, acc: Decoded)
    requires FIELD_ACK <= field <= FIELD_SOUND
    requires pos <= |buf| && buf[pos..] == LengthDelimited(field, payload)
    ensures CommandAt(buf, pos, acc) == PayloadDecoded(acc, field, payload)
  {
    var key := Key(field, LENGTH_DELIMITED);
    Peel(buf, pos, key, Varint(|payload|) + payload);
    KeyRoundTrip(buf, pos, field, LENGTH_DELIMITED);
    LengthDelimitedRoundTrip(buf, pos + |key|, payload, []);
  }

  /** The field number of the payload `encode_command` writes. */
  function PayloadField(m: Command): nat {
    if m.ack.Some? then FIELD_ACK
    else if m.led.Some? then FIELD_LED
    else if m.move.Some? then FIELD_MOVE
    else FIELD_SOUND
  }

  /** The payload bytes `encode_command` writes. */
  function PayloadBytes(m: Command): seq<u8>
    requires HasPayload(m)
  {
    if m.ack.Some? then EncodeAck(m.ack.value)
    else if m.led.Some? then EncodeLed(m.led.value)
    else if m.move.Some? then EncodeMove(m.move.value)
    else EncodeSound(m.sound.value)
  }

  /** Where the fields of an encoded command start. */
  lemma {:induction false} CommandLayout(buf: seq<u8>, id: int, source: seq<u8>, target: seq<u8>, ld: seq<u8>)
    requires buf == Key(FIELD_ID, VARINT) + Varint(id) + source + target + ld
    ensures buf[0..] == Key(FIELD_ID, VARINT) + Varint(id) + (source + (target + ld))
    ensures |source + (target + ld)| <= |buf| && buf[|buf| - |source + (target + ld)|..] == source + (target + ld)
    ensures |target + ld| <= |buf| && buf[|buf| - |target + ld|..] == target + ld
    ensures |ld| <= |buf| && buf[|buf| - |ld|..] == ld
  {
    var a := Key(FIELD_ID, VARINT) + Varint(id);
    assert buf == a + (source + (target + ld));
    assert buf[|buf| - |source + (target + ld)|..] == source + (target + ld);
    assert buf == (a + source) + (target + ld);
    assert buf == (a + source + target) + ld;
  }

  /** The id, source and target fields: once the loop reads `r` from the
      payload on, with those three values recorded, it reads `r` from the
      start. */
  lemma {:induction false} HeaderChain(buf: seq<u8>, id: int, source: int, target: int, ld: seq<u8>,
                                       p1: nat, p2: nat, p3: nat, d: Decoded, r: Decoded)
    requires id >= 0 && source >= 0 && target >= 0 && d == INITIAL.(id := id, source := source, target := target)
    requires var src, tgt := VarintField(FIELD_SOURCE, source), VarintField(FIELD_TARGET, target);
      && buf[0..] == Key(FIELD_ID, VARINT) + Varint(id) + (src + (tgt + ld))
      && p1 == |buf| - |src + (tgt + ld)| && buf[p1..] == src + (tgt + ld)
      && p2 == |buf| - |tgt + ld| && buf[p2..] == tgt + ld
    requires p3 == |buf| - |ld| && CommandAt(buf, p3, d) == r
    ensures CommandAt(buf, 0, INITIAL) == r
  {
    var src, tgt := VarintField(FIELD_SOURCE, source), VarintField(FIELD_TARGET, target);
    var d1, d2 := INITIAL.(id := id), INITIAL.(id := id, source := source);
    CommandOptionalStep(buf, p2, FIELD_TARGET, target, ld, p3, d2, d, r);
    CommandOptionalStep(buf, p1, FIELD_SOURCE, source, tgt + ld, p2, d1, d2, r);
    CommandVarintStep(buf, 0, FIELD_ID, id, src + (tgt + ld), p1, INITIAL, d1, r);
  }

  /** The header fields of an encoded command, followed by `ld`. */
  function HeaderThen(id: int, source: int, target: int, ld: seq<u8>): seq<u8> {
    Key(FIELD_ID, VARINT) + Varint(id) + VarintField(FIELD_SOURCE, source) + VarintField(FIELD_TARGET, target) + ld
  }

  /** The payload field `ld`, at `pos`, at the end of an encoded command. */
  lemma {:induction false} PayloadAtEnd(buf: seq<u8>, id: int, source: int, target: int, field: nat, payload: seq<u8>,
                                        ld: seq<u8>, pos: nat, d: Decoded)
    requires FIELD_ACK <= field <= FIELD_SOUND && ld == LengthDelimited(field, payload)
    requires buf == HeaderThen(id, source, target, ld) && pos == |buf| - |ld|
    ensures CommandAt(buf, pos, d) == PayloadDecoded(d, field, payload)
  {
    CommandLayout(buf, id, VarintField(FIELD_SOURCE, source), VarintField(FIELD_TARGET, target), ld);
    CommandPayloadStep(buf, pos, field, payload, d);
  }

  /** The header fields of an encoded command, whatever follows them from
      `pos` on. */
  lemma {:induction false} HeaderThenRoundTrip(buf: seq<u8>, id: int, source: int, target: int, ld: seq<u8>, pos: nat, d: Decoded, r: Decoded)
    requires id >= 0 && source >= 0 && target >= 0 && d == INITIAL.(id := id, source := source, target := target)
    requires buf == HeaderThen(id, source, target, ld) && pos == |buf| - |ld|
    requires CommandAt(buf, pos, d) == r
    ensures CommandAt(buf, 0, INITIAL) == r
  {
    var src, tgt := VarintField(FIELD_SOURCE, source), VarintField(FIELD_TARGET, target);
    CommandLayout(buf, id, src, tgt, ld);
    HeaderChain(buf, id, source, target, ld, |buf| - |src + (tgt + ld)|, |buf| - |tgt + ld|, pos, d, r);
  }

  /** A header and one payload field decode to the header's values and
      the parsed payload, with no error. */
  lemma {:induction false} FrameRoundTrip(buf: seq<u8>, id: int, source: int, target: int, field: nat, payload: seq<u8>)
    requires id >= 0 && source >= 0 && target >= 0 && FIELD_ACK <= field <= FIELD_SOUND
    requires buf == HeaderThen(id, source, target, LengthDelimited(field, payload))
    ensures Decode(buf) == (false, PayloadDecoded(INITIAL.(id := id, source := source, target := target), field, payload))
  {
    var d := INITIAL.(id := id, source := source, target := target);
    var r := PayloadDecoded(d, field, payload);
    var ld := LengthDelimited(field, payload);
    var pos := |buf| - |ld|;
    PayloadAtEnd(buf, id, source, target, field, payload, ld, pos, d);
    HeaderThenRoundTrip(buf, id, source, target, ld, pos, d, r);
  }

  /** The payload reads back as the encoder's arguments. */
  lemma {:induction false} PayloadRoundTrip(m: Command, id: int)
    requires HasPayload(m) && NonNegative(m)
    ensures PayloadDecoded(INITIAL.(id := id, source := m.source, target := m.target), PayloadField(m), PayloadBytes(m)) ==
      Expected(m, id)
  {
    if m.ack.Some? {
      AckRoundTrip(m.ack.value);
    } else if m.led.Some? {
      LedRoundTrip(m.led.value);
    } else if m.move.Some? {
      MoveRoundTrip(m.move.value);
    } else {
      SoundRoundTrip(m.sound.value);
    }
  }

  /** The bytes of an encoded command with a payload, field by field. */
  function CommandBytes(m: Command, id: int): seq<u8>
    requires HasPayload(m)
  {
    HeaderThen(id, m.source, m.target, LengthDelimited(PayloadField(m), PayloadBytes(m)))
  }

  lemma {:induction false} EncodedLayout(m: Command, now: nat)
    requires HasPayload(m)
    ensures EncodeCommand(m, now).bytes == CommandBytes(m, ChosenId(m, now))
  {
  }

  /** The decoder reads those bytes back as the command. */
  lemma {:induction false} DecodeCommandBytes(m: Command, id: int)
    requires HasPayload(m) && NonNegative(m) && id >= 0
    ensures Decode(CommandBytes(m, id)) == (false, Expected(m, id))
  {
    FrameRoundTrip(CommandBytes(m, id), id, m.source, m.target, PayloadField(m), PayloadBytes(m));
    PayloadRoundTrip(m, id);
  }

  /** `decode_command(encode_command(msg))`: for a command with a payload and
      non-negative integers, the decoder reports no error and returns the id
      the encoder chose, the source, the target and the first payload. */
  lemma {:induction false} CommandRoundTrip(m: Command, now: nat)
    requires HasPayload(m) && NonNegative(m)
    ensures var e := EncodeCommand(m, now);
      Decode(e.bytes) == (false, Expected(m, e.msg.id.value))
  {
    EncodedLayout(m, now);
    DecodeCommandBytes(m, ChosenId(m, now));
  }

  /** A command without a payload is refused by the encoder, and the bytes
      it returns are its error text. */
  lemma {:induction false} CommandWithoutPayload(m: Command, now: nat)
    requires !HasPayload(m)
    ensures EncodeCommand(m, now).isError
    ensures EncodeCommand(m, now).bytes == Utf8("Unknown cmd_type: " + Join(m.otherKeys, ", "))
  {
  }

  /** Input with no payload field is an error, whatever else it holds. */
  lemma {:induction false} DecodeErrorIffNoPayload(buf: seq<u8>)
    ensures Decode(buf).0 <==> !HasPayloadKey(CommandAt(buf, 0, INITIAL))
    ensures Decode(buf).0 <==> Decode(buf).1.errorMessage == Some(MISSING_ONEOF)
  {
  }
}
