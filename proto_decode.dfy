/** The Python decoder of commands. A `BytesIO` stream over the input is a
    byte sequence and a read position; each reading operation is a method
    that returns the new position, proved equal to a function of the
    sequence and the old position. */
module ProtoDecode {
  import opened Common
  import opened ProtoEncode

  /** The ack dict `parse_ack` builds. The reason is kept as the bytes read;
      their `.decode()` into a string is not modelled. */
  datatype AckFields = AckFields(acknowledged: bool, reason: Option<seq<u8>>)

  /** The dict `decode_command` builds: `id`, `source` and `target` default
      to 0; each payload key is present when its field occurred; the
      `error_message` key is present only on error. */
  datatype Decoded = Decoded(
    id: int, source: int, target: int,
    ack: Option<AckFields>, led: Option<LedArgs>, move: Option<MoveArgs>, sound: Option<SoundArgs>,
    errorMessage: Option<string>)

  const MISSING_ONEOF: string := "Missing oneof field: ack, led, sound, move"

  /** The varint at `pos` and the position after it. At the end of the
      input the varint stops, keeping what was read so far. Each byte adds
      its low seven bits at the next seven-bit position. */
  function VarintAt(buf: seq<u8>, pos: nat): (r: (int, nat))
    requires pos <= |buf|
    ensures pos <= r.1 <= |buf|
    ensures pos < |buf| ==> pos < r.1
    ensures r.0 >= 0
    decreases |buf| - pos
  {
    if pos == |buf| then (0, pos)
    else if buf[pos] < 0x80 then (buf[pos], pos + 1)
    else
      var rest := VarintAt(buf, pos + 1);
      (buf[pos] - 0x80 + 0x80 * rest.0, rest.1)
  }

  /** `parse_varint`. `weight` is `1 << shift`: the bit groups of different
      bytes do not overlap, so `result |= group << shift` adds
      `group * weight`. */
  method ParseVarint(buf: seq<u8>, pos: nat) returns (value: int, next: nat)
    requires pos <= |buf|
    ensures (value, next) == VarintAt(buf, pos)
  {
    value := 0;
    var weight := 1;
    next := pos;
    while next < |buf|
      invariant pos <= next <= |buf|
      invariant weight >= 1
      invariant value + weight * VarintAt(buf, next).0 == VarintAt(buf, pos).0
      invariant VarintAt(buf, next).1 == VarintAt(buf, pos).1
      decreases |buf| - next
    {
      var b := buf[next];
      ghost var here, rest := VarintAt(buf, next), VarintAt(buf, next + 1);
      var group := b % 128;
      next := next + 1;
      if b < 0x80 {
        assert group == here.0;
        value := value + group * weight;
        return;
      }
      assert here.0 == group + 128 * rest.0 && here.1 == rest.1;
      WeightStep(weight, group, rest.0);
      value := value + group * weight;
      weight := weight * 128;
    }
  }

  lemma WeightStep(w: int, group: int, rest: int)
    ensures w * (group + 128 * rest) == group * w + (w * 128) * rest
  {
  }

  /** The key at `pos` split into field number and wire type. */
  function KeyAt(buf: seq<u8>, pos: nat): (r: (nat, nat, nat))
    requires pos <= |buf|
    ensures pos <= r.2 <= |buf|
    ensures pos < |buf| ==> pos < r.2
  {
    var (k, next) := VarintAt(buf, pos);
    (k / 8, k % 8, next)
  }

  /** `read_key`. */
  method ReadKey(buf: seq<u8>, pos: nat) returns (field: nat, wire: nat, next: nat)
    requires pos <= |buf|
    ensures (field, wire, next) == KeyAt(buf, pos)
  {
    var key;
    key, next := ParseVarint(buf, pos);
    field, wire := key / 8, key % 8;
  }

  /** The length-delimited value at `pos`: a varint length, then that many
      bytes, or as many as remain. */
  function LengthDelimitedAt(buf: seq<u8>, pos: nat): (r: (seq<u8>, nat))
    requires pos <= |buf|
    ensures pos <= r.1 <= |buf|
    ensures pos < |buf| ==> pos < r.1
  {
    var (len, start) := VarintAt(buf, pos);
    var end := if start + len <= |buf| then start + len else |buf|;
    (buf[start..end], end)
  }

  /** `read_length_delimited`. */
  method ReadLengthDelimited(buf: seq<u8>, pos: nat) returns (data: seq<u8>, next: nat)
    requires pos <= |buf|
    ensures (data, next) == LengthDelimitedAt(buf, pos)
  {
    var len, start := ParseVarint(buf, pos);
    next := if start + len <= |buf| then start + len else |buf|;
    data := buf[start..next];
  }

  /** The loop of `parse_led`, `parse_move` and `parse_sound` from `pos`,
      with `acc[i]` the current value of field `i + 1`: a known field takes
      the varint after its key; for an unknown field only the key is read. */
  function FieldsAt(buf: seq<u8>, pos: nat, acc: seq<int>): (r: seq<int>)
    requires pos <= |buf|
    ensures |r| == |acc|
    decreases |buf| - pos
  {
    if pos == |buf| then acc
    else
      var (field, _, next) := KeyAt(buf, pos);
      if 1 <= field <= |acc| then
        var (v, after) := VarintAt(buf, next);
        FieldsAt(buf, after, acc[field - 1 := v])
      else FieldsAt(buf, next, acc)
  }

  /** The field values the loop finds in `data`, all starting at 0. */
  function FieldValues(data: seq<u8>, n: nat): (r: seq<int>)
    ensures |r| == n
  {
    FieldsAt(data, 0, seq(n, _ => 0))
  }

  /** The `while s.tell() < len(data)` loop shared by the three parsers. */
  method ParseFields(data: seq<u8>, n: nat) returns (vals: seq<int>)
    ensures vals == FieldValues(data, n)
  {
    vals := seq(n, _ => 0);
    var pos := 0;
    while pos < |data|
      invariant pos <= |data| && |vals| == n
      invariant FieldsAt(data, pos, vals) == FieldValues(data, n)
      decreases |data| - pos
    {
      var field, wire, next := ReadKey(data, pos);
      if 1 <= field <= n {
        var v, after := ParseVarint(data, next);
        vals := vals[field - 1 := v];
        pos := after;
      } else {
        pos := next;
      }
    }
  }

  function LedOf(data: seq<u8>): LedArgs {
    var r := FieldValues(data, 3);
    LedArgs(r[0], r[1], r[2])
  }

  function MoveOf(data: seq<u8>): MoveArgs {
    var r := FieldValues(data, 4);
    MoveArgs(r[0], r[1], r[2], r[3])
  }

  function SoundOf(data: seq<u8>): SoundArgs {
    var r := FieldValues(data, 3);
    SoundArgs(r[0], r[1] != 0, r[2] != 0)
  }

  /** `parse_led`. */
  method ParseLed(data: seq<u8>) returns (led: LedArgs)
    ensures led == LedOf(data)
  {
    var r := ParseFields(data, 3);
    led := LedArgs(r[0], r[1], r[2]);
  }

  /** `parse_move`. */
  method ParseMove(data: seq<u8>) returns (move: MoveArgs)
    ensures move == MoveOf(data)
  {
    var r := ParseFields(data, 4);
    move := MoveArgs(r[0], r[1], r[2], r[3]);
  }

  /** `parse_sound`: `play` and `syncToLeds` are the truth of their varints. */
  method ParseSound(data: seq<u8>) returns (sound: SoundArgs)
    ensures sound == SoundOf(data)
  {
    var r := ParseFields(data, 3);
    sound := SoundArgs(r[0], r[1] != 0, r[2] != 0);
  }

  /** The loop of `parse_ack` from `pos`: field 1 is a varint whose truth is
      `acknowledged`, field 2 a length-delimited reason; for any other field
      only the key is read. */
  function AckAt(buf: seq<u8>, pos: nat, acc: AckFields): AckFields
    requires pos <= |buf|
    decreases |buf| - pos
  {
    if pos == |buf| then acc
    else
      var (field, _, next) := KeyAt(buf, pos);
      if field == 1 then
        var (v, after) := VarintAt(buf, next);
        AckAt(buf, after, acc.(acknowledged := v != 0))
      else if field == 2 then
        var (reason, after) := LengthDelimitedAt(buf, next);
        AckAt(buf, after, acc.(reason := Some(reason)))
      else AckAt(buf, next, acc)
  }

  function AckOf(data: seq<u8>): AckFields {
    AckAt(data, 0, AckFields(false, None))
  }

  /** `parse_ack`. */
  method ParseAck(data: seq<u8>) returns (ack: AckFields)
    ensures ack == AckOf(data)
  {
    ack := AckFields(false, None);
    var pos := 0;
    while pos < |data|
      invariant pos <= |data|
      invariant AckAt(data, pos, ack) == AckOf(data)
      decreases |data| - pos
    {
      var field, wire, next := ReadKey(data, pos);
      if field == 1 {
        var v, after := ParseVarint(data, next);
        ack := ack.(acknowledged := v != 0);
        pos := after;
      } else if field == 2 {
        var reason, after := ReadLengthDelimited(data, next);
        ack := ack.(reason := Some(reason));
        pos := after;
      } else {
        pos := next;
      }
    }
  }

  function HasPayloadKey(d: Decoded): bool {
    d.ack.Some? || d.led.Some? || d.move.Some? || d.sound.Some?
  }

  /** The loop of `decode_command` from `pos`: fields 1 to 3 are varints,
      fields 4 to 7 length-delimited payloads parsed by their own loops; an
      unknown field is skipped as a length-delimited value when its wire
      type is 2 and as a varint otherwise. */
  function CommandAt(buf: seq<u8>, pos: nat, acc: Decoded): (r: Decoded)
    requires pos <= |buf|
    ensures r.errorMessage == acc.errorMessage
    ensures HasPayloadKey(acc) ==> HasPayloadKey(r)
    decreases |buf| - pos
  {
    if pos == |buf| then acc
    else
      var (field, wire, next) := KeyAt(buf, pos);
      if field == FIELD_ID || field == FIELD_SOURCE || field == FIELD_TARGET then
        var (v, after) := VarintAt(buf, next);
        var acc' :=
          if field == FIELD_ID then acc.(id := v)
          else if field == FIELD_SOURCE then acc.(source := v)
          else acc.(target := v);
        CommandAt(buf, after, acc')
      else if FIELD_ACK <= field <= FIELD_SOUND || wire == LENGTH_DELIMITED then
        var (data, after) := LengthDelimitedAt(buf, next);
        var acc' :=
          if field == FIELD_ACK then acc.(ack := Some(AckOf(data)))
          else if field == FIELD_LED then acc.(led := Some(LedOf(data)))
          else if field == FIELD_MOVE then acc.(move := Some(MoveOf(data)))
          else if field == FIELD_SOUND then acc.(sound := Some(SoundOf(data)))
          else acc;
        CommandAt(buf, after, acc')
      else
        var (_, after) := VarintAt(buf, next);
        CommandAt(buf, after, acc)
  }

  const INITIAL: Decoded := Decoded(0, 0, 0, None, None, None, None, None)

  /** `decode_command`: the loop over the whole input, then an error when no
      payload key was found. */
  function Decode(buf: seq<u8>): (bool, Decoded) {
    var r := CommandAt(buf, 0, INITIAL);
    if HasPayloadKey(r) then (false, r) else (true, r.(errorMessage := Some(MISSING_ONEOF)))
  }

  /** `decode_command`. */
  method DecodeCommand(buf: seq<u8>) returns (isError: bool, result: Decoded)
    ensures (isError, result) == Decode(buf)
  {
    result := INITIAL;
    var pos := 0;
    while pos < |buf|
      invariant pos <= |buf|
      invariant CommandAt(buf, pos, result) == CommandAt(buf, 0, INITIAL)
      decreases |buf| - pos
    {
      var field, wire, next := ReadKey(buf, pos);
      if field == FIELD_ID {
        var v, after := ParseVarint(buf, next);
        result, pos := result.(id := v), after;
      } else if field == FIELD_SOURCE {
        var v, after := ParseVarint(buf, next);
        result, pos := result.(source := v), after;
      } else if field == FIELD_TARGET {
        var v, after := ParseVarint(buf, next);
        result, pos := result.(target := v), after;
      } else if field == FIELD_ACK {
        var data, after := ReadLengthDelimited(buf, next);
        var ack := ParseAck(data);
        result, pos := result.(ack := Some(ack)), after;
      } else if field == FIELD_LED {
        var data, after := ReadLengthDelimited(buf, next);
        var led := ParseLed(data);
        result, pos := result.(led := Some(led)), after;
      } else if field == FIELD_MOVE {
        var data, after := ReadLengthDelimited(buf, next);
        var move := ParseMove(data);
        result, pos := result.(move := Some(move)), after;
      } else if field == FIELD_SOUND {
        var data, after := ReadLengthDelimited(buf, next);
        var sound := ParseSound(data);
        result, pos := result.(sound := Some(sound)), after;
      } else if wire == LENGTH_DELIMITED {
        var _, after := ReadLengthDelimited(buf, next);
        pos := after;
      } else {
        var _, after := ParseVarint(buf, next);
        pos := after;
      }
    }
    isError := !HasPayloadKey(result);
    if isError {
      result := result.(errorMessage := Some(MISSING_ONEOF));
    }
  }
}
