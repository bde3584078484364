/** The Python encoder of commands: a command is a dict with an `id`, an
    optional `source` and `target`, and one payload dict under `ack`, `led`,
    `move` or `sound`; it becomes tag/value pairs in the protobuf wire
    format (base-128 varints, length-delimited sub-messages). */
module ProtoEncode {
  import opened Common

  /** Wire types. */
  const VARINT: nat := 0
  const LENGTH_DELIMITED: nat := 2

  /** Top-level field numbers. */
  const FIELD_ID: nat := 1
  const FIELD_SOURCE: nat := 2
  const FIELD_TARGET: nat := 3
  const FIELD_ACK: nat := 4
  const FIELD_LED: nat := 5
  const FIELD_MOVE: nat := 6
  const FIELD_SOUND: nat := 7

  /** The keyword arguments of the payload encoders. A reason that is
      `None` and one that is empty are both falsy, and are both `""` here. */
  datatype AckArgs = AckArgs(acknowledged: bool, reason: string)
  datatype LedArgs = LedArgs(start: int, end: int, duration: int)
  datatype MoveArgs = MoveArgs(target: int, x: int, y: int, z: int)
  datatype SoundArgs = SoundArgs(id: int, play: bool, syncToLeds: bool)

  /** A command dict. `id` is `None` when the key is absent; an absent or
      `None` source or target is 0 (all three are falsy). `otherKeys` are the
      keys besides `id`, `source`, `target` and the four payload keys, in
      insertion order. */
  datatype Command = Command(
    id: Option<int>, source: int, target: int,
    ack: Option<AckArgs>, led: Option<LedArgs>, move: Option<MoveArgs>, sound: Option<SoundArgs>,
    otherKeys: seq<string>)

  /** What `encode_command` returns, plus the dict as it leaves the call:
      the encoder writes the `id` it chose back into the dict. */
  datatype Encoded = Encoded(isError: bool, bytes: seq<u8>, msg: Command)

  /** The varint encoding of `v`: seven bits per byte, least significant
      group first, the high bit set on every byte but the last. A negative
      `v` is never greater than 0x7F, so it gives the single byte `v & 0x7F`. */
  function Varint(v: int): (r: seq<u8>)
    decreases v
  {
    if v > 0x7F then [v % 128 + 128] + Varint(v / 128) else [v % 128]
  }

  /** `encode_varint`. */
  method EncodeVarint(v: int) returns (out: seq<u8>)
    ensures out == Varint(v)
  {
    out := [];
    var value := v;
    while value > 0x7F
      invariant out + Varint(value) == Varint(v)
      decreases value
    {
      out := out + [value % 128 + 128];
      value := value / 128;
    }
    out := out + [value % 128];
  }

  /** `encode_key`: the varint of `field << 3 | wire`. */
  function Key(field: nat, wire: nat): (r: seq<u8>)
    requires wire < 8
    ensures |r| >= 1
    ensures field < 16 ==> r == [field * 8 + wire]
  {
    Varint(field * 8 + wire)
  }

  /** `encode_length_delimited`. */
  function LengthDelimited(field: nat, payload: seq<u8>): (r: seq<u8>)
    ensures |r| >= |payload| + 2 && r[|r| - |payload|..] == payload
    ensures field < 16 && |payload| < 128 ==> r == [field * 8 + LENGTH_DELIMITED, |payload|] + payload
  {
    Key(field, LENGTH_DELIMITED) + Varint(|payload|) + payload
  }

  /** One varint field, left out when its value is 0. */
  function VarintField(field: nat, v: int): seq<u8> {
    if v != 0 then Key(field, VARINT) + Varint(v) else []
  }

  /** Fields `i + 1`, ..., `|vals|` holding `vals[i..]`, each left out when
      0: the shape of the led, move and sound encoders. */
  function FieldsFrom(vals: seq<int>, i: nat): (r: seq<u8>)
    requires i <= |vals|
    ensures r == [] <==> forall j :: i <= j < |vals| ==> vals[j] == 0
    decreases |vals| - i
  {
    if i == |vals| then [] else VarintField(i + 1, vals[i]) + FieldsFrom(vals, i + 1)
  }

  function Fields(vals: seq<int>): (r: seq<u8>)
    ensures r == [] <==> forall j :: 0 <= j < |vals| ==> vals[j] == 0
    ensures |vals| > 0 && vals[0] != 0 ==> r[0] == 0x08
  {
    FieldsFrom(vals, 0)
  }

  function BoolValue(b: bool): int {
    if b then 1 else 0
  }

  /** The UTF-8 encoding of one character (a Unicode scalar value). */
  function Utf8Char(c: char): (r: seq<u8>)
    ensures 1 <= |r| <= 4
    ensures |r| == 1 <==> c as int < 0x80
  {
    var n := c as int;
    if n < 0x80 then [n]
    else if n < 0x800 then [0xC0 + n / 64, 0x80 + n % 64]
    else if n < 0x1_0000 then [0xE0 + n / 4096, 0x80 + n / 64 % 64, 0x80 + n % 64]
    else [0xF0 + n / 0x4_0000, 0x80 + n / 4096 % 64, 0x80 + n / 64 % 64, 0x80 + n % 64]
  }

  /** `s.encode('utf-8')`. */
  function Utf8(s: string): seq<u8>
    decreases |s|
  {
    if s == [] then [] else Utf8Char(s[0]) + Utf8(s[1..])
  }

  predicate Ascii(s: string) {
    forall i :: 0 <= i < |s| ==> s[i] as int < 0x80
  }

  /** An ASCII string encodes to its own code points, one byte each. */
  lemma {:induction false} Utf8Ascii(s: string)
    requires Ascii(s)
    ensures |Utf8(s)| == |s|
    ensures forall i :: 0 <= i < |s| ==> Utf8(s)[i] == s[i] as int
    decreases |s|
  {
    if s != [] {
      assert Ascii(s[1..]) by {
        forall i | 0 <= i < |s[1..]| ensures s[1..][i] as int < 0x80 {
          assert s[1..][i] == s[i + 1];
        }
      }
      Utf8Ascii(s[1..]);
    }
  }

  /** `encode_ack_command` as written: the reason is preceded by
      `len(reason)`, its number of characters, although the bytes that
      follow are its UTF-8 encoding. */
  function EncodeAckAsWritten(a: AckArgs): (r: seq<u8>)
    ensures |r| >= (if a.acknowledged then 2 else 0) + (if a.reason != "" then |Utf8(a.reason)| + 2 else 0)
    ensures r == [] <==> !a.acknowledged && a.reason == ""
    ensures a.acknowledged ==> r[..2] == [0x08, 0x01]
    ensures a.reason != "" ==> r[|r| - |Utf8(a.reason)|..] == Utf8(a.reason)
    ensures a.reason != "" && |a.reason| < 128 ==> r[|r| - |Utf8(a.reason)| - 1] == |a.reason|
  {
    var head := VarintField(1, BoolValue(a.acknowledged));
    assert head == if a.acknowledged then [0x08, 0x01] else [];
    if a.reason == "" then head
    else
      var len, u := Varint(|a.reason|), Utf8(a.reason);
      assert |a.reason| < 128 ==> len == [|a.reason|];
      var r := head + Key(2, LENGTH_DELIMITED) + len + u;
      assert r[|r| - |u|..] == u;
      r
  }

  /** `encode_ack_command` with the length prefix counting the bytes that
      follow; the two agree on every ASCII reason. */
  function EncodeAck(a: AckArgs): (r: seq<u8>)
    ensures |r| >= (if a.acknowledged then 2 else 0) + (if a.reason != "" then |Utf8(a.reason)| + 2 else 0)
    ensures r == [] <==> !a.acknowledged && a.reason == ""
    ensures a.acknowledged ==> r[..2] == [0x08, 0x01]
    ensures a.reason != "" ==> r[|r| - |Utf8(a.reason)|..] == Utf8(a.reason)
    ensures a.reason != "" && |Utf8(a.reason)| < 128 ==> r[|r| - |Utf8(a.reason)| - 1] == |Utf8(a.reason)|
  {
    var head := VarintField(1, BoolValue(a.acknowledged));
    assert head == if a.acknowledged then [0x08, 0x01] else [];
    if a.reason == "" then head
    else
      var u := Utf8(a.reason);
      var len := Varint(|u|);
      assert |u| < 128 ==> len == [|u|];
      var r := head + Key(2, LENGTH_DELIMITED) + len + u;
      assert r[|r| - |u|..] == u;
      r
  }

  lemma EncodeAckAscii(a: AckArgs)
    requires Ascii(a.reason)
    ensures EncodeAck(a) == EncodeAckAsWritten(a)
  {
    Utf8Ascii(a.reason);
  }

  /** `encode_led_command`. */
  function EncodeLed(a: LedArgs): (r: seq<u8>)
    ensures r == [] <==> a.start == 0 && a.end == 0 && a.duration == 0
    ensures a.start != 0 ==> r[0] == 0x08
  {
    var vals := [a.start, a.end, a.duration];
    assert vals[0] == a.start && vals[1] == a.end && vals[2] == a.duration;
    Fields(vals)
  }

  /** `encode_movement_command`. */
  function EncodeMove(a: MoveArgs): (r: seq<u8>)
    ensures r == [] <==> a.target == 0 && a.x == 0 && a.y == 0 && a.z == 0
    ensures a.target != 0 ==> r[0] == 0x08
  {
    var vals := [a.target, a.x, a.y, a.z];
    assert vals[0] == a.target && vals[1] == a.x && vals[2] == a.y && vals[3] == a.z;
    Fields(vals)
  }

  /** `encode_sound_command`. */
  function EncodeSound(a: SoundArgs): (r: seq<u8>)
    ensures r == [] <==> a.id == 0 && !a.play && !a.syncToLeds
    ensures a.id != 0 ==> r[0] == 0x08
  {
    var vals := [a.id, BoolValue(a.play), BoolValue(a.syncToLeds)];
    assert vals[0] == a.id && vals[1] == BoolValue(a.play) && vals[2] == BoolValue(a.syncToLeds);
    Fields(vals)
  }

  /** `", ".join(keys)`. */
  function Join(keys: seq<string>, sep: string): string
    decreases |keys|
  {
    if keys == [] then ""
    else if |keys| == 1 then keys[0]
    else keys[0] + sep + Join(keys[1..], sep)
  }

  function HasPayload(m: Command): bool {
    m.ack.Some? || m.led.Some? || m.move.Some? || m.sound.Some?
  }

  /** The id `encode_command` writes: an absent or zero id is replaced by
      the current time in whole seconds, `now`. */
  function ChosenId(m: Command, now: nat): int {
    if m.id.None? || m.id.value == 0 then now else m.id.value
  }

  /** The id, source and target fields: the id is always written, source
      and target only when non-zero. */
  function Header(id: int, source: int, target: int): seq<u8> {
    Key(FIELD_ID, VARINT) + Varint(id) + VarintField(FIELD_SOURCE, source) + VarintField(FIELD_TARGET, target)
  }

  /** `encode_command`: the header, then the first payload present in the
      order ack, led, move, sound as a length-delimited sub-message; with no
      payload, an error and the UTF-8 text naming the other keys. */
  function EncodeCommand(m: Command, now: nat): (r: Encoded)
    ensures r.msg == m.(id := Some(ChosenId(m, now)))
    ensures r.msg.id.value != 0 || now == 0
    ensures m.id.Some? && m.id.value != 0 ==> r.msg == m
    ensures r.isError <==> !HasPayload(m)
  {
    var id := ChosenId(m, now);
    var m' := m.(id := Some(id));
    var header := Header(id, m.source, m.target);
    if m.ack.Some? then Encoded(false, header + LengthDelimited(FIELD_ACK, EncodeAck(m.ack.value)), m')
    else if m.led.Some? then Encoded(false, header + LengthDelimited(FIELD_LED, EncodeLed(m.led.value)), m')
    else if m.move.Some? then Encoded(false, header + LengthDelimited(FIELD_MOVE, EncodeMove(m.move.value)), m')
    else if m.sound.Some? then Encoded(false, header + LengthDelimited(FIELD_SOUND, EncodeSound(m.sound.value)), m')
    else Encoded(true, Utf8("Unknown cmd_type: " + Join(m.otherKeys, ", ")), m')
  }
}
