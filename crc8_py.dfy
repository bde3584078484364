/** The Python checksum object: the constructor builds the lookup table as a
    list, and `calculate` folds an iterable of byte values through it. */
module Crc8Py {
  import opened Common
  import opened Crc8Spec

  class Crc8 {
    /** `_table`. */
    var table: seq<byte>

    ghost predicate Valid()
      reads this
    {
      TableCorrect(table)
    }

    /** `_calculate_byte`: eight rounds, each masked back to eight bits. */
    static method CalculateByte(b: byte) returns (crc: byte)
      ensures crc == ByteCrc(b)
    {
      crc := b;
      for i := 0 to 8
        invariant Rounds(crc, 8 - i) == Rounds(b, 8)
      {
        if crc & 0x80 != 0 {
          crc := (crc << 1) ^ POLY;
        } else {
          crc := crc << 1;
        }
      }
    }

    /** `_build_table`: appends the CRC of 0, 1, ..., 255 to a new list. */
    static method BuildTable() returns (t: seq<byte>)
      ensures TableCorrect(t)
    {
      t := [];
      for i := 0 to 256
        invariant |t| == i
        invariant forall j :: 0 <= j < i ==> t[j] == ByteCrc(j as bv8)
      {
        var c := CalculateByte(i as bv8);
        t := t + [c];
      }
    }

    /** `__init__`. */
    constructor()
      ensures Valid()
    {
      var t := BuildTable();
      table := t;
    }

    /** `calculate`: the checksum of every byte of `data`. */
    method Calculate(data: seq<byte>) returns (crc: byte)
      requires Valid()
      ensures crc == Checksum(data)
    {
      crc := INIT;
      for i := 0 to |data|
        invariant crc == Fold(INIT, data[..i])
      {
        FoldSnoc(INIT, data[..i], data[i]);
        assert data[..i + 1] == data[..i] + [data[i]];
        TableLookup(table, crc ^ data[i]);
        crc := table[(crc ^ data[i]) as int];
      }
      assert data[..|data|] == data;
      crc := crc ^ XOROUT;
    }
  }
}
