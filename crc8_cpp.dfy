/** The C++ checksum object: a 256-entry lookup table filled once by the
    constructor, a flag recording that it was filled, and the table-driven
    `calculate` over a buffer and a length. */
module Crc8Cpp {
  import opened Common
  import opened Crc8Spec

  class Crc8 {
    /** `m_table`: entry `i` holds the CRC of the byte `i`. */
    var table: array<byte>
    /** `m_table_built`. */
    var tableBuilt: bool

    /** The object is ready for `Calculate`: the table is built and every
        entry is the CRC of its index. */
    ghost predicate Valid()
      reads this, table
    {
      table.Length == 256 && tableBuilt && TableCorrect(table[..])
    }

    /** `calculate_byte`: eight shift-and-XOR rounds starting from the byte. */
    static method CalculateByte(b: byte) returns (crc: byte)
      ensures crc == ByteCrc(b)
    {
      crc := b;
      var i := 0;
      while i < 8
        invariant 0 <= i <= 8
        invariant Rounds(crc, 8 - i) == Rounds(b, 8)
      {
        if crc & 0x80 != 0 {
          crc := (crc << 1) ^ POLY;
        } else {
          crc := crc << 1;
        }
        i := i + 1;
      }
    }

    /** The constructor zero-initialises the table, clears the flag and
        calls `build_table`. */
    constructor()
      ensures Valid()
      ensures fresh(table)
    {
      table := new byte[256](_ => 0);
      tableBuilt := false;
      new;
      BuildTable();
    }

    /** `build_table`: fills every entry when the flag is clear, then sets it;
        a second call changes nothing. */
    method BuildTable()
      requires table.Length == 256
      requires tableBuilt ==> TableCorrect(table[..])
      modifies this, table
      ensures table == old(table)
      ensures Valid()
      ensures old(tableBuilt) ==> table[..] == old(table[..])
    {
      if !tableBuilt {
        var i := 0;
        while i < 256
          invariant 0 <= i <= 256
          invariant table.Length == 256 && !tableBuilt
          invariant forall j :: 0 <= j < i ==> table[j] == ByteCrc(j as bv8)
          modifies table
        {
          table[i] := CalculateByte(i as bv8);
          i := i + 1;
        }
        tableBuilt := true;
      }
    }

    /** `calculate`: folds the first `len` bytes of `data` through the table
        from INIT, then XORs with XOROUT. The result is the checksum of
        those bytes. */
    method Calculate(data: array<byte>, len: nat) returns (crc: byte)
      requires Valid()
      requires len <= data.Length
      ensures crc == Checksum(data[..len])
    {
      crc := INIT;
      var i := 0;
      while i < len
        invariant 0 <= i <= len
        invariant crc == Fold(INIT, data[..i])
      {
        FoldSnoc(INIT, data[..i], data[i]);
        assert data[..i + 1] == data[..i] + [data[i]];
        TableLookup(table[..], crc ^ data[i]);
        crc := table[(crc ^ data[i]) as int];
        i := i + 1;
      }
      assert data[..len] == data[..i];
      crc := crc ^ XOROUT;
    }
  }
}
