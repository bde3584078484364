/** The checksum both ports compute: CRC-8 with polynomial 0x07, initial value
    0x00 and output XOR 0x00 (the parameter set catalogued as CRC-8/SMBUS),
    defined bit by bit. The table-driven implementations in Crc8Cpp and Crc8Py
    are proved equal to these functions. */
module Crc8Spec {
  import opened Common

  const POLY: byte := 0x07
  const INIT: byte := 0x00
  const XOROUT: byte := 0x00

  /** One round of the bit-at-a-time algorithm: shift left keeping eight bits,
      and XOR the polynomial in when the bit shifted out was set. */
  function Round(crc: byte): byte {
    if crc & 0x80 != 0 then (crc << 1) ^ POLY else crc << 1
  }

  /** `n` rounds applied to `crc`. */
  function Rounds(crc: byte, n: nat): byte
    decreases n
  {
    if n == 0 then crc else Rounds(Round(crc), n - 1)
  }

  /** The CRC of a single byte: eight rounds starting from the byte itself.
      This is the value of every table entry. */
  function ByteCrc(b: byte): byte {
    Rounds(b, 8)
  }

  /** `t` is the lookup table both ports build: entry `i` is the CRC of `i`. */
  predicate TableCorrect(t: seq<byte>) {
    |t| == 256 && forall i :: 0 <= i < 256 ==> t[i] == ByteCrc(i as bv8)
  }

  /** Looking a byte up in a correct table gives its CRC. */
  lemma TableLookup(t: seq<byte>, x: byte)
    requires TableCorrect(t)
    ensures t[x as int] == ByteCrc(x)
  {
    assert (x as int) as bv8 == x;
  }

  /** The table-driven left fold over `data`, starting from `crc`. */
  function Fold(crc: byte, data: seq<byte>): byte
    decreases |data|
  {
    if data == [] then crc else Fold(ByteCrc(crc ^ data[0]), data[1..])
  }

  /** The checksum of a buffer. */
  function Checksum(data: seq<byte>): byte {
    Fold(INIT, data) ^ XOROUT
  }

  /** Folding one more byte is one more table step. */
  lemma {:induction false} FoldSnoc(crc: byte, data: seq<byte>, b: byte)
    ensures Fold(crc, data + [b]) == ByteCrc(Fold(crc, data) ^ b)
    decreases |data|
  {
    if data == [] {
      assert data + [b] == [b];
      assert [b][1..] == [];
    } else {
      assert (data + [b])[1..] == data[1..] + [b];
      FoldSnoc(ByteCrc(crc ^ data[0]), data[1..], b);
    }
  }

  /** The fold equation of `calculate`: since XOROUT is 0, the checksum of
      `data ++ [b]` is the table entry at `checksum(data) ^ b`. */
  lemma ChecksumSnoc(data: seq<byte>, b: byte)
    ensures Checksum(data + [b]) == ByteCrc(Checksum(data) ^ b)
  {
    FoldSnoc(INIT, data, b);
  }

  /** The checksum of the empty buffer is INIT ^ XOROUT, that is 0x00. */
  lemma ChecksumEmpty()
    ensures Checksum([]) == INIT ^ XOROUT == 0x00
  {
  }

  /** The checksum of a one-byte buffer is the CRC of that byte. */
  lemma ChecksumSingle(b: byte)
    ensures Checksum([b]) == ByteCrc(b)
  {
    ChecksumSnoc([], b);
    assert [] + [b] == [b];
  }

  /** An all-zero buffer of any length checks to 0x00. */
  lemma {:induction false} ChecksumAllZero(n: nat)
    ensures Checksum(seq(n, _ => 0)) == 0x00
  {
    if n == 0 {
      ChecksumEmpty();
    } else {
      var z := seq(n - 1, _ => 0);
      assert seq(n, _ => 0) == z + [0];
      ChecksumAllZero(n - 1);
      ChecksumSnoc(z, 0);
      assert ByteCrc(0) == 0;
    }
  }

  /** The single-byte values the test suites check. */
  lemma ByteCrcKnownValues()
    ensures ByteCrc(0x00) == 0x00
    ensures ByteCrc(0xFF) == 0xF3
    ensures ByteCrc(0xA5) == 0x72
    ensures ByteCrc(0x01) == 0x07
  {
  }

  /** Folding a concatenation folds the second part from where the first stopped. */
  lemma {:induction false} FoldAppend(crc: byte, a: seq<byte>, b: seq<byte>)
    ensures Fold(crc, a + b) == Fold(Fold(crc, a), b)
    decreases |a|
  {
    if a == [] {
      assert a + b == b;
    } else {
      assert (a + b)[1..] == a[1..] + b;
      FoldAppend(ByteCrc(crc ^ a[0]), a[1..], b);
    }
  }

  /** Folding from the front: one table step, then the rest. */
  lemma FoldCons(crc: byte, b: byte, rest: seq<byte>)
    ensures Fold(crc, [b] + rest) == Fold(ByteCrc(crc ^ b), rest)
  {
    assert ([b] + rest)[1..] == rest;
  }

  /** Chaining two folds whose values are known. */
  lemma FoldChain(crc: byte, a: seq<byte>, mid: byte, b: seq<byte>, out: byte)
    requires Fold(crc, a) == mid && Fold(mid, b) == out
    ensures Fold(crc, a + b) == out
  {
    FoldAppend(crc, a, b);
  }

  /** Four-byte stretches of the test vectors, evaluated one table step at a time. */
  lemma FoldStep0()
    ensures Fold(0x00, [0x01, 0x02, 0x03, 0x04]) == 0xE3
  {
    FoldCons(0x00, 0x01, [0x02, 0x03, 0x04]);
    assert ByteCrc(0x01) == 0x07;
    FoldCons(0x07, 0x02, [0x03, 0x04]);
    assert ByteCrc(0x05) == 0x1B;
    FoldCons(0x1B, 0x03, [0x04]);
    assert ByteCrc(0x18) == 0x48;
    FoldCons(0x48, 0x04, []);
    assert ByteCrc(0x4C) == 0xE3;
  }

  lemma FoldStep1()
    ensures Fold(0x00, [0xFF, 0xFF, 0xFF, 0xFF]) == 0xDE
  {
    FoldCons(0x00, 0xFF, [0xFF, 0xFF, 0xFF]);
    assert ByteCrc(0xFF) == 0xF3;
    FoldCons(0xF3, 0xFF, [0xFF, 0xFF]);
    assert ByteCrc(0x0C) == 0x24;
    FoldCons(0x24, 0xFF, [0xFF]);
    assert ByteCrc(0xDB) == 0x0F;
    FoldCons(0x0F, 0xFF, []);
    assert ByteCrc(0xF0) == 0xDE;
  }

  lemma FoldStep2()
    ensures Fold(0xDE, [0xFF, 0xFF, 0xFF, 0xFF]) == 0xD7
  {
    FoldCons(0xDE, 0xFF, [0xFF, 0xFF, 0xFF]);
    assert ByteCrc(0x21) == 0xE7;
    FoldCons(0xE7, 0xFF, [0xFF, 0xFF]);
    assert ByteCrc(0x18) == 0x48;
    FoldCons(0x48, 0xFF, [0xFF]);
    assert ByteCrc(0xB7) == 0x0C;
    FoldCons(0x0C, 0xFF, []);
    assert ByteCrc(0xF3) == 0xD7;
  }

  lemma FoldStep3()
    ensures Fold(0x00, [0x00, 0x01, 0x02, 0x03]) == 0x48
  {
    FoldCons(0x00, 0x00, [0x01, 0x02, 0x03]);
    assert ByteCrc(0x00) == 0x00;
    FoldCons(0x00, 0x01, [0x02, 0x03]);
    assert ByteCrc(0x01) == 0x07;
    FoldCons(0x07, 0x02, [0x03]);
    assert ByteCrc(0x05) == 0x1B;
    FoldCons(0x1B, 0x03, []);
    assert ByteCrc(0x18) == 0x48;
  }

  lemma FoldStep4()
    ensures Fold(0x48, [0x04, 0x05, 0x06, 0x07]) == 0xD8
  {
    FoldCons(0x48, 0x04, [0x05, 0x06, 0x07]);
    assert ByteCrc(0x4C) == 0xE3;
    FoldCons(0xE3, 0x05, [0x06, 0x07]);
    assert ByteCrc(0xE6) == 0xBC;
    FoldCons(0xBC, 0x06, [0x07]);
    assert ByteCrc(0xBA) == 0x2F;
    FoldCons(0x2F, 0x07, []);
    assert ByteCrc(0x28) == 0xD8;
  }

  lemma FoldStep5()
    ensures Fold(0xD8, [0x08, 0x09, 0x0A, 0x0B]) == 0x44
  {
    FoldCons(0xD8, 0x08, [0x09, 0x0A, 0x0B]);
    assert ByteCrc(0xD0) == 0x3E;
    FoldCons(0x3E, 0x09, [0x0A, 0x0B]);
    assert ByteCrc(0x37) == 0x85;
    FoldCons(0x85, 0x0A, [0x0B]);
    assert ByteCrc(0x8F) == 0xA4;
    FoldCons(0xA4, 0x0B, []);
    assert ByteCrc(0xAF) == 0x44;
  }

  lemma FoldStep6()
    ensures Fold(0x44, [0x0C, 0x0D, 0x0E, 0x0F]) == 0x41
  {
    FoldCons(0x44, 0x0C, [0x0D, 0x0E, 0x0F]);
    assert ByteCrc(0x48) == 0xFF;
    FoldCons(0xFF, 0x0D, [0x0E, 0x0F]);
    assert ByteCrc(0xF2) == 0xD0;
    FoldCons(0xD0, 0x0E, [0x0F]);
    assert ByteCrc(0xDE) == 0x14;
    FoldCons(0x14, 0x0F, []);
    assert ByteCrc(0x1B) == 0x41;
  }

  lemma FoldStep7()
    ensures Fold(0x00, [0xAA, 0x55, 0xAA, 0x55]) == 0xB1
  {
    FoldCons(0x00, 0xAA, [0x55, 0xAA, 0x55]);
    assert ByteCrc(0xAA) == 0x5F;
    FoldCons(0x5F, 0x55, [0xAA, 0x55]);
    assert ByteCrc(0x0A) == 0x36;
    FoldCons(0x36, 0xAA, [0x55]);
    assert ByteCrc(0x9C) == 0xDD;
    FoldCons(0xDD, 0x55, []);
    assert ByteCrc(0x88) == 0xB1;
  }

  lemma FoldStep8()
    ensures Fold(0xB1, [0xAA, 0x55, 0xAA, 0x55]) == 0x3F
  {
    FoldCons(0xB1, 0xAA, [0x55, 0xAA, 0x55]);
    assert ByteCrc(0x1B) == 0x41;
    FoldCons(0x41, 0x55, [0xAA, 0x55]);
    assert ByteCrc(0x14) == 0x6C;
    FoldCons(0x6C, 0xAA, [0x55]);
    assert ByteCrc(0xC6) == 0x5C;
    FoldCons(0x5C, 0x55, []);
    assert ByteCrc(0x09) == 0x3F;
  }

  /** The checksum of 01 02 03 04 is 0xE3. */
  lemma ChecksumCounting()
    ensures Checksum([0x01, 0x02, 0x03, 0x04]) == 0xE3
  {
    FoldStep0();
  }

  /** Eight 0xFF bytes check to 0xD7. */
  lemma ChecksumAllOnes()
    ensures Checksum([0xFF, 0xFF, 0xFF, 0xFF] + [0xFF, 0xFF, 0xFF, 0xFF]) == 0xD7
  {
    FoldStep1();
    FoldStep2();
    FoldChain(0x00, [0xFF, 0xFF, 0xFF, 0xFF], 0xDE, [0xFF, 0xFF, 0xFF, 0xFF], 0xD7);
  }

  /** The sixteen bytes 00..0F check to 0x41. */
  lemma ChecksumSequence()
    ensures Checksum([0x00, 0x01, 0x02, 0x03] + [0x04, 0x05, 0x06, 0x07] + [0x08, 0x09, 0x0A, 0x0B] + [0x0C, 0x0D, 0x0E, 0x0F]) == 0x41
  {
    FoldStep3();
    FoldStep4();
    FoldStep5();
    FoldStep6();
    FoldChain(0x00, [0x00, 0x01, 0x02, 0x03], 0x48, [0x04, 0x05, 0x06, 0x07], 0xD8);
    FoldChain(0x00, [0x00, 0x01, 0x02, 0x03] + [0x04, 0x05, 0x06, 0x07], 0xD8, [0x08, 0x09, 0x0A, 0x0B], 0x44);
    FoldChain(0x00, [0x00, 0x01, 0x02, 0x03] + [0x04, 0x05, 0x06, 0x07] + [0x08, 0x09, 0x0A, 0x0B], 0x44, [0x0C, 0x0D, 0x0E, 0x0F], 0x41);
  }

  /** Four repetitions of AA 55 check to 0x3F. */
  lemma ChecksumAlternating()
    ensures Checksum([0xAA, 0x55, 0xAA, 0x55] + [0xAA, 0x55, 0xAA, 0x55]) == 0x3F
  {
    FoldStep7();
    FoldStep8();
    FoldChain(0x00, [0xAA, 0x55, 0xAA, 0x55], 0xB1, [0xAA, 0x55, 0xAA, 0x55], 0x3F);
  }
}
