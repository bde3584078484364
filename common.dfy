/** Types and small helpers shared by both ports: bytes, 32-bit timestamps,
    Option, and the bitwise and wrapping operations the source writes with
    C and Python operators. */
module Common {

  /** An 8-bit unsigned value (`uint8_t` on the C++ side, an int in 0..255 in Python). */
  type byte = bv8

  /** A byte as the Python codec handles it: an int in 0..255. */
  type u8 = x: int | 0 <= x < 256

  /** A 32-bit unsigned value, as `getSafeTimestamp` returns it on both sides. */
  type u32 = x: int | 0 <= x < 0x1_0000_0000

  const TWO_TO_32: nat := 0x1_0000_0000
  const TWO_TO_64: nat := 0x1_0000_0000_0000_0000

  datatype Option<T> = None | Some(value: T)

  /** `a - b` on `uint32_t`: wraps modulo 2^32. */
  function Sub32(a: u32, b: u32): (d: nat)
    ensures d < TWO_TO_32
    ensures a >= b ==> d == a - b
    ensures a < b ==> d == TWO_TO_32 + a - b
  {
    (a - b) % TWO_TO_32
  }

  /** `a - b` on `uint64_t` with both operands holding 32-bit readings: wraps modulo 2^64. */
  function Sub64(a: u32, b: u32): (d: nat)
    ensures d < TWO_TO_64
    ensures a >= b ==> d == a - b
    ensures a < b ==> d == TWO_TO_64 + a - b
  {
    (a - b) % TWO_TO_64
  }

  /** The elements of `s` are pairwise distinct. */
  predicate Distinct<T(==)>(s: seq<T>) {
    forall i, j :: 0 <= i < j < |s| ==> s[i] != s[j]
  }

  /** The elements of `s`, as a set. */
  function Elements<T>(s: seq<T>): set<T> {
    set x | x in s
  }

  /** Dropping the first element keeps the rest distinct, and the first
      element does not occur again. */
  lemma DistinctTail<T>(s: seq<T>)
    requires |s| > 0 && Distinct(s)
    ensures Distinct(s[1..]) && s[0] !in s[1..]
  {
    forall i, j | 0 <= i < j < |s[1..]| ensures s[1..][i] != s[1..][j] {
      assert s[1..][i] == s[i + 1] && s[1..][j] == s[j + 1];
    }
    forall i | 0 <= i < |s[1..]| ensures s[1..][i] != s[0] {
      assert s[1..][i] == s[i + 1];
    }
  }

  /** Two maps that agree outside `x` agree on every key outside `x`. */
  lemma MinusAgree<K, V>(a: map<K, V>, b: map<K, V>, x: set<K>, key: K)
    requires a - x == b - x && key !in x
    ensures (key in a <==> key in b) && (key in a ==> a[key] == b[key])
  {
    assert key in a <==> key in a - x;
    assert key in b <==> key in b - x;
    if key in a {
      assert a[key] == (a - x)[key];
    }
  }

  /** Agreement outside `x`, then outside `y`, is agreement outside both. */
  lemma MinusCompose<K, V>(a: map<K, V>, b: map<K, V>, c: map<K, V>, x: set<K>, y: set<K>)
    requires b - x == a - x && c - y == b - y
    ensures c - (x + y) == a - (x + y)
  {
    forall key | key !in x + y
      ensures (key in c <==> key in a) && (key in c ==> c[key] == a[key])
    {
      MinusAgree(c, b, y, key);
      MinusAgree(b, a, x, key);
    }
  }
}
