/** The bounded message history both ports keep (the `RingBuffer` of the
    C++ header and of the Python module), as a value: the window of stored
    messages, oldest first, at most CAPACITY long, with message ids kept
    distinct. `idOf` reads a message's id (`message.id` in C++,
    `message['id']` in Python). The array-backed classes in RingBufferCpp
    and RingBufferPy are proved to keep exactly this window. */
module History {
  import opened Common

  /** RING_BUFFER_SIZE on both sides. */
  const CAPACITY: nat := 25

  /** Some message in `w` has id `k`. */
  predicate Has<T, K(==)>(w: seq<T>, idOf: T -> K, k: K) {
    exists i :: 0 <= i < |w| && idOf(w[i]) == k
  }

  /** No two messages of `w` share an id. */
  predicate UniqueIds<T, K(==)>(w: seq<T>, idOf: T -> K) {
    forall i, j :: 0 <= i < j < |w| ==> idOf(w[i]) != idOf(w[j])
  }

  /** `add`: a message whose id is already stored is ignored; otherwise it
      is appended, and when the window is full the oldest message goes. */
  function Add<T, K(==)>(w: seq<T>, idOf: T -> K, x: T): seq<T> {
    if Has(w, idOf, idOf(x)) then w
    else if |w| < CAPACITY then w + [x]
    else w[1..] + [x]
  }

  /** `get`: the oldest stored message with id `k`, if any. */
  function Find<T, K(==)>(w: seq<T>, idOf: T -> K, k: K): Option<T>
    decreases |w|
  {
    if w == [] then None
    else if idOf(w[0]) == k then Some(w[0])
    else Find(w[1..], idOf, k)
  }

  /** `getCurrentValue`: the newest stored message, if any. */
  function Current<T>(w: seq<T>): Option<T> {
    if w == [] then None else Some(w[|w| - 1])
  }

  /** Adding every message of `xs` in order. */
  function AddAll<T, K(==)>(w: seq<T>, idOf: T -> K, xs: seq<T>): seq<T>
    decreases |xs|
  {
    if xs == [] then w else AddAll(Add(w, idOf, xs[0]), idOf, xs[1..])
  }

  /** The window never outgrows the capacity, and grows by exactly one
      message when a new id arrives and there is room. */
  lemma AddSize<T, K>(w: seq<T>, idOf: T -> K, x: T)
    requires |w| <= CAPACITY
    ensures |Add(w, idOf, x)| <= CAPACITY
    ensures Has(w, idOf, idOf(x)) ==> |Add(w, idOf, x)| == |w|
    ensures !Has(w, idOf, idOf(x)) && |w| < CAPACITY ==> |Add(w, idOf, x)| == |w| + 1
    ensures !Has(w, idOf, idOf(x)) && |w| == CAPACITY ==> |Add(w, idOf, x)| == CAPACITY
  {
  }

  /** Ids stay distinct. */
  lemma AddKeepsUnique<T, K>(w: seq<T>, idOf: T -> K, x: T)
    requires UniqueIds(w, idOf)
    ensures UniqueIds(Add(w, idOf, x), idOf)
  {
    var r := Add(w, idOf, x);
    if !Has(w, idOf, idOf(x)) {
      var base := if |w| < CAPACITY then w else w[1..];
      assert r == base + [x];
      forall i, j | 0 <= i < j < |r| ensures idOf(r[i]) != idOf(r[j]) {
        if j == |r| - 1 {
          if |w| < CAPACITY {
            assert r[i] == w[i];
          } else {
            assert r[i] == w[i + 1];
          }
        } else if |w| >= CAPACITY {
          assert r[i] == w[i + 1] && r[j] == w[j + 1];
        }
      }
    }
  }

  /** After `add`, an id is stored exactly when it is the new message's id,
      or it was stored before and was not the oldest one pushed out. */
  lemma AddHas<T, K>(w: seq<T>, idOf: T -> K, x: T, k: K)
    requires UniqueIds(w, idOf)
    ensures Has(Add(w, idOf, x), idOf, k) <==>
      k == idOf(x) ||
      (Has(w, idOf, k) && !(|w| >= CAPACITY && !Has(w, idOf, idOf(x)) && idOf(w[0]) == k))
  {
    var r := Add(w, idOf, x);
    if !Has(w, idOf, idOf(x)) {
      assert r[|r| - 1] == x;
      if |w| >= CAPACITY {
        if Has(w, idOf, k) && idOf(w[0]) != k {
          var i :| 0 <= i < |w| && idOf(w[i]) == k;
          assert r[i - 1] == w[i];
        }
        if Has(r, idOf, k) && k != idOf(x) {
          var i :| 0 <= i < |r| && idOf(r[i]) == k;
          assert r[i] == w[i + 1];
        }
      } else {
        if Has(w, idOf, k) {
          var i :| 0 <= i < |w| && idOf(w[i]) == k;
          assert r[i] == w[i];
        }
        if Has(r, idOf, k) && k != idOf(x) {
          var i :| 0 <= i < |r| && idOf(r[i]) == k;
          assert r[i] == w[i];
        }
      }
    }
  }

  /** After `add`, the message's id is stored, whether it was new or not. */
  lemma AddHasNew<T, K>(w: seq<T>, idOf: T -> K, x: T)
    ensures Has(Add(w, idOf, x), idOf, idOf(x))
  {
    var r := Add(w, idOf, x);
    if !Has(w, idOf, idOf(x)) {
      assert r[|r| - 1] == x;
    }
  }

  /** A second `add` of the same message changes nothing. */
  lemma AddIdempotent<T, K>(w: seq<T>, idOf: T -> K, x: T)
    ensures Add(Add(w, idOf, x), idOf, x) == Add(w, idOf, x)
  {
    var r := Add(w, idOf, x);
    if !Has(w, idOf, idOf(x)) {
      assert r[|r| - 1] == x;
      assert Has(r, idOf, idOf(x));
    }
  }

  /** After adding a message with a new id, it is the current value and
      `get` finds it. */
  lemma AddThenGet<T, K>(w: seq<T>, idOf: T -> K, x: T)
    requires UniqueIds(w, idOf)
    requires !Has(w, idOf, idOf(x))
    ensures Current(Add(w, idOf, x)) == Some(x)
    ensures Find(Add(w, idOf, x), idOf, idOf(x)) == Some(x)
  {
    AddKeepsUnique(w, idOf, x);
    var r := Add(w, idOf, x);
    FindUnique(r, idOf, |r| - 1);
  }

  /** `get` answers exactly for the stored ids, and returns a stored message
      carrying the id asked for. */
  lemma {:induction false} FindSpec<T, K>(w: seq<T>, idOf: T -> K, k: K)
    ensures Find(w, idOf, k).None? <==> !Has(w, idOf, k)
    ensures Find(w, idOf, k).Some? ==>
      idOf(Find(w, idOf, k).value) == k && Find(w, idOf, k).value in w
    decreases |w|
  {
    if w != [] && idOf(w[0]) != k {
      FindSpec(w[1..], idOf, k);
      if Has(w, idOf, k) {
        var i :| 0 <= i < |w| && idOf(w[i]) == k;
        assert w[1..][i - 1] == w[i];
      }
      if Has(w[1..], idOf, k) {
        var i :| 0 <= i < |w[1..]| && idOf(w[1..][i]) == k;
        assert w[i + 1] == w[1..][i];
      }
    }
  }

  /** With distinct ids, `get` of the id at position `i` returns that very message. */
  lemma {:induction false} FindUnique<T, K>(w: seq<T>, idOf: T -> K, i: nat)
    requires UniqueIds(w, idOf)
    requires i < |w|
    ensures Find(w, idOf, idOf(w[i])) == Some(w[i])
    decreases |w|
  {
    if i > 0 {
      assert idOf(w[0]) != idOf(w[i]);
      assert w[1..][i - 1] == w[i];
      FindUnique(w[1..], idOf, i - 1);
    }
  }

  /** Fed messages whose ids are all distinct, the history holds the last
      CAPACITY of them (all of them while fewer arrived), in arrival order. */
  lemma {:induction false} AddAllKeepsLatest<T, K>(w: seq<T>, idOf: T -> K, xs: seq<T>)
    requires |w| <= CAPACITY
    requires UniqueIds(w + xs, idOf)
    ensures AddAll(w, idOf, xs) == Latest(w + xs)
    decreases |xs|
  {
    if xs == [] {
      assert w + xs == w;
    } else {
      var x := xs[0];
      assert !Has(w, idOf, idOf(x)) by {
        forall i | 0 <= i < |w| ensures idOf(w[i]) != idOf(x) {
          assert (w + xs)[i] == w[i] && (w + xs)[|w|] == x;
        }
      }
      var w' := Add(w, idOf, x);
      assert w' == Latest(w + [x]);
      UniqueSuffix(w + xs, idOf, if |w| < CAPACITY then 0 else 1);
      assert (w + xs)[(if |w| < CAPACITY then 0 else 1)..] == w' + xs[1..];
      AddAllKeepsLatest(w', idOf, xs[1..]);
      LatestDrop(w + xs, if |w| < CAPACITY then 0 else 1);
    }
  }

  /** The last CAPACITY elements of `s` (all of `s` when shorter). */
  function Latest<T>(s: seq<T>): (r: seq<T>)
    ensures |r| <= CAPACITY
  {
    if |s| <= CAPACITY then s else s[|s| - CAPACITY..]
  }

  lemma UniqueSuffix<T, K>(s: seq<T>, idOf: T -> K, d: nat)
    requires UniqueIds(s, idOf)
    requires d <= |s|
    ensures UniqueIds(s[d..], idOf)
  {
    forall i, j | 0 <= i < j < |s[d..]| ensures idOf(s[d..][i]) != idOf(s[d..][j]) {
      assert s[d..][i] == s[i + d] && s[d..][j] == s[j + d];
    }
  }

  lemma LatestDrop<T>(s: seq<T>, d: nat)
    requires d <= |s| && d <= 1
    requires d == 1 ==> |s| > CAPACITY
    ensures Latest(s[d..]) == Latest(s)
  {
  }

  /** The messages stored in a circular array of CAPACITY slots: `size`
      slots starting at `tail`, wrapping around. */
  function RingWindow<T>(slots: seq<T>, tail: int, size: int): (w: seq<T>)
    requires |slots| == CAPACITY && 0 <= tail < CAPACITY && 0 <= size <= CAPACITY
    ensures |w| == size
  {
    seq(size, i requires 0 <= i < size => slots[(tail + i) % CAPACITY])
  }

  /** Writing at `head` of a ring with room appends to its window. */
  lemma RingPush<T>(slots: seq<T>, tail: int, size: int, x: T)
    requires |slots| == CAPACITY && 0 <= tail < CAPACITY && 0 <= size < CAPACITY
    ensures RingWindow(slots[(tail + size) % CAPACITY := x], tail, size + 1)
         == RingWindow(slots, tail, size) + [x]
  {
    var head := (tail + size) % CAPACITY;
    var a := RingWindow(slots[head := x], tail, size + 1);
    var b := RingWindow(slots, tail, size) + [x];
    forall i | 0 <= i < size + 1 ensures a[i] == b[i] {
      if i < size {
        assert (tail + i) % CAPACITY != head;
      }
    }
  }

  /** Writing at `head` of a full ring (where `head` meets `tail`) and
      advancing `tail` drops the oldest message and appends the new one. */
  lemma RingOverwrite<T>(slots: seq<T>, tail: int, x: T)
    requires |slots| == CAPACITY && 0 <= tail < CAPACITY
    ensures RingWindow(slots[tail := x], (tail + 1) % CAPACITY, CAPACITY)
         == RingWindow(slots, tail, CAPACITY)[1..] + [x]
  {
    var t := (tail + 1) % CAPACITY;
    var a := RingWindow(slots[tail := x], t, CAPACITY);
    var b := RingWindow(slots, tail, CAPACITY)[1..] + [x];
    forall i | 0 <= i < CAPACITY ensures a[i] == b[i] {
      assert (t + i) % CAPACITY == (tail + i + 1) % CAPACITY;
      if i < CAPACITY - 1 {
        assert (tail + i + 1) % CAPACITY != tail;
      } else {
        assert (tail + i + 1) % CAPACITY == tail;
      }
    }
  }

  /** `m` is the id index of `w`: its keys are exactly the stored ids, each
      mapped to `true`. */
  ghost predicate IndexOf<T, K(!new)>(m: map<K, bool>, w: seq<T>, idOf: T -> K) {
    (forall k :: k in m <==> Has(w, idOf, k)) && (forall k :: k in m ==> m[k])
  }

  /** The index updates `add` performs (drop the evicted id when full, then
      map the new id to `true`) keep it the index of the new window. */
  lemma IndexAfterAdd<T, K(!new)>(m: map<K, bool>, w: seq<T>, idOf: T -> K, x: T)
    requires UniqueIds(w, idOf) && IndexOf(m, w, idOf)
    requires !Has(w, idOf, idOf(x)) && |w| <= CAPACITY
    ensures IndexOf((if |w| < CAPACITY then m else m - {idOf(w[0])})[idOf(x) := true],
                    Add(w, idOf, x), idOf)
  {
    var m' := (if |w| < CAPACITY then m else m - {idOf(w[0])})[idOf(x) := true];
    forall k ensures k in m' <==> Has(Add(w, idOf, x), idOf, k) {
      AddHas(w, idOf, x, k);
    }
  }

  /** What `add` does to the slots and indices of the ring, for a message
      with a new id, is `Add` on its window. */
  lemma RingAdd<T, K>(slots: seq<T>, tail: int, size: int, idOf: T -> K, x: T)
    requires |slots| == CAPACITY && 0 <= tail < CAPACITY && 0 <= size <= CAPACITY
    requires !Has(RingWindow(slots, tail, size), idOf, idOf(x))
    ensures size < CAPACITY ==>
      RingWindow(slots[(tail + size) % CAPACITY := x], tail, size + 1)
        == Add(RingWindow(slots, tail, size), idOf, x)
    ensures size == CAPACITY ==>
      RingWindow(slots[tail := x], (tail + 1) % CAPACITY, CAPACITY)
        == Add(RingWindow(slots, tail, size), idOf, x)
  {
    if size < CAPACITY {
      RingPush(slots, tail, size, x);
    } else {
      RingOverwrite(slots, tail, x);
    }
  }

  /** After `add`, `m_head == (m_tail + m_size) % CAPACITY` holds again,
      both when the ring had room and when it was full. */
  lemma RingIndices(tail: int, size: int)
    requires 0 <= tail < CAPACITY && 0 <= size <= CAPACITY
    ensures size < CAPACITY ==>
      ((tail + size) % CAPACITY + 1) % CAPACITY == (tail + size + 1) % CAPACITY
    ensures size == CAPACITY ==>
      (tail + size) % CAPACITY == tail &&
      ((tail + 1) % CAPACITY + size) % CAPACITY == (tail + 1) % CAPACITY
  {
  }

  /** The representation invariant of the ring: indices in range, `head`
      one past the newest message, `w` the window the slots hold, ids
      distinct and `m` their index. */
  ghost predicate RingInv<T, K(!new)>(slots: seq<T>, head: int, tail: int, size: int,
                                      m: map<K, bool>, w: seq<T>, idOf: T -> K) {
    |slots| == CAPACITY &&
    0 <= head < CAPACITY && 0 <= tail < CAPACITY && 0 <= size <= CAPACITY &&
    head == (tail + size) % CAPACITY &&
    w == RingWindow(slots, tail, size) &&
    UniqueIds(w, idOf) &&
    IndexOf(m, w, idOf)
  }

  /** The slot, index and map updates `add` performs for a new id keep the
      invariant, with `Add` of the window as the new window. */
  lemma RingAddInv<T, K(!new)>(slots: seq<T>, head: int, tail: int, size: int,
                               m: map<K, bool>, w: seq<T>, idOf: T -> K, x: T)
    requires RingInv(slots, head, tail, size, m, w, idOf)
    requires !Has(w, idOf, idOf(x))
    ensures RingInv(slots[head := x], (head + 1) % CAPACITY,
                    if size < CAPACITY then tail else (tail + 1) % CAPACITY,
                    if size < CAPACITY then size + 1 else size,
                    (if size < CAPACITY then m else m - {idOf(slots[tail])})[idOf(x) := true],
                    Add(w, idOf, x), idOf)
  {
    RingAdd(slots, tail, size, idOf, x);
    RingIndices(tail, size);
    IndexAfterAdd(m, w, idOf, x);
    AddKeepsUnique(w, idOf, x);
    if size == CAPACITY {
      assert w[0] == slots[tail];
    }
  }
}
