/** The C++ `RingBuffer<T>` template: a fixed array of RING_BUFFER_SIZE
    messages used circularly (`m_head` is the next slot to write, `m_tail`
    the oldest message, `m_size` the count) and a hash map from message id
    to `true` for duplicate detection. Every operation is proved to act on
    the window of stored messages as History describes. */
module RingBufferCpp {
  import opened Common
  import opened History

  class RingBuffer<T> {
    /** `message.id` of the element type (a `uint32_t`). */
    const idOf: T -> u32
    /** `T{}`: the value-initialised message the array starts with and
        `getCurrentValue` returns when the buffer is empty. */
    const empty: T

    const buffer: array<T>
    var head: int
    var tail: int
    var size: int
    /** `m_messageMap`. */
    var messageMap: map<u32, bool>
    /** The stored messages, oldest first. */
    ghost var Window: seq<T>

    ghost predicate Valid()
      reads this, buffer
    {
      buffer.Length == CAPACITY &&
      RingInv(buffer[..], head, tail, size, messageMap, Window, idOf)
    }

    constructor(idOf: T -> u32, empty: T)
      ensures Valid() && fresh(buffer)
      ensures this.idOf == idOf && this.empty == empty
      ensures Window == []
    {
      this.idOf := idOf;
      this.empty := empty;
      buffer := new T[CAPACITY](_ => empty);
      head, tail, size := 0, 0, 0;
      messageMap := map[];
      Window := [];
    }

    /** `reset`: indices back to zero and the map cleared; the array keeps
        its old contents, which no longer belong to the window. */
    method Reset()
      requires Valid()
      modifies this
      ensures Valid()
      ensures Window == []
      ensures head == 0 && tail == 0 && messageMap == map[]
    {
      head, tail, size := 0, 0, 0;
      messageMap := map[];
      Window := [];
    }

    /** `add`: a message whose id is present is ignored; when full, the
        oldest message's id leaves the map and `m_tail` advances; the
        message is written at `m_head`. */
    method Add(message: T)
      requires Valid()
      modifies this, buffer
      ensures Valid()
      ensures Window == History.Add(old(Window), idOf, message)
    {
      var timestamp := idOf(message);
      var present := Contains(timestamp);
      if present {
        return;
      }
      Insert(message);
    }

    /** The part of `add` after the duplicate check: evict when full, then
        write at `m_head`. */
    method Insert(message: T)
      requires Valid()
      requires !Has(Window, idOf, idOf(message))
      modifies this, buffer
      ensures Valid()
      ensures Window == History.Add(old(Window), idOf, message)
    {
      var timestamp := idOf(message);
      ghost var slots, h, t, n, m, w := buffer[..], head, tail, size, messageMap, Window;
      if size < CAPACITY {
        size := size + 1;
      } else {
        messageMap := messageMap - {idOf(buffer[tail])};
        tail := (tail + 1) % CAPACITY;
      }
      buffer[head] := message;
      messageMap := messageMap[timestamp := true];
      head := (head + 1) % CAPACITY;
      Window := History.Add(Window, idOf, message);
      assert RingInv(buffer[..], head, tail, size, messageMap, Window, idOf) by {
        RingAddInv(slots, h, t, n, m, w, idOf, message);
        assert buffer[..] == slots[h := message];
        assert tail == (if n < CAPACITY then t else (t + 1) % CAPACITY);
        assert size == (if n < CAPACITY then n + 1 else n);
        assert messageMap == (if n < CAPACITY then m else m - {idOf(slots[t])})[idOf(message) := true];
      }
    }

    /** `contains`: whether a message with this id is stored. */
    method Contains(timestamp: u32) returns (found: bool)
      requires Valid()
      ensures found <==> Has(Window, idOf, timestamp)
    {
      found := timestamp in messageMap;
    }

    /** `get`: scans the window from the oldest message and returns the
        first with the id (a pointer into the array in C++; `None` for
        `nullptr`). */
    method Get(timestamp: u32) returns (r: Option<T>)
      requires Valid()
      ensures r == Find(Window, idOf, timestamp)
    {
      var i := 0;
      while i < size
        invariant 0 <= i <= size
        invariant Find(Window, idOf, timestamp) == Find(Window[i..], idOf, timestamp)
      {
        var idx := (tail + i) % CAPACITY;
        assert Window[i..][0] == buffer[idx];
        if idOf(buffer[idx]) == timestamp {
          return Some(buffer[idx]);
        }
        assert Window[i..][1..] == Window[i + 1..];
        i := i + 1;
      }
      return None;
    }

    /** `getCurrentValue`: the newest message, or `T{}` when empty. */
    method GetCurrentValue() returns (r: T)
      requires Valid()
      ensures Current(Window).Some? ==> r == Current(Window).value
      ensures Current(Window).None? ==> r == empty
    {
      if size == 0 {
        return empty;
      }
      var idx := if head == 0 then CAPACITY - 1 else head - 1;
      assert idx == (tail + size - 1) % CAPACITY;
      r := buffer[idx];
    }

    /** `size`. */
    method Size() returns (n: int)
      requires Valid()
      ensures n == |Window| && n <= CAPACITY
    {
      n := size;
    }
  }
}
