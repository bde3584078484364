/** The Python `RingBuffer`: a list of RING_BUFFER_SIZE slots that starts
    out as `None` everywhere, used circularly with `_head`, `_tail` and
    `_size`, and a dict from message id to `True`. Messages are dicts read
    through `message['id']`; `idOf` stands for that lookup. The slots hold
    `Option<T>` so that the initial `None`s are represented; the invariant
    shared with the C++ class is stated over the slots, with every slot of
    the window holding `Some`. */
module RingBufferPy {
  import opened Common
  import opened History

  /** The stored messages as the slots hold them. */
  function Lift<T>(w: seq<T>): (r: seq<Option<T>>)
    ensures |r| == |w|
    ensures forall i :: 0 <= i < |w| ==> r[i] == Some(w[i])
  {
    seq(|w|, i requires 0 <= i < |w| => Some(w[i]))
  }

  /** The id of a slot: the message's id for `Some`; `None` never lies in
      the window, so its value is irrelevant. */
  function SlotId<T>(idOf: T -> int): Option<T> -> int {
    (o: Option<T>) => if o.Some? then idOf(o.value) else 0
  }

  lemma LiftHas<T>(w: seq<T>, idOf: T -> int, k: int)
    ensures Has(Lift(w), SlotId(idOf), k) <==> Has(w, idOf, k)
  {
    if Has(w, idOf, k) {
      var i :| 0 <= i < |w| && idOf(w[i]) == k;
      assert SlotId(idOf)(Lift(w)[i]) == k;
    }
  }

  /** `add` on the slots is `add` on the messages. */
  lemma LiftAdd<T>(w: seq<T>, idOf: T -> int, x: T)
    ensures Lift(Add(w, idOf, x)) == Add(Lift(w), SlotId(idOf), Some(x))
  {
    LiftHas(w, idOf, idOf(x));
    if !Has(w, idOf, idOf(x)) {
      if |w| < CAPACITY {
        assert Lift(w + [x]) == Lift(w) + [Some(x)];
      } else {
        assert Lift(w[1..] + [x]) == Lift(w)[1..] + [Some(x)];
      }
    }
  }

  class RingBuffer<T> {
    /** `message['id']`. */
    const idOf: T -> int

    /** `_buffer`. */
    const buffer: array<Option<T>>
    var head: int
    var tail: int
    var size: int
    /** `_message_map`. */
    var messageMap: map<int, bool>
    /** The stored messages, oldest first. */
    ghost var Window: seq<T>

    ghost predicate Valid()
      reads this, buffer
    {
      buffer.Length == CAPACITY &&
      RingInv(buffer[..], head, tail, size, messageMap, Lift(Window), SlotId(idOf))
    }

    /** `__init__`: twenty-five `None` slots, zero indices, an empty dict. */
    constructor(idOf: T -> int)
      ensures Valid() && fresh(buffer)
      ensures this.idOf == idOf
      ensures Window == []
    {
      this.idOf := idOf;
      buffer := new Option<T>[CAPACITY](_ => None);
      head, tail, size := 0, 0, 0;
      messageMap := map[];
      Window := [];
      assert Lift<T>([]) == [];
    }

    /** `reset`: indices back to zero and the dict cleared; the list keeps
        its old contents, which no longer belong to the window. */
    method Reset()
      requires Valid()
      modifies this
      ensures Valid()
      ensures Window == []
      ensures head == 0 && tail == 0 && messageMap == map[]
    {
      head, tail, size := 0, 0, 0;
      messageMap := map[];
      Window := [];
      assert Lift<T>([]) == [];
    }

    /** `add`: `None` is rejected (logged, nothing stored); a message whose
        id is present is ignored; otherwise as in C++. */
    method Add(message: Option<T>)
      requires Valid()
      modifies this, buffer
      ensures Valid()
      ensures message.None? ==> Window == old(Window)
      ensures message.Some? ==> Window == History.Add(old(Window), idOf, message.value)
    {
      if message.None? {
        return;
      }
      var timestamp := idOf(message.value);
      var present := Contains(timestamp);
      if present {
        return;
      }
      Insert(message.value);
    }

    /** The part of `add` after the checks: evict when full, then write at
        `_head`. */
    method Insert(message: T)
      requires Valid()
      requires !Has(Window, idOf, idOf(message))
      modifies this, buffer
      ensures Valid()
      ensures Window == History.Add(old(Window), idOf, message)
    {
      var timestamp := idOf(message);
      ghost var slots, h, t, n, m := buffer[..], head, tail, size, messageMap;
      ghost var lw, sid := Lift(Window), SlotId(idOf);
      LiftHas(Window, idOf, timestamp);
      LiftAdd(Window, idOf, message);
      RingAddInv(slots, h, t, n, m, lw, sid, Some(message));
      ghost var m' := (if n < CAPACITY then m else m - {sid(slots[t])})[timestamp := true];
      if size < CAPACITY {
        size := size + 1;
      } else {
        assert buffer[tail] == lw[0];
        var oldId := idOf(buffer[tail].value);
        assert oldId == sid(slots[t]);
        messageMap := messageMap - {oldId};
        tail := (tail + 1) % CAPACITY;
      }
      buffer[head] := Some(message);
      messageMap := messageMap[timestamp := true];
      head := (head + 1) % CAPACITY;
      Window := History.Add(Window, idOf, message);
      assert buffer[..] == slots[h := Some(message)];
      assert tail == (if n < CAPACITY then t else (t + 1) % CAPACITY);
      assert size == (if n < CAPACITY then n + 1 else n);
      assert messageMap == m';
      assert Lift(Window) == History.Add(lw, sid, Some(message));
    }

    /** `contains` (and `__contains__`, the `in` operator). */
    method Contains(timestamp: int) returns (found: bool)
      requires Valid()
      ensures found <==> Has(Window, idOf, timestamp)
    {
      LiftHas(Window, idOf, timestamp);
      found := timestamp in messageMap;
    }

    /** `get` (and `__getitem__`): scans from the oldest slot, skipping an
        empty slot, and returns the first message with the id. */
    method Get(timestamp: int) returns (r: Option<T>)
      requires Valid()
      ensures r == Find(Window, idOf, timestamp)
    {
      var i := 0;
      while i < size
        invariant 0 <= i <= size
        invariant Find(Window, idOf, timestamp) == Find(Window[i..], idOf, timestamp)
      {
        var idx := (tail + i) % CAPACITY;
        assert Lift(Window)[i] == buffer[idx];
        assert Window[i..][0] == Window[i];
        var slot := buffer[idx];
        if slot.Some? && idOf(slot.value) == timestamp {
          return slot;
        }
        assert Window[i..][1..] == Window[i + 1..];
        i := i + 1;
      }
      return None;
    }

    /** `getCurrentValue`: the slot before `_head`, or `None` when empty. */
    method GetCurrentValue() returns (r: Option<T>)
      requires Valid()
      ensures r == Current(Window)
    {
      if size == 0 {
        return None;
      }
      var idx := if head > 0 then head - 1 else CAPACITY - 1;
      assert idx == (tail + size - 1) % CAPACITY;
      assert Lift(Window)[size - 1] == buffer[idx];
      r := buffer[idx];
    }

    /** `size` (and `__len__`). */
    method Size() returns (n: int)
      requires Valid()
      ensures n == |Window| && n <= CAPACITY
    {
      n := size;
    }
  }
}
