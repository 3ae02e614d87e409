/**
 The two-ended ring of the Broadcom driver (package/broadcom-57xx/src/queue.h)
 as one thread uses it.
 */
module Queue {
  import opened Options

  lemma Turn(i: nat, size: nat)
    requires i < size
    ensures (i + 1) % size == if i + 1 == size then 0 else i + 1
  {
  }

  class Ring<T(0)> {
    var head: nat
    var tail: nat
    var size: nat
    var entryCnt: int
    var slots: array<T>

    ghost predicate Valid()
      reads this
    {
      size >= 1 && slots.Length == size && head < size && tail < size && entryCnt == Len(head, tail, size)
    }

    static function Len(head: nat, tail: nat, size: nat): int {
      if tail <= head then head - tail else head + size - tail
    }

    /** The queued entries, tail end first. */
    ghost function Contents(): (s: seq<T>)
      requires Valid()
      reads this, slots
      ensures |s| == entryCnt < size
    {
      if tail <= head then slots[tail..head] else slots[tail..] + slots[..head]
    }

    /** QQ_InitQueue on a queue declared with room for queueSize entries */
    constructor (queueSize: nat)
      ensures Valid() && fresh(slots) && size == queueSize + 1 && Contents() == []
    {
      head, tail, size, entryCnt := 0, 0, queueSize + 1, 0;
      slots := new T[queueSize + 1];
    }

    /** QQ_Full */
    method Full() returns (r: bool)
      requires Valid()
      ensures r <==> |Contents()| == size - 1
    {
      Turn(head, size);
      r := (head + 1) % size == tail;
    }

    /** QQ_Empty */
    method Empty() returns (r: bool)
      requires Valid()
      ensures r <==> Contents() == []
    {
      r := head == tail;
    }

    /** QQ_PushHead */
    method PushHead(x: T) returns (ok: bool)
      requires Valid()
      modifies this`head, this`entryCnt, slots
      ensures Valid() && ok == (|old(Contents())| < size - 1)
      ensures Contents() == if ok then old(Contents()) + [x] else old(Contents())
    {
      var newHead := (head + 1) % size;
      Turn(head, size);
      ok := newHead != tail;
      if ok {
        slots[head] := x;
        head := newHead;
        entryCnt := entryCnt + 1;
      }
    }

    /** QQ_PushTail */
    method PushTail(x: T) returns (ok: bool)
      requires Valid()
      modifies this`tail, this`entryCnt, slots
      ensures Valid() && ok == (|old(Contents())| < size - 1)
      ensures Contents() == if ok then [x] + old(Contents()) else old(Contents())
    {
      var newTail := tail;
      if newTail == 0 {
        newTail := size;
      }
      newTail := newTail - 1;
      ok := newTail != head;
      if ok {
        slots[newTail] := x;
        tail := newTail;
        entryCnt := entryCnt + 1;
      }
    }

    /** QQ_PopHead */
    method PopHead() returns (r: Option<T>)
      requires Valid()
      modifies this`head, this`entryCnt
      ensures Valid() && (r.None? <==> old(Contents()) == [])
      ensures old(Contents()) == Contents() + if r.Some? then [r.value] else []
    {
      if head == tail {
        return None;
      }
      var newHead := head;
      if newHead == 0 {
        newHead := size;
      }
      newHead := newHead - 1;
      r := Some(slots[newHead]);
      head := newHead;
      entryCnt := entryCnt - 1;
    }

    /** QQ_PopTail */
    method PopTail() returns (r: Option<T>)
      requires Valid()
      modifies this`tail, this`entryCnt
      ensures Valid() && (r.None? <==> old(Contents()) == [])
      ensures old(Contents()) == (if r.Some? then [r.value] else []) + Contents()
    {
      if tail == head {
        return None;
      }
      r := Some(slots[tail]);
      Turn(tail, size);
      tail := (tail + 1) % size;
      entryCnt := entryCnt - 1;
    }

    /** QQ_GetHead: entries counted from the head end */
    method GetHead(idx: nat) returns (r: Option<T>)
      requires Valid()
      ensures r == if idx < |Contents()| then Some(Contents()[|Contents()| - 1 - idx]) else None
    {
      if idx >= entryCnt {
        return None;
      }
      var i;
      if head > idx {
        i := head - idx;
      } else {
        i := size - (idx - head);
      }
      r := Some(slots[i - 1]);
    }

    /** QQ_GetTail: entries counted from the tail end */
    method GetTail(idx: nat) returns (r: Option<T>)
      requires Valid()
      ensures r == if idx < |Contents()| then Some(Contents()[idx]) else None
    {
      if idx >= entryCnt {
        return None;
      }
      var i := idx + tail;
      if i >= size {
        i := i - size;
      }
      r := Some(slots[i]);
    }
  }
}
