/**
 Receive descriptors moving among the received, out-of-buffer and free queues
 of the Broadcom driver (package/broadcom-57xx/src/b57um.c:4470-4504,
 5039-5184, 5224-5272, 5458-5477).
 */
module Receive {
  type Packet = nat

  /** The contents of the three queues, tail end first. */
  datatype View = View(free: seq<Packet>, out: seq<Packet>, recv: seq<Packet>)

  /** The queues, and the descriptors whose skbuff is not NULL. */
  datatype Rx = Rx(q: View, buffered: set<Packet>)

  /** The answers of the environment; it refuses what is not listed. */
  predicate Nth(answers: seq<bool>, i: nat) {
    i < |answers| && answers[i]
  }

  function Count(w: View): nat {
    |w.free| + |w.out| + |w.recv|
  }

  function ToFree(x: Rx, p: Packet): Rx {
    Rx(x.q.(free := [p] + x.q.free), x.buffered + {p})
  }

  function ToOut(x: Rx, p: Packet): Rx {
    x.(q := x.q.(out := [p] + x.q.out))
  }

  /** One turn of MM_InitializeUmPackets. */
  function InitStep(x: Rx, got: bool): Rx
    requires x.q.free != []
  {
    var n := |x.q.free| - 1;
    var p, y := x.q.free[n], x.(q := x.q.(free := x.q.free[..n]));
    if p in x.buffered || got then ToFree(y, p) else ToOut(y, p)
  }

  /** After the first i turns. */
  function InitAfter(x: Rx, i: nat, alloc: seq<bool>): (r: Rx)
    requires i <= |x.q.free|
    ensures |r.q.free| >= |x.q.free| - i && Count(r.q) == Count(x.q)
  {
    if i == 0 then x else InitStep(InitAfter(x, i - 1, alloc), Nth(alloc, i - 1))
  }

  /** One received packet in MM_IndicateRxPackets. */
  function IndicateStep(x: Rx, tasklet: bool, bad: bool, got: bool): Rx
    requires x.q.recv != []
  {
    var n := |x.q.recv| - 1;
    var p, y := x.q.recv[n], x.(q := x.q.(recv := x.q.recv[..n]));
    if bad then
      if tasklet then ToOut(y, p) else y.(q := y.q.(free := [p] + y.q.free))
    else if tasklet || !got then
      ToOut(y.(buffered := y.buffered - {p}), p)
    else
      ToFree(y, p)
  }

  function IndicateAll(x: Rx, i: nat, tasklet: bool, bad: seq<bool>, alloc: seq<bool>): Rx
    decreases |x.q.recv|
  {
    if x.q.recv == [] then x
    else IndicateAll(IndicateStep(x, tasklet, Nth(bad, i), Nth(alloc, i)), i + 1, tasklet, bad, alloc)
  }

  /** One turn of replenish_rx_buffers that finds or gets a buffer. */
  function RefillStep(x: Rx): (r: Rx)
    requires x.q.out != []
    ensures Count(r.q) == Count(x.q) && |r.q.out| < |x.q.out|
  {
    var n := |x.q.out| - 1;
    ToFree(x.(q := x.q.(out := x.q.out[..n])), x.q.out[n])
  }

  /** How a turn ends: no descriptor, one that kept its buffer, no buffer to be had, or a new buffer. */
  datatype Outcome = Dry | Reused | Failed | Filled

  function OutcomeOf(x: Rx, got: bool): (o: Outcome)
    ensures o.Dry? <==> x.q.out == []
  {
    if x.q.out == [] then Dry
    else if x.q.out[|x.q.out| - 1] in x.buffered then Reused
    else if got then Filled
    else Failed
  }

  /** left is what max still allows, or negative for no limit; the flag says that an allocation failed. */
  function Refill(x: Rx, i: nat, left: int, alloc: seq<bool>): (Rx, bool)
    decreases |x.q.out|
  {
    match OutcomeOf(x, Nth(alloc, i))
    case Dry => (x, false)
    case Failed => (x, true)
    case Reused => Refill(RefillStep(x), i, left, alloc)
    case Filled =>
      if left == 1 then (RefillStep(x), false) else Refill(RefillStep(x), i + 1, left - 1, alloc)
  }

  /** One turn of bcm5700_free_remaining_rx_bufs: the buffer is freed on the way back to the free queue. */
  function DrainStep(x: Rx): Rx
    requires x.q.out != []
  {
    var n := |x.q.out| - 1;
    var p := x.q.out[n];
    Rx(x.q.(out := x.q.out[..n]).(free := [p] + x.q.free), x.buffered - {p})
  }

  function Drain(x: Rx): Rx
    decreases |x.q.out|
  {
    if x.q.out == [] then x else Drain(DrainStep(x))
  }

  /**
   The driver's three queues, each by what it holds: a pop takes from the head
   end, a push to a full queue is dropped (the contract of Queue.Ring).
   */
  class Receiver {
    const tasklet: bool         // BCM_TASKLET
    const room: nat             // MAX_RX_PACKET_DESC_COUNT
    var q: View
    var buffered: set<Packet>   // the descriptors whose skbuff is not NULL

    constructor (room: nat, tasklet: bool)
      ensures this.room == room && this.tasklet == tasklet && Now() == Rx(View([], [], []), {})
    {
      this.room, this.tasklet := room, tasklet;
      q, buffered := View([], [], []), {};
    }

    ghost function Now(): Rx
      reads this
    {
      Rx(q, buffered)
    }

    method PushFree(p: Packet)
      modifies this`q
      ensures q == if |old(q).free| < room then old(q).(free := [p] + old(q).free) else old(q)
    {
      if |q.free| < room { q := q.(free := [p] + q.free); }
    }

    method PushOut(p: Packet)
      modifies this`q
      ensures q == if |old(q).out| < room then old(q).(out := [p] + old(q).out) else old(q)
    {
      if |q.out| < room { q := q.(out := [p] + q.out); }
    }

    /** MM_InitializeUmPackets: alloc[i] says whether the buffer asked for in turn i was got. */
    method Initialize(count: nat, alloc: seq<bool>)
      requires Count(q) <= room && count <= |q.free|
      modifies this`q, this`buffered
      ensures Now() == InitAfter(old(Now()), count, alloc)
    {
      for i := 0 to count
        invariant Now() == InitAfter(old(Now()), i, alloc)
      {
        InitTurn(Nth(alloc, i));
      }
    }

    method InitTurn(got: bool)
      requires Count(q) <= room && q.free != []
      modifies this`q, this`buffered
      ensures Now() == InitStep(old(Now()), got)
    {
      var n := |q.free| - 1;
      var p := q.free[n];
      q := q.(free := q.free[..n]);
      if p !in buffered && !got {
        PushOut(p);
      } else {
        buffered := buffered + {p};
        PushFree(p);
      }
    }

    /** MM_IndicateRxPackets: bad[i] says that packet i is in error or too long, alloc[i] that a new buffer was got. */
    method Indicate(bad: seq<bool>, alloc: seq<bool>)
      requires Count(q) <= room
      modifies this`q, this`buffered
      ensures Now() == IndicateAll(old(Now()), 0, tasklet, bad, alloc)
    {
      var i := 0;
      while q.recv != []
        invariant Count(q) <= room
        invariant IndicateAll(Now(), i, tasklet, bad, alloc) == IndicateAll(old(Now()), 0, tasklet, bad, alloc)
        decreases |q.recv|
      {
        var n := |q.recv| - 1;
        var p := q.recv[n];
        q := q.(recv := q.recv[..n]);
        if Nth(bad, i) {
          if tasklet { PushOut(p); } else { PushFree(p); }
        } else if tasklet || !Nth(alloc, i) {
          buffered := buffered - {p};
          PushOut(p);
        } else {
          buffered := buffered + {p};
          PushFree(p);
        }
        i := i + 1;
      }
    }

    /** replenish_rx_buffers; the result says that not all buffers were allocated. */
    method Replenish(max: int, alloc: seq<bool>) returns (short: bool)
      requires Count(q) <= room
      modifies this`q, this`buffered
      ensures (Now(), short) == Refill(old(Now()), 0, if max > 0 then max else -1, alloc)
    {
      var allocCnt, i := 0, 0;
      ghost var left := if max > 0 then max else -1;
      short := false;
      while q.out != []
        invariant Count(q) <= room && !short
        invariant if max > 0 then left == max - allocCnt > 0 else left < 0
        invariant Refill(Now(), i, left, alloc) == Refill(old(Now()), 0, if max > 0 then max else -1, alloc)
        decreases |q.out|
      {
        ghost var x := Now();
        var n := |q.out| - 1;
        var p := q.out[n];
        q := q.(out := q.out[..n]);
        if p in buffered {
          PushFree(p);
          assert Now() == RefillStep(x) by { assert buffered + {p} == buffered; }
          continue;
        }
        if !Nth(alloc, i) {
          q := q.(out := q.out + [p]);
          assert q.out == x.q.out;
          short := true;
          break;
        }
        buffered := buffered + {p};
        PushFree(p);
        if max > 0 {
          allocCnt := allocCnt + 1;
          if allocCnt >= max {
            break;
          }
        }
        i, left := i + 1, left - 1;
      }
    }

    /** bcm5700_free_remaining_rx_bufs */
    method FreeRemaining()
      requires Count(q) <= room
      modifies this`q, this`buffered
      ensures Now() == Drain(old(Now()))
    {
      var cnt := |q.out|;
      for i := 0 to cnt
        invariant Count(q) <= room && |q.out| == cnt - i
        invariant Drain(Now()) == Drain(old(Now()))
      {
        var n := |q.out| - 1;
        var p := q.out[n];
        q := q.(out := q.out[..n]);
        buffered := buffered - {p};
        PushFree(p);
      }
    }
  }

  // ----- conservation -----

  function Occurs(s: seq<Packet>, p: Packet): nat {
    if s == [] then 0 else (if s[0] == p then 1 else 0) + Occurs(s[1..], p)
  }

  lemma {:induction false} OccursConcat(a: seq<Packet>, b: seq<Packet>, p: Packet)
    ensures Occurs(a + b, p) == Occurs(a, p) + Occurs(b, p)
  {
    if a == [] {
      assert a + b == b;
    } else {
      OccursConcat(a[1..], b, p);
      assert (a + b)[1..] == a[1..] + b;
    }
  }

  lemma {:induction false} OccursIn(s: seq<Packet>, p: Packet)
    ensures p in s <==> Occurs(s, p) > 0
  {
    if s != [] { OccursIn(s[1..], p); }
  }

  /** How often a descriptor is queued. */
  function Times(w: View, p: Packet): nat {
    Occurs(w.free, p) + Occurs(w.out, p) + Occurs(w.recv, p)
  }

  /** The queues together hold the same descriptors, each as often. */
  ghost predicate Conserved(a: View, b: View) {
    forall p :: Times(a, p) == Times(b, p)
  }

  ghost predicate Unique(w: View) {
    forall p :: Times(w, p) <= 1
  }

  ghost predicate FreeReady(x: Rx) {
    forall p :: p in x.q.free ==> p in x.buffered
  }

  ghost predicate RecvReady(x: Rx) {
    forall p :: p in x.q.recv ==> p in x.buffered
  }

  /** Taking the last entry of one queue and putting it in front of another. */
  lemma {:induction false} Move(from: seq<Packet>, to: seq<Packet>, p: Packet)
    requires from != []
    ensures var n := |from| - 1;
            Occurs(from[..n], p) + Occurs([from[n]] + to, p) == Occurs(from, p) + Occurs(to, p)
  {
    var n := |from| - 1;
    assert from == from[..n] + [from[n]];
    OccursConcat(from[..n], [from[n]], p);
    OccursConcat([from[n]], to, p);
  }

  lemma InitStepKeeps(x: Rx, got: bool)
    requires x.q.free != []
    ensures Conserved(x.q, InitStep(x, got).q)
  {
    var n := |x.q.free| - 1;
    forall p ensures Times(x.q, p) == Times(InitStep(x, got).q, p) {
      Move(x.q.free, x.q.out, p);
      Move(x.q.free, x.q.free[..n], p);
    }
  }

  lemma ConservedTrans(a: View, b: View, c: View)
    requires Conserved(a, b) && Conserved(b, c)
    ensures Conserved(a, c)
  {
    forall p ensures Times(a, p) == Times(c, p) { assert Times(a, p) == Times(b, p); }
  }

  lemma {:induction false} InitKeeps(x: Rx, i: nat, alloc: seq<bool>)
    requires i <= |x.q.free|
    ensures Conserved(x.q, InitAfter(x, i, alloc).q) && InitAfter(x, i, alloc).q.recv == x.q.recv
  {
    if i > 0 {
      InitKeeps(x, i - 1, alloc);
      var y := InitAfter(x, i - 1, alloc);
      InitStepKeeps(y, Nth(alloc, i - 1));
      ConservedTrans(x.q, y.q, InitStep(y, Nth(alloc, i - 1)).q);
    }
  }

  lemma InitStepFree(y: Rx, got: bool, done: seq<Packet>, wait: seq<Packet>, p: Packet) returns (done': seq<Packet>)
    requires y.q.free == done + wait + [p] && forall d :: d in done ==> d in y.buffered
    ensures InitStep(y, got).q.free == done' + wait
    ensures forall d :: d in done' ==> d in InitStep(y, got).buffered
  {
    assert y.q.free[..|y.q.free| - 1] == done + wait && y.q.free[|y.q.free| - 1] == p;
    done' := if p in y.buffered || got then [p] + done else done;
    assert [p] + (done + wait) == ([p] + done) + wait;
  }

  /**
   Initialisation takes the descriptors one by one from the head, each once:
   after i turns the first n - i are still waiting, and those put back before
   them have a buffer.
   */
  lemma {:induction false} InitOnce(x: Rx, i: nat, alloc: seq<bool>) returns (done: seq<Packet>)
    requires i <= |x.q.free|
    ensures InitAfter(x, i, alloc).q.free == done + x.q.free[..|x.q.free| - i]
    ensures forall p :: p in done ==> p in InitAfter(x, i, alloc).buffered
  {
    if i == 0 {
      done := [];
      assert x.q.free == [] + x.q.free[..|x.q.free|];
    } else {
      var before := InitOnce(x, i - 1, alloc);
      var wait, p := x.q.free[..|x.q.free| - i], x.q.free[|x.q.free| - i];
      assert x.q.free[..|x.q.free| - (i - 1)] == wait + [p];
      assert before + (wait + [p]) == before + wait + [p];
      done := InitStepFree(InitAfter(x, i - 1, alloc), Nth(alloc, i - 1), before, wait, p);
    }
  }

  /** After one turn per descriptor every descriptor on the free queue has a buffer. */
  lemma InitReady(x: Rx, alloc: seq<bool>)
    ensures FreeReady(InitAfter(x, |x.q.free|, alloc))
  {
    var done := InitOnce(x, |x.q.free|, alloc);
    assert done + x.q.free[..0] == done;
  }

  lemma {:induction false} IndicateStepKeeps(x: Rx, tasklet: bool, bad: bool, got: bool)
    requires x.q.recv != []
    ensures Conserved(x.q, IndicateStep(x, tasklet, bad, got).q)
  {
    forall p ensures Times(x.q, p) == Times(IndicateStep(x, tasklet, bad, got).q, p) {
      Move(x.q.recv, x.q.free, p);
      Move(x.q.recv, x.q.out, p);
    }
  }

  lemma {:induction false} IndicateStepReady(x: Rx, tasklet: bool, bad: bool, got: bool)
    requires x.q.recv != [] && Unique(x.q) && FreeReady(x) && RecvReady(x)
    ensures var y := IndicateStep(x, tasklet, bad, got); FreeReady(y) && RecvReady(y)
  {
    var n := |x.q.recv| - 1;
    var p := x.q.recv[n];
    assert x.q.recv == x.q.recv[..n] + [p];
    assert Times(x.q, p) <= 1;
    assert p !in x.q.free && p !in x.q.recv[..n] by {
      OccursConcat(x.q.recv[..n], [p], p);
      OccursIn(x.q.recv[..n], p);
      OccursIn(x.q.free, p);
    }
  }

  /** Indication empties the received queue, loses nothing, and puts only descriptors with buffers on the free queue. */
  lemma {:induction false} IndicateKeeps(x: Rx, i: nat, tasklet: bool, bad: seq<bool>, alloc: seq<bool>)
    requires Unique(x.q) && FreeReady(x) && RecvReady(x)
    ensures var y := IndicateAll(x, i, tasklet, bad, alloc);
            Conserved(x.q, y.q) && FreeReady(y) && y.q.recv == []
    decreases |x.q.recv|
  {
    if x.q.recv != [] {
      var y := IndicateStep(x, tasklet, Nth(bad, i), Nth(alloc, i));
      IndicateStepKeeps(x, tasklet, Nth(bad, i), Nth(alloc, i));
      IndicateStepReady(x, tasklet, Nth(bad, i), Nth(alloc, i));
      assert Unique(y.q) by { forall p ensures Times(y.q, p) <= 1 { assert Times(x.q, p) == Times(y.q, p); } }
      IndicateKeeps(y, i + 1, tasklet, bad, alloc);
    }
  }

  lemma RefillStepKeeps(x: Rx)
    requires x.q.out != [] && FreeReady(x)
    ensures var y := RefillStep(x); Conserved(x.q, y.q) && FreeReady(y) && y.q.recv == x.q.recv
  {
    forall p ensures Times(x.q, p) == Times(RefillStep(x).q, p) { Move(x.q.out, x.q.free, p); }
  }

  /** Replenishing loses nothing; it stops short only with a descriptor in front that has no buffer. */
  lemma {:induction false} RefillKeeps(x: Rx, i: nat, left: int, alloc: seq<bool>)
    requires FreeReady(x)
    ensures var (y, short) := Refill(x, i, left, alloc);
            && Conserved(x.q, y.q) && FreeReady(y) && y.q.recv == x.q.recv
            && (!short && left < 0 ==> y.q.out == [])
            && (short ==> y.q.out != [] && y.q.out[|y.q.out| - 1] !in y.buffered)
    decreases |x.q.out|
  {
    if x.q.out != [] {
      RefillStepKeeps(x);
      match OutcomeOf(x, Nth(alloc, i))
      case Reused => RefillKeeps(RefillStep(x), i, left, alloc);
      case Filled => if left != 1 { RefillKeeps(RefillStep(x), i + 1, left - 1, alloc); }
      case _ =>
    }
  }

  /** The descriptors that got a buffer. */
  function NewBuffers(x: Rx, y: Rx): set<Packet> {
    y.buffered - x.buffered
  }

  lemma {:induction false} GrowsByOne(a: set<Packet>, b: set<Packet>, c: set<Packet>, p: Packet)
    requires a <= b && b <= c && b - a == {p}
    ensures |c - a| == |c - b| + 1
  {
    assert c - a == (c - b) + {p};
  }

  /** The first n answers from place i on are true. */
  predicate AllGot(alloc: seq<bool>, i: nat, n: nat) {
    forall k :: i <= k < i + n ==> Nth(alloc, k)
  }

  ghost predicate Limited(x: Rx, y: Rx, short: bool, i: nat, left: int, alloc: seq<bool>) {
    var n := |NewBuffers(x, y)|;
    && x.buffered <= y.buffered && AllGot(alloc, i, n) && (left > 0 ==> n <= left)
    && (short ==> !Nth(alloc, i + n)) && (!short && y.q.out != [] ==> left > 0 && n == left)
  }

  lemma FilledOne(x: Rx)
    requires x.q.out != [] && x.q.out[|x.q.out| - 1] !in x.buffered
    ensures var z, p := RefillStep(x), x.q.out[|x.q.out| - 1];
            x.buffered <= z.buffered && z.buffered - x.buffered == {p}
  {
    assert RefillStep(x).buffered - x.buffered == {x.q.out[|x.q.out| - 1]};
  }

  lemma LimitedMore(x: Rx, z: Rx, y: Rx, p: Packet, short: bool, i: nat, left: int, alloc: seq<bool>)
    requires x.buffered <= z.buffered && z.buffered - x.buffered == {p} && Nth(alloc, i) && left != 1
    requires Limited(z, y, short, i + 1, left - 1, alloc)
    ensures Limited(x, y, short, i, left, alloc)
  {
    GrowsByOne(x.buffered, z.buffered, y.buffered, p);
    var n := |NewBuffers(z, y)|;
    forall k | i <= k < i + (n + 1) ensures Nth(alloc, k) {}
  }

  lemma LimitedLast(x: Rx, z: Rx, i: nat, alloc: seq<bool>, p: Packet)
    requires x.buffered <= z.buffered && z.buffered - x.buffered == {p} && Nth(alloc, i)
    ensures Limited(x, z, false, i, 1, alloc)
  {
    assert NewBuffers(x, z) == {p};
  }

  /**
   One answer is used for every new buffer; with a limit there are at most that many. It reports a shortage exactly
   where the next answer is no, and stops early only at the limit.
   */
  lemma {:induction false} RefillLimited(x: Rx, i: nat, left: int, alloc: seq<bool>)
    ensures Limited(x, Refill(x, i, left, alloc).0, Refill(x, i, left, alloc).1, i, left, alloc)
    decreases |x.q.out|
  {
    match OutcomeOf(x, Nth(alloc, i))
    case Reused =>
      assert RefillStep(x).buffered == x.buffered;
      RefillLimited(RefillStep(x), i, left, alloc);
    case Filled =>
      var z, p, r := RefillStep(x), x.q.out[|x.q.out| - 1], Refill(x, i, left, alloc);
      FilledOne(x);
      if left == 1 {
        LimitedLast(x, z, i, alloc, p);
      } else {
        RefillLimited(z, i + 1, left - 1, alloc);
        LimitedMore(x, z, r.0, p, r.1, i, left, alloc);
      }
    case _ => assert NewBuffers(x, x) == {};
  }

  /** A descriptor that is not among the received ones stays where it is, with or without its buffer. */
  lemma {:induction false} IndicateOthers(x: Rx, i: nat, tasklet: bool, bad: seq<bool>, alloc: seq<bool>, p: Packet)
    requires p !in x.q.recv
    ensures var y := IndicateAll(x, i, tasklet, bad, alloc);
            (p in y.buffered <==> p in x.buffered) && (p in y.q.free <==> p in x.q.free)
    decreases |x.q.recv|
  {
    if x.q.recv != [] {
      IndicateOthers(IndicateStep(x, tasklet, Nth(bad, i), Nth(alloc, i)), i + 1, tasklet, bad, alloc, p);
    }
  }

  /**
   The k-th received descriptor keeps a buffer if its packet was bad, which is then not handed on, or if it got a new
   one; without a tasklet these go back to the free queue, and all others wait for a buffer.
   */
  lemma {:induction false} IndicateExact(x: Rx, i: nat, tasklet: bool, bad: seq<bool>, alloc: seq<bool>, k: nat)
    requires Unique(x.q) && RecvReady(x) && k < |x.q.recv|
    ensures var (y, p) := (IndicateAll(x, i, tasklet, bad, alloc), x.q.recv[|x.q.recv| - 1 - k]);
            && (p in y.buffered <==> Nth(bad, i + k) || (!tasklet && Nth(alloc, i + k)))
            && (p in y.q.free <==> !tasklet && (Nth(bad, i + k) || Nth(alloc, i + k)))
    decreases |x.q.recv|
  {
    var n := |x.q.recv| - 1;
    var y := IndicateStep(x, tasklet, Nth(bad, i), Nth(alloc, i));
    IndicateStepKeeps(x, tasklet, Nth(bad, i), Nth(alloc, i));
    assert Unique(y.q) by { forall p ensures Times(y.q, p) <= 1 { assert Times(x.q, p) == Times(y.q, p); } }
    LastReceived(x);
    if k == 0 {
      IndicateOthers(y, i + 1, tasklet, bad, alloc, x.q.recv[n]);
    } else {
      IndicateExact(y, i + 1, tasklet, bad, alloc, k - 1);
    }
  }

  lemma LastReceived(x: Rx)
    requires Unique(x.q) && x.q.recv != []
    ensures var n := |x.q.recv| - 1; x.q.recv[n] !in x.q.recv[..n] && x.q.recv[n] !in x.q.free
  {
    var n := |x.q.recv| - 1;
    var p := x.q.recv[n];
    assert x.q.recv == x.q.recv[..n] + [p];
    assert Times(x.q, p) <= 1;
    OccursConcat(x.q.recv[..n], [p], p);
    OccursIn(x.q.recv[..n], p);
    OccursIn(x.q.free, p);
  }

  lemma FreeDistinct(x: Rx, a: nat, b: nat)
    requires Unique(x.q) && a < |x.q.free| && b < |x.q.free|
    ensures x.q.free[a] == x.q.free[b] <==> a == b
    ensures x.q.free[a] !in x.q.out
  {
    var f, p := x.q.free, x.q.free[a];
    assert Times(x.q, p) <= 1;
    OccursIn(x.q.out, p);
    OccursIn(f, p);
    assert f == f[..a] + ([p] + f[a + 1..]);
    OccursConcat(f[..a], [p] + f[a + 1..], p);
    OccursConcat([p], f[a + 1..], p);
    OccursIn(f[..a], p);
    OccursIn(f[a + 1..], p);
    if b < a { assert f[..a][b] == f[b]; }
    if a < b { assert f[a + 1..][b - a - 1] == f[b]; }
  }

  /** The descriptor of turn i. */
  lemma InitNext(x: Rx, i: nat, alloc: seq<bool>)
    requires i < |x.q.free|
    ensures var f := InitAfter(x, i, alloc).q.free; f != [] && f[|f| - 1] == x.q.free[|x.q.free| - 1 - i]
  {
    var done := InitOnce(x, i, alloc);
  }

  /** A turn is about the descriptor in front and no other. */
  lemma InitOthers(y: Rx, got: bool, p: Packet)
    requires y.q.free != [] && p != y.q.free[|y.q.free| - 1]
    ensures p in InitStep(y, got).buffered <==> p in y.buffered
    ensures p in InitStep(y, got).q.out <==> p in y.q.out
  {
  }

  lemma InitOwn(y: Rx, got: bool)
    requires y.q.free != [] && y.q.free[|y.q.free| - 1] !in y.q.out
    ensures var z, p := InitStep(y, got), y.q.free[|y.q.free| - 1];
            (p in z.buffered <==> p in y.buffered || got) && (p in z.q.out <==> p !in z.buffered)
  {
  }

  /** Before its turn a descriptor is as it was. */
  lemma {:induction false} InitWaits(x: Rx, i: nat, alloc: seq<bool>, k: nat)
    requires Unique(x.q) && i <= k < |x.q.free|
    ensures var (y, p) := (InitAfter(x, i, alloc), x.q.free[|x.q.free| - 1 - k]);
            (p in y.buffered <==> p in x.buffered) && p !in y.q.out
    decreases i
  {
    FreeDistinct(x, |x.q.free| - 1 - k, |x.q.free| - 1 - k);
    if i > 0 {
      InitWaits(x, i - 1, alloc, k);
      InitNext(x, i - 1, alloc);
      FreeDistinct(x, |x.q.free| - 1 - k, |x.q.free| - i);
      InitOthers(InitAfter(x, i - 1, alloc), Nth(alloc, i - 1), x.q.free[|x.q.free| - 1 - k]);
    }
  }

  predicate Served(x: Rx, y: Rx, p: Packet, got: bool) {
    (p in y.buffered <==> p in x.buffered || got) && (p in y.q.out <==> p !in y.buffered)
  }

  lemma ServedStays(x: Rx, y: Rx, p: Packet, got: bool, next: bool)
    requires Served(x, y, p, got) && y.q.free != [] && p != y.q.free[|y.q.free| - 1]
    ensures Served(x, InitStep(y, next), p, got)
  {
    InitOthers(y, next, p);
  }

  lemma InitTurnOf(x: Rx, k: nat, alloc: seq<bool>)
    requires Unique(x.q) && k < |x.q.free|
    ensures var (y, p) := (InitAfter(x, k + 1, alloc), x.q.free[|x.q.free| - 1 - k]);
            Served(x, y, p, Nth(alloc, k))
  {
    var y := InitAfter(x, k, alloc);
    InitNext(x, k, alloc);
    InitWaits(x, k, alloc, k);
    assert InitAfter(x, k + 1, alloc) == InitStep(y, Nth(alloc, k));
    InitOwn(y, Nth(alloc, k));
  }

  /** After its turn a descriptor has a buffer if it had one or got one, and waits for one otherwise. */
  lemma {:induction false} InitExact(x: Rx, i: nat, alloc: seq<bool>, k: nat)
    requires Unique(x.q) && k < i <= |x.q.free|
    ensures var (y, p) := (InitAfter(x, i, alloc), x.q.free[|x.q.free| - 1 - k]);
            Served(x, y, p, Nth(alloc, k))
    decreases i
  {
    if k == i - 1 {
      InitTurnOf(x, k, alloc);
    } else {
      InitNext(x, i - 1, alloc);
      InitExact(x, i - 1, alloc, k);
      FreeDistinct(x, |x.q.free| - 1 - k, |x.q.free| - i);
      ServedStays(x, InitAfter(x, i - 1, alloc), x.q.free[|x.q.free| - 1 - k], Nth(alloc, k), Nth(alloc, i - 1));
    }
  }

  /** The final free brings every waiting descriptor back without a buffer. */
  lemma {:induction false} DrainKeeps(x: Rx)
    ensures var y := Drain(x);
            && Conserved(x.q, y.q) && y.q.recv == x.q.recv && y.q.out == []
            && y.buffered <= x.buffered && (forall p :: p in x.q.out ==> p in y.q.free && p !in y.buffered)
            && (forall p :: p in x.q.free ==> p in y.q.free)
    decreases |x.q.out|
  {
    if x.q.out != [] {
      forall p ensures Times(x.q, p) == Times(DrainStep(x).q, p) { Move(x.q.out, x.q.free, p); }
      DrainKeeps(DrainStep(x));
      var n := |x.q.out| - 1;
      assert x.q.out == x.q.out[..n] + [x.q.out[n]];
    }
  }

  // ----- whole runs -----

  /** What happens between initialisation and shutdown; in Arrive the chip fills the oldest free descriptor. */
  datatype Event =
    | Arrive
    | Indicate(bad: seq<bool>, alloc: seq<bool>)
    | Replenish(left: int, alloc: seq<bool>)

  function Happen(x: Rx, tasklet: bool, e: Event): Rx {
    match e
    case Arrive =>
      if x.q.free == [] then x
      else
        var n := |x.q.free| - 1;
        x.(q := x.q.(free := x.q.free[..n]).(recv := [x.q.free[n]] + x.q.recv))
    case Indicate(bad, alloc) => IndicateAll(x, 0, tasklet, bad, alloc)
    case Replenish(left, alloc) => Refill(x, 0, left, alloc).0
  }

  function After(x: Rx, tasklet: bool, events: seq<Event>): Rx {
    if events == [] then x else Happen(After(x, tasklet, events[..|events| - 1]), tasklet, events[|events| - 1])
  }

  /** No descriptor twice, and none without a buffer where one is needed. */
  ghost predicate Sound(x: Rx) {
    Unique(x.q) && FreeReady(x) && RecvReady(x)
  }

  lemma HappenKeeps(x: Rx, tasklet: bool, e: Event)
    requires Sound(x)
    ensures var y := Happen(x, tasklet, e); Conserved(x.q, y.q) && Sound(y)
  {
    var y := Happen(x, tasklet, e);
    match e
    case Arrive =>
      if x.q.free != [] {
        forall p ensures Times(x.q, p) == Times(y.q, p) { Move(x.q.free, x.q.recv, p); }
      }
    case Indicate(bad, alloc) => IndicateKeeps(x, 0, tasklet, bad, alloc);
    case Replenish(left, alloc) =>
      RefillKeeps(x, 0, left, alloc);
      RefillBuffers(x, 0, left, alloc);
    forall p ensures Times(y.q, p) <= 1 { assert Times(x.q, p) == Times(y.q, p); }
  }

  lemma {:induction false} RefillBuffers(x: Rx, i: nat, left: int, alloc: seq<bool>)
    ensures x.buffered <= Refill(x, i, left, alloc).0.buffered
    decreases |x.q.out|
  {
    match OutcomeOf(x, Nth(alloc, i))
    case Reused => RefillBuffers(RefillStep(x), i, left, alloc);
    case Filled => if left != 1 { RefillBuffers(RefillStep(x), i + 1, left - 1, alloc); }
    case _ =>
  }

  /** Over every run, in any order and with any failures, no descriptor is lost, doubled or put out without a buffer. */
  lemma {:induction false} RunConserves(x: Rx, tasklet: bool, events: seq<Event>)
    requires Sound(x)
    ensures var y := After(x, tasklet, events); Conserved(x.q, y.q) && Sound(y)
  {
    if events != [] {
      var n := |events| - 1;
      RunConserves(x, tasklet, events[..n]);
      var y := After(x, tasklet, events[..n]);
      HappenKeeps(y, tasklet, events[n]);
      ConservedTrans(x.q, y.q, Happen(y, tasklet, events[n]).q);
    }
  }

  /** From all descriptors on the free queue to the final free: the same descriptors, once each. */
  lemma LifetimeConserves(x: Rx, tasklet: bool, alloc: seq<bool>, events: seq<Event>)
    requires Unique(x.q) && x.q.recv == []
    ensures var y := After(InitAfter(x, |x.q.free|, alloc), tasklet, events);
            Sound(y) && Conserved(x.q, y.q) && Conserved(x.q, Drain(y).q)
  {
    var x0 := InitAfter(x, |x.q.free|, alloc);
    InitKeeps(x, |x.q.free|, alloc);
    InitReady(x, alloc);
    assert Unique(x0.q) by { forall p ensures Times(x0.q, p) <= 1 { assert Times(x.q, p) == Times(x0.q, p); } }
    RunConserves(x0, tasklet, events);
    var y := After(x0, tasklet, events);
    ConservedTrans(x.q, x0.q, y.q);
    DrainKeeps(y);
    ConservedTrans(x.q, y.q, Drain(y).q);
  }
}
