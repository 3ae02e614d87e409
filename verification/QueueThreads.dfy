/**
 The ring between a thread that pushes at the tail and an interrupt that pops
 at the head, without a lock (queue.h:192-253): every read and write of a
 shared field is a step of its own, and steps interleave freely.
 */
module QueueThreads {

  type Entry = nat

  /** QQ_PushTail between its shared accesses. */
  datatype Producer =
    | Idle
    | GotTail(x: Entry, tail: nat)     // Tail read and decremented
    | NotFull(x: Entry, tail: nat)     // Head read, there is room
    | Stored(x: Entry, tail: nat)      // Array[Tail] written
    | Published                        // Tail written

  /** QQ_PopHead between its shared accesses. */
  datatype Consumer =
    | Idle
    | GotHead(head: nat)               // Head read
    | NotEmpty(head: nat)              // Tail read, Head decremented
    | Loaded(head: nat, x: Entry)      // Array[Head] read
    | Taken                            // Head written

  /** The shared fields, both threads, and the entries pushed and popped so far. */
  datatype State = State(size: nat, head: nat, tail: nat, cnt: int, slots: seq<Entry>,
                         p: Producer, c: Consumer, pushed: seq<Entry>, popped: seq<Entry>)

  function Pred(i: nat, size: nat): int {
    if i == 0 then size - 1 else i - 1
  }

  predicate Init(s: State) {
    && s.size >= 1 && |s.slots| == s.size && s.head == s.tail == 0 && s.cnt == 0
    && s.p == Producer.Idle && s.c == Consumer.Idle && s.pushed == [] && s.popped == []
  }

  /** QQ_PushTail(x) is called and reads Tail. */
  function Begin(s: State, x: Entry): State
    requires s.size >= 1
  {
    s.(p := GotTail(x, Pred(s.tail, s.size)))
  }

  ghost predicate ProducerStep(s: State, t: State) {
    match s.p
    case Idle => s.size >= 1 && exists x :: t == Begin(s, x)
    case GotTail(x, tail) => t == if tail == s.head then s.(p := Producer.Idle) else s.(p := NotFull(x, tail))
    case NotFull(x, tail) => tail < |s.slots| && t == s.(slots := s.slots[tail := x], p := Stored(x, tail))
    case Stored(x, tail) => t == s.(tail := tail, p := Published, pushed := s.pushed + [x])
    case Published => t == s.(cnt := s.cnt + 1, p := Producer.Idle)
  }

  ghost predicate ConsumerStep(s: State, t: State) {
    match s.c
    case Idle => t == s.(c := GotHead(s.head))
    case GotHead(head) =>
      s.size >= 1 && t == if head == s.tail then s.(c := Consumer.Idle) else s.(c := NotEmpty(Pred(head, s.size)))
    case NotEmpty(head) => head < |s.slots| && t == s.(c := Loaded(head, s.slots[head]))
    case Loaded(head, x) => t == s.(head := head, c := Taken, popped := s.popped + [x])
    case Taken => t == s.(cnt := s.cnt - 1, c := Consumer.Idle)
  }

  ghost predicate Next(s: State, t: State) {
    ProducerStep(s, t) || ConsumerStep(s, t)
  }

  ghost predicate Run(r: seq<State>) {
    r != [] && Init(r[0]) && forall i, j :: 0 <= i < j < |r| && j == i + 1 ==> Next(r[i], r[j])
  }

  // ----- where the n-th entry lives -----

  /** The value of Head or Tail after n pops or pushes. */
  function Pos(n: nat, size: nat): (r: nat)
    requires size >= 1
    ensures r < size
  {
    if n == 0 then 0 else Pred(Pos(n - 1, size), size)
  }

  lemma {:induction false} PosAhead(n: nat, d: nat, size: nat)
    requires size >= 1 && d <= size
    ensures Pos(n + d, size) == if d <= Pos(n, size) then Pos(n, size) - d else Pos(n, size) + size - d
  {
    if d > 0 { PosAhead(n, d - 1, size); }
  }

  /** Two counts less than a turn apart share a position only if they are equal. */
  lemma PosDistinct(a: nat, b: nat, size: nat)
    requires size >= 1 && a <= b < a + size
    ensures Pos(a, size) == Pos(b, size) <==> a == b
  {
    PosAhead(a, b - a, size);
  }

  // ----- the invariant -----

  /** Every entry pushed and not popped is in its slot. */
  ghost predicate InPlace(s: State) {
    s.size >= 1 && |s.slots| == s.size &&
    forall i :: |s.popped| <= i < |s.pushed| ==> s.slots[Pos(i + 1, s.size)] == s.pushed[i]
  }

  ghost predicate Inv(s: State) {
    var n, k, size := |s.pushed|, |s.popped|, s.size;
    && size >= 1 && |s.slots| == size
    && k <= n < k + size
    && s.tail == Pos(n, size) && s.head == Pos(k, size)
    && s.popped == s.pushed[..k]
    && InPlace(s)
    && s.cnt == n - k - (if s.p == Published then 1 else 0) + (if s.c == Taken then 1 else 0)
    && (match s.p
        case Idle => true
        case GotTail(_, tail) => tail == Pos(n + 1, size)
        case NotFull(_, tail) => tail == Pos(n + 1, size) && n + 1 < k + size
        case Stored(x, tail) => tail == Pos(n + 1, size) && n + 1 < k + size && s.slots[tail] == x
        case Published => true)
    && (match s.c
        case Idle => true
        case GotHead(head) => head == s.head
        case NotEmpty(head) => head == Pos(k + 1, size) && k < n
        case Loaded(head, x) => head == Pos(k + 1, size) && k < n && x == s.pushed[k]
        case Taken => true)
  }

  lemma ProducerKeeps(s: State, t: State)
    requires Inv(s) && ProducerStep(s, t)
    ensures Inv(t)
    ensures s.p.GotTail? && t.p == Producer.Idle ==> |s.pushed| - |s.popped| == s.size - 1
  {
    var n, k, size := |s.pushed|, |s.popped|, s.size;
    match s.p
    case Idle =>
    case GotTail(_, _) =>
      // Head stands at Pos(k), which is also Pos(k + size)
      PosAhead(k, size, size);
      PosDistinct(n + 1, k + size, size);
    case NotFull(_, _) => StoreKeeps(s, t);
    case Stored(_, _) =>
    case Published =>
  }

  /** The slot written is none that holds an entry. */
  lemma StoreKeeps(s: State, t: State)
    requires Inv(s) && ProducerStep(s, t) && s.p.NotFull?
    ensures Inv(t)
  {
    var n, k, size := |s.pushed|, |s.popped|, s.size;
    forall i | k <= i < n ensures t.slots[Pos(i + 1, size)] == t.pushed[i] {
      PosDistinct(i + 1, n + 1, size);
    }
  }

  lemma ConsumerKeeps(s: State, t: State)
    requires Inv(s) && ConsumerStep(s, t)
    ensures Inv(t)
    ensures s.c.GotHead? && t.c == Consumer.Idle ==> |s.pushed| == |s.popped|
  {
    var n, k, size := |s.pushed|, |s.popped|, s.size;
    match s.c
    case Idle =>
    case GotHead(_) =>
      PosDistinct(k, n, size);
    case NotEmpty(head) =>
    case Loaded(head, x) =>
      assert s.pushed[..k + 1] == s.pushed[..k] + [s.pushed[k]];
    case Taken =>
  }

  /**
   In every run, popped entries are the first of the pushed ones, nothing is
   lost or doubled in between, and EntryCnt is off by at most one.
   */
  lemma {:induction false} RunSafe(r: seq<State>, i: nat)
    requires Run(r) && i < |r|
    ensures Inv(r[i])
    ensures r[i].popped <= r[i].pushed && |r[i].pushed| - |r[i].popped| <= r[i].size - 1
    ensures -1 <= r[i].cnt - (|r[i].pushed| - |r[i].popped|) <= 1
  {
    if i > 0 {
      RunSafe(r, i - 1);
      assert Next(r[i - 1], r[i]);
      if ProducerStep(r[i - 1], r[i]) { ProducerKeeps(r[i - 1], r[i]); } else { ConsumerKeeps(r[i - 1], r[i]); }
    } else {
      assert r[0].pushed[..0] == [];
    }
  }

  /** The counter can fall below zero: the entry was popped before its push was counted. */
  lemma CounterBelowZero() returns (r: seq<State>)
    ensures Run(r) && r[|r| - 1].cnt == -1 && r[|r| - 1].pushed == r[|r| - 1].popped
  {
    var s0 := State(2, 0, 0, 0, [0, 0], Producer.Idle, Consumer.Idle, [], []);
    var s1 := s0.(p := GotTail(7, 1));
    var s2 := s1.(p := NotFull(7, 1));
    var s3 := s2.(slots := [0, 7], p := Stored(7, 1));
    var s4 := s3.(tail := 1, p := Published, pushed := [7]);
    var s5 := s4.(c := GotHead(0));
    var s6 := s5.(c := NotEmpty(1));
    var s7 := s6.(c := Loaded(1, 7));
    var s8 := s7.(head := 1, c := Taken, popped := [7]);
    var s9 := s8.(cnt := -1, c := Consumer.Idle);
    assert s1 == Begin(s0, 7);
    assert Next(s0, s1) && Next(s1, s2) && Next(s3, s4) && Next(s4, s5);
    assert Next(s2, s3) by { assert s2.slots[1 := 7] == [0, 7]; }
    assert Next(s5, s6) && Next(s6, s7) && Next(s7, s8) && Next(s8, s9);
    r := [s0, s1, s2, s3, s4, s5, s6, s7, s8, s9];
  }
}
