/**
 The erase-ahead flash writer (package/ezp-mtd/mtd.c:591-663) on a flash device that can only store into
 erased cells. How read() splits the input, which erase fails and how much each write() takes are arbitrary.
 */
module MtdWrite {

  const BufSize := 16 * 1024

  /** A flash cell. What is stored into a cell that was not erased is lost. */
  datatype Cell = Fresh | Holds(value: int) | Spoilt

  function Stored(cells: seq<Cell>, at: nat, data: seq<int>): (r: seq<Cell>)
    requires at + |data| <= |cells|
    ensures |r| == |cells|
    ensures forall i :: 0 <= i < |r| ==>
              r[i] == if i < at || at + |data| <= i then cells[i]
                      else if cells[i] == Fresh then Holds(data[i - at]) else Spoilt
  {
    seq(|cells|, i requires 0 <= i < |cells| =>
        if i < at || at + |data| <= i then cells[i] else if cells[i] == Fresh then Holds(data[i - at]) else Spoilt)
  }

  function Erased(cells: seq<Cell>, at: nat, n: nat): (r: seq<Cell>)
    requires at + n <= |cells|
    ensures |r| == |cells|
    ensures forall i :: 0 <= i < |r| ==> r[i] == if at <= i < at + n then Fresh else cells[i]
  {
    seq(|cells|, i requires 0 <= i < |cells| => if at <= i < at + n then Fresh else cells[i])
  }

  /** The erase commands so far: the first at 0, each one block behind the one before, together up to e. */
  predicate Run(starts: seq<nat>, block: nat, e: nat) {
    if starts == [] then e == 0
    else starts[|starts| - 1] + block == e && Run(starts[..|starts| - 1], block, starts[|starts| - 1])
  }

  lemma RunNext(starts: seq<nat>, block: nat, e: nat)
    requires Run(starts, block, e)
    ensures Run(starts + [e], block, e + block)
  {
    assert (starts + [e])[..|starts|] == starts;
  }

  /** No block is erased twice, and they are erased in ascending order. */
  lemma {:induction false} RunAscends(starts: seq<nat>, block: nat, e: nat)
    requires Run(starts, block, e) && block > 0
    ensures forall i :: 0 <= i < |starts| ==> starts[i] + block <= e
    ensures forall i, j :: 0 <= i < j < |starts| ==> starts[i] + block <= starts[j]
  {
    if starts != [] {
      RunAscends(starts[..|starts| - 1], block, starts[|starts| - 1]);
    }
  }

  /** The device holds what was sent, then erased cells up to e, then what it held before. */
  ghost predicate Laid(cells: seq<Cell>, before: seq<Cell>, sent: seq<int>, e: nat) {
    && |cells| == |before| && |sent| <= e <= |cells|
    && (forall i :: 0 <= i < |sent| ==> cells[i] == Holds(sent[i]))
    && (forall i :: |sent| <= i < e ==> cells[i] == Fresh)
    && (forall i :: e <= i < |cells| ==> cells[i] == before[i])
  }

  lemma EraseKeeps(cells: seq<Cell>, before: seq<Cell>, sent: seq<int>, e: nat, block: nat)
    requires Laid(cells, before, sent, e) && e + block <= |cells|
    ensures Laid(Erased(cells, e, block), before, sent, e + block)
  {}

  lemma StoreKeeps(cells: seq<Cell>, before: seq<Cell>, sent: seq<int>, e: nat, data: seq<int>)
    requires Laid(cells, before, sent, e) && |sent| + |data| <= e
    ensures Laid(Stored(cells, |sent|, data), before, sent + data, e)
  {}

  // ----- the device -----

  class Device {
    const block: nat            // erasesize
    const refuses: nat -> bool  // which erase commands fail
    const takes: nat -> int     // what the n-th write takes at most; negative for an error
    var cells: seq<Cell>
    var pos: nat                // file offset
    var erases: seq<nat>        // successful erase commands
    var writes: nat
    var errors: nat             // writes that returned a negative number
    var refused: bool           // an erase command failed
    var cut: bool               // a write took less than it was given, without an error

    constructor (cells: seq<Cell>, block: nat, refuses: nat -> bool, takes: nat -> int)
      ensures this.cells == cells && this.block == block && this.refuses == refuses && this.takes == takes
      ensures New()
    {
      this.cells, this.block, this.refuses, this.takes := cells, block, refuses, takes;
      pos, erases, writes, errors, refused, cut := 0, [], 0, 0, false, false;
    }

    ghost predicate New()
      reads this
    {
      pos == 0 && erases == [] && errors == 0 && !refused && !cut
    }

    ghost predicate NeverTakes() {
      forall n: nat :: takes(n) < 0
    }

    /** ioctl MEMERASE */
    method Erase(start: nat) returns (ok: bool)
      modifies this
      ensures pos == old(pos) && errors == old(errors) && cut == old(cut)
      ensures ok == (start + block <= |old(cells)| && !refuses(start)) && refused == (old(refused) || !ok)
      ensures ok ==> start + block <= |old(cells)| && cells == Erased(old(cells), start, block)
      ensures ok ==> erases == old(erases) + [start]
      ensures !ok ==> cells == old(cells) && erases == old(erases)
    {
      ok := start + block <= |cells| && !refuses(start);
      if ok {
        cells, erases := Erased(cells, start, block), erases + [start];
      } else {
        refused := true;
      }
    }

    /** write: some prefix of the data arrives at the file offset, or nothing does and -1 comes back. */
    method Write(data: seq<int>) returns (n: int)
      requires pos <= |cells|
      modifies this
      ensures erases == old(erases) && refused == old(refused) && -1 <= n <= |data|
      ensures cut == (old(cut) || 0 <= n < |data|) && (NeverTakes() ==> n < 0)
      ensures n < 0 ==> cells == old(cells) && pos == old(pos) && errors == old(errors) + 1
      ensures n >= 0 ==> old(pos) + n <= |old(cells)| && pos == old(pos) + n && errors == old(errors)
      ensures n >= 0 ==> cells == Stored(old(cells), old(pos), data[..n])
    {
      n := takes(writes);
      writes := writes + 1;
      if n < 0 {
        errors := errors + 1;
        return -1;
      }
      if n > |data| { n := |data|; }
      if n > |cells| - pos { n := |cells| - pos; }
      cells := Stored(cells, pos, data[..n]);
      pos := pos + n;
      cut := cut || n < |data|;
    }

    ghost predicate Good(before: seq<Cell>, sent: seq<int>, e: nat)
      reads this
    {
      Laid(cells, before, sent, e) && pos == |sent| && Run(erases, block, e)
    }
  }

  // ----- the program -----

  /** How many bytes a read returns: some of those left, none only when none are left or wanted. */
  function ReadSize(offered: nat, left: nat, room: nat): (n: nat)
    ensures n <= left && n <= room && (n == 0 <==> left == 0 || room == 0)
  {
    var most := if left < room then left else room;
    if most == 0 then 0 else if offered == 0 then 1 else if offered < most then offered else most
  }

  /** An int compared with a size_t is converted to unsigned first. */
  function Unsigned(n: int): nat
    requires -0x8000_0000 <= n
  {
    if n < 0 then n + 0x1_0000_0000 else n
  }

  /** The inner loop: erase ahead until w is covered. */
  method EraseAhead(d: Device, w: nat, e0: nat, ghost before: seq<Cell>, ghost sent: seq<int>)
    returns (e: nat, ok: bool)
    requires d.block > 0 && d.Good(before, sent, e0) && e0 < w + d.block
    modifies d
    ensures d.Good(before, sent, e) && d.errors == old(d.errors) && d.cut == old(d.cut) && e < w + d.block
    ensures d.refused == (old(d.refused) || !ok)
    ensures if ok then w <= e else e < w && (e + d.block > |d.cells| || d.refuses(e))
  {
    e, ok := e0, true;
    while w > e
      invariant ok && d.Good(before, sent, e) && d.errors == old(d.errors) && e < w + d.block
      invariant d.refused == old(d.refused) && d.cut == old(d.cut)
      decreases w + d.block - e
    {
      RunNext(d.erases, d.block, e);
      if e + d.block <= |d.cells| { EraseKeeps(d.cells, before, sent, e, d.block); }
      ok := d.Erase(e);
      if !ok { return; }
      e := e + d.block;
    }
  }

  /**
   One write and the test behind it. A short write stops the program, but an error does not: -1 becomes the
   largest size_t, which is not below r.
   */
  method WriteOut(d: Device, buf: seq<int>, ghost before: seq<Cell>, ghost sent: seq<int>, ghost e: nat)
    returns (ok: bool, ghost more: seq<int>)
    requires d.Good(before, sent, e) && |sent| + |buf| <= e && |buf| <= BufSize
    modifies d
    ensures d.Good(before, sent + more, e) && d.erases == old(d.erases) && more <= buf
    ensures ok ==> if d.errors == old(d.errors) then more == buf else more == []
    ensures d.errors == old(d.errors) || (ok && d.errors == old(d.errors) + 1)
    ensures d.refused == old(d.refused) && d.cut == (old(d.cut) || !ok) && (d.NeverTakes() ==> ok && more == [])
  {
    var result := d.Write(buf);
    ok := Unsigned(result) >= |buf|;
    if result < 0 {
      more := [];
      assert sent + more == sent;
    } else {
      more := buf[..result];
      StoreKeeps(old(d.cells), before, sent, e, more);
    }
  }

  /** One turn of the outer loop behind the read: w counts the bytes in the buffer already. */
  method Turn(d: Device, buf: seq<int>, w: nat, e0: nat, ghost before: seq<Cell>, ghost sent: seq<int>)
    returns (ok: bool, e: nat, ghost more: seq<int>)
    requires d.block > 0 && d.Good(before, sent, e0) && e0 < w + d.block
    requires |sent| + |buf| <= w && |buf| <= BufSize && !d.refused && !d.cut
    modifies d
    ensures d.Good(before, sent + more, e) && e < w + d.block
    ensures ok == !(d.refused || d.cut) && (ok ==> w <= e)
    ensures d.refused ==> e < w && (e + d.block > |d.cells| || d.refuses(e))
    ensures d.errors == old(d.errors) || d.errors == old(d.errors) + 1
    ensures ok ==> if d.errors == old(d.errors) then more == buf else more == []
    ensures d.NeverTakes() ==> more == [] && !d.cut
  {
    e, ok := EraseAhead(d, w, e0, before, sent);
    more := [];
    assert sent + more == sent;
    if ok {
      ok, more := WriteOut(d, buf, before, sent, e);
    }
  }

  /** The read into the rest of the buffer. */
  method Fill(buf: seq<int>, image: seq<int>, at: nat, offered: nat) returns (buf': seq<int>, at': nat)
    requires |buf| <= BufSize && at <= |image|
    ensures |buf'| <= BufSize && at <= at' <= |image|
    ensures buf' + image[at'..] == buf + image[at..]
    ensures buf' == [] ==> buf == [] && at == |image|
  {
    var n := ReadSize(offered, |image| - at, BufSize - |buf|);
    buf', at' := buf + image[at..at + n], at + n;
    assert image[at..] == image[at..at + n] + image[at + n..];
  }

  ghost predicate Begins(cells: seq<Cell>, input: seq<int>) {
    |input| <= |cells| && forall i :: 0 <= i < |input| ==> cells[i] == Holds(input[i])
  }

  /** The flash begins with the input exactly if all of it was sent. */
  lemma BeginsIfSent(cells: seq<Cell>, before: seq<Cell>, sent: seq<int>, input: seq<int>, e: nat)
    requires Laid(cells, before, sent, e) && |sent| <= |input| <= e
    ensures Begins(cells, input) <==> sent == input
  {
    if |sent| < |input| {
      assert cells[|sent|] == Fresh;
    } else if Begins(cells, input) {
      assert forall i :: 0 <= i < |input| ==> Holds(sent[i]) == Holds(input[i]);
    }
  }

  /** What the outer loop keeps: w bytes were taken from the input, and sent is that part unless a write failed. */
  ghost predicate Taken(input: seq<int>, left: seq<int>, sent: seq<int>, w: nat, errors: nat) {
    && w <= |input| && left == input[w..] && |sent| <= w
    && if errors == 0 then sent == input[..w] else |sent| < w
  }

  lemma TakenStep(input: seq<int>, left: seq<int>, sent: seq<int>, w: nat, errors: nat,
                  buf: seq<int>, rest: seq<int>, more: seq<int>, errors': nat)
    requires Taken(input, left, sent, w, errors) && buf + rest == left && buf != []
    requires errors <= errors' <= errors + 1 && more == if errors == errors' then buf else []
    ensures Taken(input, rest, sent + more, w + |buf|, errors')
  {
    assert input[..w] + buf == input[..w + |buf|];
    assert input[w..][|buf|..] == input[w + |buf|..];
  }

  /**
   mtd_write. The input is the header already in the buffer, then the image. Whatever happens, every byte went
   into a cell erased before, blocks were erased once each in ascending order, less than one block was erased
   beyond the input, and the rest is untouched. When it returns 0, the flash begins with the input exactly if
   no write reported an error.
   */
  method Write(d: Device, header: seq<int>, image: seq<int>, split: nat -> nat)
    returns (ok: bool, e: nat, ghost sent: seq<int>)
    requires d.block > 0 && d.New() && |header| <= BufSize
    modifies d
    ensures d.Good(old(d.cells), sent, e)
    ensures e < |header| + |image| + d.block
    ensures ok == !(d.refused || d.cut)
    ensures d.refused ==> e < |header| + |image| && (e + d.block > |d.cells| || d.refuses(e))
    ensures d.NeverTakes() ==> sent == [] && !d.cut
    ensures ok ==> |header| + |image| <= e
    ensures ok ==> (Begins(d.cells, header + image) <==> d.errors == 0)
  {
    ghost var input := header + image;
    var buf := header;
    var at, turn, w := 0, 0, 0;
    e, ok, sent := 0, true, [];
    while true
      invariant ok && d.Good(old(d.cells), sent, e) && 0 <= w <= e < w + d.block
      invariant !d.refused && !d.cut && (d.NeverTakes() ==> sent == [])
      invariant |buf| <= BufSize && 0 <= at <= |image|
      invariant Taken(input, buf + image[at..], sent, w, d.errors)
      decreases |image| - at + |buf|
    {
      ghost var left := buf + image[at..];
      buf, at := Fill(buf, image, at, split(turn));
      turn := turn + 1;
      var r := |buf|;
      w := w + r;
      if r == 0 { break; }
      ghost var more, errors;
      errors := d.errors;
      ok, e, more := Turn(d, buf, w, e, old(d.cells), sent);
      if ok { TakenStep(input, left, sent, w - r, errors, buf, image[at..], more, d.errors); }
      sent := sent + more;
      if !ok { return; }
      buf := [];
      assert buf + image[at..] == image[at..];
    }
    assert input[..w] == input;
    BeginsIfSent(d.cells, old(d.cells), sent, input, e);
  }

  /** A failing write goes unnoticed: the program returns 0 and the flash does not hold the input. */
  method ErrorGoesUnnoticed() returns (ok: bool, d: Device)
    ensures ok && !Begins(d.cells, [7])
  {
    d := new Device([Spoilt, Spoilt], 2, _ => false, _ => -1);
    var e;
    ghost var sent;
    ok, e, sent := Write(d, [7], [], _ => 0);
    assert d.cells[0] == Fresh;
  }
}
