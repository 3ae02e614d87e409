/**
 The table-driven checksum of jffs2root (package/ezp-mtd/jffs2root.c:49-72) against the bit-serial register for
 the polynomial of section 3.2.9 of IEEE 802.3, and what it is for: it tells apart any two buffers that differ
 in one short burst.
 */
module Crc {
  import opened Words

  /** The polynomial 0xEDB88320, four bits to a digit. */
  const Poly: Word :=
    Digit(0x0) + Digit(0x2) + Digit(0x3) + Digit(0x8) + Digit(0x8) + Digit(0xB) + Digit(0xD) + Digit(0xE)

  // ----- the reference: one message bit at a time -----

  function Feed(on: bool, a: Word): Word {
    if on then Xor(Poly, a) else a
  }

  /** The register moves down by one; the bit shifted out, added to the message bit, decides the feedback. */
  function Clock(crc: Word, bit: bool): Word {
    Feed(crc[0] != bit, Shr(crc, 1))
  }

  function Serial(crc: Word, bits: seq<bool>): Word {
    if bits == [] then crc else Clock(Serial(crc, bits[..|bits| - 1]), bits[|bits| - 1])
  }

  /** The bits of a buffer, lowest bit of each byte first. */
  function Bits(buf: seq<Byte>): (bits: seq<bool>)
    ensures |bits| == 8 * |buf|
  {
    if buf == [] then [] else Bits(buf[..|buf| - 1]) + buf[|buf| - 1]
  }

  function Reference(buf: seq<Byte>): Word {
    Serial(Ones(), Bits(buf))
  }

  // ----- the table -----

  /** One turn of the inner loop of init_crc32. */
  function Shift(crc: Word): Word {
    if crc[0] then Xor(Poly, Shr(crc, 1)) else Shr(crc, 1)
  }

  function Shifts(crc: Word, n: nat): Word
    decreases n, crc
  {
    if n == 0 then crc else Shift(Shifts(crc, n - 1))
  }

  function Entry(n: nat): Word {
    Shifts(ToBits(n, 32), 8)
  }

  predicate IsTable(t: seq<Word>) {
    |t| == 256 && forall n :: 0 <= n < 256 ==> t[n] == Entry(n)
  }

  /** One byte through the table, as the loop body of crc32buf does it. */
  function Look(t: seq<Word>, crc: Word, b: Byte, sign: bool): Word
    requires |t| == 256
  {
    Xor(t[Index(Xor(crc, Widen(b, sign))[..8])], Shr(crc, 8))
  }

  // ----- the main results -----

  /** One table step is eight steps of the bit-serial register, whether or not char is signed. */
  lemma LookIsSerial(t: seq<Word>, crc: Word, b: Byte, sign: bool)
    requires IsTable(t)
    ensures Look(t, crc, b, sign) == Serial(crc, b)
  {
    var x := Xor(crc, Widen(b, false));
    assert x[..8] == Xor(crc, Widen(b, sign))[..8];
    assert Shr(x, 8) == Shr(crc, 8);
    EntryOfByte(x);
    SplitShifts(x);
    ByteFirst(crc, b);
  }

  /** Two buffers of one length that differ, and only within 32 consecutive bits, have different checksums. */
  lemma BurstDetected(a: seq<Byte>, b: seq<Byte>, p: nat)
    requires |a| == |b| && a != b
    requires forall i :: 0 <= i < |Bits(a)| && Bits(a)[i] != Bits(b)[i] ==> p <= i < p + 32
    ensures Reference(a) != Reference(b)
  {
    var i := BitsDiffer(a, b);
    BurstInBits(Bits(a), Bits(b), p, i);
  }

  /** crc32buf: on every buffer the table gives the bit-serial checksum. */
  method Crc32Buf(table: array<Word>, buf: seq<Byte>, sign: bool) returns (crc: Word)
    requires IsTable(table[..])
    ensures crc == Reference(buf)
  {
    crc := Ones();
    var i := 0;
    while i < |buf|
      invariant 0 <= i <= |buf| && crc == Reference(buf[..i])
    {
      LookIsSerial(table[..], crc, buf[i], sign);
      ReferenceSnoc(buf, i);
      crc := Look(table[..], crc, buf[i], sign);
      i := i + 1;
    }
    assert buf[..i] == buf;
  }

  method InitCrc32() returns (table: array<Word>)
    ensures IsTable(table[..])
  {
    table := new Word[256](_ => Zeros(32));
    for n := 0 to 256
      invariant forall k :: 0 <= k < n ==> table[k] == Entry(k)
    {
      table[n] := ShiftOut(ToBits(n, 32), 8);
    }
  }

  /** The inner loop of init_crc32. */
  method ShiftOut(start: Word, count: nat) returns (crc: Word)
    ensures crc == Shifts(start, count)
  {
    crc := start;
    for bit := 0 to count
      invariant crc == Shifts(start, bit)
    {
      crc := if crc[0] then Xor(Poly, Shr(crc, 1)) else Shr(crc, 1);
    }
  }

  // ----- the polynomial -----

  /** The powers of x in the generator polynomial of section 3.2.9 of IEEE 802.3, but for the highest. */
  const Powers := {26, 23, 22, 16, 12, 11, 10, 8, 7, 5, 4, 2, 1, 0}

  /** Bit i of the constant stands for the power 31 - i. */
  lemma PolyIsStandard(i: nat)
    requires i < 32
    ensures Poly[i] <==> 31 - i in Powers
  {
    var j, d := i % 4, i / 4;
    assert i == 4 * d + j;
  }

  // ----- the table step -----

  /** Feeding the bits of a word one at a time is adding the whole word first and then shifting. */
  lemma {:induction false} WordFirst(crc: Word, w: Word, n: nat)
    requires n <= 32
    ensures Shifts(Xor(crc, w), n) == Xor(Serial(crc, w[..n]), Shr(w, n))
  {
    if n > 0 {
      WordFirst(crc, w, n - 1);
      var s, d := Serial(crc, w[..n - 1]), Shr(w, n - 1);
      assert w[..n][..n - 1] == w[..n - 1];
      assert Shr(d, 1) == Shr(w, n) && d[0] == w[n - 1];
      ClockLinear(s, d, w[n - 1], w[n - 1]);
    }
  }

  /** The low byte goes through eight shifts, the rest only moves down. */
  lemma SplitShifts(x: Word)
    ensures Shifts(x, 8) == Xor(Shifts(LowOnly(x), 8), Shr(x, 8))
  {
    var high: Word := Zeros(8) + x[8..];
    assert Xor(LowOnly(x), high) == x;
    ShiftsLinear(LowOnly(x), high, 8);
    ShiftsHigh(high, 8);
    assert Shr(high, 8) == Shr(x, 8);
  }

  /** Bits above those shifted out only move. */
  lemma {:induction false} ShiftsHigh(a: Word, n: nat)
    requires n <= 32 && forall i :: 0 <= i < n ==> !a[i]
    ensures Shifts(a, n) == Shr(a, n)
  {
    if n > 0 {
      ShiftsHigh(a, n - 1);
      assert Shr(Shr(a, n - 1), 1) == Shr(a, n);
    }
  }

  lemma {:induction false} ShiftsLinear(a: Word, b: Word, n: nat)
    ensures Shifts(Xor(a, b), n) == Xor(Shifts(a, n), Shifts(b, n))
  {
    if n > 0 {
      ShiftsLinear(a, b, n - 1);
      ClockLinear(Shifts(a, n - 1), Shifts(b, n - 1), false, false);
    }
  }

  lemma ClockLinear(x: Word, y: Word, p: bool, q: bool)
    ensures Clock(Xor(x, y), p != q) == Xor(Clock(x, p), Clock(y, q))
  {}

  lemma ByteFirst(crc: Word, b: Byte)
    ensures Shifts(Xor(crc, Widen(b, false)), 8) == Serial(crc, b)
  {
    var w := Widen(b, false);
    WordFirst(crc, w, 8);
    assert w[..8] == b;
    assert Xor(Serial(crc, b), Shr(w, 8)) == Serial(crc, b);
  }

  lemma EntryOfByte(x: Word)
    ensures Entry(Index(x[..8])) == Shifts(LowOnly(x), 8)
  {
    ValueBack(x[..8], 32);
  }

  lemma {:induction false} SerialConcat(crc: Word, a: seq<bool>, b: seq<bool>)
    ensures Serial(crc, a + b) == Serial(Serial(crc, a), b)
    decreases |b|
  {
    if b == [] {
      assert a + b == a;
    } else {
      assert (a + b)[..|a + b| - 1] == a + b[..|b| - 1];
      SerialConcat(crc, a, b[..|b| - 1]);
    }
  }

  lemma ReferenceSnoc(buf: seq<Byte>, i: nat)
    requires i < |buf|
    ensures Reference(buf[..i + 1]) == Serial(Reference(buf[..i]), buf[i])
  {
    assert buf[..i + 1][..i] == buf[..i];
    SerialConcat(Ones(), Bits(buf[..i]), buf[i]);
  }

  // ----- the burst -----

  /** The positions at which two equally long bit strings differ. */
  function Differing(a: seq<bool>, b: seq<bool>): (d: seq<bool>)
    requires |a| == |b|
    ensures |d| == |a| && forall i :: 0 <= i < |d| ==> (d[i] <==> a[i] != b[i])
  {
    seq(|a|, i requires 0 <= i < |a| => a[i] != b[i])
  }

  /**
   After a first set bit at q, a register that started empty holds a set bit at 32 - (i - q) or above while at
   most 32 bits have gone by, and some set bit for as long as only zeros follow.
   */
  lemma {:induction false} BurstBit(d: seq<bool>, q: nat, i: nat) returns (k: nat)
    requires q < i <= |d| && d[q]
    requires forall j :: 0 <= j < |d| && d[j] ==> q <= j < q + 32
    ensures k < 32 && 32 - (i - q) <= k && Serial(Zeros(32), d[..i])[k]
    decreases i
  {
    assert d[..i][..i - 1] == d[..i - 1];
    var s := Serial(Zeros(32), d[..i - 1]);
    if i == q + 1 {
      QuietStart(d, q);
      return 31;
    }
    k := BurstBit(d, q, i - 1);
    if s[0] != d[i - 1] {
      k := 31;
    } else {
      assert k > 0;
      k := k - 1;
    }
  }

  lemma BurstInBits(a: seq<bool>, b: seq<bool>, p: nat, i: nat)
    requires |a| == |b| && i < |a| && a[i] != b[i]
    requires forall j :: 0 <= j < |a| && a[j] != b[j] ==> p <= j < p + 32
    ensures Serial(Ones(), a) != Serial(Ones(), b)
  {
    var d := Differing(a, b);
    var q := FirstSet(d);
    assert d[i];
    var k := BurstBit(d, q, |d|);
    assert d[..|d|] == d;
    SerialLinear(Ones(), Ones(), a, b);
    assert Xor(Ones(), Ones()) == Zeros(32);
  }

  /** The difference of two runs is the run of the difference. */
  lemma {:induction false} SerialLinear(x: Word, y: Word, a: seq<bool>, b: seq<bool>)
    requires |a| == |b|
    ensures Serial(Xor(x, y), Differing(a, b)) == Xor(Serial(x, a), Serial(y, b))
    decreases |a|
  {
    if a != [] {
      var n := |a| - 1;
      assert Differing(a, b)[..n] == Differing(a[..n], b[..n]);
      SerialLinear(x, y, a[..n], b[..n]);
      ClockLinear(Serial(x, a[..n]), Serial(y, b[..n]), a[n], b[n]);
    }
  }

  lemma QuietStart(d: seq<bool>, q: nat)
    requires q <= |d| && forall i :: 0 <= i < q ==> !d[i]
    ensures Serial(Zeros(32), d[..q]) == Zeros(32)
  {
    if q > 0 {
      QuietStart(d, q - 1);
      assert d[..q][..q - 1] == d[..q - 1];
    }
  }

  lemma {:induction false} BitsDiffer(a: seq<Byte>, b: seq<Byte>) returns (i: nat)
    requires |a| == |b| && a != b
    ensures i < |Bits(a)| && Bits(a)[i] != Bits(b)[i]
  {
    var n := |a| - 1;
    if a[n] != b[n] {
      var j :| 0 <= j < 8 && a[n][j] != b[n][j];
      i := |Bits(a[..n])| + j;
    } else {
      assert a == a[..n] + [a[n]] && b == b[..n] + [b[n]];
      i := BitsDiffer(a[..n], b[..n]);
    }
  }

  /** The place of the first set bit, or the length. */
  function FirstSet(d: seq<bool>): (q: nat)
    ensures q <= |d| && (q < |d| ==> d[q]) && forall j :: 0 <= j < q ==> !d[j]
  {
    if d == [] || d[0] then 0 else 1 + FirstSet(d[1..])
  }
}
