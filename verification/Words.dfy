/** Machine words as the sequence of their bits, lowest bit first. */
module Words {

  type Word = w: seq<bool> | |w| == 32 witness Zeros(32)
  type Byte = b: seq<bool> | |b| == 8 witness Zeros(8)

  function Zeros(n: nat): (bits: seq<bool>)
    ensures |bits| == n && forall i :: 0 <= i < n ==> !bits[i]
  {
    seq(n, _ => false)
  }

  function Ones(): Word {
    seq(32, _ => true)
  }

  function Xor(a: Word, b: Word): (c: Word)
    ensures forall i :: 0 <= i < 32 ==> c[i] == (a[i] != b[i])
  {
    seq(32, i requires 0 <= i < 32 => a[i] != b[i])
  }

  /** Shift right, zeros from the top. */
  function Shr(a: Word, k: nat): Word
    requires k <= 32
  {
    a[k..] + Zeros(k)
  }

  /** The word with only the low byte of a left (a & 0xff). */
  function LowOnly(a: Word): Word {
    a[..8] + Zeros(24)
  }

  /** A char as an int; `sign` is what the upper bits are filled with. */
  function Widen(b: Byte, sign: bool): Word {
    b + if sign then Ones()[..24] else Zeros(24)
  }

  function Power(k: nat): nat {
    if k == 0 then 1 else 2 * Power(k - 1)
  }

  /** The number a bit string stands for. */
  function Value(bits: seq<bool>): (n: nat)
    ensures n < Power(|bits|)
  {
    if bits == [] then 0 else (if bits[0] then 1 else 0) + 2 * Value(bits[1..])
  }

  function Index(b: Byte): (n: nat)
    ensures n < 256
  {
    assert Power(4) == 16 && Power(8) == 256;
    Value(b)
  }

  function ToBits(n: nat, width: nat): (bits: seq<bool>)
    ensures |bits| == width
    decreases width, n
  {
    if width == 0 then [] else [n % 2 == 1] + ToBits(n / 2, width - 1)
  }

  /** A hexadecimal digit. */
  function Digit(n: nat): (bits: seq<bool>)
    ensures |bits| == 4
  {
    [n % 2 == 1, n / 2 % 2 == 1, n / 4 % 2 == 1, n / 8 % 2 == 1]
  }

  lemma {:induction false} ZeroBits(width: nat)
    ensures ToBits(0, width) == Zeros(width)
  {
    if width > 0 { ZeroBits(width - 1); }
  }

  lemma {:induction false} ValueBack(bits: seq<bool>, width: nat)
    requires |bits| <= width
    ensures ToBits(Value(bits), width) == bits + Zeros(width - |bits|)
    decreases width
  {
    if bits == [] {
      ZeroBits(width);
    } else {
      ValueBack(bits[1..], width - 1);
    }
  }
}
