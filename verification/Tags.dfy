/**
 The tag-length-value packets of the finder protocol (package/bcclient/src/protocols.c:26-132, 240-323, .h:434-461):
 built, packed behind a header and searched; `big` is the byte order of the host that does all three.
 */
module Tags {
  import opened Options

  type Byte = x: int | 0 <= x < 256
  type Int = x: int | -0x8000_0000 <= x < 0x8000_0000

  const TagExtension := 202
  const MaxTagData := 128
  const MaxExtData := 123
  const HeaderSize := 16
  const PadIgnoreSeqNum := 0x0425

  // ----- what a list means -----

  /** An entry as its builder was called: a plain tag, or one with a four-byte id inside an extension tag. */
  datatype Item = Plain(id: Int, data: seq<Byte>) | Ext(id: Int, data: seq<Byte>)

  predicate InRange(x: Item) {
    match x
    case Plain(id, data) => 0 <= id < 256 && id != TagExtension && |data| <= MaxTagData
    case Ext(_, data) => |data| <= MaxExtData
  }

  predicate AllInRange(items: seq<Item>) {
    forall k :: 0 <= k < |items| ==> InRange(items[k])
  }

  /** The data of the first entry with this id, plain or extension. */
  function Lookup(items: seq<Item>, id: Int): Option<seq<Byte>> {
    if items == [] then None
    else if items[0].id == id then Some(items[0].data)
    else Lookup(items[1..], id)
  }

  // ----- bytes -----

  /** A four-byte unsigned number as it lies in memory. */
  function Bytes4(u: nat, big: bool): (b: seq<Byte>)
    requires u < 0x1_0000_0000
    ensures |b| == 4
  {
    var b0, b1, b2, b3 := u % 256, u / 256 % 256, u / 256 / 256 % 256, u / 256 / 256 / 256;
    if big then [b3, b2, b1, b0] else [b0, b1, b2, b3]
  }

  function Number4(b: seq<Byte>, big: bool): nat
    requires |b| == 4
  {
    var b0: int, b1: int, b2: int, b3: int := b[0], b[1], b[2], b[3];
    if big then b3 + 256 * (b2 + 256 * (b1 + 256 * b0)) else b0 + 256 * (b1 + 256 * (b2 + 256 * b3))
  }

  lemma Bytes4Back(u: nat, big: bool)
    requires u < 0x1_0000_0000
    ensures Number4(Bytes4(u, big), big) == u
  {
    var v := u / 256;
    var w := v / 256;
    assert u == u % 256 + 256 * v && v == v % 256 + 256 * w && w == w % 256 + 256 * (w / 256);
  }

  /** An int converted to unsigned int. */
  function Unsigned(id: Int): (u: nat)
    ensures u < 0x1_0000_0000
  {
    if id >= 0 then id else id + 0x1_0000_0000
  }

  /** A two-byte number on the wire: SREV makes it little-endian on every host. */
  function Wire2(u: nat): seq<Byte> {
    [u % 256, u / 256 % 256]
  }

  // ----- the stored form -----

  /** DATA_TAG; its len is the length of data. */
  datatype DataTag = DataTag(tag: Byte, data: seq<Byte>)

  function Encode(x: Item, big: bool): DataTag
    requires InRange(x)
  {
    match x
    case Plain(id, data) => DataTag(id, data)
    case Ext(id, data) => DataTag(TagExtension, Bytes4(Unsigned(id), big) + [|data|] + data)
  }

  function EncodeAll(items: seq<Item>, big: bool): (tags: seq<DataTag>)
    requires AllInRange(items)
    ensures |tags| == |items|
  {
    if items == [] then [] else EncodeAll(items[..|items| - 1], big) + [Encode(items[|items| - 1], big)]
  }

  predicate Short(t: DataTag) {
    |t.data| <= MaxTagData
  }

  function Pack(t: DataTag): seq<Byte>
    requires Short(t)
  {
    [t.tag, |t.data|] + t.data
  }

  predicate AllShort(tags: seq<DataTag>) {
    forall k :: 0 <= k < |tags| ==> Short(tags[k])
  }

  function PackAll(tags: seq<DataTag>): seq<Byte>
    requires AllShort(tags)
  {
    if tags == [] then [] else Pack(tags[0]) + PackAll(tags[1..])
  }

  lemma {:induction false} EncodeShort(items: seq<Item>, big: bool)
    requires AllInRange(items)
    ensures AllShort(EncodeAll(items, big))
  {
    if items != [] { EncodeShort(items[..|items| - 1], big); }
  }

  lemma {:induction false} EncodeCons(items: seq<Item>, big: bool)
    requires AllInRange(items) && items != []
    ensures EncodeAll(items, big) == [Encode(items[0], big)] + EncodeAll(items[1..], big)
  {
    if |items| > 1 {
      var n := |items| - 1;
      EncodeCons(items[..n], big);
      assert items[..n][1..] == items[1..][..n - 1];
    }
  }

  lemma {:induction false} PackSnoc(tags: seq<DataTag>, t: DataTag)
    requires AllShort(tags) && Short(t)
    ensures AllShort(tags + [t]) && PackAll(tags + [t]) == PackAll(tags) + Pack(t)
  {
    if tags == [] {
      assert [] + [t] == [t];
      assert [t][1..] == [];
    } else {
      PackSnoc(tags[1..], t);
      assert (tags + [t])[1..] == tags[1..] + [t];
    }
  }

  // ----- building a list -----

  class TagList {
    const max: nat  // MAX_SESSION_NODE_TAG_COUNT
    const big: bool
    var tags: seq<DataTag>
    ghost var items: seq<Item>

    ghost predicate Valid()
      reads this
    {
      AllInRange(items) && tags == EncodeAll(items, big) && |tags| <= max
    }

    constructor (max: nat, big: bool)
      ensures Valid() && items == [] && this.max == max && this.big == big
    {
      this.max, this.big := max, big;
      tags, items := [], [];
    }

    /** AddTagToTagList; the id is cut to one byte, and one that becomes TAG_EXTENSION spoils the list. */
    method AddTag(id: Int, data: seq<Byte>) returns (ok: bool)
      requires Valid()
      modifies this
      ensures ok == (old(|tags|) < max && |data| <= MaxTagData)
      ensures tags == old(tags) + if ok then [DataTag(id % 256, data)] else []
      ensures items == old(items) + if ok then [Plain(id % 256, data)] else []
      ensures Valid() <==> !ok || id % 256 != TagExtension
    {
      if |tags| >= max || |data| > MaxTagData {
        return false;
      }
      tags := tags + [DataTag(id % 256, data)];
      items := items + [Plain(id % 256, data)];
      return true;
    }

    /** AddExtTagToTagList; the length is cut to one byte before it is checked. */
    method AddExtTag(id: Int, data: seq<Byte>) returns (ok: bool)
      requires Valid()
      modifies this
      ensures Valid()
      ensures ok == (old(|tags|) < max && |data| % 256 <= MaxExtData)
      ensures items == old(items) + if ok then [Ext(id, data[..|data| % 256])] else []
    {
      var n := |data| % 256;
      if |tags| >= max || n > MaxExtData {
        return false;
      }
      tags := tags + [DataTag(TagExtension, Bytes4(Unsigned(id), big) + [n] + data[..n])];
      items := items + [Ext(id, data[..n])];
      return true;
    }
  }

  // ----- packing -----

  /** memcpy */
  method Copy(buf: array<Byte>, at: nat, s: seq<Byte>)
    requires at + |s| <= buf.Length
    modifies buf
    ensures buf[..at] == old(buf[..at]) && buf[at..at + |s|] == s
    ensures buf[at + |s|..] == old(buf[at + |s|..])
  {
    for n := 0 to |s|
      invariant buf[..at] == old(buf[..at]) && buf[at..at + n] == s[..n]
      invariant buf[at + |s|..] == old(buf[at + |s|..])
    {
      buf[at + n] := s[n];
      assert buf[at..at + n + 1] == buf[at..at + n] + [s[n]];
    }
  }

  /** TagsToBuffer: the packed list, or nothing when it does not fit. */
  method TagsToBuffer(tags: seq<DataTag>, buf: array<Byte>, size: int) returns (len: nat)
    requires AllShort(tags) && size <= buf.Length
    modifies buf
    ensures len == if |PackAll(tags)| <= size then |PackAll(tags)| else 0
    ensures len <= buf.Length && (|PackAll(tags)| <= size ==> buf[..len] == PackAll(tags))
  {
    len := 0;
    var i := 0;
    while i < |tags|
      invariant 0 <= i <= |tags| && len <= buf.Length && (i > 0 ==> len <= size)
      invariant len == |PackAll(tags[..i])| && buf[..len] == PackAll(tags[..i])
    {
      assert tags[..i + 1] == tags[..i] + [tags[i]];
      PackSnoc(tags[..i], tags[i]);
      if len + |tags[i].data| + 2 > size {
        PackGrows(tags, i + 1);
        return 0;
      }
      Copy(buf, len, Pack(tags[i]));
      assert buf[..len + |Pack(tags[i])|] == buf[..len] + Pack(tags[i]);
      len := len + (|tags[i].data| + 2);
      i := i + 1;
    }
    assert tags[..i] == tags;
  }

  lemma {:induction false} PackGrows(tags: seq<DataTag>, i: nat)
    requires AllShort(tags) && i <= |tags|
    ensures |PackAll(tags[..i])| <= |PackAll(tags)|
  {
    if i > 0 {
      PackGrows(tags[1..], i - 1);
      assert tags[..i][1..] == tags[1..][..i - 1];
    }
  }

  function Header(preamble: seq<Byte>, cmd: nat, seqNum: nat, result: nat): (h: seq<Byte>)
    requires |preamble| == 8
    ensures |h| == HeaderSize
  {
    preamble + Wire2(seqNum) + Wire2(cmd) + Wire2(result) + Wire2(PadIgnoreSeqNum)
  }

  function Number2(b: seq<Byte>): nat
    requires |b| == 2
  {
    var b0: int, b1: int := b[0], b[1];
    b0 + 256 * b1
  }

  /** Each field is read back from its place in FINDER_CMD_HEADER. */
  lemma HeaderFields(preamble: seq<Byte>, cmd: nat, seqNum: nat, result: nat)
    requires |preamble| == 8 && cmd < 0x1_0000 && seqNum < 0x1_0000 && result < 0x1_0000
    ensures var h := Header(preamble, cmd, seqNum, result);
            && h[..8] == preamble && Number2(h[8..10]) == seqNum && Number2(h[10..12]) == cmd
            && Number2(h[12..14]) == result && Number2(h[14..16]) == PadIgnoreSeqNum
  {
    var h := Header(preamble, cmd, seqNum, result);
    assert h[8..10] == Wire2(seqNum) && h[10..12] == Wire2(cmd);
    assert h[12..14] == Wire2(result) && h[14..16] == Wire2(PadIgnoreSeqNum);
  }

  /** MakeFinderCommandPacket */
  method MakePacket(buf: array<Byte>, size: nat, preamble: seq<Byte>, cmd: nat, seqNum: nat, result: nat,
                    tagBuf: seq<Byte>)
    returns (len: nat)
    requires size <= buf.Length && |preamble| == 8
    modifies buf
    ensures len == if HeaderSize + |tagBuf| <= size then HeaderSize + |tagBuf| else 0
    ensures len > 0 ==> buf[..len] == Header(preamble, cmd, seqNum, result) + tagBuf
  {
    if size < HeaderSize || |tagBuf| > size - HeaderSize {
      return 0;
    }
    Copy(buf, 0, Header(preamble, cmd, seqNum, result));
    assert buf[..HeaderSize] == Header(preamble, cmd, seqNum, result);
    len := HeaderSize;
    if tagBuf != [] {
      Copy(buf, HeaderSize, tagBuf);
      len := len + |tagBuf|;
      assert buf[..len] == buf[..HeaderSize] + buf[HeaderSize..len];
    } else {
      assert Header(preamble, cmd, seqNum, result) + tagBuf == Header(preamble, cmd, seqNum, result);
    }
  }

  // ----- searching -----

  function Packed(items: seq<Item>, big: bool): seq<Byte>
    requires AllInRange(items)
  {
    EncodeShort(items, big);
    PackAll(EncodeAll(items, big))
  }

  /** The packed list begins with its first entry. */
  lemma PackedCons(items: seq<Item>, big: bool)
    requires AllInRange(items) && items != []
    ensures Packed(items, big) == Pack(Encode(items[0], big)) + Packed(items[1..], big)
  {
    EncodeCons(items, big);
    EncodeShort(items, big);
    EncodeShort(items[1..], big);
    var tags := EncodeAll(items, big);
    assert tags[1..] == EncodeAll(items[1..], big);
  }

  /** What GetTagData sees at the start of an entry. */
  lemma FirstEntry(packet: seq<Byte>, i: nat, items: seq<Item>, big: bool)
    requires i <= |packet| && AllInRange(items) && items != [] && packet[i..] == Packed(items, big)
    ensures var t := Encode(items[0], big);
            && i + 2 + |t.data| <= |packet| && packet[i] == t.tag && packet[i + 1] == |t.data|
            && packet[i + 2..i + 2 + |t.data|] == t.data
            && packet[i + 2 + |t.data|..] == Packed(items[1..], big)
  {
    PackedCons(items, big);
    TagAt(packet, i, Encode(items[0], big), Packed(items[1..], big));
  }

  lemma TagAt(packet: seq<Byte>, i: nat, t: DataTag, q: seq<Byte>)
    requires i <= |packet| && Short(t) && packet[i..] == Pack(t) + q
    ensures var n := |t.data|;
            && i + 2 + n <= |packet| && packet[i] == t.tag && packet[i + 1] == n
            && packet[i + 2..i + 2 + n] == t.data && packet[i + 2 + n..] == q
  {
    var n, s := |t.data|, packet[i..];
    assert |s| == 2 + n + |q|;
    assert packet[i] == s[0] && packet[i + 1] == s[1];
    assert s[2..2 + n] == t.data && s[2 + n..] == q;
    assert packet[i + 2..i + 2 + n] == s[2..2 + n];
    assert packet[i + 2 + n..] == s[2 + n..];
  }

  /** An extension tag taken apart again. */
  lemma ExtParts(x: Item, big: bool)
    requires x.Ext? && InRange(x)
    ensures var d := Encode(x, big).data;
            && |d| == 5 + |x.data| && Number4(d[..4], big) == Unsigned(x.id) && d[4] == |x.data| && d[5..] == x.data
  {
    var d := Encode(x, big).data;
    assert d[..4] == Bytes4(Unsigned(x.id), big);
    Bytes4Back(Unsigned(x.id), big);
  }

  /** The data an entry gives out for an id, by the branches of the loop body. */
  function Seen(t: DataTag, id: Int, big: bool): Option<seq<Byte>>
    requires t.tag == TagExtension ==> |t.data| >= 5 && |t.data| >= 5 + t.data[4] as int
  {
    if t.tag == id then Some(t.data)
    else if t.tag == TagExtension && Number4(t.data[..4], big) == Unsigned(id)
    then Some(t.data[5..5 + t.data[4] as int])
    else None
  }

  lemma EntrySeen(x: Item, big: bool, id: Int)
    requires InRange(x) && id != TagExtension
    ensures var t := Encode(x, big); t.tag == TagExtension ==> |t.data| >= 5 && |t.data| >= 5 + t.data[4] as int
    ensures Seen(Encode(x, big), id, big) == if x.id == id then Some(x.data) else None
  {
    if x.Ext? {
      ExtParts(x, big);
      var d := Encode(x, big).data;
      assert d[5..5 + d[4] as int] == d[5..];
    }
  }

  /** The answer to a search: nothing, or the data cut to the caller's buffer. */
  predicate Answered(found: Option<seq<Byte>>, size: nat, len: nat, before: seq<Byte>, after: seq<Byte>) {
    |before| == |after| &&
    match found
    case None => len == 0 && after == before
    case Some(d) =>
      && len == (if |d| <= size then |d| else size) && len <= |after|
      && after[..len] == d[..len] && after[len..] == before[len..]
  }

  method Answer(data: seq<Byte>, out: array<Byte>, size: nat) returns (len: nat)
    requires size <= out.Length
    modifies out
    ensures Answered(Some(data), size, len, old(out[..]), out[..])
  {
    len := if |data| > size then size else |data|;
    Copy(out, 0, data[..len]);
    assert out[..][..len] == out[0..len] && out[..][len..] == out[len..];
    assert old(out[..])[len..] == old(out[len..]);
  }

  /**
   GetTagData on a packet whose tag part is the packed form of items: the data of the first entry with the
   id, plain or extension, cut to the buffer; 0 and an untouched buffer if there is none.
   */
  method GetTagData(packet: seq<Byte>, id: Int, out: array<Byte>, size: nat, big: bool, ghost items: seq<Item>)
    returns (len: nat)
    requires |packet| >= HeaderSize && AllInRange(items) && packet[HeaderSize..] == Packed(items, big)
    requires id != TagExtension && size <= out.Length
    modifies out
    ensures Answered(Lookup(items, id), size, len, old(out[..]), out[..])
  {
    var i := HeaderSize;
    ghost var rest := items;
    while i < |packet|
      invariant HeaderSize <= i <= |packet| && AllInRange(rest) && packet[i..] == Packed(rest, big)
      invariant Lookup(items, id) == Lookup(rest, id) && out[..] == old(out[..])
    {
      FirstEntry(packet, i, rest, big);
      EntrySeen(rest[0], big, id);
      var n := packet[i + 1];
      var t := DataTag(packet[i], packet[i + 2..i + 2 + n]);
      assert t == Encode(rest[0], big);
      var seen := Seen(t, id, big);
      if seen.Some? {
        len := Answer(seen.value, out, size);
        return;
      }
      i := i + (n + 2);
      rest := rest[1..];
    }
    len := 0;
  }

  /**
   From the list to the answer: the list is packed, put behind a header and searched. Where the packet is large
   enough, the caller gets what was added first under the id.
   */
  method Exchange(list: TagList, preamble: seq<Byte>, cmd: nat, seqNum: nat, result: nat, tagBuf: array<Byte>,
                  packet: array<Byte>, id: Int, out: array<Byte>, size: nat) returns (sent: nat, len: nat)
    requires list.Valid() && |preamble| == 8 && id != TagExtension && size <= out.Length
    requires tagBuf != packet && tagBuf != out && packet != out
    modifies tagBuf, packet, out
    ensures var tags := Packed(list.items, list.big);
            |tags| <= tagBuf.Length && HeaderSize + |tags| <= packet.Length ==>
              && sent == HeaderSize + |tags| && packet[..sent] == Header(preamble, cmd, seqNum, result) + tags
              && Answered(Lookup(list.items, id), size, len, old(out[..]), out[..])
  {
    EncodeShort(list.items, list.big);
    var n := TagsToBuffer(list.tags, tagBuf, tagBuf.Length);
    sent := MakePacket(packet, packet.Length, preamble, cmd, seqNum, result, tagBuf[..n]);
    len := 0;
    ghost var tags := Packed(list.items, list.big);
    if list.tags != [] { PackedCons(list.items, list.big); }
    if (n > 0 || list.tags == []) && sent > 0 {
      assert packet[..sent][HeaderSize..] == tags;
      len := GetTagData(packet[..sent], id, out, size, list.big, list.items);
    }
  }
}
