/**
 The address and word formats of the legacy machine (aasm/kyanite/legacy.h).

 A raw address has 16 bits: 2 for the byte, 5 for the word inside a cache line, 3 for the line
 and 6 for the tag. Memory is made of 32-bit words, stored least significant byte first. All
 shifts the cache code performs are by whole bytes, so a word is kept as its four bytes.
 */
module Words {
  type Byte = n: nat | n < 256
  type Tag = n: nat | n < 64
  type LineIndex = n: nat | n < 8
  type Offset = n: nat | n < 32
  type ByteIndex = n: nat | n < 4

  /** A raw address, as its bit fields. */
  datatype Addr = Addr(tag: Tag, line: LineIndex, offset: Offset, byte: ByteIndex)

  /** The 16-bit value of an address. */
  function Raw(a: Addr): (n: nat)
    ensures n < 0x1_0000
  {
    1024 * a.tag + 128 * a.line + 4 * a.offset + a.byte
  }

  /** The word address that the bus uses: the raw address without its byte bits. */
  function WordOf(a: Addr): nat { LineBase(a.line, a.tag) + a.offset }

  /** The bus address of the first word of a line. */
  function LineBase(line: LineIndex, tag: Tag): nat { 256 * tag + 32 * line }

  /** The address `step` bytes further on, carried from field to field and wrapped to 16 bits. */
  function Advance(a: Addr, step: nat): Addr
    requires step < 4
  {
    if a.byte + step < 4 then a.(byte := a.byte + step)
    else
      var b := a.byte + step - 4;
      if a.offset < 31 then Addr(a.tag, a.line, a.offset + 1, b)
      else if a.line < 7 then Addr(a.tag, a.line + 1, 0, b)
      else if a.tag < 63 then Addr(a.tag + 1, 0, 0, b)
      else Addr(0, 0, 0, b)
  }

  /** Advancing field by field is 16-bit addition. */
  lemma AdvanceIsAddition(a: Addr, step: nat)
    requires step < 4
    ensures Raw(Advance(a, step)) == (Raw(a) + step) % 0x1_0000
  {
    var r := Raw(Advance(a, step));
    assert r == Raw(a) + step || r == Raw(a) + step - 0x1_0000;
  }

  /** The address with a raw value: two bits of byte, five of word, three of line, six of tag. */
  function FromRaw(n: nat): Addr
    requires n < 0x1_0000
  {
    Addr(n / 1024, (n / 128) % 8, (n / 4) % 32, n % 4)
  }

  lemma RawRoundTrip(a: Addr)
    ensures FromRaw(Raw(a)) == a
  {
    var n := Raw(a);
    assert n / 1024 == a.tag;
    assert n / 128 == 8 * a.tag + a.line;
    assert n / 4 == 256 * a.tag + 32 * a.line + a.offset;
  }

  lemma RawOfFields(n: nat)
    requires n < 0x1_0000
    ensures Raw(FromRaw(n)) == n
  {
    var w := n / 4;
    var l := w / 32;
    assert n == 4 * w + n % 4 && w == 32 * l + w % 32 && l == 8 * (l / 8) + l % 8;
    assert n / 128 == l && n / 1024 == l / 8;
  }

  /** The bus counts words: its address is the raw one without its two lowest bits. */
  lemma BusWord(a: Addr)
    ensures Raw(a) == 4 * WordOf(a) + a.byte && WordOf(a) == Raw(a) / 4
    ensures LineBase(a.line, a.tag) == Raw(Addr(a.tag, a.line, 0, 0)) / 4 == 32 * (Raw(a) / 128)
  {
  }

  /** A 32-bit word; `b0` is its least significant byte, the one at the lowest byte address. */
  datatype Word = Word(b0: Byte, b1: Byte, b2: Byte, b3: Byte) {
    function At(k: ByteIndex): Byte {
      if k == 0 then b0 else if k == 1 then b1 else if k == 2 then b2 else b3
    }

    /** `this >> 8*k` */
    function ShiftRight(k: ByteIndex): Word {
      if k == 0 then this
      else if k == 1 then Word(b1, b2, b3, 0)
      else if k == 2 then Word(b2, b3, 0, 0)
      else Word(b3, 0, 0, 0)
    }

    /** `this << 8*k` */
    function ShiftLeft(k: ByteIndex): Word {
      if k == 0 then this
      else if k == 1 then Word(0, b0, b1, b2)
      else if k == 2 then Word(0, 0, b0, b1)
      else Word(0, 0, 0, b0)
    }

    function Or(that: Word): Word {
      Word(OrByte(b0, that.b0), OrByte(b1, that.b1), OrByte(b2, that.b2), OrByte(b3, that.b3))
    }
  }

  function OrByte(x: Byte, y: Byte): (r: Byte)
    ensures x == 0 ==> r == y
    ensures y == 0 ==> r == x
  {
    if x == 0 then y else if y == 0 then x else ((x as bv8) | (y as bv8)) as nat
  }

  const ZERO := Word(0, 0, 0, 0)
}
