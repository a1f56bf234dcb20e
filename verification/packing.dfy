/** Bit and word packing of register contents (functions.go): coils travel eight to a byte,
    least significant bit first; 16-bit registers travel as two bytes, most significant first. */
module Packing {
  import opened Modbus

  /** Bit `pos` of `v`: `v` shifted right `pos` times, masked to its lowest bit. */
  function Bit(v: nat, pos: nat): (r: nat)
    ensures r == 0 || r == 1
    decreases pos
  {
    if pos == 0 then v % 2 else Bit(v / 2, pos - 1)
  }

  /** The Go code's `bitAtPosition` on a byte; positions past the top bit read as 0. */
  function BitAtPosition(value: byte, pos: nat): (r: byte)
    ensures r == 0 || r == 1
    ensures pos >= 8 ==> r == 0
  {
    if pos >= 8 then
      BitOfSmall(value, 8, pos);
      Bit(value, pos)
    else Bit(value, pos)
  }

  function Pow2(n: nat): (r: nat)
    ensures r >= 1
  {
    if n == 0 then 1 else 2 * Pow2(n - 1)
  }

  /** A value below 2^width has no bit set at or above `width`. */
  lemma {:induction false} BitOfSmall(v: nat, width: nat, pos: nat)
    requires v < Pow2(width) && pos >= width
    ensures Bit(v, pos) == 0
    decreases pos
  {
    if width == 0 {
      assert v == 0;
      if pos > 0 {
        BitOfSmall(0, 0, pos - 1);
      }
    } else {
      BitOfSmall(v / 2, width - 1, pos - 1);
    }
  }

  /** Zero has no bit set. */
  lemma ZeroHasNoBits()
    ensures forall pos :: Bit(0, pos) == 0
  {
    forall pos: nat
      ensures Bit(0, pos) == 0
    {
      BitOfSmall(0, 0, pos);
    }
  }

  /** Powers of two grow with the exponent. */
  lemma {:induction false} Pow2Monotone(m: nat, n: nat)
    requires m <= n
    ensures Pow2(m) <= Pow2(n)
    decreases n
  {
    if m < n {
      Pow2Monotone(m, n - 1);
    }
  }

  /** Two values below 2^width with the same low `width` bits are equal. */
  lemma {:induction false} BitsDetermineValue(x: nat, y: nat, width: nat)
    requires x < Pow2(width) && y < Pow2(width)
    requires forall b :: 0 <= b < width ==> Bit(x, b) == Bit(y, b)
    ensures x == y
    decreases width
  {
    if width > 0 {
      assert Bit(x, 0) == Bit(y, 0);
      forall b | 0 <= b < width - 1
        ensures Bit(x / 2, b) == Bit(y / 2, b)
      {
        assert Bit(x, b + 1) == Bit(y, b + 1);
      }
      BitsDetermineValue(x / 2, y / 2, width - 1);
    }
  }

  /** How a cell reads as a bit: any non-zero byte is ON. */
  function Flag(cell: byte): (r: nat)
    ensures r == 0 || r == 1
  {
    if cell != 0 then 1 else 0
  }

  /** The flag of cell `k`, or 0 past the end (the zero padding of the last byte). */
  function CellFlag(cells: seq<byte>, k: nat): (r: nat)
  {
    if k < |cells| then Flag(cells[k]) else 0
  }

  /** Up to eight cells packed into one byte, the first cell in the least significant bit. */
  function PackByte(cells: seq<byte>): (r: byte)
    requires |cells| <= 8
    ensures r < Pow2(|cells|)
    ensures forall b :: 0 <= b < 8 ==> Bit(r, b) == CellFlag(cells, b)
    decreases |cells|
  {
    Pow2Monotone(|cells|, 8);
    if |cells| == 0 then
      ZeroHasNoBits();
      0
    else
      var rest := PackByte(cells[1..]);
      var r := Flag(cells[0]) + 2 * rest;
      assert r / 2 == rest && r % 2 == Flag(cells[0]);
      assert forall b :: 1 <= b < 8 ==> Bit(r, b) == Bit(rest, b - 1);
      r
  }

  /** Cells packed eight to a byte, in ascending order, the last byte zero-padded. */
  function PackBits(cells: seq<byte>): (r: seq<byte>)
    ensures |r| == (|cells| + 7) / 8
    ensures forall j, b :: 0 <= j < |r| && 0 <= b < 8 ==> Bit(r[j], b) == CellFlag(cells, 8 * j + b)
    decreases |cells|
  {
    if |cells| <= 8 then
      if |cells| == 0 then [] else [PackByte(cells)]
    else
      var head := PackByte(cells[..8]);
      var tail := PackBits(cells[8..]);
      assert forall j, b {:trigger Bit(tail[j], b)} :: 0 <= j < |tail| && 0 <= b < 8 ==>
        Bit(tail[j], b) == CellFlag(cells, 8 * (j + 1) + b);
      [head] + tail
  }

  /** Big-endian serialisation of a register sequence (`Uint16ToBytes`): each register
      becomes the pair of bytes that reads back as it. */
  function Uint16ToBytes(values: seq<uint16>): (r: seq<byte>)
    ensures |r| == 2 * |values|
    ensures forall i :: 0 <= i < |values| ==> BigEndian(r[2 * i], r[2 * i + 1]) == values[i]
  {
    var r := seq(2 * |values|, k requires 0 <= k < 2 * |values| => ToBigEndian(values[k / 2])[k % 2]);
    assert forall i :: 0 <= i < |values| ==>
      r[2 * i] == ToBigEndian(values[i])[0] && r[2 * i + 1] == ToBigEndian(values[i])[1] by {
      forall i | 0 <= i < |values|
        ensures r[2 * i] == ToBigEndian(values[i])[0] && r[2 * i + 1] == ToBigEndian(values[i])[1]
      {
        assert (2 * i) / 2 == i && (2 * i) % 2 == 0;
        assert (2 * i + 1) / 2 == i && (2 * i + 1) % 2 == 1;
      }
    }
    r
  }

  /** Big-endian deserialisation (`BytesToUint16`): consecutive byte pairs, an odd trailing
      byte ignored. */
  function BytesToUint16(bytes: seq<byte>): (r: seq<uint16>)
    ensures |r| == |bytes| / 2
    ensures forall i :: 0 <= i < |r| ==> ToBigEndian(r[i]) == bytes[2 * i..2 * i + 2]
  {
    seq(|bytes| / 2, i requires 0 <= i < |bytes| / 2 => BigEndian(bytes[2 * i], bytes[2 * i + 1]))
  }

  /** Decoding undoes encoding. */
  lemma {:induction false} DecodeEncode(values: seq<uint16>)
    ensures BytesToUint16(Uint16ToBytes(values)) == values
  {
    var bytes := Uint16ToBytes(values);
    forall i | 0 <= i < |values|
      ensures BytesToUint16(bytes)[i] == values[i]
    {
      assert BigEndian(bytes[2 * i], bytes[2 * i + 1]) == values[i];
    }
  }

  /** Encoding undoes decoding, up to the dropped odd byte. */
  lemma {:induction false} EncodeDecode(bytes: seq<byte>)
    ensures Uint16ToBytes(BytesToUint16(bytes)) == bytes[..2 * (|bytes| / 2)]
  {
    var n := 2 * (|bytes| / 2);
    var r := Uint16ToBytes(BytesToUint16(bytes));
    assert |r| == n;
    forall k | 0 <= k < n
      ensures r[k] == bytes[..n][k]
    {
      EncodeDecodeAt(bytes, k);
    }
  }

  /** Byte `k` of the re-encoding is byte `k` of the input. */
  lemma EncodeDecodeAt(bytes: seq<byte>, k: nat)
    requires k < 2 * (|bytes| / 2)
    ensures Uint16ToBytes(BytesToUint16(bytes))[k] == bytes[k]
  {
    var values := BytesToUint16(bytes);
    var r := Uint16ToBytes(values);
    var i := k / 2;
    assert k == 2 * i || k == 2 * i + 1;
    assert i < |values|;
    assert ToBigEndian(values[i]) == bytes[2 * i..2 * i + 2];
    assert BigEndian(r[2 * i], r[2 * i + 1]) == values[i];
    if k == 2 * i {
      assert r[2 * i] == ToBigEndian(values[i])[0];
    } else {
      assert r[2 * i + 1] == ToBigEndian(values[i])[1];
    }
  }
}
