/** Fixed-width little-endian integers, as Python's `struct` packs them with "<". */
module LittleEndian {
  import opened Basics

  function Pow256(n: nat): (p: nat)
    ensures p >= 1
  {
    if n == 0 then 1 else 256 * Pow256(n - 1)
  }

  function Encode(v: nat, width: nat): (b: Bytes)
    ensures |b| == width
  {
    if width == 0 then [] else [v % 256] + Encode(v / 256, width - 1)
  }

  function Decode(b: Bytes): (v: nat)
    ensures v < Pow256(|b|)
  {
    if b == [] then 0 else b[0] + 256 * Decode(b[1..])
  }

  lemma {:induction false} DecodeEncode(v: nat, width: nat)
    requires v < Pow256(width)
    ensures Decode(Encode(v, width)) == v
  {
    if width > 0 {
      DecodeEncode(v / 256, width - 1);
      assert Encode(v, width)[1..] == Encode(v / 256, width - 1);
    }
  }

  lemma {:induction false} EncodeDecode(b: Bytes)
    ensures Encode(Decode(b), |b|) == b
  {
    if b != [] {
      EncodeDecode(b[1..]);
      assert b == [b[0]] + b[1..];
    }
  }

  /** The last byte is the most significant one. */
  lemma {:induction false} DecodeLast(b: Bytes, last: Byte)
    ensures Decode(b + [last]) == Decode(b) + last * Pow256(|b|)
  {
    if b == [] {
      assert b + [last] == [last];
      assert [last][1..] == [];
    } else {
      assert (b + [last])[1..] == b[1..] + [last];
      DecodeLast(b[1..], last);
      var p := Pow256(|b| - 1);
      assert 256 * (last * p) == last * (256 * p);
    }
  }

  lemma Widths()
    ensures Pow256(1) == 0x100
    ensures Pow256(2) == 0x1_0000
    ensures Pow256(4) == 0x1_0000_0000
    ensures Pow256(8) == 0x1_0000_0000_0000_0000
  {
    assert Pow256(2) == 256 * Pow256(1);
    assert Pow256(4) == 256 * Pow256(3) == 256 * 256 * Pow256(2);
    assert Pow256(6) == 256 * Pow256(5) == 256 * 256 * Pow256(4);
    assert Pow256(8) == 256 * Pow256(7) == 256 * 256 * Pow256(6);
  }
}
