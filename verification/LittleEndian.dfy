/** Fixed-width little-endian integers: the byte order of every multibyte field on the wire. */
module LittleEndian {

  type Byte = b: int | 0 <= b < 256

  type Bytes = seq<Byte>

  /** 256 to the power `width`: the number of values that fit in `width` bytes. */
  function Capacity(width: nat): (c: nat)
    ensures c >= 1
  {
    if width == 0 then 1 else 256 * Capacity(width - 1)
  }

  /** The low `width` bytes of `n`, least significant first. */
  function Put(n: nat, width: nat): (bs: Bytes)
    ensures |bs| == width
  {
    seq(width, i requires 0 <= i => n / Capacity(i) % 256)
  }

  lemma {:induction false} PutCons(n: nat, width: nat)
    requires width > 0
    ensures Put(n, width) == [n % 256] + Put(n / 256, width - 1)
  {
    forall i | 0 < i < width
      ensures Put(n, width)[i] == Put(n / 256, width - 1)[i - 1]
    {
      DivDiv(n, Capacity(i - 1));
    }
  }

  lemma {:induction false} DivDiv(n: nat, c: nat)
    requires c >= 1
    ensures n / (256 * c) == n / 256 / c
  {
    var q := n / 256 / c;
    var r := n / 256 - q * c;
    assert n == 256 * (q * c + r) + n % 256;
    assert n == (256 * c) * q + (256 * r + n % 256);
    assert r <= c - 1;
    assert 256 * r + n % 256 < 256 * c;
    DivUnique(n, 256 * c, q, 256 * r + n % 256);
  }

  lemma {:induction false} DivUnique(n: nat, d: nat, q: nat, r: nat)
    requires d > 0 && r < d && n == d * q + r
    ensures n / d == q
  {
    var k := n / d;
    var m := n % d;
    assert n == d * k + m;
    if k > q {
      Larger(d, k, q);
    } else if k < q {
      Larger(d, q, k);
    }
  }

  lemma {:induction false} Larger(d: nat, a: nat, b: nat)
    requires d > 0 && a > b
    ensures d * a >= d * b + d
    decreases a
  {
    if a > b + 1 {
      Larger(d, a - 1, b);
    }
    assert d * a == d * (a - 1) + d;
  }

  /** The number that a little-endian byte string denotes. */
  function Get(bs: Bytes): (n: nat)
    ensures n < Capacity(|bs|)
  {
    if bs == [] then 0 else bs[0] + 256 * Get(bs[1..])
  }

  lemma {:induction false} Capacity8()
    ensures Capacity(1) == 0x100 && Capacity(2) == 0x1_0000 && Capacity(4) == 0x1_0000_0000
    ensures Capacity(8) == 0x1_0000_0000_0000_0000
  {
    assert Capacity(3) == 0x100_0000;
    assert Capacity(5) == 0x100_0000_0000;
    assert Capacity(6) == 0x1_0000_0000_0000;
    assert Capacity(7) == 0x100_0000_0000_0000;
  }

  /** A number that fits is recovered from its bytes. */
  lemma {:induction false} GetPut(n: nat, width: nat)
    requires n < Capacity(width)
    ensures Get(Put(n, width)) == n
    decreases width
  {
    if width > 0 {
      PutCons(n, width);
      GetPut(n / 256, width - 1);
      assert Put(n, width)[1..] == Put(n / 256, width - 1);
    }
  }

  /** Every byte string is the encoding of the number it denotes, so the encoding is canonical. */
  lemma {:induction false} PutGet(bs: Bytes)
    ensures Put(Get(bs), |bs|) == bs
  {
    if bs != [] {
      var n := Get(bs);
      var rest := Get(bs[1..]);
      assert n % 256 == bs[0] && n / 256 == rest;
      PutGet(bs[1..]);
      PutCons(n, |bs|);
      assert bs == [bs[0]] + bs[1..];
    }
  }

  /** Copies `bytes` into a buffer in place, as `copy` and `PutUint64` do. */
  method Overwrite(a: array<Byte>, offset: nat, bytes: Bytes)
    requires offset + |bytes| <= a.Length
    modifies a
    ensures a[..] == old(a[..offset]) + bytes + old(a[offset + |bytes|..])
  {
    for i := 0 to |bytes|
      invariant forall k :: 0 <= k < i ==> a[offset + k] == bytes[k]
      invariant forall k :: 0 <= k < offset ==> a[k] == old(a[k])
      invariant forall k :: offset + i <= k < a.Length ==> a[k] == old(a[k])
    {
      a[offset + i] := bytes[i];
    }
    assert a[offset..offset + |bytes|] == bytes;
    assert a[..offset] == old(a[..offset]);
    assert a[offset + |bytes|..] == old(a[offset + |bytes|..]);
  }
}
