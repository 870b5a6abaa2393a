/** IPv6 masks and prefix lengths: the bit loop of wfp.c, and masks against prefixes. */
module MaskPrefix {
  import opened Common

  /** A 128-bit address or mask, in network order. */
  type Bits128 = b: Bytes | |b| == 16 witness Zeros(16)

  /** Bit `j` of a byte, the most significant first. */
  predicate ByteBit(b: bv8, j: nat)
    requires j < 8
  {
    if j == 0 then b & 0x80 != 0
    else if j == 1 then b & 0x40 != 0
    else if j == 2 then b & 0x20 != 0
    else if j == 3 then b & 0x10 != 0
    else if j == 4 then b & 0x08 != 0
    else if j == 5 then b & 0x04 != 0
    else if j == 6 then b & 0x02 != 0
    else b & 0x01 != 0
  }

  predicate Bit(bs: Bits128, i: nat)
    requires i < 128
  {
    ByteBit(bs[i / 8], i % 8)
  }

  /** `p` is the number of one bits before the first zero bit. */
  ghost predicate IsLeadingOnes(mask: Bits128, p: nat) {
    && p <= 128
    && (forall i :: 0 <= i < p ==> Bit(mask, i))
    && (p < 128 ==> !Bit(mask, p))
  }

  lemma LeadingOnesUnique(mask: Bits128, p: nat, q: nat)
    requires IsLeadingOnes(mask, p) && IsLeadingOnes(mask, q)
    ensures p == q
  {
  }

  function ShiftLeft(b: bv8, k: nat): bv8 {
    if k == 0 then b else ShiftLeft(b, k - 1) << 1
  }

  /** After `k` shifts the top bit of the byte is its bit `k`, and after eight nothing is left. */
  lemma TopBit(b: bv8, k: nat)
    requires k <= 8
    ensures ShiftLeft(b, k) & 0x80 != 0 <==> k < 8 && ByteBit(b, k)
  {
    var s1 := ShiftLeft(b, 1);
    var s2 := ShiftLeft(b, 2);
    var s3 := ShiftLeft(b, 3);
    var s4 := ShiftLeft(b, 4);
    var s5 := ShiftLeft(b, 5);
    var s6 := ShiftLeft(b, 6);
    var s7 := ShiftLeft(b, 7);
    var s8 := ShiftLeft(b, 8);
    assert s1 == ShiftLeft(b, 0) << 1;
    assert s2 == s1 << 1 && s3 == s2 << 1 && s4 == s3 << 1;
    assert s5 == s4 << 1 && s6 == s5 << 1 && s7 == s6 << 1 && s8 == s7 << 1;
  }

  /** The nested loops: whole 0xFF bytes, then the one bits at the head of the next. */
  method PrefixLength(mask: Bits128) returns (prefix: nat)
    ensures IsLeadingOnes(mask, prefix)
  {
    prefix := 0;
    for b := 0 to 16
      invariant prefix == 8 * b
      invariant forall i :: 0 <= i < 8 * b ==> Bit(mask, i)
    {
      var v := mask[b];
      ghost var k := 0;
      TopBit(mask[b], 0);
      while v & 0x80 != 0
        invariant k <= 8 && v == ShiftLeft(mask[b], k) && prefix == 8 * b + k
        invariant v & 0x80 != 0 <==> k < 8 && ByteBit(mask[b], k)
        invariant forall i :: 0 <= i < 8 * b + k ==> Bit(mask, i)
        decreases 8 - k
      {
        assert Bit(mask, 8 * b + k);
        prefix := prefix + 1;
        v := v << 1;
        k := k + 1;
        TopBit(mask[b], k);
      }
      AllOnes(mask[b]);
      if mask[b] != 0xFF {
        if k == 8 { EightOnes(mask, b); }
        assert !Bit(mask, 8 * b + k);
        break;
      }
      if k < 8 { assert ByteBit(mask[b], k); }
    }
  }

  lemma AllOnes(b: bv8)
    ensures b == 0xFF <==> forall j :: 0 <= j < 8 ==> ByteBit(b, j)
  {
    if forall j :: 0 <= j < 8 ==> ByteBit(b, j) {
      assert ByteBit(b, 0) && ByteBit(b, 1) && ByteBit(b, 2) && ByteBit(b, 3);
      assert ByteBit(b, 4) && ByteBit(b, 5) && ByteBit(b, 6) && ByteBit(b, 7);
    }
  }

  lemma EightOnes(mask: Bits128, b: nat)
    requires b < 16 && forall i :: 0 <= i < 8 * b + 8 ==> Bit(mask, i)
    ensures mask[b] == 0xFF
  {
    forall j | 0 <= j < 8 ensures ByteBit(mask[b], j) {
      assert Bit(mask, 8 * b + j);
    }
    AllOnes(mask[b]);
  }

  // -------- a mask test is a prefix test --------

  predicate MaskAgrees(addr: Bits128, net: Bits128, mask: Bits128) {
    forall b :: 0 <= b < 16 ==> addr[b] & mask[b] == net[b]
  }

  predicate PrefixAgrees(addr: Bits128, net: Bits128, p: nat)
    requires p <= 128
  {
    forall i :: 0 <= i < p ==> Bit(addr, i) == Bit(net, i)
  }

  predicate BitAgrees(a: bv8, n: bv8, m: bv8, j: nat)
    requires j < 8
  {
    ByteBit(m, j) ==> ByteBit(a, j) == ByteBit(n, j)
  }

  lemma BitsDecide(x: bv8, y: bv8)
    requires x & 0x80 == y & 0x80 && x & 0x40 == y & 0x40 && x & 0x20 == y & 0x20 && x & 0x10 == y & 0x10
    requires x & 0x08 == y & 0x08 && x & 0x04 == y & 0x04 && x & 0x02 == y & 0x02 && x & 0x01 == y & 0x01
    ensures x == y
  {
  }

  /** A byte is its bits. */
  lemma SameBits(x: bv8, y: bv8)
    requires forall j :: 0 <= j < 8 ==> (ByteBit(x, j) <==> ByteBit(y, j))
    ensures x == y
  {
    assert ByteBit(x, 0) <==> ByteBit(y, 0);
    assert ByteBit(x, 1) <==> ByteBit(y, 1);
    assert ByteBit(x, 2) <==> ByteBit(y, 2);
    assert ByteBit(x, 3) <==> ByteBit(y, 3);
    assert ByteBit(x, 4) <==> ByteBit(y, 4);
    assert ByteBit(x, 5) <==> ByteBit(y, 5);
    assert ByteBit(x, 6) <==> ByteBit(y, 6);
    assert ByteBit(x, 7) <==> ByteBit(y, 7);
    BitsDecide(x, y);
  }

  lemma AndBit(a: bv8, b: bv8, j: nat)
    requires j < 8
    ensures ByteBit(a & b, j) <==> ByteBit(a, j) && ByteBit(b, j)
  {
  }

  lemma ByteAgrees(a: bv8, n: bv8, m: bv8)
    requires n & m == n
    ensures a & m == n <==> forall j :: 0 <= j < 8 ==> BitAgrees(a, n, m, j)
  {
    forall j | 0 <= j < 8 ensures (ByteBit(a & m, j) <==> ByteBit(n, j)) <==> BitAgrees(a, n, m, j) {
      AndBit(a, m, j);
      AndBit(n, m, j);
    }
    if forall j :: 0 <= j < 8 ==> BitAgrees(a, n, m, j) { SameBits(a & m, n); }
  }

  lemma MaskGivesPrefix(addr: Bits128, net: Bits128, mask: Bits128, p: nat)
    requires p <= 128 && forall i :: 0 <= i < 128 ==> (Bit(mask, i) <==> i < p)
    requires MaskAgrees(net, net, mask) && MaskAgrees(addr, net, mask)
    ensures PrefixAgrees(addr, net, p)
  {
    forall i | 0 <= i < p ensures Bit(addr, i) == Bit(net, i) {
      var b := i / 8;
      assert Bit(mask, i);
      assert net[b] & mask[b] == net[b] && addr[b] & mask[b] == net[b];
      ByteAgrees(addr[b], net[b], mask[b]);
      assert BitAgrees(addr[b], net[b], mask[b], i % 8);
    }
  }

  lemma PrefixGivesMask(addr: Bits128, net: Bits128, mask: Bits128, p: nat)
    requires p <= 128 && forall i :: 0 <= i < 128 ==> (Bit(mask, i) <==> i < p)
    requires MaskAgrees(net, net, mask) && PrefixAgrees(addr, net, p)
    ensures MaskAgrees(addr, net, mask)
  {
    forall b | 0 <= b < 16 ensures addr[b] & mask[b] == net[b] {
      forall j | 0 <= j < 8 ensures BitAgrees(addr[b], net[b], mask[b], j) {
        var i := 8 * b + j;
        assert Bit(mask, i) ==> Bit(addr, i) == Bit(net, i);
      }
      assert net[b] & mask[b] == net[b];
      ByteAgrees(addr[b], net[b], mask[b]);
    }
  }

  /** For a contiguous mask of `p` ones and a network inside it, for every address. */
  lemma MaskTestIsPrefixTest(addr: Bits128, net: Bits128, mask: Bits128, p: nat)
    requires p <= 128 && forall i :: 0 <= i < 128 ==> (Bit(mask, i) <==> i < p)
    requires MaskAgrees(net, net, mask)
    ensures MaskAgrees(addr, net, mask) <==> PrefixAgrees(addr, net, p)
  {
    if MaskAgrees(addr, net, mask) { MaskGivesPrefix(addr, net, mask, p); }
    if PrefixAgrees(addr, net, p) { PrefixGivesMask(addr, net, mask, p); }
  }
}
