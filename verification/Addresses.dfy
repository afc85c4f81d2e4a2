/**
 Address arithmetic: successor and predecessor with byte carries, the last address of a network,
 containment. An address is its normalised byte string (4 or 16 bytes); a network carries its prefix
 length, from which the contiguous mask bytes follow.
 */
module Addresses {
  import opened Bytes

  type IP = seq<byte>

  const BYTE_BITS: nat := 8

  datatype IPNet = IPNet(ip: IP, ones: nat)

  /** A host as its reply shows it: hardware address and address. */
  datatype Target = Target(eth: seq<byte>, ip: IP)

  ghost predicate ValidNet(n: IPNet, w: nat) {
    |n.ip| == w && n.ones <= 8 * w
  }

  /** Number of host bits of a network of w-byte addresses. */
  function HostBits(n: IPNet): nat
    requires n.ones <= 8 * |n.ip|
  {
    8 * |n.ip| - n.ones
  }

  // ---------------------------------------------------------------- successor and predecessor

  /** The carry rule: the last byte that is not 255 goes up by one, the bytes after it become 0. */
  function Next(s: IP): (r: IP)
    ensures |r| == |s|
  {
    if s == [] then []
    else
      var l := |s| - 1;
      if s[l] < 255 then s[..l] + [s[l] + 1] else Next(s[..l]) + [0]
  }

  /** The borrow rule. */
  function Previous(s: IP): (r: IP)
    ensures |r| == |s|
  {
    if s == [] then []
    else
      var l := |s| - 1;
      if s[l] > 0 then s[..l] + [s[l] - 1] else Previous(s[..l]) + [255]
  }

  lemma {:induction false} NextShape(s: IP, i: int)
    requires -1 <= i < |s| && (i >= 0 ==> s[i] < 255)
    requires forall k :: i < k < |s| ==> s[k] == 255
    ensures forall k :: 0 <= k < |s| ==> Next(s)[k] == if k < i then s[k] else if k == i then s[i] + 1 else 0
  {
    if i < |s| - 1 { NextShape(s[..|s| - 1], i); }
  }

  lemma {:induction false} PreviousShape(s: IP, i: int)
    requires -1 <= i < |s| && (i >= 0 ==> s[i] > 0)
    requires forall k :: i < k < |s| ==> s[k] == 0
    ensures forall k :: 0 <= k < |s| ==> Previous(s)[k] == if k < i then s[k] else if k == i then s[i] - 1 else 255
  {
    if i < |s| - 1 { PreviousShape(s[..|s| - 1], i); }
  }

  method NextIP(ip: IP) returns (r: IP)
    ensures r == Next(ip)
  {
    var next := new byte[|ip|](k requires 0 <= k < |ip| => ip[k]);
    var i := |ip| - 1;
    while i >= 0
      invariant -1 <= i < |ip|
      invariant forall k :: 0 <= k <= i ==> next[k] == ip[k]
      invariant forall k :: i < k < |ip| ==> next[k] == 0 && ip[k] == 255
    {
      var b: int := next[i];
      next[i] := (b + 1) % 256;
      if next[i] != 0 { break; }
      i := i - 1;
    }
    NextShape(ip, i);
    return next[..];
  }

  method PreviousIP(ip: IP) returns (r: IP)
    ensures r == Previous(ip)
  {
    var prev := new byte[|ip|](k requires 0 <= k < |ip| => ip[k]);
    var i := |ip| - 1;
    while i >= 0
      invariant -1 <= i < |ip|
      invariant forall k :: 0 <= k <= i ==> prev[k] == ip[k]
      invariant forall k :: i < k < |ip| ==> prev[k] == 255 && ip[k] == 0
    {
      if prev[i] == 0 {
        prev[i] := 255;
      } else {
        prev[i] := prev[i] - 1;
        break;
      }
      i := i - 1;
    }
    PreviousShape(ip, i);
    return prev[..];
  }

  /** Successor and predecessor of the numbers below m, wrapping at both ends. */
  function NextNum(x: int, m: int): int {
    if x + 1 == m then 0 else x + 1
  }

  function PreviousNum(x: int, m: int): int {
    if x == 0 then m - 1 else x - 1
  }

  lemma {:induction false} NextIsSuccessor(s: IP)
    ensures Num(Next(s)) == NextNum(Num(s), Space(|s|))
  {
    if s != [] {
      var l := |s| - 1;
      SpaceStep(|s|);
      NumBound(s[..l]);
      NextIsSuccessor(s[..l]);
      assert Next(s)[..l] == if s[l] < 255 then s[..l] else Next(s[..l]);
    }
  }

  lemma {:induction false} PreviousIsPredecessor(s: IP)
    ensures s != [] ==> Num(Previous(s)) == PreviousNum(Num(s), Space(|s|))
  {
    if s != [] {
      var l := |s| - 1;
      SpaceStep(|s|);
      NumBound(s[..l]);
      PreviousIsPredecessor(s[..l]);
      assert Previous(s)[..l] == if s[l] > 0 then s[..l] else Previous(s[..l]);
    }
  }

  /** The two are inverse, at the ends of the address space as well. */
  lemma NextPreviousInverse(s: IP)
    ensures Previous(Next(s)) == s && Next(Previous(s)) == s
  {
    if s != [] {
      NumBound(s);
      NextIsSuccessor(s);
      PreviousIsPredecessor(s);
      NextIsSuccessor(Previous(s));
      PreviousIsPredecessor(Next(s));
      NumInjective(Previous(Next(s)), s);
      NumInjective(Next(Previous(s)), s);
    }
  }

  // ---------------------------------------------------------------- masks, last address, containment

  /** Byte i of the mask with the given number of leading ones. */
  function MaskByte(ones: nat, i: nat): (m: byte) {
    if 8 * (i + 1) <= ones then 255
    else if ones <= 8 * i then 0
    else
      assert Pow2(8 * (i + 1) - ones) <= 256 by {
        Pow2Mono(8 * (i + 1) - ones, 8);
        Pow2Byte();
      }
      256 - Pow2(8 * (i + 1) - ones)
  }

  function ByteOr(a: byte, b: byte): (r: byte) {
    Pow2Byte();
    BitOr(a, b, BYTE_BITS)
  }

  function ByteAnd(a: byte, b: byte): (r: byte) {
    Pow2Byte();
    BitAnd(a, b, BYTE_BITS)
  }

  function LastBytes(ip: IP, ones: nat): (r: IP)
    ensures |r| == |ip|
  {
    seq(|ip|, i requires 0 <= i < |ip| => ByteOr(ip[i], 255 - MaskByte(ones, i)))
  }

  function MaskedBytes(ip: IP, ones: nat): (r: IP)
    ensures |r| == |ip|
  {
    seq(|ip|, i requires 0 <= i < |ip| => ByteAnd(ip[i], MaskByte(ones, i)))
  }

  /** The last address of a network: every host bit set. */
  function Last(n: IPNet): (r: IP)
    ensures |r| == |n.ip|
  {
    LastBytes(n.ip, n.ones)
  }

  method LastIP(n: IPNet) returns (r: IP)
    ensures r == Last(n)
  {
    var last := new byte[|n.ip|](k requires 0 <= k < |n.ip| => n.ip[k]);
    for i := 0 to |n.ip|
      invariant forall k :: 0 <= k < i ==> last[k] == Last(n)[k]
      invariant forall k :: i <= k < |n.ip| ==> last[k] == n.ip[k]
    {
      last[i] := ByteOr(last[i], 255 - MaskByte(n.ones, i));
    }
    assert last[..] == Last(n);
    return last[..];
  }

  /** Containment of an address: equal length and equal bytes under the mask. */
  predicate Contains(n: IPNet, ip: IP) {
    |n.ip| == |ip| && MaskedBytes(n.ip, n.ones) == MaskedBytes(ip, n.ones)
  }

  predicate ContainsSubnet(super: IPNet, sub: IPNet) {
    Contains(super, sub.ip) && Contains(super, Last(sub))
  }

  /** First and last number of the block of 2^j numbers that x lies in: the j low bits cleared or set. */
  function Floor(x: nat, j: nat): (r: nat) {
    if j == 0 then x else 2 * Floor(x / 2, j - 1)
  }

  function Ceiling(x: nat, j: nat): (r: nat) {
    if j == 0 then x else 2 * Ceiling(x / 2, j - 1) + 1
  }

  lemma {:induction false} BlockBounds(x: nat, j: nat)
    ensures Floor(x, j) <= x <= Ceiling(x, j) == Floor(x, j) + Pow2(j) - 1
    ensures Floor(x, j) == x - x % Pow2(j)
  {
    if j != 0 {
      BlockBounds(x / 2, j - 1);
      DivDiv(x, 2, Pow2(j - 1));
    }
  }

  /** Sharing a block is lying between its ends. */
  lemma {:induction false} SameBlock(x: nat, y: nat, j: nat)
    ensures Floor(x, j) == Floor(y, j) <==> Floor(y, j) <= x <= Ceiling(y, j)
  {
    if j != 0 { SameBlock(x / 2, y / 2, j - 1); }
  }

  /** Larger blocks are unions of smaller ones. */
  lemma {:induction false} CoarserBlock(x: nat, y: nat, j: nat, k: nat)
    requires j <= k && Floor(x, j) == Floor(y, j)
    ensures Floor(x, k) == Floor(y, k)
  {
    if j != 0 { CoarserBlock(x / 2, y / 2, j - 1, k - 1); }
  }

  /** Or-ing j ones sets the j low bits; and-ing their complement clears them. */
  lemma {:induction false} BitOrIsCeiling(a: nat, j: nat, k: nat)
    requires j <= k && a < Pow2(k)
    ensures BitOr(a, Pow2(j) - 1, k) == Ceiling(a, j)
  {
    if k != 0 {
      BitOrIsCeiling(a / 2, if j == 0 then 0 else j - 1, k - 1);
      if j != 0 { BitOrOnes(a, Pow2(j - 1), k); }
    }
  }

  /** One byte under a mask with j host bits. */
  lemma ByteMask(b: byte, j: nat)
    requires j <= 8
    ensures 0 < Pow2(j) <= 256
    ensures ByteOr(b, Pow2(j) - 1) == Ceiling(b, j)
    ensures ByteAnd(b, 256 - Pow2(j)) == Floor(b, j)
  {
    hide BitOr, BitAnd, Ceiling, Floor, Pow2;
    Pow2Byte();
    Pow2Mono(j, 8);
    BitOrIsCeiling(b, j, BYTE_BITS);
    BitAndComplement(b, Pow2(j) - 1, BYTE_BITS);
    BlockBounds(b, j);
  }

  lemma SameMask(ones: nat, ones': nat, l: nat, i: nat)
    requires i < l && ones' == if ones < 8 * l then ones else 8 * l
    ensures MaskByte(ones, i) == MaskByte(ones', i)
  {
    hide Pow2;
  }

  /** The last byte is masked on its own, the others as in the shorter address. */
  lemma MaskPrefix(ip: IP, ones: nat, ones': nat)
    requires ip != [] && ones <= 8 * |ip|
    requires ones' == if ones < 8 * (|ip| - 1) then ones else 8 * (|ip| - 1)
    ensures var l := |ip| - 1;
            Num(LastBytes(ip, ones)) ==
              Num(LastBytes(ip[..l], ones')) * 256 + ByteOr(ip[l], 255 - MaskByte(ones, l)) &&
            Num(MaskedBytes(ip, ones)) == Num(MaskedBytes(ip[..l], ones')) * 256 + ByteAnd(ip[l], MaskByte(ones, l))
  {
    hide Num, MaskByte, ByteOr, ByteAnd;
    var l := |ip| - 1;
    forall i: nat | i < l ensures MaskByte(ones, i) == MaskByte(ones', i) { SameMask(ones, ones', l, i); }
    var last, masked := LastBytes(ip, ones), MaskedBytes(ip, ones);
    assert last[..l] == LastBytes(ip[..l], ones');
    assert masked[..l] == MaskedBytes(ip[..l], ones');
    NumLast(last);
    NumLast(masked);
  }

  lemma NumLast(s: IP)
    requires s != []
    ensures Num(s) == Num(s[..|s| - 1]) * 256 + s[|s| - 1]
  {
  }

  lemma NothingMasked(ip: IP, ones: nat)
    requires ip == [] && ones == 0
    ensures Num(LastBytes(ip, ones)) == Ceiling(Num(ip), 0) && Num(MaskedBytes(ip, ones)) == Floor(Num(ip), 0)
  {
  }

  /** Setting the host bits moves an address to the end of its block. */
  lemma {:induction false} LastNumeric(ip: IP, ones: nat)
    requires ones <= 8 * |ip|
    ensures Num(LastBytes(ip, ones)) == Ceiling(Num(ip), 8 * |ip| - ones)
  {
    hide Num, MaskByte, LastBytes, ByteOr, ByteAnd, MaskedBytes, Ceiling, Floor;
    if ip == [] {
      NothingMasked(ip, ones);
    } else {
      var l := |ip| - 1;
      var ones' := if ones < 8 * l then ones else 8 * l;
      LastNumeric(ip[..l], ones');
      MaskPrefix(ip, ones, ones');
      MaskDigits(Num(ip[..l]), ip[l], l, ones);
      NumLast(ip);
    }
  }

  /** Clearing them moves it to the start. */
  lemma {:induction false} MaskedNumeric(ip: IP, ones: nat)
    requires ones <= 8 * |ip|
    ensures Num(MaskedBytes(ip, ones)) == Floor(Num(ip), 8 * |ip| - ones)
  {
    hide Num, MaskByte, LastBytes, ByteOr, ByteAnd, MaskedBytes, Ceiling, Floor;
    if ip == [] {
      NothingMasked(ip, ones);
    } else {
      var l := |ip| - 1;
      var ones' := if ones < 8 * l then ones else 8 * l;
      MaskedNumeric(ip[..l], ones');
      MaskPrefix(ip, ones, ones');
      MaskDigits(Num(ip[..l]), ip[l], l, ones);
      NumLast(ip);
    }
  }

  lemma TwoBits(x: nat, j: nat)
    ensures Floor(x, 2 + j) == 4 * Floor(x / 2 / 2, j)
    ensures Ceiling(x, 2 + j) == 4 * Ceiling(x / 2 / 2, j) + 3
  {
    assert Floor(x / 2, 1 + j) == 2 * Floor(x / 2 / 2, j);
    assert Ceiling(x / 2, 1 + j) == 2 * Ceiling(x / 2 / 2, j) + 1;
  }

  /** With more than eight host bits the last byte is all host bits. */
  lemma HighBits(a: nat, b: byte, j: nat)
    ensures Floor(a * 256 + b, 8 + j) == Floor(a, j) * 256
    ensures Ceiling(a * 256 + b, 8 + j) == Ceiling(a, j) * 256 + 255
  {
    var x := a * 256 + b;
    assert x / 2 / 2 / 2 / 2 / 2 / 2 / 2 / 2 == a;
    TwoBits(x, 6 + j);
    TwoBits(x / 2 / 2, 4 + j);
    TwoBits(x / 2 / 2 / 2 / 2, 2 + j);
    TwoBits(x / 2 / 2 / 2 / 2 / 2 / 2, j);
  }

  lemma Doubled(p: int, a: int)
    ensures (2 * p) * a == 2 * (p * a)
  {
  }

  /** With at most i host bits everything above the i low bits is kept. */
  lemma {:induction false} LowBits(a: nat, b: nat, i: nat, j: nat)
    requires j <= i
    ensures Floor(Pow2(i) * a + b, j) == Pow2(i) * a + Floor(b, j)
    ensures Ceiling(Pow2(i) * a + b, j) == Pow2(i) * a + Ceiling(b, j)
  {
    if j != 0 {
      var t := Pow2(i - 1) * a;
      Doubled(Pow2(i - 1), a);
      assert (2 * t + b) / 2 == t + b / 2;
      LowBits(a, b / 2, i - 1, j - 1);
    }
  }

  /** The numeric effect of the mask, from that on the leading l bytes and on the last byte. */
  lemma {:induction false} MaskDigits(x: nat, b: byte, l: nat, ones: nat)
    requires ones <= 8 * (l + 1)
    ensures var j, m := 8 * (l + 1) - ones, MaskByte(ones, l);
            var j' := if ones < 8 * l then 8 * l - ones else 0;
            Ceiling(x * 256 + b, j) == Ceiling(x, j') * 256 + ByteOr(b, 255 - m) &&
            Floor(x * 256 + b, j) == Floor(x, j') * 256 + ByteAnd(b, m)
  {
    hide ByteOr, ByteAnd, Pow2;
    if ones <= 8 * l {
      hide Ceiling, Floor;
      HighBits(x, b, 8 * l - ones);
      NoMask(b);
      assert 8 + (8 * l - ones) == 8 * (l + 1) - ones;
    } else {
      Pow2Byte();
      PartMask(x, b, 8 * (l + 1) - ones);
    }
  }

  lemma NoMask(b: byte)
    ensures ByteOr(b, 255) == 255 && ByteAnd(b, 0) == 0
  {
    Pow2Byte();
    ByteMask(b, 8);
    BlockBounds(b, 8);
  }

  lemma {:induction false} PartMask(x: nat, b: byte, j: nat)
    requires j < 8
    ensures 0 < Pow2(j) <= 256
    ensures Ceiling(x * 256 + b, j) == x * 256 + ByteOr(b, Pow2(j) - 1)
    ensures Floor(x * 256 + b, j) == x * 256 + ByteAnd(b, 256 - Pow2(j))
  {
    hide ByteOr, ByteAnd, Ceiling, Floor;
    Pow2Byte();
    ByteMask(b, j);
    LowBits(x, b, 8, j);
  }

  /** First and last address of the block of a network, as numbers. */
  function BlockStart(n: IPNet): int
    requires n.ones <= 8 * |n.ip|
  {
    Floor(Num(n.ip), HostBits(n))
  }

  function BlockEnd(n: IPNet): int
    requires n.ones <= 8 * |n.ip|
  {
    Ceiling(Num(n.ip), HostBits(n))
  }

  lemma LastIsBlockEnd(n: IPNet)
    requires n.ones <= 8 * |n.ip|
    ensures Num(Last(n)) == BlockEnd(n)
    ensures BlockStart(n) <= Num(n.ip) <= BlockEnd(n)
  {
    LastNumeric(n.ip, n.ones);
    BlockBounds(Num(n.ip), HostBits(n));
  }

  /** Masked bytes agree exactly when the masked numbers do. */
  lemma MaskedAgree(a: IP, b: IP, ones: nat)
    requires |a| == |b| && ones <= 8 * |a|
    ensures var j := 8 * |a| - ones;
            MaskedBytes(a, ones) == MaskedBytes(b, ones) <==> Floor(Num(a), j) == Floor(Num(b), j)
  {
    hide Num, Floor;
    MaskedNumeric(a, ones);
    MaskedNumeric(b, ones);
    var x, y := MaskedBytes(a, ones), MaskedBytes(b, ones);
    if Num(x) == Num(y) { NumInjective(x, y); }
  }

  /** An address is contained exactly when it lies between the block's ends. */
  lemma {:induction false} ContainsIsBlock(n: IPNet, ip: IP)
    requires n.ones <= 8 * |n.ip| && |ip| == |n.ip|
    ensures Contains(n, ip) <==> BlockStart(n) <= Num(ip) <= BlockEnd(n)
  {
    MaskedAgree(n.ip, ip, n.ones);
    SameBlock(Num(ip), Num(n.ip), HostBits(n));
  }

  predicate InBlock(n: IPNet, x: int)
    requires n.ones <= 8 * |n.ip|
  {
    BlockStart(n) <= x <= BlockEnd(n)
  }

  /** Two blocks with a common address are nested, the longer prefix inside. */
  lemma BlocksNest(a: IPNet, b: IPNet, z: nat, x: nat)
    requires |a.ip| == |b.ip| && a.ones <= b.ones <= 8 * |b.ip|
    requires InBlock(a, z) && InBlock(b, z) && InBlock(b, x)
    ensures InBlock(a, x)
  {
    SameBlock(z, Num(a.ip), HostBits(a));
    SameBlock(z, Num(b.ip), HostBits(b));
    SameBlock(x, Num(b.ip), HostBits(b));
    CoarserBlock(x, z, HostBits(b), HostBits(a));
    SameBlock(x, Num(a.ip), HostBits(a));
  }

  /** The two-point test of the source decides inclusion of every address from sub.ip to sub's end. */
  lemma ContainsSubnetIsInclusion(super: IPNet, sub: IPNet)
    requires super.ones <= 8 * |super.ip| && sub.ones <= 8 * |sub.ip| && |super.ip| == |sub.ip|
    ensures ContainsSubnet(super, sub) <==>
            forall ip: IP :: |ip| == |sub.ip| && Num(sub.ip) <= Num(ip) <= Num(Last(sub)) ==> Contains(super, ip)
    ensures ContainsSubnet(super, sub) <==>
            BlockStart(super) <= Num(sub.ip) && BlockEnd(sub) <= BlockEnd(super)
  {
    ContainsIsBlock(super, sub.ip);
    ContainsIsBlock(super, Last(sub));
    LastIsBlockEnd(sub);
    forall ip: IP | ContainsSubnet(super, sub) && |ip| == |sub.ip| && Num(sub.ip) <= Num(ip) <= Num(Last(sub))
      ensures Contains(super, ip)
    {
      ContainsIsBlock(super, ip);
    }
  }
}
