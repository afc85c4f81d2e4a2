/** Big-endian byte strings, the numbers they denote, and the byte operators the address code uses. */
module Bytes {

  type byte = x: int | 0 <= x < 256

  datatype Option<+T> = None | Some(value: T)

  datatype Result<+T, +E> = Success(value: T) | Failure(error: E)

  function Pow2(n: nat): (p: nat)
    ensures p > 0
  {
    if n == 0 then 1 else 2 * Pow2(n - 1)
  }

  /** The number of byte strings of length w. */
  function Space(w: nat): (p: nat)
    ensures p > 0
  {
    Pow2(8 * w)
  }

  /** The number a big-endian byte string denotes. */
  function Num(s: seq<byte>): nat {
    if s == [] then 0 else Num(s[..|s| - 1]) * 256 + s[|s| - 1]
  }

  /** The w low-order bytes of x, most significant first. */
  function ToBytes(x: nat, w: nat): (s: seq<byte>)
    ensures |s| == w
  {
    if w == 0 then [] else ToBytes(x / 256, w - 1) + [x % 256]
  }

  /** Lexicographic three-way comparison, a proper prefix being smaller. */
  function Compare(a: seq<byte>, b: seq<byte>): int {
    if a == [] then (if b == [] then 0 else -1)
    else if b == [] then 1
    else if a[0] < b[0] then -1
    else if a[0] > b[0] then 1
    else Compare(a[1..], b[1..])
  }

  /** Bitwise or of the k low-order bits. */
  function BitOr(a: nat, b: nat, k: nat): (r: nat)
    ensures r < Pow2(k)
  {
    if k == 0 then 0 else 2 * BitOr(a / 2, b / 2, k - 1) + (if a % 2 == 1 || b % 2 == 1 then 1 else 0)
  }

  /** Bitwise and of the k low-order bits. */
  function BitAnd(a: nat, b: nat, k: nat): (r: nat)
    ensures r < Pow2(k)
  {
    if k == 0 then 0 else 2 * BitAnd(a / 2, b / 2, k - 1) + (if a % 2 == 1 && b % 2 == 1 then 1 else 0)
  }

  // ---------------------------------------------------------------- sequences

  lemma TakeAll<T>(s: seq<T>)
    ensures s[..|s|] == s
  {
  }

  lemma TakeNext<T>(s: seq<T>, i: nat)
    requires i < |s|
    ensures s[..i + 1] == s[..i] + [s[i]] && s[..i + 1][..i] == s[..i]
  {
  }

  /** Reorders in place by swapping each element with one at or before it. */
  method Shuffle<T>(a: array<T>)
    modifies a
    ensures multiset(a[..]) == old(multiset(a[..]))
  {
    var i := a.Length - 1;
    while i > 0
      invariant -1 <= i < a.Length
      invariant multiset(a[..]) == old(multiset(a[..]))
    {
      var j :| 0 <= j <= i;
      a[i], a[j] := a[j], a[i];
      i := i - 1;
    }
  }

  // ---------------------------------------------------------------- arithmetic

  lemma DivModUnique(a: int, d: int, q: int, r: int)
    requires d > 0 && a == d * q + r && 0 <= r < d
    ensures a / d == q && a % d == r
  {
    var e := a / d - q;
    assert a == d * (a / d) + a % d;
    assert d * (a / d) == d * q + d * e;
    if e > 0 { MulAtLeast(d, e); }
    if e < 0 { assert d * -e == -(d * e); MulAtLeast(d, -e); }
  }

  lemma MulAtLeast(d: int, e: int)
    requires d > 0 && e > 0
    ensures d * e >= d
  {
  }

  lemma Distribute(a: int, b: int, c: int)
    ensures (a + b) * c == a * c + b * c
  {
  }

  /** Digit-by-digit order: a larger leading digit outweighs any remainder. */
  lemma LeadingDigit(a: int, b: int, m: int, x: int, y: int)
    requires a < b && 0 <= x < m && 0 <= y < m
    ensures a * m + x < b * m + y
  {
    MulAtLeast(m, b - a);
    assert b * m == a * m + m * (b - a);
  }

  lemma {:induction false} Pow2Add(a: nat, b: nat)
    ensures Pow2(a + b) == Pow2(a) * Pow2(b)
  {
    if a != 0 { Pow2Add(a - 1, b); }
  }

  lemma {:induction false} Pow2Mono(a: nat, b: nat)
    requires a <= b
    ensures Pow2(a) <= Pow2(b)
  {
    if a < b { Pow2Mono(a, b - 1); }
  }

  lemma Pow2Byte()
    ensures Pow2(8) == 256 && Pow2(0) == 1
  {
    assert Pow2(4) == 16;
  }

  lemma SpaceStep(w: nat)
    requires w > 0
    ensures Space(w) == 256 * Space(w - 1)
  {
    Pow2Add(8, 8 * (w - 1));
    Pow2Byte();
  }

  lemma SpaceBig(w: nat)
    requires w > 0
    ensures Space(w) >= 256
  {
    Pow2Mono(8, 8 * w);
    Pow2Byte();
  }

  lemma Staged(a: int, b: int, p: int, s: int)
    ensures a * (b * p + s) == (a * b) * p + a * s
  {
  }

  lemma BelowProduct(a: int, b: int, s: int, r: int)
    requires 0 <= s < b && 0 <= r < a
    ensures 0 <= a * s && a * s + r < a * b && a * b > 0
  {
    MulAtLeast(a, b - s);
    assert a * b == a * s + a * (b - s);
    if s > 0 { MulAtLeast(a, s); }
  }

  /** Dividing in two stages. */
  lemma DivDiv(x: nat, a: nat, b: nat)
    requires a > 0 && b > 0
    ensures a * b > 0 && x / (a * b) == (x / a) / b
    ensures x % (a * b) == a * ((x / a) % b) + x % a
  {
    var q := x / a;
    var p, s, r := q / b, q % b, x % a;
    Staged(a, b, p, s);
    BelowProduct(a, b, s, r);
    DivModUnique(x, a * b, p, a * s + r);
  }

  // ---------------------------------------------------------------- Num

  lemma {:induction false} NumBound(s: seq<byte>)
    ensures Num(s) < Space(|s|)
  {
    if s != [] {
      NumBound(s[..|s| - 1]);
      SpaceStep(|s|);
    }
  }

  lemma {:induction false} NumConcat(a: seq<byte>, b: seq<byte>)
    ensures Num(a + b) == Num(a) * Space(|b|) + Num(b)
  {
    if b == [] {
      assert a + b == a;
    } else {
      var c := b[..|b| - 1];
      assert (a + b)[..|a + b| - 1] == a + c;
      NumConcat(a, c);
      SpaceStep(|b|);
      ShiftDigits(Num(a), Space(|c|), Num(c), b[|b| - 1]);
    }
  }

  lemma ShiftDigits(p: int, m: int, c: int, d: int)
    ensures (p * m + c) * 256 + d == p * (256 * m) + (c * 256 + d)
  {
    assert (p * m) * 256 == p * (256 * m);
  }

  lemma {:induction false} NumInjective(a: seq<byte>, b: seq<byte>)
    requires |a| == |b| && Num(a) == Num(b)
    ensures a == b
  {
    if a != [] {
      NumInjective(a[..|a| - 1], b[..|b| - 1]);
      assert a == a[..|a| - 1] + [a[|a| - 1]];
      assert b == b[..|b| - 1] + [b[|b| - 1]];
    }
  }

  /** Encoding a number and reading it back. */
  lemma {:induction false} NumToBytes(x: nat, w: nat)
    requires x < Space(w)
    ensures Num(ToBytes(x, w)) == x
  {
    if w != 0 {
      SpaceStep(w);
      NumToBytes(x / 256, w - 1);
      assert ToBytes(x, w)[..w - 1] == ToBytes(x / 256, w - 1);
    }
  }

  lemma ToBytesNum(s: seq<byte>)
    ensures ToBytes(Num(s), |s|) == s
  {
    NumBound(s);
    NumToBytes(Num(s), |s|);
    NumInjective(ToBytes(Num(s), |s|), s);
  }

  /** On byte strings of equal length, byte order is numeric order. */
  lemma {:induction false} CompareIsNumeric(a: seq<byte>, b: seq<byte>)
    requires |a| == |b|
    ensures Compare(a, b) < 0 <==> Num(a) < Num(b)
    ensures Compare(a, b) > 0 <==> Num(a) > Num(b)
    ensures Compare(a, b) == 0 <==> a == b
  {
    if a != [] {
      CompareIsNumeric(a[1..], b[1..]);
      assert a == [a[0]] + a[1..] && b == [b[0]] + b[1..];
      NumConcat([a[0]], a[1..]);
      NumConcat([b[0]], b[1..]);
      NumBound(a[1..]);
      NumBound(b[1..]);
      var m := Space(|a| - 1);
      assert Num([a[0]]) == a[0] && Num([b[0]]) == b[0];
      if a[0] < b[0] {
        LeadingDigit(a[0], b[0], m, Num(a[1..]), Num(b[1..]));
      } else if a[0] > b[0] {
        LeadingDigit(b[0], a[0], m, Num(b[1..]), Num(a[1..]));
      } else if a[1..] == b[1..] {
        assert a == b;
      }
    }
  }

  // ---------------------------------------------------------------- masks

  lemma BitOrOnes(a: nat, h: nat, k: nat)
    requires k > 0 && h > 0
    ensures BitOr(a, 2 * h - 1, k) == 2 * BitOr(a / 2, h - 1, k - 1) + 1
  {
    assert (2 * h - 1) / 2 == h - 1 && (2 * h - 1) % 2 == 1;
  }

  /** Masking and setting the complementary bits differ by exactly the host bits. */
  lemma {:induction false} BitAndComplement(a: nat, m: nat, k: nat)
    requires m < Pow2(k)
    ensures BitAnd(a, Pow2(k) - 1 - m, k) + m == BitOr(a, m, k)
  {
    if k != 0 {
      BitAndComplement(a / 2, m / 2, k - 1);
      var p := Pow2(k - 1);
      assert (2 * p - 1 - m) / 2 == p - 1 - m / 2;
      assert (2 * p - 1 - m) % 2 == 1 - m % 2;
    }
  }
}
