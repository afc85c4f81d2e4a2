/** The Internet checksum (sections 1 and 2 of RFC 1071) as the scanner computes it. */
module Checksum {
  import opened Bytes

  function Word(hi: int, lo: int): int {
    hi * 256 + lo
  }

  /** Sum of the big-endian 16-bit words, an odd last byte being padded with zero. */
  function WordSum(data: seq<byte>): nat {
    var n := |data|;
    if n == 0 then 0
    else if n % 2 == 1 then WordSum(data[..n - 1]) + Word(data[n - 1], 0)
    else WordSum(data[..n - 2]) + Word(data[n - 2], data[n - 1])
  }

  /** End-around carry until 16 bits are left. */
  function Fold(s: nat): (r: nat)
    ensures r < 0x10000
  {
    if s < 0x10000 then s else Fold(s % 0x10000 + s / 0x10000)
  }

  /** One's complement of the one's-complement sum. */
  function Sum16(data: seq<byte>): nat {
    0xFFFF - Fold(WordSum(data))
  }

  // ---------------------------------------------------------------- folding

  lemma ModShift(a: int, q: int)
    ensures (a + 0xFFFF * q) % 0xFFFF == a % 0xFFFF
  {
    DivModUnique(a + 0xFFFF * q, 0xFFFF, a / 0xFFFF + q, a % 0xFFFF);
  }

  /** Folding is reduction modulo 65535 with 65535 in place of a non-zero 0. */
  lemma {:induction false} FoldClosedForm(s: nat)
    ensures Fold(s) == if s == 0 then 0 else (s - 1) % 0xFFFF + 1
  {
    if s >= 0x10000 {
      var q, r := s / 0x10000, s % 0x10000;
      FoldClosedForm(r + q);
      ModShift(r + q - 1, q);
    }
  }

  /** One end-around carry. */
  function Carry(s: nat): (r: nat)
    ensures s < 0x10000 ==> r == s
    ensures s < 0x20000 - 1 ==> r < 0x10000
    ensures s < 0x1_0000_0000 ==> r < 0x20000 - 1
  {
    s % 0x10000 + s / 0x10000
  }

  lemma FoldCarry(s: nat)
    ensures Fold(s) == Fold(Carry(s))
    ensures s < 0x10000 ==> Fold(s) == s
  {
  }

  /** Two unconditional folds are enough for every 32-bit sum. */
  lemma TwoFoldsSuffice(s: nat)
    requires s < 0x1_0000_0000
    ensures Carry(Carry(s)) == Fold(s)
  {
    hide Fold, Carry;
    FoldCarry(s);
    FoldCarry(Carry(s));
    FoldCarry(Carry(Carry(s)));
  }

  // ---------------------------------------------------------------- word sums

  lemma {:induction false} WordSumConcat(a: seq<byte>, b: seq<byte>)
    requires |a| % 2 == 0
    ensures WordSum(a + b) == WordSum(a) + WordSum(b)
  {
    if b == [] {
      assert a + b == a;
    } else {
      var k := if |b| % 2 == 1 then 1 else 2;
      assert |a + b| % 2 == |b| % 2;
      TailOfConcat(a, b, k);
      WordSumConcat(a, b[..|b| - k]);
    }
  }

  lemma TailOfConcat(a: seq<byte>, b: seq<byte>, k: nat)
    requires k <= |b|
    ensures (a + b)[..|a + b| - k] == a + b[..|b| - k]
  {
  }

  lemma WordSumTwo(x: byte, y: byte)
    ensures WordSum([x, y]) == Word(x, y)
  {
    assert WordSum([x, y][..0]) == 0;
  }

  lemma WordSumNone(data: seq<byte>)
    ensures WordSum(data[..0]) == 0
  {
  }

  lemma {:induction false} WordSumBound(data: seq<byte>)
    ensures WordSum(data) <= if |data| % 2 == 0 then |data| / 2 * 0xFFFF else |data| / 2 * 0xFFFF + 0xFF00
  {
    if |data| % 2 == 1 {
      WordSumBound(data[..|data| - 1]);
    } else if data != [] {
      WordSumBound(data[..|data| - 2]);
    }
  }

  lemma {:induction false} WordSumOnes(n: nat)
    ensures WordSum(seq(n, _ => 255)) == if n % 2 == 0 then n / 2 * 0xFFFF else n / 2 * 0xFFFF + 0xFF00
  {
    var s: seq<byte> := seq(n, _ => 255);
    if n % 2 == 1 {
      WordSumOnes(n - 1);
      assert s[..n - 1] == seq(n - 1, _ => 255);
    } else if n != 0 {
      WordSumOnes(n - 2);
      assert s[..n - 2] == seq(n - 2, _ => 255);
    }
  }

  /** The data as whole words. */
  function Padded(data: seq<byte>): seq<byte> {
    if |data| % 2 == 1 then data + [0] else data
  }

  /** One more word behind a big-endian number, modulo 65535: the words just add up. */
  lemma WordBehind(n: nat, s: nat, w: nat)
    requires n % 0xFFFF == s % 0xFFFF
    ensures (n * 0x10000 + w) % 0xFFFF == (s + w) % 0xFFFF
  {
    ModShift(n + w, n);
    ModShift(s % 0xFFFF + w, s / 0xFFFF);
    ModShift(n % 0xFFFF + w, n / 0xFFFF);
  }

  /** The word sum is congruent to the big-endian number the data denotes, and zero only with it. */
  lemma {:induction false} WordSumIsNumber(data: seq<byte>)
    ensures WordSum(data) % 0xFFFF == Num(Padded(data)) % 0xFFFF
    ensures WordSum(data) == 0 <==> Num(Padded(data)) == 0
  {
    hide Num, Word;
    var n := |data|;
    NumNone();
    if n % 2 == 1 {
      WordSumIsNumber(data[..n - 1]);
      assert WordSum(data) == WordSum(data[..n - 1]) + Word(data[n - 1], 0);
      LastWord(data[..n - 1], data[n - 1], 0);
      assert Padded(data) == data[..n - 1] + [data[n - 1], 0];
    } else if n > 0 {
      WordSumIsNumber(data[..n - 2]);
      assert WordSum(data) == WordSum(data[..n - 2]) + Word(data[n - 2], data[n - 1]);
      LastWord(data[..n - 2], data[n - 2], data[n - 1]);
      assert data == data[..n - 2] + [data[n - 2], data[n - 1]];
    }
  }

  lemma NumNone()
    ensures Num([]) == 0
  {
  }

  lemma LastWord(init: seq<byte>, x: byte, y: byte)
    requires |init| % 2 == 0 && WordSum(init) % 0xFFFF == Num(init) % 0xFFFF && (WordSum(init) == 0 <==> Num(init) == 0)
    ensures var s, n := WordSum(init) + Word(x, y), Num(init + [x, y]);
            s % 0xFFFF == n % 0xFFFF && (s == 0 <==> n == 0)
  {
    hide WordSum, Num;
    TwoDigits(init, x, y);
    WordBehind(Num(init), WordSum(init), Word(x, y));
  }

  lemma TwoDigits(s: seq<byte>, x: byte, y: byte)
    ensures Num(s + [x, y]) == Num(s) * 0x10000 + (x * 256 + y)
  {
    var t := s + [x, y];
    assert t[..|t| - 1] == s + [x] && (s + [x])[..|s|] == s;
  }

  /**
   What the checksum is, without words or carries: data sums to zero if and only if the big-endian number it denotes,
   padded to whole words, is a positive multiple of 65535.
   */
  lemma SumsToZeroExactly(data: seq<byte>)
    ensures Sum16(data) == 0 <==> Num(Padded(data)) > 0 && Num(Padded(data)) % 0xFFFF == 0
  {
    hide WordSum, Num, Fold;
    WordSumIsNumber(data);
    FoldMod(WordSum(data));
  }

  /** The 32-bit accumulator cannot overflow exactly up to 131074 bytes. */
  lemma AccumulatorFits(n: nat)
    ensures n <= 131074 <==> forall data: seq<byte> :: |data| == n ==> WordSum(data) < 0x1_0000_0000
  {
    if n <= 131074 {
      forall data: seq<byte> | |data| == n ensures WordSum(data) < 0x1_0000_0000 {
        WordSumBound(data);
      }
    } else {
      WordSumOnes(n);
      var s: seq<byte> := seq(n, _ => 255);
      assert |s| == n && WordSum(s) >= 0x1_0000_0000;
    }
  }

  // ---------------------------------------------------------------- the method

  lemma Wrap32(x: int, w: int)
    ensures (x % 0x1_0000_0000 + w) % 0x1_0000_0000 == (x + w) % 0x1_0000_0000
  {
    var r := x % 0x1_0000_0000 + w;
    var q := r / 0x1_0000_0000;
    DivModUnique(x + w, 0x1_0000_0000, x / 0x1_0000_0000 + q, r % 0x1_0000_0000);
  }

  /** Adds up the words in a 32-bit accumulator. */
  method Accumulate(data: seq<byte>) returns (sum: nat)
    ensures sum == WordSum(data) % 0x1_0000_0000
  {
    hide WordSum, Word;
    WordSumNone(data);
    sum := 0;
    var i := 0;
    while i < |data| - 1
      invariant 0 <= i <= |data| && i % 2 == 0
      invariant sum == WordSum(data[..i]) % 0x1_0000_0000
    {
      PairStep(data, i);
      Wrap32(WordSum(data[..i]), Word(data[i], data[i + 1]));
      sum := (sum + Word(data[i], data[i + 1])) % 0x1_0000_0000;
      i := i + 2;
    }
    if |data| % 2 != 0 {
      assert i == |data| - 1;
      OddStep(data);
      Wrap32(WordSum(data[..i]), Word(data[i], 0));
      sum := (sum + Word(data[|data| - 1], 0)) % 0x1_0000_0000;
    } else {
      TakeAll(data);
    }
  }

  /** Accumulates, then folds while a carry is left; exact for every input whose word sum fits 32 bits. */
  method ComputeChecksum(data: seq<byte>) returns (c: nat)
    ensures c == 0xFFFF - Fold(WordSum(data) % 0x1_0000_0000)
    ensures |data| <= 131074 ==> c == Sum16(data)
  {
    var sum := Accumulate(data);
    while sum / 0x10000 > 0
      invariant Fold(sum) == Fold(WordSum(data) % 0x1_0000_0000)
      decreases sum
    {
      sum := sum % 0x10000 + sum / 0x10000;
    }
    c := 0xFFFF - sum;
    if |data| <= 131074 { AccumulatorFits(|data|); }
  }

  lemma PairStep(data: seq<byte>, i: nat)
    requires i + 1 < |data| && i % 2 == 0
    ensures WordSum(data[..i + 2]) == WordSum(data[..i]) + Word(data[i], data[i + 1])
  {
    assert data[..i + 2][..i] == data[..i];
  }

  lemma OddStep(data: seq<byte>)
    requires |data| % 2 == 1
    ensures WordSum(data) == WordSum(data[..|data| - 1]) + Word(data[|data| - 1], 0)
  {
  }

  /** The straight-line variant of the ping sender: twenty bytes and two folds, no loop over the carry. */
  method HeaderChecksum(buf: seq<byte>) returns (c: nat)
    requires |buf| == 20
    ensures c == Sum16(buf)
  {
    hide WordSum, Fold, Word;
    WordSumNone(buf);
    var sum: nat := 0;
    var j := 0;
    while j < 20
      invariant 0 <= j <= 20 && j % 2 == 0
      invariant sum == WordSum(buf[..j]) % 0x1_0000_0000
    {
      PairStep(buf, j);
      Wrap32(WordSum(buf[..j]), Word(buf[j], buf[j + 1]));
      sum := (sum + Word(buf[j], buf[j + 1])) % 0x1_0000_0000;
      j := j + 2;
    }
    TakeAll(buf);
    WordSumBound(buf);
    TwoFoldsSuffice(sum);
    sum := sum % 0x10000 + sum / 0x10000;
    sum := sum % 0x10000 + sum / 0x10000;
    c := 0xFFFF - sum;
  }

  // ---------------------------------------------------------------- verification by re-summing

  function U16(v: int): (s: seq<byte>)
    ensures |s| == 2
  {
    [v / 256 % 256, v % 256]
  }

  lemma U16IsNumber(v: nat)
    ensures Num(U16(v)) == v % 0x10000
  {
    assert v % 0x10000 == v / 256 % 256 * 256 + v % 256;
    TwoDigits([], v / 256 % 256, v % 256);
    assert [] + U16(v) == U16(v);
  }

  /** s with t written over it from offset off on. */
  function Splice(s: seq<byte>, off: nat, t: seq<byte>): (r: seq<byte>)
    requires off + |t| <= |s|
    ensures |r| == |s|
    ensures r[..off] == s[..off] && r[off..off + |t|] == t && r[off + |t|..] == s[off + |t|..]
  {
    s[..off] + t + s[off + |t|..]
  }

  /** A two-byte field still zero, at an even offset. */
  predicate EmptyField(data: seq<byte>, off: nat) {
    off % 2 == 0 && off + 2 <= |data| && data[off] == 0 && data[off + 1] == 0
  }

  lemma WordSumThree(a: seq<byte>, t: seq<byte>, b: seq<byte>)
    requires |a| % 2 == 0 && |t| % 2 == 0
    ensures WordSum(a + t + b) == WordSum(a) + WordSum(t) + WordSum(b)
  {
    WordSumConcat(a + t, b);
    WordSumConcat(a, t);
  }

  lemma SpliceSum(data: seq<byte>, off: nat, t: seq<byte>)
    requires off % 2 == 0 && |t| == 2 && off + 2 <= |data|
    ensures WordSum(Splice(data, off, t)) == WordSum(data) - WordSum(data[off..off + 2]) + WordSum(t)
  {
    var a, z, b := data[..off], data[off..off + 2], data[off + 2..];
    assert data == a + z + b;
    WordSumThree(a, z, b);
    WordSumThree(a, t, b);
  }

  lemma FieldAdds(data: seq<byte>, off: nat, v: nat)
    requires EmptyField(data, off) && v <= 0xFFFF
    ensures WordSum(Splice(data, off, U16(v))) == WordSum(data) + v
  {
    SpliceSum(data, off, U16(v));
    assert data[off..off + 2] == [0, 0];
    WordSumTwo(0, 0);
    WordSumTwo(v / 256 % 256, v % 256);
  }

  lemma FoldMod(s: nat)
    ensures Fold(s) % 0xFFFF == s % 0xFFFF
    ensures Fold(s) == 0xFFFF <==> s > 0 && s % 0xFFFF == 0
  {
    hide Fold;
    FoldClosedForm(s);
    if s > 0 {
      var q, r := (s - 1) / 0xFFFF, (s - 1) % 0xFFFF;
      if r + 1 < 0xFFFF { DivModUnique(s, 0xFFFF, q, r + 1); } else { DivModUnique(s, 0xFFFF, q + 1, 0); }
    }
  }

  lemma Complement(a: nat, f: nat, v: nat)
    requires f % 0xFFFF == a % 0xFFFF && f <= 0xFFFF
    ensures (a + v) % 0xFFFF == 0 <==> v % 0xFFFF == (0xFFFF - f) % 0xFFFF
  {
    ModShift(a % 0xFFFF + v % 0xFFFF, a / 0xFFFF + v / 0xFFFF);
    var t := a % 0xFFFF + v % 0xFFFF;
    if t >= 0xFFFF { ModShift(t - 0xFFFF, 1); }
  }

  /** Which field values make the data sum to zero: the checksum, and nothing else modulo 65535. */
  lemma VerifiesExactly(data: seq<byte>, off: nat, v: nat)
    requires EmptyField(data, off) && v <= 0xFFFF
    ensures Sum16(Splice(data, off, U16(v))) == 0 <==>
            (v % 0xFFFF == Sum16(data) % 0xFFFF && (v != 0 || WordSum(data) != 0))
  {
    hide WordSum, Fold, Splice;
    FieldAdds(data, off, v);
    FoldMod(WordSum(data));
    FoldMod(WordSum(data) + v);
    Complement(WordSum(data), Fold(WordSum(data)), v);
  }

  /** Writing the checksum, or 65535 in place of a zero checksum, makes the data verify. */
  lemma ChecksumVerifies(data: seq<byte>, off: nat)
    requires EmptyField(data, off)
    ensures Sum16(Splice(data, off, U16(Sum16(data)))) == 0
    ensures Sum16(data) == 0 ==> Sum16(Splice(data, off, U16(0xFFFF))) == 0
  {
    FoldMod(WordSum(data));
    VerifiesExactly(data, off, Sum16(data));
    VerifiesExactly(data, off, 0xFFFF);
  }
}
