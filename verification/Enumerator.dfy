/**
 Range enumeration in chunks of 64 and the membership test of the receive filter. A range is a pair of
 optional addresses: no end means the single start address, no start the single end address, neither
 means no address at all. A channel of chunks is the sequence of the chunks sent on it.
 */
module Enumerator {
  import opened Bytes
  import opened Addresses

  const CHUNK := 64

  // ---------------------------------------------------------------- reference enumeration

  /** The addresses numbered lo..hi, ascending. */
  function Span(lo: nat, hi: int, w: nat): (s: seq<IP>)
    ensures |s| == if lo <= hi then hi - lo + 1 else 0
  {
    seq(if lo <= hi then hi - lo + 1 else 0, i requires 0 <= i => ToBytes(lo + i, w))
  }

  /** The same addresses cut into consecutive pieces of 64. */
  function Slices(lo: nat, hi: int, w: nat): seq<seq<IP>>
    decreases hi - lo
  {
    if lo > hi then []
    else [Span(lo, if hi < lo + CHUNK - 1 then hi else lo + CHUNK - 1, w)] + Slices(lo + CHUNK, hi, w)
  }

  function Flatten<T>(ss: seq<seq<T>>): seq<T> {
    if ss == [] then [] else ss[0] + Flatten(ss[1..])
  }

  lemma {:induction false} FlattenSlices(lo: nat, hi: int, w: nat)
    ensures Flatten(Slices(lo, hi, w)) == Span(lo, hi, w)
    decreases hi - lo
  {
    if lo <= hi {
      FlattenSlices(lo + CHUNK, hi, w);
      var m := if hi < lo + CHUNK - 1 then hi else lo + CHUNK - 1;
      var ss := Slices(lo, hi, w);
      assert ss[0] == Span(lo, m, w) && ss[1..] == Slices(lo + CHUNK, hi, w);
      assert Span(lo, m, w) + Span(lo + CHUNK, hi, w) == Span(lo, hi, w);
    }
  }

  /** No piece is empty and every piece but the last has exactly 64 addresses. */
  lemma {:induction false} SliceSizes(lo: nat, hi: int, w: nat)
    ensures forall k :: 0 <= k < |Slices(lo, hi, w)| ==>
              0 < |Slices(lo, hi, w)[k]| <= CHUNK && (k < |Slices(lo, hi, w)| - 1 ==> |Slices(lo, hi, w)[k]| == CHUNK)
    ensures Slices(lo, hi, w) == [] <==> lo > hi
    decreases hi - lo
  {
    if lo <= hi {
      SliceSizes(lo + CHUNK, hi, w);
    }
  }

  lemma {:induction false} SliceAddresses(lo: nat, hi: int, w: nat)
    ensures forall k, i :: 0 <= k < |Slices(lo, hi, w)| && 0 <= i < |Slices(lo, hi, w)[k]| ==> |Slices(lo, hi, w)[k][i]| == w
    decreases hi - lo
  {
    var ss := Slices(lo, hi, w);
    if lo <= hi {
      SliceAddresses(lo + CHUNK, hi, w);
      forall k, i | 0 <= k < |ss| && 0 <= i < |ss[k]| ensures |ss[k][i]| == w {
        if k == 0 {
          assert ss[k][i] == ToBytes(lo + i, w);
        } else {
          assert ss[k] == Slices(lo + CHUNK, hi, w)[k - 1];
        }
      }
    }
  }

  /** Two chunk sequences that agree up to a reordering inside each chunk. */
  ghost predicate Shuffled(cs: seq<seq<IP>>, ds: seq<seq<IP>>) {
    |cs| == |ds| && forall k :: 0 <= k < |cs| ==> multiset(cs[k]) == multiset(ds[k])
  }

  lemma {:induction false} ShuffledFlatten(cs: seq<seq<IP>>, ds: seq<seq<IP>>)
    requires Shuffled(cs, ds)
    ensures multiset(Flatten(cs)) == multiset(Flatten(ds))
  {
    if cs != [] {
      ShuffledFlatten(cs[1..], ds[1..]);
    }
  }

  // ---------------------------------------------------------------- range representation

  /** Least and greatest of two optional addresses, a missing one being ignored. */
  function MaxIP(a: Option<IP>, b: Option<IP>): (r: Option<IP>)
    ensures r == a || r == b
    ensures r.None? <==> a.None? && b.None?
    ensures a.Some? && b.Some? ==> Compare(r.value, a.value) >= 0 && Compare(r.value, b.value) >= 0
  {
    if a.Some? && b.Some? then
      CompareSelf(a.value, b.value);
      if Compare(a.value, b.value) > 0 then a else b
    else if a.None? && b.Some? then b
    else a
  }

  function MinIP(a: Option<IP>, b: Option<IP>): (r: Option<IP>)
    ensures r == a || r == b
    ensures r.None? <==> a.None? && b.None?
    ensures a.Some? && b.Some? ==> Compare(r.value, a.value) <= 0 && Compare(r.value, b.value) <= 0
  {
    if a.Some? && b.Some? then
      CompareSelf(a.value, b.value);
      if Compare(a.value, b.value) < 0 then a else b
    else if a.None? && b.Some? then b
    else a
  }

  lemma {:induction false} CompareSelf(a: IP, b: IP)
    ensures Compare(a, b) == -Compare(b, a)
    ensures Compare(a, a) == 0 && Compare(b, b) == 0
  {
    if a != [] {
      if b != [] {
        CompareSelf(a[1..], b[1..]);
      } else {
        CompareSelf(a[1..], b);
      }
    } else if b != [] {
      CompareSelf(a, b[1..]);
    }
  }

  ghost predicate ValidRange(start: Option<IP>, end: Option<IP>, w: nat) {
    (start.Some? ==> |start.value| == w) && (end.Some? ==> |end.value| == w)
  }

  /** Numeric bounds of the addresses a range stands for: empty when the lower exceeds the upper. */
  function Lower(start: Option<IP>, end: Option<IP>): nat {
    match (start, end)
    case (None, None) => 1
    case (Some(s), None) => Num(s)
    case (None, Some(e)) => Num(e)
    case (Some(s), Some(e)) => if Num(s) < Num(e) then Num(s) else Num(e)
  }

  function Upper(start: Option<IP>, end: Option<IP>): nat {
    match (start, end)
    case (None, None) => 0
    case (Some(s), None) => Num(s)
    case (None, Some(e)) => Num(e)
    case (Some(s), Some(e)) => if Num(s) < Num(e) then Num(e) else Num(s)
  }

  lemma MinMaxNumeric(a: IP, b: IP)
    requires |a| == |b|
    ensures Num(MinIP(Some(a), Some(b)).value) == if Num(a) < Num(b) then Num(a) else Num(b)
    ensures Num(MaxIP(Some(a), Some(b)).value) == if Num(a) < Num(b) then Num(b) else Num(a)
  {
    CompareIsNumeric(a, b);
  }

  lemma NormalisedBounds(start: Option<IP>, end: Option<IP>, w: nat)
    requires ValidRange(start, end, w) && (start.Some? || end.Some?)
    ensures MinIP(start, end).Some? && MaxIP(start, end).Some?
    ensures |MinIP(start, end).value| == w == |MaxIP(start, end).value|
    ensures Num(MinIP(start, end).value) == Lower(start, end) <= Upper(start, end)
    ensures Num(MaxIP(start, end).value) == Upper(start, end) < Space(w)
  {
    if start.Some? && end.Some? { MinMaxNumeric(start.value, end.value); }
    NumBound(MaxIP(start, end).value);
  }

  /** The membership test of the response interceptors; a missing bound compares as the empty string. */
  predicate IsIPInRange(start: Option<IP>, end: Option<IP>, ip: IP) {
    if end.None? && start.Some? then start.value == ip
    else if start.None? && end.Some? then end.value == ip
    else
      var lo := if start.Some? then start.value else [];
      var hi := if end.Some? then end.value else [];
      Compare(ip, lo) >= 0 && Compare(ip, hi) <= 0
  }

  // ---------------------------------------------------------------- enumerators

  /** Copies the first n staged addresses into a fresh chunk, reordering it on request. */
  method EmitChunk(buf: array<IP>, n: nat, shuffle: bool) returns (r: seq<IP>)
    requires n <= buf.Length
    ensures multiset(r) == multiset(buf[..n])
    ensures !shuffle ==> r == buf[..n]
  {
    var chunk := new IP[n](k requires 0 <= k < n reads buf => buf[k]);
    assert chunk[..] == buf[..n];
    if shuffle {
      Shuffle(chunk);
    }
    r := chunk[..];
  }

  lemma FourBytes(x: nat)
    ensures [(x / 0x1000000) % 256, (x / 0x10000) % 256, (x / 0x100) % 256, x % 256] == ToBytes(x, 4)
  {
    assert ToBytes(x / 256 / 256 / 256 / 256, 0) == [];
    assert ToBytes(x / 256 / 256 / 256, 1) == [x / 256 / 256 / 256 % 256];
    assert ToBytes(x / 256 / 256, 2) == [x / 256 / 256 / 256 % 256, x / 256 / 256 % 256];
    assert ToBytes(x / 256, 3) == [x / 256 / 256 / 256 % 256, x / 256 / 256 % 256, x / 256 % 256];
  }

  /** Stages n consecutive addresses, each written byte by byte from the counter. */
  method FillV4(buf: array<IP>, first: nat, n: nat)
    requires n <= buf.Length
    modifies buf
    ensures forall k :: 0 <= k < n ==> buf[k] == ToBytes(first + k, 4)
  {
    var current := first;
    for i := 0 to n
      invariant current == first + i
      invariant forall k :: 0 <= k < i ==> buf[k] == ToBytes(first + k, 4)
    {
      FourBytes(current);
      buf[i] := [(current / 0x1000000) % 256, (current / 0x10000) % 256, (current / 0x100) % 256, current % 256];
      current := current + 1;
    }
  }

  /** The chunks sent so far are those of lo..cursor-1, up to reordering inside a chunk. */
  ghost predicate Progress(ch: seq<seq<IP>>, sent: seq<seq<IP>>, shuffle: bool, lo: nat, cursor: nat, hi: nat, w: nat) {
    Slices(lo, hi, w) == sent + Slices(cursor, hi, w) && Shuffled(ch, sent) && (!shuffle ==> ch == sent)
  }

  lemma ProgressStart(shuffle: bool, lo: nat, hi: nat, w: nat)
    ensures Progress([], [], shuffle, lo, lo, hi, w)
  {
  }

  lemma ProgressEnd(ch: seq<seq<IP>>, sent: seq<seq<IP>>, shuffle: bool, lo: nat, cursor: nat, hi: nat, w: nat)
    requires Progress(ch, sent, shuffle, lo, cursor, hi, w) && cursor > hi
    ensures Shuffled(ch, Slices(lo, hi, w)) && (!shuffle ==> ch == Slices(lo, hi, w))
  {
    assert sent + Slices(cursor, hi, w) == sent;
  }

  /** Sending one more chunk of n addresses, n being 64 or all that is left. */
  lemma ProgressStep(ch: seq<seq<IP>>, sent: seq<seq<IP>>, shuffle: bool, lo: nat, cursor: nat, hi: nat, w: nat,
                     buf: seq<IP>, chunk: seq<IP>, n: nat)
    requires Progress(ch, sent, shuffle, lo, cursor, hi, w) && cursor <= hi
    requires n == (if hi - cursor + 1 > CHUNK then CHUNK else hi - cursor + 1) == |buf|
    requires forall k :: 0 <= k < n ==> buf[k] == ToBytes(cursor + k, w)
    requires multiset(chunk) == multiset(buf) && (!shuffle ==> chunk == buf)
    ensures Progress(ch + [chunk], sent + [buf], shuffle, lo, cursor + n, hi, w)
  {
    assert buf == Span(cursor, cursor + n - 1, w);
    SliceStep(cursor, hi, n, w);
    assert sent + ([buf] + Slices(cursor + n, hi, w)) == (sent + [buf]) + Slices(cursor + n, hi, w);
  }

  lemma SingleSlice(ip: IP, w: nat)
    requires |ip| == w
    ensures Slices(Num(ip), Num(ip), w) == [[ip]]
  {
    ToBytesNum(ip);
    var n := Num(ip);
    assert Span(n, n, w) == [ip];
    assert Slices(n + CHUNK, n, w) == [];
  }

  method IPv4RangeBytesChunks(startIP: Option<IP>, endIP: Option<IP>, shuffle: bool) returns (ch: seq<seq<IP>>)
    requires ValidRange(startIP, endIP, 4)
    ensures Shuffled(ch, Slices(Lower(startIP, endIP), Upper(startIP, endIP), 4))
    ensures !shuffle ==> ch == Slices(Lower(startIP, endIP), Upper(startIP, endIP), 4)
  {
    if endIP.None? && startIP.Some? {
      SingleSlice(startIP.value, 4);
      return [[startIP.value]];
    }
    var start, end := MinIP(startIP, endIP), MaxIP(startIP, endIP);
    if start.None? || end.None? {
      return [];
    }
    NormalisedBounds(startIP, endIP, 4);
    var startNum, endNum := Num(start.value), Num(end.value);
    var current := startNum;
    var buf := new IP[CHUNK](_ => []);
    ch := [];
    ghost var sent: seq<seq<IP>> := [];
    ProgressStart(shuffle, startNum, endNum, 4);
    while current <= endNum
      invariant startNum <= current
      invariant Progress(ch, sent, shuffle, startNum, current, endNum, 4)
    {
      var remain := endNum - current + 1;
      var chunkSize := if remain > CHUNK then CHUNK else remain;
      FillV4(buf, current, chunkSize);
      var chunk := EmitChunk(buf, chunkSize, shuffle);
      ProgressStep(ch, sent, shuffle, startNum, current, endNum, 4, buf[..chunkSize], chunk, chunkSize);
      current := current + chunkSize;
      ch, sent := ch + [chunk], sent + [buf[..chunkSize]];
    }
    ProgressEnd(ch, sent, shuffle, startNum, current, endNum, 4);
  }

  /** Taking one piece off the front, whether full or the final one. */
  lemma SliceStep(lo: nat, hi: int, n: nat, w: nat)
    requires lo <= hi && n == if hi - lo + 1 > CHUNK then CHUNK else hi - lo + 1
    ensures Slices(lo, hi, w) == [Span(lo, lo + n - 1, w)] + Slices(lo + n, hi, w)
  {
    if n < CHUNK {
      assert Slices(lo + n, hi, w) == [] && Slices(lo + CHUNK, hi, w) == [];
    }
  }

  const WORD: nat := 0x1_0000_0000_0000_0000
  const WORD_BYTES: nat := 8

  /** The number of a two-word counter. */
  function Counter(hi: nat, lo: nat): nat {
    hi * WORD + lo
  }

  lemma WordIsSpace()
    ensures Space(WORD_BYTES) == WORD
  {
    hide Pow2;
    Pow2Byte();
    Pow2Add(8, 8);
    Pow2Add(16, 16);
    Pow2Add(32, 32);
  }

  /** Two words written one after the other are the double-width number they form. */
  lemma {:induction false} SplitBytes(hi: nat, v: nat, lo: nat, w: nat)
    requires lo < Space(w)
    ensures ToBytes(hi, v) + ToBytes(lo, w) == ToBytes(hi * Space(w) + lo, v + w)
  {
    if w == 0 {
      Pow2Byte();
      assert ToBytes(lo, 0) == [];
    } else {
      SpaceStep(w);
      var h, x := hi * Space(w - 1) + lo / 256, hi * Space(w) + lo;
      assert hi * (256 * Space(w - 1)) == 256 * (hi * Space(w - 1));
      DivModUnique(x, 256, h, lo % 256);
      SplitBytes(hi, v, lo / 256, w - 1);
    }
  }

  /** Comparing two-word counters word by word is comparing the numbers. */
  lemma CounterOrder(hi: nat, lo: nat, hi': nat, lo': nat)
    requires lo < WORD && lo' < WORD
    ensures hi < hi' || (hi == hi' && lo <= lo') <==> Counter(hi, lo) <= Counter(hi', lo')
    ensures hi == hi' && lo == lo' <==> Counter(hi, lo) == Counter(hi', lo')
  {
    if hi < hi' { LeadingDigit(hi, hi', WORD, lo, lo'); }
    if hi' < hi { LeadingDigit(hi', hi, WORD, lo', lo); }
  }

  function WordBytes(hi: nat, lo: nat): (s: IP) {
    ToBytes(hi, WORD_BYTES) + ToBytes(lo, WORD_BYTES)
  }

  lemma CounterBytes(hi: nat, lo: nat)
    requires lo < WORD
    ensures WordBytes(hi, lo) == ToBytes(Counter(hi, lo), 16)
  {
    WordIsSpace();
    SplitBytes(hi, WORD_BYTES, lo, WORD_BYTES);
  }

  /** The low word wraps to 0 and then carries; below the last address the counter goes up by one. */
  lemma CounterCarry(hi: nat, lo: nat, endHi: nat, endLo: nat)
    requires hi < WORD && lo < WORD && endHi < WORD && endLo < WORD
    requires Counter(hi, lo) < Counter(endHi, endLo)
    ensures var lo' := (lo + 1) % WORD;
            var hi' := if lo' == 0 then (hi + 1) % WORD else hi;
            hi' < WORD && lo' < WORD && Counter(hi', lo') == Counter(hi, lo) + 1
  {
    CounterOrder(hi, lo, endHi, endLo);
    if lo + 1 < WORD {
      DivModUnique(lo + 1, WORD, 0, lo + 1);
    } else {
      DivModUnique(lo + 1, WORD, 1, 0);
      assert hi < endHi;
      DivModUnique(hi + 1, WORD, 0, hi + 1);
      assert (hi + 1) * WORD == hi * WORD + WORD;
    }
  }

  lemma WordsOf(ip: IP)
    requires |ip| == 16
    ensures Num(ip) == Counter(Num(ip[..WORD_BYTES]), Num(ip[WORD_BYTES..]))
    ensures Num(ip[..WORD_BYTES]) < WORD && Num(ip[WORD_BYTES..]) < WORD
  {
    WordIsSpace();
    assert ip == ip[..WORD_BYTES] + ip[WORD_BYTES..];
    NumConcat(ip[..WORD_BYTES], ip[WORD_BYTES..]);
    NumBound(ip[..WORD_BYTES]);
    NumBound(ip[WORD_BYTES..]);
  }

  /**
   Stages up to 64 addresses from the cursor hi:lo on, and reports whether the end of the range was
   among them. The cursor is two 64-bit words, the low one carrying into the high one when it wraps.
   */
  method FillV6(buf: array<IP>, hi0: nat, lo0: nat, endHi: nat, endLo: nat)
    returns (n: nat, done: bool, hi: nat, lo: nat)
    requires buf.Length == CHUNK && hi0 < WORD && lo0 < WORD && endHi < WORD && endLo < WORD
    requires Counter(hi0, lo0) <= Counter(endHi, endLo)
    modifies buf
    ensures var first, last := Counter(hi0, lo0), Counter(endHi, endLo);
            n == (if last - first + 1 > CHUNK then CHUNK else last - first + 1) &&
            (done <==> first + n - 1 == last) &&
            (!done ==> hi < WORD && lo < WORD && Counter(hi, lo) == first + n) &&
            forall k :: 0 <= k < n ==> buf[k] == ToBytes(first + k, 16)
  {
    hide ToBytes, WordBytes;
    n, done, hi, lo := 0, false, hi0, lo0;
    ghost var first, last := Counter(hi0, lo0), Counter(endHi, endLo);
    while n < CHUNK
      invariant n <= CHUNK && hi < WORD && lo < WORD
      invariant first + n == Counter(hi, lo) <= last
      invariant forall k :: 0 <= k < n ==> buf[k] == ToBytes(first + k, 16)
    {
      CounterBytes(hi, lo);
      CounterOrder(hi, lo, endHi, endLo);
      buf[n] := WordBytes(hi, lo);
      if hi == endHi && lo == endLo {
        done := true;
        n := n + 1;
        break;
      }
      CounterCarry(hi, lo, endHi, endLo);
      lo := (lo + 1) % WORD;
      if lo == 0 {
        hi := (hi + 1) % WORD;
      }
      n := n + 1;
    }
  }

  method IPv6RangeBytesChunks(startIP: Option<IP>, endIP: Option<IP>, shuffle: bool) returns (ch: seq<seq<IP>>)
    requires ValidRange(startIP, endIP, 16)
    ensures Shuffled(ch, Slices(Lower(startIP, endIP), Upper(startIP, endIP), 16))
    ensures !shuffle ==> ch == Slices(Lower(startIP, endIP), Upper(startIP, endIP), 16)
  {
    if endIP.None? && startIP.Some? {
      SingleSlice(startIP.value, 16);
      return [[startIP.value]];
    }
    var start, end := MinIP(startIP, endIP), MaxIP(startIP, endIP);
    if start.None? || end.None? {
      return [];
    }
    NormalisedBounds(startIP, endIP, 16);
    ch := SendV6(start.value, end.value, shuffle);
  }

  /** The sending loop: a two-word cursor from start to end. */
  method SendV6(start: IP, end: IP, shuffle: bool) returns (ch: seq<seq<IP>>)
    requires |start| == |end| == 16 && Num(start) <= Num(end)
    ensures Shuffled(ch, Slices(Num(start), Num(end), 16))
    ensures !shuffle ==> ch == Slices(Num(start), Num(end), 16)
  {
    hide Progress, Slices, Shuffled, Num, ToBytes;
    var hi: nat, lo: nat := Num(start[..WORD_BYTES]), Num(start[WORD_BYTES..]);
    var endHi, endLo := Num(end[..WORD_BYTES]), Num(end[WORD_BYTES..]);
    WordsOf(start);
    WordsOf(end);
    ghost var first, last := Num(start), Num(end);
    var buf := new IP[CHUNK](_ => []);
    ch := [];
    ghost var sent: seq<seq<IP>> := [];
    ProgressStart(shuffle, first, last, 16);
    while hi < endHi || (hi == endHi && lo <= endLo)
      invariant hi < WORD && lo < WORD && Counter(hi, lo) <= last
      invariant Progress(ch, sent, shuffle, first, Counter(hi, lo), last, 16)
      decreases last - Counter(hi, lo)
    {
      ghost var cursor := Counter(hi, lo);
      var n, done;
      n, done, hi, lo := FillV6(buf, hi, lo, endHi, endLo);
      var chunk := EmitChunk(buf, n, shuffle);
      ProgressStep(ch, sent, shuffle, first, cursor, last, 16, buf[..n], chunk, n);
      ch, sent := ch + [chunk], sent + [buf[..n]];
      if done {
        ProgressEnd(ch, sent, shuffle, first, cursor + n, last, 16);
        return;
      }
    }
    CounterOrder(hi, lo, endHi, endLo);
  }

  // ---------------------------------------------------------------- sender and filter agree

  /** All addresses a range's enumerator emits, in order, without reordering. */
  function Emitted(start: Option<IP>, end: Option<IP>, w: nat): seq<IP> {
    Flatten(Slices(Lower(start, end), Upper(start, end), w))
  }

  lemma SpanMembers(lo: nat, hi: int, w: nat, ip: IP)
    requires |ip| == w && hi < Space(w)
    ensures ip in Span(lo, hi, w) <==> lo <= Num(ip) <= hi
    ensures multiset(Span(lo, hi, w))[ip] <= 1
    decreases hi - lo
  {
    var s := Span(lo, hi, w);
    if lo <= Num(ip) <= hi {
      ToBytesNum(ip);
      assert s[Num(ip) - lo] == ip;
    }
    if lo <= hi {
      NumToBytes(lo, w);
      SpanMembers(lo + 1, hi, w, ip);
      assert s == [ToBytes(lo, w)] + Span(lo + 1, hi, w);
    }
  }

  /** What the enumerator emits, each address once: those between the normalised bounds. */
  lemma EmittedExactlyOnce(start: Option<IP>, end: Option<IP>, w: nat, ip: IP)
    requires ValidRange(start, end, w) && |ip| == w
    ensures ip in Emitted(start, end, w) <==> Lower(start, end) <= Num(ip) <= Upper(start, end)
    ensures ip in Emitted(start, end, w) <==>
            match (start, end)
            case (None, None) => false
            case (Some(s), None) => Num(ip) == Num(s)
            case (None, Some(e)) => Num(ip) == Num(e)
            case (Some(s), Some(e)) => Num(s) <= Num(ip) <= Num(e) || Num(e) <= Num(ip) <= Num(s)
    ensures multiset(Emitted(start, end, w))[ip] <= 1
  {
    FlattenSlices(Lower(start, end), Upper(start, end), w);
    if start.Some? || end.Some? { NormalisedBounds(start, end, w); }
    SpanMembers(Lower(start, end), Upper(start, end), w, ip);
  }

  lemma InRangeNumeric(start: Option<IP>, end: Option<IP>, w: nat, ip: IP)
    requires ValidRange(start, end, w) && |ip| == w > 0
    ensures IsIPInRange(start, end, ip) <==>
            match (start, end)
            case (None, None) => false
            case (Some(s), None) => Num(ip) == Num(s)
            case (None, Some(e)) => Num(ip) == Num(e)
            case (Some(s), Some(e)) => Num(s) <= Num(ip) <= Num(e)
  {
    if start.Some? { CompareIsNumeric(ip, start.value); }
    if end.Some? { CompareIsNumeric(ip, end.value); }
    if start.Some? && Num(ip) == Num(start.value) { NumInjective(ip, start.value); }
    if end.Some? && Num(ip) == Num(end.value) { NumInjective(ip, end.value); }
  }

  /** An inverted pair of bounds: enumerated in either order, yet matching no address. */
  predicate Inverted(start: Option<IP>, end: Option<IP>) {
    start.Some? && end.Some? && Compare(start.value, end.value) > 0
  }

  /** The sender probes exactly the addresses the receive filter accepts, unless the bounds are inverted. */
  lemma SenderAgreesWithFilter(start: Option<IP>, end: Option<IP>, w: nat)
    requires ValidRange(start, end, w) && w > 0
    ensures !Inverted(start, end) <==>
            forall ip: IP :: |ip| == w ==> (ip in Emitted(start, end, w) <==> IsIPInRange(start, end, ip))
  {
    if start.Some? && end.Some? { CompareIsNumeric(start.value, end.value); }
    if Inverted(start, end) {
      EmittedExactlyOnce(start, end, w, start.value);
      InRangeNumeric(start, end, w, start.value);
    } else {
      forall ip: IP | |ip| == w
        ensures ip in Emitted(start, end, w) <==> IsIPInRange(start, end, ip)
      {
        EmittedExactlyOnce(start, end, w, ip);
        InRangeNumeric(start, end, w, ip);
      }
    }
  }
}
