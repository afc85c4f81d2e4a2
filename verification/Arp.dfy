/**
 Host discovery by ARP requests on the link. All 64 slots are submitted for every chunk, however short, so the
 last submission carries whatever an earlier chunk left in the slots behind it.
 */
module Arp {
  import opened Bytes
  import opened Addresses
  import opened Checksum
  import opened Enumerator
  import opened Batch
  import opened Batching

  datatype ArpConfig = ArpConfig(srcMac: seq<byte>, src: IP)

  ghost predicate ValidArp(c: ArpConfig) {
    |c.srcMac| == 6 && |c.src| == 4
  }

  const HEAD_BYTES: nat := 22
  const BODY_BYTES: nat := 20

  /** Fixed part of a request: Ethernet, IPv4, address lengths and the operation. */
  const ARP_HEADER: seq<byte> := [0x00, 0x01, 0x08, 0x00, 0x06, 0x04, 0x00, 0x01]

  /** Zeros up to the minimal frame size of 64. */
  const ARP_PADDING: seq<byte> := [0, 0, 0, 0, 0, 0, 0, 0, 0, 0, 0, 0, 0, 0, 0, 0, 0, 0, 0, 0, 0, 0]

  // ---------------------------------------------------------------- reference frames

  /** Broadcast Ethernet header and ARP header. */
  function Head(c: ArpConfig): (r: seq<byte>)
    requires ValidArp(c)
    ensures |r| == HEAD_BYTES
  {
    [0xFF, 0xFF, 0xFF, 0xFF, 0xFF, 0xFF] + c.srcMac + [0x08, 0x06] + ARP_HEADER
  }

  /** Sender addresses, unknown target hardware address, target address. */
  function Body(c: ArpConfig, ip: IP): (r: seq<byte>)
    requires ValidArp(c) && |ip| == 4
    ensures |r| == BODY_BYTES
  {
    c.srcMac + c.src + [0, 0, 0, 0, 0, 0] + ip
  }

  function ArpFrame(c: ArpConfig, ip: IP): Frame
    requires ValidArp(c) && |ip| == 4
  {
    Head(c) + Body(c, ip) + ARP_PADDING
  }

  // ---------------------------------------------------------------- what a receiver reads

  /**
   A request of a given station for the hardware address of ip, as a receiver reads it (RFC 826): a broadcast of type ARP,
   Ethernet and IPv4 addresses of six and four bytes, operation 1, the sender's addresses, and the address asked for.
   */
  ghost predicate ArpReads(frame: seq<byte>, srcMac: seq<byte>, src: IP, ip: IP) {
    |frame| == 64 && (forall k :: 0 <= k < 6 ==> frame[k] == 255) && frame[6..12] == srcMac && frame[12..14] == [8, 6] &&
    frame[14..20] == [0, 1, 8, 0, 6, 4] && frame[20..22] == [0, 1] && frame[22..28] == srcMac && frame[28..32] == src &&
    (forall k :: 32 <= k < 38 ==> frame[k] == 0) && frame[38..42] == ip && forall k :: 42 <= k < 64 ==> frame[k] == 0
  }

  lemma ArpIsRead(c: ArpConfig, ip: IP)
    requires ValidArp(c) && |ip| == 4
    ensures ArpReads(ArpFrame(c, ip), c.srcMac, c.src, ip)
  {
    hide Head, Body;
    var frame, h, b := ArpFrame(c, ip), Head(c), Body(c, ip);
    HeadIsRead(c);
    BodyIsRead(c, ip);
    assert forall k :: 0 <= k < 6 ==> frame[k] == h[k];
    assert frame[6..12] == h[6..12] && frame[12..14] == h[12..14] && frame[14..20] == h[14..20] && frame[20..22] == h[20..22];
    assert frame[22..28] == b[0..6] && frame[28..32] == b[6..10] && frame[38..42] == b[16..20];
    assert forall k :: 32 <= k < 38 ==> frame[k] == b[k - 22];
    assert forall k :: 42 <= k < 64 ==> frame[k] == ARP_PADDING[k - 42];
  }

  lemma HeadIsRead(c: ArpConfig)
    requires ValidArp(c)
    ensures (forall k :: 0 <= k < 6 ==> Head(c)[k] == 255) && Head(c)[6..12] == c.srcMac
    ensures Head(c)[12..14] == [8, 6] && Head(c)[14..20] == [0, 1, 8, 0, 6, 4] && Head(c)[20..22] == [0, 1]
  {
  }

  lemma BodyIsRead(c: ArpConfig, ip: IP)
    requires ValidArp(c) && |ip| == 4
    ensures var b := Body(c, ip);
            b[0..6] == c.srcMac && b[6..10] == c.src && (forall k :: 10 <= k < 16 ==> b[k] == 0) && b[16..20] == ip
  {
  }

  /** Different addresses are asked for in different frames. */
  lemma ArpsDiffer(c: ArpConfig, ip: IP, ip': IP)
    requires ValidArp(c) && |ip| == |ip'| == 4 && ip != ip'
    ensures ArpFrame(c, ip) != ArpFrame(c, ip')
  {
    hide ArpFrame;
    ArpIsRead(c, ip);
    ArpIsRead(c, ip');
  }

  lemma AllAreRead(c: ArpConfig, ips: seq<IP>)
    requires ValidArp(c) && ValidIPs(ips)
    ensures forall k :: 0 <= k < |ips| ==> ArpReads(ArpFrames(c, ips)[k], c.srcMac, c.src, ips[k])
  {
    hide ArpFrame, ArpReads;
    forall k | 0 <= k < |ips| ensures ArpReads(ArpFrames(c, ips)[k], c.srcMac, c.src, ips[k]) { ArpIsRead(c, ips[k]); }
  }

  ghost predicate ValidIPs(ips: seq<IP>) {
    forall k :: 0 <= k < |ips| ==> |ips[k]| == 4
  }

  function ArpFrames(c: ArpConfig, ips: seq<IP>): (r: seq<Frame>)
    requires ValidArp(c) && ValidIPs(ips)
    ensures |r| == |ips|
  {
    seq(|ips|, k requires 0 <= k < |ips| => ArpFrame(c, ips[k]))
  }

  // ---------------------------------------------------------------- slots

  type Slots = seq<Option<IP>>

  ghost predicate ValidSlots(slots: Slots) {
    |slots| == SLOTS && forall k :: 0 <= k < SLOTS && slots[k].Some? ==> |slots[k].value| == 4
  }

  /** What the kernel is handed for one slot; an untouched header has no I/O vectors. */
  function SlotFrame(c: ArpConfig, slot: Option<IP>): Frame
    requires ValidArp(c) && (slot.Some? ==> |slot.value| == 4)
  {
    if slot.None? then [] else ArpFrame(c, slot.value)
  }

  function Submitted(c: ArpConfig, slots: Slots): (r: seq<Frame>)
    requires ValidArp(c) && ValidSlots(slots)
    ensures |r| == SLOTS
  {
    seq(SLOTS, k requires 0 <= k < SLOTS => SlotFrame(c, slots[k]))
  }

  function Empty(): Slots {
    seq(SLOTS, _ => None)
  }

  /** A chunk goes into the first slots, the others stay as they are. */
  function Refill(slots: Slots, chunk: seq<IP>): Slots
    requires |slots| == SLOTS && |chunk| <= SLOTS
  {
    seq(|chunk|, k requires 0 <= k < |chunk| => Some(chunk[k])) + slots[|chunk|..]
  }

  ghost predicate ValidChunks(chunks: seq<seq<IP>>) {
    forall k :: 0 <= k < |chunks| ==> |chunks[k]| <= SLOTS && ValidIPs(chunks[k])
  }

  function SlotsAfter(chunks: seq<seq<IP>>): (r: Slots)
    requires ValidChunks(chunks)
    ensures ValidSlots(r)
  {
    if chunks == [] then Empty() else Refill(SlotsAfter(chunks[..|chunks| - 1]), chunks[|chunks| - 1])
  }

  function Wire(c: ArpConfig, chunks: seq<seq<IP>>): seq<seq<Frame>>
    requires ValidArp(c) && ValidChunks(chunks)
  {
    if chunks == [] then [] else Wire(c, chunks[..|chunks| - 1]) + [Submitted(c, SlotsAfter(chunks))]
  }

  // ---------------------------------------------------------------- the sender

  class ArpSender {
    const ioVectors: array2<Iovec>
    const messageHeaders: array<Message>
    const head: array<byte>
    const bodies: array<byte>
    const padding: array<byte>
    ghost const c: ArpConfig
    ghost var slots: Slots
    ghost var wire: seq<seq<Frame>>

    /** Slot k refers to the request for the address it was last given. */
    ghost predicate Holds(k: nat)
      requires k < SLOTS && ValidArp(c) && ValidSlots(slots)
      requires ioVectors.Length0 == messageHeaders.Length == SLOTS && ioVectors.Length1 == 3
      requires bodies.Length == SLOTS * BODY_BYTES
      reads this, ioVectors, messageHeaders, bodies
    {
      if slots[k].None? then messageHeaders[k].count == 0
      else
        messageHeaders[k] == Message(k, 3) &&
        ioVectors[k, 0] == Iovec(head, 0, HEAD_BYTES) &&
        ioVectors[k, 1] == Iovec(bodies, k * BODY_BYTES, BODY_BYTES) &&
        ioVectors[k, 2] == Iovec(padding, 0, |ARP_PADDING|) &&
        bodies[k * BODY_BYTES..k * BODY_BYTES + BODY_BYTES] == Body(c, slots[k].value)
    }

    ghost predicate Valid()
      reads this, ioVectors, messageHeaders, head, bodies, padding
    {
      ValidArp(c) && ValidSlots(slots) && ioVectors.Length0 == messageHeaders.Length == SLOTS && ioVectors.Length1 == 3 &&
      bodies.Length == SLOTS * BODY_BYTES && bodies != head && bodies != padding &&
      head[..] == Head(c) && padding[..] == ARP_PADDING &&
      forall k :: 0 <= k < SLOTS ==> Holds(k)
    }

    constructor (c: ArpConfig)
      requires ValidArp(c)
      ensures Valid() && this.c == c && slots == Empty() && wire == []
      ensures fresh(ioVectors) && fresh(messageHeaders) && fresh(bodies)
    {
      var start := Head(c);
      ioVectors := new Iovec[SLOTS, 3]((i, j) => Iovec(null, 0, 0));
      messageHeaders := new Message[SLOTS](i => Message(0, 0));
      head := new byte[HEAD_BYTES](i requires 0 <= i < HEAD_BYTES => start[i]);
      bodies := new byte[SLOTS * BODY_BYTES](_ => 0);
      padding := new byte[22](i requires 0 <= i < 22 => ARP_PADDING[i]);
      this.c, slots, wire := c, Empty(), [];
      new;
      assert head[..] == start;
    }

    /** Writes the body of one slot. */
    method WriteBody(k: nat, body: seq<byte>)
      requires bodies.Length == SLOTS * BODY_BYTES && k < SLOTS && |body| == BODY_BYTES
      modifies bodies
      ensures bodies[k * BODY_BYTES..k * BODY_BYTES + BODY_BYTES] == body
      ensures forall j :: 0 <= j < SLOTS && j != k ==>
                bodies[j * BODY_BYTES..j * BODY_BYTES + BODY_BYTES] == old(bodies[j * BODY_BYTES..j * BODY_BYTES + BODY_BYTES])
    {
      var at := k * BODY_BYTES;
      forall i | 0 <= i < BODY_BYTES {
        bodies[at + i] := body[i];
      }
      forall j | 0 <= j < SLOTS && j != k
        ensures bodies[j * BODY_BYTES..j * BODY_BYTES + BODY_BYTES] == old(bodies[j * BODY_BYTES..j * BODY_BYTES + BODY_BYTES])
      {
        var b := j * BODY_BYTES;
        assert b + BODY_BYTES <= at || at + BODY_BYTES <= b;
      }
    }

    /** Writes the request for one address and points its slot at it. */
    method Place(k: nat, ip: IP, template: seq<byte>)
      requires Valid() && k < SLOTS && |ip| == 4 && template == Body(c, [0, 0, 0, 0])
      modifies this, ioVectors, messageHeaders, bodies
      ensures Valid() && slots == old(slots)[k := Some(ip)] && wire == old(wire)
      ensures bodies[k * BODY_BYTES + 16..k * BODY_BYTES + 20] == ip
    {
      var at := k * BODY_BYTES;
      var body := template[..16] + ip;
      BodyIsRead(c, ip);
      assert body == Body(c, ip);
      hide Body, Head;
      WriteBody(k, body);
      assert bodies[at + 16..at + 20] == bodies[at..at + BODY_BYTES][16..20] == ip;
      ioVectors[k, 0] := Iovec(head, 0, HEAD_BYTES);
      ioVectors[k, 1] := Iovec(bodies, at, BODY_BYTES);
      ioVectors[k, 2] := Iovec(padding, 0, |ARP_PADDING|);
      messageHeaders[k] := Message(k, 3);
      slots := slots[k := Some(ip)];
      forall j | 0 <= j < SLOTS && j != k ensures Holds(j) {
        assert old(Holds(j));
      }
    }

    /** What the kernel copies for the first n I/O vectors of a row. */
    ghost function Copied(row: nat, n: nat): seq<byte>
      requires row < ioVectors.Length0 && n <= ioVectors.Length1
      reads ioVectors, set j | 0 <= j < ioVectors.Length1 :: ioVectors[row, j].base
    {
      if n == 0 then [] else Copied(row, n - 1) + Gathered(ioVectors[row, n - 1])
    }

    /** Following a slot's references now gives the frame of the address it was last given. */
    lemma CopiedIsSlot(k: nat)
      requires Valid() && k < SLOTS
      ensures messageHeaders[k].count == 0 || (messageHeaders[k].row == k && messageHeaders[k].count == 3)
      ensures Copied(k, messageHeaders[k].count) == SlotFrame(c, slots[k])
      ensures slots[k].Some? ==> ArpReads(Copied(k, messageHeaders[k].count), c.srcMac, c.src, slots[k].value)
      ensures slots[k].None? ==> Copied(k, messageHeaders[k].count) == []
    {
      hide ArpReads;
      assert Holds(k);
      if slots[k].Some? { ArpIsRead(c, slots[k].value); }
      if slots[k].Some? {
        assert Copied(k, 0) == [];
        assert Copied(k, 1) == Head(c);
        assert Copied(k, 2) == Head(c) + Body(c, slots[k].value);
        assert Copied(k, 3) == Copied(k, 2) + ARP_PADDING;
      }
    }

    /** Submits all 64 slots. */
    method Submit()
      requires Valid()
      modifies this`wire
      ensures Valid() && slots == old(slots) && wire == old(wire) + [Submitted(c, slots)]
    {
      forall k | 0 <= k < SLOTS
        ensures messageHeaders[k].count <= 3 && Copied(k, messageHeaders[k].count) == SlotFrame(c, slots[k])
      {
        CopiedIsSlot(k);
      }
      ghost var batch := seq(SLOTS, k requires 0 <= k < SLOTS && Valid() && messageHeaders[k].count <= 3
        reads this, messageHeaders, ioVectors, head, bodies, padding,
              set i, j | 0 <= i < ioVectors.Length0 && 0 <= j < ioVectors.Length1 :: ioVectors[i, j].base
        => Copied(k, messageHeaders[k].count));
      assert batch == Submitted(c, slots);
      wire := wire + [batch];
      forall k | 0 <= k < SLOTS ensures Holds(k) {
        assert old(Holds(k));
      }
    }
  }

  lemma RefillStep(before: Slots, chunk: seq<IP>, i: nat)
    requires |before| == SLOTS && i < |chunk| <= SLOTS
    ensures Refill(before, chunk[..i])[i := Some(chunk[i])] == Refill(before, chunk[..i + 1])
  {
  }

  /** One chunk: its addresses are placed in the first slots, then all slots are submitted. */
  method ArpChunk(sender: ArpSender, chunk: seq<IP>, template: seq<byte>)
    requires sender.Valid() && |chunk| <= SLOTS && ValidIPs(chunk) && template == Body(sender.c, [0, 0, 0, 0])
    modifies sender, sender.ioVectors, sender.messageHeaders, sender.bodies
    ensures sender.Valid() && sender.slots == Refill(old(sender.slots), chunk)
    ensures sender.wire == old(sender.wire) + [Submitted(sender.c, sender.slots)]
  {
    ghost var before := sender.slots;
    for i := 0 to |chunk|
      invariant sender.Valid() && sender.wire == old(sender.wire) && sender.slots == Refill(before, chunk[..i])
    {
      sender.Place(i, chunk[i], template);
      RefillStep(before, chunk, i);
    }
    TakeAll(chunk);
    sender.Submit();
  }

  method ScanArp(c: ArpConfig, chunks: seq<seq<IP>>) returns (sender: ArpSender)
    requires ValidArp(c) && ValidChunks(chunks)
    ensures fresh(sender) && sender.wire == Wire(c, chunks)
  {
    hide Body, Submitted, Refill;
    sender := new ArpSender(c);
    var template := Body(c, [0, 0, 0, 0]);
    for k := 0 to |chunks|
      invariant fresh(sender) && fresh(sender.ioVectors) && fresh(sender.messageHeaders) && fresh(sender.bodies)
      invariant sender.Valid() && sender.c == c
      invariant sender.slots == SlotsAfter(chunks[..k]) && sender.wire == Wire(c, chunks[..k])
    {
      TakeNext(chunks, k);
      ArpChunk(sender, chunks[k], template);
    }
    TakeAll(chunks);
  }

  // ---------------------------------------------------------------- what is submitted

  /** Chunks as the enumerator sends them: full, but for a possibly shorter last one. */
  ghost predicate Enumerated(chunks: seq<seq<IP>>) {
    ValidChunks(chunks) &&
    forall k :: 0 <= k < |chunks| ==> 0 < |chunks[k]| && (k < |chunks| - 1 ==> |chunks[k]| == SLOTS)
  }

  lemma {:induction false} EnumeratedFlat(chunks: seq<seq<IP>>)
    requires ValidChunks(chunks)
    ensures ValidIPs(Flatten(chunks))
  {
    if chunks != [] { EnumeratedFlat(chunks[1..]); }
  }

  lemma ArpFramesConcat(c: ArpConfig, a: seq<IP>, b: seq<IP>)
    requires ValidArp(c) && ValidIPs(a) && ValidIPs(b)
    ensures ValidIPs(a + b) && ArpFrames(c, a + b) == ArpFrames(c, a) + ArpFrames(c, b)
  {
    hide ArpFrame;
  }

  /** While chunks are full, every address is submitted once, in order. */
  lemma {:induction false} FullChunksOnce(c: ArpConfig, chunks: seq<seq<IP>>)
    requires ValidArp(c) && Enumerated(chunks) && (chunks != [] ==> |chunks[|chunks| - 1]| == SLOTS)
    ensures ValidIPs(Flatten(chunks)) && Flatten(Wire(c, chunks)) == ArpFrames(c, Flatten(chunks))
  {
    hide ArpFrame;
    EnumeratedFlat(chunks);
    if chunks != [] {
      var n := |chunks| - 1;
      var init, last := chunks[..n], chunks[n];
      FullChunksOnce(c, init);
      FullSubmits(c, SlotsAfter(init), last);
      SplitLast(chunks);
      ArpFramesConcat(c, Flatten(init), last);
      FlattenConcat(Wire(c, init), [ArpFrames(c, last)]);
      FlattenOne(ArpFrames(c, last));
    }
  }

  lemma SplitLast(chunks: seq<seq<IP>>)
    requires chunks != []
    ensures Flatten(chunks) == Flatten(chunks[..|chunks| - 1]) + chunks[|chunks| - 1]
  {
    var n := |chunks| - 1;
    assert chunks == chunks[..n] + [chunks[n]];
    FlattenConcat(chunks[..n], [chunks[n]]);
    FlattenOne(chunks[n]);
  }

  /** What is submitted beyond one request per address: leftovers of the chunk before the last, or empty messages. */
  function Extra(c: ArpConfig, chunks: seq<seq<IP>>): seq<Frame>
    requires ValidArp(c) && Enumerated(chunks)
  {
    if chunks == [] then []
    else
      var n := |chunks[|chunks| - 1]|;
      if |chunks| == 1 then seq(SLOTS - n, _ => []) else ArpFrames(c, chunks[|chunks| - 2][n..])
  }

  lemma RefillSubmits(c: ArpConfig, slots: Slots, chunk: seq<IP>)
    requires ValidArp(c) && ValidSlots(slots) && |chunk| <= SLOTS && ValidIPs(chunk)
    ensures ValidSlots(Refill(slots, chunk))
    ensures Submitted(c, Refill(slots, chunk)) == ArpFrames(c, chunk) + Submitted(c, slots)[|chunk|..]
  {
    hide ArpFrame;
  }

  lemma FramesFrom(c: ArpConfig, ips: seq<IP>, n: nat)
    requires ValidArp(c) && ValidIPs(ips) && n <= |ips|
    ensures ArpFrames(c, ips)[n..] == ArpFrames(c, ips[n..])
  {
    hide ArpFrame;
  }

  lemma {:induction false} LastSubmission(c: ArpConfig, chunks: seq<seq<IP>>)
    requires ValidArp(c) && Enumerated(chunks) && chunks != []
    ensures Submitted(c, SlotsAfter(chunks)) == ArpFrames(c, chunks[|chunks| - 1]) + Extra(c, chunks)
  {
    hide ArpFrame, Submitted, ArpFrames, Refill;
    var n := |chunks| - 1;
    var init, last := chunks[..n], chunks[n];
    RefillSubmits(c, SlotsAfter(init), last);
    if n == 0 {
      NothingSubmitted(c, |last|);
    } else {
      var prev := init[n - 1];
      RefillSubmits(c, SlotsAfter(init[..n - 1]), prev);
      FramesFrom(c, prev, |last|);
      FullSubmits(c, SlotsAfter(init[..n - 1]), prev);
    }
  }

  lemma NothingSubmitted(c: ArpConfig, n: nat)
    requires ValidArp(c) && n <= SLOTS
    ensures Submitted(c, Empty())[n..] == seq(SLOTS - n, _ => [])
  {
  }

  lemma FullSubmits(c: ArpConfig, slots: Slots, chunk: seq<IP>)
    requires ValidArp(c) && ValidSlots(slots) && |chunk| == SLOTS && ValidIPs(chunk)
    ensures ValidSlots(Refill(slots, chunk)) && Submitted(c, Refill(slots, chunk)) == ArpFrames(c, chunk)
  {
    hide ArpFrame;
  }

  lemma FullBeforeLast(chunks: seq<seq<IP>>)
    requires Enumerated(chunks) && chunks != []
    ensures var init := chunks[..|chunks| - 1];
            Enumerated(init) && (init != [] ==> |init[|init| - 1]| == SLOTS) && ValidIPs(chunks[|chunks| - 1])
  {
  }

  lemma {:induction false} WireLast(c: ArpConfig, chunks: seq<seq<IP>>)
    requires ValidArp(c) && Enumerated(chunks) && chunks != []
    ensures Flatten(Wire(c, chunks)) == Flatten(Wire(c, chunks[..|chunks| - 1])) + Submitted(c, SlotsAfter(chunks))
  {
    hide Submitted, SlotsAfter, Flatten;
    FlattenConcat(Wire(c, chunks[..|chunks| - 1]), [Submitted(c, SlotsAfter(chunks))]);
    FlattenOne(Submitted(c, SlotsAfter(chunks)));
  }

  /** Every address is requested once, in order, and then exactly the extra messages follow. */
  lemma {:induction false} ArpSubmits(c: ArpConfig, chunks: seq<seq<IP>>)
    requires ValidArp(c) && Enumerated(chunks)
    ensures ValidIPs(Flatten(chunks))
    ensures Flatten(Wire(c, chunks)) == ArpFrames(c, Flatten(chunks)) + Extra(c, chunks)
    ensures forall k :: 0 <= k < |Flatten(chunks)| ==>
              ArpReads(Flatten(Wire(c, chunks))[k], c.srcMac, c.src, Flatten(chunks)[k])
  {
    hide ArpReads;
    EnumeratedFlat(chunks);
    AllAreRead(c, Flatten(chunks));
    if chunks != [] {
      FullBeforeLast(chunks);
      hide ArpFrames, Submitted, SlotsAfter, Flatten, Wire, Extra, Enumerated, ValidIPs;
      var init, last := chunks[..|chunks| - 1], chunks[|chunks| - 1];
      WireLast(c, chunks);
      FullChunksOnce(c, init);
      LastSubmission(c, chunks);
      SplitLast(chunks);
      ArpFramesConcat(c, Flatten(init), last);
      var x, y, z := ArpFrames(c, Flatten(init)), ArpFrames(c, last), Extra(c, chunks);
      assert x + (y + z) == x + y + z;
    }
  }

  /** Exactly one message per address goes out just when the last chunk is full, or there is none. */
  lemma OneRequestEach(c: ArpConfig, chunks: seq<seq<IP>>)
    requires ValidArp(c) && Enumerated(chunks)
    ensures ValidIPs(Flatten(chunks))
    ensures Flatten(Wire(c, chunks)) == ArpFrames(c, Flatten(chunks)) <==>
            chunks == [] || |chunks[|chunks| - 1]| == SLOTS
  {
    hide ArpFrame;
    ArpSubmits(c, chunks);
    assert |Extra(c, chunks)| == if chunks == [] then 0 else SLOTS - |chunks[|chunks| - 1]|;
    if |Extra(c, chunks)| == 0 { assert ArpFrames(c, Flatten(chunks)) + [] == ArpFrames(c, Flatten(chunks)); }
  }
}
