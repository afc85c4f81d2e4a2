/**
 A batch of vectored messages: up to 64 slots, each a list of references into buffers that the caller
 keeps rewriting. The kernel follows the references when the batch is submitted, not when a message is
 queued; the ghost fields remember what each message was meant to say.
 */
module Batch {
  import opened Bytes
  import opened Checksum
  import opened Enumerator

  const SLOTS: nat := 64
  const SEGMENTS: nat := 4

  /** Start and length of a piece of memory. */
  datatype Iovec = Iovec(base: array?<byte>, off: nat, len: nat)

  /** A message header: the row of I/O vectors it points to and how many of them it uses. */
  datatype Message = Message(row: nat, count: nat)

  type Frame = seq<byte>

  /** What has been submitted, batch by batch, and what is queued. */
  datatype Output = Output(wire: seq<seq<Frame>>, queued: seq<Frame>)

  /** The memory an I/O vector designates. */
  ghost predicate Reads(v: Iovec, bytes: seq<byte>)
    reads v.base
  {
    v.base != null && v.off + v.len <= v.base.Length && v.base[v.off..v.off + v.len] == bytes
  }

  /** What the kernel copies for one I/O vector. */
  ghost function Gathered(v: Iovec): seq<byte>
    reads v.base
  {
    if v.base != null && v.off + v.len <= v.base.Length then v.base[v.off..v.off + v.len] else []
  }

  /** Writing [lo, hi) of b cannot be seen through v. */
  predicate Clear(v: Iovec, b: array<byte>, lo: nat, hi: nat) {
    v.base != b || v.off + v.len <= lo || hi <= v.off
  }

  class Sender {
    const ioVectors: array2<Iovec>
    const messageHeaders: array<Message>
    var currentIndex: nat
    ghost var wire: seq<seq<Frame>>
    ghost var meant: seq<seq<seq<byte>>>
    ghost var regions: set<Iovec>

    /** Queued message k still says what it was meant to say. */
    ghost predicate Intact(k: nat)
      requires k < |meant| && k < messageHeaders.Length
      reads this, ioVectors, messageHeaders, set v | v in regions :: v.base
    {
      var msg := messageHeaders[k];
      msg.row == k < ioVectors.Length0 && msg.count == |meant[k]| <= ioVectors.Length1 &&
      forall j :: 0 <= j < msg.count ==>
        ioVectors[msg.row, j] in regions && Reads(ioVectors[msg.row, j], meant[k][j])
    }

    ghost predicate Valid()
      reads this, ioVectors, messageHeaders, set v | v in regions :: v.base
    {
      ioVectors.Length0 == messageHeaders.Length == SLOTS && ioVectors.Length1 == SEGMENTS &&
      currentIndex == |meant| <= SLOTS && (currentIndex == 0 ==> regions == {}) &&
      forall k :: 0 <= k < currentIndex ==> Intact(k)
    }

    ghost function State(): Output
      reads this
    {
      Output(wire, seq(|meant|, k requires 0 <= k < |meant| reads this => Flatten(meant[k])))
    }

    /** No queued message looks at [lo, hi) of b. */
    ghost predicate Unseen(b: array<byte>, lo: nat, hi: nat)
      reads this
    {
      forall v :: v in regions ==> Clear(v, b, lo, hi)
    }

    constructor ()
      ensures Valid() && State() == Output([], []) && regions == {}
      ensures fresh(ioVectors) && fresh(messageHeaders)
    {
      ioVectors := new Iovec[SLOTS, SEGMENTS]((i, j) => Iovec(null, 0, 0));
      messageHeaders := new Message[SLOTS](i => Message(0, 0));
      currentIndex, wire, meant, regions := 0, [], [], {};
    }

    /** Overwrites part of a buffer that no queued message looks at. */
    method Store(b: array<byte>, off: nat, data: seq<byte>)
      requires Valid() && off + |data| <= b.Length && Unseen(b, off, off + |data|)
      modifies b
      ensures Valid() && b[..] == Splice(old(b[..]), off, data)
    {
      forall i | 0 <= i < |data| {
        b[off + i] := data[i];
      }
      assert b[..] == Splice(old(b[..]), off, data);
      forall k | 0 <= k < currentIndex ensures Intact(k) {
        assert old(Intact(k));
        var msg := messageHeaders[k];
        forall j | 0 <= j < msg.count ensures Reads(ioVectors[msg.row, j], meant[k][j]) {
          var v := ioVectors[msg.row, j];
          assert old(Reads(v, meant[k][j]));
          assert v.base[v.off..v.off + v.len] == old(v.base[v.off..v.off + v.len]);
        }
      }
    }

    /** Writes the I/O vectors of one row. */
    method FillRow(row: nat, iovs: seq<Iovec>)
      requires row < ioVectors.Length0 && |iovs| <= ioVectors.Length1
      modifies ioVectors
      ensures forall i :: 0 <= i < |iovs| ==> ioVectors[row, i] == iovs[i]
      ensures forall k, i :: 0 <= k < ioVectors.Length0 && 0 <= i < ioVectors.Length1 && k != row ==>
                ioVectors[k, i] == old(ioVectors[k, i])
    {
      for j := 0 to |iovs|
        invariant forall i :: 0 <= i < j ==> ioVectors[row, i] == iovs[i]
        invariant forall k, i :: 0 <= k < ioVectors.Length0 && 0 <= i < ioVectors.Length1 && k != row ==>
                    ioVectors[k, i] == old(ioVectors[k, i])
      {
        ioVectors[row, j] := iovs[j];
      }
    }

    /** Appends one message made of the given segments. */
    method Queue(iovs: seq<Iovec>, ghost parts: seq<seq<byte>>)
      requires Valid() && currentIndex < SLOTS && |iovs| == |parts| <= SEGMENTS
      requires forall j :: 0 <= j < |iovs| ==> Reads(iovs[j], parts[j])
      modifies this, ioVectors, messageHeaders
      ensures Valid() && currentIndex == old(currentIndex) + 1
      ensures State() == Output(old(State()).wire, old(State()).queued + [Flatten(parts)])
      ensures regions == old(regions) + set v | v in iovs
    {
      hide Reads, Flatten;
      var row := currentIndex;
      FillRow(row, iovs);
      messageHeaders[row] := Message(row, |iovs|);
      currentIndex := currentIndex + 1;
      meant := meant + [parts];
      regions := regions + set v | v in iovs;
      forall k | 0 <= k < row ensures Intact(k) {
        assert old(Intact(k));
        assert messageHeaders[k] == old(messageHeaders[k]);
      }
      assert Intact(row);
    }

    /** What the kernel copies for the first count I/O vectors of a row. */
    ghost function Segments(row: nat, count: nat): (parts: seq<seq<byte>>)
      requires row < ioVectors.Length0 && count <= ioVectors.Length1
      requires forall j :: 0 <= j < count ==> ioVectors[row, j] in regions
      reads this, ioVectors, set v | v in regions :: v.base
      ensures |parts| == count
    {
      if count == 0 then [] else Segments(row, count - 1) + [Gathered(ioVectors[row, count - 1])]
    }

    /** What the kernel copies for message k. */
    ghost function Gather(k: nat): Frame
      requires Valid() && k < currentIndex
      reads this, ioVectors, messageHeaders, set v | v in regions :: v.base
    {
      assert Intact(k);
      Flatten(Segments(messageHeaders[k].row, messageHeaders[k].count))
    }

    lemma {:induction false} SegmentsAreMeant(k: nat, count: nat)
      requires Valid() && k < currentIndex && count <= messageHeaders[k].count
      requires Intact(k)
      ensures Segments(messageHeaders[k].row, count) == meant[k][..count]
    {
      if count > 0 {
        SegmentsAreMeant(k, count - 1);
        TakeNext(meant[k], count - 1);
        assert Reads(ioVectors[messageHeaders[k].row, count - 1], meant[k][count - 1]);
      }
    }

    /** Following the references now gives exactly the frames meant when the messages were queued. */
    lemma GatherIsMeant(k: nat)
      requires Valid() && k < currentIndex
      ensures Gather(k) == Flatten(meant[k])
    {
      assert Intact(k);
      SegmentsAreMeant(k, messageHeaders[k].count);
      TakeAll(meant[k]);
    }

    /** Submits the queued messages: the kernel follows every reference at this moment. */
    method Flush()
      requires Valid()
      modifies this
      ensures Valid() && currentIndex == 0 && regions == {}
      ensures State() == Output(old(State()).wire + [old(State()).queued], [])
    {
      ghost var batch := seq(currentIndex, k requires 0 <= k < currentIndex && Valid()
        reads this, ioVectors, messageHeaders, set v | v in regions :: v.base => Gather(k));
      forall k | 0 <= k < currentIndex ensures Gather(k) == Flatten(meant[k]) {
        GatherIsMeant(k);
      }
      assert batch == State().queued;
      wire := wire + [batch];
      currentIndex, meant, regions := 0, [], {};
    }
  }
}
