/** How a stream of frames is cut into batches, as a function of the frames alone. */
module Batching {
  import opened Bytes
  import opened Enumerator
  import opened Batch

  /** Queues one frame, submitting the batch when its last slot is taken. */
  function Push(o: Output, f: Frame): Output {
    if |o.queued| + 1 == SLOTS then Output(o.wire + [o.queued + [f]], [])
    else Output(o.wire, o.queued + [f])
  }

  function Run(o: Output, fs: seq<Frame>): Output {
    if fs == [] then o else Push(Run(o, fs[..|fs| - 1]), fs[|fs| - 1])
  }

  /** Queues without ever submitting. */
  function Extend(o: Output, fs: seq<Frame>): Output {
    Output(o.wire, o.queued + fs)
  }

  /** Submits what is left over, if anything. */
  function Finish(o: Output): Output {
    if o.queued == [] then o else Output(o.wire + [o.queued], [])
  }

  /** Consecutive batches of 64 frames, the last one possibly shorter. */
  function Chunks(fs: seq<Frame>): seq<seq<Frame>> {
    if fs == [] then []
    else if |fs| <= SLOTS then [fs]
    else [fs[..SLOTS]] + Chunks(fs[SLOTS..])
  }

  lemma RunStep(o: Output, fs: seq<Frame>, i: nat)
    requires i < |fs|
    ensures Run(o, fs[..i + 1]) == Push(Run(o, fs[..i]), fs[i])
  {
    TakeNext(fs, i);
  }

  lemma {:induction false} RunConcat(o: Output, a: seq<Frame>, b: seq<Frame>)
    ensures Run(o, a + b) == Run(Run(o, a), b)
  {
    if b == [] {
      assert a + b == a;
    } else {
      assert (a + b)[..|a + b| - 1] == a + b[..|b| - 1];
      RunConcat(o, a, b[..|b| - 1]);
    }
  }

  lemma ChunksFirst(first: seq<Frame>, rest: seq<Frame>)
    requires |first| == SLOTS
    ensures Chunks(first + rest) == [first] + Chunks(rest)
  {
    var all := first + rest;
    if rest == [] {
      assert all == first;
    } else {
      assert all[..SLOTS] == first && all[SLOTS..] == rest;
    }
  }

  lemma RunFront(o: Output, x: Frame, rest: seq<Frame>)
    ensures Run(o, [x] + rest) == Run(Push(o, x), rest)
  {
    RunConcat(o, [x], rest);
    assert Run(o, [x][..0]) == o;
    RunStep(o, [x], 0);
    TakeAll([x]);
  }

  /** Queueing one frame does not change what will have been submitted in the end. */
  lemma PushKeepsChunks(o: Output, x: Frame, rest: seq<Frame>)
    requires |o.queued| < SLOTS
    ensures Push(o, x).wire + Chunks(Push(o, x).queued + rest) == o.wire + Chunks(o.queued + ([x] + rest))
  {
    var q := o.queued + [x];
    assert o.queued + ([x] + rest) == q + rest;
    if |q| == SLOTS {
      ChunksFirst(q, rest);
      assert [] + rest == rest;
      assert (o.wire + [q]) + Chunks(rest) == o.wire + ([q] + Chunks(rest));
    }
  }

  lemma FinishNothing(o: Output)
    requires |o.queued| < SLOTS
    ensures Finish(o) == Output(o.wire + Chunks(o.queued + []), [])
  {
    assert o.queued + [] == o.queued;
    assert o.wire + Chunks([]) == o.wire;
  }

  /** Flushing at 64 and once at the end submits exactly the consecutive batches of all frames. */
  lemma {:induction false} FinishRun(o: Output, fs: seq<Frame>)
    requires |o.queued| < SLOTS
    ensures Finish(Run(o, fs)) == Output(o.wire + Chunks(o.queued + fs), [])
    decreases |fs|
  {
    if fs == [] {
      FinishNothing(o);
    } else {
      hide Chunks, Run;
      var x, rest := fs[0], fs[1..];
      RunFront(o, x, rest);
      FinishRun(Push(o, x), rest);
      PushKeepsChunks(o, x, rest);
      assert fs == [x] + rest;
    }
  }

  /** Batches lose, repeat and reorder nothing, and only the last may have fewer than 64 frames. */
  lemma {:induction false} ChunksKeepEverything(fs: seq<Frame>)
    ensures Flatten(Chunks(fs)) == fs
    ensures forall k :: 0 <= k < |Chunks(fs)| ==> 0 < |Chunks(fs)[k]| <= SLOTS
    ensures forall k :: 0 <= k < |Chunks(fs)| - 1 ==> |Chunks(fs)[k]| == SLOTS
    decreases |fs|
  {
    if fs == [] {
    } else if |fs| <= SLOTS {
      assert [fs][1..] == [];
      assert fs + [] == fs;
    } else {
      var rest := fs[SLOTS..];
      ChunksKeepEverything(rest);
      var cs := Chunks(fs);
      assert cs[0] == fs[..SLOTS] && cs[1..] == Chunks(rest);
      assert fs == fs[..SLOTS] + rest;
    }
  }

  lemma {:induction false} FlattenConcat<T>(a: seq<seq<T>>, b: seq<seq<T>>)
    ensures Flatten(a + b) == Flatten(a) + Flatten(b)
  {
    if a == [] {
      assert a + b == b;
    } else {
      assert (a + b)[0] == a[0] && (a + b)[1..] == a[1..] + b;
      FlattenConcat(a[1..], b);
      assert a[0] + (Flatten(a[1..]) + Flatten(b)) == (a[0] + Flatten(a[1..])) + Flatten(b);
    }
  }

  lemma FlattenOne<T>(s: seq<T>)
    ensures Flatten([s]) == s
  {
    assert [s][1..] == [];
    assert s + [] == s;
  }
}
