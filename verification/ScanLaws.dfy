/** What the submitted batches amount to: completeness, validity and distinctness of the frames. */
module ScanLaws {
  import opened Bytes
  import opened Addresses
  import opened Checksum
  import opened Enumerator
  import opened Frames
  import opened Reading
  import opened Batch
  import opened Batching
  import opened PortScan
  import opened HostScan

  ghost predicate ValidTargets(c: Config, hosts: seq<Target>) {
    forall k :: 0 <= k < |hosts| ==> ValidTarget(c, hosts[k])
  }

  /** Host by host, probe by probe, port by port. */
  function AllFrames(c: Config, hosts: seq<Target>): seq<Frame>
    requires ValidConfig(c) && ValidTargets(c, hosts)
  {
    if hosts == [] then []
    else AllFrames(c, hosts[..|hosts| - 1]) + HostFrames(c, hosts[|hosts| - 1], |c.probes|)
  }

  /** The frame meant for one host, probe and port. */
  function FrameFor(c: Config, h: Target, t: nat, i: nat): Frame
    requires ValidConfig(c) && ValidTarget(c, h) && t < |c.probes| && i < |c.ports|
  {
    LinkHeader(c, h) + Packet(c.f, c.probes[t], c.src, h.ip, c.ports[i])
  }

  // ---------------------------------------------------------------- fast path

  /** With at least one frame a host, the single-batch branch submits the batches of the general one. */
  lemma {:induction false} FastPathIsGeneral(c: Config, hosts: seq<Target>)
    requires ValidConfig(c) && ValidTargets(c, hosts)
    ensures HostBatches(c, hosts) == GeneralBatches(c, hosts) <==> hosts == [] || |c.ports| * |c.probes| > 0
  {
    if hosts != [] {
      var init, h := hosts[..|hosts| - 1], hosts[|hosts| - 1];
      FastPathIsGeneral(c, init);
      var fs := HostFrames(c, h, |c.probes|);
      assert |fs| == |c.probes| * |c.ports|;
      if |fs| == 0 {
        GeneralIsEmpty(c, hosts);
        assert BatchesOf(c, h) == [fs];
        assert |HostBatches(c, hosts)| > 0;
      } else {
        assert BatchesOf(c, h) == Chunks(fs);
      }
    }
  }

  lemma {:induction false} GeneralIsEmpty(c: Config, hosts: seq<Target>)
    requires ValidConfig(c) && ValidTargets(c, hosts) && |c.ports| * |c.probes| == 0
    ensures GeneralBatches(c, hosts) == []
  {
    if hosts != [] {
      GeneralIsEmpty(c, hosts[..|hosts| - 1]);
      assert |HostFrames(c, hosts[|hosts| - 1], |c.probes|)| == 0;
    }
  }

  // ---------------------------------------------------------------- completeness

  /** The batches of all hosts, joined, are all frames in order, none lost, repeated or reordered. */
  lemma {:induction false} AllSent(c: Config, hosts: seq<Target>)
    requires ValidConfig(c) && ValidTargets(c, hosts)
    ensures Flatten(HostBatches(c, hosts)) == AllFrames(c, hosts)
    ensures forall k :: 0 <= k < |HostBatches(c, hosts)| ==> |HostBatches(c, hosts)[k]| <= SLOTS
  {
    if hosts != [] {
      var init, h := hosts[..|hosts| - 1], hosts[|hosts| - 1];
      AllSent(c, init);
      var fs := HostFrames(c, h, |c.probes|);
      FlattenConcat(HostBatches(c, init), BatchesOf(c, h));
      if OneBatchPerHost(c) {
        FlattenOne(fs);
        assert |fs| == |c.probes| * |c.ports| <= SLOTS;
      } else {
        ChunksKeepEverything(fs);
      }
    }
  }

  /** Position t * ports + i among a host's frames holds the frame for probe t and port i. */
  lemma {:induction false} FrameAt(c: Config, h: Target, n: nat, t: nat, i: nat)
    requires ValidConfig(c) && ValidTarget(c, h) && t < n <= |c.probes| && i < |c.ports|
    ensures 0 <= t * |c.ports| + i < |HostFrames(c, h, n)|
    ensures HostFrames(c, h, n)[t * |c.ports| + i] == FrameFor(c, h, t, i)
  {
    hide ProbeFrames, FrameFor;
    if t < n - 1 {
      FrameAt(c, h, n - 1, t, i);
    } else {
      ProbeFrameAt(c, h, t, i);
    }
  }

  lemma ProbeFrameAt(c: Config, h: Target, t: nat, i: nat)
    requires ValidConfig(c) && ValidTarget(c, h) && t < |c.probes| && i < |c.ports|
    ensures ProbeFrames(c, h, t)[i] == FrameFor(c, h, t, i)
  {
    hide IpHeader, TransportHeader, IpTemplate;
    var p := c.probes[t];
    var a, ip, b := LinkHeader(c, h), IpHeader(c.f, Template(c, t), h.ip), TransportHeader(c.f, p, c.src, h.ip, c.ports[i]);
    assert Packet(c.f, p, c.src, h.ip, c.ports[i]) == ip + b + p.payload;
    assert a + ip + b + p.payload == a + (ip + b + p.payload);
  }

  // ---------------------------------------------------------------- validity and distinctness

  /**
   Every gathered frame as a receiver reads it: link header, IP header, a segment that sums to zero behind the
   pseudo-header put together from that IP header, the port, and the template and payload of the probe.
   */
  lemma FrameIsValid(c: Config, h: Target, t: nat, i: nat)
    requires ValidConfig(c) && ValidTarget(c, h) && t < |c.probes| && i < |c.ports|
    ensures ProbeReads(FrameFor(c, h, t, i), c.f, if c.link.Gateway? then c.link.mac else h.eth, c.srcMac, c.src, h.ip,
                       c.probes[t], c.ports[i])
  {
    hide Packet, EthernetHeader, ProbeReads;
    ProbeIsRead(c.f, if c.link.Gateway? then c.link.mac else h.eth, c.srcMac, c.src, h.ip, c.probes[t], c.ports[i]);
  }

  lemma {:induction false} AllFramesLength(c: Config, hosts: seq<Target>)
    requires ValidConfig(c) && ValidTargets(c, hosts)
    ensures |AllFrames(c, hosts)| == |hosts| * (|c.probes| * |c.ports|)
  {
    hide HostFrames;
    if hosts != [] {
      AllFramesLength(c, hosts[..|hosts| - 1]);
      Distribute(|hosts| - 1, 1, |c.probes| * |c.ports|);
    }
  }

  /** Among all frames, the one for host number k, probe t and port i stands at its place and is read as meant. */
  lemma {:induction false} AllAreRead(c: Config, hosts: seq<Target>, k: nat, t: nat, i: nat)
    requires ValidConfig(c) && ValidTargets(c, hosts) && k < |hosts| && t < |c.probes| && i < |c.ports|
    ensures var at, h := k * (|c.probes| * |c.ports|) + (t * |c.ports| + i), hosts[k];
            0 <= at < |AllFrames(c, hosts)| &&
            ProbeReads(AllFrames(c, hosts)[at], c.f, if c.link.Gateway? then c.link.mac else h.eth, c.srcMac, c.src, h.ip,
                       c.probes[t], c.ports[i])
  {
    hide HostFrames, FrameFor, ProbeReads;
    var init := hosts[..|hosts| - 1];
    AllFramesLength(c, init);
    FrameAt(c, hosts[k], |c.probes|, t, i);
    if k < |init| {
      AllAreRead(c, init, k, t, i);
    } else {
      FrameIsValid(c, hosts[k], t, i);
    }
  }

  /** Different hosts or ports never share a frame of the same probe. */
  lemma FramesDiffer(c: Config, h: Target, h': Target, t: nat, i: nat, i': nat)
    requires ValidConfig(c) && ValidTarget(c, h) && ValidTarget(c, h')
    requires t < |c.probes| && i < |c.ports| && i' < |c.ports|
    requires c.ports[i] < 0x10000 && c.ports[i'] < 0x10000
    requires h.ip != h'.ip || c.ports[i] != c.ports[i']
    ensures FrameFor(c, h, t, i) != FrameFor(c, h', t, i')
  {
    hide Packet;
    if FrameFor(c, h, t, i) == FrameFor(c, h', t, i') {
      var a, b := LinkHeader(c, h), LinkHeader(c, h');
      var x, y := Packet(c.f, c.probes[t], c.src, h.ip, c.ports[i]), Packet(c.f, c.probes[t], c.src, h'.ip, c.ports[i']);
      assert x == (a + x)[14..] == (b + y)[14..] == y;
      PacketInjective(c.f, c.probes[t], c.src, h.ip, c.ports[i], h'.ip, c.ports[i']);
    }
  }
}
