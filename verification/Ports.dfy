/** The port list of a scan: ranges expanded, explicit ports added, sorted, deduplicated and perhaps shuffled. */
module Ports {
  import opened Bytes

  const PORTS: nat := 0x10000

  type Port = x: int | 0 <= x < PORTS

  datatype PortsRange = PortsRange(start: Port, end: Port)

  predicate Valid(r: PortsRange) {
    r.start < r.end
  }

  /** A port the rule asks for. The upper bound of a range is not part of it. */
  ghost predicate Wanted(ranges: seq<PortsRange>, ports: seq<Port>, p: Port) {
    p in ports || exists k :: 0 <= k < |ranges| && ranges[k].start <= p < ranges[k].end
  }

  ghost predicate Ascending(s: seq<Port>) {
    forall i, j :: 0 <= i < j < |s| ==> s[i] <= s[j]
  }

  ghost predicate Distinct(s: seq<Port>) {
    forall i, j :: 0 <= i < j < |s| ==> s[i] != s[j]
  }

  method Expand(r: PortsRange) returns (ports: seq<Port>)
    ensures forall p :: p in ports <==> r.start <= p < r.end
  {
    ports := [];
    var port: int := r.start;
    while port < r.end
      invariant r.start <= port && (r.start <= r.end ==> port <= r.end)
      invariant forall p :: p in ports <==> r.start <= p < port && p < r.end
    {
      ports := ports + [port];
      port := port + 1;
    }
  }

  method Insert(s: seq<Port>, p: Port) returns (r: seq<Port>)
    requires Ascending(s)
    ensures Ascending(r) && multiset(r) == multiset(s) + multiset{p}
  {
    hide Ascending;
    var i := |s|;
    while i > 0 && s[i - 1] > p
      invariant 0 <= i <= |s| && forall k :: i <= k < |s| ==> s[k] > p
    {
      i := i - 1;
    }
    r := s[..i] + [p] + s[i..];
    InsertedAt(s, i, p);
  }

  lemma InsertedAt(s: seq<Port>, i: nat, p: Port)
    requires Ascending(s) && i <= |s| && (i > 0 ==> s[i - 1] <= p) && forall k :: i <= k < |s| ==> s[k] > p
    ensures Ascending(s[..i] + [p] + s[i..]) && multiset(s[..i] + [p] + s[i..]) == multiset(s) + multiset{p}
  {
    hide Ascending;
    assert s == s[..i] + s[i..];
    Inserted(s[..i], s[i..], p);
  }

  lemma Inserted(a: seq<Port>, b: seq<Port>, p: Port)
    requires Ascending(a + b) && (a != [] ==> a[|a| - 1] <= p) && forall k :: 0 <= k < |b| ==> b[k] > p
    ensures Ascending(a + [p] + b) && multiset(a + [p] + b) == multiset(a + b) + multiset{p}
  {
    forall i, j | 0 <= i < j < |a| + |b| + 1 ensures (a + [p] + b)[i] <= (a + [p] + b)[j] {
      if i < |a| {
        assert a[i] == (a + b)[i] <= (a + b)[|a| - 1] == a[|a| - 1];
      } else if i > |a| {
        assert (a + b)[i - 1] <= (a + b)[j - 1];
      }
      if j < |a| { assert (a + b)[i] <= (a + b)[j]; }
    }
  }

  method Sort(s: seq<Port>) returns (r: seq<Port>)
    ensures Ascending(r) && multiset(r) == multiset(s)
  {
    r := [];
    for i := 0 to |s|
      invariant Ascending(r) && multiset(r) == multiset(s[..i])
    {
      TakeNext(s, i);
      r := Insert(r, s[i]);
    }
    TakeAll(s);
  }

  /** Keeps the first of every run of equal ports. */
  method Compact(s: seq<Port>) returns (r: seq<Port>)
    requires Ascending(s)
    ensures Ascending(r) && Distinct(r) && forall p :: p in r <==> p in s
  {
    r := [];
    for i := 0 to |s|
      invariant Ascending(r) && Distinct(r)
      invariant i == 0 ==> r == []
      invariant i > 0 ==> r != [] && r[|r| - 1] == s[i - 1]
      invariant forall p :: p in r <==> p in s[..i]
    {
      TakeNext(s, i);
      if i == 0 || s[i] != s[i - 1] {
        r := r + [s[i]];
      }
    }
    TakeAll(s);
  }

  lemma {:induction false} DistinctCount(s: seq<Port>, p: Port)
    requires Distinct(s)
    ensures multiset(s)[p] <= 1
  {
    if s != [] {
      assert s == [s[0]] + s[1..];
      DistinctCount(s[1..], p);
      if s[0] == p { assert p !in s[1..]; }
    }
  }

  lemma {:induction false} CountDistinct(s: seq<Port>)
    requires forall p: Port :: multiset(s)[p] <= 1
    ensures Distinct(s)
  {
    forall i, j | 0 <= i < j < |s| ensures s[i] != s[j] {
      assert s == s[..j] + [s[j]] + s[j + 1..];
      assert s[i] in s[..j];
      assert multiset(s)[s[j]] == multiset(s[..j])[s[j]] + 1 + multiset(s[j + 1..])[s[j]];
    }
  }

  /** Reordering neither adds, drops nor repeats a port. */
  lemma Reordered(s: seq<Port>, r: seq<Port>)
    requires multiset(s) == multiset(r) && Distinct(s)
    ensures Distinct(r) && forall p :: p in r <==> p in s
  {
    forall p: Port ensures multiset(r)[p] <= 1 { DistinctCount(s, p); }
    CountDistinct(r);
    forall p ensures p in r <==> p in s {
      assert p in r <==> p in multiset(r);
      assert p in s <==> p in multiset(s);
    }
  }

  /** Every wanted port once, or the first invalid range. */
  method BuildPorts(ranges: seq<PortsRange>, ports: seq<Port>, shuffle: bool)
    returns (r: Result<seq<Port>, PortsRange>)
    ensures r.Success? <==> forall k :: 0 <= k < |ranges| ==> Valid(ranges[k])
    ensures r.Success? ==> Distinct(r.value) && forall p :: p in r.value <==> Wanted(ranges, ports, p)
    ensures r.Success? && !shuffle ==> Ascending(r.value)
    ensures r.Failure? ==> exists k :: 0 <= k < |ranges| && r.error == ranges[k] && !Valid(ranges[k]) &&
                                       forall j :: 0 <= j < k ==> Valid(ranges[j])
  {
    var all: seq<Port> := [];
    for k := 0 to |ranges|
      invariant forall j :: 0 <= j < k ==> Valid(ranges[j])
      invariant forall p :: p in all <==> exists j :: 0 <= j < k && ranges[j].start <= p < ranges[j].end
    {
      if !Valid(ranges[k]) {
        return Failure(ranges[k]);
      }
      var expanded := Expand(ranges[k]);
      all := all + expanded;
    }
    all := all + ports;
    var sorted := Sort(all);
    forall p ensures p in sorted <==> p in all {
      assert p in sorted <==> p in multiset(sorted);
      assert p in all <==> p in multiset(all);
    }
    var compact := Compact(sorted);
    if shuffle {
      var buf := new Port[|compact|](i requires 0 <= i < |compact| => compact[i]);
      assert buf[..] == compact;
      Shuffle(buf);
      Reordered(compact, buf[..]);
      return Success(buf[..]);
    }
    return Success(compact);
  }
}
