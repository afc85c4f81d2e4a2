/**
 The stream a scan returns, with what feeds it: the ranges send findings and errors on two bounded channels that
 are closed when all of them have returned; one goroutine forwards findings, one collects errors, and the first
 error either returns cancels the other. The collector stops reading at the first error.
 */
module Stream {
  import opened Bytes

  const OUT: nat := 256
  const FINDINGS: nat := 16
  const ERRORS: nat := 4

  /** What a range sends, and whether it returns in the end or is left waiting by a goroutine that gave up early. */
  datatype Message<F, E> = Found(f: F) | Failed(e: Option<E>)
  datatype Producer<F, E> = Producer(sends: seq<Message<F, E>>, ends: bool)

  /** A non-nil error of the group: one that was received, or the context's. */
  datatype Error<E> = Received(e: E) | Cancelled

  datatype Forwarder<F, E> = Looping | Holding(f: F) | Stopped(err: Option<Error<E>>)
  datatype Collector<E> = Listening | Ended(err: Option<Error<E>>)
  datatype Closer = Open | Half | Closed

  /** Both channels with their closer and for the record all that was sent on them, and the two goroutines. */
  datatype State<F, E> = State(todo: seq<seq<Message<F, E>>>, findings: seq<F>, errors: seq<Option<E>>, closer: Closer,
                               sent: seq<F>, failed: seq<Option<E>>,
                               forward: Forwarder<F, E>, taken: seq<F>, out: seq<F>, read: nat, closes: nat,
                               collect: Collector<E>, got: seq<Option<E>>, first: Option<Error<E>>, cancelled: bool)

  datatype Step = Produce(i: nat) | CloseFindings | CloseErrors | Take | EndFindings | Put | GiveUp | Collect | EndErrors | Read

  function Init<F, E>(ps: seq<Producer<F, E>>): State<F, E> {
    State(seq(|ps|, i requires 0 <= i < |ps| => ps[i].sends), [], [], Open, [], [], Looping, [], [], 0, 0,
          Listening, [], None, false)
  }

  ghost predicate AllReturned<F, E>(ps: seq<Producer<F, E>>, s: State<F, E>)
    requires |ps| == |s.todo|
  {
    forall i :: 0 <= i < |ps| ==> s.todo[i] == [] && ps[i].ends
  }

  ghost predicate Enabled<F, E>(ps: seq<Producer<F, E>>, s: State<F, E>, a: Step)
    requires |ps| == |s.todo|
  {
    match a
    case Produce(i) =>
      i < |ps| && s.todo[i] != [] && if s.todo[i][0].Found? then |s.findings| < FINDINGS else |s.errors| < ERRORS
    case CloseFindings => s.closer.Open? && AllReturned(ps, s)
    case CloseErrors => s.closer.Half?
    case Take => s.forward.Looping? && s.findings != []
    case EndFindings => s.forward.Looping? && s.findings == [] && !s.closer.Open?
    case Put => s.forward.Holding? && |s.out| - s.read < OUT
    case GiveUp => s.forward.Holding? && s.cancelled
    case Collect => s.collect.Listening? && s.errors != []
    case EndErrors => s.collect.Listening? && s.errors == [] && s.closer.Closed?
    case Read => s.read < |s.out|
  }

  /** A goroutine of the group returns: the first non-nil error is kept and cancels the context. */
  function Fail<F, E>(s: State<F, E>, err: Error<E>): State<F, E> {
    s.(first := if s.first.None? then Some(err) else s.first, cancelled := true)
  }

  ghost function Do<F, E>(ps: seq<Producer<F, E>>, s: State<F, E>, a: Step): (r: State<F, E>)
    requires |ps| == |s.todo| && Enabled(ps, s, a)
    ensures |r.todo| == |ps|
  {
    match a
    case Produce(i) =>
      var m, rest := s.todo[i][0], s.todo[i := s.todo[i][1..]];
      if m.Found? then s.(todo := rest, findings := s.findings + [m.f], sent := s.sent + [m.f])
      else s.(todo := rest, errors := s.errors + [m.e], failed := s.failed + [m.e])
    case CloseFindings => s.(closer := Half)
    case CloseErrors => s.(closer := Closed)
    case Take => s.(forward := Holding(s.findings[0]), findings := s.findings[1..], taken := s.taken + [s.findings[0]])
    case EndFindings => s.(forward := Stopped(None), closes := s.closes + 1)
    case Put => s.(forward := Looping, out := s.out + [s.forward.f])
    case GiveUp => Fail(s.(forward := Stopped(Some(Cancelled)), closes := s.closes + 1), Cancelled)
    case Collect =>
      var e := s.errors[0];
      var next := s.(errors := s.errors[1..], got := s.got + [e]);
      if e.None? then next else Fail(next.(collect := Ended(Some(Received(e.value)))), Received(e.value))
    case EndErrors => s.(collect := Ended(None))
    case Read => s.(read := s.read + 1)
  }

  // ---------------------------------------------------------------- invariant

  ghost predicate AllNil<E>(es: seq<Option<E>>) {
    forall k :: 0 <= k < |es| ==> es[k].None?
  }

  ghost predicate ForwardInv<F, E>(s: State<F, E>) {
    s.sent == s.taken + s.findings && |s.findings| <= FINDINGS && s.read <= |s.out| &&
    s.closes == (if s.forward.Stopped? then 1 else 0) &&
    match s.forward
    case Looping => s.taken == s.out
    case Holding(f) => s.taken == s.out + [f]
    case Stopped(err) => s.out <= s.taken && (err.None? ==> s.out == s.taken && s.findings == [] && !s.closer.Open?) &&
                         (err.Some? ==> s.cancelled)
  }

  ghost predicate CollectInv<F, E>(s: State<F, E>) {
    s.failed == s.got + s.errors && |s.errors| <= ERRORS && (s.cancelled <==> s.first.Some?) &&
    match s.collect
    case Listening => s.first.None? && AllNil(s.got)
    case Ended(err) =>
      if err.None? then s.first.None? && AllNil(s.got) && s.errors == [] && s.closer.Closed?
      else s.got != [] && AllNil(s.got[..|s.got| - 1]) && s.got[|s.got| - 1].Some? &&
           s.first == Some(Received(s.got[|s.got| - 1].value))
  }

  ghost predicate Inv<F, E>(ps: seq<Producer<F, E>>, s: State<F, E>) {
    |s.todo| == |ps| && (!s.closer.Open? ==> AllReturned(ps, s)) && ForwardInv(s) && CollectInv(s)
  }

  lemma InitInv<F, E>(ps: seq<Producer<F, E>>)
    ensures Inv(ps, Init(ps))
  {
  }

  /** Every step of producers, closer, forwarder, collector and caller keeps the invariant. */
  lemma {:induction false} StepKeeps<F, E>(ps: seq<Producer<F, E>>, s: State<F, E>, a: Step)
    requires Inv(ps, s) && Enabled(ps, s, a)
    ensures Inv(ps, Do(ps, s, a))
  {
    hide ForwardInv, CollectInv;
    ForwardKeeps(ps, s, a);
    CollectKeeps(ps, s, a);
  }

  lemma {:induction false} ForwardKeeps<F, E>(ps: seq<Producer<F, E>>, s: State<F, E>, a: Step)
    requires Inv(ps, s) && Enabled(ps, s, a)
    ensures ForwardInv(Do(ps, s, a))
  {
    hide AllReturned, CollectInv;
    if a.Produce? {
      ProduceKeeps(ps, s, a);
    } else if a.Take? {
      TakeKeeps(ps, s, a);
    }
  }

  lemma TakeKeeps<F, E>(ps: seq<Producer<F, E>>, s: State<F, E>, a: Step)
    requires |s.todo| == |ps| && ForwardInv(s) && a.Take? && Enabled(ps, s, a)
    ensures ForwardInv(Do(ps, s, a))
  {
    hide AllReturned;
    assert s.findings == [s.findings[0]] + s.findings[1..];
  }

  lemma {:induction false} ProduceKeeps<F, E>(ps: seq<Producer<F, E>>, s: State<F, E>, a: Step)
    requires Inv(ps, s) && a.Produce? && Enabled(ps, s, a)
    ensures ForwardInv(Do(ps, s, a))
  {
    hide CollectInv;
    var next := Do(ps, s, a);
    if s.todo[a.i][0].Found? {
      assert next.sent == s.taken + next.findings;
    } else {
      assert next.sent == s.sent && next.findings == s.findings;
    }
  }

  lemma {:induction false} CollectKeeps<F, E>(ps: seq<Producer<F, E>>, s: State<F, E>, a: Step)
    requires Inv(ps, s) && Enabled(ps, s, a)
    ensures CollectInv(Do(ps, s, a))
  {
    hide ForwardInv;
    if a.Collect? {
      CollectOneKeeps(ps, s, a);
    } else if a.GiveUp? {
      hide AllReturned;
      CancelledHasFirst(ps, s);
    }
  }

  lemma CollectOneKeeps<F, E>(ps: seq<Producer<F, E>>, s: State<F, E>, a: Step)
    requires |s.todo| == |ps| && CollectInv(s) && a.Collect? && Enabled(ps, s, a)
    ensures CollectInv(Do(ps, s, a))
  {
    hide AllReturned;
    var g := s.got + [s.errors[0]];
    assert s.errors == [s.errors[0]] + s.errors[1..];
    assert g[..|g| - 1] == s.got;
  }

  lemma CancelledHasFirst<F, E>(ps: seq<Producer<F, E>>, s: State<F, E>)
    requires Inv(ps, s) && s.cancelled
    ensures s.first.Some? && s.collect.Ended?
  {
  }

  // ---------------------------------------------------------------- runs

  ghost predicate Takes<F, E>(ps: seq<Producer<F, E>>, s: State<F, E>, a: Step, s': State<F, E>) {
    |ps| == |s.todo| && Enabled(ps, s, a) && s' == Do(ps, s, a)
  }

  ghost predicate IsPath<F, E>(ps: seq<Producer<F, E>>, ss: seq<State<F, E>>, steps: seq<Step>) {
    |ss| == |steps| + 1 && forall k :: 0 <= k < |steps| ==> Takes(ps, ss[k], steps[k], ss[k + 1])
  }

  ghost predicate IsRun<F, E>(ps: seq<Producer<F, E>>, ss: seq<State<F, E>>, steps: seq<Step>) {
    IsPath(ps, ss, steps) && ss[0] == Init(ps)
  }

  lemma {:induction false} RunInv<F, E>(ps: seq<Producer<F, E>>, ss: seq<State<F, E>>, steps: seq<Step>, k: nat)
    requires IsRun(ps, ss, steps) && k < |ss|
    ensures Inv(ps, ss[k])
  {
    hide Inv, Do, Enabled;
    if k == 0 {
      InitInv(ps);
    } else {
      RunInv(ps, ss, steps, k - 1);
      assert Takes(ps, ss[k - 1], steps[k - 1], ss[k]);
      StepKeeps(ps, ss[k - 1], steps[k - 1]);
    }
  }

  /** What the caller gets is a prefix of the findings sent, in order, on a channel closed at most once. */
  lemma {:induction false} OutputIsPrefix<F, E>(ps: seq<Producer<F, E>>, ss: seq<State<F, E>>, steps: seq<Step>, k: nat)
    requires IsRun(ps, ss, steps) && k < |ss|
    ensures ss[k].out <= ss[k].sent && ss[k].closes <= 1
    ensures ss[k].closes == 1 ==> forall j :: k <= j < |ss| ==> ss[j].out == ss[k].out && ss[j].closes == 1
  {
    RunInv(ps, ss, steps, k);
    if ss[k].closes == 1 {
      forall j | k <= j < |ss| ensures ss[j].out == ss[k].out && ss[j].closes == 1 {
        ClosedStays(ps, ss, steps, k, j);
      }
    }
  }

  lemma {:induction false} ClosedStays<F, E>(ps: seq<Producer<F, E>>, ss: seq<State<F, E>>, steps: seq<Step>, k: nat, j: nat)
    requires IsRun(ps, ss, steps) && k <= j < |ss| && ss[k].forward.Stopped?
    ensures ss[j].forward.Stopped? && ss[j].out == ss[k].out && ss[j].closes == ss[k].closes
  {
    if k < j {
      ClosedStays(ps, ss, steps, k, j - 1);
      assert Takes(ps, ss[j - 1], steps[j - 1], ss[j]);
    }
  }

  /** Both goroutines have returned, so Wait returns the group's first error. */
  predicate Over<F, E>(s: State<F, E>) {
    s.forward.Stopped? && s.collect.Ended?
  }

  /** The first non-nil error, if there is one. */
  function FirstError<E>(es: seq<Option<E>>): Option<E> {
    if es == [] then None else if es[0].Some? then es[0] else FirstError(es[1..])
  }

  lemma {:induction false} FirstErrorAt<E>(es: seq<Option<E>>, n: nat)
    requires n < |es| && (forall k :: 0 <= k < n ==> es[k].None?) && es[n].Some?
    ensures FirstError(es) == es[n]
  {
    if n > 0 { FirstErrorAt(es[1..], n - 1); }
  }

  lemma {:induction false} FirstErrorNone<E>(es: seq<Option<E>>)
    requires AllNil(es)
    ensures FirstError(es).None?
  {
    if es != [] { FirstErrorNone(es[1..]); }
  }

  /**
   Wait reports an error exactly when a non-nil one was sent, and then the first of them, never the context's;
   without an error every finding of every range is put out.
   */
  lemma {:induction false} WaitReportsFirstError<F, E>(ps: seq<Producer<F, E>>, ss: seq<State<F, E>>, steps: seq<Step>, k: nat)
    requires IsRun(ps, ss, steps) && k < |ss| && Over(ss[k])
    ensures ss[k].closes == 1 && |ss[k].todo| == |ps|
    ensures ss[k].first == if FirstError(ss[k].failed).Some? then Some(Received(FirstError(ss[k].failed).value)) else None
    ensures FirstError(ss[k].failed).None? ==> ss[k].out == ss[k].sent && AllReturned(ps, ss[k])
  {
    var s := ss[k];
    RunInv(ps, ss, steps, k);
    if s.first.Some? {
      var n := |s.got| - 1;
      assert s.failed[n] == s.got[n] && forall j :: 0 <= j < n ==> s.failed[j] == s.got[..n][j];
      FirstErrorAt(s.failed, n);
    } else {
      assert s.failed == s.got;
      FirstErrorNone(s.failed);
    }
  }

  // ---------------------------------------------------------------- counting

  function Errors<F, E>(ms: seq<Message<F, E>>): nat {
    if ms == [] then 0 else (if ms[0].Failed? then 1 else 0) + Errors(ms[1..])
  }

  function AllErrors<F, E>(todo: seq<seq<Message<F, E>>>): nat {
    if todo == [] then 0 else AllErrors(todo[..|todo| - 1]) + Errors(todo[|todo| - 1])
  }

  /** How many errors the ranges send in all. */
  function TotalErrors<F, E>(ps: seq<Producer<F, E>>): nat {
    AllErrors(Init(ps).todo)
  }

  function Work<F, E>(ms: seq<Message<F, E>>): nat {
    if ms == [] then 0 else (if ms[0].Found? then 4 else 2) + Work(ms[1..])
  }

  function AllWork<F, E>(todo: seq<seq<Message<F, E>>>): nat {
    if todo == [] then 0 else AllWork(todo[..|todo| - 1]) + Work(todo[|todo| - 1])
  }

  lemma {:induction false} Sums<F, E>(todo: seq<seq<Message<F, E>>>, i: nat)
    requires i < |todo| && todo[i] != []
    ensures AllErrors(todo[i := todo[i][1..]]) == AllErrors(todo) - if todo[i][0].Failed? then 1 else 0
    ensures AllWork(todo[i := todo[i][1..]]) == AllWork(todo) - if todo[i][0].Found? then 4 else 2
  {
    var n := |todo| - 1;
    var after := todo[i := todo[i][1..]];
    if i < n {
      Sums(todo[..n], i);
      assert after[..n] == todo[..n][i := todo[i][1..]];
    } else {
      assert after[..n] == todo[..n];
    }
  }

  lemma {:induction false} NothingLeft<F, E>(todo: seq<seq<Message<F, E>>>)
    ensures (forall i :: 0 <= i < |todo| ==> todo[i] == []) ==> AllErrors(todo) == 0
    ensures forall i :: 0 <= i < |todo| && todo[i] != [] && todo[i][0].Failed? ==> AllErrors(todo) > 0
  {
    if todo != [] {
      var n := |todo| - 1;
      NothingLeft(todo[..n]);
      forall i | 0 <= i < |todo| && todo[i] != [] && todo[i][0].Failed? ensures AllErrors(todo) > 0 {
        if i < n { assert todo[..n][i] == todo[i]; }
      }
    }
  }

  /** Errors sent and errors still to be sent are all errors. */
  ghost predicate Counted<F, E>(ps: seq<Producer<F, E>>, s: State<F, E>) {
    |s.failed| + AllErrors(s.todo) == TotalErrors(ps)
  }

  lemma {:induction false} StepCounts<F, E>(ps: seq<Producer<F, E>>, s: State<F, E>, a: Step)
    requires Inv(ps, s) && Counted(ps, s) && Enabled(ps, s, a)
    ensures Counted(ps, Do(ps, s, a))
  {
    hide ForwardInv, CollectInv, AllErrors;
    if a.Produce? { Sums(s.todo, a.i); }
  }

  /** Steps still to come. */
  function Measure<F, E>(s: State<F, E>): int {
    AllWork(s.todo) + 3 * |s.findings| + |s.errors| + (|s.out| - s.read) +
    (match s.forward case Looping => 1 case Holding(_) => 3 case Stopped(_) => 0) +
    (if s.collect.Listening? then 1 else 0) + (match s.closer case Open => 2 case Half => 1 case Closed => 0)
  }

  lemma ProduceDecreases<F, E>(ps: seq<Producer<F, E>>, s: State<F, E>, a: Step)
    requires |s.todo| == |ps| && s.read <= |s.out| && a.Produce? && Enabled(ps, s, a)
    ensures 0 <= Measure(Do(ps, s, a)) < Measure(s)
  {
    hide AllWork, AllReturned;
    Sums(s.todo, a.i);
  }

  lemma {:induction false} StepDecreases<F, E>(ps: seq<Producer<F, E>>, s: State<F, E>, a: Step)
    requires Inv(ps, s) && Enabled(ps, s, a)
    ensures 0 <= Measure(Do(ps, s, a)) < Measure(s)
  {
    hide AllWork, CollectInv, AllReturned;
    StepKeeps(ps, s, a);
    if a.Produce? {
      ProduceDecreases(ps, s, a);
    }
  }

  lemma {:induction false} RunIsShort<F, E>(ps: seq<Producer<F, E>>, ss: seq<State<F, E>>, steps: seq<Step>, k: nat)
    requires IsRun(ps, ss, steps) && k < |ss|
    ensures Inv(ps, ss[k]) && Counted(ps, ss[k])
    ensures 0 <= Measure(ss[k]) && k + Measure(ss[k]) <= AllWork(Init(ps).todo) + 4
  {
    hide Inv, Do, Enabled, Counted, Measure;
    RunInv(ps, ss, steps, k);
    if k == 0 {
      StartCounts(ps);
    } else {
      RunIsShort(ps, ss, steps, k - 1);
      assert Takes(ps, ss[k - 1], steps[k - 1], ss[k]);
      StepCounts(ps, ss[k - 1], steps[k - 1]);
      StepDecreases(ps, ss[k - 1], steps[k - 1]);
    }
  }

  lemma StartCounts<F, E>(ps: seq<Producer<F, E>>)
    ensures Counted(ps, Init(ps)) && 0 <= Measure(Init(ps)) == AllWork(Init(ps).todo) + 4
  {
  }

  // ---------------------------------------------------------------- when Wait returns

  ghost predicate Stuck<F, E>(ps: seq<Producer<F, E>>, s: State<F, E>)
    requires |ps| == |s.todo|
  {
    forall a :: !Enabled(ps, s, a)
  }

  /** Every range returns, and they send no more errors than the collector and the channel take. */
  ghost predicate Drains<F, E>(ps: seq<Producer<F, E>>) {
    (forall i :: 0 <= i < |ps| ==> ps[i].ends) && TotalErrors(ps) <= ERRORS + 1
  }

  /** Where nothing can go on, the forwarder waits for findings on an open channel, or both goroutines have returned. */
  lemma {:induction false} StuckForwarder<F, E>(ps: seq<Producer<F, E>>, s: State<F, E>)
    requires Inv(ps, s) && Stuck(ps, s)
    ensures Over(s) || (s.forward.Looping? && s.findings == [] && s.closer.Open?)
    ensures s.read == |s.out|
  {
    hide AllReturned;
    assert !Enabled(ps, s, Take) && !Enabled(ps, s, EndFindings) && !Enabled(ps, s, Put) && !Enabled(ps, s, Read);
    assert !Enabled(ps, s, Collect) && !Enabled(ps, s, EndErrors) && !Enabled(ps, s, CloseErrors);
  }

  /** A waiting forwarder means a range that never returns, or a full error channel that nobody reads. */
  lemma {:induction false} WaitingForwarder<F, E>(ps: seq<Producer<F, E>>, s: State<F, E>)
    requires Inv(ps, s) && Stuck(ps, s) && s.findings == [] && s.closer.Open? && forall i :: 0 <= i < |ps| ==> ps[i].ends
    ensures |s.errors| == ERRORS && s.got != [] && AllErrors(s.todo) > 0
  {
    hide ForwardInv;
    assert !Enabled(ps, s, CloseFindings) && !Enabled(ps, s, Collect);
    var i :| 0 <= i < |ps| && s.todo[i] != [];
    assert !Enabled(ps, s, Produce(i));
    NothingLeft(s.todo);
  }

  lemma {:induction false} DrainsEnds<F, E>(ps: seq<Producer<F, E>>, ss: seq<State<F, E>>, steps: seq<Step>)
    requires IsRun(ps, ss, steps) && Drains(ps) && |ss[|steps|].todo| == |ps| && Stuck(ps, ss[|steps|])
    ensures Over(ss[|steps|])
  {
    hide Stuck, Inv, TotalErrors, Measure;
    var s := ss[|steps|];
    RunIsShort(ps, ss, steps, |steps|);
    StuckForwarder(ps, s);
    if !Over(s) {
      WaitingForwarder(ps, s);
      GotAndBuffered(ps, s);
    }
  }

  lemma GotAndBuffered<F, E>(ps: seq<Producer<F, E>>, s: State<F, E>)
    requires Inv(ps, s)
    ensures |s.failed| == |s.got| + |s.errors|
  {
  }

  // ---------------------------------------------------------------- a run that hangs

  /** The scan sends no nil error. */
  ghost predicate NoNil<F, E>(todo: seq<seq<Message<F, E>>>) {
    forall i, j :: 0 <= i < |todo| && 0 <= j < |todo[i]| && todo[i][j].Failed? ==> todo[i][j].e.Some?
  }

  /** A forwarder that never gives up a finding it holds, and no nil error anywhere. */
  ghost predicate Patient<F, E>(s: State<F, E>) {
    NoNil(s.todo) && (forall k :: 0 <= k < |s.failed| ==> s.failed[k].Some?) &&
    (s.forward.Stopped? ==> s.forward.err.None?)
  }

  lemma {:induction false} PatientStep<F, E>(ps: seq<Producer<F, E>>, s: State<F, E>, a: Step)
    requires Inv(ps, s) && Patient(s) && Enabled(ps, s, a) && !a.GiveUp?
    ensures Patient(Do(ps, s, a))
  {
    hide ForwardInv, CollectInv;
    if a.Produce? {
      var rest := s.todo[a.i := s.todo[a.i][1..]];
      assert NoNil(rest);
    }
  }

  /** A holding forwarder can always put out, or the caller read. */
  lemma {:induction false} GivingUpIsAChoice<F, E>(ps: seq<Producer<F, E>>, s: State<F, E>)
    requires Inv(ps, s) && !Stuck(ps, s)
    ensures exists a :: Enabled(ps, s, a) && !a.GiveUp?
  {
    var a :| Enabled(ps, s, a);
    if a.GiveUp? {
      assert Enabled(ps, s, Put) || Enabled(ps, s, Read);
    }
  }

  /** From any state a patient path leads to where nothing can go on. */
  lemma {:induction false} Exhaust<F, E>(ps: seq<Producer<F, E>>, s: State<F, E>)
    returns (ss: seq<State<F, E>>, steps: seq<Step>)
    requires Inv(ps, s) && Patient(s) && Counted(ps, s)
    ensures IsPath(ps, ss, steps) && ss[0] == s
    ensures var last := ss[|steps|]; Inv(ps, last) && Patient(last) && Counted(ps, last) && Stuck(ps, last)
    decreases Measure(s) + 1
  {
    hide Inv, Do, Enabled, Counted, Measure, Patient, Stuck;
    TodoLength(ps, s);
    MeasureIsNat(ps, s);
    if Stuck(ps, s) {
      ss, steps := [s], [];
    } else {
      GivingUpIsAChoice(ps, s);
      var a :| Enabled(ps, s, a) && !a.GiveUp?;
      var next := Do(ps, s, a);
      StepKeeps(ps, s, a);
      PatientStep(ps, s, a);
      StepCounts(ps, s, a);
      StepDecreases(ps, s, a);
      var rest, more := Exhaust(ps, next);
      ss, steps := [s] + rest, [a] + more;
      forall k | 0 <= k < |steps| ensures Takes(ps, ss[k], steps[k], ss[k + 1]) {
        if k > 0 { assert Takes(ps, rest[k - 1], more[k - 1], rest[k]); }
      }
    }
  }

  lemma TodoLength<F, E>(ps: seq<Producer<F, E>>, s: State<F, E>)
    requires Inv(ps, s)
    ensures |s.todo| == |ps|
  {
  }

  lemma MeasureIsNat<F, E>(ps: seq<Producer<F, E>>, s: State<F, E>)
    requires Inv(ps, s)
    ensures 0 <= Measure(s)
  {
  }

  lemma NoNils<E>(nils: seq<Option<E>>, es: seq<Option<E>>)
    requires AllNil(nils) && nils <= es && (es != [] ==> es[0].Some?)
    ensures nils == []
  {
  }

  /** A patient run ends only where the ranges drain: at most one error was received and four wait in the channel. */
  lemma {:induction false} PatientEnds<F, E>(ps: seq<Producer<F, E>>, s: State<F, E>)
    requires Inv(ps, s) && Patient(s) && Counted(ps, s) && Over(s)
    ensures Drains(ps)
  {
    hide TotalErrors;
    NothingLeft(s.todo);
    var nils := if s.collect.err.Some? then s.got[..|s.got| - 1] else s.got;
    NoNils(nils, s.failed);
  }

  /** Some run cannot go on and has not ended: Wait never returns. */
  ghost predicate MayHang<F(!new), E(!new)>(ps: seq<Producer<F, E>>) {
    exists ss: seq<State<F, E>>, steps: seq<Step> ::
      IsRun(ps, ss, steps) && |ss[|steps|].todo| == |ps| && Stuck(ps, ss[|steps|]) && !Over(ss[|steps|])
  }

  /**
   Exactly when Wait returns: as no error sent is nil, every run that cannot go on has ended, however it was
   scheduled, if and only if all ranges return and send at most five errors in all. Nil errors, which the collector
   would pass over, only help.
   */
  lemma {:induction false} WaitReturns<F(!new), E(!new)>(ps: seq<Producer<F, E>>)
    ensures NoNil(Init(ps).todo) ==> (!MayHang(ps) <==> Drains(ps))
    ensures Drains(ps) ==> !MayHang(ps)
  {
    hide Stuck, Drains, Over;
    if Drains(ps) {
      forall ss: seq<State<F, E>>, steps: seq<Step> | IsRun(ps, ss, steps) && |ss[|steps|].todo| == |ps| && Stuck(ps, ss[|steps|])
        ensures Over(ss[|steps|])
      {
        DrainsEnds(ps, ss, steps);
      }
    } else if NoNil(Init(ps).todo) {
      InitInv(ps);
      StartCounts(ps);
      var ss, steps := Exhaust(ps, Init(ps));
      TodoLength(ps, ss[|steps|]);
      if Over(ss[|steps|]) { PatientEnds(ps, ss[|steps|]); }
      assert IsRun(ps, ss, steps);
    }
  }

  /** Runs are bounded, with or without nil errors. */
  lemma {:induction false} RunsAreBounded<F, E>(ps: seq<Producer<F, E>>, ss: seq<State<F, E>>, steps: seq<Step>)
    requires IsRun(ps, ss, steps)
    ensures |steps| <= AllWork(Init(ps).todo) + 4
  {
    RunIsShort(ps, ss, steps, |steps|);
  }

  /** If every error is nil, Wait returns however many there are. */
  lemma {:induction false} NilErrorsEnd<F, E>(ps: seq<Producer<F, E>>, ss: seq<State<F, E>>, steps: seq<Step>)
    requires IsRun(ps, ss, steps) && |ss[|steps|].todo| == |ps| && Stuck(ps, ss[|steps|])
    requires (forall i :: 0 <= i < |ps| ==> ps[i].ends) && AllNil(ss[|steps|].failed)
    ensures Over(ss[|steps|])
  {
    hide Stuck;
    var s := ss[|steps|];
    RunInv(ps, ss, steps, |steps|);
    StuckForwarder(ps, s);
    if !Over(s) {
      WaitingForwarder(ps, s);
      NilKeepsListening(ps, s);
    }
  }

  lemma {:induction false} NilKeepsListening<F, E>(ps: seq<Producer<F, E>>, s: State<F, E>)
    requires Inv(ps, s) && Stuck(ps, s) && AllNil(s.failed) && s.closer.Open?
    ensures s.errors == []
  {
    assert !Enabled(ps, s, Collect);
    if s.collect.Ended? && s.collect.err.Some? { assert s.failed[|s.got| - 1] == s.got[|s.got| - 1]; }
  }

  // ---------------------------------------------------------------- two scans that hang

  lemma {:induction false} OneErrorEach<F, E>(todo: seq<seq<Message<F, E>>>)
    requires forall i :: 0 <= i < |todo| ==> |todo[i]| == 1 && todo[i][0].Failed?
    ensures AllErrors(todo) == |todo|
  {
    if todo != [] {
      var last := todo[|todo| - 1];
      OneErrorEach(todo[..|todo| - 1]);
      assert Errors(last[1..]) == 0;
    }
  }

  /** Six ranges that each report one error and return, as behind a gateway whose hardware address is unknown. */
  lemma SixFailuresHang<F(!new), E(!new)>(e: E) returns (ps: seq<Producer<F, E>>)
    ensures |ps| == 6 && (forall i :: 0 <= i < 6 ==> ps[i] == Producer([Failed(Some(e))], true)) && MayHang(ps)
  {
    hide Stuck, Over, IsRun;
    ps := seq(6, _ => Producer([Failed(Some(e))], true));
    OneErrorEach(Init(ps).todo);
    WaitReturns(ps);
  }

  /** One range that reports an error and returns early, leaving a goroutine of its own waiting for it. */
  lemma OneFailureHangs<F(!new), E(!new)>(e: E) returns (ps: seq<Producer<F, E>>)
    ensures ps == [Producer([Failed(Some(e))], false)] && MayHang(ps)
  {
    hide Stuck, Over, IsRun;
    ps := [Producer([Failed(Some(e))], false)];
    WaitReturns(ps);
  }
}
