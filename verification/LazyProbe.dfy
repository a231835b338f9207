// The lazily probed memory backend and the per-device allocators, as interleaved steps of any number
// of threads that share one lock.
module LazyProbe {
  import opened Text

  const UNKNOWN := -1
  const UNSUPPORTED := -2

  // Where a thread stands: between two atomic reads, writes or lock operations.
  datatype Pc =
    | Idle
    | ReadDone | Acquire | Recheck | Probing | Store(value: int) | Publish
    | LeaveNone | Leave | ReadResult
    | AcquireFor(device: int) | Lookup(device: int) | Build(device: int) | Fetch(device: int)
    | LeaveWith(device: int, handle: Option<nat>)

  // What the outside world decides in a step.
  datatype Outcome = Success(value: int) | Failure

  datatype Choice = Choice(thread: nat, device: Option<int>, outcome: Outcome)

  datatype Backend = Backend(thread: nat, call: nat, value: Option<int>)

  // What a call of get_allocator ended with; None stands for an exception.
  datatype Give = Give(thread: nat, ask: nat, device: int, handle: Option<nat>)

  // lock, supports, done and instances are the class attributes; the rest records the run: the calls of
  // detect_mem_backend and the devices asked for, thread by thread, every probe attempt, every allocator
  // built (its device), every value returned, the calls that were waiting for the lock when the probe was
  // published, and the calls whose own build failed.
  datatype State = State(
    pc: seq<Pc>, calls: seq<nat>, asked: seq<seq<int>>, lock: Option<nat>, supports: int, done: bool,
    instances: map<int, nat>, attempts: seq<Outcome>, built: seq<int>, backends: seq<Backend>, gives: seq<Give>,
    waiting: set<(nat, nat)>, failed: set<(nat, nat)>)

  function Init(threads: nat): State {
    State(seq(threads, _ => Idle), seq(threads, _ => 0), seq(threads, _ => []), None, UNKNOWN, false, map[], [], [],
          [], [], {}, {})
  }

  // A probe that cannot be set up counts as unsupported.
  function Value(o: Outcome): int {
    match o
    case Success(v) => v
    case Failure => UNSUPPORTED
  }

  function At(s: State, t: nat, pc: Pc): State
    requires t < |s.pc|
  {
    s.(pc := s.pc[t := pc])
  }

  // The calls that have seen an unpublished probe and do not hold the lock yet.
  function Waiting(s: State): set<(nat, nat)>
    requires |s.calls| == |s.pc|
  {
    set t | 0 <= t < |s.pc| && s.pc[t] == Acquire :: (t, s.calls[t])
  }

  // One atomic step of thread t inside detect_mem_backend, or None when it has to wait.
  function DetectStep(s: State, t: nat, o: Outcome): Option<State>
    requires t < |s.pc| == |s.calls| == |s.asked| && Detecting(s.pc[t])
  {
    match s.pc[t]
    case ReadDone => Some(At(s, t, if s.done then ReadResult else Acquire))
    case Acquire => if s.lock.None? then Some(At(s, t, Recheck).(lock := Some(t))) else None
    case Recheck => Some(At(s, t, if s.done then LeaveNone else Probing))
    case Probing => Some(At(s, t, Store(Value(o))).(attempts := s.attempts + [o]))
    case Store(v) => Some(At(s, t, Publish).(supports := v))
    case Publish => Some(At(s, t, Leave).(done := true, waiting := Waiting(s)))
    case LeaveNone => Some(At(s, t, Idle).(lock := None, backends := s.backends + [Backend(t, s.calls[t], None)]))
    case Leave => Some(At(s, t, ReadResult).(lock := None))
    case ReadResult => Some(At(s, t, Idle).(backends := s.backends + [Backend(t, s.calls[t], Some(s.supports))]))
  }

  // One atomic step inside get_allocator.
  function AllocatorStep(s: State, t: nat, o: Outcome): Option<State>
    requires t < |s.pc| == |s.asked| && !Detecting(s.pc[t]) && s.pc[t] != Idle
  {
    match s.pc[t]
    case AcquireFor(d) => if s.lock.None? then Some(At(s, t, Lookup(d)).(lock := Some(t))) else None
    case Lookup(d) => Some(At(s, t, if d in s.instances then Fetch(d) else Build(d)))
    case Build(d) =>
      Some(if o.Failure? then At(s, t, LeaveWith(d, None)).(failed := s.failed + {(t, |s.asked[t]|)})
           else At(s, t, Fetch(d)).(instances := s.instances[d := |s.built|], built := s.built + [d]))
    case Fetch(d) => Some(At(s, t, LeaveWith(d, if d in s.instances then Some(s.instances[d]) else None)))
    case LeaveWith(d, h) => Some(At(s, t, Idle).(lock := None, gives := s.gives + [Give(t, |s.asked[t]|, d, h)]))
  }

  predicate Detecting(pc: Pc) {
    || pc.ReadDone? || pc.Acquire? || pc.Recheck? || pc.Probing? || pc.Store? || pc.Publish?
    || pc.LeaveNone? || pc.Leave? || pc.ReadResult?
  }

  // An idle thread calls detect_mem_backend, or get_allocator for a device.
  function CallStep(s: State, t: nat, device: Option<int>): State
    requires t < |s.pc| == |s.calls| == |s.asked|
  {
    match device
    case None => At(s, t, ReadDone).(calls := s.calls[t := s.calls[t] + 1])
    case Some(d) => At(s, t, AcquireFor(d)).(asked := s.asked[t := s.asked[t] + [d]])
  }

  function Step(s: State, t: nat, device: Option<int>, o: Outcome): Option<State>
    requires t < |s.pc| == |s.calls| == |s.asked|
  {
    if s.pc[t] == Idle then Some(CallStep(s, t, device))
    else if Detecting(s.pc[t]) then DetectStep(s, t, o)
    else AllocatorStep(s, t, o)
  }

  ghost predicate Shaped(s: State, threads: nat) {
    |s.pc| == |s.calls| == |s.asked| == threads
  }

  // Every run: any number of threads, any schedule, any decision of the outside world. A choice of a
  // thread that does not exist or has to wait changes nothing.
  ghost function Exec(threads: nat, schedule: seq<Choice>): (s: State)
    ensures Shaped(s, threads)
  {
    if schedule == [] then Init(threads)
    else
      var s := Exec(threads, schedule[..|schedule| - 1]);
      var c := schedule[|schedule| - 1];
      if c.thread < threads then Next(s, c.thread, c.device, c.outcome) else s
  }

  ghost function Next(s: State, t: nat, device: Option<int>, o: Outcome): (r: State)
    requires t < |s.pc| == |s.calls| == |s.asked|
    ensures Shaped(r, |s.pc|)
  {
    var r := Step(s, t, device, o);
    if r.Some? then r.value else s
  }

  // ---------- The invariant ----------

  predicate Critical(pc: Pc) {
    || pc.Recheck? || pc.Probing? || pc.Store? || pc.Publish? || pc.LeaveNone? || pc.Leave?
    || pc.Lookup? || pc.Build? || pc.Fetch? || pc.LeaveWith?
  }

  // What holds of a thread, by where it stands.
  ghost predicate Fine(s: State, t: nat)
    requires t < |s.pc| == |s.calls| == |s.asked|
  {
    && (Critical(s.pc[t]) <==> s.lock == Some(t))
    && match s.pc[t]
       case Acquire => s.done ==> (t, s.calls[t]) in s.waiting
       case Recheck => s.done ==> (t, s.calls[t]) in s.waiting
       case Probing => s.attempts == []
       case Store(v) => |s.attempts| == 1 && v == Value(s.attempts[0]) && !s.done
       case Publish => |s.attempts| == 1 && s.supports == Value(s.attempts[0]) && !s.done
       case LeaveNone => s.done && (t, s.calls[t]) in s.waiting
       case Leave => s.done && (t, s.calls[t]) !in s.waiting
       case ReadResult => s.done && (t, s.calls[t]) !in s.waiting
       case ReadDone => (t, s.calls[t]) !in s.waiting
       case Build(d) => d !in s.instances
       case Fetch(d) => d in s.instances
       case LeaveWith(d, h) => h == if d in s.instances then Some(s.instances[d]) else None
       case _ => true
  }

  // Inside get_allocator a thread stands at the device it asked for last, and its build has failed exactly
  // if it is about to leave with nothing.
  ghost predicate AskFine(s: State, t: nat)
    requires t < |s.pc| == |s.calls| == |s.asked|
  {
    Allocating(s.pc[t]) ==>
      && s.asked[t] != [] && s.pc[t].device == s.asked[t][|s.asked[t]| - 1]
      && ((t, |s.asked[t]|) in s.failed <==> s.pc[t].LeaveWith? && s.pc[t].handle.None?)
  }

  predicate Allocating(pc: Pc) {
    pc.AcquireFor? || pc.Lookup? || pc.Build? || pc.Fetch? || pc.LeaveWith?
  }

  ghost predicate ProbeFine(s: State) {
    && |s.attempts| <= 1 && (s.lock.Some? ==> s.lock.value < |s.pc|)
    && (s.done ==> |s.attempts| == 1 && s.supports == Value(s.attempts[0]))
    && (!s.done ==> s.waiting == {} && s.backends == [])
    && (!s.done && s.attempts != [] ==>
          s.lock.Some? && (s.pc[s.lock.value].Store? || s.pc[s.lock.value].Publish?))
  }

  ghost predicate LogFine(s: State) {
    && (forall w :: w in s.waiting ==> w.0 < |s.calls| && w.1 <= s.calls[w.0])
    && forall k :: 0 <= k < |s.backends| ==>
         && var b := s.backends[k];
         && (b.value.None? <==> (b.thread, b.call) in s.waiting)
         && (b.value.Some? ==> b.value.value == s.supports)
  }

  // Allocator number k is the one of its device.
  ghost predicate AllocFine(s: State) {
    && (forall k :: 0 <= k < |s.built| ==> s.built[k] in s.instances && s.instances[s.built[k]] == k)
    && (forall d :: d in s.instances ==> s.instances[d] < |s.built| && s.built[s.instances[d]] == d)
  }

  // Call number ask of get_allocator by thread t is over.
  ghost predicate AskOver(s: State, t: nat, ask: nat) {
    && t < |s.asked| == |s.pc| && 1 <= ask <= |s.asked[t]|
    && (ask == |s.asked[t]| ==> !Allocating(s.pc[t]))
  }

  // A call that is over ended with the allocator of the device it asked for, or with nothing if its own
  // build failed.
  ghost predicate GiveFine(s: State, g: Give) {
    && AskOver(s, g.thread, g.ask) && g.device == s.asked[g.thread][g.ask - 1]
    && (g.handle.None? <==> (g.thread, g.ask) in s.failed)
    && (g.handle.Some? ==> g.device in s.instances && s.instances[g.device] == g.handle.value)
  }

  ghost predicate GivesFine(s: State) {
    && (forall f :: f in s.failed ==> f.0 < |s.asked| && 1 <= f.1 <= |s.asked[f.0]|)
    && (forall k :: 0 <= k < |s.gives| ==> GiveFine(s, s.gives[k]))
  }

  // Every call that is over is logged, and only once.
  ghost predicate GivesAll(s: State) {
    && (forall t, ask :: AskOver(s, t, ask) ==> Given(s.gives, t, ask))
    && forall i, j :: 0 <= i < j < |s.gives| ==>
         (s.gives[i].thread, s.gives[i].ask) != (s.gives[j].thread, s.gives[j].ask)
  }

  ghost predicate Given(gives: seq<Give>, t: nat, ask: nat) {
    exists k :: 0 <= k < |gives| && gives[k].thread == t && gives[k].ask == ask
  }

  // The same for detect_mem_backend.
  ghost predicate CallOver(s: State, t: nat, call: nat) {
    && t < |s.calls| == |s.pc| && 1 <= call <= s.calls[t]
    && (call == s.calls[t] ==> !Detecting(s.pc[t]))
  }

  ghost predicate AnswersAll(s: State) {
    && (forall t, call :: CallOver(s, t, call) ==> Answered(s.backends, t, call))
    && (forall k :: 0 <= k < |s.backends| ==> CallOver(s, s.backends[k].thread, s.backends[k].call))
    && forall i, j :: 0 <= i < j < |s.backends| ==>
         (s.backends[i].thread, s.backends[i].call) != (s.backends[j].thread, s.backends[j].call)
  }

  ghost predicate Answered(backends: seq<Backend>, t: nat, call: nat) {
    exists k :: 0 <= k < |backends| && backends[k].thread == t && backends[k].call == call
  }

  ghost predicate Inv(s: State, threads: nat) {
    && Shaped(s, threads)
    && (forall t :: 0 <= t < threads ==> Fine(s, t))
    && ProbeFine(s) && LogFine(s) && AllocFine(s)
  }

  // What the logs of all calls keep.
  ghost predicate LogInv(s: State, threads: nat) {
    && Shaped(s, threads)
    && (forall t :: 0 <= t < threads ==> AskFine(s, t))
    && GivesFine(s) && GivesAll(s) && AnswersAll(s)
  }

  lemma OwnDetect(s: State, t: nat, o: Outcome)
    requires t < |s.pc| == |s.calls| == |s.asked| && Fine(s, t) && ProbeFine(s) && Detecting(s.pc[t])
    ensures DetectStep(s, t, o).Some? ==> Fine(DetectStep(s, t, o).value, t)
  {
  }

  lemma OwnAllocator(s: State, t: nat, o: Outcome)
    requires t < |s.pc| == |s.calls| == |s.asked| && Fine(s, t) && !Detecting(s.pc[t]) && s.pc[t] != Idle
    ensures AllocatorStep(s, t, o).Some? ==> Fine(AllocatorStep(s, t, o).value, t)
  {
  }

  lemma OwnStep(s: State, t: nat, device: Option<int>, o: Outcome)
    requires Inv(s, |s.pc|) && t < |s.pc|
    ensures Fine(Next(s, t, device, o), t)
  {
    assert Fine(s, t);
    if Detecting(s.pc[t]) {
      OwnDetect(s, t, o);
    } else if s.pc[t] != Idle {
      OwnAllocator(s, t, o);
    }
  }

  // What a step leaves alone: the other threads; and, outside the lock, everything the lock guards.
  ghost predicate Frame(s: State, t: nat, r: State)
    requires |r.pc| == |s.pc| == |s.calls| == |s.asked| == |r.calls|
  {
    && (forall u :: 0 <= u < |s.pc| && u != t ==> r.pc[u] == s.pc[u] && r.calls[u] == s.calls[u])
    && (s.lock != Some(t) ==>
          && r.supports == s.supports && r.done == s.done && r.waiting == s.waiting
          && r.attempts == s.attempts && r.instances == s.instances
          && (r.lock == s.lock || (s.lock.None? && r.lock == Some(t))))
    && (s.lock == Some(t) ==>
          && (r.lock == s.lock || r.lock.None?)
          && ((r.done == s.done && r.waiting == s.waiting) || (!s.done && r.done && r.waiting == Waiting(s))))
  }

  lemma DetectFrame(s: State, t: nat, o: Outcome)
    requires t < |s.pc| == |s.calls| == |s.asked| && Fine(s, t) && Detecting(s.pc[t])
    ensures DetectStep(s, t, o).Some? ==> Frame(s, t, DetectStep(s, t, o).value)
  {
  }

  lemma AllocatorFrame(s: State, t: nat, o: Outcome)
    requires t < |s.pc| == |s.calls| == |s.asked| && Fine(s, t) && !Detecting(s.pc[t]) && s.pc[t] != Idle
    ensures AllocatorStep(s, t, o).Some? ==> Frame(s, t, AllocatorStep(s, t, o).value)
  {
  }

  lemma StepFrame(s: State, t: nat, device: Option<int>, o: Outcome)
    requires t < |s.pc| == |s.calls| == |s.asked| && Fine(s, t)
    ensures Frame(s, t, Next(s, t, device, o))
  {
    if Detecting(s.pc[t]) {
      DetectFrame(s, t, o);
    } else if s.pc[t] != Idle {
      AllocatorFrame(s, t, o);
    }
  }

  lemma OtherStep(s: State, t: nat, device: Option<int>, o: Outcome, u: nat)
    requires Inv(s, |s.pc|) && t < |s.pc| && u < |s.pc| && u != t
    ensures Fine(Next(s, t, device, o), u)
  {
    assert Fine(s, t) && Fine(s, u);
    StepFrame(s, t, device, o);
  }

  lemma ProbeDetect(s: State, t: nat, o: Outcome)
    requires t < |s.pc| == |s.calls| == |s.asked| && Fine(s, t) && ProbeFine(s) && LogFine(s) && Detecting(s.pc[t])
    ensures DetectStep(s, t, o).Some? ==> ProbeFine(DetectStep(s, t, o).value)
  {
  }

  lemma LogDetect(s: State, t: nat, o: Outcome)
    requires t < |s.pc| == |s.calls| == |s.asked| && Fine(s, t) && ProbeFine(s) && LogFine(s) && Detecting(s.pc[t])
    ensures DetectStep(s, t, o).Some? ==> LogFine(DetectStep(s, t, o).value)
  {
  }

  lemma ElsewhereStep(s: State, t: nat, o: Outcome)
    requires t < |s.pc| == |s.calls| == |s.asked| && Fine(s, t) && ProbeFine(s) && LogFine(s)
    requires !Detecting(s.pc[t]) && s.pc[t] != Idle
    ensures AllocatorStep(s, t, o).Some? ==>
              ProbeFine(AllocatorStep(s, t, o).value) && LogFine(AllocatorStep(s, t, o).value)
  {
  }

  lemma ProbeStep(s: State, t: nat, device: Option<int>, o: Outcome)
    requires Inv(s, |s.pc|) && t < |s.pc|
    ensures ProbeFine(Next(s, t, device, o)) && LogFine(Next(s, t, device, o))
  {
    assert Fine(s, t);
    if Detecting(s.pc[t]) {
      ProbeDetect(s, t, o);
      LogDetect(s, t, o);
    } else if s.pc[t] != Idle {
      ElsewhereStep(s, t, o);
    }
  }

  lemma BuildKeeps(s: State, r: State, d: int)
    requires AllocFine(s) && d !in s.instances
    requires r.instances == s.instances[d := |s.built|] && r.built == s.built + [d]
    ensures AllocFine(r)
  {
  }

  ghost predicate SameAllocators(s: State, r: State) {
    r.instances == s.instances && r.built == s.built
  }

  lemma DetectAllocatesNothing(s: State, t: nat, o: Outcome)
    requires t < |s.pc| == |s.calls| == |s.asked| && Detecting(s.pc[t])
    ensures DetectStep(s, t, o).Some? ==> SameAllocators(s, DetectStep(s, t, o).value)
  {
  }

  lemma AllocatorKeeps(s: State, t: nat, o: Outcome)
    requires t < |s.pc| == |s.calls| == |s.asked| && Fine(s, t) && AllocFine(s)
    requires !Detecting(s.pc[t]) && s.pc[t] != Idle
    ensures AllocatorStep(s, t, o).Some? ==> AllocFine(AllocatorStep(s, t, o).value)
  {
    if s.pc[t].Build? && o.Success? {
      BuildKeeps(s, AllocatorStep(s, t, o).value, s.pc[t].device);
    }
  }

  lemma AllocStep(s: State, t: nat, device: Option<int>, o: Outcome)
    requires t < |s.pc| == |s.calls| == |s.asked| && Fine(s, t) && AllocFine(s)
    ensures AllocFine(Next(s, t, device, o))
  {
    if Detecting(s.pc[t]) {
      DetectAllocatesNothing(s, t, o);
    } else if s.pc[t] != Idle {
      AllocatorKeeps(s, t, o);
    } else {
      assert SameAllocators(s, CallStep(s, t, device));
    }
  }

  lemma StepKeeps(s: State, t: nat, device: Option<int>, o: Outcome)
    requires Inv(s, |s.pc|) && t < |s.pc|
    ensures Inv(Next(s, t, device, o), |s.pc|)
  {
    OwnStep(s, t, device, o);
    forall u | 0 <= u < |s.pc| && u != t
      ensures Fine(Next(s, t, device, o), u)
    {
      OtherStep(s, t, device, o, u);
    }
    ProbeStep(s, t, device, o);
    AllocStep(s, t, device, o);
  }

  lemma {:induction false} Reachable(threads: nat, schedule: seq<Choice>)
    ensures Inv(Exec(threads, schedule), threads)
  {
    if schedule == [] {
    } else {
      var c := schedule[|schedule| - 1];
      Reachable(threads, schedule[..|schedule| - 1]);
      if c.thread < threads {
        StepKeeps(Exec(threads, schedule[..|schedule| - 1]), c.thread, c.device, c.outcome);
      }
    }
  }

  // ---------- What every run guarantees ----------

  // The fabric is probed at most once; once the probe is published its value is fixed; every value
  // that is not None is the probed one; and a call gets None exactly when it was waiting for the lock
  // when the probe was published.
  lemma OneProbe(threads: nat, schedule: seq<Choice>, k: nat)
    ensures var s := Exec(threads, schedule);
            && |s.attempts| <= 1
            && (s.done ==> |s.attempts| == 1 && s.supports == Value(s.attempts[0]))
            && (k < |s.backends| ==>
                  && s.done
                  && (s.backends[k].value.Some? ==> s.backends[k].value.value == Value(s.attempts[0]))
                  && (s.backends[k].value.None? <==> (s.backends[k].thread, s.backends[k].call) in s.waiting))
  {
    Reachable(threads, schedule);
  }

  // What is published is what the probe returned, or -2 if it could not be made.
  lemma ProbedValue(threads: nat, schedule: seq<Choice>)
    requires Exec(threads, schedule).done
    ensures var s := Exec(threads, schedule);
            && |s.attempts| == 1
            && s.supports == match s.attempts[0] case Success(v) => v case Failure => -2
  {
    Reachable(threads, schedule);
  }

  lemma PublishedStep(s: State, t: nat, device: Option<int>, o: Outcome)
    requires t < |s.pc| == |s.calls| == |s.asked| && Fine(s, t) && ProbeFine(s) && s.done
    ensures var r := Next(s, t, device, o);
            && r.done && r.supports == s.supports && r.attempts == s.attempts && r.waiting == s.waiting
            && s.backends <= r.backends
  {
  }

  // Nothing that was published or returned ever changes again, whatever happens later.
  lemma {:induction false} PublishedIsFinal(threads: nat, schedule: seq<Choice>, later: seq<Choice>)
    requires Exec(threads, schedule).done
    ensures var s, r := Exec(threads, schedule), Exec(threads, schedule + later);
            && r.done && r.supports == s.supports && r.attempts == s.attempts && r.waiting == s.waiting
            && s.backends <= r.backends
  {
    if later == [] {
      assert schedule + later == schedule;
    } else {
      var n := |later| - 1;
      var before, c := schedule + later[..n], later[n];
      assert schedule + later == before + [c];
      PublishedIsFinal(threads, schedule, later[..n]);
      Snoc(threads, before, c);
      Reachable(threads, before);
      if c.thread < threads {
        PublishedStep(Exec(threads, before), c.thread, c.device, c.outcome);
      }
    }
  }

  lemma Snoc(threads: nat, schedule: seq<Choice>, c: Choice)
    ensures Exec(threads, schedule + [c]) ==
            if c.thread < threads then Next(Exec(threads, schedule), c.thread, c.device, c.outcome)
            else Exec(threads, schedule)
  {
    assert (schedule + [c])[..|schedule|] == schedule;
  }

  // ---------- What every call of get_allocator ends with ----------

  // What a step of thread t leaves of the logs of the others.
  ghost predicate LogFrame(s: State, t: nat, r: State)
    requires |r.pc| == |s.pc| == |s.asked| == |r.asked|
  {
    && (forall u :: 0 <= u < |s.pc| && u != t ==> r.pc[u] == s.pc[u] && r.asked[u] == s.asked[u])
    && (forall u: nat, ask: nat :: u != t ==> ((u, ask) in r.failed <==> (u, ask) in s.failed))
  }

  // How a step inside one of the methods moves its thread: the counters stay, and the thread leaves the
  // method only where it returns.
  lemma DetectMoves(s: State, t: nat, o: Outcome)
    requires t < |s.pc| == |s.calls| == |s.asked| && Detecting(s.pc[t])
    ensures DetectStep(s, t, o).Some? ==>
              var r := DetectStep(s, t, o).value;
              && r.calls == s.calls && r.asked == s.asked && r.failed == s.failed && |r.pc| == |s.pc|
              && (forall u :: 0 <= u < |s.pc| && u != t ==> r.pc[u] == s.pc[u])
              && (!Detecting(r.pc[t]) <==> s.pc[t].LeaveNone? || s.pc[t].ReadResult?)
              && !Allocating(r.pc[t])
    ensures DetectStep(s, t, o).None? ==> s.pc[t].Acquire?
  {
  }

  lemma AllocatorMoves(s: State, t: nat, o: Outcome)
    requires t < |s.pc| == |s.calls| == |s.asked| && Allocating(s.pc[t])
    ensures AllocatorStep(s, t, o).Some? ==>
              var r := AllocatorStep(s, t, o).value;
              && r.calls == s.calls && r.asked == s.asked && |r.pc| == |s.pc|
              && r.failed == (if s.pc[t].Build? && o.Failure? then s.failed + {(t, |s.asked[t]|)} else s.failed)
              && (forall u :: 0 <= u < |s.pc| && u != t ==> r.pc[u] == s.pc[u])
              && (!Allocating(r.pc[t]) <==> s.pc[t].LeaveWith?)
              && !Detecting(r.pc[t])
    ensures AllocatorStep(s, t, o).None? ==> s.pc[t].AcquireFor?
  {
  }

  lemma StepLogFrame(s: State, t: nat, device: Option<int>, o: Outcome)
    requires t < |s.pc| == |s.calls| == |s.asked|
    ensures LogFrame(s, t, Next(s, t, device, o))
  {
    if Detecting(s.pc[t]) {
      DetectMoves(s, t, o);
    } else if s.pc[t] != Idle {
      AllocatorMoves(s, t, o);
    }
  }

  lemma AskStep(s: State, t: nat, device: Option<int>, o: Outcome)
    requires t < |s.pc| == |s.calls| == |s.asked| && Fine(s, t) && AskFine(s, t) && GivesFine(s)
    ensures AskFine(Next(s, t, device, o), t)
  {
  }

  // Allocators are never replaced.
  lemma InstancesGrow(s: State, t: nat, device: Option<int>, o: Outcome, d: int)
    requires t < |s.pc| == |s.calls| == |s.asked| && Fine(s, t) && d in s.instances
    ensures var r := Next(s, t, device, o);
            d in r.instances && r.instances[d] == s.instances[d]
  {
  }

  // A call that is over stays over, with the same device and the same failure.
  lemma OverStays(s: State, t: nat, device: Option<int>, o: Outcome, u: nat, ask: nat)
    requires t < |s.pc| == |s.calls| == |s.asked| && AskFine(s, t) && AskOver(s, u, ask)
    ensures var r := Next(s, t, device, o);
            && AskOver(r, u, ask) && r.asked[u][ask - 1] == s.asked[u][ask - 1]
            && ((u, ask) in r.failed <==> (u, ask) in s.failed)
  {
    StepLogFrame(s, t, device, o);
    if Detecting(s.pc[t]) {
      DetectMoves(s, t, o);
    } else if s.pc[t] != Idle {
      AllocatorMoves(s, t, o);
    }
  }

  lemma GiveStays(s: State, t: nat, device: Option<int>, o: Outcome, g: Give)
    requires t < |s.pc| == |s.calls| == |s.asked| && Fine(s, t) && AskFine(s, t) && GiveFine(s, g)
    ensures GiveFine(Next(s, t, device, o), g)
  {
    OverStays(s, t, device, o, g.thread, g.ask);
    if g.handle.Some? {
      InstancesGrow(s, t, device, o, g.device);
    }
  }

  // A step logs a give exactly when it leaves get_allocator.
  lemma StepGives(s: State, t: nat, device: Option<int>, o: Outcome)
    requires t < |s.pc| == |s.calls| == |s.asked|
    ensures var r := Next(s, t, device, o);
            if s.pc[t].LeaveWith?
            then r.gives == s.gives + [Give(t, |s.asked[t]|, s.pc[t].device, s.pc[t].handle)]
            else r.gives == s.gives
  {
  }

  lemma NewGiveFine(s: State, t: nat, device: Option<int>, o: Outcome)
    requires t < |s.pc| == |s.calls| == |s.asked| && Fine(s, t) && AskFine(s, t) && s.pc[t].LeaveWith?
    ensures GiveFine(Next(s, t, device, o), Give(t, |s.asked[t]|, s.pc[t].device, s.pc[t].handle))
  {
  }

  lemma FailedStep(s: State, t: nat, device: Option<int>, o: Outcome)
    requires t < |s.pc| == |s.calls| == |s.asked| && AskFine(s, t)
    requires forall f :: f in s.failed ==> f.0 < |s.asked| && 1 <= f.1 <= |s.asked[f.0]|
    ensures var r := Next(s, t, device, o);
            forall f :: f in r.failed ==> f.0 < |r.asked| && 1 <= f.1 <= |r.asked[f.0]|
  {
    if Detecting(s.pc[t]) {
      DetectMoves(s, t, o);
    } else if s.pc[t] != Idle {
      AllocatorMoves(s, t, o);
    }
  }

  lemma GivesStep(s: State, t: nat, device: Option<int>, o: Outcome)
    requires t < |s.pc| == |s.calls| == |s.asked| && Fine(s, t) && AskFine(s, t) && GivesFine(s)
    ensures GivesFine(Next(s, t, device, o))
  {
    var r := Next(s, t, device, o);
    FailedStep(s, t, device, o);
    StepGives(s, t, device, o);
    forall k | 0 <= k < |r.gives|
      ensures GiveFine(r, r.gives[k])
    {
      if k < |s.gives| {
        GiveStays(s, t, device, o, s.gives[k]);
      } else {
        NewGiveFine(s, t, device, o);
      }
    }
  }

  // A call that is over after a step was over before, unless the step ended it.
  lemma OverBefore(s: State, t: nat, device: Option<int>, o: Outcome, u: nat, ask: nat)
    requires t < |s.pc| == |s.calls| == |s.asked| && AskOver(Next(s, t, device, o), u, ask)
    ensures AskOver(s, u, ask) || (u == t && ask == |s.asked[t]| && s.pc[t].LeaveWith?)
  {
    StepLogFrame(s, t, device, o);
    if Detecting(s.pc[t]) {
      DetectMoves(s, t, o);
    } else if s.pc[t] != Idle {
      AllocatorMoves(s, t, o);
    }
  }

  lemma GivenMore(gives: seq<Give>, more: seq<Give>, t: nat, ask: nat)
    requires gives <= more && Given(gives, t, ask)
    ensures Given(more, t, ask)
  {
    var k :| 0 <= k < |gives| && gives[k].thread == t && gives[k].ask == ask;
    assert more[k] == gives[k];
  }

  lemma GivesAllStep(s: State, t: nat, device: Option<int>, o: Outcome)
    requires t < |s.pc| == |s.calls| == |s.asked| && AskFine(s, t) && GivesFine(s) && GivesAll(s)
    ensures GivesAll(Next(s, t, device, o))
  {
    var r := Next(s, t, device, o);
    StepGives(s, t, device, o);
    forall u, ask | AskOver(r, u, ask)
      ensures Given(r.gives, u, ask)
    {
      OverBefore(s, t, device, o, u, ask);
      if AskOver(s, u, ask) {
        GivenMore(s.gives, r.gives, u, ask);
      } else {
        assert r.gives[|s.gives|].thread == u && r.gives[|s.gives|].ask == ask;
      }
    }
    forall i, j | 0 <= i < j < |r.gives|
      ensures (r.gives[i].thread, r.gives[i].ask) != (r.gives[j].thread, r.gives[j].ask)
    {
      assert GiveFine(s, s.gives[i]);
    }
  }

  // ---------- What every call of detect_mem_backend ends with ----------

  lemma StepAnswers(s: State, t: nat, device: Option<int>, o: Outcome)
    requires t < |s.pc| == |s.calls| == |s.asked|
    ensures var r := Next(s, t, device, o);
            if s.pc[t].LeaveNone? || s.pc[t].ReadResult?
            then |r.backends| == |s.backends| + 1 && s.backends <= r.backends
                 && r.backends[|s.backends|].thread == t && r.backends[|s.backends|].call == s.calls[t]
            else r.backends == s.backends
  {
  }

  lemma CallOverStep(s: State, t: nat, device: Option<int>, o: Outcome, u: nat, call: nat)
    requires t < |s.pc| == |s.calls| == |s.asked|
    ensures CallOver(s, u, call) ==> CallOver(Next(s, t, device, o), u, call)
    ensures CallOver(Next(s, t, device, o), u, call) <==>
            CallOver(s, u, call) ||
            (u == t && call == s.calls[t] >= 1 && (s.pc[t].LeaveNone? || s.pc[t].ReadResult?))
  {
    if Detecting(s.pc[t]) {
      DetectMoves(s, t, o);
    } else if s.pc[t] != Idle {
      AllocatorMoves(s, t, o);
    }
  }

  lemma AnsweredMore(backends: seq<Backend>, more: seq<Backend>, t: nat, call: nat)
    requires backends <= more && Answered(backends, t, call)
    ensures Answered(more, t, call)
  {
    var k :| 0 <= k < |backends| && backends[k].thread == t && backends[k].call == call;
    assert more[k] == backends[k];
  }

  // A detecting thread has made a call.
  ghost predicate HasCalled(s: State, t: nat)
    requires t < |s.pc| == |s.calls|
  {
    Detecting(s.pc[t]) ==> s.calls[t] >= 1
  }

  lemma AnswersAllStep(s: State, t: nat, device: Option<int>, o: Outcome)
    requires t < |s.pc| == |s.calls| == |s.asked| && HasCalled(s, t) && AnswersAll(s)
    ensures AnswersAll(Next(s, t, device, o))
  {
    var r := Next(s, t, device, o);
    StepAnswers(s, t, device, o);
    forall u, call | CallOver(r, u, call)
      ensures Answered(r.backends, u, call)
    {
      CallOverStep(s, t, device, o, u, call);
      if CallOver(s, u, call) {
        AnsweredMore(s.backends, r.backends, u, call);
      } else {
        assert r.backends[|s.backends|].thread == u && r.backends[|s.backends|].call == call;
      }
    }
    forall k | 0 <= k < |r.backends|
      ensures CallOver(r, r.backends[k].thread, r.backends[k].call)
    {
      CallOverStep(s, t, device, o, r.backends[k].thread, r.backends[k].call);
    }
    forall i, j | 0 <= i < j < |r.backends|
      ensures (r.backends[i].thread, r.backends[i].call) != (r.backends[j].thread, r.backends[j].call)
    {
      assert CallOver(s, s.backends[i].thread, s.backends[i].call);
    }
  }

  lemma LogStep(s: State, t: nat, device: Option<int>, o: Outcome)
    requires Inv(s, |s.pc|) && LogInv(s, |s.pc|) && t < |s.pc|
    requires forall u :: 0 <= u < |s.pc| ==> HasCalled(s, u)
    ensures LogInv(Next(s, t, device, o), |s.pc|)
    ensures forall u :: 0 <= u < |s.pc| ==> HasCalled(Next(s, t, device, o), u)
  {
    var r := Next(s, t, device, o);
    assert Fine(s, t) && AskFine(s, t) && HasCalled(s, t);
    StepLogFrame(s, t, device, o);
    StepFrame(s, t, device, o);
    AskStep(s, t, device, o);
    CalledStep(s, t, device, o);
    forall u | 0 <= u < |s.pc|
      ensures AskFine(r, u) && HasCalled(r, u)
    {
      assert AskFine(s, u) && HasCalled(s, u);
    }
    GivesStep(s, t, device, o);
    GivesAllStep(s, t, device, o);
    AnswersAllStep(s, t, device, o);
  }

  lemma CalledStep(s: State, t: nat, device: Option<int>, o: Outcome)
    requires t < |s.pc| == |s.calls| == |s.asked| && HasCalled(s, t)
    ensures HasCalled(Next(s, t, device, o), t)
  {
    if Detecting(s.pc[t]) {
      DetectMoves(s, t, o);
    } else if s.pc[t] != Idle {
      AllocatorMoves(s, t, o);
    }
  }

  lemma {:induction false} LogReachable(threads: nat, schedule: seq<Choice>)
    ensures LogInv(Exec(threads, schedule), threads)
    ensures forall u :: 0 <= u < threads ==> HasCalled(Exec(threads, schedule), u)
  {
    if schedule == [] {
    } else {
      var c := schedule[|schedule| - 1];
      Reachable(threads, schedule[..|schedule| - 1]);
      LogReachable(threads, schedule[..|schedule| - 1]);
      if c.thread < threads {
        LogStep(Exec(threads, schedule[..|schedule| - 1]), c.thread, c.device, c.outcome);
      }
    }
  }

  // Every call of either method that is over has been answered, exactly once.
  lemma EveryCallIsAnswered(threads: nat, schedule: seq<Choice>)
    ensures GivesAll(Exec(threads, schedule)) && AnswersAll(Exec(threads, schedule))
  {
    LogReachable(threads, schedule);
  }

  // What a call of get_allocator ended with: nothing exactly if its own build failed, and otherwise the
  // one allocator of the device it asked for.
  ghost predicate EndsRight(s: State, g: Give) {
    && AskOver(s, g.thread, g.ask) && g.device == s.asked[g.thread][g.ask - 1]
    && (g.handle.None? <==> (g.thread, g.ask) in s.failed)
    && (g.handle.Some? ==>
          && g.device in s.instances && s.instances[g.device] == g.handle.value
          && g.handle.value < |s.built| && s.built[g.handle.value] == g.device)
  }

  lemma GiveIsRight(s: State, k: nat)
    requires GivesFine(s) && AllocFine(s) && k < |s.gives|
    ensures EndsRight(s, s.gives[k])
  {
    assert GiveFine(s, s.gives[k]);
  }

  lemma GivesAreRight(threads: nat, schedule: seq<Choice>, k: nat)
    requires k < |Exec(threads, schedule).gives|
    ensures EndsRight(Exec(threads, schedule), Exec(threads, schedule).gives[k])
  {
    LogReachable(threads, schedule);
    Reachable(threads, schedule);
    GiveIsRight(Exec(threads, schedule), k);
  }

  // The call (t, ask) was building when choice i of the schedule made the build fail.
  ghost predicate FailedAt(threads: nat, schedule: seq<Choice>, t: nat, ask: nat, i: nat) {
    && i < |schedule| && schedule[i].thread == t < threads && schedule[i].outcome.Failure?
    && Exec(threads, schedule[..i]).pc[t].Build? && |Exec(threads, schedule[..i]).asked[t]| == ask
  }

  lemma FailedGrows(s: State, t: nat, device: Option<int>, o: Outcome, f: (nat, nat))
    requires t < |s.pc| == |s.calls| == |s.asked|
    ensures f in Next(s, t, device, o).failed <==>
            f in s.failed || (f == (t, |s.asked[t]|) && s.pc[t].Build? && o.Failure?)
  {
    if Detecting(s.pc[t]) {
      DetectMoves(s, t, o);
    } else if s.pc[t] != Idle {
      AllocatorMoves(s, t, o);
    }
  }

  lemma FailedNext(threads: nat, schedule: seq<Choice>, k: nat, t: nat, ask: nat)
    requires k < |schedule|
    ensures (t, ask) in Exec(threads, schedule[..k + 1]).failed <==>
            (t, ask) in Exec(threads, schedule[..k]).failed || FailedAt(threads, schedule, t, ask, k)
  {
    var before, c := schedule[..k], schedule[k];
    Snoc(threads, before, c);
    assert schedule[..k + 1] == before + [c];
    if c.thread < threads {
      FailedGrows(Exec(threads, before), c.thread, c.device, c.outcome, (t, ask));
    }
  }

  // Something that starts false and becomes true at hits holds exactly after the first hit.
  lemma {:induction false} HoldsAfterHit(holds: seq<bool>, hits: seq<bool>, k: nat)
    requires |holds| == |hits| + 1 && !holds[0] && k <= |hits|
    requires forall i :: 0 < i < |holds| ==> holds[i] == (holds[i - 1] || hits[i - 1])
    ensures holds[k] <==> exists i :: 0 <= i < k && hits[i]
  {
    if k == 0 {
    } else {
      HoldsAfterHit(holds, hits, k - 1);
    }
  }

  // Whether the call has failed before choice k, and whether choice i makes it fail.
  ghost function Failing(threads: nat, schedule: seq<Choice>, t: nat, ask: nat): (holds: seq<bool>)
    ensures |holds| == |schedule| + 1
  {
    seq(|schedule| + 1, k requires 0 <= k <= |schedule| => (t, ask) in Exec(threads, schedule[..k]).failed)
  }

  ghost function Failures(threads: nat, schedule: seq<Choice>, t: nat, ask: nat): (hits: seq<bool>)
    ensures |hits| == |schedule|
  {
    seq(|schedule|, i requires 0 <= i < |schedule| => FailedAt(threads, schedule, t, ask, i))
  }

  lemma FailingStep(threads: nat, schedule: seq<Choice>, t: nat, ask: nat, i: nat)
    requires 0 < i <= |schedule|
    ensures var holds, hits := Failing(threads, schedule, t, ask), Failures(threads, schedule, t, ask);
            holds[i] == (holds[i - 1] || hits[i - 1])
  {
    FailedNext(threads, schedule, i - 1, t, ask);
  }

  lemma FailingEnds(threads: nat, schedule: seq<Choice>, t: nat, ask: nat)
    ensures var holds := Failing(threads, schedule, t, ask);
            !holds[0] && (holds[|schedule|] <==> (t, ask) in Exec(threads, schedule).failed)
  {
    assert schedule[..0] == [] && schedule[..|schedule|] == schedule;
  }

  // A call counts as failed exactly if the outside world made its build fail.
  lemma FailedByChoice(threads: nat, schedule: seq<Choice>, t: nat, ask: nat)
    ensures (t, ask) in Exec(threads, schedule).failed <==>
            exists i :: 0 <= i < |schedule| && FailedAt(threads, schedule, t, ask, i)
  {
    var holds, hits := Failing(threads, schedule, t, ask), Failures(threads, schedule, t, ask);
    forall i | 0 < i < |holds|
      ensures holds[i] == (holds[i - 1] || hits[i - 1])
    {
      FailingStep(threads, schedule, t, ask, i);
    }
    FailingEnds(threads, schedule, t, ask);
    HoldsAfterHit(holds, hits, |schedule|);
    FailuresAre(threads, schedule, t, ask);
  }

  lemma FailuresAre(threads: nat, schedule: seq<Choice>, t: nat, ask: nat)
    ensures var hits := Failures(threads, schedule, t, ask);
            (exists i :: 0 <= i < |schedule| && hits[i]) <==>
            exists i :: 0 <= i < |schedule| && FailedAt(threads, schedule, t, ask, i)
  {
    var hits := Failures(threads, schedule, t, ask);
    if i :| 0 <= i < |schedule| && hits[i] {
      assert FailedAt(threads, schedule, t, ask, i);
    }
    if i :| 0 <= i < |schedule| && FailedAt(threads, schedule, t, ask, i) {
      assert hits[i];
    }
  }

  // Once a device has an allocator it keeps it, and every later call for the device is given that one.
  lemma {:induction false} InstanceStays(threads: nat, schedule: seq<Choice>, later: seq<Choice>, d: int)
    requires d in Exec(threads, schedule).instances
    ensures var s, r := Exec(threads, schedule), Exec(threads, schedule + later);
            && d in r.instances && r.instances[d] == s.instances[d] && s.gives <= r.gives
            && (forall k :: |s.gives| <= k < |r.gives| && r.gives[k].device == d ==>
                  r.gives[k].handle == Some(s.instances[d]))
  {
    if later == [] {
      assert schedule + later == schedule;
    } else {
      var n := |later| - 1;
      var before, c := schedule + later[..n], later[n];
      assert schedule + later == before + [c];
      InstanceStays(threads, schedule, later[..n], d);
      Snoc(threads, before, c);
      Reachable(threads, before);
      if c.thread < threads {
        var s := Exec(threads, before);
        assert Fine(s, c.thread);
        InstancesGrow(s, c.thread, c.device, c.outcome, d);
        StepGives(s, c.thread, c.device, c.outcome);
      }
    }
  }

  // Each device has at most one allocator, and every caller that is given one is given that one.
  lemma OneAllocatorPerDevice(threads: nat, schedule: seq<Choice>)
    ensures var s := Exec(threads, schedule);
            && (forall i, j :: 0 <= i < j < |s.built| ==> s.built[i] != s.built[j])
            && (forall i, j | 0 <= i < |s.gives| && 0 <= j < |s.gives| ::
                  s.gives[i].handle.Some? && s.gives[j].handle.Some? ==>
                    (s.gives[i].device == s.gives[j].device <==> s.gives[i].handle == s.gives[j].handle))
  {
    Reachable(threads, schedule);
    var s := Exec(threads, schedule);
    forall k | 0 <= k < |s.gives|
      ensures GiveFine(s, s.gives[k])
    {
      LogReachable(threads, schedule);
    }
  }

  lemma AloneStep(s: State, device: Option<int>, o: Outcome)
    requires |s.pc| == |s.calls| == |s.asked| == 1 && s.waiting == {}
    ensures Next(s, 0, device, o).waiting == {}
  {
    if s.pc[0] == Publish {
      assert Waiting(s) == {};
    } else if s.pc[0] != Idle {
      assert Detecting(s.pc[0]) || AllocatorStep(s, 0, o).None? || AllocatorStep(s, 0, o).value.waiting == {};
    }
  }

  lemma AloneKeeps(before: seq<Choice>, c: Choice)
    requires Exec(1, before).waiting == {}
    ensures Exec(1, before + [c]).waiting == {}
  {
    var s := Exec(1, before);
    Snoc(1, before, c);
    if c.thread == 0 {
      AloneStep(s, c.device, c.outcome);
      assert Exec(1, before + [c]) == Next(s, 0, c.device, c.outcome);
    } else {
      assert Exec(1, before + [c]) == s;
    }
  }

  lemma {:induction false} NobodyWaits(schedule: seq<Choice>)
    ensures Exec(1, schedule).waiting == {}
  {
    if schedule == [] {
    } else {
      var before, c := schedule[..|schedule| - 1], schedule[|schedule| - 1];
      NobodyWaits(before);
      AloneKeeps(before, c);
      assert schedule == before + [c];
    }
  }

  // A thread that is alone is never given None.
  lemma AloneIsAnswered(schedule: seq<Choice>, k: nat)
    requires k < |Exec(1, schedule).backends|
    ensures Exec(1, schedule).backends[k].value.Some?
  {
    NobodyWaits(schedule);
    OneProbe(1, schedule, k);
  }

  // The lock never wedges: whenever some call is under way, some thread can move.
  lemma NeverStuck(threads: nat, schedule: seq<Choice>, t: nat) returns (u: nat)
    requires t < threads && Exec(threads, schedule).pc[t] != Idle
    ensures u < threads && Exec(threads, schedule).pc[u] != Idle
    ensures forall device, o :: Step(Exec(threads, schedule), u, device, o).Some?
  {
    var s := Exec(threads, schedule);
    Reachable(threads, schedule);
    u := if s.lock.None? then t else s.lock.value;
    assert Fine(s, u);
  }

  // How many steps of its own a thread is at most away from the end of its call.
  ghost function Rank(pc: Pc): nat {
    match pc
    case Idle => 0
    case LeaveNone => 1 case ReadResult => 1 case Leave => 2 case Publish => 3 case Store(_) => 4 case Probing => 5
    case Recheck => 6 case Acquire => 7 case ReadDone => 8
    case LeaveWith(_, _) => 1 case Fetch(_) => 2 case Build(_) => 3 case Lookup(_) => 4 case AcquireFor(_) => 5
  }

  // Every step a thread takes inside a call brings it nearer to the end: a call of detect_mem_backend takes
  // at most eight steps of its thread after its first, a call of get_allocator at most five.
  lemma StepsAreBounded(s: State, t: nat, device: Option<int>, o: Outcome)
    requires t < |s.pc| == |s.calls| == |s.asked| && s.pc[t] != Idle
    ensures Step(s, t, device, o).Some? ==> Rank(Next(s, t, device, o).pc[t]) < Rank(s.pc[t])
  {
  }

  // A call that starts is the one that was asked for.
  lemma CallsStart(s: State, t: nat, device: Option<int>, o: Outcome)
    requires t < |s.pc| == |s.calls| == |s.asked| && s.pc[t] == Idle
    ensures var r := Next(s, t, device, o);
            match device
            case None => Detecting(r.pc[t]) && r.calls == s.calls[t := s.calls[t] + 1] && r.asked == s.asked
            case Some(d) => Allocating(r.pc[t]) && r.asked == s.asked[t := s.asked[t] + [d]] && r.calls == s.calls
  {
  }

  // The steps all threads together are at most away from the end of their calls.
  ghost function Remaining(pc: seq<Pc>): nat {
    if pc == [] then 0 else Remaining(pc[..|pc| - 1]) + Rank(pc[|pc| - 1])
  }

  lemma {:induction false} RemainingStep(pc: seq<Pc>, t: nat, to: Pc)
    requires t < |pc|
    ensures Remaining(pc[t := to]) + Rank(pc[t]) == Remaining(pc) + Rank(to)
  {
    var n := |pc| - 1;
    if t == n {
      assert pc[t := to][..n] == pc[..n];
    } else {
      RemainingStep(pc[..n], t, to);
      assert pc[t := to][..n] == pc[..n][t := to];
    }
  }

  lemma MovesOne(s: State, t: nat, device: Option<int>, o: Outcome)
    requires t < |s.pc| == |s.calls| == |s.asked|
    ensures var r := Next(s, t, device, o);
            r.pc == s.pc[t := r.pc[t]]
  {
    StepLogFrame(s, t, device, o);
  }

  lemma StepNearer(s: State, t: nat, device: Option<int>, o: Outcome)
    requires t < |s.pc| == |s.calls| == |s.asked| && s.pc[t] != Idle && Step(s, t, device, o).Some?
    ensures Remaining(Next(s, t, device, o).pc) < Remaining(s.pc)
  {
    StepsAreBounded(s, t, device, o);
    MovesOne(s, t, device, o);
    RemainingStep(s.pc, t, Next(s, t, device, o).pc[t]);
  }

  // While a call is under way, some choice brings the end of all calls nearer.
  lemma SomeChoice(threads: nat, schedule: seq<Choice>, t: nat) returns (c: Choice)
    requires t < threads && Exec(threads, schedule).pc[t] != Idle
    ensures Remaining(Exec(threads, schedule + [c]).pc) < Remaining(Exec(threads, schedule).pc)
  {
    var u := NeverStuck(threads, schedule, t);
    c := Choice(u, None, Success(0));
    StepNearer(Exec(threads, schedule), u, c.device, c.outcome);
    Snoc(threads, schedule, c);
  }

  lemma {:induction false} NoneRemain(pc: seq<Pc>)
    requires Remaining(pc) == 0
    ensures forall t :: 0 <= t < |pc| ==> pc[t] == Idle
  {
    if pc == [] {
    } else {
      NoneRemain(pc[..|pc| - 1]);
    }
  }

  lemma {:induction false} SomeRemain(pc: seq<Pc>) returns (t: nat)
    requires Remaining(pc) > 0
    ensures t < |pc| && pc[t] != Idle
  {
    if Remaining(pc[..|pc| - 1]) > 0 {
      t := SomeRemain(pc[..|pc| - 1]);
    } else {
      t := |pc| - 1;
    }
  }

  // The steps still to take after a schedule.
  ghost function Left(threads: nat, schedule: seq<Choice>): nat {
    Remaining(Exec(threads, schedule).pc)
  }

  lemma OneLess(threads: nat, schedule: seq<Choice>) returns (c: Choice)
    requires Left(threads, schedule) > 0
    ensures Left(threads, schedule + [c]) < Left(threads, schedule)
  {
    var t := SomeRemain(Exec(threads, schedule).pc);
    c := SomeChoice(threads, schedule, t);
  }

  lemma {:induction false} NoneLeft(threads: nat, schedule: seq<Choice>, n: nat) returns (later: seq<Choice>)
    requires Left(threads, schedule) <= n
    ensures Left(threads, schedule + later) == 0
    decreases n
  {
    if Left(threads, schedule) == 0 {
      later := [];
      assert schedule + later == schedule;
    } else {
      var c := OneLess(threads, schedule);
      var rest := NoneLeft(threads, schedule + [c], n - 1);
      later := [c] + rest;
      Rejoin(schedule, c, rest);
    }
  }

  lemma Rejoin(schedule: seq<Choice>, c: Choice, rest: seq<Choice>)
    ensures schedule + [c] + rest == schedule + ([c] + rest)
  {
  }

  // Whatever has happened, all calls under way can be brought to an end.
  lemma CanFinish(threads: nat, schedule: seq<Choice>) returns (later: seq<Choice>)
    ensures forall t :: 0 <= t < threads ==> Exec(threads, schedule + later).pc[t] == Idle
  {
    later := NoneLeft(threads, schedule, Left(threads, schedule));
    NoneRemain(Exec(threads, schedule + later).pc);
  }

  // ---------- Two threads, one of them answered None ----------

  function Move(t: nat): Choice {
    Choice(t, None, Success(1))
  }

  // Both see the probe unpublished; thread 0 probes and is given 1; thread 1 is given None.
  lemma SecondThreadGetsNone() returns (schedule: seq<Choice>)
    ensures Exec(2, schedule).backends == [Backend(0, 1, Some(1)), Backend(1, 1, None)]
  {
    schedule := BothCall();
    schedule := BothWait(schedule);
    schedule := FirstEnters(schedule);
    schedule := FirstProbes(schedule);
    schedule := FirstPublishes(schedule);
    schedule := FirstLeaves(schedule);
    schedule := FirstReturns(schedule);
    schedule := SecondEnters(schedule);
    schedule := SecondRechecks(schedule);
    schedule := SecondLeaves(schedule);
  }

  lemma BothCall() returns (schedule: seq<Choice>)
    ensures Exec(2, schedule) == Init(2).(pc := [ReadDone, ReadDone], calls := [1, 1])
  {
    var a := [Move(0)];
    Snoc(2, [], Move(0));
    assert [] + [Move(0)] == a;
    assert Exec(2, a).pc == [ReadDone, Idle] && Exec(2, a).calls == [1, 0];
    Snoc(2, a, Move(1));
    schedule := a + [Move(1)];
    assert Exec(2, schedule).pc == [ReadDone, ReadDone] && Exec(2, schedule).calls == [1, 1];
  }

  lemma BothWait(before: seq<Choice>) returns (schedule: seq<Choice>)
    requires Exec(2, before) == Init(2).(pc := [ReadDone, ReadDone], calls := [1, 1])
    ensures Exec(2, schedule) == Init(2).(pc := [Acquire, Acquire], calls := [1, 1])
  {
    Snoc(2, before, Move(0));
    var a := before + [Move(0)];
    assert Exec(2, a).pc == [Acquire, ReadDone];
    Snoc(2, a, Move(1));
    schedule := a + [Move(1)];
    assert Exec(2, schedule).pc == [Acquire, Acquire];
  }

  lemma FirstEnters(before: seq<Choice>) returns (schedule: seq<Choice>)
    requires Exec(2, before) == Init(2).(pc := [Acquire, Acquire], calls := [1, 1])
    ensures Exec(2, schedule) == Init(2).(pc := [Probing, Acquire], calls := [1, 1], lock := Some(0))
  {
    Snoc(2, before, Move(0));
    var a := before + [Move(0)];
    assert Exec(2, a).pc == [Recheck, Acquire];
    Snoc(2, a, Move(0));
    schedule := a + [Move(0)];
    assert Exec(2, schedule).pc == [Probing, Acquire];
  }

  lemma FirstProbes(before: seq<Choice>) returns (schedule: seq<Choice>)
    requires Exec(2, before) == Init(2).(pc := [Probing, Acquire], calls := [1, 1], lock := Some(0))
    ensures var s := Exec(2, schedule);
            && s.pc == [Publish, Acquire] && s.calls == [1, 1] && s.lock == Some(0) && s.supports == 1
            && s.backends == []
  {
    Snoc(2, before, Move(0));
    var a := before + [Move(0)];
    assert Exec(2, a).pc == [Store(1), Acquire];
    Snoc(2, a, Move(0));
    schedule := a + [Move(0)];
    assert Exec(2, schedule).pc == [Publish, Acquire];
  }

  lemma FirstPublishes(before: seq<Choice>) returns (schedule: seq<Choice>)
    requires var s := Exec(2, before);
             && s.pc == [Publish, Acquire] && s.calls == [1, 1] && s.lock == Some(0) && s.supports == 1
             && s.backends == []
    ensures var s := Exec(2, schedule);
            && s.pc == [Leave, Acquire] && s.calls == [1, 1] && s.lock == Some(0) && s.supports == 1 && s.done
            && s.backends == []
  {
    Snoc(2, before, Move(0));
    schedule := before + [Move(0)];
    assert Exec(2, schedule).pc == [Leave, Acquire];
  }

  lemma LeavesLock(s: State)
    requires s.pc == [Leave, Acquire] && s.calls == [1, 1] && |s.asked| == 2
    ensures var r := Next(s, 0, None, Success(1));
            && r.pc == [ReadResult, Acquire] && r.calls == s.calls && r.lock == None && r.supports == s.supports
            && r.done == s.done && r.backends == s.backends
  {
  }

  lemma FirstLeaves(before: seq<Choice>) returns (schedule: seq<Choice>)
    requires var s := Exec(2, before);
             && s.pc == [Leave, Acquire] && s.calls == [1, 1] && s.lock == Some(0) && s.supports == 1 && s.done
             && s.backends == []
    ensures var s := Exec(2, schedule);
            && s.pc == [ReadResult, Acquire] && s.calls == [1, 1] && s.lock == None && s.supports == 1 && s.done
            && s.backends == []
  {
    Snoc(2, before, Move(0));
    schedule := before + [Move(0)];
    LeavesLock(Exec(2, before));
  }

  lemma ReturnsOne(s: State)
    requires s.pc == [ReadResult, Acquire] && s.calls == [1, 1] && |s.asked| == 2
    requires s.supports == 1 && s.backends == []
    ensures var r := Next(s, 0, None, Success(1));
            && r.pc == [Idle, Acquire] && r.calls == s.calls && r.lock == s.lock && r.done == s.done
            && r.backends == [Backend(0, 1, Some(1))]
  {
  }

  lemma FirstReturns(before: seq<Choice>) returns (schedule: seq<Choice>)
    requires var s := Exec(2, before);
             && s.pc == [ReadResult, Acquire] && s.calls == [1, 1] && s.lock == None && s.supports == 1 && s.done
             && s.backends == []
    ensures var s := Exec(2, schedule);
            && s.pc == [Idle, Acquire] && s.calls == [1, 1] && s.lock == None && s.done
            && s.backends == [Backend(0, 1, Some(1))]
  {
    Snoc(2, before, Move(0));
    schedule := before + [Move(0)];
    ReturnsOne(Exec(2, before));
  }

  lemma SecondEnters(before: seq<Choice>) returns (schedule: seq<Choice>)
    requires var s := Exec(2, before);
             && s.pc == [Idle, Acquire] && s.calls == [1, 1] && s.lock == None && s.done
             && s.backends == [Backend(0, 1, Some(1))]
    ensures var s := Exec(2, schedule);
            && s.pc == [Idle, Recheck] && s.calls == [1, 1] && s.done
            && s.backends == [Backend(0, 1, Some(1))]
  {
    Snoc(2, before, Move(1));
    schedule := before + [Move(1)];
    assert Exec(2, schedule).pc == [Idle, Recheck];
  }

  lemma SecondRechecks(before: seq<Choice>) returns (schedule: seq<Choice>)
    requires var s := Exec(2, before);
             && s.pc == [Idle, Recheck] && s.calls == [1, 1] && s.done
             && s.backends == [Backend(0, 1, Some(1))]
    ensures var s := Exec(2, schedule);
            && s.pc == [Idle, LeaveNone] && s.calls == [1, 1]
            && s.backends == [Backend(0, 1, Some(1))]
  {
    Snoc(2, before, Move(1));
    schedule := before + [Move(1)];
    assert Exec(2, schedule).pc == [Idle, LeaveNone];
  }

  lemma SecondLeaves(before: seq<Choice>) returns (schedule: seq<Choice>)
    requires var s := Exec(2, before);
             && s.pc == [Idle, LeaveNone] && s.calls == [1, 1]
             && s.backends == [Backend(0, 1, Some(1))]
    ensures Exec(2, schedule).backends == [Backend(0, 1, Some(1)), Backend(1, 1, None)]
  {
    Snoc(2, before, Move(1));
    schedule := before + [Move(1)];
  }
}
