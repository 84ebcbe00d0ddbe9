/** One thread of the measurement protocol among the others: whatever the others do, they
    leave its part of the state alone, and they reach a point where it may act or all have
    come to rest. */
module ProtocolThreads {
  import opened Protocol
  import opened ProtocolSafety
  import opened ProtocolTheorems

  /** Some action of the thread is enabled. */
  predicate CanAct(cfg: Config, s: State, t: Thread) {
    match t
    case ProducerThread =>
      Enabled(cfg, s, ProducerTick(s.now)) || Enabled(cfg, s, ProducerSend) || Enabled(cfg, s, ProducerReport)
    case ConsumerThread =>
      Enabled(cfg, s, ConsumerReceive) || Enabled(cfg, s, ConsumerTick(s.now)) || Enabled(cfg, s, ConsumerReport)
    case ProducerCollector => Enabled(cfg, s, CollectFromProducer)
    case ConsumerCollector => Enabled(cfg, s, CollectFromConsumer)
  }

  /** The part of the state that only this thread changes is the same. */
  predicate SamePart(t: Thread, s: State, u: State) {
    && (t in u.failed <==> t in s.failed)
    && match t
       case ProducerThread => u.producer == s.producer
       case ConsumerThread => u.consumer == s.consumer
       case ProducerCollector => u.fromProducer == s.fromProducer
       case ConsumerCollector => u.fromConsumer == s.fromConsumer
  }

  predicate SameParts(mine: set<Thread>, s: State, u: State) { forall t :: t in mine ==> SamePart(t, s, u) }

  predicate SomeCanAct(cfg: Config, s: State, mine: set<Thread>) { exists t :: t in mine && CanAct(cfg, s, t) }

  /** None of the steps belongs to one of these threads. */
  predicate ByOthers(steps: seq<Step>, mine: set<Thread>)
    decreases |steps|
  {
    steps == [] || (Owner(steps[0]) !in mine && ByOthers(steps[1..], mine))
  }

  lemma EnabledOwner(cfg: Config, s: State, step: Step)
    requires Enabled(cfg, s, step)
    ensures CanAct(cfg, s, Owner(step))
  {
  }

  lemma OtherStepKeeps(cfg: Config, s: State, step: Step, mine: set<Thread>)
    requires Enabled(cfg, s, step) && Owner(step) !in mine
    ensures SameParts(mine, s, Apply(cfg, s, step))
  {
    hide Unpacked, Collected, MaySend, Accepts, PackString, PackTick, Overlay;
  }

  lemma SamePartDone(cfg: Config, s: State, u: State, t: Thread)
    requires SamePart(t, s, u)
    ensures Done(cfg, s, t) <==> Done(cfg, u, t)
  {
  }

  /** No step of the other threads touches the part of a thread. */
  lemma {:induction false} OthersKeep(cfg: Config, s: State, steps: seq<Step>, mine: set<Thread>)
    requires IsRun(cfg, s, steps) && ByOthers(steps, mine)
    ensures SameParts(mine, s, Final(cfg, s, steps))
    decreases |steps|
  {
    if steps != [] {
      var u := Apply(cfg, s, steps[0]);
      OtherStepKeeps(cfg, s, steps[0], mine);
      OthersKeep(cfg, u, steps[1..], mine);
      forall t | t in mine ensures SamePart(t, s, Final(cfg, s, steps)) {
        assert SamePart(t, s, u) && SamePart(t, u, Final(cfg, u, steps[1..]));
      }
    }
  }

  /** No thread can act. */
  predicate Resting(cfg: Config, s: State) { forall t: Thread :: !CanAct(cfg, s, t) }

  lemma StuckRests(cfg: Config, s: State)
    ensures Stuck(cfg, s) <==> Resting(cfg, s)
  {
    hide MaySend, PackString, PackTick;
    if Resting(cfg, s) {
      forall step ensures !Enabled(cfg, s, step) {
        if Enabled(cfg, s, step) {
          EnabledOwner(cfg, s, step);
        }
      }
    }
  }

  /** The others either let one of the waiting threads act or come to rest all together:
      they cannot keep each other busy forever. */
  lemma {:induction false} OthersSettle(cfg: Config, s: State, mine: set<Thread>) returns (steps: seq<Step>)
    requires Core(cfg, s)
    ensures IsRun(cfg, s, steps) && ByOthers(steps, mine)
    ensures var u := Final(cfg, s, steps); SomeCanAct(cfg, u, mine) || Stuck(cfg, u)
    decreases 8 * |cfg.messages| - Work(s) - Failures(s.failed)
  {
    hide Core, Enabled, Apply, SendAccepted, Owner, CanAct, Work, Failures;
    if SomeCanAct(cfg, s, mine) || Stuck(cfg, s) {
      steps := [];
    } else {
      var step :| Enabled(cfg, s, step);
      EnabledOwner(cfg, s, step);
      var u := Apply(cfg, s, step);
      StepKeepsCore(cfg, s, step);
      WorkBound(cfg, s);
      WorkBound(cfg, u);
      var rest := OthersSettle(cfg, u, mine);
      steps := [step] + rest;
      assert steps[1..] == rest;
    }
  }

  /** Whoever is not done, but for whom everything fits, is let on by the others alone: from
      any state of a run there are steps of the others after which a waiting thread may act. */
  lemma WaitEnds(cfg: Config, s: State, mine: set<Thread>, t: Thread) returns (steps: seq<Step>)
    requires Core(cfg, s) && RingCapacities(cfg)
    requires t in mine && Completes(cfg, t) && !Done(cfg, s, t)
    ensures IsRun(cfg, s, steps) && ByOthers(steps, mine) && SomeCanAct(cfg, Final(cfg, s, steps), mine)
  {
    hide Core, IsRun, Final, ByOthers, SomeCanAct, Completes, Done, SamePart, Stuck;
    steps := OthersSettle(cfg, s, mine);
    var u := Final(cfg, s, steps);
    RunKeepsCore(cfg, s, steps);
    OthersKeep(cfg, s, steps, mine);
    assert SamePart(t, s, u);
    SamePartDone(cfg, s, u, t);
    if Stuck(cfg, u) {
      StuckOutcome(cfg, u);
    }
  }

  // ----- states of runs -----

  ghost predicate Reached(cfg: Config, s: State) {
    exists s0, steps :: Init(cfg, s0) && IsRun(cfg, s0, steps) && Final(cfg, s0, steps) == s
  }

  lemma RunNil(cfg: Config, s: State)
    ensures IsRun(cfg, s, []) && Final(cfg, s, []) == s
  {
  }

  lemma ReachedInit(cfg: Config, s: State)
    requires Init(cfg, s)
    ensures Reached(cfg, s)
  {
    RunNil(cfg, s);
  }

  lemma ReachedCore(cfg: Config, s: State)
    requires Reached(cfg, s)
    ensures Core(cfg, s)
  {
    var s0, steps :| Init(cfg, s0) && IsRun(cfg, s0, steps) && Final(cfg, s0, steps) == s;
    InitCore(cfg, s0);
    RunKeepsCore(cfg, s0, steps);
  }

  lemma RunCons(cfg: Config, s: State, steps: seq<Step>, u: State, rest: seq<Step>)
    requires steps != [] && Enabled(cfg, s, steps[0]) && u == Apply(cfg, s, steps[0])
    requires rest == steps[1..] && IsRun(cfg, u, rest)
    ensures IsRun(cfg, s, steps) && Final(cfg, s, steps) == Final(cfg, u, rest)
  {
  }

  lemma {:induction false} RunAppend(cfg: Config, s: State, steps: seq<Step>, step: Step, last: State)
    requires IsRun(cfg, s, steps) && Enabled(cfg, Final(cfg, s, steps), step)
    requires last == Apply(cfg, Final(cfg, s, steps), step)
    ensures IsRun(cfg, s, steps + [step]) && Final(cfg, s, steps + [step]) == last
    decreases |steps|
  {
    if steps == [] {
      RunNil(cfg, last);
      RunCons(cfg, s, steps + [step], last, []);
    } else {
      var u := Apply(cfg, s, steps[0]);
      RunAppend(cfg, u, steps[1..], step, last);
      RunCons(cfg, s, steps + [step], u, steps[1..] + [step]);
    }
  }

  lemma ReachedStep(cfg: Config, s: State, step: Step, u: State)
    requires Reached(cfg, s) && Enabled(cfg, s, step) && u == Apply(cfg, s, step)
    ensures Reached(cfg, u)
  {
    var s0, steps :| Init(cfg, s0) && IsRun(cfg, s0, steps) && Final(cfg, s0, steps) == s;
    RunAppend(cfg, s0, steps, step, u);
  }

  lemma {:induction false} ReachedRun(cfg: Config, s: State, steps: seq<Step>)
    requires Reached(cfg, s) && IsRun(cfg, s, steps)
    ensures Reached(cfg, Final(cfg, s, steps))
    decreases |steps|
  {
    if steps != [] {
      var u := Apply(cfg, s, steps[0]);
      ReachedStep(cfg, s, steps[0], u);
      ReachedRun(cfg, u, steps[1..]);
    }
  }

  /** When both collecting threads are full, every thread is done. */
  lemma CollectedAll(cfg: Config, s: State)
    requires Core(cfg, s) && Done(cfg, s, ProducerCollector) && Done(cfg, s, ConsumerCollector)
    ensures Finished(cfg, s)
  {
    hide Rising, Paired, Holds, MessageFits, FailuresOk;
  }
}
