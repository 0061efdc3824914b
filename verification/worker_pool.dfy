/** The pool of at most four workers that fetches every agent's part of a snapshot, as interleaved steps. */
module WorkerPool {
  import opened Wrappers

  datatype Reply<+T> = Answer(value: T) | Fault(error: string)

  /** The agents to collect and what the runtime would reply to each call made for the agent at a position. */
  datatype Runtime = Runtime(
    agents: seq<string>, skills: seq<Reply<seq<string>>>, access: seq<Reply<string>>,
    delegates: seq<Reply<seq<string>>>)
  {
    ghost predicate Valid() {
      |agents| == |skills| == |access| == |delegates|
    }
  }

  datatype Item = Item(agent: string, skills: seq<string>, access: string)

  datatype Stage = Skills | Access | Delegates

  datatype Failure = Failure(stage: Stage, agent: string, error: string)

  datatype Fetch = Fetched(item: Item, delegations: seq<string>) | Failed(failure: Failure)

  datatype Snapshot = Snapshot(items: seq<Item>, delegations: seq<string>)

  /** Every agent's part, fetched one call after the other; the first fault ends it. */
  function FetchOne(rt: Runtime, i: nat): Fetch
    requires rt.Valid() && i < |rt.agents|
  {
    if rt.skills[i].Fault? then Failed(Failure(Skills, rt.agents[i], rt.skills[i].error))
    else if rt.access[i].Fault? then Failed(Failure(Access, rt.agents[i], rt.access[i].error))
    else if rt.delegates[i].Fault? then Failed(Failure(Delegates, rt.agents[i], rt.delegates[i].error))
    else Fetched(Item(rt.agents[i], rt.skills[i].value, rt.access[i].value), rt.delegates[i].value)
  }

  ghost predicate AllFetched(rt: Runtime)
    requires rt.Valid()
  {
    forall i :: 0 <= i < |rt.agents| ==> FetchOne(rt, i).Fetched?
  }

  /** The snapshot of the first n agents, taken one agent after the other. */
  function Sequential(rt: Runtime, n: nat): Snapshot
    requires rt.Valid() && n <= |rt.agents| && forall i :: 0 <= i < n ==> FetchOne(rt, i).Fetched?
  {
    if n == 0 then Snapshot([], []) else
      var before, last := Sequential(rt, n - 1), FetchOne(rt, n - 1);
      Snapshot(before.items + [last.item], before.delegations + last.delegations)
  }

  // ----- The pool -----

  datatype Worker = Waiting | Fetching(index: nat, stage: Stage) | Exited

  datatype Slot = Empty | Filled(item: Item, delegations: seq<string>)

  datatype Call = Call(index: nat, stage: Stage)

  /** next is the index offered on the channel; calls are those made to the runtime so far, in order. */
  datatype Pool = Pool(
    next: nat, closed: bool, workers: seq<Worker>, slots: seq<Slot>, firstError: Option<Failure>, calls: seq<Call>)

  datatype Step = Send(worker: nat) | Run(worker: nat) | Close | Exit(worker: nat)

  function WorkerCount(agents: nat): nat {
    if agents > 4 then 4 else agents
  }

  function Start(rt: Runtime): Pool {
    Pool(0, false, seq(WorkerCount(|rt.agents|), i => Waiting), seq(|rt.agents|, i => Empty), None, [])
  }

  predicate Enabled(rt: Runtime, p: Pool, step: Step) {
    match step
    case Send(w) => w < |p.workers| && p.workers[w].Waiting? && p.next < |rt.agents| && !p.closed
    case Run(w) => w < |p.workers| && p.workers[w].Fetching?
    case Close => !p.closed && p.next == |rt.agents|
    case Exit(w) => w < |p.workers| && p.workers[w].Waiting? && p.closed
  }

  function CallFault(rt: Runtime, i: nat, stage: Stage): Option<string>
    requires rt.Valid() && i < |rt.agents|
  {
    match stage
    case Skills => if rt.skills[i].Fault? then Some(rt.skills[i].error) else None
    case Access => if rt.access[i].Fault? then Some(rt.access[i].error) else None
    case Delegates => if rt.delegates[i].Fault? then Some(rt.delegates[i].error) else None
  }

  /** The calls of an agent that come before a stage were answered. */
  predicate Reached(rt: Runtime, i: nat, stage: Stage)
    requires rt.Valid() && i < |rt.agents|
  {
    (stage.Skills? || rt.skills[i].Answer?) && (stage.Delegates? ==> rt.access[i].Answer?)
  }

  /** Indices in flight are taken, differ, and have all their earlier calls answered. */
  ghost predicate Shape(rt: Runtime, p: Pool) {
    && rt.Valid() && |p.slots| == |rt.agents| && |p.workers| == WorkerCount(|rt.agents|)
    && p.next <= |rt.agents| && (p.closed ==> p.next == |rt.agents|)
    && (forall w :: 0 <= w < |p.workers| ==>
          && (p.workers[w].Exited? ==> p.closed)
          && (p.workers[w].Fetching? ==>
              p.workers[w].index < p.next && Reached(rt, p.workers[w].index, p.workers[w].stage)))
    && (forall v, w :: 0 <= v < w < |p.workers| && p.workers[v].Fetching? && p.workers[w].Fetching? ==>
          p.workers[v].index != p.workers[w].index)
  }

  /** One call of a worker; only the first failure of the whole pool is kept. */
  function RunCall(rt: Runtime, p: Pool, w: nat): Pool
    requires Shape(rt, p) && w < |p.workers| && p.workers[w].Fetching?
  {
    var Fetching(i, stage) := p.workers[w];
    var called := p.(calls := p.calls + [Call(i, stage)]);
    var fault := CallFault(rt, i, stage);
    if fault.Some? then
      called.(workers := p.workers[w := Waiting],
              firstError := if p.firstError.Some? then p.firstError
                            else Some(Failure(stage, rt.agents[i], fault.value)))
    else if stage.Skills? then called.(workers := p.workers[w := Fetching(i, Access)])
    else if stage.Access? then called.(workers := p.workers[w := Fetching(i, Delegates)])
    else
      var item := Item(rt.agents[i], rt.skills[i].value, rt.access[i].value);
      called.(workers := p.workers[w := Waiting], slots := p.slots[i := Filled(item, rt.delegates[i].value)])
  }

  function Next(rt: Runtime, p: Pool, step: Step): Pool
    requires Shape(rt, p) && Enabled(rt, p, step)
  {
    match step
    case Send(w) => p.(next := p.next + 1, workers := p.workers[w := Fetching(p.next, Skills)])
    case Run(w) => RunCall(rt, p, w)
    case Close => p.(closed := true)
    case Exit(w) => p.(workers := p.workers[w := Exited])
  }

  predicate Drained(p: Pool) {
    p.closed && forall w :: 0 <= w < |p.workers| ==> p.workers[w].Exited?
  }

  // ----- What every step keeps -----

  function Rank(stage: Stage): nat {
    match stage case Skills => 0 case Access => 1 case Delegates => 2
  }

  ghost predicate InFlight(p: Pool, i: nat) {
    exists w :: 0 <= w < |p.workers| && p.workers[w].Fetching? && p.workers[w].index == i
  }

  /** The index was taken and its worker is done with it. */
  ghost predicate Settled(p: Pool, i: nat) {
    i < p.next && !InFlight(p, i)
  }

  ghost predicate SlotsRight(rt: Runtime, p: Pool)
    requires Shape(rt, p)
  {
    forall i {:trigger p.slots[i]} :: 0 <= i < |p.slots| ==>
      var fetch := FetchOne(rt, i);
      p.slots[i] == if Settled(p, i) && fetch.Fetched? then Filled(fetch.item, fetch.delegations) else Empty
  }

  ghost predicate ErrorRight(rt: Runtime, p: Pool)
    requires Shape(rt, p)
  {
    match p.firstError
    case None => forall i :: 0 <= i < p.next && Settled(p, i) ==> FetchOne(rt, i).Fetched?
    case Some(failure) => exists i :: 0 <= i < p.next && Settled(p, i) && FetchOne(rt, i) == Failed(failure)
  }

  ghost predicate Made(rt: Runtime, p: Pool, c: Call)
    requires Shape(rt, p)
  {
    && c.index < p.next && Reached(rt, c.index, c.stage)
    && forall w :: 0 <= w < |p.workers| && p.workers[w].Fetching? && p.workers[w].index == c.index ==>
         Rank(c.stage) < Rank(p.workers[w].stage)
  }

  /** Each call is made once, and never when an earlier call for its agent failed. */
  ghost predicate CallsRight(rt: Runtime, p: Pool)
    requires Shape(rt, p)
  {
    && (forall c :: c in p.calls <==> Made(rt, p, c))
    && (forall a, b :: 0 <= a < b < |p.calls| ==> p.calls[a] != p.calls[b])
  }

  ghost predicate Inv(rt: Runtime, p: Pool) {
    Shape(rt, p) && SlotsRight(rt, p) && ErrorRight(rt, p) && CallsRight(rt, p)
  }

  /** What changing one worker does to the indices in flight. */
  lemma OneWorker(p: Pool, w: nat, worker: Worker, q: Pool)
    requires w < |p.workers| && q.workers == p.workers[w := worker]
    requires forall v :: 0 <= v < |p.workers| && v != w && p.workers[v].Fetching? && p.workers[w].Fetching? ==>
               p.workers[v].index != p.workers[w].index
    ensures forall i {:trigger InFlight(p, i)} {:trigger InFlight(q, i)} :: InFlight(q, i) <==>
              ((worker.Fetching? && worker.index == i) ||
               (InFlight(p, i) && !(p.workers[w].Fetching? && p.workers[w].index == i)))
    ensures p.workers[w].Fetching? ==> InFlight(p, p.workers[w].index)
    ensures q.workers[w] == worker
    ensures forall v {:trigger p.workers[v]} {:trigger q.workers[v]} :: 0 <= v < |p.workers| && v != w ==>
              q.workers[v] == p.workers[v]
  {
    forall i ensures InFlight(q, i) <==>
      ((worker.Fetching? && worker.index == i) ||
       (InFlight(p, i) && !(p.workers[w].Fetching? && p.workers[w].index == i)))
    {
      if InFlight(p, i) {
        var v :| 0 <= v < |p.workers| && p.workers[v].Fetching? && p.workers[v].index == i;
        assert v != w ==> q.workers[v] == p.workers[v];
      }
      if worker.Fetching? && worker.index == i {
        assert q.workers[w] == worker;
      }
    }
  }

  lemma SendKeepsInv(rt: Runtime, p: Pool, w: nat)
    requires Inv(rt, p) && Enabled(rt, p, Send(w))
    ensures Inv(rt, Next(rt, p, Send(w)))
  {
    hide InFlight, FetchOne;
    var q := Next(rt, p, Send(w));
    OneWorker(p, w, Fetching(p.next, Skills), q);
    NotYetTaken(rt, p);
    forall i ensures Settled(q, i) <==> Settled(p, i) {
    }
    forall c ensures Made(rt, q, c) <==> Made(rt, p, c) {
    }
  }

  lemma NotYetTaken(rt: Runtime, p: Pool)
    requires Shape(rt, p)
    ensures !InFlight(p, p.next)
  {
  }

  lemma RestKeepsInv(rt: Runtime, p: Pool, step: Step)
    requires Inv(rt, p) && Enabled(rt, p, step) && (step.Close? || step.Exit?)
    ensures Inv(rt, Next(rt, p, step))
  {
    hide InFlight, FetchOne;
    var q := Next(rt, p, step);
    if step.Exit? {
      OneWorker(p, step.worker, Exited, q);
    }
    forall i ensures Settled(q, i) <==> Settled(p, i) {
      assert step.Close? ==> (InFlight(q, i) <==> InFlight(p, i)) by { SameWorkers(p, q, i); }
    }
    forall c ensures Made(rt, q, c) <==> Made(rt, p, c) {
    }
  }

  lemma SameWorkers(p: Pool, q: Pool, i: nat)
    ensures p.workers == q.workers ==> (InFlight(p, i) <==> InFlight(q, i))
  {
  }

  /** A call settles its worker's index or leaves it in flight, and the outcome is that of the index's fetch. */
  lemma RunSettles(rt: Runtime, p: Pool, w: nat)
    requires Shape(rt, p) && Enabled(rt, p, Run(w))
    ensures var q, i := Next(rt, p, Run(w)), p.workers[w].index;
            && Shape(rt, q) && !Settled(p, i)
            && (forall j {:trigger Settled(p, j)} {:trigger Settled(q, j)} ::
                  Settled(q, j) <==> Settled(p, j) || (j == i && q.workers[w].Waiting?))
            && (q.workers[w].Waiting? ==>
                  match FetchOne(rt, i)
                  case Fetched(item, delegations) =>
                    q.slots == p.slots[i := Filled(item, delegations)] && q.firstError == p.firstError
                  case Failed(failure) =>
                    q.slots == p.slots && q.firstError == if p.firstError.Some? then p.firstError else Some(failure))
            && (!q.workers[w].Waiting? ==> q.slots == p.slots && q.firstError == p.firstError)
  {
    hide InFlight;
    var q := Next(rt, p, Run(w));
    OneWorker(p, w, q.workers[w], q);
  }

  lemma RunKeepsCalls(rt: Runtime, p: Pool, w: nat)
    requires Inv(rt, p) && Enabled(rt, p, Run(w)) && Shape(rt, Next(rt, p, Run(w)))
    ensures CallsRight(rt, Next(rt, p, Run(w)))
  {
    hide InFlight, SlotsRight, ErrorRight;
    var q := Next(rt, p, Run(w));
    var Fetching(i, stage) := p.workers[w];
    OneWorker(p, w, q.workers[w], q);
    forall c ensures Made(rt, q, c) <==> Made(rt, p, c) || c == Call(i, stage) {
    }
    assert !Made(rt, p, Call(i, stage));
    assert q.calls == p.calls + [Call(i, stage)];
  }

  lemma RunKeepsInv(rt: Runtime, p: Pool, w: nat)
    requires Inv(rt, p) && Enabled(rt, p, Run(w))
    ensures Inv(rt, Next(rt, p, Run(w)))
  {
    hide Settled, CallsRight, ErrorRight, FetchOne;
    var q := Next(rt, p, Run(w));
    RunSettles(rt, p, w);
    RunKeepsCalls(rt, p, w);
    assert SlotsRight(rt, q);
    KeepsError(rt, p, w);
  }

  lemma KeepsError(rt: Runtime, p: Pool, w: nat)
    requires Inv(rt, p) && Enabled(rt, p, Run(w)) && Shape(rt, Next(rt, p, Run(w)))
    ensures ErrorRight(rt, Next(rt, p, Run(w)))
  {
    hide Settled, SlotsRight, CallsRight, FetchOne;
    var q, i := Next(rt, p, Run(w)), p.workers[w].index;
    RunSettles(rt, p, w);
    if p.firstError.Some? {
      var j :| 0 <= j < p.next && Settled(p, j) && FetchOne(rt, j) == Failed(p.firstError.value);
      assert Settled(q, j);
    } else if q.firstError.Some? {
      assert Settled(q, i);
    }
  }

  lemma StepKeepsInv(rt: Runtime, p: Pool, step: Step)
    requires Inv(rt, p) && Enabled(rt, p, step)
    ensures Inv(rt, Next(rt, p, step))
  {
    hide Inv;
    match step
    case Send(w) => SendKeepsInv(rt, p, w);
    case Run(w) => RunKeepsInv(rt, p, w);
    case _ => RestKeepsInv(rt, p, step);
  }

  lemma StartIsFine(rt: Runtime)
    requires rt.Valid()
    ensures Inv(rt, Start(rt))
  {
    forall i ensures !Settled(Start(rt), i) {
    }
  }

  // ----- Draining -----

  function Weight(worker: Worker): nat {
    match worker
    case Exited => 0
    case Waiting => 1
    case Fetching(_, stage) => 4 - Rank(stage)
  }

  function Weights(workers: seq<Worker>): nat {
    if workers == [] then 0 else Weight(workers[0]) + Weights(workers[1..])
  }

  function StepsLeft(rt: Runtime, p: Pool): nat
    requires Shape(rt, p)
  {
    4 * (|rt.agents| - p.next) + Weights(p.workers) + if p.closed then 0 else 1
  }

  lemma {:induction false} OneWeight(workers: seq<Worker>, w: nat, worker: Worker)
    requires w < |workers|
    ensures Weights(workers[w := worker]) == Weights(workers) - Weight(workers[w]) + Weight(worker)
  {
    if w > 0 {
      OneWeight(workers[1..], w - 1, worker);
      assert workers[w := worker][1..] == workers[1..][w - 1 := worker];
    } else {
      assert workers[0 := worker][1..] == workers[1..];
    }
  }

  /** Failures included, every step brings the pool closer to the end. */
  lemma StepsRunOut(rt: Runtime, p: Pool, step: Step)
    requires Shape(rt, p) && Enabled(rt, p, step) && Shape(rt, Next(rt, p, step))
    ensures StepsLeft(rt, Next(rt, p, step)) < StepsLeft(rt, p)
  {
    var q := Next(rt, p, step);
    if !step.Close? {
      OneWeight(p.workers, step.worker, q.workers[step.worker]);
      assert q.workers == p.workers[step.worker := q.workers[step.worker]];
    }
  }

  function Steps(p: Pool): set<Step> {
    {Close} + (set w | 0 <= w < |p.workers| :: Send(w)) + (set w | 0 <= w < |p.workers| :: Run(w)) +
    (set w | 0 <= w < |p.workers| :: Exit(w))
  }

  /** No deadlock: until the pool has drained, some step can be taken. */
  lemma NeverStuck(rt: Runtime, p: Pool) returns (step: Step)
    requires Shape(rt, p) && !Drained(p)
    ensures step in Steps(p) && Enabled(rt, p, step)
  {
    assert |p.workers| > 0 && p.workers[0].Exited? ==> p.closed;
    step := Close;
    if w :| 0 <= w < |p.workers| && p.workers[w].Fetching? {
      step := Run(w);
    } else if w :| 0 <= w < |p.workers| && p.workers[w].Waiting? {
      step := if p.next < |rt.agents| then Send(w) else if p.closed then Exit(w) else Close;
    }
  }

  ghost predicate Legal(rt: Runtime, p: Pool, steps: seq<Step>)
    decreases |steps|
  {
    steps == [] || (Shape(rt, p) && Enabled(rt, p, steps[0]) && Legal(rt, Next(rt, p, steps[0]), steps[1..]))
  }

  ghost function After(rt: Runtime, p: Pool, steps: seq<Step>): Pool
    requires Legal(rt, p, steps)
    decreases |steps|
  {
    if steps == [] then p else After(rt, Next(rt, p, steps[0]), steps[1..])
  }

  /** Under every schedule the invariant holds and the run ends within a fixed number of steps. */
  lemma {:induction false} EveryScheduleIsSafe(rt: Runtime, p: Pool, steps: seq<Step>)
    requires Inv(rt, p) && Legal(rt, p, steps)
    ensures Inv(rt, After(rt, p, steps))
    ensures |steps| + StepsLeft(rt, After(rt, p, steps)) <= StepsLeft(rt, p)
    decreases |steps|
  {
    if steps != [] {
      var q := Next(rt, p, steps[0]);
      StepKeepsInv(rt, p, steps[0]);
      StepsRunOut(rt, p, steps[0]);
      EveryScheduleIsSafe(rt, q, steps[1..]);
    }
  }

  // ----- The outcome -----

  ghost predicate IsFailure(rt: Runtime, failure: Failure)
    requires rt.Valid()
  {
    exists i :: 0 <= i < |rt.agents| && FetchOne(rt, i) == Failed(failure)
  }

  /** A drained pool knows a failure exactly when some fetch fails; every call due was made, once. */
  lemma DrainedPool(rt: Runtime, p: Pool)
    requires Inv(rt, p) && Drained(p)
    ensures p.firstError.None? <==> AllFetched(rt)
    ensures p.firstError.Some? ==> IsFailure(rt, p.firstError.value)
    ensures forall i {:trigger p.slots[i]} :: 0 <= i < |rt.agents| && FetchOne(rt, i).Fetched? ==>
              p.slots[i] == Filled(FetchOne(rt, i).item, FetchOne(rt, i).delegations)
    ensures forall c :: c in p.calls <==> c.index < |rt.agents| && Reached(rt, c.index, c.stage)
    ensures forall a, b :: 0 <= a < b < |p.calls| ==> p.calls[a] != p.calls[b]
  {
    forall i: nat ensures Settled(p, i) <==> i < |rt.agents| {
    }
    hide Settled, InFlight, FetchOne;
    forall c ensures Made(rt, p, c) <==> c.index < |rt.agents| && Reached(rt, c.index, c.stage) {
    }
  }

  /** Runs the pool under any schedule; the result is that of fetching one agent after the other. */
  method CollectSnapshot(rt: Runtime) returns (result: Option<Snapshot>, failure: Option<Failure>)
    requires rt.Valid()
    ensures if AllFetched(rt) then result == Some(Sequential(rt, |rt.agents|)) && failure.None?
            else result.None? && failure.Some? && IsFailure(rt, failure.value)
  {
    hide SlotsRight, ErrorRight, CallsRight, Enabled, Next, IsFailure, Steps, FetchOne;
    var p := Start(rt);
    StartIsFine(rt);
    while !Drained(p)
      invariant Inv(rt, p)
      decreases StepsLeft(rt, p)
    {
      ghost var possible := NeverStuck(rt, p);
      var step :| step in Steps(p) && Enabled(rt, p, step);
      StepKeepsInv(rt, p, step);
      StepsRunOut(rt, p, step);
      p := Next(rt, p, step);
    }
    DrainedPool(rt, p);
    if p.firstError.Some? {
      return None, p.firstError;
    }
    var items, delegations := [], [];
    for i := 0 to |p.slots|
      invariant Snapshot(items, delegations) == Sequential(rt, i)
    {
      items := items + [p.slots[i].item];
      delegations := delegations + p.slots[i].delegations;
    }
    return Some(Snapshot(items, delegations)), None;
  }

  // ----- What is collected, reply by reply -----

  /** Never more than four calls are under way. */
  lemma AtMostFour(rt: Runtime, p: Pool)
    requires Inv(rt, p)
    ensures |p.workers| <= 4 && |p.workers| <= |rt.agents| && (|rt.agents| > 0 ==> |p.workers| > 0)
  {
  }

  lemma AllAnswered(rt: Runtime)
    requires rt.Valid()
    ensures AllFetched(rt) <==>
              forall i :: 0 <= i < |rt.agents| ==>
                rt.skills[i].Answer? && rt.access[i].Answer? && rt.delegates[i].Answer?
  {
    forall i | 0 <= i < |rt.agents|
      ensures FetchOne(rt, i).Fetched? <==> rt.skills[i].Answer? && rt.access[i].Answer? && rt.delegates[i].Answer?
    {
    }
  }

  /** Every agent is there with its own skills and access document; delegations follow in the order of the agents. */
  lemma {:induction false} SequentialIs(rt: Runtime, n: nat)
    requires rt.Valid() && n <= |rt.agents| && forall i :: 0 <= i < n ==> FetchOne(rt, i).Fetched?
    ensures |Sequential(rt, n).items| == n
    ensures forall i :: 0 <= i < n ==>
              && rt.skills[i].Answer? && rt.access[i].Answer? && rt.delegates[i].Answer?
              && Sequential(rt, n).items[i] == Item(rt.agents[i], rt.skills[i].value, rt.access[i].value)
    ensures Sequential(rt, n).delegations == Joined(rt.delegates[..n])
  {
    if n > 0 {
      SequentialIs(rt, n - 1);
      assert FetchOne(rt, n - 1).Fetched?;
      assert rt.delegates[..n][..n - 1] == rt.delegates[..n - 1];
    }
  }

  /** The answers one after the other. */
  function Joined(replies: seq<Reply<seq<string>>>): seq<string> {
    if replies == [] then [] else
      var last := replies[|replies| - 1];
      if last.Answer? then Joined(replies[..|replies| - 1]) + last.value else Joined(replies[..|replies| - 1])
  }

  /** A failure names an agent and the first of its calls that failed, with the error of that call. */
  lemma FailuresAreFaults(rt: Runtime, failure: Failure)
    requires rt.Valid()
    ensures IsFailure(rt, failure) <==>
              exists i :: 0 <= i < |rt.agents| && FailsWith(rt, i, failure)
  {
    forall i | 0 <= i < |rt.agents| ensures FetchOne(rt, i) == Failed(failure) <==> FailsWith(rt, i, failure) {
    }
  }

  ghost predicate FailsWith(rt: Runtime, i: nat, failure: Failure)
    requires rt.Valid() && i < |rt.agents|
  {
    && failure.agent == rt.agents[i]
    && match failure.stage
       case Skills => rt.skills[i] == Fault(failure.error)
       case Access => rt.skills[i].Answer? && rt.access[i] == Fault(failure.error)
       case Delegates => rt.skills[i].Answer? && rt.access[i].Answer? && rt.delegates[i] == Fault(failure.error)
  }
}
