/**
 * Any number of throttle queues, each with its own processing loop, on one shared limiter. A step is one section that
 * holds a lock or one channel operation; the loops interleave arbitrarily, and shutdown may come at any point.
 */
module QueueRuns {
  import opened Wrappers
  import opened Numbers
  import opened Throttle

  const BUFFER_SIZE := 1024

  type Request = string

  /** Where a queue's processing loop stands. `Returned` is right after `Wait`, with the slot it reserved, if any. */
  datatype Phase =
    | Idle
    | Waiting(r: Request)
    | Returned(r: Request, slot: Option<nat>)
    | Executing(r: Request)
    | Stopped

  /** A request whose `Execute` was called, and the reservation that preceded it. */
  datatype Execution = Execution(r: Request, slot: Option<nat>)

  /** `enqueued` and `executed` are the whole histories; `taken` counts the requests received from the channel. */
  datatype Queue = Queue(buffer: seq<Request>, phase: Phase, cancelled: bool,
                         enqueued: seq<Request>, taken: nat, executed: seq<Execution>)

  const NEW_QUEUE := Queue([], Idle, false, [], 0, [])

  /** `slots` are the times of all reservations ever made, `owners` the queues that made them. */
  datatype State = State(lastCall: Option<int>, slots: seq<int>, owners: seq<nat>, queues: map<nat, Queue>)

  datatype Step =
    | Enqueue(q: nat, r: Request)
    | Take(q: nat)
    | Reserve(q: nat, now: int)
    | GiveUp(q: nat)
    | Proceed(q: nat)
    | Finish(q: nat)
    | Cancel(q: nat)
    | Stop(q: nat)

  /** What the queue's own state must be for the step; only a reservation depends on the limiter as well. */
  predicate Possible(queue: Queue, s: Step) {
    match s
    case Enqueue(_, _) => |queue.buffer| < BUFFER_SIZE
    case Take(_) => queue.phase.Idle? && queue.buffer != []
    case Reserve(_, _) => queue.phase.Waiting?
    case GiveUp(_) => queue.phase.Waiting? && queue.cancelled
    case Proceed(_) => queue.phase.Returned?
    case Finish(_) => queue.phase.Executing?
    case Cancel(_) => true
    case Stop(_) => queue.phase.Idle? && queue.cancelled
  }

  predicate Enabled(rate: int, st: State, s: Step) {
    && s.q in st.queues && Possible(st.queues[s.q], s)
    && (s.Reserve? ==> CanStart(st.lastCall, rate, s.now))
  }

  /** The next state of the queue that steps; `slot` is the number of the reservation it would make. */
  function ApplyQueue(queue: Queue, s: Step, slot: nat): Queue
    requires Possible(queue, s)
  {
    match s
    case Enqueue(_, r) => queue.(buffer := queue.buffer + [r], enqueued := queue.enqueued + [r])
    case Take(_) =>
      queue.(buffer := queue.buffer[1..], phase := Waiting(queue.buffer[0]), taken := queue.taken + 1)
    case Reserve(_, _) => queue.(phase := Returned(queue.phase.r, Some(slot)))
    case GiveUp(_) => queue.(phase := Returned(queue.phase.r, None))
    case Proceed(_) =>
      if queue.cancelled then queue.(phase := Stopped)
      else queue.(phase := Executing(queue.phase.r),
                  executed := queue.executed + [Execution(queue.phase.r, queue.phase.slot)])
    case Finish(_) => queue.(phase := Idle)
    case Cancel(_) => queue.(cancelled := true)
    case Stop(_) => queue.(phase := Stopped)
  }

  function Apply(rate: int, st: State, s: Step): State
    requires Enabled(rate, st, s)
  {
    var queues := st.queues[s.q := ApplyQueue(st.queues[s.q], s, |st.slots|)];
    match s
    case Reserve(q, now) => State(Some(now), st.slots + [now], st.owners + [q], queues)
    case _ => st.(queues := queues)
  }

  function Initial(ids: set<nat>): State {
    State(None, [], [], map q | q in ids :: NEW_QUEUE)
  }

  /** The state a schedule leads to, if every step of it was possible. */
  function Run(rate: int, ids: set<nat>, steps: seq<Step>): Option<State> {
    if steps == [] then Some(Initial(ids))
    else
      match Run(rate, ids, steps[..|steps| - 1])
      case None => None
      case Some(st) =>
        var s := steps[|steps| - 1];
        if Enabled(rate, st, s) then Some(Apply(rate, st, s)) else None
  }

  // ---------------------------------------------------------------- the invariant

  predicate LimiterInv(st: State, rate: int) {
    && |st.owners| == |st.slots|
    && st.lastCall == (if st.slots == [] then None else Some(st.slots[|st.slots| - 1]))
    && Spaced(st.slots, rate)
  }

  predicate Owns(owners: seq<nat>, q: nat, slot: Option<nat>) {
    slot.Some? && slot.value < |owners| && owners[slot.value] == q
  }

  /** Requests that left the channel and whose execution has not begun. */
  function InHand(queue: Queue): nat {
    match queue.phase
    case Waiting(_) => 1
    case Returned(_, _) => 1
    case _ => 0
  }

  /**
   * Every execution so far is of the next enqueued request and has a reservation of this queue, later than the last.
   */
  predicate ExecutionsInv(owners: seq<nat>, q: nat, queue: Queue) {
    && |queue.executed| <= |queue.enqueued|
    && (forall i | 0 <= i < |queue.executed| ::
          queue.executed[i].r == queue.enqueued[i] && Owns(owners, q, queue.executed[i].slot))
    && (forall i, j | 0 <= i < j < |queue.executed| ::
          queue.executed[i].slot.value < queue.executed[j].slot.value)
  }

  predicate PhaseInv(owners: seq<nat>, q: nat, queue: Queue)
    requires ExecutionsInv(owners, q, queue)
  {
    && queue.taken <= |queue.enqueued|
    && queue.buffer == queue.enqueued[queue.taken..]
    && |queue.buffer| <= BUFFER_SIZE
    && (queue.phase.Stopped? ==> queue.cancelled && |queue.executed| <= queue.taken <= |queue.executed| + 1)
    && (!queue.phase.Stopped? ==> queue.taken == |queue.executed| + InHand(queue))
    && (queue.phase.Waiting? || queue.phase.Returned? ==> queue.phase.r == queue.enqueued[queue.taken - 1])
    && (queue.phase.Returned? ==>
          if queue.phase.slot.None? then queue.cancelled
          else
            && Owns(owners, q, queue.phase.slot)
            && forall i | 0 <= i < |queue.executed| :: queue.executed[i].slot.value < queue.phase.slot.value)
  }

  predicate QueueInv(owners: seq<nat>, q: nat, queue: Queue) {
    ExecutionsInv(owners, q, queue) && PhaseInv(owners, q, queue)
  }

  predicate Inv(st: State, rate: int) {
    LimiterInv(st, rate) && forall q | q in st.queues :: QueueInv(st.owners, q, st.queues[q])
  }

  lemma {:induction false} MoreOwners(owners: seq<nat>, o: nat, q: nat, queue: Queue)
    requires QueueInv(owners, q, queue)
    ensures QueueInv(owners + [o], q, queue)
  {
    assert forall slot | Owns(owners, q, slot) :: Owns(owners + [o], q, slot);
  }

  lemma {:induction false} ExecutionsStep(owners: seq<nat>, q: nat, queue: Queue, s: Step)
    requires QueueInv(owners, q, queue) && Possible(queue, s)
    ensures ExecutionsInv(if s.Reserve? then owners + [q] else owners, q, ApplyQueue(queue, s, |owners|))
  {
    if s.Reserve? {
      MoreOwners(owners, q, q, queue);
    }
  }

  lemma {:induction false} QueueStep(owners: seq<nat>, q: nat, queue: Queue, s: Step)
    requires QueueInv(owners, q, queue) && Possible(queue, s)
    ensures QueueInv(if s.Reserve? then owners + [q] else owners, q, ApplyQueue(queue, s, |owners|))
  {
    var next := ApplyQueue(queue, s, |owners|);
    ExecutionsStep(owners, q, queue, s);
    match s
    case Enqueue(_, r) =>
      assert next.enqueued[queue.taken..] == queue.enqueued[queue.taken..] + [r];
    case Take(_) =>
      assert queue.enqueued[queue.taken..][1..] == queue.enqueued[next.taken..];
    case Reserve(_, _) =>
      assert Owns(owners + [q], q, Some(|owners|));
    case _ =>
  }

  lemma {:induction false} StepKeepsInv(rate: int, st: State, s: Step)
    requires rate > 0 && Inv(st, rate) && Enabled(rate, st, s)
    ensures Inv(Apply(rate, st, s), rate)
  {
    hide ApplyQueue, ExecutionsInv, PhaseInv;
    var next := Apply(rate, st, s);
    forall q | q in next.queues ensures QueueInv(next.owners, q, next.queues[q]) {
      if q == s.q {
        QueueStep(st.owners, q, st.queues[q], s);
      } else if s.Reserve? {
        MoreOwners(st.owners, s.q, q, st.queues[q]);
      }
    }
    if s.Reserve? {
      SpacedAppend(st.slots, s.now, rate);
    }
  }

  lemma {:induction false} SpacedAppend(slots: seq<int>, now: int, rate: int)
    requires rate > 0 && Spaced(slots, rate)
    requires slots == [] || now - slots[|slots| - 1] >= rate
    ensures Spaced(slots + [now], rate)
  {
    forall i | 0 <= i < |slots| ensures now - slots[i] >= rate {
      assert i == |slots| - 1 || slots[|slots| - 1] - slots[i] >= rate;
    }
  }

  lemma {:induction false} ReachableInv(rate: int, ids: set<nat>, steps: seq<Step>)
    requires rate > 0 && Run(rate, ids, steps).Some?
    ensures Inv(Run(rate, ids, steps).value, rate)
  {
    if steps != [] {
      var init := steps[..|steps| - 1];
      ReachableInv(rate, ids, init);
      StepKeepsInv(rate, Run(rate, ids, init).value, steps[|steps| - 1]);
    }
  }

  // ---------------------------------------------------------------- what follows for every schedule

  /** Consecutive starts are a rate apart across all queues, so the configured cap is a collective one. */
  lemma {:induction false} CollectiveRate(rpm: int, ids: set<nat>, steps: seq<Step>, lo: int)
    requires 10 <= rpm <= 1000 && Run(Rate(rpm), ids, steps).Some?
    ensures var st := Run(Rate(rpm), ids, steps).value;
      Spaced(st.slots, Rate(rpm)) && CountIn(st.slots, lo, lo + MINUTE) <= MinuteCap(rpm)
  {
    ReachableInv(Rate(rpm), ids, steps);
    SpacedMinute(Run(Rate(rpm), ids, steps).value.slots, rpm, lo);
  }

  /** One request from the channel to its end, starting at `now`. */
  function Round(q: nat, r: Request, now: int): seq<Step> {
    [Enqueue(q, r)] + [Take(q)] + [Reserve(q, now)] + [Proceed(q)] + [Finish(q)]
  }

  /** One queue's `n` requests one after another, each started as soon as the limiter has a slot. */
  function BurstOf(q: nat, r: Request, lo: int, rate: int, n: nat): seq<Step> {
    if n == 0 then [] else BurstOf(q, r, lo, rate, n - 1) + Round(q, r, lo + (n - 1) * rate)
  }

  /** Where queue `q`, which is not shut down, stands. */
  predicate Stands(st: State, q: nat, phase: Phase, buffer: seq<Request>) {
    q in st.queues && st.queues[q].phase == phase && st.queues[q].buffer == buffer && !st.queues[q].cancelled
  }

  /** What a step that is possible leads to, as far as `q` and the limiter go. */
  predicate LeadsTo(rate: int, st: State, s: Step, phase: Phase, buffer: seq<Request>, slots: seq<int>) {
    && Enabled(rate, st, s)
    && Stands(Apply(rate, st, s), s.q, phase, buffer) && Apply(rate, st, s).slots == slots
    && Apply(rate, st, s).lastCall == if s.Reserve? then Some(s.now) else st.lastCall
  }

  lemma {:induction false} EnqueueLeads(rate: int, st: State, q: nat, r: Request)
    requires Stands(st, q, Idle, [])
    ensures LeadsTo(rate, st, Enqueue(q, r), Idle, [r], st.slots)
  {
  }

  lemma {:induction false} TakeLeads(rate: int, st: State, q: nat, r: Request)
    requires Stands(st, q, Idle, [r])
    ensures LeadsTo(rate, st, Take(q), Waiting(r), [], st.slots)
  {
  }

  lemma {:induction false} ReserveLeads(rate: int, st: State, q: nat, r: Request, now: int)
    requires Stands(st, q, Waiting(r), []) && CanStart(st.lastCall, rate, now)
    ensures LeadsTo(rate, st, Reserve(q, now), Returned(r, Some(|st.slots|)), [], st.slots + [now])
  {
  }

  lemma {:induction false} ProceedLeads(rate: int, st: State, q: nat, r: Request, slot: nat)
    requires Stands(st, q, Returned(r, Some(slot)), [])
    ensures LeadsTo(rate, st, Proceed(q), Executing(r), [], st.slots)
  {
  }

  lemma {:induction false} FinishLeads(rate: int, st: State, q: nat, r: Request)
    requires Stands(st, q, Executing(r), [])
    ensures LeadsTo(rate, st, Finish(q), Idle, [], st.slots)
  {
  }

  predicate RunsTo(rate: int, ids: set<nat>, steps: seq<Step>, st: State) {
    Run(rate, ids, steps) == Some(st)
  }

  lemma {:induction false} RunNext(rate: int, ids: set<nat>, steps: seq<Step>, st: State, s: Step)
    requires RunsTo(rate, ids, steps, st) && Enabled(rate, st, s)
    ensures RunsTo(rate, ids, steps + [s], Apply(rate, st, s))
  {
    assert (steps + [s])[..|steps|] == steps;
    hide Enabled, Apply;
  }

  lemma {:induction false} RoundRuns(
      rate: int, ids: set<nat>, steps: seq<Step>, st: State, q: nat, r: Request, now: int) returns (after: State)
    requires RunsTo(rate, ids, steps, st) && Stands(st, q, Idle, [])
    requires CanStart(st.lastCall, rate, now)
    ensures RunsTo(rate, ids, steps + Round(q, r, now), after) && Stands(after, q, Idle, [])
    ensures after.lastCall == Some(now) && after.slots == st.slots + [now]
  {
    hide Run, RunsTo, Apply, Enabled, Stands;
    EnqueueLeads(rate, st, q, r);
    RunNext(rate, ids, steps, st, Enqueue(q, r));
    var st1 := Apply(rate, st, Enqueue(q, r));
    TakeLeads(rate, st1, q, r);
    RunNext(rate, ids, steps + [Enqueue(q, r)], st1, Take(q));
    var st2 := Apply(rate, st1, Take(q));
    ReserveLeads(rate, st2, q, r, now);
    RunNext(rate, ids, steps + [Enqueue(q, r)] + [Take(q)], st2, Reserve(q, now));
    var st3 := Apply(rate, st2, Reserve(q, now));
    ProceedLeads(rate, st3, q, r, |st2.slots|);
    RunNext(rate, ids, steps + [Enqueue(q, r)] + [Take(q)] + [Reserve(q, now)], st3, Proceed(q));
    var st4 := Apply(rate, st3, Proceed(q));
    FinishLeads(rate, st4, q, r);
    RunNext(rate, ids, steps + [Enqueue(q, r)] + [Take(q)] + [Reserve(q, now)] + [Proceed(q)], st4, Finish(q));
    after := Apply(rate, st4, Finish(q));
    assert steps + Round(q, r, now)
      == steps + [Enqueue(q, r)] + [Take(q)] + [Reserve(q, now)] + [Proceed(q)] + [Finish(q)];
  }

  lemma {:induction false} NextSlot(last: Option<int>, rate: int, lo: int, n: nat)
    requires last == if n == 0 then None else Some(lo + (n - 1) * rate)
    ensures CanStart(last, rate, lo + n * rate)
  {
    if n > 0 {
      Times(n - 1, rate);
    }
  }

  lemma {:induction false} BurstRuns(rate: int, q: nat, r: Request, lo: int, n: nat) returns (st: State)
    requires rate > 0
    ensures RunsTo(rate, {q}, BurstOf(q, r, lo, rate, n), st) && Stands(st, q, Idle, [])
    ensures st.slots == Burst(lo, rate, n)
    ensures st.lastCall == if n == 0 then None else Some(lo + (n - 1) * rate)
  {
    if n == 0 {
      st := Initial({q});
    } else {
      hide Run, RunsTo, Stands, Round, CanStart;
      var earlier, now := BurstOf(q, r, lo, rate, n - 1), lo + (n - 1) * rate;
      assert BurstOf(q, r, lo, rate, n) == earlier + Round(q, r, now);
      assert Burst(lo, rate, n) == Burst(lo, rate, n - 1) + [now];
      hide BurstOf, Burst;
      var before := BurstRuns(rate, q, r, lo, n - 1);
      NextSlot(before.lastCall, rate, lo, n - 1);
      st := RoundRuns(rate, {q}, earlier, before, q, r, now);
    }
  }

  /**
   * The collective cap is reached: from any time on, one busy queue starts as many requests within a minute as the
   * bound allows. So the configured number is a cap for every schedule exactly when it divides a minute.
   */
  lemma {:induction false} MinuteCapIsTight(rpm: int, q: nat, r: Request, lo: int)
    requires 10 <= rpm <= 1000
    ensures var st := Run(Rate(rpm), {q}, BurstOf(q, r, lo, Rate(rpm), MinuteCap(rpm)));
      st.Some? && CountIn(st.value.slots, lo, lo + MINUTE) == MinuteCap(rpm)
  {
    hide Run, BurstOf, Stands;
    var st := BurstRuns(Rate(rpm), q, r, lo, MinuteCap(rpm));
    BurstFillsMinute(rpm, lo);
  }

  /** The requests a queue executes are a prefix of those enqueued, in that order; short of a shutdown none is lost. */
  lemma {:induction false} ExecutesInOrder(rate: int, ids: set<nat>, steps: seq<Step>, q: nat)
    requires rate > 0 && Run(rate, ids, steps).Some? && q in Run(rate, ids, steps).value.queues
    ensures var queue := Run(rate, ids, steps).value.queues[q];
      && |queue.executed| <= |queue.enqueued|
      && (forall i | 0 <= i < |queue.executed| :: queue.executed[i].r == queue.enqueued[i])
      && (!queue.phase.Stopped? ==> |queue.executed| + InHand(queue) + |queue.buffer| == |queue.enqueued|)
  {
    ReachableInv(rate, ids, steps);
    var st := Run(rate, ids, steps).value;
    assert QueueInv(st.owners, q, st.queues[q]);
  }

  /** Every execution has a reservation, and no two executions, of whatever queues, share one. */
  lemma {:induction false} ExecutionsOwnTheirSlots(
      rate: int, ids: set<nat>, steps: seq<Step>, q1: nat, i: nat, q2: nat, j: nat)
    requires rate > 0 && Run(rate, ids, steps).Some?
    requires var queues := Run(rate, ids, steps).value.queues;
      q1 in queues && i < |queues[q1].executed| && q2 in queues && j < |queues[q2].executed|
    ensures var st := Run(rate, ids, steps).value;
      var s1, s2 := st.queues[q1].executed[i].slot, st.queues[q2].executed[j].slot;
      && s1.Some? && s1.value < |st.slots|
      && s2.Some? && s2.value < |st.slots|
      && (s1 == s2 ==> q1 == q2 && i == j)
  {
    ReachableInv(rate, ids, steps);
    var st := Run(rate, ids, steps).value;
    assert QueueInv(st.owners, q1, st.queues[q1]) && QueueInv(st.owners, q2, st.queues[q2]);
    assert Owns(st.owners, q1, st.queues[q1].executed[i].slot);
    assert Owns(st.owners, q2, st.queues[q2].executed[j].slot);
  }
}
