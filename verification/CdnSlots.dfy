/** Any number of requests that share the CDN connection semaphore, their events interleaved arbitrarily. */
module CdnSlots {
  import opened Wrappers
  import opened CdnStream

  /** A request with what it has done so far. */
  datatype Conn = Conn(q: Query, events: seq<Event>, pc: Pc)

  /** `free` counts the tokens in the semaphore's channel, which holds at most `capacity`. */
  datatype State = State(capacity: nat, free: int, conns: map<nat, Conn>)

  /** An event of one request; taking a slot needs a free one, and giving one back needs room in the channel. */
  datatype Step = Step(id: nat, e: Event)

  predicate Ready(cfg: Settings, st: State, s: Step) {
    s.id in st.conns && Next(cfg, st.conns[s.id].q, st.conns[s.id].pc, s.e).Some?
  }

  predicate Enabled(cfg: Settings, st: State, s: Step) {
    Ready(cfg, st, s) && (s.e.Acquired? ==> st.free > 0) && (s.e.Released? ==> st.free < st.capacity)
  }

  function Apply(cfg: Settings, st: State, s: Step): State
    requires Enabled(cfg, st, s)
  {
    var conn := st.conns[s.id];
    var next := Conn(conn.q, conn.events + [s.e], Next(cfg, conn.q, conn.pc, s.e).value);
    st.(free := st.free - Count(s.e.Acquired?) + Count(s.e.Released?), conns := st.conns[s.id := next])
  }

  predicate Initial(st: State) {
    st.free == st.capacity && forall id | id in st.conns :: st.conns[id].pc == Start && st.conns[id].events == []
  }

  function Run(cfg: Settings, st: State, steps: seq<Step>): Option<State> {
    if steps == [] then Some(st)
    else
      match Run(cfg, st, steps[..|steps| - 1])
      case None => None
      case Some(mid) =>
        var s := steps[|steps| - 1];
        if Enabled(cfg, mid, s) then Some(Apply(cfg, mid, s)) else None
  }

  function Holders(st: State): set<nat> {
    set id | id in st.conns && Slots(st.conns[id].pc) == 1
  }

  ghost predicate ConnInv(cfg: Settings, conn: Conn) {
    After(cfg, conn.q, conn.events) == Some(conn.pc)
  }

  ghost predicate Inv(cfg: Settings, st: State) {
    && st.free >= 0 && st.free + |Holders(st)| == st.capacity
    && forall id | id in st.conns :: ConnInv(cfg, st.conns[id])
  }

  lemma {:induction false} ConnStep(cfg: Settings, conn: Conn, e: Event)
    requires ConnInv(cfg, conn) && Next(cfg, conn.q, conn.pc, e).Some?
    ensures var next := Next(cfg, conn.q, conn.pc, e).value;
      && ConnInv(cfg, Conn(conn.q, conn.events + [e], next))
      && Slots(next) == Slots(conn.pc) + Count(e.Acquired?) - Count(e.Released?)
      && Slots(conn.pc) <= 1 && Slots(next) <= 1
  {
    var events := conn.events + [e];
    assert events[..|events| - 1] == conn.events;
    RequestIsDisciplined(cfg, conn.q, conn.events);
    StepIsSound(cfg, conn.q, conn.pc, e);
    hide Next, Slots, Shape, Disciplined;
  }

  lemma {:induction false} HoldersStep(st: State, id: nat, next: Conn)
    requires id in st.conns && Slots(st.conns[id].pc) <= 1 && Slots(next.pc) <= 1
    ensures |Holders(st.(conns := st.conns[id := next]))|
         == |Holders(st)| + Slots(next.pc) - Slots(st.conns[id].pc)
  {
    hide Slots;
    var others := Holders(st) - {id};
    assert Holders(st) == if Slots(st.conns[id].pc) == 1 then others + {id} else others;
    assert Holders(st.(conns := st.conns[id := next])) == if Slots(next.pc) == 1 then others + {id} else others;
  }

  lemma {:induction false} StepKeepsInv(cfg: Settings, st: State, s: Step)
    requires Inv(cfg, st) && Enabled(cfg, st, s)
    ensures Inv(cfg, Apply(cfg, st, s))
  {
    var next := Apply(cfg, st, s);
    ConnStep(cfg, st.conns[s.id], s.e);
    HoldersStep(st, s.id, next.conns[s.id]);
    assert Holders(next) == Holders(st.(conns := next.conns));
    hide Next, Slots, ConnInv, Holders;
  }

  lemma {:induction false} ReachableInv(cfg: Settings, st: State, steps: seq<Step>)
    requires Initial(st) && Run(cfg, st, steps).Some?
    ensures Inv(cfg, Run(cfg, st, steps).value) && Run(cfg, st, steps).value.capacity == st.capacity
  {
    if steps == [] {
      assert forall id | id in st.conns :: Slots(st.conns[id].pc) == 0;
      assert Holders(st) == {};
    } else {
      var init := steps[..|steps| - 1];
      ReachableInv(cfg, st, init);
      StepKeepsInv(cfg, Run(cfg, st, init).value, steps[|steps| - 1]);
    }
  }

  // ---------------------------------------------------------------- what follows for every schedule

  /**
   * No slot is ever lost or invented: those free and those held make up the capacity, whatever fails or disconnects.
   * And every request keeps, under any interleaving, the discipline it has on its own.
   */
  lemma {:induction false} SlotsAreConserved(cfg: Settings, st: State, steps: seq<Step>, id: nat)
    requires Initial(st) && Run(cfg, st, steps).Some? && id in Run(cfg, st, steps).value.conns
    ensures var now := Run(cfg, st, steps).value; var conn := now.conns[id];
      && now.free >= 0 && now.free + |Holders(now)| == st.capacity
      && Held(conn.events) == (if id in Holders(now) then 1 else 0)
      && Disciplined(conn.events)
      && (conn.pc.Returned? ==> id !in Holders(now) && StatusLines(conn.events) == 1)
  {
    ReachableInv(cfg, st, steps);
    var conn := Run(cfg, st, steps).value.conns[id];
    RequestIsDisciplined(cfg, conn.q, conn.events);
    hide Run, Next, Shape, HasUrl, Disciplined;
  }

  /** Giving a slot back never blocks. */
  lemma {:induction false} ReleaseNeverBlocks(cfg: Settings, st: State, steps: seq<Step>, id: nat)
    requires Initial(st) && Run(cfg, st, steps).Some? && Ready(cfg, Run(cfg, st, steps).value, Step(id, Released))
    ensures Enabled(cfg, Run(cfg, st, steps).value, Step(id, Released))
  {
    ReachableInv(cfg, st, steps);
    var now := Run(cfg, st, steps).value;
    hide Run;
    ConnStep(cfg, now.conns[id], Released);
    hide Next, Slots, ConnInv;
    assert id in Holders(now);
    assert |Holders(now)| == |Holders(now) - {id}| + 1;
  }

  /** Something that the code can do, or meet, next. */
  function SomeEvent(pc: Pc): Event
    requires !pc.Returned?
  {
    match pc
    case Start => Looked(None)
    case Fetching => Fetched(Err(""))
    case Refetching(_) => Fetched(Err(""))
    case HangFetching(_) => Fetched(Err(""))
    case FallingBack => FellBack(Err(""))
    case RefallingBack(_) => FellBack(Err(""))
    case HangFallingBack(_) => FellBack(Err(""))
    case Building(_) => Built(true)
    case HangBuilding(_) => Built(true)
    case Waiting(_) => Acquired
    case HangWaiting(_) => Acquired
    case Opening(_) => Opened(None)
    case HangOpening(_) => Opened(None)
    case Exhausted => StatusLine(502)
    case HangPausing(_) => Disconnected
    case Must(e, _) => e
  }

  lemma {:induction false} SomeEventIsPossible(cfg: Settings, q: Query, pc: Pc)
    requires !pc.Returned?
    ensures Next(cfg, q, pc, SomeEvent(pc)).Some?
    ensures SomeEvent(pc).Acquired? && Shape(cfg, pc) ==> Slots(pc) == 0
  {
    hide AfterReply, AfterHangReply, EnterHang, StoreUrl, Proxy;
  }

  /** As long as a request is unfinished, some request can go on: there is no deadlock on the slots. */
  lemma {:induction false} NoDeadlock(cfg: Settings, st: State, steps: seq<Step>, id: nat)
    requires Initial(st) && st.capacity >= 1 && Run(cfg, st, steps).Some?
    requires var now := Run(cfg, st, steps).value; id in now.conns && !now.conns[id].pc.Returned?
    ensures exists s :: Enabled(cfg, Run(cfg, st, steps).value, s)
  {
    ReachableInv(cfg, st, steps);
    var now := Run(cfg, st, steps).value;
    hide Run;
    var mover := id;
    if now.free == 0 {
      assert |Holders(now)| > 0;
      mover :| mover in Holders(now);
      HolderIsUnfinished(now.conns[mover].pc);
    }
    var conn := now.conns[mover];
    var s := Step(mover, SomeEvent(conn.pc));
    SomeEventIsPossible(cfg, conn.q, conn.pc);
    ReachableShape(cfg, conn.q, conn.events);
    hide Next, Shape, Slots, SomeEvent;
    if s.e.Released? {
      ReleaseNeverBlocks(cfg, st, steps, mover);
    }
    assert Enabled(cfg, now, s);
  }

  lemma {:induction false} HolderIsUnfinished(pc: Pc)
    ensures Slots(pc) == 1 ==> !pc.Returned?
  {
  }

  /** How many steps at most a holder is from giving its slot back. */
  function ToRelease(pc: Pc): nat {
    match pc
    case HangBuilding(_) => 6
    case HangOpening(_) => 5
    case Opening(_) => 5
    case Must(e, next) => if e.Released? then 0 else 1 + ToRelease(next)
    case _ => 0
  }

  lemma {:induction false} ToReleaseOfMust()
    ensures forall e, next :: ToRelease(Must(e, next)) == if e.Released? then 0 else 1 + ToRelease(next)
  {
  }

  lemma {:induction false} ReplyToRelease(cfg: Settings, q: Query, attempt: int, poll: int, answer: Option<Reply>)
    ensures ToRelease(AfterReply(cfg, q, attempt, answer)) <= 4
    ensures ToRelease(AfterHangReply(cfg, q, poll, answer)) <= 4
  {
    ToReleaseOfMust();
    hide ToRelease, Disguised, Correct, DropUrl, EnterHang;
  }

  lemma {:induction false} StepTowardsRelease(cfg: Settings, q: Query, pc: Pc, e: Event)
    requires Slots(pc) == 1 && Next(cfg, q, pc, e).Some?
    ensures e.Released? || ToRelease(Next(cfg, q, pc, e).value) < ToRelease(pc)
  {
    if pc.Opening? {
      ReplyToRelease(cfg, q, pc.attempt, 0, e.answer);
    } else if pc.HangOpening? {
      ReplyToRelease(cfg, q, 0, pc.poll, e.answer);
    }
    ToReleaseOfMust();
    hide AfterReply, AfterHangReply, EnterHang, StoreUrl, Proxy;
  }

  /** A holder's every step brings it closer to giving its slot back, and none of them waits for another request. */
  lemma {:induction false} HoldersGiveBack(cfg: Settings, st: State, steps: seq<Step>, s: Step)
    requires Initial(st) && Run(cfg, st, steps).Some? && Ready(cfg, Run(cfg, st, steps).value, s)
    requires s.id in Holders(Run(cfg, st, steps).value)
    ensures var now := Run(cfg, st, steps).value;
      && Enabled(cfg, now, s) && !s.e.Fetched? && !s.e.FellBack? && !s.e.Acquired? && !s.e.Waited?
      && (s.e.Released? || ToRelease(Apply(cfg, now, s).conns[s.id].pc) < ToRelease(now.conns[s.id].pc))
  {
    ReachableInv(cfg, st, steps);
    var now := Run(cfg, st, steps).value;
    hide Run;
    if s.e.Released? {
      ReleaseNeverBlocks(cfg, st, steps, s.id);
    }
    var conn := now.conns[s.id];
    ReachableShape(cfg, conn.q, conn.events);
    StepIsSound(cfg, conn.q, conn.pc, s.e);
    StepTowardsRelease(cfg, conn.q, conn.pc, s.e);
    hide Next, Slots, Shape, HasUrl, ToRelease;
  }
}
