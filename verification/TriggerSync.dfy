/** Pairing of camera frames with IMU triggers (hk_camera.cpp: triggerCB, enableTriggerCB, and the
    trigger part of onFrameCB). Each callback is one step. */
module TriggerSync {
  import opened TriggerRing

  const COUNTERS: nat := 0x1_0000_0000   // uint32_t
  const MAX_DELAY: real := 0.013
  const MAX_SILENCE: real := 1.0

  function Succ(c: nat): (d: nat)
    ensures d < COUNTERS
  {
    (c + 1) % COUNTERS
  }

  /** State of the pairing: the packets in the FIFO, the counter expected next, whether the pairing
      is lost, how many packets were ever written, and the last one of them. */
  datatype Sync = Sync(queue: seq<Packet>, expected: nat, notSync: bool, written: nat, last: Packet)

  /** What a frame callback does with the frame. */
  datatype Frame = Stamped(pkt: Packet) | Dropped

  function OnTrigger(s: Sync, p: Packet): Sync {
    if |s.queue| == FIFO_SIZE - 1 then s   // FIFO overflow
    else s.(queue := s.queue + [p], written := s.written + 1, last := p)
  }

  /** Taking the next packet: is it the expected one, and did it come in time? */
  predicate Mismatch(s: Sync)
    requires s.queue != []
  {
    s.queue[0].counter != s.expected
  }

  predicate Late(p: Packet, now: real) {
    now - p.time > MAX_DELAY
  }

  /** The cell in front of the write position, as line 366 reads it. At position 0 that is not a
      cell of the FIFO; `stray` stands for whatever lies there. */
  function LastCell(s: Sync, stray: nat): nat {
    if s.written % FIFO_SIZE > 0 then s.last.counter else stray
  }

  function Resync(s: Sync, stray: nat): Sync {
    s.(queue := [], expected := Succ(LastCell(s, stray)))
  }

  /** A frame can be handled once there is a packet, or when the pairing is lost. */
  predicate CanHandle(s: Sync) {
    s.notSync || s.queue != []
  }

  function OnFrame(s: Sync, now: real, stray: nat): (Sync, Frame)
    requires CanHandle(s)
  {
    if s.notSync then
      (Resync(s, stray), Dropped)
    else
      var t := s.(queue := s.queue[1..], expected := Succ(s.expected));
      if Mismatch(s) || Late(s.queue[0], now) then (Resync(t.(notSync := true), stray), Dropped)
      else (t, Stamped(s.queue[0]))
  }

  function OnTimer(s: Sync, silence: real): Sync {
    if silence > MAX_SILENCE then s.(notSync := false) else s
  }

  /** The packets in the FIFO are consecutive, start with the expected counter, and the trigger that
      arrives next continues them. */
  ghost predicate InSync(s: Sync, next: nat) {
    && s.expected < COUNTERS && next < COUNTERS
    && (forall i | 0 <= i < |s.queue| :: s.queue[i].counter == (s.expected + i) % COUNTERS)
    && next == (s.expected + |s.queue|) % COUNTERS
    && (s.written > 0 ==> next == Succ(s.last.counter))
    && |s.queue| <= s.written
  }

  lemma ModAdd(a: nat, b: nat)
    ensures (a % COUNTERS + b) % COUNTERS == (a + b) % COUNTERS
  {
  }

  lemma TriggerKeepsSync(s: Sync, next: nat, p: Packet)
    requires InSync(s, next) && p.counter == next && |s.queue| < FIFO_SIZE - 1
    ensures InSync(OnTrigger(s, p), Succ(next))
  {
    ModAdd(s.expected + |s.queue|, 1);
  }

  /** What one trigger does to the pairing, whatever its counter and however full the FIFO: it stays right if
      and only if the packet taken in has the next counter, or the packet lost in the overflow repeats the
      last one. So a gap, or an overflow that loses a new counter, breaks it. */
  lemma TriggerExactly(s: Sync, next: nat, p: Packet)
    requires InSync(s, next) && p.counter < COUNTERS && |s.queue| <= FIFO_SIZE - 1
    ensures InSync(OnTrigger(s, p), Succ(p.counter))
            <==> if |s.queue| < FIFO_SIZE - 1 then p.counter == next else Succ(p.counter) == next
  {
    ModAdd(s.expected + |s.queue|, 1);
    if |s.queue| < FIFO_SIZE - 1 {
      var t := OnTrigger(s, p);
      assert t.queue[|s.queue|] == p;
      if p.counter == next {
        TriggerKeepsSync(s, next, p);
      }
    }
  }

  /** After a resync the pairing is right again if and only if the write position is not 0, or what lies in
      front of the FIFO happens to continue with the next counter. */
  lemma ResyncExactly(s: Sync, next: nat, stray: nat)
    requires s.written > 0 && next == Succ(s.last.counter)
    ensures InSync(Resync(s, stray), next) <==> s.written % FIFO_SIZE > 0 || Succ(stray) == next
  {
  }

  /** After a wrong resync the first packet that is read fails the counter test, whenever the timer ends the
      loss of the pairing and the frame comes. */
  lemma WrongResyncFires(s: Sync, next: nat, stray: nat, silence: real, p: Packet, e: Event)
    requires s.notSync && s.written > 0 && next == Succ(s.last.counter) && !InSync(Resync(s, stray), next)
    requires silence > MAX_SILENCE && p.counter == next && e.FrameEvent?
    ensures Fires(OnTrigger(OnTimer(Resync(s, stray), silence), p), e)
  {
  }

  /* Such a resync is reached from the start without a gap and without an overflow. */

  /** After n triggers, each followed by its frame in time. */
  function OnTime(n: nat): Sync {
    Sync([], n % COUNTERS, false, n, if n == 0 then Packet(0, 0.0) else Packet((n - 1) % COUNTERS, 0.0))
  }

  lemma {:induction false} OnTimeRun(n: nat) returns (states: seq<Sync>, events: seq<Event>, nexts: seq<nat>)
    ensures Run(states, events, nexts) && SmoothRun(states, events, nexts)
    ensures states[0] == OnTime(0) && nexts[0] == 0
    ensures states[|events|] == OnTime(n) && nexts[|events|] == n % COUNTERS
  {
    if n == 0 {
      states, events, nexts := [OnTime(0)], [], [0];
    } else {
      states, events, nexts := OnTimeRun(n - 1);
      var p := Packet((n - 1) % COUNTERS, 0.0);
      var s := OnTrigger(OnTime(n - 1), p);
      ModAdd(n - 1, 1);
      states, events, nexts := RunStep(states, events, nexts, Trigger(p), s);
      states, events, nexts := RunStep(states, events, nexts, FrameEvent(0.0, 0), OnTime(n));
    }
  }

  /** One more callback. */
  lemma RunStep(states: seq<Sync>, events: seq<Event>, nexts: seq<nat>, e: Event, t: Sync)
    returns (states': seq<Sync>, events': seq<Event>, nexts': seq<nat>)
    requires Run(states, events, nexts) && Step(states[|events|], e, t)
    ensures states' == states + [t] && events' == events + [e]
    ensures nexts' == nexts + [NextCounter(nexts[|events|], e)] && Run(states', events', nexts')
    ensures SmoothRun(states, events, nexts) && Smooth(states[|events|], e, t, nexts[|events|]) ==>
              SmoothRun(states', events', nexts')
  {
    hide Step, Smooth, NextCounter;
    states', events', nexts' := states + [t], events + [e], nexts + [NextCounter(nexts[|events|], e)];
  }

  /** The last callbacks of the run below: a trigger, its frame too late, the timer, the next trigger. */
  ghost predicate LateFrame(s: Sync, lost: Sync, back: Sync, last: Sync, p: Packet, q: Packet, stray: nat) {
    && p == Packet(FIFO_SIZE - 1, 0.0) && q == Packet(FIFO_SIZE, 0.0)
    && s == OnTrigger(OnTime(FIFO_SIZE - 1), p) && lost == OnFrame(s, 2.0 * MAX_DELAY, stray).0
    && back == OnTimer(lost, 2.0 * MAX_SILENCE) && last == OnTrigger(back, q)
  }

  lemma LateFrameSteps(s: Sync, lost: Sync, back: Sync, last: Sync, p: Packet, q: Packet, stray: nat)
    requires CanHandle(s) && LateFrame(s, lost, back, last, p, q, stray)
    ensures Step(OnTime(FIFO_SIZE - 1), Trigger(p), s) && Smooth(OnTime(FIFO_SIZE - 1), Trigger(p), s, FIFO_SIZE - 1)
    ensures Step(s, FrameEvent(2.0 * MAX_DELAY, stray), lost)
    ensures Step(lost, Timer(2.0 * MAX_SILENCE), back) && Smooth(lost, Timer(2.0 * MAX_SILENCE), back, FIFO_SIZE)
    ensures Step(back, Trigger(q), last) && Smooth(back, Trigger(q), last, FIFO_SIZE)
    ensures s.written == FIFO_SIZE && lost.notSync && (InSync(lost, FIFO_SIZE) <==> Succ(stray) == FIFO_SIZE)
    ensures forall now, cell :: Fires(last, FrameEvent(now, cell)) <==> Succ(stray) != FIFO_SIZE
  {
  }

  lemma LateStates(stray: nat)
    returns (p: Packet, q: Packet, s: Sync, lost: Sync, back: Sync, last: Sync)
    ensures Step(OnTime(FIFO_SIZE - 1), Trigger(p), s) && Smooth(OnTime(FIFO_SIZE - 1), Trigger(p), s, FIFO_SIZE - 1)
    ensures Step(s, FrameEvent(2.0 * MAX_DELAY, stray), lost)
    ensures Step(lost, Timer(2.0 * MAX_SILENCE), back) && Smooth(lost, Timer(2.0 * MAX_SILENCE), back, FIFO_SIZE)
    ensures Step(back, Trigger(q), last) && Smooth(back, Trigger(q), last, FIFO_SIZE)
    ensures s.written == FIFO_SIZE && lost.notSync && (InSync(lost, FIFO_SIZE) <==> Succ(stray) == FIFO_SIZE)
    ensures forall now, cell :: Fires(last, FrameEvent(now, cell)) <==> Succ(stray) != FIFO_SIZE
    ensures NextCounter(FIFO_SIZE - 1, Trigger(p)) == FIFO_SIZE
    ensures NextCounter(FIFO_SIZE, FrameEvent(2.0 * MAX_DELAY, stray)) == FIFO_SIZE
    ensures NextCounter(FIFO_SIZE, Timer(2.0 * MAX_SILENCE)) == FIFO_SIZE
  {
    p, q := Packet(FIFO_SIZE - 1, 0.0), Packet(FIFO_SIZE, 0.0);
    s := OnTrigger(OnTime(FIFO_SIZE - 1), p);
    assert CanHandle(s);
    lost := OnFrame(s, 2.0 * MAX_DELAY, stray).0;
    back := OnTimer(lost, 2.0 * MAX_SILENCE);
    last := OnTrigger(back, q);
    LateFrameSteps(s, lost, back, last, p, q, stray);
    hide OnTime, OnTrigger, OnFrame, OnTimer, Step, Smooth, Fires, InSync, CanHandle;
  }

  /** FIFO_SIZE triggers and frames, the last frame late: the resync finds the write position at 0. Unless the
      cell in front of the FIFO continues with the next counter, the pairing stays lost: the next
      trigger is mismatched, although the producer never skipped a counter. */
  lemma LateFrameLosesPairing(stray: nat) returns (states: seq<Sync>, events: seq<Event>, nexts: seq<nat>, n: nat)
    ensures Run(states, events, nexts) && |events| == n + 3 && states[0] == OnTime(0) && nexts[0] == 0
    ensures forall i | 0 <= i < |events| && i != n :: Smooth(states[i], events[i], states[i + 1], nexts[i])
    ensures events[n] == FrameEvent(2.0 * MAX_DELAY, stray) && states[n].written == FIFO_SIZE
    ensures states[n + 1].notSync && (InSync(states[n + 1], nexts[n + 1]) <==> Succ(stray) == FIFO_SIZE)
    ensures forall now, cell :: Fires(states[n + 3], FrameEvent(now, cell)) <==> Succ(stray) != FIFO_SIZE
  {
    var p, q, s, lost, back, last := LateStates(stray);
    hide OnTime, OnTrigger, OnFrame, OnTimer, Step, Smooth, NextCounter, Fires, InSync, CanHandle, LateFrame;
    states, events, nexts := OnTimeRun(FIFO_SIZE - 1);
    states, events, nexts := RunStep(states, events, nexts, Trigger(p), s);
    n := |events|;
    states, events, nexts := RunStep(states, events, nexts, FrameEvent(2.0 * MAX_DELAY, stray), lost);
    states, events, nexts := RunStep(states, events, nexts, Timer(2.0 * MAX_SILENCE), back);
    states, events, nexts := RunStep(states, events, nexts, Trigger(q), last);
  }

  /** In sync no counter is ever mismatched, and a handled frame leaves the pairing in sync. */
  lemma FrameKeepsSync(s: Sync, next: nat, now: real, stray: nat)
    requires InSync(s, next) && CanHandle(s) && s.written % FIFO_SIZE > 0
    ensures !s.notSync ==> !Mismatch(s)
    ensures InSync(OnFrame(s, now, stray).0, next)
    ensures OnFrame(s, now, stray).1.Stamped? ==> OnFrame(s, now, stray).1.pkt.counter == s.expected
                                                  && OnFrame(s, now, stray).0.expected == Succ(s.expected)
  {
    if !s.notSync {
      assert s.queue[0].counter == (s.expected + 0) % COUNTERS;
      if !OnFrame(s, now, stray).0.notSync {
        StampKeepsSync(s, next, now, stray);
      }
    }
  }

  datatype Event = Trigger(p: Packet) | FrameEvent(now: real, stray: nat) | Timer(silence: real)

  /** One callback. */
  ghost predicate Step(s: Sync, e: Event, t: Sync) {
    match e
    case Trigger(p) => t == OnTrigger(s, p)
    case FrameEvent(now, stray) => CanHandle(s) && t == OnFrame(s, now, stray).0
    case Timer(silence) => t == OnTimer(s, silence)
  }

  /** The producer neither skips nor repeats a counter, the FIFO does not overflow, and no resync
      happens with the write position at 0. */
  ghost predicate Smooth(s: Sync, e: Event, t: Sync, next: nat) {
    match e
    case Trigger(p) => p.counter == next && |s.queue| < FIFO_SIZE - 1
    case FrameEvent(_, _) => t.notSync ==> s.written % FIFO_SIZE > 0
    case Timer(_) => true
  }

  ghost function NextCounter(next: nat, e: Event): nat {
    if e.Trigger? then Succ(next) else next
  }

  /** A stamped frame does not look at the write position at all. */
  lemma StampKeepsSync(s: Sync, next: nat, now: real, stray: nat)
    requires InSync(s, next) && CanHandle(s) && !OnFrame(s, now, stray).0.notSync
    ensures !Mismatch(s) && OnFrame(s, now, stray).1 == Stamped(s.queue[0])
    ensures InSync(OnFrame(s, now, stray).0, next) && s.queue[0].counter == s.expected
  {
    forall i | 0 <= i < |s.queue| - 1
      ensures s.queue[1..][i].counter == (Succ(s.expected) + i) % COUNTERS
    {
      ModAdd(s.expected + 1, i);
    }
    ModAdd(s.expected + 1, |s.queue| - 1);
  }

  lemma StepKeepsSync(s: Sync, e: Event, t: Sync, next: nat)
    requires InSync(s, next) && Step(s, e, t) && Smooth(s, e, t, next)
    ensures InSync(t, NextCounter(next, e))
    ensures !Fires(s, e)
  {
    match e
    case Trigger(p) => TriggerKeepsSync(s, next, p);
    case FrameEvent(now, stray) =>
      if t.notSync {
        FrameKeepsSync(s, next, now, stray);
      } else {
        StampKeepsSync(s, next, now, stray);
      }
    case Timer(_) =>
  }

  /** The counter test of line 337 fires in this callback. */
  predicate Fires(s: Sync, e: Event) {
    e.FrameEvent? && !s.notSync && s.queue != [] && Mismatch(s)
  }

  /** This callback stamps a frame with a trigger. */
  predicate Stamps(s: Sync, e: Event) {
    e.FrameEvent? && CanHandle(s) && OnFrame(s, e.now, e.stray).1.Stamped?
  }

  /** A run of callbacks, with the counter that the producer will send next. */
  ghost predicate Run(states: seq<Sync>, events: seq<Event>, nexts: seq<nat>) {
    && |states| == |nexts| == |events| + 1
    && (forall i | 0 <= i < |events| :: Step(states[i], events[i], states[i + 1]))
    && (forall i | 0 <= i < |events| :: nexts[i + 1] == NextCounter(nexts[i], events[i]))
  }

  ghost predicate SmoothRun(states: seq<Sync>, events: seq<Event>, nexts: seq<nat>)
    requires Run(states, events, nexts)
  {
    forall i | 0 <= i < |events| :: Smooth(states[i], events[i], states[i + 1], nexts[i])
  }

  /** Over any smooth run from a state in sync the pairing stays in sync, and the counter test of
      line 337 never fires. */
  lemma {:induction false} RunStaysInSync(states: seq<Sync>, events: seq<Event>, nexts: seq<nat>, n: nat)
    requires Run(states, events, nexts) && SmoothRun(states, events, nexts) && InSync(states[0], nexts[0])
    requires n <= |events|
    ensures InSync(states[n], nexts[n])
    ensures n < |events| ==> !Fires(states[n], events[n])
  {
    hide InSync, Smooth;
    if n > 0 {
      RunStaysInSync(states, events, nexts, n - 1);
      StepKeepsSync(states[n - 1], events[n - 1], states[n], nexts[n - 1]);
    }
    if n < |events| {
      StepKeepsSync(states[n], events[n], states[n + 1], nexts[n]);
    }
  }

  /** Number of frames stamped by the first n callbacks. */
  ghost function StampCount(states: seq<Sync>, events: seq<Event>, nexts: seq<nat>, n: nat): nat
    requires Run(states, events, nexts) && n <= |events|
  {
    if n == 0 then 0
    else StampCount(states, events, nexts, n - 1) + if Stamps(states[n - 1], events[n - 1]) then 1 else 0
  }

  /** Whatever the producer sends and however full the FIFO gets: as long as the pairing is not lost, stamp number k
      carries the k-th counter after the one expected first. So frames never skip or repeat a trigger unnoticed. */
  lemma {:induction false} StampsAreConsecutive(states: seq<Sync>, events: seq<Event>, nexts: seq<nat>, n: nat)
    requires Run(states, events, nexts) && states[0].expected < COUNTERS
    requires n <= |events| && forall i | 0 <= i <= n :: !states[i].notSync
    ensures states[n].expected == (states[0].expected + StampCount(states, events, nexts, n)) % COUNTERS
    ensures n < |events| && Stamps(states[n], events[n]) ==>
              OnFrame(states[n], events[n].now, events[n].stray).1.pkt.counter
              == (states[0].expected + StampCount(states, events, nexts, n)) % COUNTERS
  {
    if n > 0 {
      StampsAreConsecutive(states, events, nexts, n - 1);
      ModAdd(states[0].expected + StampCount(states, events, nexts, n - 1), 1);
      StepCounts(states[n - 1], events[n - 1], states[n]);
    }
    if n < |events| && Stamps(states[n], events[n]) {
      FrameExactly(states[n], events[n].now, events[n].stray);
    }
  }

  /** A callback that does not lose the pairing moves the expected counter by one for a stamp, else not at all. */
  lemma StepCounts(s: Sync, e: Event, t: Sync)
    requires Step(s, e, t) && !s.notSync && !t.notSync && s.expected < COUNTERS
    ensures t.expected == if Stamps(s, e) then (s.expected + 1) % COUNTERS else s.expected
  {
    if e.FrameEvent? {
      FrameExactly(s, e.now, e.stray);
    }
  }

  /** The frame callback, test by test: a frame is stamped if and only if the pairing is not lost and the oldest packet
      has the expected counter and is at most 13 ms old; it gets that packet, and the next counter is expected.
      Any other frame is dropped, the pairing is lost, and the FIFO is emptied. */
  lemma FrameExactly(s: Sync, now: real, stray: nat)
    requires CanHandle(s) && s.expected < COUNTERS
    ensures var t, frame := OnFrame(s, now, stray).0, OnFrame(s, now, stray).1;
            && (frame.Stamped? <==>
                  !s.notSync && s.queue[0].counter == s.expected && now - s.queue[0].time <= 0.013)
            && (frame.Stamped? ==>
                  && frame.pkt == s.queue[0] && !t.notSync && [frame.pkt] + t.queue == s.queue
                  && t.expected == if s.expected == 0xFFFF_FFFF then 0 else s.expected + 1)
            && (frame.Dropped? ==> t.notSync && t.queue == [])
            && t.written == s.written && t.last == s.last
  {
  }

  /** When the counter test fires, nothing is stamped, and the pairing is lost with an empty FIFO. */
  lemma FiringDrops(s: Sync, e: Event, t: Sync)
    requires Step(s, e, t) && Fires(s, e)
    ensures !Stamps(s, e) && t.notSync && t.queue == []
    ensures t.expected == Succ(LastCell(s, e.stray))
  {
  }

  /** The timer ends the loss of the pairing after more than one second of silence, and does nothing else. */
  lemma TimerExactly(s: Sync, silence: real)
    ensures var t := OnTimer(s, silence);
            && (t.notSync <==> s.notSync && silence <= 1.0)
            && t == s.(notSync := t.notSync)
  {
  }

  /* The steps of this module are runs of the statements of the ring. */

  /** Each state leads to the next by one statement. */
  ghost predicate Leads(states: seq<State>, steps: seq<TriggerRing.Step>) {
    |states| == |steps| + 1 && forall i | 0 <= i < |steps| :: TriggerRing.Next(states[i], steps[i], states[i + 1])
  }

  /** The three statements of fifoWrite, without another callback in between. */
  lemma WriteByStatements(r: State, s: Sync, p: Packet) returns (states: seq<State>, steps: seq<TriggerRing.Step>)
    requires TriggerRing.Inv(r) && r.w == WIdle && Queue(r) == s.queue && |r.accepted| == s.written
    ensures Leads(states, steps) && states[0] == r && TriggerRing.Inv(states[|steps|])
    ensures var t := states[|steps|];
            t.w == WIdle && t.r == r.r && Queue(t) == OnTrigger(s, p).queue && |t.accepted| == OnTrigger(s, p).written
  {
    var r1 := r.(w := if r.front == (r.rear + 1) % FIFO_SIZE then WIdle else WStore(p));
    assert TriggerRing.Next(r, WriteTest(p), r1);
    RingRefinesFifo(r, WriteTest(p), r1);
    if r1.w == WIdle {
      states, steps := [r, r1], [WriteTest(p)];
    } else {
      var r2 := r1.(slots := r1.slots[r1.rear := p], w := WPublish(p));
      var r3 := r2.(rear := (r2.rear + 1) % FIFO_SIZE, w := WIdle, accepted := r2.accepted + [p]);
      assert TriggerRing.Next(r1, WriteStore, r2) && TriggerRing.Next(r2, WritePublish, r3);
      RingRefinesFifo(r1, WriteStore, r2);
      RingRefinesFifo(r2, WritePublish, r3);
      states, steps := [r, r1, r2, r3], [WriteTest(p), WriteStore, WritePublish];
    }
  }

  /** The three statements of fifoRead on a FIFO that is not empty. */
  lemma ReadByStatements(r: State, s: Sync) returns (states: seq<State>, steps: seq<TriggerRing.Step>)
    requires TriggerRing.Inv(r) && r.r == RIdle && Queue(r) == s.queue != []
    ensures Leads(states, steps) && states[0] == r && TriggerRing.Inv(states[|steps|])
    ensures var t := states[|steps|];
            t.r == RIdle && t.w == r.w && Queue(t) == s.queue[1..] && t.results == r.results + [s.queue[0]]
  {
    var r1 := r.(r := if r.front == r.rear then RIdle else RCopy);
    assert TriggerRing.Next(r, ReadTest, r1);
    RingRefinesFifo(r, ReadTest, r1);
    var r2 := r1.(r := RAdvance(r1.slots[r1.front]));
    assert TriggerRing.Next(r1, ReadCopy, r2);
    RingRefinesFifo(r1, ReadCopy, r2);
    var r3 := r2.(front := (r2.front + 1) % FIFO_SIZE, r := RIdle, gone := r2.gone + 1,
                  returned := r2.returned + [r2.gone], results := r2.results + [r2.r.pkt]);
    assert TriggerRing.Next(r2, ReadAdvance, r3);
    RingRefinesFifo(r2, ReadAdvance, r3);
    states, steps := [r, r1, r2, r3], [ReadTest, ReadCopy, ReadAdvance];
  }

  /** The four statements of the flush and of the resync. */
  lemma ResyncByStatements(r: State, s: Sync, stray: Packet) returns (states: seq<State>, steps: seq<TriggerRing.Step>)
    requires TriggerRing.Inv(r) && r.r == RIdle && Queue(r) == s.queue && |r.accepted| == s.written
    requires s.written > 0 ==> s.last == r.accepted[s.written - 1]
    ensures Leads(states, steps) && states[0] == r && TriggerRing.Inv(states[|steps|])
    ensures var t := states[|steps|];
            t.r == RIdle && t.w == r.w && Queue(t) == Resync(s, stray.counter).queue
            && Succ(t.lastCell.counter) == Resync(s, stray.counter).expected
  {
    hide TriggerRing.Inv, TriggerRing.Next, Queue, Succ;
    var r2;
    states, steps, r2 := FlushByStatements(r);
    var r3, r4 := LastCellByStatements(r2, stray);
    states, steps := states + [r3, r4], steps + [ResyncLoad, ResyncRead(stray)];
  }

  lemma FlushByStatements(r: State) returns (states: seq<State>, steps: seq<TriggerRing.Step>, t: State)
    requires TriggerRing.Inv(r) && r.r == RIdle
    ensures Leads(states, steps) && |steps| == 2 && states[0] == r && states[2] == t
    ensures TriggerRing.Inv(t) && t.r == RFlushed && t.w == r.w && Queue(t) == [] && t.accepted == r.accepted
  {
    hide Returned;
    var r1 := r.(r := RFlush(r.rear), flushTo := |r.accepted|);
    assert TriggerRing.Next(r, FlushLoad, r1);
    NextKeepsInv(r, FlushLoad, r1);
    t := r1.(front := r1.r.rear, r := RFlushed, gone := r1.flushTo);
    assert TriggerRing.Next(r1, FlushStore, t);
    NextKeepsInv(r1, FlushStore, t);
    states, steps := [r, r1, t], [FlushLoad, FlushStore];
  }

  lemma LastCellByStatements(r: State, stray: Packet) returns (r1: State, t: State)
    requires TriggerRing.Inv(r) && r.r == RFlushed
    ensures TriggerRing.Next(r, ResyncLoad, r1) && TriggerRing.Next(r1, ResyncRead(stray), t)
    ensures TriggerRing.Inv(t) && t.r == RIdle && t.w == r.w && t.accepted == r.accepted && Queue(t) == Queue(r)
    ensures var n := |r.accepted|;
            t.lastCell == if n > 0 && n % FIFO_SIZE > 0 then r.accepted[n - 1] else stray
  {
    hide Returned;
    r1 := r.(r := RLast(r.rear), resyncTo := |r.accepted|);
    NextKeepsInv(r, ResyncLoad, r1);
    t := r1.(r := RIdle, lastCell := if r1.r.rear > 0 then r1.slots[r1.r.rear - 1] else stray);
    NextKeepsInv(r1, ResyncRead(stray), t);
    ReaderRefines(r1, ResyncRead(stray), t);
  }
}
