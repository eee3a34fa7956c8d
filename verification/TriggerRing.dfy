/** The trigger FIFO shared by the trigger callback and the frame callback, statement by statement
    (hk_camera.cpp: fifoWrite, fifoRead, and the flush in onFrameCB). Reads and writes of an index
    or of a slot are atomic and seen in program order. */
module TriggerRing {

  datatype Packet = Packet(counter: nat, time: real)

  const FIFO_SIZE: nat := 1023

  /** Where fifoWrite stands: before the overflow test, before the store, before the new rear. */
  datatype Writer = WIdle | WStore(pkt: Packet) | WPublish(pkt: Packet)

  /** Where the consumer stands: in fifoRead before the copy, before the new front; in the flush between
      reading the rear and writing the front; in the resync before it reads the rear again, and before it
      reads the slot in front of that. */
  datatype Reader = RIdle | RCopy | RAdvance(pkt: Packet) | RFlush(rear: nat) | RFlushed | RLast(rear: nat)

  /** The shared variables, the two program counters, and the history: packets published so far, how many
      of them have left the ring, how many there were when the flush and the resync read the rear, which
      of them fifoRead returned, and what the last resync read. */
  datatype State = State(
    slots: seq<Packet>, front: nat, rear: nat, w: Writer, r: Reader,
    accepted: seq<Packet>, gone: nat, flushTo: nat, resyncTo: nat, returned: seq<nat>, results: seq<Packet>,
    lastCell: Packet)

  datatype Step =
    | WriteTest(p: Packet) | WriteStore | WritePublish
    | ReadTest | ReadCopy | ReadAdvance
    | FlushLoad | FlushStore | ResyncLoad | ResyncRead(stray: Packet)

  predicate Init(s: State) {
    && |s.slots| == FIFO_SIZE && s.front == 0 && s.rear == 0 && s.w == WIdle && s.r == RIdle
    && s.accepted == [] && s.gone == 0 && s.returned == [] && s.results == []
  }

  predicate Sane(s: State) {
    |s.slots| == FIFO_SIZE && s.front < FIFO_SIZE && s.rear < FIFO_SIZE
  }

  /** One statement of one of the two callbacks. */
  predicate Next(s: State, step: Step, t: State) {
    Sane(s) &&
    match step
    case WriteTest(p) =>
      s.w == WIdle && t == s.(w := if s.front == (s.rear + 1) % FIFO_SIZE then WIdle else WStore(p))
    case WriteStore =>
      s.w.WStore? && t == s.(slots := s.slots[s.rear := s.w.pkt], w := WPublish(s.w.pkt))
    case WritePublish =>
      s.w.WPublish? && t == s.(rear := (s.rear + 1) % FIFO_SIZE, w := WIdle, accepted := s.accepted + [s.w.pkt])
    case ReadTest =>
      s.r == RIdle && t == s.(r := if s.front == s.rear then RIdle else RCopy)
    case ReadCopy =>
      s.r == RCopy && t == s.(r := RAdvance(s.slots[s.front]))
    case ReadAdvance =>
      s.r.RAdvance? && t == s.(front := (s.front + 1) % FIFO_SIZE, r := RIdle, gone := s.gone + 1,
                               returned := s.returned + [s.gone], results := s.results + [s.r.pkt])
    case FlushLoad =>
      s.r == RIdle && t == s.(r := RFlush(s.rear), flushTo := |s.accepted|)
    case FlushStore =>
      s.r.RFlush? && t == s.(front := s.r.rear, r := RFlushed, gone := s.flushTo)
    case ResyncLoad =>
      s.r == RFlushed && t == s.(r := RLast(s.rear), resyncTo := |s.accepted|)
    case ResyncRead(stray) =>
      && s.r.RLast? && s.r.rear <= FIFO_SIZE
      && t == s.(r := RIdle, lastCell := if s.r.rear > 0 then s.slots[s.r.rear - 1] else stray)
  }

  /** The ring holds the packets that were published and have not left, and the one before them, at the
      right places; the writer holds a free slot; the reader holds the oldest packet. */
  ghost predicate Inv(s: State) {
    && Sane(s) && s.gone <= |s.accepted| <= s.gone + FIFO_SIZE - 1
    && s.front == s.gone % FIFO_SIZE && s.rear == |s.accepted| % FIFO_SIZE
    && (forall k | 0 <= k && s.gone - 1 <= k < |s.accepted| :: s.slots[k % FIFO_SIZE] == s.accepted[k])
    && (s.w != WIdle ==> |s.accepted| <= s.gone + FIFO_SIZE - 2)
    && (s.w.WPublish? ==> s.slots[s.rear] == s.w.pkt)
    && (s.r == RCopy || s.r.RAdvance? ==> s.gone < |s.accepted|)
    && (s.r.RAdvance? ==> s.r.pkt == s.accepted[s.gone])
    && (s.r.RFlush? ==> s.gone <= s.flushTo <= |s.accepted| && s.r.rear == s.flushTo % FIFO_SIZE)
    && (s.r.RLast? ==> s.gone <= s.resyncTo <= |s.accepted| && s.r.rear == s.resyncTo % FIFO_SIZE)
    && Returned(s)
  }

  /** fifoRead returned accepted packets, in the order of acceptance, none twice. */
  ghost predicate Returned(s: State) {
    && |s.returned| == |s.results|
    && (forall i | 0 <= i < |s.returned| ::
          s.returned[i] < s.gone <= |s.accepted| && s.results[i] == s.accepted[s.returned[i]])
    && (forall i, j | 0 <= i < j < |s.returned| :: s.returned[i] < s.returned[j])
  }

  /** Positions of a ring: two counts less than a round apart share a slot only if they are equal. */
  lemma SameSlot(a: nat, b: nat)
    requires a <= b < a + FIFO_SIZE
    ensures a % FIFO_SIZE == b % FIFO_SIZE <==> a == b
    ensures (b + 1) % FIFO_SIZE == a % FIFO_SIZE <==> b + 1 == a + FIFO_SIZE
    ensures (a + 1) % FIFO_SIZE == (a % FIFO_SIZE + 1) % FIFO_SIZE
    ensures (b + 1) % FIFO_SIZE == (b % FIFO_SIZE + 1) % FIFO_SIZE
  {
    Advance(a, b - a);
    Advance(a, 1);
    Advance(b, 1);
    NextPosition(a % FIFO_SIZE);
    NextPosition(b % FIFO_SIZE);
  }

  lemma Advance(a: nat, d: nat)
    requires d < FIFO_SIZE
    ensures (a + d) % FIFO_SIZE
            == if a % FIFO_SIZE + d < FIFO_SIZE then a % FIFO_SIZE + d else a % FIFO_SIZE + d - FIFO_SIZE
  {
  }

  lemma NextPosition(r: nat)
    requires r < FIFO_SIZE
    ensures (r + 1) % FIFO_SIZE == if r + 1 < FIFO_SIZE then r + 1 else 0
  {
  }

  lemma InitInv(s: State)
    requires Init(s)
    ensures Inv(s)
  {
  }

  lemma WriterKeepsInv(s: State, step: Step, t: State)
    requires Inv(s) && Next(s, step, t) && (step.WriteTest? || step.WriteStore? || step.WritePublish?)
    ensures Inv(t)
  {
    SameSlot(s.gone, |s.accepted|);
    if step.WriteStore? || step.WritePublish? {
      forall k | 0 <= k && s.gone - 1 <= k < |s.accepted|
        ensures k % FIFO_SIZE != s.rear
      {
        SameSlot(k, |s.accepted|);
      }
    }
  }

  lemma ReaderKeepsInv(s: State, step: Step, t: State)
    requires Inv(s) && Next(s, step, t) && !(step.WriteTest? || step.WriteStore? || step.WritePublish?)
    ensures Inv(t)
  {
    SameSlot(s.gone, |s.accepted|);
  }

  /** Every statement of either callback keeps the invariant, in every interleaving. */
  lemma NextKeepsInv(s: State, step: Step, t: State)
    requires Inv(s) && Next(s, step, t)
    ensures Inv(t)
  {
    if step.WriteTest? || step.WriteStore? || step.WritePublish? {
      WriterKeepsInv(s, step, t);
    } else {
      ReaderKeepsInv(s, step, t);
    }
  }

  /** The bounded FIFO that the ring stands for. */
  ghost function Queue(s: State): seq<Packet>
    requires Inv(s)
  {
    s.accepted[s.gone..]
  }

  /** What a statement does to the FIFO: nothing, except at the three places that publish. A test
      for overflow sees a full FIFO exactly when it is full, a test for emptiness an empty one
      exactly when it is empty; the flush drops what was there when the rear was read. */
  ghost predicate Refines(q: seq<Packet>, s: State, step: Step, t: State, q': seq<Packet>) {
    match step
    case WriteTest(p) => q' == q && (t.w == WIdle <==> |q| == FIFO_SIZE - 1)
    case WriteStore => q' == q
    case WritePublish => |q| < FIFO_SIZE - 1 && s.w.WPublish? && q' == q + [s.w.pkt]
    case ReadTest => q' == q && (t.r == RIdle <==> q == [])
    case ReadCopy => q' == q
    case ReadAdvance => q != [] && t.results == s.results + [q[0]] && q' == q[1..]
    case FlushLoad => q' == q
    case FlushStore => exists n: nat :: n <= |q| && q' == q[n..] && s.flushTo == s.gone + n
    case ResyncLoad => q' == q
    case ResyncRead(_) =>
      && q' == q
      && (s.resyncTo % FIFO_SIZE > 0 ==>
            0 < s.resyncTo <= |s.accepted| && t.lastCell == s.accepted[s.resyncTo - 1])
  }

  /** The ring refines a bounded FIFO of capacity FIFO_SIZE - 1. */
  lemma RingRefinesFifo(s: State, step: Step, t: State)
    requires Inv(s) && Next(s, step, t)
    ensures Inv(t) && Refines(Queue(s), s, step, t, Queue(t))
  {
    NextKeepsInv(s, step, t);
    if step.WriteTest? || step.WriteStore? || step.WritePublish? {
      WriterRefines(s, step, t);
    } else {
      ReaderRefines(s, step, t);
    }
  }

  lemma WriterRefines(s: State, step: Step, t: State)
    requires Inv(s) && Inv(t) && Next(s, step, t) && (step.WriteTest? || step.WriteStore? || step.WritePublish?)
    ensures Refines(Queue(s), s, step, t, Queue(t))
  {
    hide Returned;
    SameSlot(s.gone, |s.accepted|);
  }

  lemma ReaderRefines(s: State, step: Step, t: State)
    requires Inv(s) && Inv(t) && Next(s, step, t) && !(step.WriteTest? || step.WriteStore? || step.WritePublish?)
    ensures Refines(Queue(s), s, step, t, Queue(t))
  {
    hide Returned;
    if step.ReadTest? {
      SameSlot(s.gone, |s.accepted|);
    } else if step.ResyncRead? && s.r.rear > 0 {
      CellBefore(s.resyncTo);
    } else if step.FlushStore? {
      assert Queue(t) == Queue(s)[s.flushTo - s.gone..];
    }
  }

  /** The position before that of a count. */
  lemma CellBefore(n: nat)
    requires n % FIFO_SIZE > 0
    ensures n > 0 && (n - 1) % FIFO_SIZE == n % FIFO_SIZE - 1
  {
  }

  /** The slot that the consumer is about to read. */
  ghost predicate AboutToRead(s: State, slot: int) {
    (s.r == RCopy && slot == s.front) || (s.r.RLast? && slot == s.r.rear - 1)
  }

  /** While the consumer is about to read a slot, in fifoRead or in the resync, and the writer is about to
      store one, they differ. */
  lemma NoTornRead(s: State, slot: int)
    requires Inv(s) && AboutToRead(s, slot) && s.w.WStore?
    ensures slot != s.rear
  {
    SameSlot(s.gone, |s.accepted|);
    if s.r.RLast? && s.r.rear > 0 {
      CellBefore(s.resyncTo);
      SameSlot(s.resyncTo - 1, |s.accepted|);
    }
  }

  /** A run: states and the statements between them. */
  ghost predicate Run(states: seq<State>, steps: seq<Step>) {
    && |states| == |steps| + 1 && Init(states[0])
    && forall i | 0 <= i < |steps| :: Next(states[i], steps[i], states[i + 1])
  }

  lemma {:induction false} RunInv(states: seq<State>, steps: seq<Step>)
    requires Run(states, steps)
    ensures forall i | 0 <= i < |states| :: Inv(states[i])
  {
    hide Inv, Init, Next;
    if steps == [] {
      InitInv(states[0]);
    } else {
      var n := |steps| - 1;
      RunInv(states[..n + 1], steps[..n]);
      assert states[n] == states[..n + 1][n];
      NextKeepsInv(states[n], steps[n], states[n + 1]);
      forall i | 0 <= i < |states|
        ensures Inv(states[i])
      {
        assert i <= n ==> states[i] == states[..n + 1][i];
      }
    }
  }

  /** Over any run the results of fifoRead are a subsequence of the accepted packets. */
  lemma ReadsInOrder(states: seq<State>, steps: seq<Step>)
    requires Run(states, steps)
    ensures Returned(states[|steps|])
  {
    RunInv(states, steps);
  }
}
