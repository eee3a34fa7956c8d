/** The trigger callbacks of the camera nodelet, over the ring buffer they share
    (hk_camera.cpp: triggerCB, enableTriggerCB, fifoWrite, fifoRead, onFrameCB). */
module HkCamera {
  import opened TriggerRing
  import opened TriggerSync

  /** Position of packet number n in the ring. */
  function Slot(n: nat): nat {
    n % FIFO_SIZE
  }

  /** The pairing after some triggers. */
  ghost function AfterTriggers(s: Sync, ps: seq<Packet>): Sync {
    if ps == [] then s else OnTrigger(AfterTriggers(s, ps[..|ps| - 1]), ps[|ps| - 1])
  }

  /** The pairing when the polling loop of the frame callback ends; arrivals[k] are the triggers that come in
      while it sleeps for the k-th time. */
  ghost function Polled(s: Sync, arrivals: seq<seq<Packet>>): Sync
    decreases |arrivals|
  {
    if s.queue != [] || arrivals == [] then s else Polled(AfterTriggers(s, arrivals[0]), arrivals[1..])
  }

  /** The slots hold the packets of the FIFO, and the last one written. */
  ghost predicate Holds(slots: seq<Packet>, front: nat, rear: nat, gone: nat, queue: seq<Packet>, written: nat,
                        last: Packet)
  {
    && |slots| == FIFO_SIZE && written == gone + |queue| && |queue| <= FIFO_SIZE - 1
    && front == gone % FIFO_SIZE && rear == written % FIFO_SIZE
    && (forall k | 0 <= k < |queue| :: slots[Slot(gone + k)] == queue[k])
    && (written > 0 ==> slots[(written - 1) % FIFO_SIZE] == last)
  }

  class Camera {
    var fifo: array<Packet>
    var fifoFront: nat
    var fifoRear: nat
    var receiveTriggerCounter: nat
    var triggerNotSync: bool
    var lastTriggerTime: real
    ghost var sync: Sync   // what the fields stand for
    ghost var gone: nat    // number of packets that have left the FIFO

    ghost predicate Valid()
      reads this, fifo
    {
      && fifo.Length == FIFO_SIZE && Holds(fifo[..], fifoFront, fifoRear, gone, sync.queue, sync.written, sync.last)
      && receiveTriggerCounter == sync.expected < COUNTERS && triggerNotSync == sync.notSync
    }

    constructor ()
      ensures Valid() && fresh(fifo) && sync.queue == [] && sync.expected == 0 && !sync.notSync && sync.written == 0
    {
      fifo := new Packet[FIFO_SIZE](_ => Packet(0, 0.0));
      fifoFront, fifoRear, receiveTriggerCounter, triggerNotSync, lastTriggerTime := 0, 0, 0, false, 0.0;
      sync, gone := Sync([], 0, false, 0, Packet(0, 0.0)), 0;
    }

    method FifoWrite(pkt: Packet)
      requires Valid()
      modifies this`fifoRear, this`sync, fifo
      ensures Valid() && sync == OnTrigger(old(sync), pkt)
    {
      SameSlot(gone, sync.written);
      if fifoFront == (fifoRear + 1) % FIFO_SIZE {
        return;  // FIFO overflow
      }
      forall n | gone <= n < sync.written
        ensures Slot(n) != fifoRear
      {
        SameSlot(n, sync.written);
      }
      fifo[fifoRear] := pkt;
      fifoRear := (fifoRear + 1) % FIFO_SIZE;
      sync := OnTrigger(sync, pkt);
    }

    method FifoRead() returns (ok: bool, pkt: Packet)
      requires Valid()
      modifies this`fifoFront, this`sync, this`gone
      ensures Valid() && ok == (old(sync).queue != [])
      ensures ok ==> pkt == old(sync).queue[0] && sync == old(sync).(queue := old(sync).queue[1..])
      ensures !ok ==> sync == old(sync)
    {
      SameSlot(gone, sync.written);
      pkt := Packet(0, 0.0);
      if fifoFront == fifoRear {
        return false, pkt;
      }
      pkt := fifo[fifoFront];
      fifoFront := (fifoFront + 1) % FIFO_SIZE;
      sync := sync.(queue := sync.queue[1..]);
      gone := gone + 1;
      return true, pkt;
    }

    method TriggerCB(pkt: Packet)
      requires Valid()
      modifies this`lastTriggerTime, this`fifoRear, this`sync, fifo
      ensures Valid() && sync == OnTrigger(old(sync), pkt) && lastTriggerTime == pkt.time
    {
      lastTriggerTime := pkt.time;
      FifoWrite(pkt);
    }

    method EnableTriggerCB(now: real)
      requires Valid()
      modifies this`triggerNotSync, this`sync
      ensures Valid() && sync == OnTimer(old(sync), now - lastTriggerTime)
    {
      if now - lastTriggerTime > MAX_SILENCE {
        if triggerNotSync {
          triggerNotSync := false;
        }
        sync := sync.(notSync := false);
      }
    }

    /** The triggers that come in while the frame callback sleeps. */
    method Sleep(ps: seq<Packet>)
      requires Valid()
      modifies this`lastTriggerTime, this`fifoRear, this`sync, fifo
      ensures Valid() && sync == AfterTriggers(old(sync), ps)
    {
      var k := 0;
      while k < |ps|
        invariant 0 <= k <= |ps| && Valid() && sync == AfterTriggers(old(sync), ps[..k])
      {
        assert ps[..k + 1][..k] == ps[..k];
        TriggerCB(ps[k]);
        k := k + 1;
      }
      assert ps[..k] == ps;
    }

    /** The polling loop, lines 332-335: it ends when a packet comes in. */
    method Poll(arrivals: seq<seq<Packet>>) returns (pkt: Packet)
      requires Valid() && Polled(sync, arrivals).queue != []
      modifies this`lastTriggerTime, this`fifoFront, this`fifoRear, this`sync, this`gone, fifo
      ensures Valid()
      ensures var s := Polled(old(sync), arrivals); pkt == s.queue[0] && sync == s.(queue := s.queue[1..])
    {
      hide Holds;
      var k := 0;
      var ok;
      ok, pkt := FifoRead();
      while !ok
        invariant Valid() && 0 <= k <= |arrivals|
        invariant if ok then
                    var s := Polled(old(sync), arrivals);
                    s.queue != [] && pkt == s.queue[0] && sync == s.(queue := s.queue[1..])
                  else
                    sync.queue == [] && Polled(sync, arrivals[k..]) == Polled(old(sync), arrivals)
        decreases |arrivals| - k, !ok
      {
        Sleep(arrivals[k]);
        k := k + 1;
        ok, pkt := FifoRead();
      }
    }

    /** The pairing part of the frame callback; `stray` lies in front of the FIFO in memory. If the pairing is
        not lost it waits for a packet, so it comes to its end only if one comes in. */
    method OnFrameCB(now: real, stray: nat, arrivals: seq<seq<Packet>>) returns (frame: Frame)
      requires Valid() && (sync.notSync || Polled(sync, arrivals).queue != [])
      modifies this`lastTriggerTime, this`fifoFront, this`fifoRear, this`receiveTriggerCounter, this`triggerNotSync,
        this`sync, this`gone, fifo
      ensures Valid()
      ensures var s := if old(sync).notSync then old(sync) else Polled(old(sync), arrivals);
              && CanHandle(s) && (sync, frame) == OnFrame(s, now, stray)
              && (frame.Stamped? <==>
                    !s.notSync && s.queue[0].counter == s.expected && now - s.queue[0].time <= 0.013)
              && (frame.Stamped? ==> frame.pkt == s.queue[0] && sync.queue == s.queue[1..] && !sync.notSync)
              && (frame.Dropped? ==> sync.notSync && sync.queue == [])
    {
      hide Holds;
      frame := Dropped;
      if !triggerNotSync {
        PolledKeeps(sync, arrivals);
        var pkt := Poll(arrivals);
        var expected := receiveTriggerCounter;
        receiveTriggerCounter := (receiveTriggerCounter + 1) % COUNTERS;
        sync := sync.(expected := Succ(sync.expected));
        if pkt.counter != expected || now - pkt.time > MAX_DELAY {
          triggerNotSync := true;
          sync := sync.(notSync := true);
        } else {
          frame := Stamped(pkt);
        }
      }
      if triggerNotSync {
        Flush(stray);
      }
    }

    /** Lines 360-366: the FIFO is emptied, and the counter after the last packet is expected. */
    method Flush(stray: nat)
      requires Valid()
      modifies this`fifoFront, this`receiveTriggerCounter, this`sync, this`gone
      ensures Valid() && sync == Resync(old(sync), stray)
    {
      fifoFront := fifoRear;
      var cell := if fifoRear > 0 then fifo[fifoRear - 1].counter else stray;
      receiveTriggerCounter := (cell + 1) % COUNTERS;
      if fifoRear > 0 {
        CellBefore(sync.written);
      }
      gone := sync.written;
      sync := Resync(sync, stray);
    }
  }

  lemma {:induction false} TriggersKeep(s: Sync, ps: seq<Packet>)
    ensures AfterTriggers(s, ps).expected == s.expected && AfterTriggers(s, ps).notSync == s.notSync
  {
    if ps != [] {
      TriggersKeep(s, ps[..|ps| - 1]);
    }
  }

  /** Triggers that come in fill the FIFO behind what is there; those that find it full are lost. */
  lemma {:induction false} TriggersFill(s: Sync, ps: seq<Packet>)
    requires |s.queue| <= 1022
    ensures var room := 1022 - |s.queue|;
            AfterTriggers(s, ps).queue == s.queue + if |ps| <= room then ps else ps[..room]
  {
    if ps != [] {
      TriggersFill(s, ps[..|ps| - 1]);
    }
  }

  /** The frame waits for the first sleep k in which triggers come in, and gets the first of them. */
  lemma {:induction false} PolledIsFirst(s: Sync, arrivals: seq<seq<Packet>>, k: nat)
    requires s.queue == [] && k < |arrivals| && arrivals[k] != [] && forall i | 0 <= i < k :: arrivals[i] == []
    ensures Polled(s, arrivals) == AfterTriggers(s, arrivals[k])
    ensures Polled(s, arrivals).queue != [] && Polled(s, arrivals).queue[0] == arrivals[k][0]
    decreases k
  {
    TriggersFill(s, arrivals[0]);
    hide AfterTriggers;
    if k > 0 {
      assert AfterTriggers(s, arrivals[0]) == s by { NoTriggers(s); }
      PolledIsFirst(s, arrivals[1..], k - 1);
    } else {
      PolledStays(AfterTriggers(s, arrivals[0]), arrivals[1..]);
    }
  }

  lemma NoTriggers(s: Sync)
    ensures AfterTriggers(s, []) == s
  {
  }

  lemma PolledStays(s: Sync, arrivals: seq<seq<Packet>>)
    requires s.queue != []
    ensures Polled(s, arrivals) == s
  {
  }

  /** Waiting changes neither the expected counter nor the state of the pairing. */
  lemma {:induction false} PolledKeeps(s: Sync, arrivals: seq<seq<Packet>>)
    ensures Polled(s, arrivals).expected == s.expected && Polled(s, arrivals).notSync == s.notSync
    decreases |arrivals|
  {
    if s.queue == [] && arrivals != [] {
      TriggersKeep(s, arrivals[0]);
      PolledKeeps(AfterTriggers(s, arrivals[0]), arrivals[1..]);
    }
  }
}
