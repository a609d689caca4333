/**
 Whole runs of the scheduler of benchmarks/richards.js: it stops for every idle count
 and every population of packets, no packet is lost or duplicated, and a task only runs
 when nothing of higher priority can.
 */
module RichardsRun {
  import opened Options
  import opened Richards

  // ----- Termination measure

  ghost function DeviceCount(q: seq<Packet>): nat {
    if q == [] then 0 else (if q[0].kind.DeviceKind? then 1 else 0) + DeviceCount(q[1..])
  }

  /** Work packets whose letters have all been sent. */
  ghost function DoneCount(q: seq<Packet>): nat {
    if q == [] then 0 else (if q[0].a1 >= DATA_SIZE then 1 else 0) + DoneCount(q[1..])
  }

  lemma {:induction false} CountsSnoc(q: seq<Packet>, p: Packet)
    ensures DeviceCount(q + [p]) == DeviceCount(q) + (if p.kind.DeviceKind? then 1 else 0)
    ensures DoneCount(q + [p]) == DoneCount(q) + (if p.a1 >= DATA_SIZE then 1 else 0)
  {
    if q == [] {
      assert [p][1..] == [];
    } else {
      CountsSnoc(q[1..], p);
      assert (q + [p])[1..] == q[1..] + [p];
    }
  }

  lemma {:induction false} DeviceCountBound(q: seq<Packet>)
    ensures DeviceCount(q) <= |q|
  {
    if q != [] {
      DeviceCountBound(q[1..]);
    }
  }

  /** Work packets in a queue. */
  ghost function WorkCount(q: seq<Packet>): nat {
    DeviceCountBound(q);
    |q| - DeviceCount(q)
  }

  /** A device packet held by a released device is about to travel; by a held one, at rest. */
  ghost function SlotRank(t: Tcb, slot: Option<Packet>): nat {
    if slot.Some? && !t.held then 4 else 0
  }

  /** What the packets queued at task k add to the device rank and to the work rank. */
  ghost function QueueDevice(k: int, q: seq<Packet>): nat {
    if k in {HANDLER_A, HANDLER_B} then 3 * DeviceCount(q) else if k >= DEVICE_A then |q| else 0
  }

  ghost function QueueWork(k: int, q: seq<Packet>): nat {
    if k == WORKER then 2 * |q| else if k in {HANDLER_A, HANDLER_B} then WorkCount(q) else 0
  }

  /** How far the device packets are from rest. */
  ghost function DeviceRank(s: State): nat
    requires Shape(s)
  {
    QueueDevice(2, s.tcbs[2].queue) + QueueDevice(3, s.tcbs[3].queue)
    + QueueDevice(4, s.tcbs[4].queue) + QueueDevice(5, s.tcbs[5].queue)
    + 2 * |s.handlers[0].devices| + 2 * |s.handlers[1].devices|
    + SlotRank(s.tcbs[4], s.slots[0]) + SlotRank(s.tcbs[5], s.slots[1])
  }

  /** How far the work packets are from waiting for a device. */
  ghost function WorkRank(s: State): nat
    requires Shape(s)
  {
    QueueWork(1, s.tcbs[1].queue) + QueueWork(2, s.tcbs[2].queue) + QueueWork(3, s.tcbs[3].queue)
    + 3 * DoneCount(s.handlers[0].works) + 3 * DoneCount(s.handlers[1].works)
  }

  ghost function Awake(t: Tcb): nat { if t.suspended then 0 else 1 }

  ghost function AwakeCount(s: State): nat
    requires Shape(s)
  {
    Awake(s.tcbs[1]) + Awake(s.tcbs[2]) + Awake(s.tcbs[3]) + Awake(s.tcbs[4]) + Awake(s.tcbs[5])
  }

  /** s' is below s in the lexicographic order of idle count, device rank, work rank, awake tasks and list position. */
  ghost predicate Below(s': State, s: State)
    requires Shape(s) && Shape(s')
  {
    || s'.count < s.count
    || (s'.count == s.count && (
        || DeviceRank(s') < DeviceRank(s)
        || (DeviceRank(s') == DeviceRank(s) && (
            || WorkRank(s') < WorkRank(s)
            || (WorkRank(s') == WorkRank(s) && (
                || AwakeCount(s') < AwakeCount(s)
                || (AwakeCount(s') == AwakeCount(s) && s'.current < s.current)))))))
  }

  /** What a queued packet adds to the two ranks at its destination. */
  ghost function DeviceWeight(k: int, p: Packet): nat {
    if k in {HANDLER_A, HANDLER_B} then (if p.kind.DeviceKind? then 3 else 0) else if k >= DEVICE_A then 1 else 0
  }

  ghost function WorkWeight(k: int, p: Packet): nat {
    if k == WORKER then 2 else if k in {HANDLER_A, HANDLER_B} && p.kind.WorkKind? then 1 else 0
  }

  lemma QueueSnoc(k: int, q: seq<Packet>, p: Packet)
    ensures QueueDevice(k, q + [p]) == QueueDevice(k, q) + DeviceWeight(k, p)
    ensures QueueWork(k, q + [p]) == QueueWork(k, q) + WorkWeight(k, p)
  {
    CountsSnoc(q, p);
  }

  lemma EnqueueRanks(s: State, p: Packet)
    requires Inv(s) && 0 <= s.current && 0 < p.id < TASKS
    ensures var s' := Enqueue(s, p);
      && s'.count == s.count
      && DeviceRank(s') == DeviceRank(s) + DeviceWeight(p.id, p)
      && WorkRank(s') == WorkRank(s) + WorkWeight(p.id, p)
  {
    var k, q, p' := p.id, s.tcbs[p.id].queue, p.(id := s.currentId);
    QueueSnoc(k, q, p');
    assert q == [] ==> q + [p'] == [p'];
    SetQueueRanks(s, Enqueue(s, p), k);
  }

  /** Only task k's queue differs, so only its share of the ranks does. */
  lemma SetQueueRanks(s: State, s': State, k: int)
    requires Shape(s) && Shape(s') && 0 < k < TASKS && s'.slots == s.slots && s'.handlers == s.handlers
    requires s'.tcbs == s.tcbs[k := s'.tcbs[k]] && s'.tcbs[k].held == s.tcbs[k].held
    ensures DeviceRank(s') - QueueDevice(k, s'.tcbs[k].queue) == DeviceRank(s) - QueueDevice(k, s.tcbs[k].queue)
    ensures WorkRank(s') - QueueWork(k, s'.tcbs[k].queue) == WorkRank(s) - QueueWork(k, s.tcbs[k].queue)
  {
  }

  lemma TakeRanks(s: State)
    requires Inv(s) && 0 < s.current && !HeldOrSuspended(s.tcbs[s.current])
    ensures var (s', packet) := TakePacket(s);
      && s'.count == s.count
      && (packet.None? ==> s' == s)
      && (packet.Some? ==>
            && DeviceRank(s') == DeviceRank(s) - DeviceWeight(s.current, packet.value)
            && WorkRank(s') == WorkRank(s) - WorkWeight(s.current, packet.value))
  {
  }

  lemma SuspendRanks(s: State)
    requires Shape(s) && 0 < s.current && !s.tcbs[s.current].suspended
    ensures var s' := SuspendCurrent(s);
      && s'.count == s.count && s'.current == s.current
      && DeviceRank(s') == DeviceRank(s) && WorkRank(s') == WorkRank(s) && AwakeCount(s') < AwakeCount(s)
  {
  }

  /** Every turn of the loop moves down in the order. */
  lemma StepDecreases(s: State)
    requires Inv(s) && 0 <= s.current
    ensures Inv(Step(s)) && Below(Step(s), s)
  {
    StepInv(s);
    if !HeldOrSuspended(s.tcbs[s.current]) && s.current > 0 {
      TaskDecreases(s);
    }
  }

  lemma TaskDecreases(s: State)
    requires Inv(s) && 0 < s.current && !HeldOrSuspended(s.tcbs[s.current])
    ensures Inv(Step(s)) && Below(Step(s), s)
  {
    var s1 := s.(currentId := s.current);
    assert DeviceRank(s1) == DeviceRank(s) && WorkRank(s1) == WorkRank(s) && AwakeCount(s1) == AwakeCount(s);
    TakeInv(s1);
    TakeRanks(s1);
    var (s2, packet) := TakePacket(s1);
    RunDecreases(s2, packet);
  }

  /** A run took packet and left s': the packet's own share is still to be paid for out of the ranks. */
  ghost predicate RunsDown(s': State, s: State, packet: Option<Packet>)
    requires Shape(s) && Shape(s')
  {
    var d := if packet.Some? then DeviceWeight(s.current, packet.value) else 0;
    var w := if packet.Some? then WorkWeight(s.current, packet.value) else 0;
    && s'.count == s.count
    && (|| DeviceRank(s') < DeviceRank(s) + d
        || (DeviceRank(s') == DeviceRank(s) + d && WorkRank(s') < WorkRank(s) + w)
        || (packet.None? && DeviceRank(s') == DeviceRank(s) && WorkRank(s') == WorkRank(s)
          && AwakeCount(s') < AwakeCount(s)))
  }

  lemma RunDecreases(s: State, packet: Option<Packet>)
    requires Inv(s) && 0 < s.current && Deliverable(s, packet)
    ensures Inv(TaskRun(s, packet)) && RunsDown(TaskRun(s, packet), s, packet)
  {
    TaskInv(s, packet);
    if s.current == WORKER {
      WorkerDecreases(s, packet);
    } else if s.current <= HANDLER_B {
      AcceptSendable(s, packet);
      HandlerDecreases(s, packet);
    } else {
      DeviceDecreases(s, packet);
    }
  }

  lemma WorkerDecreases(s: State, packet: Option<Packet>)
    requires Inv(s) && s.current == WORKER && Deliverable(s, packet)
    ensures Shape(WorkerRun(s, packet)) && RunsDown(WorkerRun(s, packet), s, packet)
  {
    match packet
    case None => SuspendRanks(s);
    case Some(p) =>
      var target := if s.target == HANDLER_A then HANDLER_B else HANDLER_A;
      var data := Letters(s.letter, DATA_SIZE);
      EnqueueRanks(s.(target := target, letter := data.0), p.(id := target, a1 := 0, a2 := data.1));
  }

  lemma DeviceDecreases(s: State, packet: Option<Packet>)
    requires Inv(s) && s.current >= DEVICE_A && Deliverable(s, packet)
    ensures Shape(DeviceRun(s, packet)) && RunsDown(DeviceRun(s, packet), s, packet)
  {
    var d := s.current - DEVICE_A;
    if packet.None? {
      if s.slots[d].None? {
        SuspendRanks(s);
      } else {
        EnqueueRanks(s.(slots := s.slots[d := None]), s.slots[d].value);
      }
    }
  }

  /** Replacing a handler's lists changes only their share. */
  lemma SetHandlerRanks(s: State, i: int, h: Handler)
    requires Shape(s) && 0 <= i < 2
    ensures var s' := s.(handlers := s.handlers[i := h]);
      && DeviceRank(s') - 2 * |h.devices| == DeviceRank(s) - 2 * |s.handlers[i].devices|
      && WorkRank(s') - 3 * DoneCount(h.works) == WorkRank(s) - 3 * DoneCount(s.handlers[i].works)
      && AwakeCount(s') == AwakeCount(s)
  {
  }

  lemma AcceptRanks(h: Handler, k: int, packet: Option<Packet>)
    requires k in {HANDLER_A, HANDLER_B} && (packet.Some? ==> Routed(k, packet.value))
    ensures var h' := Accept(h, packet);
      && |h'.devices| == |h.devices| + (if packet.Some? && packet.value.kind.DeviceKind? then 1 else 0)
      && DoneCount(h'.works) == DoneCount(h.works)
  {
    if packet.Some? {
      CountsSnoc(h.works, packet.value);
    }
  }

  /** The handler's lists after accepting the packet. */
  ghost predicate Accepted(s: State, packet: Option<Packet>, h: Handler) {
    && Inv(s) && s.current in {HANDLER_A, HANDLER_B} && Deliverable(s, packet)
    && h == Accept(s.handlers[s.current - HANDLER_A], packet) && HandlerInv(s.current, h)
  }

  lemma WaitDecreases(s: State, packet: Option<Packet>, h: Handler)
    requires Accepted(s, packet, h)
    ensures var s' := SuspendCurrent(s.(handlers := s.handlers[s.current - HANDLER_A := h])); RunsDown(s', s, packet)
  {
    var i := s.current - HANDLER_A;
    AcceptRanks(s.handlers[i], s.current, packet);
    SetHandlerRanks(s, i, h);
    SuspendRanks(s.(handlers := s.handlers[i := h]));
  }

  lemma SendDecreases(s: State, packet: Option<Packet>, h: Handler)
    requires Accepted(s, packet, h) && h.works != [] && h.devices != [] && InProgress(h.works[0])
      && h.works[0].a1 < DATA_SIZE
    requires HandlerInv(s.current, SendOne(h).0) && SendOne(h).1.kind.DeviceKind? && SendOne(h).1.id == s.current + 2
    ensures var s' := Enqueue(s.(handlers := s.handlers[s.current - HANDLER_A := SendOne(h).0]), SendOne(h).1);
      RunsDown(s', s, packet)
  {
    var i := s.current - HANDLER_A;
    AcceptRanks(s.handlers[i], s.current, packet);
    SetHandlerRanks(s, i, SendOne(h).0);
    SetHandlerInv(s, SendOne(h).0);
    EnqueueRanks(s.(handlers := s.handlers[i := SendOne(h).0]), SendOne(h).1);
  }

  lemma ReturnDecreases(s: State, packet: Option<Packet>, h: Handler)
    requires Accepted(s, packet, h) && h.works != [] && InProgress(h.works[0]) && h.works[0].a1 >= DATA_SIZE
    requires HandlerInv(s.current, h.(works := h.works[1..]))
    ensures var s' := Enqueue(s.(handlers := s.handlers[s.current - HANDLER_A := h.(works := h.works[1..])]),
      h.works[0]);
      RunsDown(s', s, packet)
  {
    var i, h' := s.current - HANDLER_A, h.(works := h.works[1..]);
    AcceptRanks(s.handlers[i], s.current, packet);
    SetHandlerRanks(s, i, h');
    SetHandlerInv(s, h');
    EnqueueRanks(s.(handlers := s.handlers[i := h']), h.works[0]);
  }

  lemma HandlerDecreases(s: State, packet: Option<Packet>)
    requires Inv(s) && s.current in {HANDLER_A, HANDLER_B} && Deliverable(s, packet)
    requires var h := Accept(s.handlers[s.current - HANDLER_A], packet); HandlerInv(s.current, h) && Sendable(h)
    ensures RunsDown(HandlerRun(s, packet), s, packet)
  {
    var h := Accept(s.handlers[s.current - HANDLER_A], packet);
    if h.works == [] || (h.works[0].a1 < DATA_SIZE && h.devices == []) {
      WaitDecreases(s, packet, h);
    } else {
      SendInv(s.current, h);
      if h.works[0].a1 < DATA_SIZE {
        SendDecreases(s, packet, h);
      } else {
        ReturnDecreases(s, packet, h);
      }
    }
  }

  // ----- Conservation

  /** How often a packet occurs in a list. */
  ghost function Names(q: seq<Packet>, n: nat): nat {
    if q == [] then 0 else (if q[0].name == n then 1 else 0) + Names(q[1..], n)
  }

  lemma {:induction false} NamesSnoc(q: seq<Packet>, p: Packet, n: nat)
    ensures Names(q + [p], n) == Names(q, n) + (if p.name == n then 1 else 0)
  {
    if q == [] {
      assert [p][1..] == [];
    } else {
      NamesSnoc(q[1..], p, n);
      assert (q + [p])[1..] == q[1..] + [p];
    }
  }

  ghost function InQueues(ts: seq<Tcb>, n: nat): nat {
    if ts == [] then 0 else Names(ts[0].queue, n) + InQueues(ts[1..], n)
  }

  ghost function InHandlers(hs: seq<Handler>, n: nat): nat {
    if hs == [] then 0 else Names(hs[0].works, n) + Names(hs[0].devices, n) + InHandlers(hs[1..], n)
  }

  ghost function InSlots(ps: seq<Option<Packet>>, n: nat): nat {
    if ps == [] then 0 else OptionNames(ps[0], n) + InSlots(ps[1..], n)
  }

  ghost function OptionNames(p: Option<Packet>, n: nat): nat {
    if p.Some? && p.value.name == n then 1 else 0
  }

  /** Every place a packet can be: a queue, a handler's list, a device's slot. */
  ghost function Everywhere(s: State, n: nat): nat {
    InQueues(s.tcbs, n) + InHandlers(s.handlers, n) + InSlots(s.slots, n)
  }

  lemma {:induction false} SetQueueNames(ts: seq<Tcb>, k: nat, t: Tcb, n: nat)
    requires k < |ts|
    ensures InQueues(ts[k := t], n) + Names(ts[k].queue, n) == InQueues(ts, n) + Names(t.queue, n)
  {
    if k == 0 {
      assert ts[0 := t][1..] == ts[1..];
    } else {
      SetQueueNames(ts[1..], k - 1, t, n);
      assert ts[k := t][1..] == ts[1..][k - 1 := t];
    }
  }

  lemma {:induction false} SetHandlerNames(hs: seq<Handler>, k: nat, h: Handler, n: nat)
    requires k < |hs|
    ensures InHandlers(hs[k := h], n) + Names(hs[k].works, n) + Names(hs[k].devices, n)
         == InHandlers(hs, n) + Names(h.works, n) + Names(h.devices, n)
  {
    if k == 0 {
      assert hs[0 := h][1..] == hs[1..];
    } else {
      SetHandlerNames(hs[1..], k - 1, h, n);
      assert hs[k := h][1..] == hs[1..][k - 1 := h];
    }
  }

  lemma {:induction false} SetSlotNames(ps: seq<Option<Packet>>, k: nat, p: Option<Packet>, n: nat)
    requires k < |ps|
    ensures InSlots(ps[k := p], n) + OptionNames(ps[k], n) == InSlots(ps, n) + OptionNames(p, n)
  {
    if k == 0 {
      assert ps[0 := p][1..] == ps[1..];
    } else {
      SetSlotNames(ps[1..], k - 1, p, n);
      assert ps[k := p][1..] == ps[1..][k - 1 := p];
    }
  }

  lemma EnqueueNames(s: State, p: Packet, n: nat)
    requires Shape(s) && 0 <= s.current && 0 <= p.id < TASKS
    ensures Everywhere(Enqueue(s, p), n) == Everywhere(s, n) + (if p.name == n then 1 else 0)
  {
    var q, p' := s.tcbs[p.id].queue, p.(id := s.currentId);
    NamesSnoc(q, p', n);
    assert q == [] ==> q + [p'] == [p'];
    SetQueueNames(s.tcbs, p.id, Enqueue(s, p).tcbs[p.id], n);
  }

  lemma SameQueueNames(s: State, k: int, t: Tcb, n: nat)
    requires Shape(s) && 0 <= k < TASKS && t.queue == s.tcbs[k].queue
    ensures InQueues(s.tcbs[k := t], n) == InQueues(s.tcbs, n)
  {
    SetQueueNames(s.tcbs, k, t, n);
  }

  lemma TakeNames(s: State, n: nat)
    requires Inv(s) && 0 <= s.current
    ensures var r := TakePacket(s); Everywhere(r.0, n) + OptionNames(r.1, n) == Everywhere(s, n)
  {
    SetQueueNames(s.tcbs, s.current, TakePacket(s).0.tcbs[s.current], n);
  }

  lemma RunNames(s: State, packet: Option<Packet>, n: nat)
    requires Inv(s) && 0 <= s.current && Deliverable(s, packet) && (s.current == IDLE ==> packet.None?)
    ensures Everywhere(TaskRun(s, packet), n) == Everywhere(s, n) + OptionNames(packet, n)
  {
    if s.current == IDLE {
      IdleNames(s, n);
    } else if s.current == WORKER {
      WorkerNames(s, packet, n);
    } else if s.current <= HANDLER_B {
      AcceptSendable(s, packet);
      HandlerNames(s, packet, n);
    } else {
      DeviceNames(s, packet, n);
    }
  }

  lemma IdleNames(s: State, n: nat)
    requires Shape(s) && s.current == IDLE
    ensures Everywhere(IdleRun(s), n) == Everywhere(s, n)
  {
    SameQueueNames(s, IDLE, s.tcbs[IDLE].(held := true), n);
    SameQueueNames(s, DEVICE_A, s.tcbs[DEVICE_A].(held := false), n);
    SameQueueNames(s, DEVICE_B, s.tcbs[DEVICE_B].(held := false), n);
  }

  lemma WorkerNames(s: State, packet: Option<Packet>, n: nat)
    requires Shape(s) && s.current == WORKER
    ensures Everywhere(WorkerRun(s, packet), n) == Everywhere(s, n) + OptionNames(packet, n)
  {
    match packet
    case None => SameQueueNames(s, s.current, s.tcbs[s.current].(suspended := true), n);
    case Some(p) =>
      var target := if s.target == HANDLER_A then HANDLER_B else HANDLER_A;
      var data := Letters(s.letter, DATA_SIZE);
      EnqueueNames(s.(target := target, letter := data.0), p.(id := target, a1 := 0, a2 := data.1), n);
  }

  lemma DeviceNames(s: State, packet: Option<Packet>, n: nat)
    requires Inv(s) && s.current >= DEVICE_A && Deliverable(s, packet)
    ensures Everywhere(DeviceRun(s, packet), n) == Everywhere(s, n) + OptionNames(packet, n)
  {
    var d := s.current - DEVICE_A;
    match packet
    case None =>
      if s.slots[d].None? {
        SameQueueNames(s, s.current, s.tcbs[s.current].(suspended := true), n);
      } else {
        SetSlotNames(s.slots, d, None, n);
        EnqueueNames(s.(slots := s.slots[d := None]), s.slots[d].value, n);
      }
    case Some(p) =>
      SetSlotNames(s.slots, d, packet, n);
      SameQueueNames(s, s.current, s.tcbs[s.current].(held := true), n);
  }

  lemma AcceptNames(h: Handler, packet: Option<Packet>, n: nat)
    ensures var h' := Accept(h, packet);
      Names(h'.works, n) + Names(h'.devices, n) == Names(h.works, n) + Names(h.devices, n) + OptionNames(packet, n)
  {
    if packet.Some? {
      NamesSnoc(h.works, packet.value, n);
      NamesSnoc(h.devices, packet.value, n);
    }
  }

  lemma SendNames(h: Handler, n: nat)
    requires h.works != [] && h.devices != [] && 0 <= h.works[0].a1 < |h.works[0].a2|
    ensures var (h', v) := SendOne(h);
      && Names(h'.works, n) == Names(h.works, n)
      && Names(h'.devices, n) + (if v.name == n then 1 else 0) == Names(h.devices, n)
  {
    assert SendOne(h).0.works[1..] == h.works[1..];
  }

  lemma HandlerNames(s: State, packet: Option<Packet>, n: nat)
    requires Shape(s) && s.current in {HANDLER_A, HANDLER_B}
    requires Sendable(Accept(s.handlers[s.current - HANDLER_A], packet))
    ensures Everywhere(HandlerRun(s, packet), n) == Everywhere(s, n) + OptionNames(packet, n)
  {
    var i := s.current - HANDLER_A;
    var h := Accept(s.handlers[i], packet);
    AcceptNames(s.handlers[i], packet, n);
    assert HandlerHas(h, n) == HandlerHas(s.handlers[i], n) + OptionNames(packet, n);
    if h.works == [] || (h.works[0].a1 < DATA_SIZE && h.devices == []) {
      assert HandlerRun(s, packet) == SuspendCurrent(s.(handlers := s.handlers[i := h]));
      WaitNames(s, i, h, n);
    } else if h.works[0].a1 < DATA_SIZE {
      var (h', v) := SendOne(h);
      assert HandlerRun(s, packet) == Enqueue(s.(handlers := s.handlers[i := h']), v);
      SentNames(s, i, h, n);
    } else {
      assert HandlerRun(s, packet) == Enqueue(s.(handlers := s.handlers[i := h.(works := h.works[1..])]), h.works[0]);
      ReturnedNames(s, i, h, n);
    }
  }

  lemma WaitNames(s: State, i: int, h: Handler, n: nat)
    requires Shape(s) && 0 <= s.current && 0 <= i < 2
    ensures Everywhere(SuspendCurrent(s.(handlers := s.handlers[i := h])), n) ==
      Everywhere(s, n) + HandlerHas(h, n) - HandlerHas(s.handlers[i], n)
  {
    SetHandlerNames(s.handlers, i, h, n);
    SameQueueNames(s, s.current, s.tcbs[s.current].(suspended := true), n);
  }

  lemma SentNames(s: State, i: int, h: Handler, n: nat)
    requires Shape(s) && 0 <= s.current && 0 <= i < 2 && Sendable(h) && h.works != [] && h.works[0].a1 < DATA_SIZE
      && h.devices != []
    ensures var (h', v) := SendOne(h);
      Everywhere(Enqueue(s.(handlers := s.handlers[i := h']), v), n) ==
        Everywhere(s, n) + HandlerHas(h, n) - HandlerHas(s.handlers[i], n)
  {
    var (h', v) := SendOne(h);
    SendNames(h, n);
    PassOnNames(s, i, h', v, n);
  }

  lemma ReturnedNames(s: State, i: int, h: Handler, n: nat)
    requires Shape(s) && 0 <= s.current && 0 <= i < 2 && Sendable(h) && h.works != []
    ensures Everywhere(Enqueue(s.(handlers := s.handlers[i := h.(works := h.works[1..])]), h.works[0]), n)
      == Everywhere(s, n) + HandlerHas(h, n) - HandlerHas(s.handlers[i], n)
  {
    PassOnNames(s, i, h.(works := h.works[1..]), h.works[0], n);
  }

  ghost function HandlerHas(h: Handler, n: nat): nat {
    Names(h.works, n) + Names(h.devices, n)
  }

  /** A handler keeps h and queues p. */
  lemma PassOnNames(s: State, i: int, h: Handler, p: Packet, n: nat)
    requires Shape(s) && 0 <= s.current && 0 <= i < 2 && 0 <= p.id < TASKS
    ensures Everywhere(Enqueue(s.(handlers := s.handlers[i := h]), p), n) ==
      Everywhere(s, n) + HandlerHas(h, n) - HandlerHas(s.handlers[i], n) + (if p.name == n then 1 else 0)
  {
    SetHandlerNames(s.handlers, i, h, n);
    EnqueueNames(s.(handlers := s.handlers[i := h]), p, n);
  }

  /** No turn of the loop loses, duplicates or overwrites a packet. */
  lemma StepConserves(s: State, n: nat)
    requires Inv(s) && 0 <= s.current
    ensures Everywhere(Step(s), n) == Everywhere(s, n)
  {
    if !HeldOrSuspended(s.tcbs[s.current]) {
      var s1 := s.(currentId := s.current);
      TakeInv(s1);
      TakeNames(s1, n);
      var (s2, packet) := TakePacket(s1);
      RunNames(s2, packet, n);
    }
  }

  // ----- The worker's data

  /** The worker writes the letters after the last one it used, going round after 26. */
  lemma {:induction false} LettersCycle(v: int, n: nat, k: nat)
    requires 0 <= v <= 26 && k < n
    ensures Letters(v, n).1[k] == (v + k) % 26 + 1 && Letters(v, n).0 == (v + n - 1) % 26 + 1
    decreases n
  {
    var v1 := if v + 1 > 26 then 1 else v + 1;
    assert v1 == v % 26 + 1;
    if n > 1 {
      var k1 := if k > 0 then k - 1 else 0;
      LettersCycle(v1, n - 1, k1);
      RoundAgain(v, k1);
      RoundAgain(v, n - 2);
    }
  }

  lemma RoundAgain(v: int, k: nat)
    requires 0 <= v
    ensures ((v % 26 + 1) + k) % 26 == (v + 1 + k) % 26
  {
  }

  // ----- Whole runs

  /** The states a run goes through, one per turn of the loop. */
  ghost predicate Run(ss: seq<State>) {
    && |ss| > 0 && Inv(ss[0])
    && forall i :: 0 <= i < |ss| - 1 ==> Inv(ss[i]) && 0 <= ss[i].current && ss[i + 1] == Step(ss[i])
  }

  ghost predicate RunTo(ss: seq<State>, s0: State, s: State) {
    Run(ss) && ss[0] == s0 && ss[|ss| - 1] == s
  }

  /** One turn more. */
  lemma RunFurther(ss: seq<State>, s0: State, s: State)
    requires RunTo(ss, s0, s) && Inv(s) && 0 <= s.current
    ensures RunTo(ss + [Step(s)], s0, Step(s))
  {
    var tt := ss + [Step(s)];
    forall i | 0 <= i < |tt| - 1 ensures Inv(tt[i]) && 0 <= tt[i].current && tt[i + 1] == Step(tt[i]) {
      if i < |ss| - 1 { assert tt[i] == ss[i] && tt[i + 1] == ss[i + 1]; }
    }
  }

  /** Along every run every packet stays in as many places as it started in. */
  lemma {:induction false} RunConserves(ss: seq<State>, i: nat, n: nat)
    requires Run(ss) && i < |ss|
    ensures Inv(ss[i]) && Everywhere(ss[i], n) == Everywhere(ss[0], n)
  {
    if i > 0 {
      RunConserves(ss, i - 1, n);
      StepInv(ss[i - 1]);
      StepConserves(ss[i - 1], n);
    }
  }

  /** Whenever a task runs, every task of higher priority is held or has nothing to do. */
  lemma DispatchesHighest(ss: seq<State>, i: nat)
    requires Run(ss) && i < |ss|
    ensures Inv(ss[i]) && DispatchedHighest(ss[i])
  {
    RunConserves(ss, i, 0);
  }

  /** If the current task is about to run, no unblocked task has higher priority. */
  ghost predicate DispatchedHighest(s: State) {
    Shape(s) && (0 <= s.current && !HeldOrSuspended(s.tcbs[s.current]) ==>
      forall k :: 0 <= k < TASKS && !HeldOrSuspended(s.tcbs[k]) ==> k <= s.current)
  }

  /** The state runRichards builds, for any idle count and any packets of the right kinds. */
  ghost predicate Initial(s: State) {
    && Shape(s) && s.current == DEVICE_B && s.count >= 1 && s.queueCount == 0 && s.holdCount == 0
    && s.seed == 1 && s.target == HANDLER_A && s.letter == 0
    && s.tcbs[IDLE] == Tcb(false, false, false, [])
    && (forall k :: 0 < k < TASKS ==>
      !s.tcbs[k].held && s.tcbs[k].suspended && (s.tcbs[k].runnable <==> s.tcbs[k].queue != []))
    && (forall i :: 0 <= i < |s.tcbs[WORKER].queue| ==> s.tcbs[WORKER].queue[i].kind.WorkKind?)
    && (forall k, i :: HANDLER_A <= k <= HANDLER_B && 0 <= i < |s.tcbs[k].queue| ==>
          s.tcbs[k].queue[i].kind.DeviceKind? && s.tcbs[k].queue[i].id == k + 2)
    && s.tcbs[DEVICE_A].queue == [] && s.tcbs[DEVICE_B].queue == []
    && s.slots == [None, None] && s.handlers == [Handler([], []), Handler([], [])]
  }

  lemma InitialInv(s: State)
    requires Initial(s)
    ensures Inv(s)
  {
  }

  /** Starting the loop with every packet in one place, each is in exactly one place in every state. */
  lemma EachInOnePlace(ss: seq<State>, i: nat, n: nat)
    requires Run(ss) && i < |ss| && Everywhere(ss[0], n) == 1
    ensures Everywhere(ss[i], n) == 1
  {
    RunConserves(ss, i, n);
  }
}
