/**
 benchmarks/richards.js:94-248, 320-491: the scheduler as objects that are updated in place:
 control blocks with state bits, packets threaded through their links, the tasks' variables.
 Shows relates them to a state of the state machine; every operation of the code on the
 objects is the operation of the state machine on what they show.
 */
module RichardsScheduler {
  import opened Options
  import opened Richards
  import opened RichardsRun
  import opened RichardsTurns
  import opened TaskBlocks
  import RichardsSeed
  import L = PacketLinks
  import PL = PacketLists

  // ----- A state, place by place

  function Slot(p: Option<Packet>): seq<Packet> {
    if p.None? then [] else [p.value]
  }

  /** What the state machine has in place k. */
  function InPlace(s: State, k: int): seq<Packet>
    requires Shape(s) && 0 <= k < PL.PLACES
  {
    if k < PL.WORKS then s.tcbs[k].queue
    else if k < PL.DEVICES then s.handlers[k - PL.WORKS].works
    else if k < PL.SLOTS then s.handlers[k - PL.DEVICES].devices
    else Slot(s.slots[k - PL.SLOTS])
  }

  function Places(s: State): (r: seq<seq<Packet>>)
    requires Shape(s)
    ensures |r| == PL.PLACES && forall k :: 0 <= k < PL.PLACES ==> r[k] == InPlace(s, k)
  {
    seq(PL.PLACES, k requires 0 <= k < PL.PLACES => InPlace(s, k))
  }

  function TcbBits(t: Tcb): Bits { Bits(t.held, t.suspended, t.runnable) }

  function AllBits(s: State): (r: seq<Bits>)
    requires Shape(s)
    ensures |r| == TASKS && forall k :: 0 <= k < TASKS ==> r[k] == TcbBits(s.tcbs[k])
  {
    seq(TASKS, k requires 0 <= k < TASKS => TcbBits(s.tcbs[k]))
  }

  /** Other bits in block k move no packet. */
  lemma BitsPlaces(s: State, s': State, k: int)
    requires Shape(s) && Shape(s') && s.handlers == s'.handlers && s.slots == s'.slots && 0 <= k < TASKS
    requires forall j :: 0 <= j < TASKS ==> s.tcbs[j].queue == s'.tcbs[j].queue && (j != k ==> s.tcbs[j] == s'.tcbs[j])
    ensures Places(s') == Places(s) && AllBits(s') == AllBits(s)[k := TcbBits(s'.tcbs[k])]
  {
  }

  /** Another block k. */
  lemma TcbPlaces(s: State, s': State, k: int)
    requires Shape(s) && Shape(s') && s.handlers == s'.handlers && s.slots == s'.slots && 0 <= k < TASKS
    requires forall j :: 0 <= j < TASKS && j != k ==> s.tcbs[j] == s'.tcbs[j]
    ensures Places(s') == Places(s)[k := s'.tcbs[k].queue] && AllBits(s') == AllBits(s)[k := TcbBits(s'.tcbs[k])]
  {
  }

  lemma EnqueuePlaces(s: State, p: Packet)
    requires Shape(s) && 0 <= s.current && 0 <= p.id < TASKS
    ensures var k, s' := p.id, Enqueue(s, p);
      && Shape(s') && s' == s.(tcbs := s'.tcbs, queueCount := s.queueCount + 1, current := s'.current)
      && Places(s') == Places(s)[k := Places(s)[k] + [p.(id := s.currentId)]]
      && AllBits(s') == AllBits(s)[k := if Places(s)[k] == [] then AllBits(s)[k].(runnable := true) else AllBits(s)[k]]
      && s'.current == if Places(s)[k] == [] && k > s.current then k else s.current
  {
    var s' := Enqueue(s, p);
    TcbPlaces(s, s', p.id);
    assert Places(s)[p.id] == s.tcbs[p.id].queue;
    assert s'.tcbs[p.id].queue == s.tcbs[p.id].queue + [p.(id := s.currentId)];
  }

  /** Counters and the tasks' variables are in no place. */
  lemma SamePlaces(s: State, s': State)
    requires Shape(s) && Shape(s') && s.tcbs == s'.tcbs && s.handlers == s'.handlers && s.slots == s'.slots
    ensures Places(s') == Places(s) && AllBits(s') == AllBits(s)
  {
  }

  lemma TakePlaces(s: State)
    requires Shape(s) && 0 <= s.current && (s.tcbs[s.current].runnable <==> s.tcbs[s.current].queue != [])
    ensures var c, (s', packet) := s.current, TakePacket(s);
      && Shape(s') && s' == s.(tcbs := s'.tcbs) && (packet.Some? <==> AllBits(s)[c] == Bits(false, true, true))
      && (packet.None? ==> s' == s)
      && (packet.Some? ==> Places(s)[c] != [] && packet.value == Places(s)[c][0])
      && (packet.Some? ==> Places(s') == Places(s)[c := Places(s)[c][1..]])
      && (packet.Some? ==> AllBits(s') == AllBits(s)[c := Bits(false, false, Places(s)[c][1..] != [])])
  {
    var (s', packet) := TakePacket(s);
    if packet.Some? { TcbPlaces(s, s', s.current); }
  }

  lemma HandlerPlaces(s: State, i: int, h: Handler)
    requires Shape(s) && 0 <= i < 2
    ensures Places(s.(handlers := s.handlers[i := h])) ==
      Places(s)[PL.WORKS + i := h.works][PL.DEVICES + i := h.devices]
    ensures AllBits(s.(handlers := s.handlers[i := h])) == AllBits(s)
  {
  }

  lemma SendPlaces(s: State, i: int)
    requires Shape(s) && 0 <= i < 2 && Sendable(s.handlers[i])
    requires s.handlers[i].works != [] && s.handlers[i].works[0].a1 < DATA_SIZE && s.handlers[i].devices != []
    ensures var (h, v) := SendOne(s.handlers[i]); var kw, kd, all := PL.WORKS + i, PL.DEVICES + i, Places(s);
      && all[kw] == s.handlers[i].works && all[kd] == s.handlers[i].devices
        && v == all[kd][0].(a1 := all[kw][0].a2[all[kw][0].a1])
      && Places(s.(handlers := s.handlers[i := h])) ==
        all[kd := all[kd][1..]][kw := [all[kw][0].(a1 := all[kw][0].a1 + 1)] + all[kw][1..]]
      && AllBits(s.(handlers := s.handlers[i := h])) == AllBits(s) && 0 <= v.id < TASKS
  {
    var (h, _) := SendOne(s.handlers[i]);
    HandlerPlaces(s, i, h);
  }

  lemma SlotPlaces(s: State, d: int, p: Option<Packet>)
    requires Shape(s) && 0 <= d < 2
    ensures Places(s.(slots := s.slots[d := p])) == Places(s)[PL.SLOTS + d := Slot(p)]
    ensures AllBits(s.(slots := s.slots[d := p])) == AllBits(s)
  {
  }

  ghost function Index(t: TaskControlBlock?): int {
    if t == null then -1 else t.id
  }

  /** The packet a task is given, if any. */
  ghost function Given(p: L.Packet?): Option<Packet>
    reads if p == null then {} else {p}
  {
    if p == null then None else Some(L.Val(p))
  }

  /** The blocks are linked from id 5 down to id 0, which is descending priority. */
  ghost predicate InOrder(blocks: seq<TaskControlBlock>) {
    && |blocks| == TASKS
    && (forall k :: 0 <= k < TASKS ==> blocks[k].id == k && blocks[k].priority == 1000 * k)
    && (forall k :: 0 <= k < TASKS ==> LinkOk(blocks, k))
  }

  ghost predicate LinkOk(blocks: seq<TaskControlBlock>, k: int)
    requires 0 <= k < |blocks|
  {
    blocks[k].link == if k == 0 then null else blocks[k - 1]
  }

  /** The tasks are added one by one, each in front of the list; a task with a queue is runnable from the start. */
  method AddTasks(worker: bool, handlerA: bool, handlerB: bool) returns (blocks: seq<TaskControlBlock>)
    ensures InOrder(blocks) && fresh(blocks)
    ensures BitsOf(blocks[0].state) == Bits(false, false, false)
    ensures forall k :: 0 < k < TASKS ==>
      BitsOf(blocks[k].state) == Bits(false, true,
        if k == 1 then worker else if k == 2 then handlerA else if k == 3 then handlerB else false)
  {
    var idle := new TaskControlBlock(null, IDLE, 0, false);
    idle.SetRunning();
    var work := new TaskControlBlock(idle, WORKER, 1000, worker);
    var a := new TaskControlBlock(work, HANDLER_A, 2000, handlerA);
    var b := new TaskControlBlock(a, HANDLER_B, 3000, handlerB);
    var deviceA := new TaskControlBlock(b, DEVICE_A, 4000, false);
    var deviceB := new TaskControlBlock(deviceA, DEVICE_B, 5000, false);
    blocks := [idle, work, a, b, deviceA, deviceB];
  }

  lemma RunFacts(ss: seq<State>, s0: State, s: State)
    requires RunTo(ss, s0, s)
    ensures Shape(s0) && Shape(s) && forall n: nat :: Everywhere(s, n) == Everywhere(s0, n)
    ensures forall i :: 0 <= i < |ss| ==> DispatchedHighest(ss[i])
  {
    DispatchesHighest(ss, |ss| - 1);
    forall n: nat ensures Everywhere(s, n) == Everywhere(s0, n) {
      RunConserves(ss, |ss| - 1, n);
    }
    forall i | 0 <= i < |ss| ensures DispatchedHighest(ss[i]) {
      DispatchesHighest(ss, i);
    }
  }

  class Scheduler {
    const blocks: seq<TaskControlBlock>
    const list: TaskControlBlock
    const lists: PL.Lists
    var currentTcb: TaskControlBlock?
    var currentId: int
    var queueCount: nat
    var holdCount: nat
    var seed: int       // v1 of the idle task
    var count: int
    var target: int     // v1 of the worker
    var letter: int     // v2 of the worker
    ghost var bits: seq<Bits>

    ghost predicate Linked() {
      InOrder(blocks) && list == blocks[TASKS - 1]
    }

    ghost predicate IsBlock(t: TaskControlBlock?) {
      t != null ==> 0 <= t.id < |blocks| && t == blocks[t.id]
    }

    /** bits is what the blocks' states encode. */
    ghost predicate Encoded()
      requires |blocks| == TASKS
      reads this`bits, (set b | b in blocks)`state
    {
      |bits| == TASKS && forall k :: 0 <= k < TASKS ==> bits[k] == BitsOf(blocks[k].state)
    }

    /** The blocks are in order and the loop is at one of them, or at the end. */
    ghost predicate Ready()
      reads this`currentTcb, this`bits, (set b | b in blocks)`state
    {
      Linked() && IsBlock(currentTcb) && Encoded()
    }

    ghost predicate Valid(hand: L.Packet?)
      reads this`currentTcb, this`bits, (set b | b in blocks)`state, lists, lists.cells
    {
      Ready() && lists.Valid(hand)
    }

    constructor (count: int, lists: PL.Lists)
      requires lists.Valid(null) && StartsWith(lists.contents)
      ensures Valid(null) && this.lists == lists && Shows(StartState(count, lists.contents), list) && fresh(blocks)
    {
      lists.HeadIsFirst(WORKER, null);
      lists.HeadIsFirst(HANDLER_A, null);
      lists.HeadIsFirst(HANDLER_B, null);
      var bs := AddTasks(lists.heads[WORKER] != null, lists.heads[HANDLER_A] != null, lists.heads[HANDLER_B] != null);
      StartPlaces(count, lists.contents);
      blocks, bits := bs, AllBits(StartState(count, lists.contents));
      list, currentTcb := bs[TASKS - 1], bs[TASKS - 1];
      this.lists := lists;
      currentId, queueCount, holdCount := IDLE, 0, 0;
      seed, this.count, target, letter := 1, count, HANDLER_A, 0;
    }

    // ----- What the objects show

    ghost predicate VariablesShow(s: State)
      reads this`currentId, this`queueCount, this`holdCount, this`seed, this`count, this`target, this`letter
    {
      && s.seed == seed && s.count == count && s.target == target && s.letter == letter
      && s.currentId == currentId && s.queueCount == queueCount && s.holdCount == holdCount
    }

    /** The objects show state s, with the loop at block t. */
    ghost predicate Shows(s: State, t: TaskControlBlock?)
      reads this, lists`contents
    {
      && Shape(s) && s.current == Index(t) && VariablesShow(s)
      && bits == AllBits(s) && lists.contents == Places(s)
    }

    // ----- The scheduler's operations; each returns the block to go on with

    method SuspendCurrent(ghost s: State) returns (next: TaskControlBlock?)
      requires Ready() && currentTcb != null && Shows(s, currentTcb)
      modifies this`bits, (set b | b in blocks)`state
      ensures Ready() && IsBlock(next) && Shows(Richards.SuspendCurrent(s), next)
    {
      ghost var c := s.current;
      BitsPlaces(s, Richards.SuspendCurrent(s), c);
      currentTcb.MarkAsSuspended();
      bits := bits[c := BitsOf(currentTcb.state)];
      next := currentTcb;
    }

    method HoldCurrent(ghost s: State) returns (next: TaskControlBlock?)
      requires Ready() && currentTcb != null && Shows(s, currentTcb)
      modifies this`holdCount, this`bits, (set b | b in blocks)`state
      ensures Ready() && IsBlock(next) && Shows(Richards.HoldCurrent(s), next)
    {
      ghost var c := s.current;
      BitsPlaces(s, Richards.HoldCurrent(s), c);
      holdCount := holdCount + 1;
      currentTcb.MarkAsHeld();
      bits := bits[c := BitsOf(currentTcb.state)];
      assert LinkOk(blocks, c);
      next := currentTcb.link;
    }

    method Release(id: int, ghost s: State) returns (next: TaskControlBlock?)
      requires Ready() && currentTcb != null && 0 <= id < TASKS && Shows(s, currentTcb)
      modifies this`bits, (set b | b in blocks)`state
      ensures Ready() && IsBlock(next) && Shows(Richards.Release(s, id), next)
    {
      BitsPlaces(s, Richards.Release(s, id), id);
      var tcb := blocks[id];
      tcb.MarkAsNotHeld();
      bits := bits[id := BitsOf(tcb.state)];
      next := if tcb.priority > currentTcb.priority then tcb else currentTcb;
    }

    /**
     Appends to the queue of t; a queue that was empty makes the task runnable, and it goes on
     if it has higher priority.
     */
    method CheckPriorityAdd(t: TaskControlBlock, task: TaskControlBlock, packet: L.Packet)
        returns (next: TaskControlBlock?)
      requires Valid(packet) && IsBlock(t) && IsBlock(task)
      modifies this`bits, t`state, lists, lists.cells`link
      ensures Valid(null)
      ensures var k, all := t.id, old(lists.contents);
        && lists.contents == all[k := all[k] + [L.Val(packet)]]
        && bits == old(bits)[k := if all[k] == [] then old(bits)[k].(runnable := true) else old(bits)[k]]
        && next == if all[k] == [] && k > task.id then t else task
    {
      lists.HeadIsFirst(t.id, packet);
      var empty := lists.heads[t.id] == null;
      lists.PutLast(t.id, packet);
      next := task;
      if empty {
        t.MarkAsRunnable();
        bits := bits[t.id := BitsOf(t.state)];
        if t.priority > task.priority { next := t; }
      }
    }

    /** The packet goes to the task it is addressed to, with the sender's id in place of the address. */
    method Queue(packet: L.Packet, ghost s: State) returns (next: TaskControlBlock?)
      requires Valid(packet) && currentTcb != null && 0 <= packet.id < TASKS && Shows(s, currentTcb)
      modifies this`queueCount, this`bits, lists, lists.cells, (set b | b in blocks)`state
      ensures Valid(null) && IsBlock(next) && Shows(Enqueue(s, old(L.Val(packet))), next)
    {
      EnqueuePlaces(s, L.Val(packet));
      var t := blocks[packet.id];
      queueCount := queueCount + 1;
      lists.WriteHand(packet, null, currentId, packet.a1, packet.a2);
      next := CheckPriorityAdd(t, currentTcb, packet);
    }

    /** A suspended task with a packet is woken up with it. */
    method TakeCurrent(ghost s: State) returns (packet: L.Packet?)
      requires Valid(null) && currentTcb != null && Shows(s, currentTcb)
      requires s.tcbs[s.current].runnable <==> s.tcbs[s.current].queue != []
      modifies this`bits, lists, (set b | b in blocks)`state
      ensures Valid(packet) && Shows(TakePacket(s).0, currentTcb) && Given(packet) == TakePacket(s).1
    {
      TakePlaces(s);
      var c := currentTcb.id;
      var ready := currentTcb.IsSuspendedRunnable();
      if !ready { return null; }
      var more;
      packet, more := lists.TakeFirst(c);
      currentTcb.WakeUp(more);
      bits := bits[c := BitsOf(currentTcb.state)];
    }

    // ----- The four tasks

    method RunIdle(ghost s: State) returns (next: TaskControlBlock?)
      requires Ready() && currentTcb != null && currentTcb.id == IDLE && Shows(s, currentTcb)
      modifies this`count, this`seed, this`holdCount, this`bits, (set b | b in blocks)`state
      ensures Ready() && IsBlock(next) && Shows(IdleRun(s), next)
    {
      count := count - 1;
      ghost var s1 := s.(count := count);
      SamePlaces(s, s1);
      if count == 0 {
        assert IdleRun(s) == Richards.HoldCurrent(s1);
        next := HoldCurrent(s1);
      } else {
        next := ReleaseDevice(s, s1);
      }
    }

    /** The next bit of the seed chooses the device. */
    method ReleaseDevice(ghost s0: State, ghost s: State) returns (next: TaskControlBlock?)
      requires Ready() && currentTcb != null && currentTcb.id == IDLE && Shows(s, currentTcb)
      requires s == s0.(count := s0.count - 1) && s.count != 0
      modifies this`seed, this`bits, (set b | b in blocks)`state
      ensures Ready() && IsBlock(next) && Shows(IdleRun(s0), next)
    {
      var id := if RichardsSeed.Odd(seed) then DEVICE_B else DEVICE_A;
      seed := RichardsSeed.NextSeed(seed);
      ghost var s1 := s.(seed := seed);
      SamePlaces(s, s1);
      next := Release(id, s1);
    }

    method RunWorker(packet: L.Packet?, ghost s: State) returns (next: TaskControlBlock?)
      requires Valid(packet) && currentTcb != null && currentTcb.id == WORKER && Shows(s, currentTcb)
      modifies this`target, this`letter, this`queueCount, this`bits, lists, lists.cells, (set b | b in blocks)`state
      ensures Valid(null) && IsBlock(next) && Shows(WorkerRun(s, old(Given(packet))), next)
    {
      if packet == null {
        next := SuspendCurrent(s);
      } else {
        next := SendWork(packet, s);
      }
    }

    method SendWork(packet: L.Packet, ghost s: State) returns (next: TaskControlBlock?)
      requires Valid(packet) && currentTcb != null && currentTcb.id == WORKER && Shows(s, currentTcb)
      modifies this`target, this`letter, this`queueCount, this`bits, lists, lists.cells, (set b | b in blocks)`state
      ensures Valid(null) && IsBlock(next) && Shows(WorkerRun(s, Some(old(L.Val(packet)))), next)
    {
      target := if target == HANDLER_A then HANDLER_B else HANDLER_A;
      var data;
      letter, data := NextLetters(letter);
      ghost var s1 := s.(target := target, letter := letter);
      SamePlaces(s, s1);
      lists.WriteHand(packet, packet.link, target, 0, data);
      next := Queue(packet, s1);
    }

    /** The worker's loop over the data fields. */
    static method NextLetters(v0: int) returns (v: int, data: seq<int>)
      ensures (v, data) == Letters(v0, DATA_SIZE)
    {
      v, data := v0, [];
      var i := 0;
      while i < DATA_SIZE
        invariant 0 <= i <= DATA_SIZE
        invariant Letters(v0, DATA_SIZE).0 == Letters(v, DATA_SIZE - i).0
        invariant Letters(v0, DATA_SIZE).1 == data + Letters(v, DATA_SIZE - i).1
      {
        v := v + 1;
        if v > 26 { v := 1; }
        assert data + ([v] + Letters(v, DATA_SIZE - i - 1).1) == data + [v] + Letters(v, DATA_SIZE - i - 1).1;
        data := data + [v];
        i := i + 1;
      }
      assert data + [] == data;
    }

    /** A packet goes into the slot, which is empty; without one, the packet in the slot goes on to its addressee. */
    method RunDevice(packet: L.Packet?, ghost s: State) returns (next: TaskControlBlock?)
      requires Valid(packet) && currentTcb != null && currentTcb.id >= DEVICE_A && Shows(s, currentTcb)
      requires packet != null ==> s.slots[currentTcb.id - DEVICE_A].None?
      requires s.slots[currentTcb.id - DEVICE_A].Some? ==> 0 <= s.slots[currentTcb.id - DEVICE_A].value.id < TASKS
      modifies this`queueCount, this`holdCount, this`bits, lists, lists.cells, (set b | b in blocks)`state
      ensures Valid(null) && IsBlock(next) && Shows(DeviceRun(s, old(Given(packet))), next)
    {
      if packet != null {
        var d := currentTcb.id - DEVICE_A;
        SlotPlaces(s, d, Given(packet));
        ghost var s1 := s.(slots := s.slots[d := Given(packet)]);
        lists.PutInSlot(PL.SLOTS + d, packet);
        next := HoldCurrent(s1);
      } else {
        next := EmptySlot(s);
      }
    }

    method EmptySlot(ghost s: State) returns (next: TaskControlBlock?)
      requires Valid(null) && currentTcb != null && currentTcb.id >= DEVICE_A && Shows(s, currentTcb)
      requires s.slots[currentTcb.id - DEVICE_A].Some? ==> 0 <= s.slots[currentTcb.id - DEVICE_A].value.id < TASKS
      modifies this`queueCount, this`bits, lists, lists.cells, (set b | b in blocks)`state
      ensures Valid(null) && IsBlock(next) && Shows(DeviceRun(s, None), next)
    {
      var d := currentTcb.id - DEVICE_A;
      lists.HeadIsFirst(PL.SLOTS + d, null);
      assert Places(s)[PL.SLOTS + d] == Slot(s.slots[d]);
      if lists.heads[PL.SLOTS + d] == null {
        next := SuspendCurrent(s);
      } else {
        var v, s1 := TakeFromSlot(d, s);
        next := Queue(v, s1);
      }
    }

    method TakeFromSlot(d: int, ghost s: State) returns (v: L.Packet, ghost s1: State)
      requires Valid(null) && 0 <= d < 2 && Shows(s, currentTcb) && s.slots[d].Some?
      modifies lists
      ensures Valid(v) && Shows(s1, currentTcb) && L.Val(v) == s.slots[d].value
      ensures s1 == s.(slots := s.slots[d := None])
    {
      SlotPlaces(s, d, None);
      s1 := s.(slots := s.slots[d := None]);
      var more;
      v, more := lists.TakeFirst(PL.SLOTS + d);
    }

    /** The packet joins the handler's list for its kind. */
    method AcceptPacket(packet: L.Packet?, ghost s: State)
      requires Valid(packet) && currentTcb != null && currentTcb.id in {HANDLER_A, HANDLER_B} && Shows(s, currentTcb)
      modifies lists, lists.cells`link
      ensures var i := currentTcb.id - HANDLER_A; var h := Accept(s.handlers[i], old(Given(packet)));
        Valid(null) && Shows(s.(handlers := s.handlers[i := h]), currentTcb)
    {
      var i := currentTcb.id - HANDLER_A;
      HandlerPlaces(s, i, Accept(s.handlers[i], Given(packet)));
      if packet != null {
        if packet.kind == WorkKind {
          lists.PutLast(PL.WORKS + i, packet);
        } else {
          lists.PutLast(PL.DEVICES + i, packet);
        }
      }
    }

    /** Sends the next letter of the first work packet with the first device packet. */
    method SendLetter(ghost s: State) returns (next: TaskControlBlock?)
      requires Valid(null) && currentTcb != null && currentTcb.id in {HANDLER_A, HANDLER_B} && Shows(s, currentTcb)
      requires var h := s.handlers[currentTcb.id - HANDLER_A];
        Sendable(h) && h.works != [] && h.works[0].a1 < DATA_SIZE && h.devices != []
      modifies this`queueCount, this`bits, lists, lists.cells, (set b | b in blocks)`state
      ensures Valid(null) && IsBlock(next) && Shows(HandlerRun(s, None), next)
    {
      HandlerSends(s);
      var v, s1 := TakeDevicePacket(currentTcb.id - HANDLER_A, s);
      next := Queue(v, s1);
    }

    /** The first device packet leaves its list with the letter; s1 is the state without it. */
    method TakeDevicePacket(i: int, ghost s: State) returns (v: L.Packet, ghost s1: State)
      requires Valid(null) && 0 <= i < 2 && Shows(s, currentTcb)
      requires var h := s.handlers[i]; Sendable(h) && h.works != [] && h.works[0].a1 < DATA_SIZE && h.devices != []
      modifies lists, lists.cells
      ensures Valid(v) && Shows(s1, currentTcb) && L.Val(v) == SendOne(s.handlers[i]).1 && 0 <= v.id < TASKS
      ensures s1 == s.(handlers := s.handlers[i := SendOne(s.handlers[i]).0])
    {
      SendPlaces(s, i);
      s1 := s.(handlers := s.handlers[i := SendOne(s.handlers[i]).0]);
      v := lists.TakeWithLetter(PL.WORKS + i, PL.DEVICES + i);
    }

    /** The first work packet, all its letters sent, goes back to the worker. */
    method ReturnWork(ghost s: State) returns (next: TaskControlBlock?)
      requires Valid(null) && currentTcb != null && currentTcb.id in {HANDLER_A, HANDLER_B} && Shows(s, currentTcb)
      requires var h := s.handlers[currentTcb.id - HANDLER_A];
        Sendable(h) && h.works != [] && h.works[0].a1 >= DATA_SIZE
      modifies this`queueCount, this`bits, lists, lists.cells, (set b | b in blocks)`state
      ensures Valid(null) && IsBlock(next) && Shows(HandlerRun(s, None), next)
    {
      HandlerReturns(s);
      var i := currentTcb.id - HANDLER_A;
      ghost var h := s.handlers[i].(works := s.handlers[i].works[1..]);
      HandlerPlaces(s, i, h);
      var v, _ := lists.TakeFirst(PL.WORKS + i);
      next := Queue(v, s.(handlers := s.handlers[i := h]));
    }

    method RunHandler(packet: L.Packet?, ghost s: State) returns (next: TaskControlBlock?)
      requires Valid(packet) && currentTcb != null && currentTcb.id in {HANDLER_A, HANDLER_B} && Shows(s, currentTcb)
      requires Sendable(Accept(s.handlers[currentTcb.id - HANDLER_A], Given(packet)))
      modifies this`queueCount, this`bits, lists, lists.cells, (set b | b in blocks)`state
      ensures Valid(null) && IsBlock(next) && Shows(HandlerRun(s, old(Given(packet))), next)
    {
      var i := currentTcb.id - HANDLER_A;
      ghost var h := Accept(s.handlers[i], Given(packet));
      ghost var s1 := s.(handlers := s.handlers[i := h]);
      AcceptThenRun(s, Given(packet));
      AcceptPacket(packet, s);
      next := Handle(s1);
    }

    /** What a handler does once a packet has joined its lists. */
    method Handle(ghost s: State) returns (next: TaskControlBlock?)
      requires Valid(null) && currentTcb != null && currentTcb.id in {HANDLER_A, HANDLER_B} && Shows(s, currentTcb)
      requires Sendable(s.handlers[currentTcb.id - HANDLER_A])
      modifies this`queueCount, this`bits, lists, lists.cells, (set b | b in blocks)`state
      ensures Valid(null) && IsBlock(next) && Shows(HandlerRun(s, None), next)
    {
      var i := currentTcb.id - HANDLER_A;
      var wait, send := Choose(i, s);
      if wait {
        HandlerWaits(s);
        next := SuspendCurrent(s);
      } else if send {
        next := SendLetter(s);
      } else {
        next := ReturnWork(s);
      }
    }

    /** What the heads of the two lists say the handler has to do. */
    method Choose(i: int, ghost s: State) returns (wait: bool, send: bool)
      requires Valid(null) && 0 <= i < 2 && Shape(s) && lists.contents == Places(s)
      ensures var h := s.handlers[i];
        && (wait <==> h.works == [] || (h.works[0].a1 < DATA_SIZE && h.devices == []))
        && (!wait ==> (send <==> h.works[0].a1 < DATA_SIZE))
    {
      assert Places(s)[PL.WORKS + i] == s.handlers[i].works && Places(s)[PL.DEVICES + i] == s.handlers[i].devices;
      lists.HeadIsFirst(PL.WORKS + i, null);
      lists.HeadIsFirst(PL.DEVICES + i, null);
      var v1, v2 := lists.heads[PL.WORKS + i], lists.heads[PL.DEVICES + i];
      wait := v1 == null || (v1.a1 < DATA_SIZE && v2 == null);
      send := v1 != null && v1.a1 < DATA_SIZE;
    }

    // ----- The loop

    /** TaskControlBlock.run on the current block. */
    method RunCurrent(ghost s: State) returns (next: TaskControlBlock?)
      requires Valid(null) && currentTcb != null && Shows(s, currentTcb) && Inv(s)
        && !HeldOrSuspended(s.tcbs[s.current])
      modifies this, lists, lists.cells, (set b | b in blocks)`state
      ensures Valid(null) && currentTcb == old(currentTcb) && IsBlock(next) && Shows(Step(s), next)
    {
      currentId := currentTcb.id;
      ghost var s1 := s.(currentId := s.current);
      SamePlaces(s, s1);
      TakeInv(s1);
      assert TcbInv(s.current, s1.tcbs[s.current]);
      var packet := TakeCurrent(s1);
      next := RunTask(packet, TakePacket(s1).0);
    }

    /** The task of the current block runs with the packet it is given. */
    method RunTask(packet: L.Packet?, ghost s: State) returns (next: TaskControlBlock?)
      requires Valid(packet) && currentTcb != null && Shows(s, currentTcb) && Inv(s) && Deliverable(s, Given(packet))
      requires currentTcb.id == IDLE ==> packet == null
      modifies this, lists, lists.cells, (set b | b in blocks)`state
      ensures Valid(null) && currentTcb == old(currentTcb) && IsBlock(next)
        && Shows(TaskRun(s, old(Given(packet))), next)
    {
      if currentTcb.id == IDLE {
        next := RunIdle(s);
      } else if currentTcb.id == WORKER {
        next := RunWorker(packet, s);
      } else {
        next := RunInputOutput(packet, s);
      }
    }

    /** The tasks that pass packets between the worker and the devices. */
    method RunInputOutput(packet: L.Packet?, ghost s: State) returns (next: TaskControlBlock?)
      requires Valid(packet) && currentTcb != null && currentTcb.id >= HANDLER_A && Shows(s, currentTcb)
      requires Inv(s) && Deliverable(s, Given(packet))
      modifies this, lists, lists.cells, (set b | b in blocks)`state
      ensures Valid(null) && currentTcb == old(currentTcb) && IsBlock(next)
        && Shows(TaskRun(s, old(Given(packet))), next)
    {
      if currentTcb.id <= HANDLER_B {
        AcceptSendable(s, Given(packet));
        next := RunHandler(packet, s);
      } else {
        next := RunDevice(packet, s);
      }
    }

    /** One round of the loop: past a task that is blocked, or the current task runs. */
    method Advance(ghost s: State)
      requires Valid(null) && currentTcb != null && Shows(s, currentTcb) && Inv(s)
      modifies this, lists, lists.cells, (set b | b in blocks)`state
      ensures Valid(null) && Shows(Step(s), currentTcb)
    {
      var blocked := currentTcb.IsHeldOrSuspended();
      assert bits[s.current] == TcbBits(s.tcbs[s.current]);
      var next;
      if blocked {
        next := PassOver(s);
      } else {
        next := RunCurrent(s);
      }
      GoTo(next, Step(s));
    }

    method GoTo(next: TaskControlBlock?, ghost s: State)
      requires Valid(null) && IsBlock(next) && Shows(s, next)
      modifies this`currentTcb
      ensures Valid(null) && currentTcb == next && Shows(s, currentTcb)
    {
      currentTcb := next;
    }

    method PassOver(ghost s: State) returns (next: TaskControlBlock?)
      requires Ready() && currentTcb != null && Shows(s, currentTcb)
      ensures IsBlock(next) && Shows(s.(current := s.current - 1), next)
    {
      assert LinkOk(blocks, currentTcb.id);
      SamePlaces(s, s.(current := s.current - 1));
      next := currentTcb.link;
    }

    /**
     The scheduling loop, from the head of the list: it ends, with the idle task used up and
     every task blocked. No packet is lost, duplicated or overwritten: by Valid, every cell
     is in exactly one list, threaded by the links, or alone in a slot. The states that the
     objects show, turn by turn, are a run of the state machine, so that what holds of all
     runs holds of them.
     */
    method Schedule(ghost s0: State) returns (ghost ss: seq<State>, ghost s: State)
      requires Valid(null) && Shows(s0, list) && Inv(s0)
      modifies this, lists, lists.cells, (set b | b in blocks)`state
      ensures Valid(null) && currentTcb == null && Shows(s, null) && Inv(s) && count == 0
      ensures forall k :: 0 <= k < TASKS ==> HeldOrSuspended(s.tcbs[k])
      ensures RunTo(ss, s0, s)
      ensures forall n: nat :: Everywhere(s, n) == Everywhere(s0, n)
      ensures forall i :: 0 <= i < |ss| ==> DispatchedHighest(ss[i])
    {
      s, ss := s0, [s0];
      GoTo(list, s);
      while currentTcb != null
        invariant Valid(null) && Shows(s, currentTcb) && Inv(s)
        invariant RunTo(ss, s0, s)
        decreases s.count, DeviceRank(s), WorkRank(s), AwakeCount(s), s.current
      {
        StepDecreases(s);
        RunFurther(ss, s0, s);
        Advance(s);
        s := Step(s);
        ss := ss + [s];
      }
      RunFacts(ss, s0, s);
    }
  }

  // ----- The start

  /** The state with the given packets in the queues of the worker and the handlers. */
  ghost function StartState(count: int, all: seq<seq<Packet>>): State
    requires |all| == PL.PLACES
  {
    var waiting := (k: int) requires 0 <= k < TASKS => Tcb(false, true, all[k] != [], all[k]);
    State([Tcb(false, false, false, []), waiting(1), waiting(2), waiting(3), waiting(4), waiting(5)],
      [None, None], [Handler([], []), Handler([], [])], 1, count, HANDLER_A, 0, DEVICE_B, IDLE, 0, 0)
  }

  /** Only the worker and the handlers have packets. */
  ghost predicate StartsWith(all: seq<seq<Packet>>) {
    |all| == PL.PLACES && all[0] == [] && forall k :: 3 < k < PL.PLACES ==> all[k] == []
  }

  lemma StartPlaces(count: int, all: seq<seq<Packet>>)
    requires StartsWith(all)
    ensures Places(StartState(count, all)) == all && StartState(count, all).count == count
  {
  }

  /**
   With work packets for the worker and device packets for the handlers, a start as the
   scheduler's theorems ask for.
   */
  lemma StartInitial(count: int, all: seq<seq<Packet>>)
    requires StartsWith(all) && count >= 1
    requires forall i :: 0 <= i < |all[WORKER]| ==> all[WORKER][i].kind.WorkKind?
    requires forall k, i :: HANDLER_A <= k <= HANDLER_B && 0 <= i < |all[k]| ==>
      all[k][i].kind.DeviceKind? && all[k][i].id == k + 2
    ensures Initial(StartState(count, all)) && Inv(StartState(count, all))
  {
    InitialInv(StartState(count, all));
  }

  lemma StartKinds(qw: seq<L.Packet>, qa: seq<L.Packet>, qb: seq<L.Packet>)
    requires forall i :: 0 <= i < |qw| ==> qw[i].kind.WorkKind?
    requires forall i :: 0 <= i < |qa| ==> qa[i].kind.DeviceKind? && qa[i].id == DEVICE_A
    requires forall i :: 0 <= i < |qb| ==> qb[i].kind.DeviceKind? && qb[i].id == DEVICE_B
    ensures var all := PL.StartContents(L.Vals(qw), L.Vals(qa), L.Vals(qb));
      && StartsWith(all) && (forall i :: 0 <= i < |all[WORKER]| ==> all[WORKER][i].kind.WorkKind?)
      && (forall k, i :: HANDLER_A <= k <= HANDLER_B && 0 <= i < |all[k]| ==>
        all[k][i].kind.DeviceKind? && all[k][i].id == k + 2)
  {
    var vw, va, vb := L.Vals(qw), L.Vals(qa), L.Vals(qb);
    var all := PL.StartContents(vw, va, vb);
    assert all[WORKER] == vw && all[HANDLER_A] == va && all[HANDLER_B] == vb;
    forall k, i | HANDLER_A <= k <= HANDLER_B && 0 <= i < |all[k]|
      ensures all[k][i].kind.DeviceKind? && all[k][i].id == k + 2 {
      if k == HANDLER_A { assert all[k][i] == L.Val(qa[i]); } else { assert all[k][i] == L.Val(qb[i]); }
    }
  }

  /**
   runRichards, for any count and any such packets: it ends, after a run of the state machine,
   and the packets it was given are still all there, each in one place.
   */
  method RunRichards(count: int, worker: L.Packet?, handlerA: L.Packet?, handlerB: L.Packet?,
      ghost qw: seq<L.Packet>, ghost qa: seq<L.Packet>, ghost qb: seq<L.Packet>)
      returns (r: Scheduler, ghost ss: seq<State>)
    requires count >= 1 && L.IsList(worker, qw) && L.IsList(handlerA, qa) && L.IsList(handlerB, qb)
    requires (forall p :: p in qw ==> p !in qa && p !in qb) && (forall p :: p in qa ==> p !in qb)
    requires forall i :: 0 <= i < |qw| ==> qw[i].kind.WorkKind?
    requires forall i :: 0 <= i < |qa| ==> qa[i].kind.DeviceKind? && qa[i].id == DEVICE_A
    requires forall i :: 0 <= i < |qb| ==> qb[i].kind.DeviceKind? && qb[i].id == DEVICE_B
    modifies set p | p in qw + qa + qb
    ensures r.Valid(null) && r.currentTcb == null && r.count == 0 && r.lists.cells == set p | p in qw + qa + qb
    ensures Run(ss) && Initial(ss[0]) && r.Shows(ss[|ss| - 1], null)
    ensures ss[0] == StartState(count, PL.StartContents(old(L.Vals(qw)), old(L.Vals(qa)), old(L.Vals(qb))))
  {
    ghost var all := PL.StartContents(L.Vals(qw), L.Vals(qa), L.Vals(qb));
    StartKinds(qw, qa, qb);
    StartInitial(count, all);
    var lists := PL.Lists.Start(worker, handlerA, handlerB, qw, qa, qb);
    r, ss := RunFrom(count, lists, all);
  }

  method RunFrom(count: int, lists: PL.Lists, ghost all: seq<seq<Packet>>) returns (r: Scheduler, ghost ss: seq<State>)
    requires lists.Valid(null) && lists.contents == all && StartsWith(all) && Inv(StartState(count, all))
    modifies lists, lists.cells
    ensures r.Valid(null) && r.currentTcb == null && r.count == 0 && r.lists == lists
    ensures Run(ss) && ss[0] == StartState(count, all) && r.Shows(ss[|ss| - 1], null)
  {
    r := new Scheduler(count, lists);
    ghost var s;
    ss, s := r.Schedule(StartState(count, all));
  }
}
