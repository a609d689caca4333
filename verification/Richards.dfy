/**
 benchmarks/richards.js: the task scheduler as a state machine. Tasks are numbered by
 their ids; the list of control blocks runs from id 5 down to id 0, which is also
 descending priority (1000 times the id).
 */
module Richards {
  import opened Options
  import RichardsSeed

  const IDLE := 0
  const WORKER := 1
  const HANDLER_A := 2
  const HANDLER_B := 3
  const DEVICE_A := 4
  const DEVICE_B := 5
  const TASKS := 6
  const DATA_SIZE := 4

  datatype Kind = DeviceKind | WorkKind

  /** name is the packet's identity; the code has object identity instead. */
  datatype Packet = Packet(name: nat, id: int, kind: Kind, a1: int, a2: seq<int>)

  /** A task control block: the three state bits and the queue of packets to process. */
  datatype Tcb = Tcb(held: bool, suspended: bool, runnable: bool, queue: seq<Packet>)

  /** A handler's two lists: work packets in progress and device packets to send. */
  datatype Handler = Handler(works: seq<Packet>, devices: seq<Packet>)

  datatype State = State(
    tcbs: seq<Tcb>,
    slots: seq<Option<Packet>>,      // devices A and B
    handlers: seq<Handler>,          // handlers A and B
    seed: int, count: int,           // idle task
    target: int, letter: int,        // worker task
    current: int, currentId: int,    // current == -1 is the null block
    queueCount: nat, holdCount: nat)

  predicate HeldOrSuspended(t: Tcb) {
    t.held || (t.suspended && !t.runnable)
  }

  predicate Shape(s: State) {
    |s.tcbs| == TASKS && |s.slots| == 2 && |s.handlers| == 2 && -1 <= s.current < TASKS
  }

  function SetTcb(s: State, k: int, t: Tcb): State
    requires Shape(s) && 0 <= k < TASKS
  {
    s.(tcbs := s.tcbs[k := t])
  }

  /** Scheduler.suspendCurrent. */
  function SuspendCurrent(s: State): State
    requires Shape(s) && 0 <= s.current
  {
    SetTcb(s, s.current, s.tcbs[s.current].(suspended := true))
  }

  /** Scheduler.holdCurrent: the next block in the list runs on. */
  function HoldCurrent(s: State): State
    requires Shape(s) && 0 <= s.current
  {
    SetTcb(s, s.current, s.tcbs[s.current].(held := true)).(holdCount := s.holdCount + 1, current := s.current - 1)
  }

  /** Scheduler.release: the released block runs on if it has higher priority. */
  function Release(s: State, id: int): State
    requires Shape(s) && 0 <= s.current && 0 <= id < TASKS
  {
    SetTcb(s, id, s.tcbs[id].(held := false)).(current := if id > s.current then id else s.current)
  }

  /** Scheduler.queue with TaskControlBlock.checkPriorityAdd. */
  function Enqueue(s: State, p: Packet): State
    requires Shape(s) && 0 <= s.current && 0 <= p.id < TASKS
  {
    var t, q := s.tcbs[p.id], p.(id := s.currentId);
    var s1 := s.(queueCount := s.queueCount + 1);
    if t.queue == [] then
      SetTcb(s1, p.id, t.(queue := [q], runnable := true)).(current := if p.id > s.current then p.id else s.current)
    else
      SetTcb(s1, p.id, t.(queue := t.queue + [q]))
  }

  function IdleRun(s: State): State
    requires Shape(s) && s.current == IDLE
  {
    var s1 := s.(count := s.count - 1);
    if s1.count == 0 then HoldCurrent(s1)
    else Release(s1.(seed := RichardsSeed.NextSeed(s1.seed)), if RichardsSeed.Odd(s1.seed) then DEVICE_B else DEVICE_A)
  }

  function DeviceRun(s: State, packet: Option<Packet>): State
    requires Shape(s) && s.current in {DEVICE_A, DEVICE_B}
    requires packet.None? && s.slots[s.current - DEVICE_A].Some? ==> 0 <= s.slots[s.current - DEVICE_A].value.id < TASKS
  {
    var d := s.current - DEVICE_A;
    match packet
    case None =>
      if s.slots[d].None? then SuspendCurrent(s)
      else Enqueue(s.(slots := s.slots[d := None]), s.slots[d].value)
    case Some(_) =>
      HoldCurrent(s.(slots := s.slots[d := packet]))
  }

  /** The worker's next data letters: 1..26 in a cycle. */
  function Letters(v: int, n: nat): (r: (int, seq<int>))
    ensures |r.1| == n
    decreases n
  {
    if n == 0 then (v, [])
    else
      var v1 := if v + 1 > 26 then 1 else v + 1;
      var rest := Letters(v1, n - 1);
      (rest.0, [v1] + rest.1)
  }

  function WorkerRun(s: State, packet: Option<Packet>): State
    requires Shape(s) && s.current == WORKER
  {
    match packet
    case None => SuspendCurrent(s)
    case Some(p) =>
      var target := if s.target == HANDLER_A then HANDLER_B else HANDLER_A;
      var data := Letters(s.letter, DATA_SIZE);
      Enqueue(s.(target := target, letter := data.0), p.(id := target, a1 := 0, a2 := data.1))
  }

  /** Packet.addTo on the list the packet's kind selects. */
  function Accept(h: Handler, packet: Option<Packet>): Handler {
    match packet
    case None => h
    case Some(p) => if p.kind.WorkKind? then h.(works := h.works + [p]) else h.(devices := h.devices + [p])
  }

  function HandlerRun(s: State, packet: Option<Packet>): State
    requires Shape(s) && s.current in {HANDLER_A, HANDLER_B}
    requires Sendable(Accept(s.handlers[s.current - HANDLER_A], packet))
  {
    var i := s.current - HANDLER_A;
    var h := Accept(s.handlers[i], packet);
    if h.works == [] then SuspendCurrent(s.(handlers := s.handlers[i := h]))
    else
      var w := h.works[0];
      if w.a1 < DATA_SIZE then
        if h.devices == [] then SuspendCurrent(s.(handlers := s.handlers[i := h]))
        else
          var (h', v) := SendOne(h);
          Enqueue(s.(handlers := s.handlers[i := h']), v)
      else
        Enqueue(s.(handlers := s.handlers[i := h.(works := h.works[1..])]), w)
  }

  /** What HandlerRun reads is there: data within bounds and real addressees. */
  predicate Sendable(h: Handler) {
    && (forall k :: 0 <= k < |h.works| ==>
      0 <= h.works[k].a1 <= |h.works[k].a2| == DATA_SIZE && 0 <= h.works[k].id < TASKS)
    && (forall k :: 0 <= k < |h.devices| ==> 0 <= h.devices[k].id < TASKS)
  }

  /** TaskControlBlock.run's first half: a suspended task with work takes its next packet. */
  function TakePacket(s: State): (r: (State, Option<Packet>))
    requires Shape(s) && 0 <= s.current && (s.tcbs[s.current].runnable ==> s.tcbs[s.current].queue != [])
  {
    var t := s.tcbs[s.current];
    if !t.held && t.suspended && t.runnable then
      (SetTcb(s, s.current, Tcb(false, false, t.queue[1..] != [], t.queue[1..])), Some(t.queue[0]))
    else
      (s, None)
  }

  function TaskRun(s: State, packet: Option<Packet>): State
    requires Inv(s) && 0 <= s.current && Deliverable(s, packet)
  {
    if s.current == IDLE then IdleRun(s)
    else if s.current == WORKER then WorkerRun(s, packet)
    else if s.current <= HANDLER_B then
      AcceptSendable(s, packet);
      HandlerRun(s, packet)
    else DeviceRun(s, packet)
  }

  /** One turn of the schedule loop. */
  function Step(s: State): State
    requires Inv(s) && 0 <= s.current
  {
    if HeldOrSuspended(s.tcbs[s.current]) then s.(current := s.current - 1)
    else
      var s1 := s.(currentId := s.current);
      var (s2, packet) := TakePacket(s1);
      TakeInv(s1);
      TaskRun(s2, packet)
  }

  // ----- What every reachable state satisfies

  /** Where a packet queued at task k came from, what it is, and where it goes next. */
  ghost predicate Routed(k: int, p: Packet) {
    if k == WORKER then p.kind.WorkKind?
    else if k in {HANDLER_A, HANDLER_B} then
      if p.kind.WorkKind? then p.id == WORKER && p.a1 == 0 && |p.a2| == DATA_SIZE else p.id == k + 2
    else k in {DEVICE_A, DEVICE_B} && p.kind.DeviceKind? && p.id == k - 2
  }

  ghost predicate TcbInv(k: int, t: Tcb) {
    && (t.runnable <==> t.queue != [])
    && (forall i :: 0 <= i < |t.queue| ==> Routed(k, t.queue[i]))
    && (k < DEVICE_A && k != IDLE ==> !t.held)
    && (k == IDLE ==> !t.suspended)
  }

  /** A work packet a handler is sending out, a1 of its letters so far. */
  ghost predicate InProgress(p: Packet) {
    p.kind.WorkKind? && p.id == WORKER && 0 <= p.a1 <= |p.a2| == DATA_SIZE
  }

  ghost predicate HandlerInv(k: int, h: Handler) {
    && (forall i :: 0 <= i < |h.works| ==> InProgress(h.works[i]))
    && (forall i :: 0 <= i < |h.devices| ==> h.devices[i].kind.DeviceKind? && h.devices[i].id == k + 2)
  }

  /** A filled slot means the device is not suspended, so it cannot be given another packet. */
  ghost predicate SlotInv(k: int, t: Tcb, slot: Option<Packet>) {
    slot.Some? ==> !t.suspended && Routed(k, slot.value)
  }

  /** Everything ahead of the current block in the list is held or has nothing to do. */
  ghost predicate AheadBlocked(s: State)
    requires Shape(s)
  {
    forall k :: s.current < k < TASKS ==> HeldOrSuspended(s.tcbs[k])
  }

  ghost predicate Inv(s: State) {
    && Shape(s) && AheadBlocked(s)
    && (forall k :: 0 <= k < TASKS ==> TcbInv(k, s.tcbs[k]))
    && HandlerInv(HANDLER_A, s.handlers[0]) && HandlerInv(HANDLER_B, s.handlers[1])
    && SlotInv(DEVICE_A, s.tcbs[DEVICE_A], s.slots[0]) && SlotInv(DEVICE_B, s.tcbs[DEVICE_B], s.slots[1])
    && 0 <= s.count && (s.tcbs[IDLE].held <==> s.count == 0)
  }

  /** What run hands to the task: a packet from its own queue, with room for it. */
  ghost predicate Deliverable(s: State, packet: Option<Packet>)
    requires Inv(s) && 0 <= s.current
  {
    && s.currentId == s.current && !s.tcbs[s.current].held && !s.tcbs[s.current].suspended
    && (packet.Some? ==>
      Routed(s.current, packet.value) && (s.current >= DEVICE_A ==> s.slots[s.current - DEVICE_A].None?))
  }

  lemma AcceptSendable(s: State, packet: Option<Packet>)
    requires Inv(s) && 0 <= s.current && Deliverable(s, packet) && s.current in {HANDLER_A, HANDLER_B}
    ensures HandlerInv(s.current, Accept(s.handlers[s.current - HANDLER_A], packet))
    ensures Sendable(Accept(s.handlers[s.current - HANDLER_A], packet))
  {
  }

  lemma TakeInv(s: State)
    requires Inv(s) && 0 <= s.current == s.currentId && !HeldOrSuspended(s.tcbs[s.current])
    ensures var r := TakePacket(s); Inv(r.0) && r.0.current == s.current && Deliverable(r.0, r.1)
  {
  }

  lemma EnqueueInv(s: State, p: Packet)
    requires Inv(s) && 0 <= s.current && 0 < p.id < TASKS && Routed(p.id, p.(id := s.currentId))
    ensures Inv(Enqueue(s, p))
  {
    var t, q := s.tcbs[p.id], p.(id := s.currentId);
    QueueInv(s, p.id, if t.queue == [] then t.(queue := [q], runnable := true) else t.(queue := t.queue + [q]));
  }

  /** A longer queue; with current at the end of the list nothing is ahead of it. */
  lemma QueueInv(s: State, k: int, t: Tcb)
    requires Inv(s) && 0 < k < TASKS && TcbInv(k, t) && t.held == s.tcbs[k].held && t.suspended == s.tcbs[k].suspended
    ensures Inv(SetTcb(s, k, t).(current := TASKS - 1))
  {
  }

  lemma StepInv(s: State)
    requires Inv(s) && 0 <= s.current
    ensures Inv(Step(s))
  {
    if !HeldOrSuspended(s.tcbs[s.current]) {
      var s1 := s.(currentId := s.current);
      TakeInv(s1);
      var (s2, packet) := TakePacket(s1);
      TaskInv(s2, packet);
    }
  }

  lemma TaskInv(s: State, packet: Option<Packet>)
    requires Inv(s) && 0 <= s.current && Deliverable(s, packet)
    ensures Inv(TaskRun(s, packet))
  {
    if s.current == IDLE {
      IdleInv(s);
    } else if s.current == WORKER {
      WorkerInv(s, packet);
    } else if s.current <= HANDLER_B {
      AcceptSendable(s, packet);
      HandlerRunInv(s, packet);
    } else {
      DeviceInv(s, packet);
    }
  }

  lemma SuspendInv(s: State)
    requires Inv(s) && 0 < s.current && (s.current >= DEVICE_A ==> s.slots[s.current - DEVICE_A].None?)
    ensures Inv(SuspendCurrent(s))
  {
  }

  lemma IdleInv(s: State)
    requires Inv(s) && s.current == IDLE && !s.tcbs[IDLE].held
    ensures Inv(IdleRun(s))
  {
  }

  lemma WorkerInv(s: State, packet: Option<Packet>)
    requires Inv(s) && s.current == WORKER && Deliverable(s, packet)
    ensures Inv(WorkerRun(s, packet))
  {
    match packet
    case None => SuspendInv(s);
    case Some(p) =>
      var target := if s.target == HANDLER_A then HANDLER_B else HANDLER_A;
      var data := Letters(s.letter, DATA_SIZE);
      EnqueueInv(s.(target := target, letter := data.0), p.(id := target, a1 := 0, a2 := data.1));
  }

  lemma DeviceInv(s: State, packet: Option<Packet>)
    requires Inv(s) && s.current >= DEVICE_A && Deliverable(s, packet)
    ensures Inv(DeviceRun(s, packet))
  {
    var d := s.current - DEVICE_A;
    if packet.None? {
      if s.slots[d].None? {
        SuspendInv(s);
      } else {
        EnqueueInv(s.(slots := s.slots[d := None]), s.slots[d].value);
      }
    }
  }

  lemma SetHandlerInv(s: State, h: Handler)
    requires Inv(s) && s.current in {HANDLER_A, HANDLER_B} && HandlerInv(s.current, h)
    ensures Inv(s.(handlers := s.handlers[s.current - HANDLER_A := h]))
  {
  }

  /** The handler after one letter of its first work packet went out with its first device packet. */
  function SendOne(h: Handler): (Handler, Packet)
    requires h.works != [] && h.devices != [] && 0 <= h.works[0].a1 < |h.works[0].a2|
  {
    var w := h.works[0];
    (Handler([w.(a1 := w.a1 + 1)] + h.works[1..], h.devices[1..]), h.devices[0].(a1 := w.a2[w.a1]))
  }

  lemma SendInv(k: int, h: Handler)
    requires HandlerInv(k, h) && h.works != []
    ensures InProgress(h.works[0]) && HandlerInv(k, h.(works := h.works[1..]))
    ensures h.works[0].a1 < DATA_SIZE && h.devices != [] ==>
      HandlerInv(k, SendOne(h).0) && SendOne(h).1.kind.DeviceKind? && SendOne(h).1.id == k + 2
  {
    assert InProgress(h.works[0]);
  }

  lemma HandlerRunInv(s: State, packet: Option<Packet>)
    requires Inv(s) && s.current in {HANDLER_A, HANDLER_B} && Deliverable(s, packet)
    requires var h := Accept(s.handlers[s.current - HANDLER_A], packet); HandlerInv(s.current, h) && Sendable(h)
    ensures Inv(HandlerRun(s, packet))
  {
    var i := s.current - HANDLER_A;
    var h := Accept(s.handlers[i], packet);
    if h.works == [] || (h.works[0].a1 < DATA_SIZE && h.devices == []) {
      SetHandlerInv(s, h);
      SuspendInv(s.(handlers := s.handlers[i := h]));
    } else {
      var w := h.works[0];
      SendInv(s.current, h);
      if w.a1 < DATA_SIZE {
        var (h', v) := SendOne(h);
        SetHandlerInv(s, h');
        EnqueueInv(s.(handlers := s.handlers[i := h']), v);
      } else {
        var h' := h.(works := h.works[1..]);
        SetHandlerInv(s, h');
        EnqueueInv(s.(handlers := s.handlers[i := h']), w);
      }
    }
  }
}
