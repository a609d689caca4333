/**
 benchmarks/richards.js:188-491: what one turn of the scheduler's loop does to the state, field
 by field, for each task and case, and what follows along whole runs: a released device
 passes its packet on, work packets go to the two handlers in turn with the letters in order,
 and the counters count what happened.
 */
module RichardsTurns {
  import opened Options
  import RichardsSeed
  import opened Richards
  import opened RichardsRun

  /** The current task is not blocked, so that it runs in this turn. */
  ghost predicate Runs(s: State, k: int) {
    Inv(s) && 0 <= k < TASKS && s.current == k && !HeldOrSuspended(s.tcbs[k])
  }

  /** It is woken up with the first packet of its queue. */
  ghost predicate Woken(s: State, k: int) {
    Runs(s, k) && s.tcbs[k].suspended
  }

  /** A task that was woken has its packet; the bits say that it runs, and whether there is another packet. */
  function Awake(t: Tcb): Tcb
    requires t.queue != []
  {
    Tcb(false, false, |t.queue| > 1, t.queue[1..])
  }

  /** The block of a task that was sent a packet. */
  function Sent(t: Tcb, p: Packet): Tcb {
    Tcb(t.held, t.suspended, true, t.queue + [p])
  }

  /** Task k goes on after sending to task to: the one of higher priority, if it had nothing to do before. */
  function After(k: int, to: int, queue: seq<Packet>): int {
    if queue == [] && to > k then to else k
  }

  lemma WokenHasPacket(s: State, k: int)
    requires Woken(s, k)
    ensures s.tcbs[k].queue != [] && Routed(k, s.tcbs[k].queue[0])
  {
    assert TcbInv(k, s.tcbs[k]);
  }

  lemma EnqueueSends(s: State, p: Packet)
    requires Shape(s) && 0 <= s.current && 0 <= p.id < TASKS && TcbInv(p.id, s.tcbs[p.id])
    ensures Enqueue(s, p) == s.(tcbs := s.tcbs[p.id := Sent(s.tcbs[p.id], p.(id := s.currentId))],
      queueCount := s.queueCount + 1, current := After(s.current, p.id, s.tcbs[p.id].queue))
  {
    var q := p.(id := s.currentId);
    assert [] + [q] == [q];
  }

  // ----- The idle task

  ghost predicate Releases(s: State, d: int, s': State)
    requires Shape(s) && 0 <= d < TASKS
  {
    s' == s.(tcbs := s.tcbs[d := s.tcbs[d].(held := false)], seed := RichardsSeed.NextSeed(s.seed),
      count := s.count - 1,
      current := d, currentId := IDLE)
  }

  function Chosen(s: State): int {
    if s.seed % 2 == 0 then DEVICE_A else DEVICE_B
  }

  /**
   The device that the low bit of the seed names is not held any more and goes on, and nothing
   else changes but the seed and the count; when the count is used up the idle task is held.
   */
  ghost predicate IdleMoves(s: State, s': State)
    requires Runs(s, IDLE)
  {
    if s.count > 1 then Releases(s, Chosen(s), s')
    else
      s' == s.(tcbs := s.tcbs[IDLE := s.tcbs[IDLE].(held := true)], count := 0, holdCount := s.holdCount + 1,
        current := -1, currentId := IDLE)
  }

  lemma IdleTurn(s: State)
    requires Runs(s, IDLE)
    ensures s.count >= 1 && IdleMoves(s, Step(s))
  {
    assert TcbInv(IDLE, s.tcbs[IDLE]);
  }

  // ----- Devices

  /**
   Woken with a packet, a device keeps it in its slot and is held. Otherwise it sends on what
   is in the slot, to the task it is addressed to, or is suspended.
   */
  ghost predicate DeviceMoves(s: State, k: int, s': State)
    requires Runs(s, k) && k >= DEVICE_A
  {
    var t, i := s.tcbs[k], k - DEVICE_A;
    if t.suspended then
      && t.queue != []
      && s' == s.(tcbs := s.tcbs[k := Awake(t).(held := true)], slots := s.slots[i := Some(t.queue[0])],
          holdCount := s.holdCount + 1, current := k - 1, currentId := k)
    else if s.slots[i].Some? then
      var p := s.slots[i].value;
      && p.id == k - 2
      && s' == s.(tcbs := s.tcbs[p.id := Sent(s.tcbs[p.id], p.(id := k))], slots := s.slots[i := None],
          queueCount := s.queueCount + 1, currentId := k)
    else s' == s.(tcbs := s.tcbs[k := t.(suspended := true)], currentId := k)
  }

  lemma DeviceTurn(s: State, k: int)
    requires Runs(s, k) && k >= DEVICE_A
    ensures DeviceMoves(s, k, Step(s))
  {
    if s.tcbs[k].suspended {
      DeviceKeeps(s, k);
    } else if s.slots[k - DEVICE_A].Some? {
      var p := s.slots[k - DEVICE_A].value;
      var s1 := s.(currentId := k, slots := s.slots[k - DEVICE_A := None]);
      assert TcbInv(p.id, s1.tcbs[p.id]);
      EnqueueSends(s1, p);
    }
  }

  lemma DeviceKeeps(s: State, k: int)
    requires Woken(s, k) && k >= DEVICE_A
    ensures DeviceMoves(s, k, Step(s))
  {
    WokenHasPacket(s, k);
    var t := Awake(s.tcbs[k]);
    TakeInv(s.(currentId := k));
    assert s.tcbs[k := t][k := t.(held := true)] == s.tcbs[k := t.(held := true)];
  }

  // ----- The worker

  function OtherHandler(target: int): int {
    if target == HANDLER_A then HANDLER_B else HANDLER_A
  }

  /** The worker's variables hold a handler and a letter, or 0 at the start. */
  ghost predicate WorkerReady(s: State) {
    s.target in {HANDLER_A, HANDLER_B} && 0 <= s.letter <= 26
  }

  /** The four letters after v. */
  function FourLetters(v: int): (r: seq<int>)
    ensures |r| == DATA_SIZE && forall k :: 0 <= k < DATA_SIZE ==> r[k] == (v + k) % 26 + 1
  {
    seq(DATA_SIZE, k => (v + k) % 26 + 1)
  }

  /**
   Woken with a packet, the worker puts it behind the queue of the handler that did not get
   the last one, with the next four letters.
   */
  ghost predicate WorkerMoves(s: State, s': State)
    requires Runs(s, WORKER)
  {
    var t, h := s.tcbs[WORKER], OtherHandler(s.target);
    if !t.suspended then s' == s.(tcbs := s.tcbs[WORKER := t.(suspended := true)], currentId := WORKER)
    else
      && t.queue != []
      && var p := t.queue[0];
      s' == s.(tcbs := s.tcbs[WORKER := Awake(t)][h := Sent(s.tcbs[h],
        Packet(p.name, WORKER, p.kind, 0, FourLetters(s.letter)))],
        target := h, letter := (s.letter + 3) % 26 + 1, queueCount := s.queueCount + 1,
        current := After(WORKER, h, s.tcbs[h].queue), currentId := WORKER)
  }

  lemma WorkerTurn(s: State)
    requires Runs(s, WORKER) && WorkerReady(s)
    ensures WorkerMoves(s, Step(s))
  {
    if s.tcbs[WORKER].suspended { WorkerSends(s); }
  }

  lemma WorkerSends(s: State)
    requires Woken(s, WORKER) && WorkerReady(s)
    ensures WorkerMoves(s, Step(s))
  {
    WokenHasPacket(s, WORKER);
    var s1 := s.(currentId := WORKER);
    TakeInv(s1);
    WorkerLetters(s.letter);
    var h, p := OtherHandler(s.target), s.tcbs[WORKER].queue[0];
    var s2 := TakePacket(s1).0.(target := h, letter := (s.letter + 3) % 26 + 1);
    assert TcbInv(h, s2.tcbs[h]);
    EnqueueSends(s2, p.(id := h, a1 := 0, a2 := FourLetters(s.letter)));
  }

  lemma WorkerLetters(v: int)
    requires 0 <= v <= 26
    ensures Letters(v, DATA_SIZE) == ((v + 3) % 26 + 1, FourLetters(v))
  {
    LettersCycle(v, DATA_SIZE, 0);
    forall k | 0 <= k < DATA_SIZE ensures Letters(v, DATA_SIZE).1[k] == FourLetters(v)[k] {
      LettersCycle(v, DATA_SIZE, k);
    }
    assert Letters(v, DATA_SIZE).1 == FourLetters(v);
  }

  // ----- The handlers

  /** The lists after a packet has joined the one for its kind. */
  function Joined(h: Handler, p: Packet): Handler {
    if p.kind.WorkKind? then Handler(h.works + [p], h.devices) else Handler(h.works, h.devices + [p])
  }

  /** A handler's lists and block once it has taken the packet it was woken with, if any. */
  function ListsOf(s: State, k: int): Handler
    requires Shape(s) && k in {HANDLER_A, HANDLER_B}
  {
    var h, t := s.handlers[k - HANDLER_A], s.tcbs[k];
    if t.suspended && t.queue != [] then Joined(h, t.queue[0]) else h
  }

  function BlockOf(s: State, k: int): Tcb
    requires Shape(s) && 0 <= k < TASKS
  {
    var t := s.tcbs[k];
    if t.suspended && t.queue != [] then Awake(t) else t
  }

  /** There is nothing to send, or nothing to send it with. */
  predicate MustWait(h: Handler) {
    h.works == [] || (h.works[0].a1 < DATA_SIZE && h.devices == [])
  }

  /**
   A handler waits, or sends the next letter of its first work packet with its first device
   packet to its own device, or returns a work packet whose letters are all sent.
   */
  ghost predicate HandlerMoves(s: State, k: int, s': State)
    requires Runs(s, k) && k in {HANDLER_A, HANDLER_B}
  {
    var h, t, i, d := ListsOf(s, k), BlockOf(s, k), k - HANDLER_A, k + 2;
    if MustWait(h) then
      s' == s.(tcbs := s.tcbs[k := t.(suspended := true)], handlers := s.handlers[i := h], currentId := k)
    else
      var w := h.works[0];
      if w.a1 < DATA_SIZE then
        && 0 <= w.a1 < |w.a2|
        && var v := h.devices[0];
        s' == s.(tcbs := s.tcbs[k := t][d := Sent(s.tcbs[d], Packet(v.name, k, v.kind, w.a2[w.a1], v.a2))],
          handlers := s.handlers[i := Handler([w.(a1 := w.a1 + 1)] + h.works[1..], h.devices[1..])],
          queueCount := s.queueCount + 1, current := After(k, d, s.tcbs[d].queue), currentId := k)
      else
        s' == s.(tcbs := s.tcbs[k := t][WORKER := Sent(s.tcbs[WORKER], w.(id := k))],
          handlers := s.handlers[i := Handler(h.works[1..], h.devices)], queueCount := s.queueCount + 1, currentId := k)
  }

  /** A handler that has accepted its packet runs as one that was given none. */
  lemma AcceptThenRun(s: State, packet: Option<Packet>)
    requires Shape(s) && s.current in {HANDLER_A, HANDLER_B}
      && Sendable(Accept(s.handlers[s.current - HANDLER_A], packet))
    ensures var i := s.current - HANDLER_A;
      HandlerRun(s, packet) == HandlerRun(s.(handlers := s.handlers[i := Accept(s.handlers[i], packet)]), None)
  {
    var i := s.current - HANDLER_A;
    var h := Accept(s.handlers[i], packet);
    var s1 := s.(handlers := s.handlers[i := h]);
    if h.works == [] || (h.works[0].a1 < DATA_SIZE && h.devices == []) {
      HandlerWaits(s1);
      assert HandlerRun(s, packet) == SuspendCurrent(s1);
    } else if h.works[0].a1 < DATA_SIZE {
      HandlerSends(s1);
      var (h', v) := SendOne(h);
      assert s1.handlers[i := h'] == s.handlers[i := h'];
      assert HandlerRun(s, packet) == Enqueue(s.(handlers := s.handlers[i := h']), v);
    } else {
      HandlerReturns(s1);
      var h' := h.(works := h.works[1..]);
      assert s1.handlers[i := h'] == s.handlers[i := h'];
      assert HandlerRun(s, packet) == Enqueue(s.(handlers := s.handlers[i := h']), h.works[0]);
    }
  }

  // The three things a handler can do.

  lemma HandlerWaits(s: State)
    requires Shape(s) && s.current in {HANDLER_A, HANDLER_B} && Sendable(s.handlers[s.current - HANDLER_A])
    requires var h := s.handlers[s.current - HANDLER_A]; h.works == [] || (h.works[0].a1 < DATA_SIZE && h.devices == [])
    ensures HandlerRun(s, None) == SuspendCurrent(s)
  {
    var i := s.current - HANDLER_A;
    assert s.handlers[i := s.handlers[i]] == s.handlers;
  }

  lemma HandlerSends(s: State)
    requires Shape(s) && s.current in {HANDLER_A, HANDLER_B} && Sendable(s.handlers[s.current - HANDLER_A])
    requires var h := s.handlers[s.current - HANDLER_A]; h.works != [] && h.works[0].a1 < DATA_SIZE && h.devices != []
    ensures var i := s.current - HANDLER_A; var (h', v) := SendOne(s.handlers[i]);
      0 <= v.id < TASKS && HandlerRun(s, None) == Enqueue(s.(handlers := s.handlers[i := h']), v)
  {
  }

  lemma HandlerReturns(s: State)
    requires Shape(s) && s.current in {HANDLER_A, HANDLER_B} && Sendable(s.handlers[s.current - HANDLER_A])
    requires var h := s.handlers[s.current - HANDLER_A]; h.works != [] && h.works[0].a1 >= DATA_SIZE
    ensures var i := s.current - HANDLER_A; var h := s.handlers[i];
      HandlerRun(s, None) == Enqueue(s.(handlers := s.handlers[i := h.(works := h.works[1..])]), h.works[0])
  {
  }

  /** The state in which the handler acts. */
  function Prepared(s: State, k: int): (r: State)
    requires Shape(s) && s.current == k && k in {HANDLER_A, HANDLER_B}
    ensures Shape(r) && r.handlers[k - HANDLER_A] == ListsOf(s, k)
  {
    s.(tcbs := s.tcbs[k := BlockOf(s, k)], handlers := s.handlers[k - HANDLER_A := ListsOf(s, k)], currentId := k)
  }

  lemma HandlerStep(s: State, k: int)
    requires Runs(s, k) && k in {HANDLER_A, HANDLER_B}
    ensures HandlerInv(k, ListsOf(s, k)) && Sendable(ListsOf(s, k)) && TcbInv(k, BlockOf(s, k))
    ensures Step(s) == HandlerRun(Prepared(s, k), None)
  {
    var s1 := s.(currentId := k);
    var (s2, packet) := TakePacket(s1);
    TakeInv(s1);
    AcceptSendable(s2, packet);
    assert TcbInv(k, s.tcbs[k]);
    if s.tcbs[k].suspended { WokenHasPacket(s, k); }
    assert ListsOf(s, k) == Accept(s.handlers[k - HANDLER_A], packet);
    AcceptThenRun(s2, packet);
    assert s.tcbs[k := s.tcbs[k]] == s.tcbs;
  }

  lemma HandlerTurn(s: State, k: int)
    requires Runs(s, k) && k in {HANDLER_A, HANDLER_B}
    ensures HandlerMoves(s, k, Step(s))
  {
    HandlerStep(s, k);
    var h := ListsOf(s, k);
    if MustWait(h) {
      HandlerWaits(Prepared(s, k));
    } else if h.works[0].a1 < DATA_SIZE {
      HandlerSendsTurn(s, k);
    } else {
      HandlerReturnsTurn(s, k);
    }
  }

  lemma HandlerSendsTurn(s: State, k: int)
    requires Runs(s, k) && k in {HANDLER_A, HANDLER_B}
    requires var h := ListsOf(s, k); !MustWait(h) && h.works[0].a1 < DATA_SIZE
    ensures HandlerMoves(s, k, Step(s))
  {
    HandlerStep(s, k);
    var s2, i := Prepared(s, k), k - HANDLER_A;
    HandlerSends(s2);
    var (h, v) := SendOne(ListsOf(s, k));
    assert s2.handlers[i := h] == s.handlers[i := h];
    assert TcbInv(k + 2, s2.tcbs[k + 2]);
    EnqueueSends(s2.(handlers := s.handlers[i := h]), v);
  }

  lemma HandlerReturnsTurn(s: State, k: int)
    requires Runs(s, k) && k in {HANDLER_A, HANDLER_B}
    requires var h := ListsOf(s, k); h.works != [] && h.works[0].a1 >= DATA_SIZE
    ensures HandlerMoves(s, k, Step(s))
  {
    HandlerStep(s, k);
    var s2, i, w := Prepared(s, k), k - HANDLER_A, ListsOf(s, k).works[0];
    HandlerReturns(s2);
    var h := ListsOf(s, k).(works := ListsOf(s, k).works[1..]);
    assert s2.handlers[i := h] == s.handlers[i := h];
    assert InProgress(w) && TcbInv(WORKER, s2.tcbs[WORKER]);
    EnqueueSends(s2.(handlers := s.handlers[i := h]), w);
  }

  // ----- All turns

  /** What the code does in a turn of the loop. */
  ghost predicate Turn(s: State, s': State)
    requires Inv(s) && 0 <= s.current
  {
    var k := s.current;
    if HeldOrSuspended(s.tcbs[k]) then s' == s.(current := k - 1)
    else if k == IDLE then IdleMoves(s, s')
    else if k == WORKER then WorkerMoves(s, s')
    else if k <= HANDLER_B then HandlerMoves(s, k, s')
    else DeviceMoves(s, k, s')
  }

  lemma StepIsTurn(s: State)
    requires Inv(s) && 0 <= s.current && WorkerReady(s)
    ensures Turn(s, Step(s))
  {
    var k := s.current;
    if !HeldOrSuspended(s.tcbs[k]) {
      if k == IDLE {
        IdleTurn(s);
      } else if k == WORKER {
        WorkerTurn(s);
      } else if k <= HANDLER_B {
        HandlerTurn(s, k);
      } else {
        DeviceTurn(s, k);
      }
    }
  }
}
