/**
 benchmarks/richards.js:188-491: what happens along a whole run. The idle task goes through
 the values of its seed; a device that it releases over a full slot passes the packet on; work
 packets go to the two handlers in turn, with the letters of the alphabet in order; and the
 letters reach each device in the order in which its handler was given them.
 */
module RichardsTrace {
  import opened Options
  import RichardsSeed
  import opened Richards
  import opened RichardsRun
  import opened RichardsTurns

  /** The worker's variables change when it sends a packet, the idle task's when it runs. */
  ghost predicate VariablesMove(s: State, s': State) {
    && (if Woken(s, WORKER) then s'.target == OtherHandler(s.target) && s'.letter == (s.letter + 3) % 26 + 1
        else s'.target == s.target && s'.letter == s.letter)
    && (if Runs(s, IDLE) then s'.count == s.count - 1 else s'.count == s.count && s'.seed == s.seed)
    && (Runs(s, IDLE) && s.count > 1 ==> s'.seed == RichardsSeed.NextSeed(s.seed))
  }

  lemma {:induction false} TurnVariables(s: State, s': State)
    requires Inv(s) && 0 <= s.current && WorkerReady(s) && Turn(s, s')
    ensures WorkerReady(s') && VariablesMove(s, s')
  {
  }

  /** Every turn of a run is one of those described. */
  lemma {:induction false} RunTurns(ss: seq<State>, i: nat)
    requires Run(ss) && WorkerReady(ss[0]) && i < |ss|
    ensures Inv(ss[i]) && WorkerReady(ss[i])
    ensures i + 1 < |ss| ==> 0 <= ss[i].current && Turn(ss[i], ss[i + 1])
  {
    RunConserves(ss, i, 0);
    if i > 0 {
      RunTurns(ss, i - 1);
      TurnVariables(ss[i - 1], ss[i]);
    }
    if i + 1 < |ss| { StepIsTurn(ss[i]); }
  }

  lemma {:induction false} RunVariables(ss: seq<State>, i: nat)
    requires Run(ss) && WorkerReady(ss[0]) && i + 1 < |ss|
    ensures VariablesMove(ss[i], ss[i + 1])
  {
    RunTurns(ss, i);
    TurnVariables(ss[i], ss[i + 1]);
  }

  // ----- Releasing a device

  /** A device released over a full slot runs next, and its packet is then the last one of the handler it is for. */
  lemma {:induction false} ReleasedDeviceRuns(ss: seq<State>, i: nat)
    requires Run(ss) && WorkerReady(ss[0]) && i + 2 < |ss| && Runs(ss[i], IDLE) && ss[i].count > 1
    requires ss[i].slots[Chosen(ss[i]) - DEVICE_A].Some?
    ensures var s, d := ss[i], Chosen(ss[i]); var p := s.slots[d - DEVICE_A].value;
      && Runs(ss[i + 1], d) && p.id == d - 2
      && ss[i + 2].tcbs == s.tcbs[d := s.tcbs[d].(held := false)][d - 2 := Sent(s.tcbs[d - 2], p.(id := d))]
      && ss[i + 2].slots == s.slots[d - DEVICE_A := None] && ss[i + 2].handlers == s.handlers
  {
    RunTurns(ss, i);
    RunTurns(ss, i + 1);
  }

  // ----- The idle task along a run

  ghost function IdleTurns(ss: seq<State>, i: nat): nat
    requires i <= |ss|
  {
    if i == 0 then 0 else IdleTurns(ss, i - 1) + (if Runs(ss[i - 1], IDLE) then 1 else 0)
  }

  function SeedAfter(seed: int, n: nat): int {
    if n == 0 then seed else RichardsSeed.NextSeed(SeedAfter(seed, n - 1))
  }

  /** The n-th time the idle task runs, the n-th value of the shift register chooses the device. */
  lemma {:induction false} IdleProgress(ss: seq<State>, i: nat)
    requires Run(ss) && WorkerReady(ss[0]) && i < |ss|
    ensures IdleAfter(IdleTurns(ss, i), ss[0].count, ss[0].seed, ss[i].count, ss[i].seed)
  {
    if i == 0 {
      IdleStart(ss[0].count, ss[0].seed);
    } else {
      IdleProgress(ss, i - 1);
      RunVariables(ss, i - 1);
      IdleNext(IdleTurns(ss, i - 1), ss[0].count, ss[0].seed, ss[i - 1], ss[i]);
    }
  }

  lemma {:induction false} IdleStart(count: int, seed: int)
    ensures IdleAfter(0, count, seed, count, seed)
  {
  }

  lemma {:induction false} IdleNext(n: nat, count0: int, seed0: int, s: State, s': State)
    requires IdleAfter(n, count0, seed0, s.count, s.seed) && VariablesMove(s, s')
    ensures IdleAfter(if Runs(s, IDLE) then n + 1 else n, count0, seed0, s'.count, s'.seed)
  {
  }

  /** The idle task's variables after it has run n times. */
  predicate IdleAfter(n: nat, count0: int, seed0: int, count: int, seed: int) {
    count == count0 - n && (count > 0 ==> seed == SeedAfter(seed0, n))
  }

  // ----- The worker along a run

  ghost function Sends(ss: seq<State>, i: nat): nat
    requires i <= |ss|
  {
    if i == 0 then 0 else Sends(ss, i - 1) + (if Woken(ss[i - 1], WORKER) then 1 else 0)
  }

  /** The last letter of n packets of four. */
  function LastLetter(n: nat): int {
    if n == 0 then 0 else (4 * n - 1) % 26 + 1
  }

  lemma {:induction false} WorkerProgress(ss: seq<State>, i: nat)
    requires Run(ss) && ss[0].target == HANDLER_A && ss[0].letter == 0 && i < |ss|
    ensures WorkerAfter(Sends(ss, i), ss[i].target, ss[i].letter)
  {
    if i > 0 {
      WorkerProgress(ss, i - 1);
      RunVariables(ss, i - 1);
      WorkerNext(Sends(ss, i - 1), ss[i - 1], ss[i]);
    }
  }

  lemma {:induction false} WorkerNext(n: nat, s: State, s': State)
    requires WorkerAfter(n, s.target, s.letter) && VariablesMove(s, s')
    ensures WorkerAfter(if Woken(s, WORKER) then n + 1 else n, s'.target, s'.letter)
  {
    OneMore(n, s.target, s.letter);
  }

  /** The worker's variables after n packets. */
  predicate WorkerAfter(n: nat, target: int, letter: int) {
    target == (if n % 2 == 0 then HANDLER_A else HANDLER_B) && letter == LastLetter(n)
  }

  lemma {:induction false} OneMore(n: nat, target: int, letter: int)
    requires WorkerAfter(n, target, letter)
    ensures WorkerAfter(n + 1, OtherHandler(target), (letter + 3) % 26 + 1)
  {
    FourMore(n);
  }

  lemma {:induction false} FourMore(n: nat)
    ensures LastLetter(n + 1) == (LastLetter(n) + 3) % 26 + 1
    ensures FourLetters(LastLetter(n)) == FourLetters(4 * n)
  {
    if n > 0 { RoundAgain(4 * n - 1, 3); }
    forall k | 0 <= k < DATA_SIZE ensures FourLetters(LastLetter(n))[k] == FourLetters(4 * n)[k] {
      if n > 0 { RoundAgain(4 * n - 1, k); }
    }
  }

  /**
   The work packets go to handler B, handler A, B, A and so on; the n-th of them has the four
   letters from the 4n-th on, in an alphabet of 26 that goes round.
   */
  lemma {:induction false} WorkerAlternates(ss: seq<State>, i: nat)
    requires Run(ss) && ss[0].target == HANDLER_A && ss[0].letter == 0 && i + 1 < |ss| && Woken(ss[i], WORKER)
    ensures ss[i].tcbs[WORKER].queue != []
    ensures var n, p := Sends(ss, i), ss[i].tcbs[WORKER].queue[0];
      var h := if n % 2 == 0 then HANDLER_B else HANDLER_A;
      ss[i + 1].tcbs[h].queue == ss[i].tcbs[h].queue + [Packet(p.name, WORKER, p.kind, 0, FourLetters(4 * n))]
  {
    WorkerProgress(ss, i);
    RunTurns(ss, i);
    FourMore(Sends(ss, i));
  }

  // ----- The counters along a run

  /** Some task is held that was not. */
  ghost predicate Holds(s: State, s': State) {
    Shape(s) && Shape(s') && exists k :: 0 <= k < TASKS && !s.tcbs[k].held && s'.tcbs[k].held
  }

  /** Some queue is longer. */
  ghost predicate Queues(s: State, s': State) {
    Shape(s) && Shape(s') && exists k :: 0 <= k < TASKS && |s'.tcbs[k].queue| > |s.tcbs[k].queue|
  }

  ghost predicate CountersMove(s: State, s': State) {
    && s'.holdCount == s.holdCount + (if Holds(s, s') then 1 else 0)
    && s'.queueCount == s.queueCount + (if Queues(s, s') then 1 else 0)
  }

  /** A turn only changes blocks as follows: the held bit and the queue of two of them at most. */
  lemma {:induction false} TurnCounters(s: State, s': State)
    requires Inv(s) && 0 <= s.current && WorkerReady(s) && Turn(s, s')
    ensures CountersMove(s, s')
  {
    var k := s.current;
    if HeldOrSuspended(s.tcbs[k]) {
    } else if k == IDLE {
      IdleCounters(s, s');
    } else if k == WORKER {
      WorkerCounters(s, s');
    } else if k <= HANDLER_B {
      HandlerCounters(s, k, s');
    } else {
      DeviceCounters(s, k, s');
    }
  }

  lemma {:induction false} IdleCounters(s: State, s': State)
    requires Runs(s, IDLE) && IdleMoves(s, s')
    ensures CountersMove(s, s')
  {
    if s.count <= 1 { assert s'.tcbs[IDLE].held; }
  }

  lemma {:induction false} WorkerCounters(s: State, s': State)
    requires Runs(s, WORKER) && WorkerReady(s) && WorkerMoves(s, s')
    ensures CountersMove(s, s')
  {
    if s.tcbs[WORKER].suspended {
      var h := OtherHandler(s.target);
      assert |s'.tcbs[h].queue| == |s.tcbs[h].queue| + 1;
    }
  }

  lemma {:induction false} HandlerCounters(s: State, k: int, s': State)
    requires Runs(s, k) && k in {HANDLER_A, HANDLER_B} && HandlerMoves(s, k, s')
    ensures CountersMove(s, s')
  {
    var h := ListsOf(s, k);
    if !MustWait(h) {
      var d := if h.works[0].a1 < DATA_SIZE then k + 2 else WORKER;
      assert |s'.tcbs[d].queue| == |s.tcbs[d].queue| + 1;
    }
  }

  lemma {:induction false} DeviceCounters(s: State, k: int, s': State)
    requires Runs(s, k) && k >= DEVICE_A && DeviceMoves(s, k, s')
    ensures CountersMove(s, s')
  {
    if s.tcbs[k].suspended {
      assert s'.tcbs[k].held;
    } else if s.slots[k - DEVICE_A].Some? {
      assert |s'.tcbs[k - 2].queue| == |s.tcbs[k - 2].queue| + 1;
    }
  }

  ghost function HoldTurns(ss: seq<State>, i: nat): nat
    requires i < |ss|
  {
    if i == 0 then 0 else HoldTurns(ss, i - 1) + (if Holds(ss[i - 1], ss[i]) then 1 else 0)
  }

  ghost function QueueTurns(ss: seq<State>, i: nat): nat
    requires i < |ss|
  {
    if i == 0 then 0 else QueueTurns(ss, i - 1) + (if Queues(ss[i - 1], ss[i]) then 1 else 0)
  }

  /** holdCount counts the turns in which a task is put on hold, queueCount those in which a packet is queued. */
  lemma {:induction false} CountersCount(ss: seq<State>, i: nat)
    requires Run(ss) && WorkerReady(ss[0]) && i < |ss|
    ensures ss[i].holdCount == ss[0].holdCount + HoldTurns(ss, i)
    ensures ss[i].queueCount == ss[0].queueCount + QueueTurns(ss, i)
  {
    if i > 0 {
      CountersCount(ss, i - 1);
      RunTurns(ss, i - 1);
      TurnCounters(ss[i - 1], ss[i]);
    }
  }

  // ----- The letters along a run

  /** The letters of a work packet that have not been sent. */
  function LettersOf(p: Packet): seq<int> {
    if p.kind.WorkKind? && 0 <= p.a1 <= |p.a2| then p.a2[p.a1..] else []
  }

  function LettersIn(q: seq<Packet>): seq<int> {
    if q == [] then [] else LettersOf(q[0]) + LettersIn(q[1..])
  }

  lemma {:induction false} LettersSnoc(q: seq<Packet>, p: Packet)
    ensures LettersIn(q + [p]) == LettersIn(q) + LettersOf(p)
  {
    if q == [] {
      assert q + [p] == [p] && [p][1..] == [];
    } else {
      LettersSnoc(q[1..], p);
      assert (q + [p])[0] == q[0] && (q + [p])[1..] == q[1..] + [p];
    }
  }

  /** What handler h has still to send: from its list first, then from its queue. */
  function Pending(s: State, h: int): seq<int>
    requires Shape(s) && h in {HANDLER_A, HANDLER_B}
  {
    LettersIn(s.handlers[h - HANDLER_A].works) + LettersIn(s.tcbs[h].queue)
  }

  /** What the worker gives handler h in a turn from s. */
  ghost function Given(s: State, h: int): seq<int> {
    if Woken(s, WORKER) && OtherHandler(s.target) == h then FourLetters(s.letter) else []
  }

  /** The letter that arrives at device d in a turn from s to s'. */
  ghost function Arrived(s: State, s': State, d: int): seq<int>
    requires Shape(s) && Shape(s') && 0 <= d < TASKS
  {
    var q, q' := s.tcbs[d].queue, s'.tcbs[d].queue;
    if |q'| > |q| then [q'[|q'| - 1].a1] else []
  }

  ghost predicate LettersMove(s: State, s': State, h: int)
    requires Shape(s) && Shape(s') && h in {HANDLER_A, HANDLER_B}
  {
    Pending(s, h) + Given(s, h) == Arrived(s, s', h + 2) + Pending(s', h)
  }

  lemma {:induction false} TurnLetters(s: State, s': State, h: int)
    requires Inv(s) && 0 <= s.current && WorkerReady(s) && Turn(s, s') && h in {HANDLER_A, HANDLER_B} && Shape(s')
    ensures LettersMove(s, s', h)
  {
    var k := s.current;
    if HeldOrSuspended(s.tcbs[k]) {
      NoLetters(s, s', h);
    } else if k == IDLE {
      IdleNoLetters(s, s', h);
    } else if k == WORKER {
      WorkerLettersMove(s, s', h);
    } else if k == h {
      HandlerLettersMove(s, s', h);
    } else if k <= HANDLER_B {
      OtherNoLetters(s, k, s', h);
    } else {
      DeviceLettersMove(s, k, s', h);
    }
  }

  /** A turn that leaves the handler's list and queue alone, and sends its device nothing. */
  lemma {:induction false} NoLetters(s: State, s': State, h: int)
    requires Shape(s) && Shape(s') && h in {HANDLER_A, HANDLER_B} && Given(s, h) == []
    requires s'.handlers[h - HANDLER_A].works == s.handlers[h - HANDLER_A].works
    requires LettersIn(s'.tcbs[h].queue) == LettersIn(s.tcbs[h].queue)
    requires |s'.tcbs[h + 2].queue| <= |s.tcbs[h + 2].queue|
    ensures LettersMove(s, s', h)
  {
    var p := Pending(s, h);
    assert p + [] == p && [] + p == p;
  }

  lemma {:induction false} IdleNoLetters(s: State, s': State, h: int)
    requires Runs(s, IDLE) && IdleMoves(s, s') && h in {HANDLER_A, HANDLER_B} && Shape(s')
    ensures LettersMove(s, s', h)
  {
    NoLetters(s, s', h);
  }

  lemma {:induction false} OtherNoLetters(s: State, k: int, s': State, h: int)
    requires Runs(s, k) && {k, h} == {HANDLER_A, HANDLER_B} && HandlerMoves(s, k, s') && Shape(s')
    ensures LettersMove(s, s', h)
  {
    assert k != h;
    NoLetters(s, s', h);
  }

  lemma {:induction false} WorkerLettersMove(s: State, s': State, h: int)
    requires Runs(s, WORKER) && WorkerReady(s) && WorkerMoves(s, s') && h in {HANDLER_A, HANDLER_B} && Shape(s')
    ensures LettersMove(s, s', h)
  {
    if !s.tcbs[WORKER].suspended || h != OtherHandler(s.target) {
      NoLetters(s, s', h);
    } else {
      WokenHasPacket(s, WORKER);
      var p := s.tcbs[WORKER].queue[0];
      var sent := Packet(p.name, WORKER, p.kind, 0, FourLetters(s.letter));
      assert LettersOf(sent) == FourLetters(s.letter);
      GivenLetters(s, s', h, sent);
    }
  }

  /** A packet more in the handler's queue. */
  lemma {:induction false} GivenLetters(s: State, s': State, h: int, p: Packet)
    requires Shape(s) && Shape(s') && h in {HANDLER_A, HANDLER_B} && Given(s, h) == LettersOf(p)
    requires s'.handlers == s.handlers && s'.tcbs[h].queue == s.tcbs[h].queue + [p]
    requires s'.tcbs[h + 2].queue == s.tcbs[h + 2].queue
    ensures LettersMove(s, s', h)
  {
    LettersSnoc(s.tcbs[h].queue, p);
    Appended(LettersIn(s.handlers[h - HANDLER_A].works), LettersIn(s.tcbs[h].queue), LettersOf(p));
  }

  lemma {:induction false} Appended(a: seq<int>, q: seq<int>, g: seq<int>)
    ensures (a + q) + g == [] + (a + (q + g))
  {
  }

  lemma {:induction false} DeviceLettersMove(s: State, k: int, s': State, h: int)
    requires Runs(s, k) && k >= DEVICE_A && DeviceMoves(s, k, s') && h in {HANDLER_A, HANDLER_B} && Shape(s')
    ensures LettersMove(s, s', h)
  {
    if !s.tcbs[k].suspended && s.slots[k - DEVICE_A].Some? && h == k - 2 {
      var p := s.slots[k - DEVICE_A].value;
      assert Routed(k, p);
      LettersSnoc(s.tcbs[h].queue, p.(id := k));
    }
    NoLetters(s, s', h);
  }

  lemma {:induction false} HandlerLettersMove(s: State, s': State, h: int)
    requires Runs(s, h) && h in {HANDLER_A, HANDLER_B} && HandlerMoves(s, h, s') && Shape(s')
    ensures LettersMove(s, s', h)
  {
    TakingKeeps(s, h);
    HandlerArrivals(s, s', h);
    Concluded(LettersIn(ListsOf(s, h).works), LettersIn(BlockOf(s, h).queue), Arrived(s, s', h + 2),
      LettersIn(s'.handlers[h - HANDLER_A].works));
  }

  /** What leaves the handler's list arrives at its device. */
  lemma {:induction false} HandlerArrivals(s: State, s': State, h: int)
    requires Runs(s, h) && h in {HANDLER_A, HANDLER_B} && HandlerMoves(s, h, s') && Shape(s')
    ensures s'.tcbs[h].queue == BlockOf(s, h).queue
    ensures LettersIn(ListsOf(s, h).works) == Arrived(s, s', h + 2) + LettersIn(s'.handlers[h - HANDLER_A].works)
  {
    HandlerTakes(s, s', h);
    LettersLeave(ListsOf(s, h).works, s'.handlers[h - HANDLER_A].works, Arrived(s, s', h + 2));
  }

  /** The list is as before, or a letter of its first packet is gone, or that packet with no letters left. */
  ghost predicate Leaves(l: seq<Packet>, l': seq<Packet>, d: seq<int>) {
    || (l' == l && d == [])
    || (l != [] && InProgress(l[0]) && l[0].a1 < DATA_SIZE && l' == AfterOne(l) && d == [l[0].a2[l[0].a1]])
    || (l != [] && InProgress(l[0]) && l[0].a1 >= DATA_SIZE && l' == l[1..] && d == [])
  }

  lemma {:induction false} HandlerTakes(s: State, s': State, h: int)
    requires Runs(s, h) && h in {HANDLER_A, HANDLER_B} && HandlerMoves(s, h, s') && Shape(s')
    ensures s'.tcbs[h].queue == BlockOf(s, h).queue
    ensures Leaves(ListsOf(s, h).works, s'.handlers[h - HANDLER_A].works, Arrived(s, s', h + 2))
  {
    HandlerInProgress(s, h);
    var l, l', d := ListsOf(s, h), s'.handlers[h - HANDLER_A].works, Arrived(s, s', h + 2);
    if MustWait(l) {
      assert l' == l.works && d == [];
    } else if l.works[0].a1 < DATA_SIZE {
      assert l' == AfterOne(l.works) && d == [l.works[0].a2[l.works[0].a1]];
    } else {
      assert l' == l.works[1..] && d == [];
    }
  }

  lemma {:induction false} HandlerInProgress(s: State, h: int)
    requires Runs(s, h) && h in {HANDLER_A, HANDLER_B}
    ensures ListsOf(s, h).works != [] ==> InProgress(ListsOf(s, h).works[0])
  {
    HandlerStep(s, h);
  }

  lemma {:induction false} LettersLeave(l: seq<Packet>, l': seq<Packet>, d: seq<int>)
    requires Leaves(l, l', d)
    ensures LettersIn(l) == d + LettersIn(l')
  {
    if l' == l {
      assert d + LettersIn(l) == LettersIn(l);
    } else {
      FirstLetters(l);
    }
  }

  lemma {:induction false} Concluded(a: seq<int>, q: seq<int>, d: seq<int>, b: seq<int>)
    requires a == d + b
    ensures a + q + [] == d + (b + q)
  {
  }

  /** The list after a letter of its first packet was sent. */
  function AfterOne(l: seq<Packet>): seq<Packet>
    requires l != []
  {
    [l[0].(a1 := l[0].a1 + 1)] + l[1..]
  }

  lemma {:induction false} FirstLetters(l: seq<Packet>)
    requires l != [] && InProgress(l[0])
    ensures l[0].a1 < DATA_SIZE ==> LettersIn(l) == [l[0].a2[l[0].a1]] + LettersIn(AfterOne(l))
    ensures l[0].a1 >= DATA_SIZE ==> LettersIn(l) == [] + LettersIn(l[1..])
  {
    FirstLetter(l[0]);
    if l[0].a1 < DATA_SIZE {
      var w', rest := AfterOne(l)[0], LettersIn(l[1..]);
      assert AfterOne(l)[1..] == l[1..];
      assert LettersIn(AfterOne(l)) == LettersOf(w') + rest;
      Regrouped([l[0].a2[l[0].a1]], LettersOf(w'), rest);
    }
  }

  lemma {:induction false} FirstLetter(w: Packet)
    requires InProgress(w)
    ensures w.a1 < DATA_SIZE ==> LettersOf(w) == [w.a2[w.a1]] + LettersOf(w.(a1 := w.a1 + 1))
    ensures w.a1 >= DATA_SIZE ==> LettersOf(w) == []
  {
  }

  /** Moving a packet from the queue to its list does not change what is to be sent. */
  lemma {:induction false} TakingKeeps(s: State, h: int)
    requires Shape(s) && h in {HANDLER_A, HANDLER_B}
    ensures LettersIn(ListsOf(s, h).works) + LettersIn(BlockOf(s, h).queue) == Pending(s, h)
  {
    var t := s.tcbs[h];
    if t.suspended && t.queue != [] {
      var l, p := s.handlers[h - HANDLER_A], t.queue[0];
      JoinedLetters(l, p);
      Regrouped(LettersIn(l.works), LettersOf(p), LettersIn(t.queue[1..]));
    }
  }

  lemma {:induction false} JoinedLetters(l: Handler, p: Packet)
    ensures LettersIn(Joined(l, p).works) == LettersIn(l.works) + LettersOf(p)
  {
    LettersSnoc(l.works, p);
  }

  lemma {:induction false} Regrouped(a: seq<int>, b: seq<int>, c: seq<int>)
    ensures a + b + c == a + (b + c) && (b == [] ==> a + c == a + (b + c))
  {
  }

  ghost function AllGiven(ss: seq<State>, i: nat, h: int): seq<int>
    requires i < |ss|
  {
    if i == 0 then [] else AllGiven(ss, i - 1, h) + Given(ss[i - 1], h)
  }

  ghost function AllArrived(ss: seq<State>, i: nat, d: int): seq<int>
    requires i < |ss| && 0 <= d < TASKS && forall j :: 0 <= j <= i ==> Shape(ss[j])
  {
    if i == 0 then [] else AllArrived(ss, i - 1, d) + Arrived(ss[i - 1], ss[i], d)
  }

  lemma {:induction false} RunShapes(ss: seq<State>, i: nat)
    requires Run(ss) && i < |ss|
    ensures forall j :: 0 <= j <= i ==> Shape(ss[j])
  {
    forall j | 0 <= j <= i ensures Shape(ss[j]) {
      RunConserves(ss, j, 0);
    }
  }

  /** The letters arrive at a device in the order in which its handler was given them, none lost and none twice. */
  lemma {:induction false} LettersArrive(ss: seq<State>, i: nat, h: int)
    requires Run(ss) && WorkerReady(ss[0]) && i < |ss| && h in {HANDLER_A, HANDLER_B}
    ensures forall j :: 0 <= j <= i ==> Shape(ss[j])
    ensures Pending(ss[0], h) + AllGiven(ss, i, h) == AllArrived(ss, i, h + 2) + Pending(ss[i], h)
  {
    RunShapes(ss, i);
    if i > 0 {
      LettersArrive(ss, i - 1, h);
      RunTurns(ss, i - 1);
      TurnLetters(ss[i - 1], ss[i], h);
      Follow(Pending(ss[0], h), AllGiven(ss, i - 1, h), Given(ss[i - 1], h), AllArrived(ss, i - 1, h + 2),
        Pending(ss[i - 1], h), Arrived(ss[i - 1], ss[i], h + 2), Pending(ss[i], h));
    }
  }

  lemma {:induction false} Follow(a: seq<int>, b: seq<int>, c: seq<int>, d: seq<int>, e: seq<int>, f: seq<int>,
      g: seq<int>)
    requires a + b == d + e && e + c == f + g
    ensures a + (b + c) == (d + f) + g
  {
    assert a + (b + c) == (a + b) + c == d + (e + c);
    assert d + (f + g) == (d + f) + g;
  }

  // ----- From the start of the program

  /** The letters of n work packets, those of every other one, beginning with the first for handler B. */
  function WorkFor(n: nat, h: int): seq<int> {
    if n == 0 then []
    else WorkFor(n - 1, h) + (if (n % 2 == 1) == (h == HANDLER_B) then FourLetters(4 * (n - 1)) else [])
  }

  lemma {:induction false} AllGivenIs(ss: seq<State>, i: nat, h: int)
    requires Run(ss) && ss[0].target == HANDLER_A && ss[0].letter == 0 && i < |ss| && h in {HANDLER_A, HANDLER_B}
    ensures AllGiven(ss, i, h) == WorkFor(Sends(ss, i), h)
  {
    if i > 0 {
      AllGivenIs(ss, i - 1, h);
      WorkerProgress(ss, i - 1);
      NextWork(Sends(ss, i - 1), ss[i - 1], h);
    }
  }

  lemma {:induction false} NextWork(n: nat, s: State, h: int)
    requires WorkerAfter(n, s.target, s.letter) && h in {HANDLER_A, HANDLER_B}
    ensures WorkFor(n, h) + Given(s, h) == WorkFor(if Woken(s, WORKER) then n + 1 else n, h)
  {
    if Woken(s, WORKER) {
      OneMoreWork(n, s.target, s.letter, h);
    } else {
      NothingMore(WorkFor(n, h));
    }
  }

  lemma {:induction false} NothingMore(w: seq<int>)
    ensures w + [] == w
  {
  }

  lemma {:induction false} OneMoreWork(n: nat, target: int, letter: int, h: int)
    requires WorkerAfter(n, target, letter) && h in {HANDLER_A, HANDLER_B}
    ensures WorkFor(n + 1, h) == WorkFor(n, h) + if OtherHandler(target) == h then FourLetters(letter) else []
  {
    FourMore(n);
    assert ((n + 1) % 2 == 1) == (n % 2 == 0);
  }

  lemma {:induction false} NoWorkIn(q: seq<Packet>)
    requires forall k :: 0 <= k < |q| ==> q[k].kind.DeviceKind?
    ensures LettersIn(q) == []
  {
    if q != [] { NoWorkIn(q[1..]); }
  }

  /**
   At every moment of every run of the program, the letters that have arrived at a device are
   those of the work packets for its handler, in order, up to the ones the handler still has.
   */
  lemma {:induction false} DeviceGetsAlphabet(ss: seq<State>, i: nat, h: int)
    requires Run(ss) && Initial(ss[0]) && i < |ss| && h in {HANDLER_A, HANDLER_B}
    ensures forall j :: 0 <= j <= i ==> Shape(ss[j])
    ensures AllArrived(ss, i, h + 2) + Pending(ss[i], h) == WorkFor(Sends(ss, i), h)
  {
    LettersArrive(ss, i, h);
    AllGivenIs(ss, i, h);
    NoWorkIn(ss[0].tcbs[h].queue);
    assert Pending(ss[0], h) == [];
    assert [] + WorkFor(Sends(ss, i), h) == WorkFor(Sends(ss, i), h);
  }
}
