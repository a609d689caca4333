/**
 benchmarks/richards.js:250-318: task control blocks, with their state as the bits the code
 keeps it in.
 */
module TaskBlocks {

  const STATE_RUNNING: bv3 := 0
  const STATE_RUNNABLE: bv3 := 1
  const STATE_SUSPENDED: bv3 := 2
  const STATE_HELD: bv3 := 4

  predicate Runnable(state: bv3) { state & STATE_RUNNABLE != 0 }
  predicate Suspended(state: bv3) { state & STATE_SUSPENDED != 0 }
  predicate Held(state: bv3) { state & STATE_HELD != 0 }

  datatype Bits = Bits(held: bool, suspended: bool, runnable: bool)

  /** The state as three independent bits. */
  function BitsOf(state: bv3): Bits {
    Bits(Held(state), Suspended(state), Runnable(state))
  }

  class TaskControlBlock {
    const link: TaskControlBlock?
    const id: int
    const priority: int
    var state: bv3

    constructor (link: TaskControlBlock?, id: int, priority: int, hasWork: bool)
      ensures this.link == link && this.id == id && this.priority == priority
      ensures BitsOf(state) == Bits(false, true, hasWork)
    {
      this.link, this.id, this.priority := link, id, priority;
      state := if hasWork then STATE_SUSPENDED | STATE_RUNNABLE else STATE_SUSPENDED;
    }

    method SetRunning()
      modifies this`state
      ensures BitsOf(state) == Bits(false, false, false)
    {
      state := STATE_RUNNING;
    }

    method MarkAsNotHeld()
      modifies this`state
      ensures BitsOf(state) == BitsOf(old(state)).(held := false)
    {
      state := state & !STATE_HELD;
    }

    method MarkAsHeld()
      modifies this`state
      ensures BitsOf(state) == BitsOf(old(state)).(held := true)
    {
      state := state | STATE_HELD;
    }

    method MarkAsSuspended()
      modifies this`state
      ensures BitsOf(state) == BitsOf(old(state)).(suspended := true)
    {
      state := state | STATE_SUSPENDED;
    }

    method MarkAsRunnable()
      modifies this`state
      ensures BitsOf(state) == BitsOf(old(state)).(runnable := true)
    {
      state := state | STATE_RUNNABLE;
    }

    /** The comparison with one state value is a test of all three bits. */
    method IsHeldOrSuspended() returns (r: bool)
      ensures r <==> var b := BitsOf(state); b.held || (b.suspended && !b.runnable)
    {
      r := state & STATE_HELD != 0 || state == STATE_SUSPENDED;
    }

    method IsSuspendedRunnable() returns (r: bool)
      ensures r <==> BitsOf(state) == Bits(false, true, true)
    {
      r := state == STATE_SUSPENDED | STATE_RUNNABLE;
    }

    /** Running again; runnable if there is another packet. */
    method WakeUp(more: bool)
      modifies this`state
      ensures BitsOf(state) == Bits(false, false, more)
    {
      state := if more then STATE_RUNNABLE else STATE_RUNNING;
    }
  }
}
