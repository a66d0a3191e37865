/**
 * The MiROS kernel of miros.c: its globals (`OS_thread`, `OS_readySet`,
 * `OS_delayedSet`, `OS_curr`, `OS_next`, `idleThread`) are the fields of one
 * `Kernel` object, and each kernel function is a method that updates them in
 * place.  Every method runs with interrupts masked, so each is one atomic step.
 */
module Miros {
  import opened CTypes
  import opened Bitmap
  import opened PrioritySearch
  import opened StackFrame
  import opened KernelState

  /** A thread control block, `OSThread`. */
  class Thread {
    /** The saved stack pointer, a byte address. */
    var sp: u32
    /** The timeout delay down-counter. */
    var timeout: u32
    var prio: u8

    /** A TCB with static storage starts out zeroed. */
    constructor ()
      ensures sp == 0 && timeout == 0 && prio == 0
    {
      sp := 0;
      timeout := 0;
      prio := 0;
    }
  }

  class Kernel {
    /** `OS_thread`: the thread registered at each priority, or null. */
    const thread: array<Thread?>
    /** `OS_readySet`: bit `p - 1` is set when the thread at priority `p` is ready. */
    var readySet: Word
    /** `OS_delayedSet`: bit `p - 1` is set when the thread at priority `p` is delayed. */
    var delayedSet: Word
    /** `OS_curr`: the running thread. */
    var curr: Thread?
    /** `OS_next`: the thread to switch to. */
    var next: Thread?
    /** The PendSV set-pending bit of the interrupt control register: a switch is requested. */
    var switchPending: bool
    /** `idleThread`, registered at priority 0 by `OSInit`. */
    const idle: Thread

    /**
     * The registry invariant: every registered thread knows its own priority,
     * every ready or delayed bit names a registered thread, no thread is both
     * ready and delayed, and the cursors point at registered threads.
     */
    ghost predicate Valid()
      reads this, thread, thread[..], curr, next
    {
      thread.Length == SLOTS &&
      (forall p :: 0 <= p < SLOTS && thread[p] != null ==> thread[p].prio as int == p) &&
      (forall i :: 0 <= i < WIDTH && readySet[i] ==> thread[i + 1] != null) &&
      (forall i :: 0 <= i < WIDTH && delayedSet[i] ==> thread[i + 1] != null) &&
      Disjoint(readySet, delayedSet) &&
      (curr != null ==> curr.prio as int < SLOTS && thread[curr.prio] == curr) &&
      (next != null ==> next.prio as int < SLOTS && thread[next.prio] == next)
    }

    /** The kernel state as a value: each slot's registration and timeout, and the two sets. */
    ghost function View(): (v: KernelView)
      requires thread.Length == SLOTS
      reads this, thread, thread[..]
    {
      KernelView(
        seq(SLOTS, p requires 0 <= p < SLOTS reads thread, thread[..] =>
          if thread[p] == null then Empty else Registered(thread[p].timeout)),
        readySet, delayedSet)
    }

    /** The registry invariant gives the invariant of the kernel's state. */
    lemma ViewConsistent()
      requires Valid()
      ensures Consistent(View())
    {
    }

    /** The zero-initialised globals, before `OSInit`. */
    constructor ()
      ensures Valid() && View() == Boot()
      ensures forall p :: 0 <= p < SLOTS ==> thread[p] == null
      ensures curr == null && next == null && !switchPending
      ensures fresh(thread) && fresh(idle)
      ensures idle.sp == 0 && idle.timeout == 0 && idle.prio == 0
    {
      thread := new Thread?[SLOTS](_ => null);
      readySet := Zero();
      delayedSet := Zero();
      curr := null;
      next := null;
      switchPending := false;
      idle := new Thread();
    }

    /**
     * `OSThread_start`: registers `me` at priority `prio` and fabricates its
     * initial stack in `ram`, the memory as 32-bit words (byte address
     * `4 * k` is word `k`).  Fatal unless `prio < 33` and the slot is free.
     */
    method ThreadStart(me: Thread, prio: u8, handler: u32, ram: array<u32>, stkSto: u32, stkSize: u32)
      returns (status: Outcome)
      requires Valid()
      requires 0 < stkSto <= 0xFFFF_FFF8 && stkSto as int + stkSize as int < 0x1_0000_0000
      requires 4 * FRAME_WORDS <= RoundDown8(stkSto as nat + stkSize as nat) <= 4 * ram.Length
      modifies this`readySet, thread, me`sp, me`prio, ram
      ensures status == Ok || status == Fatal(164)
      ensures status.Ok? <==> prio as int < SLOTS && old(thread[prio]) == null
      ensures status.Fatal? ==> Valid() && unchanged(this, thread, me, ram)
      ensures status.Ok? ==> (Valid() <==> me !in old(thread[..]))
      ensures status.Ok? ==>
        thread[prio] == me && me.prio == prio &&
        (forall q :: 0 <= q < SLOTS && q != prio as int ==> thread[q] == old(thread[q])) &&
        View() == Register(old(View()), prio as nat, me.timeout)
      ensures status.Ok? ==>
        me.sp as int == RoundDown8(stkSto as nat + stkSize as nat) - 4 * FRAME_WORDS &&
        ram[me.sp as int / 4 .. me.sp as int / 4 + FRAME_WORDS] == InitialFrame(handler) &&
        (forall k :: RoundUp8(stkSto as nat) / 4 <= k < me.sp as int / 4 ==> ram[k] == POISON) &&
        (forall k :: 0 <= k < ram.Length && k < RoundUp8(stkSto as nat) / 4 && k < me.sp as int / 4 ==>
           ram[k] == old(ram[k])) &&
        (forall k :: RoundDown8(stkSto as nat + stkSize as nat) / 4 <= k < ram.Length ==> ram[k] == old(ram[k]))
    {
      if !(prio as int < SLOTS && thread[prio] == null) {
        return Fatal(164);
      }
      Fabricate(me, handler, ram, stkSto, stkSize);
      Enrol(me, prio);
      status := Ok;
    }

    /**
     * The stack fabrication of `OSThread_start`: the initial frame below the
     * stack top, `me.sp` pointing at it, and the poison pattern below that
     * down to the stack limit.  The registry is not touched.
     */
    method Fabricate(me: Thread, handler: u32, ram: array<u32>, stkSto: u32, stkSize: u32)
      requires Valid()
      requires 0 < stkSto <= 0xFFFF_FFF8 && stkSto as int + stkSize as int < 0x1_0000_0000
      requires 4 * FRAME_WORDS <= RoundDown8(stkSto as nat + stkSize as nat) <= 4 * ram.Length
      modifies me`sp, ram
      ensures Valid() && View() == old(View())
      ensures me.sp as int == RoundDown8(stkSto as nat + stkSize as nat) - 4 * FRAME_WORDS
      ensures ram[me.sp as int / 4 .. me.sp as int / 4 + FRAME_WORDS] == InitialFrame(handler)
      ensures forall k :: RoundUp8(stkSto as nat) / 4 <= k < me.sp as int / 4 ==> ram[k] == POISON
      ensures forall k :: 0 <= k < ram.Length && k < RoundUp8(stkSto as nat) / 4 && k < me.sp as int / 4 ==>
        ram[k] == old(ram[k])
      ensures forall k :: RoundDown8(stkSto as nat + stkSize as nat) / 4 <= k < ram.Length ==>
        ram[k] == old(ram[k])
    {
      var top := RoundDown8(stkSto as nat + stkSize as nat);
      var sp := BuildStack(ram, top / 4, RoundUp8(stkSto as nat) / 4, handler);
      WordAddress(top, sp);
      SetStackPointer(me, (4 * sp) as u32);
    }

    /** Stores a stack pointer in a TCB: neither the registry invariant nor the state changes. */
    method SetStackPointer(me: Thread, sp: u32)
      requires Valid()
      modifies me`sp
      ensures Valid() && View() == old(View()) && me.sp == sp
    {
      me.sp := sp;
      assert View() == old(View());
    }

    /**
     * The registration step of `OSThread_start`: `me` takes the free slot
     * `prio` and learns its priority, and a thread other than the idle
     * thread becomes ready.  The registry invariant survives exactly when
     * `me` was not registered already.
     */
    method Enrol(me: Thread, prio: u8)
      requires Valid() && prio as int < SLOTS && thread[prio] == null
      modifies this`readySet, thread, me`prio
      ensures thread[prio] == me && me.prio == prio
      ensures forall q :: 0 <= q < SLOTS && q != prio as int ==> thread[q] == old(thread[q])
      ensures View() == Register(old(View()), prio as nat, me.timeout)
      ensures Valid() <==> me !in old(thread[..])
    {
      ghost var wasRegistered := me in thread[..];
      ghost var v := View();
      thread[prio] := me;
      me.prio := prio;
      if prio > 0 {
        readySet := Or(readySet, Bit(prio as nat - 1));
      }
      assert View().slots == v.slots[prio := Registered(me.timeout)];
      if wasRegistered {
        var q :| 0 <= q < SLOTS && old(thread[q]) == me;
        assert thread[q] == me && thread[q].prio as int != q;
      }
    }

    /** Sets the timeout counter of the registered thread `t`: only its slot of the view changes. */
    method SetTimeout(t: Thread, x: u32)
      requires Valid() && t.prio as int < SLOTS && thread[t.prio] == t
      modifies t`timeout
      ensures Valid() && t.timeout == x
      ensures View() == old(View()).(slots := old(View()).slots[t.prio := Registered(x)])
    {
      t.timeout := x;
    }

    /** `OSInit`: registers the idle thread at priority 0, where it never enters the ready set. */
    method Init(idleHandler: u32, ram: array<u32>, stkSto: u32, stkSize: u32) returns (status: Outcome)
      requires Valid()
      requires 0 < stkSto <= 0xFFFF_FFF8 && stkSto as int + stkSize as int < 0x1_0000_0000
      requires 4 * FRAME_WORDS <= RoundDown8(stkSto as nat + stkSize as nat) <= 4 * ram.Length
      modifies this`readySet, thread, idle`sp, idle`prio, ram
      ensures status == Ok || status == Fatal(164)
      ensures status.Ok? <==> old(thread[0]) == null
      ensures status.Fatal? ==> Valid() && unchanged(this, thread, idle, ram)
      ensures status.Ok? ==> (Valid() <==> idle !in old(thread[..]))
      ensures status.Ok? ==>
        thread[0] == idle && readySet == old(readySet) &&
        (forall q :: 1 <= q < SLOTS ==> thread[q] == old(thread[q])) &&
        View() == Register(old(View()), 0, idle.timeout)
      ensures status.Ok? ==>
        idle.sp as int == RoundDown8(stkSto as nat + stkSize as nat) - 4 * FRAME_WORDS &&
        ram[idle.sp as int / 4 .. idle.sp as int / 4 + FRAME_WORDS] == InitialFrame(idleHandler) &&
        (forall k :: RoundUp8(stkSto as nat) / 4 <= k < idle.sp as int / 4 ==> ram[k] == POISON) &&
        (forall k :: 0 <= k < ram.Length && k < RoundUp8(stkSto as nat) / 4 && k < idle.sp as int / 4 ==>
           ram[k] == old(ram[k])) &&
        (forall k :: RoundDown8(stkSto as nat + stkSize as nat) / 4 <= k < ram.Length ==> ram[k] == old(ram[k]))
    {
      status := ThreadStart(idle, 0, idleHandler, ram, stkSto, stkSize);
    }

    /**
     * `OSSched`: selects the highest-priority ready thread, or the idle thread
     * when none is ready, and requests a switch when it is not the running one.
     */
    method Sched()
      requires Valid()
      modifies this`next, this`switchPending
      ensures Valid()
      ensures next == thread[Pick(readySet)]
      ensures readySet != Zero() ==> next != null
      ensures switchPending == (old(switchPending) || next != curr)
    {
      if readySet == Zero() {
        next := thread[0];
      } else {
        Log2Highest(readySet);
        next := thread[Log2(readySet)];
        assert next != null;
      }
      if next != curr {
        switchPending := true;
      }
    }

    /**
     * `OS_delay(ticks)`: the running thread leaves the ready set for the
     * delayed set with `ticks` on its counter, and the scheduler runs.
     * Fatal when called from the idle thread.
     */
    method Delay(ticks: u32) returns (status: Outcome)
      requires Valid()
      requires curr != null || thread[0] == null
      modifies this`readySet, this`delayedSet, this`next, this`switchPending, curr
      ensures status == Ok || status == Fatal(118)
      ensures status.Fatal? <==> old(curr) == old(thread[0])
      ensures status.Fatal? ==> Valid() && unchanged(this) && (curr != null ==> unchanged(curr))
      ensures old(curr) != null ==> old(curr).sp == old(curr.sp) && old(curr).prio == old(curr.prio)
      ensures status.Ok? ==>
        Valid() && old(curr) != null && 1 <= old(curr.prio) as int < SLOTS &&
        View() == KernelState.Delay(old(View()), old(curr.prio) as nat, ticks)
      ensures status.Ok? ==>
        old(curr).timeout == ticks && readySet == AndNot(old(readySet), Bit(old(curr.prio) as nat - 1)) &&
        delayedSet == Or(old(delayedSet), Bit(old(curr.prio) as nat - 1))
      ensures status.Ok? ==>
        next == thread[Pick(readySet)] && switchPending == (old(switchPending) || next != curr)
    {
      if curr == thread[0] {
        return Fatal(118);
      }
      Block(curr, ticks);
      Sched();
      status := Ok;
    }

    /**
     * The state change of `OS_delay` before it reschedules: the registered
     * thread `t` gets `ticks` on its counter and its bit moves from the
     * ready set to the delayed set.
     */
    method Block(t: Thread, ticks: u32)
      requires Valid() && 1 <= t.prio as int < SLOTS && thread[t.prio] == t
      modifies this`readySet, this`delayedSet, t`timeout
      ensures Valid() && t.timeout == ticks
      ensures readySet == AndNot(old(readySet), Bit(t.prio as nat - 1))
      ensures delayedSet == Or(old(delayedSet), Bit(t.prio as nat - 1))
      ensures View() == KernelState.Delay(old(View()), t.prio as nat, ticks)
    {
      ghost var v := View();
      SetTimeout(t, ticks);
      var bit := Bit(t.prio as nat - 1);
      readySet := AndNot(readySet, bit);
      delayedSet := Or(delayedSet, bit);
      assert View() == KernelState.Delay(v, t.prio as nat, ticks);
    }

    /**
     * `OS_tick`: visits every delayed thread once, highest priority first,
     * counts its timeout down, and readies those whose timeout runs out.
     * Fatal when a delayed thread's timeout is already zero.
     */
    method Tick() returns (status: Outcome)
      requires Valid()
      modifies this`readySet, this`delayedSet, thread[..]
      ensures Valid()
      ensures status == Ok || status == Fatal(99)
      ensures status.Ok? <==> Armed(old(View()))
      ensures status.Ok? ==> View() == KernelState.Tick(old(View()))
      ensures forall p :: 0 <= p < SLOTS && thread[p] != null ==>
        thread[p].sp == old(thread[p].sp) && thread[p].prio == old(thread[p].prio)
    {
      ghost var v0 := View();
      TickStart(v0);
      var workingSet := delayedSet;
      while workingSet != Zero()
        invariant Valid()
        invariant forall i :: 0 <= i < WIDTH && workingSet[i] ==> v0.delayed[i]
        invariant ArmedOn(v0, Visited(v0, workingSet))
        invariant View() == TickPart(v0, workingSet)
        invariant forall p :: 0 <= p < SLOTS && thread[p] != null ==>
          thread[p].sp == old(thread[p].sp) && thread[p].prio == old(thread[p].prio)
        decreases Log2(workingSet)
      {
        ghost var ws0 := workingSet;
        Log2Highest(workingSet);
        var p := Log2(workingSet);
        var t := thread[p];
        if t == null || t.timeout == 0 {
          assert View().slots[p] == v0.slots[p];
          return Fatal(99);
        }
        assert View().slots[p] == Registered(t.timeout) == v0.slots[p];
        TickStep(v0, workingSet, p);
        var bit := TickThread(t);
        workingSet := AndNot(workingSet, bit);
        assert View() == TickPart(v0, workingSet);
        Log2DropHighest(ws0);
      }
      status := Ok;
    }

    /**
     * One visit of the loop of `OS_tick` to the delayed thread `t`: its
     * timeout counts down, and on reaching zero it moves from the delayed set
     * to the ready set.  Returns the bit of its priority.
     */
    method TickThread(t: Thread) returns (bit: Word)
      requires Valid() && 1 <= t.prio as int < SLOTS && thread[t.prio] == t && t.timeout != 0
      modifies this`readySet, this`delayedSet, t`timeout
      ensures Valid() && bit == Bit(t.prio as nat - 1)
      ensures View() == TickOne(old(View()), t.prio as nat)
    {
      bit := Bit(t.prio as nat - 1);
      SetTimeout(t, t.timeout - 1);
      if t.timeout == 0 {
        readySet := Or(readySet, bit);
        delayedSet := AndNot(delayedSet, bit);
      }
    }

    /** `SysTick_Handler`: a tick, then the scheduler; a failed tick halts before scheduling. */
    method SysTickHandler() returns (status: Outcome)
      requires Valid()
      modifies this`readySet, this`delayedSet, this`next, this`switchPending, thread[..]
      ensures Valid()
      ensures status == Ok || status == Fatal(99)
      ensures status.Ok? <==> Armed(old(View()))
      ensures status.Ok? ==>
        View() == KernelState.Tick(old(View())) &&
        next == thread[Pick(readySet)] && switchPending == (old(switchPending) || next != curr)
    {
      status := Tick();
      if status.Ok? {
        Sched();
      }
    }

    /**
     * `PendSV_Handler`, at the level of its C comments: saves the stack
     * pointer `sp` of the interrupted thread (if any) into its TCB, makes
     * `next` current and returns the stack pointer to resume it from.
     */
    method PendSv(sp: u32) returns (newSp: u32)
      requires Valid() && next != null
      modifies this`curr, this`switchPending, curr
      ensures Valid()
      ensures old(curr) != null ==>
        old(curr).sp == sp && old(curr).prio == old(curr.prio) && old(curr).timeout == old(curr.timeout)
      ensures curr == next && next == old(next) && !switchPending
      ensures newSp == curr.sp
      ensures newSp == if old(curr) == next then sp else old(next.sp)
      ensures View() == old(View())
      ensures forall p :: 0 <= p < SLOTS && thread[p] != null && thread[p] != old(curr) ==>
        thread[p].sp == old(thread[p].sp)
    {
      switchPending := false;
      if curr != null {
        curr.sp := sp;
      }
      newSp := next.sp;
      curr := next;
    }
  }
}
