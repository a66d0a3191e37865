/**
 * The application of main.c run on the kernel model: the idle thread, then
 * `blinky1` at priority 5 and `blinky2` at priority 1, each with a 40-word
 * (160-byte) stack; `blinky1` delays for one tick, and the tick brings it back.
 */
module Blinky {
  import opened CTypes
  import opened Bitmap
  import opened StackFrame
  import opened KernelState
  import opened Miros

  /** Byte addresses of the three stacks, 8-byte aligned, in a 1 KiB memory. */
  const IDLE_STACK: u32 := 0x100
  const BLINKY1_STACK: u32 := 0x200
  const BLINKY2_STACK: u32 := 0x300
  const STACK_BYTES: u32 := 160

  /** The registry of the application: the idle thread, `blinky1` at priority 5, `blinky2` at 1. */
  ghost predicate Registry(k: Kernel, blinky1: Thread, blinky2: Thread)
    reads k, k.thread, k.thread[..], k.curr, k.next
  {
    k.Valid() && k.thread[0] == k.idle && k.thread[5] == blinky1 && k.thread[1] == blinky2 &&
    forall q :: 2 <= q < SLOTS && q != 5 ==> k.thread[q] == null
  }

  /** `blinky1`'s saved stack pointer points at an intact initial frame for `handler1`. */
  ghost predicate FrameReady(ram: array<u32>, blinky1: Thread, handler1: u32)
    reads ram, blinky1
  {
    blinky1.sp as int % 4 == 0 && blinky1.sp as int / 4 + FRAME_WORDS <= BLINKY2_STACK as int / 4 <= ram.Length &&
    ram[blinky1.sp as int / 4 .. blinky1.sp as int / 4 + FRAME_WORDS] == InitialFrame(handler1)
  }

  /** The ready set holding priorities 5 and 1, and the ready set holding only 1. */
  lemma DemoPicks()
    ensures Pick(Or(Or(Zero(), Bit(4)), Bit(0))) == 5
    ensures Pick(AndNot(Or(Or(Zero(), Bit(4)), Bit(0)), Bit(4))) == 1
  {
    var both := Or(Or(Zero(), Bit(4)), Bit(0));
    assert forall j :: 0 <= j < WIDTH ==> (both[j] <==> j == 0 || j == 4);
    assert both[4] && both != Zero();
    PickHighest(both);
    assert Pick(both) - 1 == 4;
    var one := AndNot(both, Bit(4));
    assert forall j :: 0 <= j < WIDTH ==> (one[j] <==> j == 0);
    assert one[0] && one != Zero();
    PickHighest(one);
    assert Pick(one) - 1 == 0;
  }

  /** `main` up to `OSInit`: a fresh kernel with the idle thread registered at priority 0. */
  method Boot(idleHandler: u32) returns (k: Kernel, ram: array<u32>)
    ensures k.Valid() && k.curr == null && k.next == null
    ensures k.thread[0] == k.idle && forall q :: 1 <= q < SLOTS ==> k.thread[q] == null
    ensures k.readySet == Zero() && k.delayedSet == Zero()
    ensures fresh(k) && fresh(k.thread) && fresh(k.idle) && fresh(ram) && ram.Length == 0x100
  {
    k := new Kernel();
    ram := new u32[0x100];
    var status := k.Init(idleHandler, ram, IDLE_STACK, STACK_BYTES);
    assert status == Ok;
  }

  /** `OSThread_start(&blinky1, 5U, ...)`. */
  method AddBlinky1(k: Kernel, ram: array<u32>, handler1: u32) returns (blinky1: Thread)
    requires k.Valid() && k.curr == null && k.next == null
    requires k.thread[0] == k.idle && forall q :: 1 <= q < SLOTS ==> k.thread[q] == null
    requires k.readySet == Zero() && k.delayedSet == Zero() && ram.Length == 0x100
    modifies k`readySet, k.thread, ram
    ensures k.Valid() && k.curr == null && k.next == null && fresh(blinky1)
    ensures k.thread[0] == k.idle && k.thread[5] == blinky1
    ensures forall q :: 1 <= q < SLOTS && q != 5 ==> k.thread[q] == null
    ensures k.readySet == Or(Zero(), Bit(4)) && k.delayedSet == Zero() && blinky1.timeout == 0
    ensures FrameReady(ram, blinky1, handler1)
  {
    blinky1 := new Thread();
    var status := k.ThreadStart(blinky1, 5, handler1, ram, BLINKY1_STACK, STACK_BYTES);
    assert status == Ok;
  }

  /** `OSThread_start(&blinky2, 1U, ...)`: its stack lies above `blinky1`'s frame, which stays intact. */
  method AddBlinky2(k: Kernel, ram: array<u32>, blinky1: Thread, handler1: u32, handler2: u32)
    returns (blinky2: Thread)
    requires k.Valid() && k.curr == null && k.next == null
    requires k.thread[0] == k.idle && k.thread[5] == blinky1
    requires forall q :: 1 <= q < SLOTS && q != 5 ==> k.thread[q] == null
    requires k.readySet == Or(Zero(), Bit(4)) && k.delayedSet == Zero() && ram.Length == 0x100
    requires FrameReady(ram, blinky1, handler1) && blinky1.timeout == 0
    modifies k`readySet, k.thread, ram
    ensures Registry(k, blinky1, blinky2) && k.curr == null && k.next == null && fresh(blinky2)
    ensures k.readySet == Or(Or(Zero(), Bit(4)), Bit(0)) && k.delayedSet == Zero() && blinky1.timeout == 0
    ensures FrameReady(ram, blinky1, handler1)
  {
    ghost var w := blinky1.sp as int / 4;
    ghost var frame := ram[w .. w + FRAME_WORDS];
    blinky2 := new Thread();
    var status := k.ThreadStart(blinky2, 1, handler2, ram, BLINKY2_STACK, STACK_BYTES);
    assert status == Ok;
    assert ram[w .. w + FRAME_WORDS] == frame;
  }

  /** `OS_run`: the scheduler picks priority 5, and the first switch resumes `blinky1` at its handler. */
  method FirstSwitch(k: Kernel, ram: array<u32>, blinky1: Thread, blinky2: Thread, handler1: u32)
    returns (first: u8, entry: u32)
    requires Registry(k, blinky1, blinky2) && k.curr == null && k.next == null
    requires k.readySet == Or(Or(Zero(), Bit(4)), Bit(0)) && k.delayedSet == Zero()
    requires FrameReady(ram, blinky1, handler1)
    modifies k`next, k`switchPending, k`curr
    ensures Registry(k, blinky1, blinky2) && k.curr == blinky1 && k.next == blinky1
    ensures first == 5 && entry == handler1
  {
    DemoPicks();
    k.Sched();
    first := k.next.prio;
    var sp := k.PendSv(0);
    ResumeInitialFrame(ram[..], sp as nat, handler1);
    entry := Resume(ram[..], sp as nat).pc;
  }

  /** `blinky1` calls `OS_delay(1U)`: it leaves the ready set and the scheduler picks priority 1. */
  method DelayOneTick(k: Kernel, blinky1: Thread, blinky2: Thread) returns (second: u8)
    requires Registry(k, blinky1, blinky2) && k.curr == blinky1 && k.next == blinky1
    requires k.readySet == Or(Or(Zero(), Bit(4)), Bit(0)) && k.delayedSet == Zero()
    modifies k`readySet, k`delayedSet, k`next, k`switchPending, blinky1
    ensures Registry(k, blinky1, blinky2) && k.curr == blinky1 && k.next == blinky2
    ensures k.readySet == AndNot(Or(Or(Zero(), Bit(4)), Bit(0)), Bit(4))
    ensures k.delayedSet == Or(Zero(), Bit(4)) && blinky1.timeout == 1
    ensures second == 1
  {
    DemoPicks();
    var status := k.Delay(1);
    assert status == Ok;
    second := k.next.prio;
  }

  /** The switch that follows: `blinky1`'s stack pointer is saved and `blinky2` becomes current. */
  method SecondSwitch(k: Kernel, blinky1: Thread, blinky2: Thread, savedSp: u32)
    requires Registry(k, blinky1, blinky2) && k.curr == blinky1 && k.next == blinky2
    modifies k`curr, k`switchPending, blinky1
    ensures Registry(k, blinky1, blinky2) && k.curr == blinky2 && k.next == blinky2
    ensures k.readySet == old(k.readySet) && k.delayedSet == old(k.delayedSet)
    ensures blinky1.timeout == old(blinky1.timeout) && blinky1.sp == savedSp
  {
    var sp := k.PendSv(savedSp);
  }

  /** The next `SysTick_Handler`: `blinky1`'s delay runs out and the scheduler picks priority 5 again. */
  method NextTick(k: Kernel, blinky1: Thread, blinky2: Thread) returns (third: u8)
    requires Registry(k, blinky1, blinky2)
    requires k.readySet == AndNot(Or(Or(Zero(), Bit(4)), Bit(0)), Bit(4))
    requires k.delayedSet == Or(Zero(), Bit(4)) && blinky1.timeout == 1
    modifies k`readySet, k`delayedSet, k`next, k`switchPending, k.thread[..]
    ensures Registry(k, blinky1, blinky2)
    ensures k.readySet == Or(Or(Zero(), Bit(4)), Bit(0)) && k.delayedSet == Zero()
    ensures blinky1.timeout == 0 && k.next == blinky1
    ensures third == 5
  {
    ghost var v := k.View();
    k.ViewConsistent();
    assert v.slots[5] == Registered(1);
    assert Armed(v);
    TickEffect(v);
    var status := k.SysTickHandler();
    assert forall j :: 0 <= j < WIDTH ==> (k.readySet[j] <==> j == 0 || j == 4);
    assert k.readySet == Or(Or(Zero(), Bit(4)), Bit(0));
    assert forall j :: 0 <= j < WIDTH ==> k.delayedSet[j] == Zero()[j];
    assert k.View().slots[5] == Registered(blinky1.timeout);
    DemoPicks();
    third := k.next.prio;
  }

  /** `OSThread_start` at priority 33, and at the taken priority 5, both fail the precondition check. */
  method Rejections(k: Kernel, ram: array<u32>, blinky1: Thread, blinky2: Thread, handler: u32)
    returns (tooHigh: Outcome, taken: Outcome)
    requires Registry(k, blinky1, blinky2) && ram.Length == 0x100
    modifies k`readySet, k.thread, ram
    ensures tooHigh == Fatal(164) && taken == Fatal(164)
  {
    var extra := new Thread();
    tooHigh := k.ThreadStart(extra, 33, handler, ram, BLINKY2_STACK, STACK_BYTES);
    taken := k.ThreadStart(extra, 5, handler, ram, BLINKY2_STACK, STACK_BYTES);
  }

  /**
   * The first scheduling decisions of the application of main.c: the
   * scheduler first picks priority 5; once that thread delays for one tick,
   * priority 1; and after that tick, priority 5 again, with priorities 5
   * and 1 ready, nothing delayed and `blinky1`'s timeout run down to 0.
   * The first switch resumes `blinky1` at its handler.  Registering at priority 33, or at the
   * taken priority 5, is fatal.
   */
  method Demo(idleHandler: u32, handler1: u32, handler2: u32, savedSp: u32)
    returns (first: u8, second: u8, third: u8, entry: u32, tooHigh: Outcome, taken: Outcome,
             readyAfter: Word, delayedAfter: Word, timeoutAfter: u32)
    ensures first == 5 && second == 1 && third == 5
    ensures readyAfter == Or(Or(Zero(), Bit(4)), Bit(0)) && delayedAfter == Zero() && timeoutAfter == 0
    ensures entry == handler1
    ensures tooHigh == Fatal(164) && taken == Fatal(164)
  {
    var k, ram := Boot(idleHandler);
    var blinky1 := AddBlinky1(k, ram, handler1);
    var blinky2 := AddBlinky2(k, ram, blinky1, handler1, handler2);
    first, entry := FirstSwitch(k, ram, blinky1, blinky2, handler1);
    second := DelayOneTick(k, blinky1, blinky2);
    SecondSwitch(k, blinky1, blinky2, savedSp);
    third := NextTick(k, blinky1, blinky2);
    readyAfter, delayedAfter, timeoutAfter := k.readySet, k.delayedSet, blinky1.timeout;
    tooHigh, taken := Rejections(k, ram, blinky1, blinky2, handler2);
  }
}
