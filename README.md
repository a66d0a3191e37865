# MiROS kernel core in Dafny

This project models the kernel of MiROS, a minimal fixed-priority real-time
operating system for Cortex-M (the `tm4c123-keil` port).  The model covers:

- the 33-slot thread registry `OS_thread`;
- the 32-bit ready and delayed priority sets;
- the `OS_curr` / `OS_next` cursors;
- the thread control blocks `{sp, timeout, prio}`;
- the kernel operations that update them:
  - thread registration with stack fabrication (`OSThread_start`);
  - idle-thread registration (`OSInit`);
  - the scheduler (`OSSched`), built on `LOG2` = `32 - clz`;
  - the blocking delay (`OS_delay`);
  - the tick processor (`OS_tick`);
  - the timer interrupt (`SysTick_Handler`: tick, then schedule);
  - the context switch, given as the save / restore / cursor-swap contract of `PendSV_Handler`.

Modules:

- `CTypes`: `uint8_t` and `uint32_t` as newtypes.
- `Bitmap`: a `uint32_t` priority set as 32 bits, with `0U`, `1U << i`, bitwise or, and `& ~`.
  - `Zero`, `Bit`, `Or` and `AndNot` define these operators bit by bit; their bitwise `ensures` are that definition, not properties.
  - `Val` gives the number a word stands for, the sum of `2^i` over its set bits.
  - Lemmas tie each operator to that number: `0U` is 0, `1U << i` is `2^i`, and setting or clearing bit `i` adds or subtracts `2^i`.
- `PrioritySearch`: `__clz` and `LOG2`, what they find in a set, and `LOG2` as the bit length of the word's value.
- `StackFrame`: the 16-word initial stack frame, its writes and the poison fill, as methods over an `array<u32>` memory of words, plus the register image a thread resumes with.
- `KernelState`: the kernel state as a value (`KernelView`), the specification functions of each operation on it (`Register`, `Delay`, `Tick`, `Pick`), and the lemmas about them: the invariant is kept, the highest ready priority is chosen, and a delay of `k` ticks ends on the `k`-th tick.
- `Miros`: the `Thread` TCB class and the `Kernel` class whose fields are the kernel's globals.
  - Each kernel function is a method that updates those fields in place.
  - `ThreadStart`, `Init`, `Delay` and `Tick` are proved to change the state exactly as a specification function of `KernelState` says (`Register`, `Register` at slot 0, `Delay`, `Tick`).
  - `Sched` and `PendSv` have no state function; their contracts state the chosen thread and the new cursors directly.
  - `Delay`, `Tick`, `Sched` and `PendSv` keep the registry invariant `Valid()` in every case.
  - `ThreadStart` and `Init` keep it exactly when the registered thread was not registered already; registering one TCB twice breaks it.
  - `OS_tick` keeps its `while` loop over a working copy of the delayed set.
- `Blinky`: the application of `main.c` run on the model.
  - The idle thread is registered, then `blinky1` at priority 5 and `blinky2` at priority 1.
  - The scheduler picks 5, and the first switch resumes `blinky1` at its handler.
  - After `OS_delay(1U)` the scheduler picks 1; after one tick it picks 5 again.
  - Registering at priority 33, or at the taken priority 5, is fatal.

The assertion macros (`Q_REQUIRE`, `Q_ASSERT`) end in `Q_onAssert`, which
halts.  Here they become the outcome `Fatal(line)`, carrying the line of
miros.c whose assertion failed:

- 164: `OSThread_start`;
- 118: `OS_delay`;
- 99: `OS_tick`.

Outside those calls, the requirements on callers appear as `requires` clauses.

## Model

| member | source | states |
|---|---|---|
| `Bitmap.ValueBelowBound` | tm4c123-keil/miros.c:50-51 | the bits below `n` of a word add up to less than `2^n` (proof by induction) |
| `Bitmap.ValueBelowZero` | tm4c123-keil/miros.c:135 | the bits below `n` add up to 0 exactly when all of them are clear (proof by induction) |
| `Bitmap.ValueBelowFlip` | tm4c123-keil/miros.c:104-105 | setting a clear bit `k` adds `2^k` to the value of the bits below `n` when `k < n`, and nothing otherwise (proof by induction) |
| `Bitmap.ValueBelowHigh` | tm4c123-keil/miros.c:43 | clear bits above `n` add nothing to the value (proof by induction) |
| `Bitmap.ValZero` | tm4c123-keil/miros.c:135 | `0U` has value 0 and is the only word that does, so the test `OS_readySet == 0U` is the empty-set test; every word lies below `2^32` |
| `Bitmap.ValBit` | tm4c123-keil/miros.c:101 | `1U << i` is the number `2^i` |
| `Bitmap.ValSetBit` | tm4c123-keil/miros.c:104 | the bitwise or of `a` and `1U << i` adds `2^i` to `a` when bit `i` is clear, and leaves `a` as it is when it is set |
| `Bitmap.ValClearBit` | tm4c123-keil/miros.c:105 | `a & ~(1U << i)` subtracts `2^i` from `a` when bit `i` is set, and leaves `a` as it is when it is clear |
| `PrioritySearch.LeadingZeros` | tm4c123-keil/miros.c:43 | the number of leading zeros among the low `n` bits lies in 0..n |
| `PrioritySearch.Clz` | tm4c123-keil/miros.c:43 | `__clz` of a 32-bit word lies in 0..32 |
| `PrioritySearch.Log2` | tm4c123-keil/miros.c:43 | `LOG2(x)`, that is `32U - __clz(x)`, lies in 0..32, so it indexes `OS_thread` |
| `PrioritySearch.Log2Value` | tm4c123-keil/miros.c:43 | `LOG2(x)` is the bit length of the value of `x`: `LOG2(0U) == 0`, and otherwise `2^(LOG2(x)-1) <= x < 2^LOG2(x)` |
| `PrioritySearch.LeadingZerosSpec` | tm4c123-keil/miros.c:43 | the counted leading bits are all clear, and the bit just below them is set (proof by induction) |
| `PrioritySearch.Log2Highest` | tm4c123-keil/miros.c:43 | `LOG2(x)` is 0 exactly when `x == 0`; otherwise it lies in 1..32, bit `LOG2(x)-1` is set, and every set bit lies below `LOG2(x)` |
| `PrioritySearch.Log2DropHighest` | tm4c123-keil/miros.c:97-107 | clearing the highest set bit of a non-empty set makes `LOG2` strictly smaller: the measure under which the tick loop ends |
| `StackFrame.RoundDown8` | tm4c123-keil/miros.c:159 | the stack top is a multiple of 8, at most 7 bytes below `stkSto + stkSize` |
| `StackFrame.RoundUp8` | tm4c123-keil/miros.c:193 | the stack limit is a multiple of 8, at most 7 bytes above `stkSto` |
| `StackFrame.PushExceptionFrame` | tm4c123-keil/miros.c:171-178 | the 8 words below the top hold r0-r3, r12, lr `0xE`, pc the handler, xPSR `1 << 24`; nothing else is written |
| `StackFrame.PushRegisterFrame` | tm4c123-keil/miros.c:180-187 | the next 8 words hold the fake r4..r11 values 4..0xB; nothing else is written |
| `StackFrame.PushFrame` | tm4c123-keil/miros.c:170-187 | the 16 words below the top are exactly the initial frame, the returned pointer is 16 words below the top, and nothing else is written |
| `StackFrame.FillPoison` | tm4c123-keil/miros.c:195-198 | every word from just below the stack pointer down to the limit holds `0xDEADBEEF`, and nothing else is written |
| `StackFrame.BuildStack` | tm4c123-keil/miros.c:170-198 | the frame below the top, the stack pointer at its lowest word, poison from just below it down to the limit, and no other word written |
| `StackFrame.Resume` | tm4c123-keil/miros.c:245-278 | a resumed thread gets all 13 general registers r0..r12 from its saved frame |
| `StackFrame.ResumeInitialFrame` | tm4c123-keil/miros.c:170-187 | a thread resumed from its fabricated frame starts at its handler in Thumb state, with rN = N, lr = 0xE and the stack pointer back at the top |
| `KernelState.Boot` | tm4c123-keil/miros.c:48-51 | the zero-initialised globals satisfy the kernel invariant, and every slot is empty |
| `KernelState.Pick` | tm4c123-keil/miros.c:135-140 | the slot `OSSched` selects, 0 for an empty ready set and `LOG2(readySet)` otherwise, is a slot of `OS_thread`; `PickHighest` states which one |
| `KernelState.PickHighest` | tm4c123-keil/miros.c:131-142 | the scheduler picks slot 0 exactly when nothing is ready; otherwise it picks a ready priority that no ready priority exceeds |
| `KernelState.Register` | tm4c123-keil/miros.c:200-207 | the state after registering at `p`: the registry keeps its 33 slots; `RegisterConsistent` gives its effect |
| `KernelState.RegisterConsistent` | tm4c123-keil/miros.c:200-207 | registering into an empty slot keeps the invariant; priority `p > 0` becomes ready and not delayed; no other bit or slot changes; the idle thread gets no bit |
| `KernelState.Delay` | tm4c123-keil/miros.c:122-125 | the state after `OS_delay` and before it reschedules: the registry keeps its 33 slots; `DelayConsistent` gives its effect |
| `KernelState.DelayConsistent` | tm4c123-keil/miros.c:122-125 | a delay moves exactly the caller's bit from the ready set to the delayed set and keeps the two sets disjoint; a delay of 0 ticks breaks the nonzero-timeout assertion that the next tick makes |
| `KernelState.TickPart` | tm4c123-keil/miros.c:95-108 | the state inside `OS_tick` once the delayed threads outside the working set are visited: the registry keeps its 33 slots; `TickStart` and `TickStep` relate it to the loop |
| `KernelState.TickOne` | tm4c123-keil/miros.c:101-106 | one pass of the loop of `OS_tick`: the registry keeps its 33 slots; `TickStep` ties it to `TickPart` |
| `KernelState.Tick` | tm4c123-keil/miros.c:94-109 | the state after `OS_tick`: the registry keeps its 33 slots; `TickEffect` gives its effect |
| `KernelState.TickStart` | tm4c123-keil/miros.c:95 | before the loop of `OS_tick` nothing is visited, and the state is the state on entry |
| `KernelState.TickStep` | tm4c123-keil/miros.c:97-107 | one pass of the loop over a delayed thread extends the visited part by exactly that thread |
| `KernelState.TickEffect` | tm4c123-keil/miros.c:94-109 | a tick decrements each delayed timeout by one, readies exactly those that were 1, leaves non-delayed threads untouched, never clears a ready bit, and keeps the invariant |
| `KernelState.Ticks` | tm4c123-keil/miros.c:94-109 | any number of ticks keeps the invariant and keeps every delayed timeout nonzero |
| `KernelState.Countdown` | tm4c123-keil/miros.c:94-109 | a thread delayed with timeout `k` stays delayed, with its timeout counting down, until the `k`-th tick, which makes it ready (proof by induction) |
| `Miros.Thread.constructor` | tm4c123-keil/miros.h:40-44 | a statically allocated TCB starts zeroed |
| `Miros.Kernel.constructor` | tm4c123-keil/miros.c:45-53 | the zeroed globals: empty registry, empty sets, no current or next thread, no switch pending |
| `Miros.Kernel.ViewConsistent` | tm4c123-keil/miros.c:48-51 | the registry invariant of the kernel object gives the invariant of its state value |
| `Miros.Kernel.ThreadStart` | tm4c123-keil/miros.c:150-209 | fatal (line 164) iff `prio >= 33` or the slot is taken, leaving everything unchanged; otherwise the slot holds `me`, `me.prio == prio`, and the state is `Register` of the old state (only bit `prio-1` is added, and only for `prio > 0`); the stack holds the initial frame below the rounded-down top, `me.sp` points at it, poison fills the rest down to the rounded-up limit, nothing at or above the top is written, and the invariant holds iff `me` was not already registered |
| `Miros.Kernel.Fabricate` | tm4c123-keil/miros.c:159-198 | the stack fabrication alone: frame, `me.sp`, poison, and the registry untouched |
| `Miros.Kernel.SetStackPointer` | tm4c123-keil/miros.c:190 | storing the new stack pointer in the TCB changes neither the registry invariant nor the state |
| `Miros.Kernel.Enrol` | tm4c123-keil/miros.c:200-207 | the registration alone: slot, priority, ready bit, as `Register` says |
| `Miros.Kernel.SetTimeout` | tm4c123-keil/miros.c:122 | the timeout counter of a registered thread is set; only its slot of the state changes, and the invariant holds |
| `Miros.Kernel.Init` | tm4c123-keil/miros.c:81-87 | the idle thread is registered at slot 0, the ready set does not change, the other slots are untouched, and its stack is prepared as `ThreadStart` prepares any stack (frame, stack pointer, poison, nothing else written) |
| `Miros.Kernel.Block` | tm4c123-keil/miros.c:122-125 | the caller's counter holds `ticks`, its bit moves from the ready to the delayed set as `KernelState.Delay` says, and the invariant holds |
| `Miros.Kernel.Sched` | tm4c123-keil/miros.c:131-148 | `next` is the thread at `Pick(readySet)`, which is never null when something is ready; a switch is requested iff `next != curr`; the sets and registry are unchanged |
| `Miros.Kernel.Delay` | tm4c123-keil/miros.c:111-129 | fatal (line 118) iff the caller is the thread at slot 0, before any change; otherwise the caller's timeout is `ticks` and its bit moves from the ready to the delayed set, as `KernelState.Delay` says; then the scheduler runs |
| `Miros.Kernel.Tick` | tm4c123-keil/miros.c:94-109 | the loop ends; fatal (line 99) iff some delayed thread has a zero timeout; otherwise the new state is `KernelState.Tick` of the old one; no stack pointer or priority changes |
| `Miros.Kernel.TickThread` | tm4c123-keil/miros.c:101-106 | one loop pass: the thread's timeout drops by one, and on reaching 0 its bit moves from the delayed to the ready set |
| `Miros.Kernel.SysTickHandler` | tm4c123-keil/bsp.c:19-27 | the timer interrupt is a tick followed by a scheduling decision |
| `Miros.Kernel.PendSv` | tm4c123-keil/miros.c:218-256 | the current thread, if any, saves the stack pointer; the new stack pointer is `next`'s saved one; `curr` becomes `next`; the switch request is cleared; no other thread and no slot or set changes |
| `Blinky.DemoPicks` | tm4c123-keil/main.c:56-64 | with priorities 5 and 1 ready the scheduler picks 5, and with only 1 ready it picks 1 |
| `Blinky.Demo` | tm4c123-keil/main.c:51-67 | the application's first scheduling decisions are 5, then 1 after `OS_delay(1U)`, then 5 after one tick; after that tick priorities 5 and 1 are ready, nothing is delayed and `blinky1`'s timeout is 0; the first switch enters `blinky1`'s handler; registering at priority 33 or at the taken priority 5 is fatal |
| `Blinky.Boot` | tm4c123-keil/main.c:54 | after `OSInit` the idle thread holds slot 0, every other slot is empty, and both sets are empty |
| `Blinky.AddBlinky1` | tm4c123-keil/main.c:56-59 | `blinky1` holds slot 5, only priority 5 is ready, and its initial frame is in place |
| `Blinky.AddBlinky2` | tm4c123-keil/main.c:61-64 | `blinky2` holds slot 1, priorities 5 and 1 are ready, and `blinky1`'s frame is still intact |
| `Blinky.FirstSwitch` | tm4c123-keil/miros.c:72 | `OS_run`'s scheduler call picks priority 5, and the switch makes `blinky1` current, resuming at its handler |
| `Blinky.DelayOneTick` | tm4c123-keil/main.c:25 | `blinky1`'s `OS_delay(1U)` leaves priority 1 as the only ready priority and priority 5 delayed with timeout 1, and the scheduler picks priority 1 |
| `Blinky.SecondSwitch` | tm4c123-keil/miros.c:218-256 | the switch saves `blinky1`'s stack pointer and makes `blinky2` current, leaving the sets and `blinky1`'s timeout as they were |
| `Blinky.NextTick` | tm4c123-keil/bsp.c:19-27 | the next timer interrupt runs `blinky1`'s timeout down to 0, readies priority 5 again (priorities 5 and 1 ready, nothing delayed), and the scheduler picks it |
| `Blinky.Rejections` | tm4c123-keil/miros.c:164-165 | registering at priority 33, or at the taken priority 5, is fatal at line 164 |

## Left out

- The memory-mapped register writes become fields or nothing:
  - the switch request at miros.c:145 is the boolean field `switchPending`;
  - the PendSV priority write at miros.c:89 is not modelled.
- Interrupt masking (`cpsid` / `cpsie`) is not modelled: every kernel method is one atomic step.
- The r4-r11 push and pop assembly of `PendSV_Handler` is not modelled.
  - `Miros.Kernel.PendSv` takes the stack pointer after the push as a parameter.
  - It returns the stack pointer it loads from `next`.
  - `StackFrame.Resume` describes what the pop and the exception return read from memory.
- Miros.Kernel.PendSv: requires `next != null`. The handler dereferences `OS_next` without a check, so running it with no next thread is undefined in the source.
- Miros.Kernel.PendSv: clearing `switchPending` stands for the core clearing the pending bit on exception entry.
- `OS_run` and `main_idleThread` are not modelled: they are callbacks into the board layer and non-returning loops.
  - The scenario performs `OS_run`'s single `OSSched` call itself (`Blinky.FirstSwitch`).
- All of bsp.c except `SysTick_Handler` is not modelled: peripherals, `Q_onAssert`'s halt, and the idle callback.
  - After a `Fatal` outcome the system halts, so nothing is claimed about later calls.
  - For `OS_tick`, whose loop may fail part-way, the model still keeps the registry invariant.
- The busy loops and floating-point timing of main.c, and `blinky2`'s 50-tick delay, are not modelled.
- Miros.Kernel.ThreadStart: requires `0 < stkSto <= 0xFFFFFFF8`. For `stkSto == 0`, and for a `stkSto` in the last 7 bytes of the address space where the rounding up at miros.c:193 wraps to 0, the stack limit is 0. The fill loop's `sp >= stk_limit` then holds for every pointer, so the source never leaves the loop. `Fabricate` and `Init` carry the same requirement.
- Miros.Kernel.ThreadStart: requires that `stkSto + stkSize` does not wrap around 32 bits. Stacks are addresses in the memory `ram`.
- Miros.Kernel.ThreadStart: requires that the rounded-down top lies inside `ram` and at least 64 bytes above address 0.
- The stack size is not checked against the frame, as in the source: a too-small stack gets its frame written below `stkSto`, which the contract states.
- Miros.Kernel.Delay: requires `curr != null || thread[0] == null`. With no current thread, `OS_curr->timeout` dereferences null in the source; when both are null the `Q_REQUIRE` fires first.
- Miros.Kernel.Sched: the `Q_ASSERT` at miros.c:141 is proved never to fail under the registry invariant, so it has no fatal outcome.
- A delay of 0 ticks is modelled as the source runs it:
  - `OS_delay(0)` succeeds;
  - the following tick is fatal at line 99 (`KernelState.DelayConsistent`, `Miros.Kernel.Tick`).
- Pointers are byte addresses (`u32`), and memory is an array of 32-bit words; byte address `4 * k` is word `k`.
