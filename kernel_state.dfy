/**
 * The kernel's state as a value: what each priority slot of the registry
 * `OS_thread` holds, and the ready and delayed priority sets.  The functions
 * here specify the operations of miros.c; the class in module `Miros` is
 * proved to change its state exactly as they say.
 */
module KernelState {
  import opened CTypes
  import opened Bitmap
  import opened PrioritySearch

  /** Slots of `OS_thread`: 32 thread priorities plus the idle thread at 0. */
  const SLOTS := 33

  /** A registry slot: empty, or a registered thread with its timeout counter. */
  datatype Slot = Empty | Registered(timeout: u32)

  datatype KernelView = KernelView(slots: seq<Slot>, ready: Word, delayed: Word)

  /** How a kernel call ends: normally, or in `Q_onAssert` with the line of the failed assertion. */
  datatype Outcome = Ok | Fatal(line: nat)

  /** The zero-initialised globals before anything is registered. */
  function Boot(): (v: KernelView)
    ensures Consistent(v) && Armed(v)
    ensures forall p :: 0 <= p < SLOTS ==> v.slots[p] == Empty
  {
    KernelView(seq(SLOTS, _ => Empty), Zero(), Zero())
  }

  /**
   * The kernel's own invariant: every ready or delayed bit names a registered
   * thread, and no thread is both ready and delayed.
   */
  ghost predicate Consistent(v: KernelView)
  {
    |v.slots| == SLOTS &&
    (forall i :: 0 <= i < WIDTH && v.ready[i] ==> v.slots[i + 1].Registered?) &&
    (forall i :: 0 <= i < WIDTH && v.delayed[i] ==> v.slots[i + 1].Registered?) &&
    Disjoint(v.ready, v.delayed)
  }

  /** Every thread whose bit is in `m` is registered with a nonzero timeout. */
  ghost predicate ArmedOn(v: KernelView, m: Word)
  {
    |v.slots| == SLOTS &&
    forall i :: 0 <= i < WIDTH && m[i] ==>
      v.slots[i + 1].Registered? && v.slots[i + 1].timeout != 0
  }

  /** Every delayed thread still has ticks to wait: what `OS_tick` asserts of each. */
  ghost predicate Armed(v: KernelView)
  {
    ArmedOn(v, v.delayed)
  }

  // ---------------------------------------------------------------- OSSched

  /** The slot `OSSched` selects: 0 (the idle thread) when nothing is ready, else `LOG2(readySet)`. */
  function Pick(ready: Word): (r: nat)
    ensures r < SLOTS
  {
    if ready == Zero() then 0 else Log2(ready)
  }

  /**
   * The scheduler selects the idle thread exactly when nothing is ready, and
   * otherwise a ready priority that no other ready priority exceeds.
   */
  lemma PickHighest(ready: Word)
    ensures Pick(ready) < SLOTS
    ensures Pick(ready) == 0 <==> ready == Zero()
    ensures ready != Zero() ==> ready[Pick(ready) - 1]
    ensures forall i :: 0 <= i < WIDTH && ready[i] ==> i + 1 <= Pick(ready)
  {
    Log2Highest(ready);
  }

  // --------------------------------------------------------- OSThread_start

  /** Registration at priority `p` of a thread whose timeout counter holds `timeout`. */
  function Register(v: KernelView, p: nat, timeout: u32): (w: KernelView)
    requires |v.slots| == SLOTS && p < SLOTS
    ensures |w.slots| == SLOTS
  {
    KernelView(v.slots[p := Registered(timeout)],
               if p > 0 then Or(v.ready, Bit(p - 1)) else v.ready,
               v.delayed)
  }

  /**
   * Registering into an empty slot keeps the invariant.  A thread registered
   * at `p > 0` becomes ready and not delayed, the idle thread gets no bit,
   * and no other slot or bit changes.
   */
  lemma RegisterConsistent(v: KernelView, p: nat, timeout: u32)
    requires Consistent(v) && p < SLOTS && v.slots[p].Empty?
    ensures Consistent(Register(v, p, timeout))
    ensures Armed(v) ==> Armed(Register(v, p, timeout))
    ensures p > 0 ==> Register(v, p, timeout).ready[p - 1] && !Register(v, p, timeout).delayed[p - 1]
    ensures forall i :: 0 <= i < WIDTH && i + 1 != p ==>
      Register(v, p, timeout).ready[i] == v.ready[i]
    ensures Register(v, p, timeout).delayed == v.delayed
    ensures forall q :: 0 <= q < SLOTS && q != p ==> Register(v, p, timeout).slots[q] == v.slots[q]
  {
  }

  // --------------------------------------------------------------- OS_delay

  /** `OS_delay(ticks)` by the thread at priority `p`, before it reschedules. */
  function Delay(v: KernelView, p: nat, ticks: u32): (w: KernelView)
    requires |v.slots| == SLOTS && 1 <= p < SLOTS
    ensures |w.slots| == SLOTS
  {
    KernelView(v.slots[p := Registered(ticks)],
               AndNot(v.ready, Bit(p - 1)),
               Or(v.delayed, Bit(p - 1)))
  }

  /**
   * A delaying thread leaves the ready set for the delayed set and no other
   * bit moves, so the invariant is kept; a delay of at least one tick keeps
   * every delayed timeout nonzero, and a delay of zero ticks breaks that.
   */
  lemma DelayConsistent(v: KernelView, p: nat, ticks: u32)
    requires Consistent(v) && 1 <= p < SLOTS && v.slots[p].Registered?
    ensures Consistent(Delay(v, p, ticks))
    ensures forall i :: 0 <= i < WIDTH ==>
      (Delay(v, p, ticks).ready[i] <==> v.ready[i] && i + 1 != p)
    ensures forall i :: 0 <= i < WIDTH ==>
      (Delay(v, p, ticks).delayed[i] <==> v.delayed[i] || i + 1 == p)
    ensures Armed(v) && ticks != 0 ==> Armed(Delay(v, p, ticks))
    ensures ticks == 0 ==> !Armed(Delay(v, p, ticks))
  {
    if ticks == 0 {
      assert Delay(v, p, ticks).delayed[p - 1];
    }
  }

  // ---------------------------------------------------------------- OS_tick

  /** The delayed threads `OS_tick` has already visited when `ws` is its working set. */
  function Visited(v0: KernelView, ws: Word): Word
  {
    AndNot(v0.delayed, ws)
  }

  /** The visited threads whose timeout ran out: they move to the ready set. */
  function Expired(v0: KernelView, ws: Word): (e: Word)
    requires |v0.slots| == SLOTS
  {
    seq(WIDTH, i requires 0 <= i < WIDTH =>
      Visited(v0, ws)[i] && v0.slots[i + 1].Registered? && v0.slots[i + 1].timeout == 1)
  }

  /**
   * The state inside `OS_tick` once every delayed thread outside the working
   * set `ws` has been visited: each visited timeout is one lower, and the
   * expired threads have moved from the delayed set to the ready set.
   */
  function TickPart(v0: KernelView, ws: Word): (w: KernelView)
    requires ArmedOn(v0, Visited(v0, ws))
    ensures |w.slots| == SLOTS
  {
    KernelView(
      seq(SLOTS, p requires 0 <= p < SLOTS =>
        if 1 <= p && Visited(v0, ws)[p - 1] then Registered(v0.slots[p].timeout - 1)
        else v0.slots[p]),
      Or(v0.ready, Expired(v0, ws)),
      AndNot(v0.delayed, Expired(v0, ws)))
  }

  /** One pass of the loop of `OS_tick` over the thread at priority `p`. */
  function TickOne(v: KernelView, p: nat): (w: KernelView)
    requires |v.slots| == SLOTS && 1 <= p < SLOTS
    requires v.slots[p].Registered? && v.slots[p].timeout != 0
    ensures |w.slots| == SLOTS
  {
    var t := v.slots[p].timeout - 1;
    if t == 0 then KernelView(v.slots[p := Registered(t)], Or(v.ready, Bit(p - 1)), AndNot(v.delayed, Bit(p - 1)))
    else KernelView(v.slots[p := Registered(t)], v.ready, v.delayed)
  }

  /** `OS_tick` as a whole: every delayed thread visited. */
  function Tick(v: KernelView): (w: KernelView)
    requires Armed(v)
    ensures |w.slots| == SLOTS
  {
    assert Visited(v, Zero()) == v.delayed;
    TickPart(v, Zero())
  }

  /** Before the loop nothing is visited, and the state is the one on entry. */
  lemma TickStart(v0: KernelView)
    requires |v0.slots| == SLOTS
    ensures Visited(v0, v0.delayed) == Zero()
    ensures ArmedOn(v0, Visited(v0, v0.delayed))
    ensures TickPart(v0, v0.delayed) == v0
  {
    assert Visited(v0, v0.delayed) == Zero();
    assert Expired(v0, v0.delayed) == Zero();
    assert Or(v0.ready, Zero()) == v0.ready;
    assert AndNot(v0.delayed, Zero()) == v0.delayed;
  }

  /**
   * Visiting the thread at priority `p`, a member of the working set, is one
   * pass of the loop: it extends the visited part by exactly that thread.
   */
  lemma TickStep(v0: KernelView, ws: Word, p: nat)
    requires ArmedOn(v0, Visited(v0, ws))
    requires 1 <= p < SLOTS && ws[p - 1] && v0.delayed[p - 1]
    requires v0.slots[p].Registered? && v0.slots[p].timeout != 0
    ensures ArmedOn(v0, Visited(v0, AndNot(ws, Bit(p - 1))))
    ensures TickPart(v0, ws).slots[p] == v0.slots[p]
    ensures TickOne(TickPart(v0, ws), p) == TickPart(v0, AndNot(ws, Bit(p - 1)))
  {
    var ws' := AndNot(ws, Bit(p - 1));
    var a, b := TickOne(TickPart(v0, ws), p), TickPart(v0, ws');
    assert a.slots == b.slots;
    assert a.ready == b.ready;
    assert a.delayed == b.delayed;
  }

  /**
   * A tick keeps the invariant and keeps every delayed timeout nonzero.  It
   * lowers the timeout of each delayed thread by one, readies exactly those
   * whose timeout was 1, and leaves every other slot and bit as it was: a
   * ready bit is never cleared.
   */
  lemma TickEffect(v: KernelView)
    requires Consistent(v) && Armed(v)
    ensures Consistent(Tick(v)) && Armed(Tick(v))
    ensures Tick(v).slots[0] == v.slots[0]
    ensures forall i :: 0 <= i < WIDTH && v.delayed[i] ==>
      Tick(v).slots[i + 1] == Registered(v.slots[i + 1].timeout - 1) &&
      (Tick(v).ready[i] <==> v.slots[i + 1].timeout == 1) &&
      (Tick(v).delayed[i] <==> v.slots[i + 1].timeout != 1)
    ensures forall i :: 0 <= i < WIDTH && !v.delayed[i] ==>
      Tick(v).slots[i + 1] == v.slots[i + 1] &&
      Tick(v).ready[i] == v.ready[i] && !Tick(v).delayed[i]
    ensures forall i :: 0 <= i < WIDTH && v.ready[i] ==> Tick(v).ready[i]
  {
  }

  /** The state after `n` ticks. */
  function Ticks(v: KernelView, n: nat): (w: KernelView)
    requires Consistent(v) && Armed(v)
    ensures Consistent(w) && Armed(w)
  {
    if n == 0 then v
    else
      var u := Ticks(v, n - 1);
      TickEffect(u);
      Tick(u)
  }

  /**
   * A thread delayed with timeout `k` stays delayed, counting down, for
   * `k - 1` ticks, and the `k`-th tick makes it ready.
   */
  lemma {:induction false} Countdown(v: KernelView, p: nat, j: nat)
    requires Consistent(v) && Armed(v)
    requires 1 <= p < SLOTS && v.delayed[p - 1]
    requires j <= v.slots[p].timeout as nat
    ensures j < v.slots[p].timeout as nat ==>
      Ticks(v, j).delayed[p - 1] && !Ticks(v, j).ready[p - 1] &&
      Ticks(v, j).slots[p] == Registered(v.slots[p].timeout - j as u32)
    ensures j == v.slots[p].timeout as nat ==>
      Ticks(v, j).ready[p - 1] && !Ticks(v, j).delayed[p - 1]
  {
    if j > 0 {
      Countdown(v, p, j - 1);
      TickEffect(Ticks(v, j - 1));
    }
  }
}
