/**
 * The initial stack that `OSThread_start` fabricates for a new thread, and the
 * register image a Cortex-M core gets when it resumes a thread from such a
 * stack.  Memory is a sequence of 32-bit words; a byte address `a` that is a
 * multiple of 4 is word `a / 4`.
 */
module StackFrame {
  import opened CTypes

  /** `1U << 24`: the xPSR with only the Thumb bit set. */
  const XPSR_THUMB: u32 := 0x0100_0000

  /** The pattern the unused part of a new stack is filled with. */
  const POISON: u32 := 0xDEAD_BEEF

  /** Words in the fabricated frame: r4-r11 plus the 8-word exception frame. */
  const FRAME_WORDS := 16

  /** The stack top `((stkSto + stkSize) / 8) * 8`: an address rounded down to 8 bytes. */
  function RoundDown8(a: nat): (r: nat)
    ensures r % 8 == 0 && r <= a < r + 8
  {
    (a / 8) * 8
  }

  /** The stack limit `(((stkSto - 1) / 8) + 1) * 8`: an address rounded up to 8 bytes. */
  function RoundUp8(a: nat): (r: nat)
    ensures r % 8 == 0 && a <= r < a + 8
  {
    ((a - 1) / 8 + 1) * 8
  }

  /**
   * The 16 words `OSThread_start` writes below the stack top, listed from the
   * new stack pointer upward: fake r4..r11, then the exception frame r0..r3,
   * r12, lr, pc (the thread handler) and xPSR.
   */
  function InitialFrame(handler: u32): (f: seq<u32>)
  {
    [0x4, 0x5, 0x6, 0x7, 0x8, 0x9, 0xA, 0xB,
     0x0, 0x1, 0x2, 0x3, 0xC, 0xE, handler, XPSR_THUMB]
  }

  /** The registers of a resumed thread: r0..r12, lr, pc, xPSR and the stack pointer. */
  datatype Registers = Registers(r: seq<u32>, lr: u32, pc: u32, xpsr: u32, sp: nat)

  /**
   * Resuming the thread whose saved stack pointer is `sp`: the switch handler
   * pops r4-r11 (`POP {r4-r11}`), then the exception return pops r0-r3, r12,
   * lr, pc and xPSR, leaving the stack pointer 16 words higher.
   */
  function Resume(mem: seq<u32>, sp: nat): (regs: Registers)
    requires sp % 4 == 0 && sp / 4 + FRAME_WORDS <= |mem|
    ensures |regs.r| == 13
  {
    var w := sp / 4;
    Registers(
      [mem[w + 8], mem[w + 9], mem[w + 10], mem[w + 11],
       mem[w], mem[w + 1], mem[w + 2], mem[w + 3],
       mem[w + 4], mem[w + 5], mem[w + 6], mem[w + 7],
       mem[w + 12]],
      mem[w + 13], mem[w + 14], mem[w + 15], sp + 4 * FRAME_WORDS)
  }

  /**
   * A thread resumed from its fabricated frame starts in its handler, in
   * Thumb state, with every register rN holding N, lr holding 0xE, and the
   * stack pointer back at the stack top.
   */
  lemma ResumeInitialFrame(mem: seq<u32>, sp: nat, handler: u32)
    requires sp % 4 == 0 && sp / 4 + FRAME_WORDS <= |mem|
    requires mem[sp / 4 .. sp / 4 + FRAME_WORDS] == InitialFrame(handler)
    ensures Resume(mem, sp).pc == handler
    ensures Resume(mem, sp).xpsr == XPSR_THUMB
    ensures Resume(mem, sp).lr == 0xE
    ensures Resume(mem, sp).r == [0x0, 0x1, 0x2, 0x3, 0x4, 0x5, 0x6, 0x7, 0x8, 0x9, 0xA, 0xB, 0xC]
    ensures Resume(mem, sp).sp == sp + 64
  {
    var w := sp / 4;
    var f := InitialFrame(handler);
    assert forall k :: 0 <= k < FRAME_WORDS ==> mem[w + k] == f[k] by {
      forall k | 0 <= k < FRAME_WORDS
        ensures mem[w + k] == f[k]
      {
        assert mem[w .. w + FRAME_WORDS][k] == f[k];
      }
    }
  }

  /**
   * The first eight writes of `OSThread_start`: the exception frame the core
   * pops on return (xPSR, pc, lr, r12, r3, r2, r1, r0), pushed below the
   * stack top `top`, a word index.
   */
  method PushExceptionFrame(ram: array<u32>, top: nat, handler: u32) returns (sp: nat)
    requires 8 <= top <= ram.Length
    modifies ram
    ensures sp == top - 8
    ensures ram[sp] == 0x0 && ram[sp + 1] == 0x1 && ram[sp + 2] == 0x2 && ram[sp + 3] == 0x3 &&
            ram[sp + 4] == 0xC && ram[sp + 5] == 0xE && ram[sp + 6] == handler && ram[sp + 7] == XPSR_THUMB
    ensures forall k :: 0 <= k < ram.Length && !(sp <= k < top) ==> ram[k] == old(ram[k])
  {
    sp := top;
    sp := sp - 1; ram[sp] := XPSR_THUMB;
    sp := sp - 1; ram[sp] := handler;
    sp := sp - 1; ram[sp] := 0xE;
    sp := sp - 1; ram[sp] := 0xC;
    sp := sp - 1; ram[sp] := 0x3;
    sp := sp - 1; ram[sp] := 0x2;
    sp := sp - 1; ram[sp] := 0x1;
    sp := sp - 1; ram[sp] := 0x0;
  }

  /** The next eight writes: fake values for r11 down to r4, pushed below `sp0`. */
  method PushRegisterFrame(ram: array<u32>, sp0: nat) returns (sp: nat)
    requires 8 <= sp0 <= ram.Length
    modifies ram
    ensures sp == sp0 - 8
    ensures ram[sp] == 0x4 && ram[sp + 1] == 0x5 && ram[sp + 2] == 0x6 && ram[sp + 3] == 0x7 &&
            ram[sp + 4] == 0x8 && ram[sp + 5] == 0x9 && ram[sp + 6] == 0xA && ram[sp + 7] == 0xB
    ensures forall k :: 0 <= k < ram.Length && !(sp <= k < sp0) ==> ram[k] == old(ram[k])
  {
    sp := sp0;
    sp := sp - 1; ram[sp] := 0xB;
    sp := sp - 1; ram[sp] := 0xA;
    sp := sp - 1; ram[sp] := 0x9;
    sp := sp - 1; ram[sp] := 0x8;
    sp := sp - 1; ram[sp] := 0x7;
    sp := sp - 1; ram[sp] := 0x6;
    sp := sp - 1; ram[sp] := 0x5;
    sp := sp - 1; ram[sp] := 0x4;
  }

  /**
   * The sixteen `*(--sp) = ...` writes of `OSThread_start`: the initial frame
   * lies just below the stack top `top` (a word index), and the returned
   * stack pointer (a word index) points at its lowest word.
   */
  method PushFrame(ram: array<u32>, top: nat, handler: u32) returns (sp: nat)
    requires FRAME_WORDS <= top <= ram.Length
    modifies ram
    ensures sp == top - FRAME_WORDS
    ensures ram[sp .. top] == InitialFrame(handler)
    ensures forall k :: 0 <= k < ram.Length && !(sp <= k < top) ==> ram[k] == old(ram[k])
  {
    var mid := PushExceptionFrame(ram, top, handler);
    sp := PushRegisterFrame(ram, mid);
    assert ram[sp .. top] == ram[sp .. mid] + ram[mid .. top];
  }

  /**
   * The prefill loop of `OSThread_start`: every word from just below the
   * stack pointer `sp` down to the limit `limit` (word indices) gets the
   * poison pattern, and nothing else is written.
   */
  method FillPoison(ram: array<u32>, sp: nat, limit: nat)
    requires 0 < limit && sp <= ram.Length
    modifies ram
    ensures forall k :: limit <= k < sp ==> ram[k] == POISON
    ensures forall k :: 0 <= k < ram.Length && !(limit <= k < sp) ==> ram[k] == old(ram[k])
  {
    var w: int := sp - 1;
    while w >= limit
      invariant limit - 1 <= w < sp || w == sp - 1
      invariant forall k :: w < k < sp ==> ram[k] == POISON
      invariant forall k :: 0 <= k < ram.Length && !(w < k < sp) ==> ram[k] == old(ram[k])
      decreases w
    {
      ram[w] := POISON;
      w := w - 1;
    }
  }

  /** The byte address of the word `w` lying 16 words below the 8-byte-aligned stack top `top`. */
  lemma WordAddress(top: nat, w: nat)
    requires top % 8 == 0 && FRAME_WORDS <= top / 4 && w == top / 4 - FRAME_WORDS
    ensures 4 * w == top - 4 * FRAME_WORDS && (4 * w) % 4 == 0 && (4 * w) / 4 == w
  {
  }

  /**
   * The whole stack preparation of `OSThread_start` on word indices: the
   * initial frame below the top `top`, the returned stack pointer at its
   * lowest word, the poison pattern from just below it down to `limit`, and
   * nothing else written.
   */
  method BuildStack(ram: array<u32>, top: nat, limit: nat, handler: u32) returns (sp: nat)
    requires 0 < limit && FRAME_WORDS <= top <= ram.Length
    modifies ram
    ensures sp == top - FRAME_WORDS
    ensures ram[sp .. top] == InitialFrame(handler)
    ensures forall k :: limit <= k < sp ==> ram[k] == POISON
    ensures forall k :: 0 <= k < ram.Length && k < limit && k < sp ==> ram[k] == old(ram[k])
    ensures forall k :: top <= k < ram.Length ==> ram[k] == old(ram[k])
  {
    sp := PushFrame(ram, top, handler);
    ghost var frame := ram[sp .. top];
    FillPoison(ram, sp, limit);
    assert ram[sp .. top] == frame;
  }
}
