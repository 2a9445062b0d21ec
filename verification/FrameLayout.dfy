/** Register layout and the byte stack that holds register frames (src/vm/frame.c, src/vm/reg.c). */
module FrameLayout {
  import opened Base

  const MAX_REGS: nat := 256
  const MAX_FRAMES: nat := 100000
  const MAX_CAP: nat := 0x1000_0000
  const INITIAL_CAP: nat := 0x1_0000

  /** The kinds of registers that matter for layout: four-byte scalars, eight-byte scalars, tagged values
      and pointers on a 64-bit machine. */
  datatype Kind = Word32 | Word64 | Dynamic | Pointer

  /** `jello_slot_size`. */
  function SlotSize(k: Kind): (n: nat)
    ensures n == 4 || n == 8
  {
    if k == Word32 then 4 else 8
  }

  /** `align_up` for the two sizes in use. */
  function AlignUp(x: nat, a: nat): (y: nat)
    requires a == 4 || a == 8
    ensures x <= y < x + a && y % a == 0
    ensures forall n: nat :: x <= 8 * n ==> y <= 8 * n
  {
    if a == 4 then (x + 3) / 4 * 4 else (x + 7) / 8 * 8
  }

  /** The slots of the first `n` registers are aligned to their sizes, lie one after the other without
      overlap, and end at `total`. */
  ghost predicate LaidOut(kinds: seq<Kind>, off: seq<nat>, n: nat, total: nat) {
    && n <= |kinds| && n <= |off|
    && (forall i :: 0 <= i < n ==> off[i] % SlotSize(kinds[i]) == 0 && off[i] + SlotSize(kinds[i]) <= total)
    && (forall i, j :: 0 <= i < j < n ==> off[i] + SlotSize(kinds[i]) <= off[j])
  }

  /** The size of a frame: what `vm_get_frame_layout` adds up. */
  function Total(kinds: seq<Kind>): (t: nat)
    ensures t <= 8 * |kinds|
    ensures |kinds| > 0 ==> t > 0
  {
    if |kinds| == 0 then 0
    else
      var n := |kinds| - 1;
      var size := SlotSize(kinds[n]);
      AlignUp(Total(kinds[..n]), size) + size
  }

  lemma OneMoreSlot(kinds: seq<Kind>, off: seq<nat>, total: nat)
    requires |off| < |kinds| && LaidOut(kinds, off, |off|, total)
    ensures var size := SlotSize(kinds[|off|]);
            LaidOut(kinds, off + [AlignUp(total, size)], |off| + 1, AlignUp(total, size) + size)
  {
    hide AlignUp;
  }

  lemma TotalGrows(kinds: seq<Kind>, i: nat)
    requires i < |kinds|
    ensures var size := SlotSize(kinds[i]);
            Total(kinds[..i + 1]) == AlignUp(Total(kinds[..i]), size) + size
  {
    assert kinds[..i + 1][..i] == kinds[..i];
  }

  /** One register more: its slot, of four bytes for a small scalar and eight for anything else, starts at the first
      multiple of its size that is not below what is used, and the frame ends with it. */
  lemma LayoutIsTight(kinds: seq<Kind>, k: Kind)
    ensures Total([]) == 0
    ensures var size := if k == Word32 then 4 else 8;
      var start := Total(kinds + [k]) - size;
      Total(kinds) <= start < Total(kinds) + size && start % size == 0
  {
    assert (kinds + [k])[..|kinds|] == kinds;
  }

  /** The loop of `vm_get_frame_layout`. */
  method GetFrameLayout(kinds: seq<Kind>) returns (off: seq<nat>, total: nat)
    ensures |off| == |kinds| && LaidOut(kinds, off, |kinds|, total)
    ensures total == Total(kinds) <= 8 * |kinds|
  {
    hide AlignUp, SlotSize;
    off, total := [], 0;
    var i := 0;
    assert kinds[..0] == [];
    assert LaidOut(kinds, off, 0, total) && total == Total(kinds[..0]);
    hide LaidOut, Total;
    while i < |kinds|
      invariant 0 <= i <= |kinds| && |off| == i
      invariant LaidOut(kinds, off, i, total) && total == Total(kinds[..i])
    {
      TotalGrows(kinds, i);
      OneMoreSlot(kinds, off, total);
      var size := SlotSize(kinds[i]);
      total := AlignUp(total, size);
      off := off + [total];
      total := total + size;
      i := i + 1;
    }
    assert kinds[..i] == kinds;
  }

  // ---- the byte stack ------------------------------------------------------------------------------------

  /** The capacities the stack can have: none yet, or 64 KiB times a power of four up to 2^28. */
  predicate IsStackCap(cap: nat) {
    cap in {0, 0x1_0000, 0x4_0000, 0x10_0000, 0x40_0000, 0x100_0000, 0x400_0000, 0x1000_0000}
  }

  lemma FirstCap()
    ensures IsStackCap(0)
  {
  }

  /** `vm_frame_stack_grow`, in 32-bit arithmetic: while no more than 2^28 bytes are in use it ends, with
      enough room and without overflow. */
  method GrownCap(top: nat, cap: nat, need: nat) returns (newCap: nat)
    requires IsStackCap(cap) && top + need <= MAX_CAP
    ensures IsStackCap(newCap) && top + need <= newCap <= MAX_CAP && cap <= newCap
    ensures top + need <= cap ==> newCap == cap
  {
    if (top + need) % U32 <= cap { return cap; }
    newCap := if cap != 0 then cap * 4 % U32 else INITIAL_CAP;
    while newCap < (top + need) % U32
      invariant IsStackCap(newCap) && cap < newCap
      decreases MAX_CAP - newCap
    {
      newCap := newCap * 4 % U32;
    }
  }

  /** With the frame limit of the VM and the register limit of the loader the stack stays below 2^28. */
  lemma LimitsFit(frames: nat, kinds: seq<Kind>)
    requires frames <= MAX_FRAMES && |kinds| <= MAX_REGS
    ensures Total(kinds) <= 8 * MAX_REGS
    ensures frames * (8 * MAX_REGS) <= MAX_CAP
  {
  }
}
